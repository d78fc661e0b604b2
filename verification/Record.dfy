/**
 The record format: varints, encoding, in-place header rewriting, parsing and
 the forward iterator over a run of records.
 */
module Record {

  import opened Wrappers
  import opened Bytes
  import opened Crc32c

  const FIXED_PREFIX := 25
  const MAX_RECORD_BYTES := 0x100_0000

  /** A null key is `None`; an empty key is `Some([])`. */
  datatype Record = Record(
    offset: i64,
    timestamp: i64,
    attributes: byte,
    key: Option<seq<byte>>,
    value: seq<byte>)

  datatype Error = OutOfRange | Corruption

  datatype Parsed = Parsed(record: Record, size: nat) | Failed(error: Error)

  // ------------------------------------------------------------------ varints

  /** Seven bits a byte, low first, high bit set on all but the last. */
  function VarUInt(v: nat): (bs: seq<byte>)
    ensures |bs| >= 1
  {
    if v < 128 then [v] else [v % 128 + 128] + VarUInt(v / 128)
  }

  function Pow128(k: nat): (p: nat)
    ensures p > 0
  {
    if k == 0 then 1 else 128 * Pow128(k - 1)
  }

  // The varint at the front of bs with at most `budget` bytes: its full value
  // and its length, or a length of zero.
  function VarAtFront(bs: seq<byte>, budget: nat): (r: (nat, nat))
    ensures r.1 <= |bs|
    decreases budget
  {
    if budget == 0 || bs == [] then (0, 0)
    else if bs[0] < 128 then (bs[0], 1)
    else
      var (v, n) := VarAtFront(bs[1..], budget - 1);
      if n == 0 then (0, 0) else (bs[0] % 128 + 128 * v, n + 1)
  }

  // Ten bytes at most: the shift stays below 64.
  function ReadVar(bs: seq<byte>): (r: (nat, nat))
    ensures r.1 <= |bs|
  {
    VarAtFront(bs, 10)
  }

  // The value of seven-bit digits, each weighing 128 times the one before it.
  function Digits(bs: seq<byte>): nat {
    if bs == [] then 0 else Digits(bs[..|bs| - 1]) + Weigh(bs[|bs| - 1] % 128, Pow128(|bs| - 1))
  }

  function Weigh(d: nat, p: nat): nat {
    d * p
  }

  lemma WeighNext(d: nat, p: nat)
    ensures 128 * Weigh(d, p) == Weigh(d, 128 * p)
  {
  }

  lemma {:induction false} DigitsFirst(bs: seq<byte>)
    requires bs != []
    ensures Digits(bs) == bs[0] % 128 + 128 * Digits(bs[1..])
  {
    hide Weigh;
    var n := |bs| - 1;
    if n == 0 {
      assert bs[..0] == [] && bs[1..] == [];
      WeighOne(bs[0] % 128);
    } else {
      assert bs[1..][..n - 1] == bs[..n][1..];
      DigitsFirst(bs[..n]);
      WeighNext(bs[n] % 128, Pow128(n - 1));
    }
  }

  lemma WeighOne(d: nat)
    ensures Weigh(d, Pow128(0)) == d
  {
  }

  // n bytes, all but the last marked as continued.
  predicate Terminated(bs: seq<byte>, n: nat) {
    1 <= n <= |bs| && bs[n - 1] < 128 && forall i :: 0 <= i < n - 1 ==> bs[i] >= 128
  }

  /** A varint of at most ten bytes, minimal or not, reads as its digits; anything else reads as malformed. */
  lemma {:induction false} VarMeans(bs: seq<byte>, budget: nat, n: nat)
    ensures Terminated(bs, n) && n <= budget ==> VarAtFront(bs, budget) == (Digits(bs[..n]), n)
    ensures (forall k: nat :: Terminated(bs, k) ==> k > budget) ==> VarAtFront(bs, budget).1 == 0
    decreases budget
  {
    if bs != [] && budget > 0 {
      if bs[0] < 128 {
        assert Terminated(bs, 1);
        assert Terminated(bs, n) ==> n == 1;
        DigitsFirst(bs[..1]);
      } else {
        forall k: nat ensures Terminated(bs[1..], k) <==> Terminated(bs, k + 1) {
          TerminatedNext(bs, k);
        }
        if n > 0 {
          VarMeans(bs[1..], budget - 1, n - 1);
          if Terminated(bs, n) {
            DigitsFirst(bs[..n]);
            assert bs[..n][1..] == bs[1..][..n - 1];
          }
        } else {
          VarMeans(bs[1..], budget - 1, 0);
        }
      }
    }
  }

  lemma TerminatedNext(bs: seq<byte>, k: nat)
    requires bs != [] && bs[0] >= 128
    ensures Terminated(bs[1..], k) <==> Terminated(bs, k + 1)
  {
    if Terminated(bs[1..], k) {
      forall i | 0 <= i < k ensures bs[i] >= 128 {
        assert i > 0 ==> bs[i] == bs[1..][i - 1];
      }
    }
  }

  method WriteVarUInt(v: nat) returns (dst: seq<byte>)
    ensures dst == VarUInt(v)
  {
    dst := [];
    var rest := v;
    while rest >= 128
      invariant dst + VarUInt(rest) == VarUInt(v)
      decreases rest
    {
      assert dst + VarUInt(rest) == (dst + [rest % 128 + 128]) + VarUInt(rest / 128);
      dst := dst + [rest % 128 + 128];
      rest := rest / 128;
    }
    dst := dst + [rest];
  }

  // The low seven bits, shifted into place.
  function Digit(b: byte, scale: nat): nat {
    var d: int := b % 128;
    d * scale
  }

  function Low64(n: nat): nat {
    n % 0x1_0000_0000_0000_0000
  }

  /** ReadVarUInt: ten bytes at most, the value kept to 64 bits; zero consumed when malformed. */
  method ReadVarUInt(data: seq<byte>) returns (out: nat, consumed: nat)
    ensures consumed == ReadVar(data).1
    ensures out == Low64(ReadVar(data).0)
  {
    hide ReadVar, VarAtFront, Resumed, Low64, Pow128, Digit;
    ghost var full: nat := 0;
    out, consumed := 0, 0;
    var scale: nat := 1;
    ResumeStart(data, 10 - consumed);
    while consumed < 10 && consumed < |data|
      invariant consumed <= 10 && consumed <= |data| && scale == Pow128(consumed)
      invariant out == Low64(full)
      invariant ReadVar(data)
             == Resumed(full, consumed, VarAtFront(data[consumed..], 10 - consumed))
      decreases |data| - consumed
    {
      var last := data[consumed] < 128;
      var shifted := Digit(data[consumed], scale);
      ResumeStep(data, full, consumed, shifted);
      Truncate(full, shifted);
      out := Low64(out + shifted);
      full := full + shifted;
      consumed := consumed + 1;
      if last {
        return;
      }
      scale := 128 * scale;
    }
    ResumeEnds(data, full, consumed);
    return 0, 0;
  }

  lemma ResumeStart(data: seq<byte>, budget: nat)
    requires budget == 10
    ensures ReadVar(data) == Resumed(0, 0, VarAtFront(data[0..], budget))
    ensures Low64(0) == 0 && Pow128(0) == 1
  {
    assert data[0..] == data;
    NoneIsZero(data, budget);
  }

  lemma ResumeEnds(data: seq<byte>, full: nat, consumed: nat)
    requires consumed <= |data| && consumed <= 10 && (consumed == 10 || consumed == |data|)
    ensures Resumed(full, consumed, VarAtFront(data[consumed..], 10 - consumed)) == (0, 0)
    ensures Low64(0) == 0
  {
  }

  lemma NoneIsZero(bs: seq<byte>, budget: nat)
    ensures VarAtFront(bs, budget).1 == 0 ==> VarAtFront(bs, budget).0 == 0
  {
  }

  // Seven bits above full, then what follows.
  ghost function Resumed(full: nat, consumed: nat, tail: (nat, nat)): (nat, nat) {
    if tail.1 == 0 then (0, 0) else (full + tail.0 * Pow128(consumed), tail.1 + consumed)
  }

  lemma ResumeStep(data: seq<byte>, full: nat, consumed: nat, shifted: nat)
    requires consumed < 10 && consumed < |data| && shifted == Digit(data[consumed], Pow128(consumed))
    ensures Resumed(full, consumed, VarAtFront(data[consumed..], 10 - consumed))
         == if data[consumed] < 128 then (full + shifted, consumed + 1)
            else Resumed(full + shifted, consumed + 1, VarAtFront(data[consumed + 1..], 10 - (consumed + 1)))
    ensures Pow128(consumed + 1) == 128 * Pow128(consumed)
  {
    var rest := data[consumed..];
    assert rest[1..] == data[consumed + 1..];
    Carry(rest[0] % 128, VarAtFront(rest[1..], 9 - consumed).0, Pow128(consumed));
  }

  lemma Carry(d: nat, v: nat, scale: nat)
    ensures (d + 128 * v) * scale == d * scale + v * (128 * scale)
  {
  }

  lemma Truncate(full: nat, more: nat)
    ensures Low64(Low64(full) + more) == Low64(full + more)
  {
    var m := 0x1_0000_0000_0000_0000;
    var rest := full % m + more;
    DivModUnique(full + more, m, full / m + rest / m, rest % m);
  }

  lemma {:induction false} VarLength(v: nat, k: nat)
    requires v < Pow128(k) && k >= 1
    ensures |VarUInt(v)| <= k
  {
    if v >= 128 {
      assert k >= 2;
      VarLength(v / 128, k - 1);
    }
  }

  lemma {:induction false} VarReadsBack(v: nat, rest: seq<byte>, budget: nat)
    requires |VarUInt(v)| <= budget
    ensures VarAtFront(VarUInt(v) + rest, budget) == (v, |VarUInt(v)|)
  {
    var bs := VarUInt(v) + rest;
    if v >= 128 {
      assert bs[1..] == VarUInt(v / 128) + rest;
      VarReadsBack(v / 128, rest, budget - 1);
    }
  }

  /** Every 64-bit length reads back, whatever follows it. */
  lemma VarRoundTrip(v: u64, rest: seq<byte>)
    ensures ReadVar(VarUInt(v) + rest) == (v, |VarUInt(v)|) && |VarUInt(v)| <= 10
  {
    assert Pow128(5) == 0x8_0000_0000;
    assert Pow128(10) == 128 * (128 * (128 * (128 * (128 * Pow128(5)))));
    VarLength(v, 10);
    VarReadsBack(v, rest, 10);
  }

  // A varint is decided by its own bytes.
  lemma {:induction false} VarLocal(bs: seq<byte>, cs: seq<byte>, budget: nat)
    requires var n := VarAtFront(bs, budget).1; 0 < n <= |cs| && cs[..n] == bs[..n]
    ensures VarAtFront(cs, budget) == VarAtFront(bs, budget)
    decreases budget
  {
    var n := VarAtFront(bs, budget).1;
    assert cs[0] == cs[..n][0] == bs[0];
    if bs[0] >= 128 {
      assert cs[1..][..n - 1] == cs[..n][1..] && bs[1..][..n - 1] == bs[..n][1..];
      VarLocal(bs[1..], cs[1..], budget - 1);
    }
  }

  // ----------------------------------------------------------------- encoding

  function KeyField(key: Option<seq<byte>>): nat {
    match key
    case None => 0
    case Some(k) => |k| + 1
  }

  function KeyBytes(key: Option<seq<byte>>): seq<byte> {
    match key
    case None => []
    case Some(k) => k
  }

  function Fixed(r: Record): (bs: seq<byte>)
    ensures |bs| == 17
  {
    StoreI64(r.offset) + StoreI64(r.timestamp) + [r.attributes]
  }

  function Tail(r: Record): seq<byte> {
    VarUInt(KeyField(r.key)) + (VarUInt(|r.value|) + (KeyBytes(r.key) + r.value))
  }

  /** AppendRecord: length, checksum of everything after it, fields, lengths, key, value. */
  function Encode(r: Record): (bs: seq<byte>)
    ensures |bs| == 25 + |Tail(r)|
  {
    var body := Fixed(r) + Tail(r);
    StoreLe(|body| + 4, 4) + StoreLe(Crc(body), 4) + body
  }

  /** The byte layout: length, checksum, offset, timestamp, attributes, the two lengths, key, value. */
  lemma RecordLayout(r: Record)
    requires Fits(r)
    ensures var bs := Encode(r); var keyLength := if r.key.None? then 0 else |r.key.value| + 1;
      && LoadLe(bs[0..4]) == |bs| - 4 && LoadLe(bs[4..8]) == Crc(bs[8..])
      && LoadI64(bs[8..16]) == r.offset && LoadI64(bs[16..24]) == r.timestamp && bs[24] == r.attributes
      && var n := ReadVar(bs[25..]).1;
      && 25 + n <= |bs| && ReadVar(bs[25..]).0 == keyLength
      && var m := ReadVar(bs[25 + n..]).1;
      && 25 + n + m <= |bs| && ReadVar(bs[25 + n..]).0 == |r.value|
      && bs[25 + n + m..] == (if r.key.None? then [] else r.key.value) + r.value
  {
    hide Crc, LoadLe, StoreLe, Encode, Tail, ReadVar, Low64, LoadI64, StoreI64, VarUInt, Pow256;
    var bs := Encode(r);
    EncodeParts(r);
    Widths();
    LoadStore(|bs| - 4, 4);
    LoadStore(Crc(bs[8..]), 4);
    LoadStoreI64(r.offset);
    LoadStoreI64(r.timestamp);
    TailReads(r, []);
    var t, n, m := Tail(r), |VarUInt(KeyField(r.key))|, |VarUInt(|r.value|)|;
    assert t + [] == t && bs[0..4] == bs[..4];
    assert bs[25 + n..] == t[n..] && bs[25 + n + m..] == t[n + m..];
    assert KeyBytes(r.key) + r.value + [] == KeyBytes(r.key) + r.value;
  }

  // ------------------------------------------------------------------ parsing

  /** ParseRecord on the bytes from the cursor to the end of the data. */
  function Parse(bs: seq<byte>, verify: bool): (p: Parsed)
    ensures p.Parsed? ==> FIXED_PREFIX <= p.size <= |bs|
  {
    if |bs| < FIXED_PREFIX then Failed(OutOfRange)
    else
      var length := LoadLe(bs[..4]);
      if length < FIXED_PREFIX - 4 || length > MAX_RECORD_BYTES then Failed(Corruption)
      else
        var total := length + 4;
        if total > |bs| then Failed(OutOfRange)
        else if verify && LoadLe(bs[4..8]) != Crc(bs[8..total]) then Failed(Corruption)
        else ParseFields(bs, total)
  }

  function ParseFields(bs: seq<byte>, total: nat): (p: Parsed)
    requires FIXED_PREFIX <= total <= |bs|
    ensures p.Parsed? ==> p.size == total
    ensures p.Failed? ==> p.error == Corruption
  {
    var (keyField, n) := ReadVar(bs[FIXED_PREFIX..]);
    if n == 0 then Failed(Corruption)
    else
      var (valueLen, m) := ReadVar(bs[FIXED_PREFIX + n..]);
      if m == 0 then Failed(Corruption)
      else
        var cursor, keyLen := FIXED_PREFIX + n + m, if Low64(keyField) == 0 then 0 else Low64(keyField) - 1;
        if cursor + keyLen + Low64(valueLen) != total then Failed(Corruption)
        else
          var key := if Low64(keyField) == 0 then None else Some(bs[cursor..cursor + keyLen]);
          Parsed(Record(LoadI64(bs[8..16]), LoadI64(bs[16..24]), bs[24], key, bs[cursor + keyLen..total]), total)
  }

  lemma EncodeParts(r: Record)
    ensures var bs := Encode(r);
      && bs[..4] == StoreLe(|bs| - 4, 4) && bs[4..8] == StoreLe(Crc(bs[8..]), 4)
      && bs[8..16] == StoreI64(r.offset) && bs[16..24] == StoreI64(r.timestamp) && bs[24] == r.attributes
      && bs[25..] == Tail(r)
  {
    hide Crc, StoreLe, Tail, StoreI64;
    var body := Fixed(r) + Tail(r);
    assert Encode(r)[8..] == body;
  }

  // The lengths and bytes after the fixed prefix.
  lemma TailReads(r: Record, suffix: seq<byte>)
    requires |Tail(r)| < 0x8000_0000_0000_0000
    ensures var n, m := |VarUInt(KeyField(r.key))|, |VarUInt(|r.value|)|; var t := Tail(r) + suffix;
      && n + m <= |t| && ReadVar(t) == (KeyField(r.key), n) && ReadVar(t[n..]) == (|r.value|, m)
      && |Tail(r)| == n + m + |KeyBytes(r.key)| + |r.value|
      && t[n + m..] == KeyBytes(r.key) + r.value + suffix
      && Low64(KeyField(r.key)) == KeyField(r.key) && Low64(|r.value|) == |r.value|
  {
    hide VarUInt, ReadVar;
    var k, v := VarUInt(KeyField(r.key)), VarUInt(|r.value|);
    var t := Tail(r) + suffix;
    assert t == k + (v + (KeyBytes(r.key) + r.value) + suffix);
    VarRoundTrip(KeyField(r.key), v + (KeyBytes(r.key) + r.value) + suffix);
    assert t[|k|..] == v + (KeyBytes(r.key) + r.value + suffix);
    VarRoundTrip(|r.value|, KeyBytes(r.key) + r.value + suffix);
  }

  /** Whatever follows it, an encoded record parses back to itself exactly when it is within the size limit. */
  lemma ParseEncode(r: Record, suffix: seq<byte>, verify: bool)
    ensures Parse(Encode(r) + suffix, verify) == Parsed(r, |Encode(r)|) <==> |Encode(r)| - 4 <= MAX_RECORD_BYTES
  {
    hide Crc, LoadLe, StoreLe, Encode, Tail, ReadVar, Low64, LoadI64, StoreI64, VarUInt;
    var e := Encode(r);
    var bs := e + suffix;
    EncodeParts(r);
    assert bs[..4] == e[..4];
    if |e| - 4 <= MAX_RECORD_BYTES {
      LoadBack(|e| - 4);
      LoadBack(Crc(e[8..]));
      assert bs[4..8] == e[4..8] && bs[8..|e|] == e[8..];
      FieldsBack(r, suffix);
    }
  }

  /** Past the size limit, and while the length still fits its field, it is reported as corrupt. */
  lemma ParseTooLong(r: Record, suffix: seq<byte>, verify: bool)
    requires MAX_RECORD_BYTES < |Encode(r)| - 4 < 0x1_0000_0000
    ensures Parse(Encode(r) + suffix, verify) == Failed(Corruption)
  {
    hide Crc, LoadLe, StoreLe, Encode, Tail, ParseFields;
    var e := Encode(r);
    EncodeParts(r);
    assert (e + suffix)[..4] == e[..4];
    LoadBack(|e| - 4);
  }

  lemma LoadBack(n: u32)
    ensures LoadLe(StoreLe(n, 4)) == n
  {
    hide LoadLe, StoreLe, Pow256;
    Widths();
    LoadStore(n, 4);
  }

  lemma FieldsBack(r: Record, suffix: seq<byte>)
    requires |Encode(r)| - 4 <= MAX_RECORD_BYTES
    ensures ParseFields(Encode(r) + suffix, |Encode(r)|) == Parsed(r, |Encode(r)|)
  {
    hide Crc, LoadLe, StoreLe, Encode, Tail, ReadVar, Low64, LoadI64, StoreI64, VarUInt;
    var e := Encode(r);
    var bs := e + suffix;
    EncodeParts(r);
    TailReads(r, suffix);
    var t := Tail(r) + suffix;
    var n, m := |VarUInt(KeyField(r.key))|, |VarUInt(|r.value|)|;
    assert bs[25..] == t && bs[25 + n..] == t[n..];
    assert bs[8..16] == e[8..16] && bs[16..24] == e[16..24];
    LoadStoreI64(r.offset);
    LoadStoreI64(r.timestamp);
    var c, k := 25 + n + m, |KeyBytes(r.key)|;
    var last := KeyBytes(r.key) + r.value + suffix;
    assert bs[c..] == last;
    InnerSlice(bs, c, last, 0, k);
    InnerSlice(bs, c, last, k, k + |r.value|);
    assert last[0..k] == KeyBytes(r.key) && last[k..k + |r.value|] == r.value;
  }

  /** A proper prefix of an encoded record is short, never corrupt. */
  lemma TornRecord(r: Record, n: nat, verify: bool)
    requires n < |Encode(r)| && |Encode(r)| - 4 <= MAX_RECORD_BYTES
    ensures Parse(Encode(r)[..n], verify) == Failed(OutOfRange)
  {
    hide Crc, LoadLe, StoreLe, Encode, Tail, ParseFields;
    EncodeParts(r);
    if n >= FIXED_PREFIX {
      assert Encode(r)[..n][..4] == Encode(r)[..4];
      LoadBack(|Encode(r)| - 4);
    }
  }

  // ------------------------------------------------ a record's own bytes decide

  // The two varints, or nothing when they do not end within the first `room` bytes.
  lemma VarWindow(bs: seq<byte>, cs: seq<byte>, room: nat)
    requires room <= |bs| && room <= |cs| && bs[..room] == cs[..room]
    ensures var n, m := ReadVar(bs).1, ReadVar(cs).1;
      if 0 < n <= room then ReadVar(cs) == ReadVar(bs) else m == 0 || m > room
  {
    hide VarAtFront;
    var n, m := ReadVar(bs).1, ReadVar(cs).1;
    if 0 < n <= room {
      assert bs[..n] == bs[..room][..n] && cs[..n] == cs[..room][..n];
      VarLocal(bs, cs, 10);
    } else if 0 < m <= room {
      assert bs[..m] == bs[..room][..m] && cs[..m] == cs[..room][..m];
      VarLocal(cs, bs, 10);
    }
  }

  lemma FieldsWindow(bs: seq<byte>, cs: seq<byte>, total: nat)
    requires FIXED_PREFIX <= total <= |bs| && total <= |cs| && bs[..total] == cs[..total]
    ensures ParseFields(bs, total) == ParseFields(cs, total)
  {
    hide ReadVar, Low64, LoadI64;
    Slices(bs, cs, total, FIXED_PREFIX);
    VarWindow(bs[FIXED_PREFIX..], cs[FIXED_PREFIX..], total - FIXED_PREFIX);
    var n := ReadVar(bs[FIXED_PREFIX..]).1;
    if 0 < n <= total - FIXED_PREFIX {
      Slices(bs, cs, total, FIXED_PREFIX + n);
      VarWindow(bs[FIXED_PREFIX + n..], cs[FIXED_PREFIX + n..], total - FIXED_PREFIX - n);
      forall i, j | 0 <= i <= j <= total
        ensures bs[i..j] == cs[i..j]
      {
        SameSlice(bs, cs, total, i, j);
      }
      assert bs[24] == bs[..total][24] && cs[24] == cs[..total][24];
    }
  }

  lemma Slices(bs: seq<byte>, cs: seq<byte>, total: nat, i: nat)
    requires i <= total <= |bs| && total <= |cs| && bs[..total] == cs[..total]
    ensures bs[i..][..total - i] == cs[i..][..total - i]
  {
    assert bs[i..][..total - i] == bs[..total][i..] && cs[i..][..total - i] == cs[..total][i..];
  }

  ghost predicate Declares(bs: seq<byte>, total: nat) {
    |bs| >= 4 && LoadLe(bs[..4]) + 4 == total
  }

  /** When a record is present in full, what follows it never changes the verdict. */
  lemma ParseWindow(bs: seq<byte>, cs: seq<byte>, total: nat, verify: bool)
    requires FIXED_PREFIX <= total <= |bs| && total <= |cs| && bs[..total] == cs[..total] && Declares(bs, total)
    ensures Parse(bs, verify) == Parse(cs, verify)
  {
    hide Crc, LoadLe, ParseFields;
    assert bs[..4] == bs[..total][..4] && cs[..4] == cs[..total][..4];
    assert bs[4..8] == bs[..total][4..8] && cs[4..8] == cs[..total][4..8];
    assert bs[8..total] == bs[..total][8..] && cs[8..total] == cs[..total][8..];
    FieldsWindow(bs, cs, total);
  }

  lemma ParsedDeclares(bs: seq<byte>, verify: bool)
    requires Parse(bs, verify).Parsed?
    ensures Declares(bs, Parse(bs, verify).size)
  {
    hide Crc, LoadLe;
  }

  /** A valid record with any stretch of up to four bytes after the checksum altered is refused. */
  lemma DamagedRecord(rec: seq<byte>, i: nat, y: seq<byte>, suffix: seq<byte>)
    requires Parse(rec, true).Parsed? && Parse(rec, true).size == |rec|
    requires 8 <= i && i + |y| <= |rec| && |y| <= 4 && y != rec[i..i + |y|]
    ensures Parse(rec[..i] + y + rec[i + |y|..] + suffix, true) == Failed(Corruption)
  {
    hide Crc, LoadLe, ParseFields;
    var bad := rec[..i] + y + rec[i + |y|..];
    var bs := bad + suffix;
    assert bs[..4] == rec[..4] && bs[4..8] == rec[4..8];
    var before, x, after := rec[8..i], rec[i..i + |y|], rec[i + |y|..];
    assert rec[8..|rec|] == before + x + after;
    assert bs[8..|rec|] == before + y + after;
    CrcBurst(before, x, y, after);
  }

  // ---------------------------------------------------------------- rewriting

  /** RewriteRecordHeader on one record's bytes. */
  function Rewritten(rec: seq<byte>, offset: i64, timestamp: i64): (bs: seq<byte>)
    requires |rec| >= FIXED_PREFIX
    ensures |bs| == |rec|
  {
    var body := StoreI64(offset) + StoreI64(timestamp) + rec[24..];
    rec[..4] + StoreLe(Crc(body), 4) + body
  }

  lemma RewrittenParts(rec: seq<byte>, offset: i64, timestamp: i64)
    requires |rec| >= FIXED_PREFIX
    ensures var bs := Rewritten(rec, offset, timestamp);
      && bs[..4] == rec[..4] && bs[4..8] == StoreLe(Crc(bs[8..]), 4)
      && bs[8..16] == StoreI64(offset) && bs[16..24] == StoreI64(timestamp) && bs[24..] == rec[24..]
  {
    hide Crc, StoreLe, StoreI64;
    var body := StoreI64(offset) + StoreI64(timestamp) + rec[24..];
    assert Rewritten(rec, offset, timestamp)[8..] == body;
  }

  /** Any parseable record, rewritten, parses with a valid checksum to the same record at its new place. */
  lemma RewriteKeeps(rec: seq<byte>, verify: bool, offset: i64, timestamp: i64)
    requires Parse(rec, verify).Parsed? && Parse(rec, verify).size == |rec|
    ensures Parse(Rewritten(rec, offset, timestamp), true)
         == Parsed(Parse(rec, verify).record.(offset := offset, timestamp := timestamp), |rec|)
  {
    hide Crc, LoadLe, StoreLe, ReadVar, Low64, LoadI64, StoreI64, Rewritten;
    var bs := Rewritten(rec, offset, timestamp);
    RewrittenParts(rec, offset, timestamp);
    LoadBack(Crc(bs[8..]));
    LoadStoreI64(offset);
    LoadStoreI64(timestamp);
    assert bs[8..|rec|] == bs[8..];
    forall i, j | 24 <= i <= j <= |rec|
      ensures bs[i..j] == rec[i..j]
    {
      TailSlice(bs, rec, 24, i, j);
    }
    forall i | 24 <= i <= |rec|
      ensures bs[i..] == rec[i..]
    {
      TailSlice(bs, rec, 24, i, i);
    }
    assert bs[24] == bs[24..][0] == rec[24];
  }

  // ---------------------------------------------------------------- in place

  function Put(s: seq<byte>, pos: nat, bytes: seq<byte>): (t: seq<byte>)
    requires pos + |bytes| <= |s|
    ensures |t| == |s|
    ensures forall k :: 0 <= k < |s| ==> t[k] == if pos <= k < pos + |bytes| then bytes[k - pos] else s[k]
  {
    s[..pos] + bytes + s[pos + |bytes|..]
  }

  // memcpy into a buffer.
  method StoreAt(buf: array<byte>, pos: nat, bytes: seq<byte>)
    requires pos + |bytes| <= buf.Length
    modifies buf
    ensures buf[..] == Put(old(buf[..]), pos, bytes)
  {
    var i := 0;
    while i < |bytes|
      invariant i <= |bytes|
      invariant buf[..] == Put(old(buf[..]), pos, bytes[..i])
    {
      buf[pos + i] := bytes[i];
      i := i + 1;
    }
  }

  lemma PutHeader(s: seq<byte>, start: nat, size: nat, offset: seq<byte>, timestamp: seq<byte>, crc: seq<byte>)
    requires start + size <= |s| && size >= FIXED_PREFIX && |offset| == |timestamp| == 8 && |crc| == 4
    ensures var t := Put(Put(s, start + 8, offset), start + 16, timestamp);
      var body := offset + timestamp + s[start..start + size][24..];
      && t[start + 8..start + size] == body
      && Put(t, start + 4, crc) == s[..start] + (s[start..start + size][..4] + crc + body) + s[start + size..]
  {
    hide Put;
    var t := Put(Put(s, start + 8, offset), start + 16, timestamp);
    var u := Put(t, start + 4, crc);
    var body := offset + timestamp + s[start..start + size][24..];
    assert t[start + 8..start + size] == body;
    assert u[..start] == s[..start] && u[start + size..] == s[start + size..];
    assert u[start..start + size] == s[start..start + size][..4] + crc + body;
    assert u == u[..start] + u[start..start + size] + u[start + size..];
  }

  method RewriteRecordHeader(buf: array<byte>, start: nat, size: nat, offset: i64, timestamp: i64)
    requires start + size <= buf.Length && size >= FIXED_PREFIX
    modifies buf
    ensures buf[..] == old(buf[..start]) + Rewritten(old(buf[start..start + size]), offset, timestamp)
                       + old(buf[start + size..])
  {
    hide Crc, StoreLe, StoreI64, Put;
    ghost var before := buf[..];
    assert before[..start] == buf[..start] && before[start..start + size] == buf[start..start + size]
        && before[start + size..] == buf[start + size..];
    StoreAt(buf, start + 8, StoreI64(offset));
    StoreAt(buf, start + 16, StoreI64(timestamp));
    var body := buf[start + 8..start + size];
    var crc := StoreLe(Crc(body), 4);
    PutHeader(before, start, size, StoreI64(offset), StoreI64(timestamp), crc);
    assert body == buf[..][start + 8..start + size];
    StoreAt(buf, start + 4, crc);
  }

  method AppendRecord(out: seq<byte>, r: Record) returns (out': seq<byte>, total: nat)
    ensures out' == out + Encode(r) && total == |Encode(r)|
  {
    hide Crc, StoreLe, StoreI64, VarUInt;
    var keyVar := WriteVarUInt(KeyField(r.key));
    var valueVar := WriteVarUInt(|r.value|);
    total := FIXED_PREFIX + |keyVar| + |valueVar| + |KeyBytes(r.key)| + |r.value|;
    var body := StoreI64(r.offset) + StoreI64(r.timestamp) + [r.attributes] + keyVar + valueVar;
    if r.key.Some? && r.key.value != [] {
      body := body + r.key.value;
    }
    if r.value != [] {
      body := body + r.value;
    }
    assert body == Fixed(r) + Tail(r);
    out' := out + StoreLe(total - 4, 4) + StoreLe(Crc(body), 4) + body;
  }

  // ParseRecord at a byte position of a larger run.
  function ParseAt(data: seq<byte>, pos: nat, verify: bool): Parsed {
    Parse(if pos <= |data| then data[pos..] else [], verify)
  }

  method ParseRecord(data: seq<byte>, pos: nat, verify: bool) returns (p: Parsed)
    ensures p == ParseAt(data, pos, verify)
  {
    hide Crc, LoadLe, ReadVar, Low64, LoadI64;
    if pos + FIXED_PREFIX > |data| {
      return Failed(OutOfRange);
    }
    ghost var bs := data[pos..];
    var length := LoadLe(data[pos..pos + 4]);
    assert data[pos..pos + 4] == bs[..4];
    if length < FIXED_PREFIX - 4 || length > MAX_RECORD_BYTES {
      return Failed(Corruption);
    }
    var total := length + 4;
    if pos + total > |data| {
      return Failed(OutOfRange);
    }
    assert data[pos + 4..pos + 8] == bs[4..8] && data[pos + 8..pos + total] == bs[8..total];
    if verify && LoadLe(data[pos + 4..pos + 8]) != Crc(data[pos + 8..pos + total]) {
      return Failed(Corruption);
    }
    p := ParseLengths(data, pos, total);
  }

  method ParseLengths(data: seq<byte>, pos: nat, total: nat) returns (p: Parsed)
    requires FIXED_PREFIX <= total && pos + total <= |data|
    ensures p == ParseFields(data[pos..], total)
  {
    hide ReadVar, Low64, LoadI64;
    ghost var bs := data[pos..];
    var cursor := pos + FIXED_PREFIX;
    assert data[cursor..] == bs[FIXED_PREFIX..];
    var keyField, consumed := ReadVarUInt(data[cursor..]);
    if consumed == 0 {
      return Failed(Corruption);
    }
    cursor := cursor + consumed;
    assert data[cursor..] == bs[FIXED_PREFIX + consumed..];
    var valueLen, more := ReadVarUInt(data[cursor..]);
    if more == 0 {
      return Failed(Corruption);
    }
    cursor := cursor + more;
    var keyLen := if keyField == 0 then 0 else keyField - 1;
    var end := pos + total;
    if cursor + keyLen > end || cursor + keyLen + valueLen > end || cursor + keyLen + valueLen != end {
      return Failed(Corruption);
    }
    ghost var c := cursor - pos;
    assert data[cursor..cursor + keyLen] == bs[c..c + keyLen] && data[cursor + keyLen..end] == bs[c + keyLen..total];
    assert data[pos + 8..pos + 16] == bs[8..16] && data[pos + 16..pos + 24] == bs[16..24];
    p := Parsed(Record(LoadI64(data[pos + 8..pos + 16]), LoadI64(data[pos + 16..pos + 24]), data[pos + 24],
                       if keyField == 0 then None else Some(data[cursor..cursor + keyLen]), data[cursor + keyLen..end]), total);
  }

  // --------------------------------------------------------------------- runs

  /** What an iterator reads off a byte string: records, the bytes they take, and why it stopped early. */
  datatype Run = Run(records: seq<Record>, consumed: nat, stopped: Option<Error>)

  function ParseRun(bs: seq<byte>, verify: bool): (run: Run)
    ensures run.consumed <= |bs|
  {
    if bs == [] then Run([], 0, None)
    else match Parse(bs, verify)
      case Failed(e) => Run([], 0, Some(e))
      case Parsed(r, n) => After([r], n, ParseRun(bs[n..], verify))
  }

  function After(records: seq<Record>, consumed: nat, rest: Run): Run {
    Run(records + rest.records, consumed + rest.consumed, rest.stopped)
  }

  function EncodeAll(rs: seq<Record>): seq<byte> {
    if rs == [] then [] else Encode(rs[0]) + EncodeAll(rs[1..])
  }

  predicate Fits(r: Record) {
    |Encode(r)| - 4 <= MAX_RECORD_BYTES
  }

  lemma ParseRunStep(bs: seq<byte>, verify: bool)
    requires bs != []
    ensures var p := Parse(bs, verify);
      ParseRun(bs, verify) ==
        if p.Failed? then Run([], 0, Some(p.error)) else After([p.record], p.size, ParseRun(bs[p.size..], verify))
  {
    hide Parse;
  }

  /** Encoded records read back in order, and what follows them reads as it would alone. */
  lemma {:induction false} RunRoundTrip(rs: seq<Record>, tail: seq<byte>, verify: bool)
    requires forall i :: 0 <= i < |rs| ==> Fits(rs[i])
    ensures ParseRun(EncodeAll(rs) + tail, verify) == After(rs, |EncodeAll(rs)|, ParseRun(tail, verify))
  {
    hide Encode, Parse, ParseRun, After, EncodeAll;
    var bs, after := EncodeAll(rs) + tail, ParseRun(tail, verify);
    EncodeStep(rs);
    if rs == [] {
      AfterNothing(after);
      assert bs == tail;
    } else {
      var e, rest := Encode(rs[0]), EncodeAll(rs[1..]) + tail;
      assert bs == e + rest && bs[|e|..] == rest;
      ParseEncode(rs[0], rest, verify);
      ParseRunStep(bs, verify);
      RunRoundTrip(rs[1..], tail, verify);
      AfterBoth(rs, |e|, |EncodeAll(rs[1..])|, after);
    }
  }

  lemma EncodeStep(rs: seq<Record>)
    ensures EncodeAll(rs) == if rs == [] then [] else Encode(rs[0]) + EncodeAll(rs[1..])
  {
    hide Encode;
  }

  lemma AfterNothing(run: Run)
    ensures After([], 0, run) == run
  {
    assert [] + run.records == run.records;
  }

  lemma AfterBoth(rs: seq<Record>, n: nat, m: nat, run: Run)
    requires rs != []
    ensures After([rs[0]], n, After(rs[1..], m, run)) == After(rs, n + m, run)
  {
    assert [rs[0]] + (rs[1..] + run.records) == rs + run.records;
  }

  /** A run cut anywhere reads as the whole records before the cut, and is short unless cut between records. */
  lemma {:induction false} TornRun(rs: seq<Record>, n: nat, verify: bool)
    requires (forall i :: 0 <= i < |rs| ==> Fits(rs[i])) && n <= |EncodeAll(rs)|
    ensures var run := ParseRun(EncodeAll(rs)[..n], verify);
      && run.records <= rs && run.consumed == |EncodeAll(run.records)| <= n
      && (run.stopped == if run.consumed == n then None else Some(OutOfRange))
  {
    hide Encode, Parse;
    if n > 0 {
      var e, bs := Encode(rs[0]), EncodeAll(rs)[..n];
      if n < |e| {
        assert bs == e[..n];
        TornRecord(rs[0], n, verify);
        assert EncodeAll([]) == [];
      } else {
        var rest := EncodeAll(rs[1..])[..n - |e|];
        assert bs == e + rest;
        ParseEncode(rs[0], rest, verify);
        assert bs[|e|..] == rest;
        TornRun(rs[1..], n - |e|, verify);
        var records := ParseRun(rest, verify).records;
        assert ([rs[0]] + records)[1..] == records;
      }
    }
  }

  class RecordIterator {
    const data: seq<byte>
    const verify: bool
    var pos: nat
    var status: Option<Error>
    var recordsRead: nat
    ghost var records: seq<Record>

    ghost predicate Valid()
      reads this
    {
      && pos <= |data| && recordsRead == |records|
      && ParseRun(data, verify)
         == if status.Some? then Run(records, pos, status) else After(records, pos, ParseRun(data[pos..], verify))
    }

    constructor (data: seq<byte>, verify: bool)
      ensures Valid() && this.data == data && this.verify == verify && records == [] && pos == 0 && status == None
    {
      this.data, this.verify := data, verify;
      pos, status, recordsRead := 0, None, 0;
      records := [];
      assert data[0..] == data;
    }

    method Next() returns (out: Option<Record>)
      requires Valid()
      modifies this
      ensures Valid()
      ensures out.Some? ==> records == old(records) + [out.value] && pos > old(pos)
      ensures out.None? ==> ParseRun(data, verify) == Run(old(records), old(pos), status) && records == old(records)
    {
      hide Parse;
      if status.Some? || pos >= |data| {
        return None;
      }
      var p := ParseRecord(data, pos, verify);
      if p.Failed? {
        status := Some(p.error);
        return None;
      }
      assert data[pos..][p.size..] == data[pos + p.size..];
      ghost var rest := ParseRun(data[pos + p.size..], verify);
      assert records + ([p.record] + rest.records) == (records + [p.record]) + rest.records;
      pos := pos + p.size;
      recordsRead := recordsRead + 1;
      records := records + [p.record];
      return Some(p.record);
    }
  }
}
