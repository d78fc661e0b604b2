/**
 A log segment: a byte file of framed records and its sparse offset index.
 `rs` is always the list of record byte strings the file holds up to its end
 position; the operations work on the bytes and the index alone.
 */
module Segments {

  import opened Wrappers
  import opened Bytes
  import R = Record

  const MAX_RECORD_BYTES := R.MAX_RECORD_BYTES
  const CHUNK_BYTES := 0x10_0000
  const UINT32_MAX := 0xFFFF_FFFF

  datatype Entry = Entry(relative: nat, position: nat)

  datatype Segment = Segment(
    base: nat,
    file: seq<byte>,
    endPosition: nat,
    nextOffset: nat,
    synced: nat,
    lastIndexed: nat,
    index: seq<Entry>)

  datatype Error = OutOfRange | Corruption

  // ------------------------------------------------------------ record lists

  predicate Framed(b: seq<byte>) {
    |b| >= R.FIXED_PREFIX && LoadLe(b[..4]) + 4 == |b|
  }

  predicate AllFramed(rs: seq<seq<byte>>) {
    forall i :: 0 <= i < |rs| ==> Framed(rs[i])
  }

  function Flat(rs: seq<seq<byte>>): seq<byte> {
    if rs == [] then [] else Flat(rs[..|rs| - 1]) + rs[|rs| - 1]
  }

  /** Where record k begins: the sizes of all earlier records. */
  function Start(rs: seq<seq<byte>>, k: nat): (p: nat)
    requires k <= |rs|
  {
    if k == 0 then 0 else Start(rs, k - 1) + |rs[k - 1]|
  }

  lemma {:induction false} StartPrefix(rs: seq<seq<byte>>, more: seq<seq<byte>>, k: nat)
    requires k <= |rs|
    ensures Start(rs + more, k) == Start(rs, k)
  {
    if k > 0 {
      StartPrefix(rs, more, k - 1);
    }
  }

  lemma {:induction false} StartCut(rs: seq<seq<byte>>, n: nat, k: nat)
    requires k <= n <= |rs|
    ensures Start(rs[..n], k) == Start(rs, k)
  {
    if k > 0 {
      StartCut(rs, n, k - 1);
    }
  }

  lemma {:induction false} FlatLength(rs: seq<seq<byte>>)
    ensures |Flat(rs)| == Start(rs, |rs|)
  {
    if rs != [] {
      FlatLength(rs[..|rs| - 1]);
      StartCut(rs, |rs| - 1, |rs| - 1);
    }
  }

  lemma {:induction false} FlatAppend(a: seq<seq<byte>>, b: seq<seq<byte>>)
    ensures Flat(a + b) == Flat(a) + Flat(b)
  {
    if b == [] {
      assert a + b == a;
    } else {
      assert (a + b)[..|a + b| - 1] == a + b[..|b| - 1];
      FlatAppend(a, b[..|b| - 1]);
    }
  }

  lemma {:induction false} StartMonotone(rs: seq<seq<byte>>, i: nat, j: nat)
    requires i <= j <= |rs|
    ensures Start(rs, i) <= Start(rs, j)
    decreases j - i
  {
    if i < j {
      StartMonotone(rs, i, j - 1);
    }
  }

  lemma StartStep(rs: seq<seq<byte>>, k: nat)
    requires k < |rs|
    ensures Start(rs, k + 1) == Start(rs, k) + |rs[k]|
  {
  }

  lemma StartIncreasing(rs: seq<seq<byte>>, i: nat, j: nat)
    requires i < j <= |rs| && AllFramed(rs)
    ensures Start(rs, i) + |rs[i]| <= Start(rs, j) && |rs[i]| >= R.FIXED_PREFIX
  {
    hide Start, LoadLe;
    StartStep(rs, i);
    StartMonotone(rs, i + 1, j);
    assert Framed(rs[i]);
  }

  /** The bytes between two record starts are the records between. */
  lemma FlatSlice(rs: seq<seq<byte>>, i: nat, j: nat)
    requires i <= j <= |rs|
    ensures Start(rs, i) <= Start(rs, j) <= |Flat(rs)|
    ensures Flat(rs)[Start(rs, i)..Start(rs, j)] == Flat(rs[i..j])
  {
    hide Flat;
    StartMonotone(rs, i, j);
    assert rs == rs[..i] + rs[i..j] + rs[j..];
    FlatAppend(rs[..i] + rs[i..j], rs[j..]);
    FlatAppend(rs[..i], rs[i..j]);
    FlatLength(rs[..i]);
    StartCut(rs, i, i);
    assert rs[..i] + rs[i..j] == rs[..j];
    FlatLength(rs[..j]);
    StartCut(rs, j, j);
  }

  lemma RecordAt(rs: seq<seq<byte>>, k: nat)
    requires k < |rs|
    ensures Start(rs, k) + |rs[k]| <= |Flat(rs)|
    ensures Flat(rs)[Start(rs, k)..Start(rs, k) + |rs[k]|] == rs[k]
  {
    hide Start, Flat;
    StartStep(rs, k);
    FlatSlice(rs, k, k + 1);
    assert rs[k..k + 1] == [rs[k]];
    FlatOne(rs[k]);
  }

  lemma FlatOne(b: seq<byte>)
    ensures Flat([b]) == b
  {
    assert [b][..0] == [];
  }

  // The length prefix where record k begins.
  function SizeAt(file: seq<byte>, p: nat): nat
    requires p + 4 <= |file|
  {
    LoadLe(file[p..p + 4]) + 4
  }

  lemma PrefixAt(file: seq<byte>, rs: seq<seq<byte>>, k: nat)
    requires AllFramed(rs) && k < |rs| && |Flat(rs)| <= |file| && file[..|Flat(rs)|] == Flat(rs)
    ensures Start(rs, k) + |rs[k]| <= |Flat(rs)| && |rs[k]| >= R.FIXED_PREFIX
    ensures SizeAt(file, Start(rs, k)) == |rs[k]|
  {
    hide LoadLe, Start, Flat;
    RecordAt(rs, k);
    var p, n, flat := Start(rs, k), |rs[k]|, Flat(rs);
    assert Framed(rs[k]);
    SameSlice(file, flat, |flat|, p, p + 4);
    assert flat[..|flat|] == flat;
    assert flat[p..p + 4] == flat[p..p + n][..4];
  }

  // --------------------------------------------------------- the sparse index

  predicate Increasing(index: seq<Entry>) {
    forall i, j :: 0 <= i < j < |index| ==> index[i].relative < index[j].relative
  }

  // Every entry names a record and where it begins.
  ghost predicate IndexOk(index: seq<Entry>, rs: seq<seq<byte>>) {
    && Increasing(index)
    && forall i :: 0 <= i < |index| ==>
         index[i].relative < |rs| && index[i].relative <= UINT32_MAX && index[i].position == Start(rs, index[i].relative)
  }

  /** The last indexed record at or before record k, or record 0. */
  ghost function Floor(index: seq<Entry>, k: nat): (f: nat)
    ensures f <= k
  {
    if index == [] then 0
    else if index[|index| - 1].relative <= k then index[|index| - 1].relative
    else Floor(index[..|index| - 1], k)
  }

  /** upper_bound: the number of entries at or before record k. */
  method CountUpTo(index: seq<Entry>, k: nat) returns (n: nat)
    requires Increasing(index)
    ensures n <= |index|
    ensures forall i :: 0 <= i < n ==> index[i].relative <= k
    ensures forall i :: n <= i < |index| ==> index[i].relative > k
  {
    var lo, hi := 0, |index|;
    while lo < hi
      invariant 0 <= lo <= hi <= |index|
      invariant forall i :: 0 <= i < lo ==> index[i].relative <= k
      invariant forall i :: hi <= i < |index| ==> index[i].relative > k
    {
      var mid := (lo + hi) / 2;
      if k < index[mid].relative {
        hi := mid;
      } else {
        lo := mid + 1;
      }
    }
    n := lo;
  }

  /** LookupFloor: the entry the scan starts from. */
  method LookupFloor(index: seq<Entry>, k: nat) returns (e: Option<Entry>)
    requires Increasing(index)
    ensures e.None? ==> Floor(index, k) == 0 && forall i :: 0 <= i < |index| ==> index[i].relative > k
    ensures e.Some? ==> e.value in index && e.value.relative == Floor(index, k)
  {
    var n := CountUpTo(index, k);
    FloorAt(index, k, n);
    e := if n == 0 then None else Some(index[n - 1]);
  }

  lemma {:induction false} FloorAt(index: seq<Entry>, k: nat, n: nat)
    requires n <= |index|
    requires forall i :: 0 <= i < n ==> index[i].relative <= k
    requires forall i :: n <= i < |index| ==> index[i].relative > k
    ensures Floor(index, k) == if n == 0 then 0 else index[n - 1].relative
  {
    if |index| > n {
      FloorAt(index[..|index| - 1], k, n);
    }
  }

  // -------------------------------------------------------------- the segment

  /** The segment holds exactly the records rs. */
  ghost predicate Holds(s: Segment, rs: seq<seq<byte>>) {
    && HoldsBytes(s, rs)
    && IndexOk(s.index, rs)
  }

  ghost predicate HoldsBytes(s: Segment, rs: seq<seq<byte>>) {
    && AllFramed(rs)
    && s.endPosition == |Flat(rs)| <= |s.file| && s.file[..s.endPosition] == Flat(rs)
    && s.nextOffset == s.base + |rs|
    && s.lastIndexed == (if s.index == [] then 0 else s.index[|s.index| - 1].position)
    && s.synced <= s.endPosition
  }

  function BlockSize(interval: nat): nat {
    if interval > 8192 then interval else 8192
  }

  // The largest record the forward scan can step over.
  function StepLimit(interval: nat): nat {
    if BlockSize(interval) > MAX_RECORD_BYTES then BlockSize(interval) else MAX_RECORD_BYTES
  }

  ghost predicate Steppable(rs: seq<seq<byte>>, i: nat, j: nat, limit: nat)
    requires i <= j <= |rs|
  {
    forall k :: i <= k < j ==> |rs[k]| <= limit
  }

  /**
   PositionFor, on the bytes: the start of the wanted record whenever no record
   between the index entry and it is larger than a block can grow to, and a
   corruption error otherwise.
   */
  method PositionFor(s: Segment, ghost rs: seq<seq<byte>>, offset: int, interval: nat) returns (r: Result<nat, Error>)
    requires Holds(s, rs)
    ensures offset < s.base || offset >= s.nextOffset ==> r == Err(OutOfRange)
    ensures s.base <= offset < s.nextOffset ==>
      var k := offset - s.base;
      && r == (if Steppable(rs, Floor(s.index, k), k, StepLimit(interval)) then Ok(Start(rs, k)) else Err(Corruption))
      && (Steppable(rs, Floor(s.index, k), k, MAX_RECORD_BYTES) ==> r.Ok?)
  {
    hide Start, Flat, LoadLe, Floor;
    if offset < s.base || offset >= s.nextOffset {
      return Err(OutOfRange);
    }
    var limit := s.endPosition;
    var target := offset - s.base;
    var floor := LookupFloor(s.index, target);
    var position, current := 0, 0;
    StartZero(rs);
    if floor.Some? {
      position, current := floor.value.position, floor.value.relative;
    }
    ghost var first := current;
    var blockSize := BlockSize(interval);
    while current < target
      invariant 0 <= current <= target < |rs| && first <= current && position == Start(rs, current)
      invariant first == Floor(s.index, target)
      invariant BlockSize(interval) <= blockSize <= StepLimit(interval)
      invariant Steppable(rs, first, current, StepLimit(interval))
      decreases target - current, StepLimit(interval) - blockSize
    {
      PrefixAt(s.file, rs, current);
      var want := if blockSize < limit - position then blockSize else limit - position;
      var blockPos, next := ScanBlock(s, rs, position, current, target, want);
      if blockPos == 0 {
        var size := SizeAt(s.file, position);
        if size > MAX_RECORD_BYTES {
          return Err(Corruption);
        }
        blockSize := size;
      } else {
        position, current := position + blockPos, next;
      }
    }
    return Ok(position);
  }

  lemma StartZero(rs: seq<seq<byte>>)
    ensures Start(rs, 0) == 0
  {
  }

  // The inner walk: whole records inside one block of the file.
  method ScanBlock(s: Segment, ghost rs: seq<seq<byte>>, position: nat, current: nat, target: nat, want: nat)
    returns (blockPos: nat, next: nat)
    requires Holds(s, rs) && current < target < |rs| && position == Start(rs, current) && position + want <= s.endPosition
    ensures current <= next <= target && position + blockPos == Start(rs, next) && blockPos <= want
    ensures Steppable(rs, current, next, want)
    ensures next < target ==> blockPos + |rs[next]| > want
    ensures blockPos == 0 <==> next == current
  {
    hide Start, Flat, LoadLe, IndexOk;
    blockPos, next := 0, current;
    while next < target && blockPos + 4 <= want
      invariant current <= next <= target && position + blockPos == Start(rs, next) && blockPos <= want
      invariant Steppable(rs, current, next, want)
      invariant blockPos == 0 <==> next == current
    {
      PrefixAt(s.file, rs, next);
      StartStep(rs, next);
      var size := SizeAt(s.file, position + blockPos);
      if blockPos + size > want {
        return;
      }
      blockPos, next := blockPos + size, next + 1;
    }
    if next < target {
      PrefixAt(s.file, rs, next);
    }
  }

  // ------------------------------------------------------------------- append

  function WriteAt(file: seq<byte>, p: nat, bytes: seq<byte>): seq<byte>
    requires p <= |file|
  {
    file[..p] + bytes + (if p + |bytes| < |file| then file[p + |bytes|..] else [])
  }

  /** AppendEncoded and FinishAppend: bytes of whole records, numbered from the segment's next offset. */
  method AppendEncoded(s: Segment, ghost rs: seq<seq<byte>>, bytes: seq<byte>, ghost batch: seq<seq<byte>>,
                       count: nat, interval: nat) returns (t: Segment)
    requires Holds(s, rs) && AllFramed(batch) && bytes == Flat(batch) && count == |batch|
    ensures Holds(t, rs + batch) && t.base == s.base && t.synced == s.synced
    ensures t.index ==
      if bytes != [] && s.endPosition <= UINT32_MAX && (s.index == [] || s.endPosition - s.lastIndexed >= interval)
      then s.index + [Entry(|rs|, s.endPosition)] else s.index
  {
    hide Start, Flat, LoadLe;
    if bytes == [] {
      EmptyBatch(batch);
      assert rs + batch == rs;
      return s;
    }
    var start, relative := s.endPosition, s.nextOffset - s.base;
    var index, lastIndexed := s.index, s.lastIndexed;
    LastIndexedInside(s, rs);
    if start - s.lastIndexed >= interval || s.index == [] {
      if relative <= UINT32_MAX && start <= UINT32_MAX {
        index, lastIndexed := s.index + [Entry(relative, start)], start;
      }
    }
    AppendKeepsBytes(s.file, rs, bytes, batch);
    AppendKeepsIndex(s.index, rs, batch);
    RelativeFits(rs);
    FlatLength(rs);
    StartPrefix(rs, batch, |rs|);
    EmptyFlat(batch);
    t := Segment(s.base, WriteAt(s.file, start, bytes), start + |bytes|, s.nextOffset + count, s.synced, lastIndexed, index);
  }

  lemma EmptyFlat(batch: seq<seq<byte>>)
    ensures batch == [] ==> Flat(batch) == []
  {
  }

  lemma EmptyBatch(batch: seq<seq<byte>>)
    requires AllFramed(batch) && Flat(batch) == []
    ensures batch == []
  {
    hide Flat, LoadLe;
    RelativeFits(batch);
  }

  lemma LastIndexedInside(s: Segment, rs: seq<seq<byte>>)
    requires Holds(s, rs)
    ensures s.lastIndexed <= s.endPosition
  {
    hide Start, Flat, LoadLe;
    FlatLength(rs);
    if s.index != [] {
      StartMonotone(rs, s.index[|s.index| - 1].relative, |rs|);
    }
  }

  lemma AppendKeepsBytes(file: seq<byte>, rs: seq<seq<byte>>, bytes: seq<byte>, batch: seq<seq<byte>>)
    requires |Flat(rs)| <= |file| && file[..|Flat(rs)|] == Flat(rs) && bytes == Flat(batch)
    requires AllFramed(rs) && AllFramed(batch)
    ensures AllFramed(rs + batch) && |Flat(rs + batch)| == |Flat(rs)| + |bytes|
    ensures var after := WriteAt(file, |Flat(rs)|, bytes);
      |Flat(rs + batch)| <= |after| && after[..|Flat(rs + batch)|] == Flat(rs + batch)
  {
    hide Flat, LoadLe;
    FlatAppend(rs, batch);
  }

  lemma AppendKeepsIndex(index: seq<Entry>, rs: seq<seq<byte>>, batch: seq<seq<byte>>)
    requires IndexOk(index, rs)
    ensures IndexOk(index, rs + batch)
  {
    hide Start;
    forall i | 0 <= i < |index|
      ensures index[i].position == Start(rs + batch, index[i].relative)
    {
      StartPrefix(rs, batch, index[i].relative);
    }
  }

  // Records are not empty, so a record number never exceeds a position.
  lemma {:induction false} StartAtLeast(rs: seq<seq<byte>>, k: nat)
    requires AllFramed(rs) && k <= |rs|
    ensures k <= Start(rs, k)
  {
    if k > 0 {
      assert Framed(rs[k - 1]);
      StartAtLeast(rs, k - 1);
    }
  }

  lemma RelativeFits(rs: seq<seq<byte>>)
    requires AllFramed(rs)
    ensures |rs| <= |Flat(rs)|
  {
    hide Start, Flat;
    FlatLength(rs);
    StartAtLeast(rs, |rs|);
  }

  // ------------------------------------------------------- how far a scan goes

  /** From the index entry to any record: less than one index interval plus one batch. */
  ghost predicate Dense(index: seq<Entry>, rs: seq<seq<byte>>, interval: nat, batchMax: nat) {
    forall k :: 0 <= k < |rs| ==> Start(rs, k) < Start(rs, Floor(index, k)) + interval + batchMax
  }

  lemma {:induction false} FloorBelow(index: seq<Entry>, e: Entry, k: nat)
    requires k < e.relative
    ensures Floor(index + [e], k) == Floor(index, k)
  {
    assert (index + [e])[..|index|] == index;
  }

  /** Appending a batch within the 4 GiB position limit keeps the bound. */
  lemma AppendKeepsDense(s: Segment, rs: seq<seq<byte>>, batch: seq<seq<byte>>, t: Segment, interval: nat, batchMax: nat)
    requires Holds(s, rs) && AllFramed(batch) && batch != [] && |Flat(batch)| <= batchMax
    requires Dense(s.index, rs, interval, batchMax)
    requires if s.index == [] || s.endPosition - s.lastIndexed >= interval
             then t.index == s.index + [Entry(|rs|, s.endPosition)] else t.index == s.index
    ensures Dense(t.index, rs + batch, interval, batchMax)
  {
    hide Start, Flat, LoadLe, Floor;
    FlatLength(rs);
    FlatLength(rs + batch);
    FlatAppend(rs, batch);
    forall k | 0 <= k < |rs + batch|
      ensures Start(rs + batch, k) < Start(rs + batch, Floor(t.index, k)) + interval + batchMax
    {
      if k < |rs| {
        FloorBelow(s.index, Entry(|rs|, s.endPosition), k);
        StartPrefix(rs, batch, k);
        StartPrefix(rs, batch, Floor(s.index, k));
      } else {
        FloorLast(t.index, k);
        var last := t.index[|t.index| - 1];
        StartPrefix(rs, batch, |rs|);
        if t.index == s.index {
          StartPrefix(rs, batch, last.relative);
        }
        assert Framed((rs + batch)[k]);
        StartIncreasing(rs + batch, k, |rs + batch|);
      }
    }
  }

  lemma DenseMore(index: seq<Entry>, rs: seq<seq<byte>>, interval: nat, batchMax: nat, more: nat)
    requires Dense(index, rs, interval, batchMax) && batchMax <= more
    ensures Dense(index, rs, interval, more)
  {
    hide Start, Floor;
  }

  lemma FloorLast(index: seq<Entry>, k: nat)
    requires index != [] && index[|index| - 1].relative <= k
    ensures Floor(index, k) == index[|index| - 1].relative
  {
  }

  // --------------------------------------------------------------------- read

  /**
   What one segment read returns from record k: at least one record when the
   budget is not zero; beyond the first only records of at most one chunk that
   keep the total within the budget; and nothing more would have qualified.
   */
  ghost predicate ReadStops(rs: seq<seq<byte>>, k: nat, maxBytes: nat, n: nat)
    requires k + n <= |rs|
  {
    && (maxBytes == 0 ==> n == 0)
    && (maxBytes > 0 && k < |rs| ==> n >= 1)
    && WithinBudget(rs, k, maxBytes, n)
    && (maxBytes > 0 && k + n < |rs| ==>
          Start(rs, k + n) + |rs[k + n]| - Start(rs, k) > maxBytes || |rs[k + n]| > CHUNK_BYTES)
  }

  ghost predicate WithinBudget(rs: seq<seq<byte>>, k: nat, maxBytes: nat, n: nat)
    requires k + n <= |rs|
  {
    && (n > 1 ==> Start(rs, k + n) - Start(rs, k) <= maxBytes)
    && forall i :: k < i < k + n ==> |rs[i]| <= CHUNK_BYTES
  }

  /** Records of at most one mebibyte that fit the budget are read to the end at once; a larger one after the first stops the read. */
  lemma OneReadTakes(rs: seq<seq<byte>>, k: nat, maxBytes: nat, n: nat)
    requires AllFramed(rs) && k < |rs| && k + n <= |rs| && maxBytes > 0 && ReadStops(rs, k, maxBytes, n)
    ensures (forall i :: k <= i < |rs| ==> |rs[i]| <= 0x10_0000) && Start(rs, |rs|) - Start(rs, k) <= maxBytes ==> k + n == |rs|
    ensures k + 1 < |rs| && |rs[k + 1]| > 0x10_0000 ==> n == 1
  {
    hide Start, Framed;
    if k + n < |rs| {
      StartIncreasing(rs, k + n, |rs|);
    }
  }

  method Read(s: Segment, ghost rs: seq<seq<byte>>, from: nat, maxBytes: nat, interval: nat)
    returns (r: Result<(nat, seq<byte>), Error>)
    requires Holds(s, rs) && s.base <= from
    ensures from >= s.nextOffset ==> r == Ok((0, []))
    ensures from < s.nextOffset ==>
      var k := from - s.base;
      (r.Ok? <==> Steppable(rs, Floor(s.index, k), k, StepLimit(interval))) && (r.Err? ==> r.error == Corruption)
    ensures from < s.nextOffset && r.Ok? ==>
      var (k, n) := (from - s.base, r.value.0);
      k + n <= |rs| && ReadStops(rs, k, maxBytes, n) && r.value.1 == Flat(rs[k..k + n])
  {
    hide Start, Flat, LoadLe, Floor, IndexOk, ReadStops;
    if from >= s.nextOffset {
      return Ok((0, []));
    }
    var position := PositionFor(s, rs, from, interval);
    if position.Err? {
      return Err(position.error);
    }
    var count, end := ReadRun(s, rs, from - s.base, position.value, maxBytes);
    return Ok((count, s.file[position.value..end]));
  }

  method ReadRun(s: Segment, ghost rs: seq<seq<byte>>, ghost k: nat, position: nat, maxBytes: nat)
    returns (count: nat, cursor: nat)
    requires Holds(s, rs) && k < |rs| && position == Start(rs, k)
    ensures k + count <= |rs| && ReadStops(rs, k, maxBytes, count)
    ensures position <= cursor <= |s.file| && s.file[position..cursor] == Flat(rs[k..k + count])
  {
    hide Start, Flat, LoadLe, IndexOk;
    cursor, count := position, 0;
    FlatLength(rs);
    StartMonotone(rs, k, |rs|);
    while cursor < s.endPosition
      invariant k + count <= |rs| && cursor == Start(rs, k + count) && position <= cursor <= s.endPosition
      invariant WithinBudget(rs, k, maxBytes, count)
      invariant k + count == |rs| ==> cursor == s.endPosition
      invariant maxBytes == 0 ==> count == 0
      decreases s.endPosition - cursor
    {
      var bytes := cursor - position;
      var budget := if maxBytes > bytes then maxBytes - bytes else 0;
      if budget == 0 {
        NoneLeft(rs, k, count, maxBytes);
        break;
      }
      PrefixAt(s.file, rs, k + count);
      var size := SizeAt(s.file, cursor);
      var want := Min3(CHUNK_BYTES, s.endPosition - cursor, budget);
      if want < size {
        if count > 0 {
          break;
        }
        want := size;
      }
      var accepted, more := TakeChunk(s, rs, k, count, cursor, bytes, want, maxBytes);
      cursor, count := cursor + accepted, count + more;
    }
    if k + count < |rs| {
      StartIncreasing(rs, k + count, |rs|);
    }
    FlatSlice(rs, k, k + count);
    SameSlice(s.file, Flat(rs), s.endPosition, position, cursor);
  }

  function Min3(a: nat, b: nat, c: nat): nat {
    var m := if a < b then a else b;
    if m < c then m else c
  }

  // A spent budget leaves no room for another record.
  lemma NoneLeft(rs: seq<seq<byte>>, k: nat, n: nat, maxBytes: nat)
    requires AllFramed(rs) && k + n <= |rs| && maxBytes <= Start(rs, k + n) - Start(rs, k)
    ensures k + n < |rs| ==> Start(rs, k + n) + |rs[k + n]| - Start(rs, k) > maxBytes
  {
    hide Start, LoadLe;
    if k + n < |rs| {
      assert Framed(rs[k + n]);
    }
  }

  // The inner walk over one chunk of at most `want` bytes.
  method TakeChunk(s: Segment, ghost rs: seq<seq<byte>>, ghost k: nat, count: nat, cursor: nat,
                   bytes: nat, want: nat, maxBytes: nat)
    returns (accepted: nat, more: nat)
    requires Holds(s, rs) && k + count < |rs| && cursor == Start(rs, k + count) && cursor + want <= s.endPosition
    requires bytes == cursor - Start(rs, k)
    requires |rs[k + count]| <= want && WithinBudget(rs, k, maxBytes, count)
    requires count > 0 ==> Start(rs, k + count) + |rs[k + count]| - Start(rs, k) <= maxBytes && want <= CHUNK_BYTES
    requires count == 0 ==> want <= CHUNK_BYTES || want == |rs[k]|
    ensures accepted > 0 && k + count + more <= |rs| && cursor + accepted == Start(rs, k + count + more)
    ensures cursor + accepted <= s.endPosition && WithinBudget(rs, k, maxBytes, count + more)
    ensures k + count + more == |rs| ==> cursor + accepted == s.endPosition
  {
    hide Start, Flat, LoadLe, IndexOk;
    FlatLength(rs);
    StartMonotone(rs, k, k + count);
    accepted, more := 0, 0;
    while accepted + 4 <= want && cursor + accepted < s.endPosition
      invariant k + count + more <= |rs| && cursor + accepted == Start(rs, k + count + more)
      invariant cursor + accepted <= s.endPosition && accepted <= want
      invariant WithinBudget(rs, k, maxBytes, count + more)
      invariant more == 0 ==> accepted == 0
      invariant more > 0 ==> accepted > 0 && (want > CHUNK_BYTES ==> accepted == want)
      invariant k + count + more == |rs| ==> cursor + accepted == s.endPosition
      decreases want - accepted
    {
      ghost var i := k + count + more;
      PrefixAt(s.file, rs, i);
      StartStep(rs, i);
      StartMonotone(rs, i + 1, |rs|);
      var size := SizeAt(s.file, cursor + accepted);
      if accepted + size > want {
        break;
      }
      if count + more > 0 && bytes + accepted + size > maxBytes {
        break;
      }
      accepted, more := accepted + size, more + 1;
    }
  }

  // ----------------------------------------------------------------- truncate

  // The entries that name records before record k.
  lemma IndexCut(index: seq<Entry>, rs: seq<seq<byte>>, n: nat, k: nat)
    requires IndexOk(index, rs) && n <= |index| && k <= |rs|
    requires forall i :: 0 <= i < n ==> index[i].relative < k
    ensures IndexOk(index[..n], rs[..k])
  {
    hide Start;
    forall i | 0 <= i < n
      ensures index[i].position == Start(rs[..k], index[i].relative)
    {
      StartCut(rs, k, index[i].relative);
    }
  }

  /** TruncateFrom: the records before `offset` stay; a scan that cannot reach it changes nothing. */
  method TruncateFrom(s: Segment, ghost rs: seq<seq<byte>>, offset: nat, interval: nat) returns (r: Result<Segment, Error>)
    requires Holds(s, rs)
    ensures r.Err? <==>
      && s.base < offset < s.nextOffset
      && !Steppable(rs, Floor(s.index, offset - s.base), offset - s.base, StepLimit(interval))
    ensures r.Err? ==> r.error == Corruption
    ensures r.Ok? ==>
      var keep := if offset >= s.nextOffset then |rs| else if offset <= s.base then 0 else offset - s.base;
      && Holds(r.value, rs[..keep]) && r.value.base == s.base && r.value.index <= s.index
      && (forall i :: |r.value.index| <= i < |s.index| ==> s.index[i].relative >= keep)
      && (keep < |rs| ==> r.value.endPosition == |r.value.file|)
      && r.value.synced == (if s.synced < r.value.endPosition then s.synced else r.value.endPosition)
  {
    hide Start, Flat, LoadLe, Floor;
    if offset >= s.nextOffset {
      assert rs[..|rs|] == rs;
      return Ok(s);
    }
    if offset <= s.base {
      EmptyFlat(rs[..0]);
      return Ok(Segment(s.base, [], 0, s.base, 0, 0, []));
    }
    var position := PositionFor(s, rs, offset, interval);
    if position.Err? {
      return Err(position.error);
    }
    ghost var k := offset - s.base;
    var n := CountUpTo(s.index, offset - s.base - 1);
    IndexCut(s.index, rs, n, k);
    CutBytes(s.file, rs, k);
    var index := s.index[..n];
    var synced := if s.synced > position.value then position.value else s.synced;
    r := Ok(Segment(s.base, s.file[..position.value], position.value, offset, synced,
                    if n == 0 then 0 else index[n - 1].position, index));
  }

  lemma CutBytes(file: seq<byte>, rs: seq<seq<byte>>, k: nat)
    requires k <= |rs| && AllFramed(rs) && |Flat(rs)| <= |file| && file[..|Flat(rs)|] == Flat(rs)
    ensures Start(rs, k) <= |Flat(rs)| && file[..Start(rs, k)] == Flat(rs[..k]) && |Flat(rs[..k])| == Start(rs, k)
    ensures AllFramed(rs[..k])
  {
    hide Start, Flat, LoadLe;
    FlatSlice(rs, 0, k);
    StartZero(rs);
    assert rs[0..k] == rs[..k];
    SameSlice(file, Flat(rs), |Flat(rs)|, 0, Start(rs, k));
    assert Flat(rs)[..|Flat(rs)|] == Flat(rs);
    assert file[0..Start(rs, k)] == file[..Start(rs, k)];
  }

  /** Truncation keeps the scan bound for the records that stay. */
  lemma {:induction false} CutKeepsDense(index: seq<Entry>, rs: seq<seq<byte>>, n: nat, k: nat, interval: nat, batchMax: nat)
    requires IndexOk(index, rs) && Dense(index, rs, interval, batchMax) && n <= |index| && k <= |rs|
    requires forall i :: n <= i < |index| ==> index[i].relative >= k
    ensures Dense(index[..n], rs[..k], interval, batchMax)
  {
    hide Start, Floor;
    forall j | 0 <= j < k
      ensures Start(rs[..k], j) < Start(rs[..k], Floor(index[..n], j)) + interval + batchMax
    {
      FloorCut(index, n, j);
      StartCut(rs, k, j);
      StartCut(rs, k, Floor(index, j));
    }
  }

  lemma {:induction false} FloorCut(index: seq<Entry>, n: nat, j: nat)
    requires n <= |index| && forall i :: n <= i < |index| ==> index[i].relative > j
    ensures Floor(index[..n], j) == Floor(index, j)
  {
    if n < |index| {
      FloorCut(index[..|index| - 1], n, j);
      assert index[..|index| - 1][..n] == index[..n];
    } else {
      assert index[..n] == index;
    }
  }
}
