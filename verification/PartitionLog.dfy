/**
 The partition log: contiguous segments, the two checked appends, rolling,
 reading across segments, truncation and retention, against one sequence of
 records.
 */
module PartitionLog {

  import opened Wrappers
  import opened Bytes
  import opened Segments
  import opened Recovery
  import R = Record

  // ------------------------------------------------- one sequence from parts

  /** All records, segment after segment. */
  function Join(parts: seq<seq<seq<byte>>>): seq<seq<byte>> {
    if parts == [] then [] else Join(parts[..|parts| - 1]) + parts[|parts| - 1]
  }

  lemma {:induction false} JoinAppend(a: seq<seq<seq<byte>>>, b: seq<seq<seq<byte>>>)
    ensures Join(a + b) == Join(a) + Join(b)
  {
    if b == [] {
      assert a + b == a;
    } else {
      assert (a + b)[..|a + b| - 1] == a + b[..|b| - 1];
      JoinAppend(a, b[..|b| - 1]);
    }
  }

  lemma JoinOne(part: seq<seq<byte>>)
    ensures Join([part]) == part
  {
    assert [part][..0] == [];
  }

  // Part j as a slice of the whole.
  lemma JoinSlice(parts: seq<seq<seq<byte>>>, j: nat)
    requires j < |parts|
    ensures var p := |Join(parts[..j])|;
      p + |parts[j]| <= |Join(parts)| && Join(parts)[p..p + |parts[j]|] == parts[j]
      && |Join(parts[..j + 1])| == p + |parts[j]|
  {
    hide Join;
    assert parts == parts[..j] + [parts[j]] + parts[j + 1..];
    JoinAppend(parts[..j] + [parts[j]], parts[j + 1..]);
    JoinAppend(parts[..j], [parts[j]]);
    JoinOne(parts[j]);
    assert parts[..j] + [parts[j]] == parts[..j + 1];
  }

  // --------------------------------------------------------------- batches

  const OFFSET_LIMIT := 0x8000_0000_0000_0000

  /** AppendAssigningOffsets' pass over a batch: every record re-stamped in place, or nothing if one does not parse. */
  function Stamped(bs: seq<byte>, offset: nat, now: i64): Option<seq<seq<byte>>>
    requires offset + |bs| < OFFSET_LIMIT
  {
    if bs == [] then Some([])
    else match R.Parse(bs, false)
      case Failed(_) => None
      case Parsed(r, n) =>
        match Stamped(bs[n..], offset + 1, now)
        case None => None
        case Some(rest) => Some([R.Rewritten(bs[..n], offset, StampTime(r, now))] + rest)
  }

  function StampTime(r: R.Record, now: i64): i64 {
    if r.timestamp > 0 then r.timestamp else now
  }

  /** AppendWithOffsets' check: checksum-valid records numbered from `offset`. */
  function Checked(bs: seq<byte>, offset: int): Option<seq<seq<byte>>> {
    if bs == [] then Some([])
    else match R.Parse(bs, true)
      case Failed(_) => None
      case Parsed(r, n) =>
        if r.offset != offset then None
        else match Checked(bs[n..], offset + 1)
          case None => None
          case Some(rest) => Some([bs[..n]] + rest)
  }

  lemma ParsesAlone(bs: seq<byte>, verify: bool)
    requires R.Parse(bs, verify).Parsed?
    ensures var p := R.Parse(bs, verify); R.Parse(bs[..p.size], verify) == p && Framed(bs[..p.size])
  {
    hide R.Parse, LoadLe;
    var n := R.Parse(bs, verify).size;
    R.ParsedDeclares(bs, verify);
    assert bs[..n][..n] == bs[..n] && bs[..n][..4] == bs[..4];
    R.ParseWindow(bs, bs[..n], n, verify);
  }

  lemma RewrittenFramed(rec: seq<byte>, offset: i64, timestamp: i64)
    requires |rec| >= R.FIXED_PREFIX && Framed(rec)
    ensures Framed(R.Rewritten(rec, offset, timestamp))
  {
    hide LoadLe, R.Rewritten;
    R.RewrittenParts(rec, offset, timestamp);
  }

  /** A stamped batch is valid from its base offset and differs from what was sent only in offsets and missing timestamps. */
  lemma {:induction false} StampedValid(bs: seq<byte>, offset: nat, now: i64)
    requires offset + |bs| < OFFSET_LIMIT
    ensures var (st, run) := (Stamped(bs, offset, now), R.ParseRun(bs, false));
      && (st.Some? <==> run.stopped.None?)
      && (st.Some? ==>
            && ValidRun(st.value, offset) && AllFramed(st.value) && |Flat(st.value)| == |bs| && |st.value| == |run.records|
            && forall i :: 0 <= i < |st.value| ==>
                 R.Parse(st.value[i], true).record
                 == run.records[i].(offset := offset + i,
                                    timestamp := if run.records[i].timestamp > 0 then run.records[i].timestamp else now))
  {
    hide R.Parse, R.Rewritten, Flat, Framed;
    if bs == [] {
      EmptyFlat([]);
    } else if R.Parse(bs, false).Parsed? {
      var r, n := R.Parse(bs, false).record, R.Parse(bs, false).size;
      StampedValid(bs[n..], offset + 1, now);
      ParsesAlone(bs, false);
      var t := StampTime(r, now);
      R.RewriteKeeps(bs[..n], false, offset, t);
      RewrittenFramed(bs[..n], offset, t);
      if Stamped(bs[n..], offset + 1, now).Some? {
        var rec, rest := R.Rewritten(bs[..n], offset, t), Stamped(bs[n..], offset + 1, now).value;
        FlatAppend([rec], rest);
        FlatOne(rec);
        assert forall i :: 0 <= i < |rest| ==> ValidRecord(rest[i], offset + 1 + i);
      }
    }
  }

  /** A checked batch is valid as it stands. */
  lemma {:induction false} CheckedValid(bs: seq<byte>, offset: int)
    ensures var ch := Checked(bs, offset);
      ch.Some? ==> ValidRun(ch.value, offset) && AllFramed(ch.value) && Flat(ch.value) == bs
  {
    hide R.Parse, Flat, Framed;
    if bs == [] {
      EmptyFlat([]);
    } else if Checked(bs, offset).Some? {
      var n := R.Parse(bs, true).size;
      CheckedValid(bs[n..], offset + 1);
      ParsesAlone(bs, true);
      var rest := Checked(bs[n..], offset + 1).value;
      FlatAppend([bs[..n]], rest);
      FlatOne(bs[..n]);
      assert bs == bs[..n] + bs[n..];
      assert forall i :: 0 <= i < |rest| ==> ValidRecord(rest[i], offset + 1 + i);
    }
  }

  /** What an encoded batch becomes: the same records, numbered from the base, a positive timestamp kept and any other set to now. */
  lemma StampedRecords(rs: seq<R.Record>, offset: nat, now: i64)
    requires (forall i :: 0 <= i < |rs| ==> R.Fits(rs[i])) && offset + |R.EncodeAll(rs)| < OFFSET_LIMIT
    ensures var st := Stamped(R.EncodeAll(rs), offset, now);
      && st.Some? && |st.value| == |rs|
      && forall i :: 0 <= i < |rs| ==> StoredAs(st.value[i], rs[i], offset + i, now)
  {
    hide R.Parse, R.EncodeAll, Stamped, R.Fits, Flat, AllFramed;
    var bs := R.EncodeAll(rs);
    StampedValid(bs, offset, now);
    R.RunRoundTrip(rs, [], false);
    assert bs + [] == bs && rs + [] == rs;
    var st := Stamped(bs, offset, now);
    forall i | 0 <= i < |rs|
      ensures StoredAs(st.value[i], rs[i], offset + i, now)
    {
      assert ValidRecord(st.value[i], offset + i);
    }
  }

  // The bytes of a client's record once it has its offset.
  ghost predicate StoredAs(b: seq<byte>, sent: R.Record, offset: int, now: i64) {
    var p := R.Parse(b, true);
    && p.Parsed? && p.size == |b|
    && p.record.offset == offset && p.record.timestamp == (if sent.timestamp > 0 then sent.timestamp else now)
    && p.record.attributes == sent.attributes && p.record.key == sent.key && p.record.value == sent.value
  }

  /** These records, and nothing else, are in the bytes: checksum-valid and numbered from `offset`. */
  ghost predicate IsRun(rs: seq<seq<byte>>, bs: seq<byte>, offset: int) {
    ValidRun(rs, offset) && Flat(rs) == bs
  }

  /** The check accepts every valid run. */
  lemma {:induction false} CheckedComplete(rs: seq<seq<byte>>, offset: int)
    requires ValidRun(rs, offset)
    ensures Checked(Flat(rs), offset) == Some(rs)
    decreases |rs|
  {
    hide R.Parse, Flat;
    if rs == [] {
      EmptyFlat(rs);
    } else {
      var b, rest, bs := rs[0], rs[1..], Flat(rs);
      assert rs == [b] + rest;
      FlatAppend([b], rest);
      FlatOne(b);
      assert ValidRecord(b, offset);
      R.ParsedDeclares(b, true);
      assert b == b[..|b|] == bs[..|b|] && bs[|b|..] == Flat(rest);
      R.ParseWindow(b, bs, |b|, true);
      NonEmpty(b, offset);
      RunWithin(rs, 1, |rs|, offset);
      assert rs[1..|rs|] == rest;
      CheckedComplete(rest, offset + 1);
    }
  }

  /** What is checked is exactly the valid runs. */
  lemma CheckedIff(bs: seq<byte>, offset: int, rs: seq<seq<byte>>)
    ensures Checked(bs, offset) == Some(rs) <==> IsRun(rs, bs, offset)
  {
    hide Checked, Flat, ValidRun, AllFramed;
    CheckedValid(bs, offset);
    if IsRun(rs, bs, offset) {
      CheckedComplete(rs, offset);
    }
  }

  method StampBatch(buf: array<byte>, offset: nat, now: i64) returns (ok: bool, seen: nat)
    requires offset + buf.Length < OFFSET_LIMIT
    modifies buf
    ensures ok <==> Stamped(old(buf[..]), offset, now).Some?
    ensures ok ==> var rs := Stamped(old(buf[..]), offset, now).value; buf[..] == Flat(rs) && seen == |rs|
  {
    hide R.Parse, R.Rewritten, Flat, Stamped, Prefixed;
    ghost var sent := buf[..];
    ghost var done: seq<seq<byte>> := [];
    var pos := 0;
    seen := 0;
    EmptyFlat(done);
    StampEnds(sent, offset, now);
    while pos < buf.Length
      invariant pos <= buf.Length == |sent| && seen == |done| <= pos
      invariant buf[..][..pos] == Flat(done) && buf[..][pos..] == sent[pos..]
      invariant Stamped(sent, offset, now) == Prefixed(done, Stamped(sent[pos..], offset + seen, now))
      decreases buf.Length - pos
    {
      var p := R.ParseRecord(buf[..], pos, false);
      StampStep(sent, pos, offset + seen, now, done);
      if p.Failed? {
        return false, seen;
      }
      var next := pos + p.size;
      ghost var rec := R.Rewritten(sent[pos..][..p.size], offset + seen, StampTime(p.record, now));
      StampAt(buf, sent, pos, p.size, offset + seen, StampTime(p.record, now));
      FlatAppend(done, [rec]);
      FlatOne(rec);
      done := done + [rec];
      pos, seen := next, seen + 1;
    }
    PrefixedEnds(done, Stamped(sent[pos..], offset + seen, now));
    StampNothing(sent[pos..], offset + seen, now);
    assert buf[..][..pos] == buf[..];
    return true, seen;
  }

  lemma SomeBytes(rs: seq<seq<byte>>, bs: seq<byte>, offset: int)
    requires IsRun(rs, bs, offset) && rs != []
    ensures bs != []
  {
    hide Flat, ValidRecord;
    assert rs == [rs[0]] + rs[1..] && ValidRecord(rs[0], offset + 0);
    NonEmpty(rs[0], offset);
    FlatAppend([rs[0]], rs[1..]);
    FlatOne(rs[0]);
  }

  // One record of the buffer, in place.
  method StampAt(buf: array<byte>, ghost sent: seq<byte>, pos: nat, size: nat, offset: i64, timestamp: i64)
    requires size >= R.FIXED_PREFIX && pos + size <= buf.Length == |sent| && buf[..][pos..] == sent[pos..]
    modifies buf
    ensures buf[..][..pos + size] == old(buf[..])[..pos] + R.Rewritten(sent[pos..][..size], offset, timestamp)
    ensures buf[..][pos + size..] == sent[pos + size..]
  {
    hide R.Rewritten;
    ghost var before := buf[..];
    assert buf[..pos] == before[..pos] && buf[pos + size..] == before[pos + size..] && buf[pos..pos + size] == before[pos..pos + size];
    InnerSlice(before, pos, sent[pos..], 0, size);
    assert sent[pos..][0..size] == sent[pos..][..size];
    R.RewriteRecordHeader(buf, pos, size, offset, timestamp);
    Rewrote(before, sent, pos, pos + size, R.Rewritten(sent[pos..][..size], offset, timestamp), buf[..]);
  }

  lemma StampEnds(sent: seq<byte>, offset: nat, now: i64)
    requires offset + |sent| < OFFSET_LIMIT
    ensures Stamped(sent, offset, now) == Prefixed([], Stamped(sent[0..], offset, now))
  {
    hide Stamped;
    assert sent[0..] == sent;
    PrefixedEnds([], Stamped(sent, offset, now));
  }

  lemma StampNothing(bs: seq<byte>, offset: nat, now: i64)
    requires bs == [] && offset < OFFSET_LIMIT
    ensures Stamped(bs, offset, now) == Some([])
  {
  }

  // One record of the pass.
  lemma StampStep(sent: seq<byte>, pos: nat, offset: nat, now: i64, done: seq<seq<byte>>)
    requires pos < |sent| && offset + |sent| - pos < OFFSET_LIMIT
    ensures var p := R.Parse(sent[pos..], false);
      if p.Failed? then Prefixed(done, Stamped(sent[pos..], offset, now)) == None
      else
        Prefixed(done, Stamped(sent[pos..], offset, now))
        == Prefixed(done + [R.Rewritten(sent[pos..][..p.size], offset, StampTime(p.record, now))],
                    Stamped(sent[pos + p.size..], offset + 1, now))
  {
    hide R.Parse, R.Rewritten;
    var p := R.Parse(sent[pos..], false);
    if p.Parsed? {
      assert sent[pos..][p.size..] == sent[pos + p.size..];
      PrefixedStep(done, R.Rewritten(sent[pos..][..p.size], offset, StampTime(p.record, now)),
                   Stamped(sent[pos + p.size..], offset + 1, now));
    }
  }

  lemma Rewrote(before: seq<byte>, sent: seq<byte>, pos: nat, next: nat, rec: seq<byte>, after: seq<byte>)
    requires pos <= next <= |before| == |sent| && |rec| == next - pos && before[pos..] == sent[pos..]
    requires after == before[..pos] + rec + before[next..]
    ensures after[..next] == before[..pos] + rec && after[next..] == sent[next..]
  {
    assert before[next..] == before[pos..][next - pos..] && sent[next..] == sent[pos..][next - pos..];
  }

  ghost function Prefixed(done: seq<seq<byte>>, rest: Option<seq<seq<byte>>>): Option<seq<seq<byte>>> {
    if rest.None? then None else Some(done + rest.value)
  }

  lemma PrefixedEnds(done: seq<seq<byte>>, rest: Option<seq<seq<byte>>>)
    ensures Prefixed([], rest) == rest && Prefixed(done, Some([])) == Some(done)
  {
    assert done + [] == done;
    if rest.Some? {
      assert [] + rest.value == rest.value;
    }
  }

  lemma PrefixedStep(done: seq<seq<byte>>, rec: seq<byte>, rest: Option<seq<seq<byte>>>)
    ensures rest.Some? ==> Prefixed(done, Some([rec] + rest.value)) == Prefixed(done + [rec], rest)
  {
    if rest.Some? {
      assert done + ([rec] + rest.value) == (done + [rec]) + rest.value;
    }
  }

  method CheckBatch(bs: seq<byte>, offset: int) returns (ok: bool, seen: nat)
    ensures ok <==> Checked(bs, offset).Some?
    ensures ok ==> seen == |Checked(bs, offset).value|
    ensures ok <==> exists rs :: IsRun(rs, bs, offset)
    ensures forall rs :: IsRun(rs, bs, offset) ==> seen == |rs|
  {
    hide R.Parse, IsRun;
    forall rs
      ensures Checked(bs, offset) == Some(rs) <==> IsRun(rs, bs, offset)
    {
      CheckedIff(bs, offset, rs);
    }
    ghost var done: seq<seq<byte>> := [];
    var pos := 0;
    seen := 0;
    assert bs[0..] == bs;
    PrefixedEnds(done, Checked(bs, offset));
    while pos < |bs|
      invariant pos <= |bs| && seen == |done|
      invariant Checked(bs, offset) == Prefixed(done, Checked(bs[pos..], offset + seen))
      decreases |bs| - pos
    {
      var p := R.ParseRecord(bs, pos, true);
      if p.Failed? || p.record.offset != offset + seen {
        return false, seen;
      }
      var next := pos + p.size;
      assert bs[pos..][p.size..] == bs[next..];
      PrefixedStep(done, bs[pos..][..p.size], Checked(bs[next..], offset + seen + 1));
      done := done + [bs[pos..][..p.size]];
      pos, seen := next, seen + 1;
    }
    assert bs[pos..] == [];
    PrefixedEnds(done, None);
    return true, seen;
  }

  // -------------------------------------------------------------- the segments

  /** Segments in offset order, each continuing the one before; only the last may be empty. */
  ghost predicate LogOk(segments: seq<Segment>, parts: seq<seq<seq<byte>>>) {
    && |segments| == |parts| >= 1
    && (forall i :: 0 <= i < |segments| ==> PartOk(segments[i], parts[i]))
    && (forall i :: 0 <= i < |segments| - 1 ==> Follows(segments[i], parts[i], segments[i + 1]))
  }

  ghost predicate PartOk(s: Segment, rs: seq<seq<byte>>) {
    Holds(s, rs) && ValidRun(rs, s.base)
  }

  ghost predicate Follows(s: Segment, rs: seq<seq<byte>>, next: Segment) {
    next.base == s.nextOffset && rs != []
  }

  /** Offsets count the records before: where each segment and the log begin and end. */
  lemma {:induction false} BaseCounts(segments: seq<Segment>, parts: seq<seq<seq<byte>>>, j: nat)
    requires LogOk(segments, parts) && j < |segments|
    ensures segments[j].base == segments[0].base + |Join(parts[..j])|
    ensures segments[j].nextOffset == segments[0].base + |Join(parts[..j + 1])|
  {
    hide Join, ValidRun, AllFramed, IndexOk;
    assert PartOk(segments[j], parts[j]);
    if j > 0 {
      BaseCounts(segments, parts, j - 1);
      assert Follows(segments[j - 1], parts[j - 1], segments[j]);
    } else {
      NothingBefore(parts);
    }
    JoinSlice(parts, j);
  }

  lemma NothingBefore(parts: seq<seq<seq<byte>>>)
    ensures Join(parts[..0]) == []
  {
  }

  /** Bases strictly increase. */
  lemma {:induction false} BasesIncrease(segments: seq<Segment>, parts: seq<seq<seq<byte>>>, i: nat, j: nat)
    requires LogOk(segments, parts) && i < j < |segments|
    ensures segments[i].base < segments[j].base && segments[i].nextOffset <= segments[j].base
    decreases j - i
  {
    hide ValidRun, AllFramed, IndexOk;
    assert PartOk(segments[i], parts[i]) && PartOk(segments[j - 1], parts[j - 1]);
    assert Follows(segments[j - 1], parts[j - 1], segments[j]);
    if i < j - 1 {
      BasesIncrease(segments, parts, i, j - 1);
    }
  }

  lemma ReplaceLast(segments: seq<Segment>, parts: seq<seq<seq<byte>>>, s: Segment, rs: seq<seq<byte>>)
    requires LogOk(segments, parts) && PartOk(s, rs) && s.base == segments[|segments| - 1].base
    ensures LogOk(segments[|segments| - 1 := s], parts[|parts| - 1 := rs])
    ensures Join(parts[|parts| - 1 := rs]) == Join(parts[..|parts| - 1]) + rs
  {
    hide PartOk, Join;
    var n := |segments| - 1;
    var t, q := segments[n := s], parts[n := rs];
    forall i | 0 <= i < |t| - 1
      ensures Follows(t[i], q[i], t[i + 1])
    {
      assert Follows(segments[i], parts[i], segments[i + 1]);
    }
    JoinLast(q);
    assert q[..n] == parts[..n];
  }

  lemma JoinLast(parts: seq<seq<seq<byte>>>)
    requires parts != []
    ensures Join(parts) == Join(parts[..|parts| - 1]) + parts[|parts| - 1]
  {
  }

  // A new, empty segment after a non-empty one.
  lemma AddSegment(segments: seq<Segment>, parts: seq<seq<seq<byte>>>, s: Segment)
    requires LogOk(segments, parts) && PartOk(s, []) && parts[|parts| - 1] != []
    requires s.base == segments[|segments| - 1].nextOffset
    ensures LogOk(segments + [s], parts + [[]]) && Join(parts + [[]]) == Join(parts)
  {
    hide PartOk, Join;
    var n := |segments| - 1;
    var t, q := segments + [s], parts + [[]];
    forall i | 0 <= i < |t| - 1
      ensures Follows(t[i], q[i], t[i + 1])
    {
      if i < n {
        assert Follows(segments[i], parts[i], segments[i + 1]);
      }
    }
    JoinLast(q);
    assert q[..|q| - 1] == parts;
    assert Join(parts) + [] == Join(parts);
  }

  function Fresh(base: nat): Segment {
    Segment(base, [], 0, base, 0, 0, [])
  }

  lemma FreshOk(base: nat)
    ensures PartOk(Fresh(base), [])
  {
    EmptyFlat([]);
  }

  lemma FreshLog(interval: nat, segmentBytes: int)
    ensures LogOk([Fresh(0)], [[]]) && LogKept([Fresh(0)], [[]], interval, 0, 0) && LogSized([Fresh(0)], [[]], segmentBytes, {})
    ensures Join([[]]) == []
  {
    hide PartOk, SegmentKept, Join;
    FreshOk(0);
    FreshKept(0, interval, 0, 0);
    JoinOne([]);
  }

  lemma ValidRunAppend(a: seq<seq<byte>>, b: seq<seq<byte>>, offset: int)
    requires ValidRun(a, offset) && ValidRun(b, offset + |a|)
    ensures ValidRun(a + b, offset)
  {
    hide ValidRecord;
    forall i | 0 <= i < |a + b|
      ensures ValidRecord((a + b)[i], offset + i)
    {
      if i >= |a| {
        assert ValidRecord(b[i - |a|], offset + |a| + (i - |a|));
      }
    }
  }

  // ------------------------------------------- index density and synced bytes

  // Every record below offset `flushed` ends at or before the synced position.
  ghost predicate SyncedTo(s: Segment, rs: seq<seq<byte>>, flushed: nat) {
    forall k :: 0 < k <= |rs| && s.base + k <= flushed ==> Start(rs, k) <= s.synced
  }

  ghost predicate SegmentKept(s: Segment, rs: seq<seq<byte>>, interval: nat, largest: nat, flushed: nat) {
    Dense(s.index, rs, interval, largest) && SyncedTo(s, rs, flushed)
  }

  /** No index gap exceeds an interval and the largest batch, and what counts as flushed is synced. */
  ghost predicate LogKept(segments: seq<Segment>, parts: seq<seq<seq<byte>>>, interval: nat, largest: nat, flushed: nat) {
    && |segments| == |parts|
    && forall i :: 0 <= i < |segments| ==> SegmentKept(segments[i], parts[i], interval, largest, flushed)
  }

  lemma FreshKept(base: nat, interval: nat, largest: nat, flushed: nat)
    ensures SegmentKept(Fresh(base), [], interval, largest, flushed)
  {
  }

  lemma KeptMore(s: Segment, rs: seq<seq<byte>>, interval: nat, largest: nat, more: nat, flushed: nat, less: nat)
    requires SegmentKept(s, rs, interval, largest, flushed) && largest <= more && less <= flushed
    ensures SegmentKept(s, rs, interval, more, less)
  {
    hide Start, Dense;
    DenseMore(s.index, rs, interval, largest, more);
  }

  lemma ReplaceLastKept(segments: seq<Segment>, parts: seq<seq<seq<byte>>>, s: Segment, rs: seq<seq<byte>>,
                        interval: nat, largest: nat, more: nat, flushed: nat, less: nat)
    requires LogKept(segments, parts, interval, largest, flushed) && segments != []
    requires largest <= more && less <= flushed && SegmentKept(s, rs, interval, more, less)
    ensures LogKept(segments[|segments| - 1 := s], parts[|parts| - 1 := rs], interval, more, less)
  {
    hide SegmentKept;
    forall i | 0 <= i < |segments| - 1
      ensures SegmentKept(segments[i], parts[i], interval, more, less)
    {
      KeptMore(segments[i], parts[i], interval, largest, more, flushed, less);
    }
  }

  lemma WithinKept(segments: seq<Segment>, parts: seq<seq<seq<byte>>>, i: nat, j: nat,
                   interval: nat, largest: nat, flushed: nat)
    requires LogKept(segments, parts, interval, largest, flushed) && i <= j <= |segments|
    ensures LogKept(segments[i..j], parts[i..j], interval, largest, flushed)
  {
    hide SegmentKept;
  }

  lemma AddKept(segments: seq<Segment>, parts: seq<seq<seq<byte>>>, base: nat, interval: nat, largest: nat, flushed: nat)
    requires LogKept(segments, parts, interval, largest, flushed)
    ensures LogKept(segments + [Fresh(base)], parts + [[]], interval, largest, flushed)
  {
    hide SegmentKept;
    FreshKept(base, interval, largest, flushed);
  }

  function Bigger(a: nat, b: nat): nat {
    if a < b then b else a
  }

  // A batch that was not flushed yet leaves what was flushed where it is.
  lemma AppendKept(s: Segment, rs: seq<seq<byte>>, batch: seq<seq<byte>>, t: Segment,
                   interval: nat, largest: nat, flushed: nat)
    requires Holds(s, rs) && AllFramed(batch) && batch != [] && flushed <= s.nextOffset
    requires SegmentKept(s, rs, interval, largest, flushed)
    requires t.base == s.base && t.synced == s.synced
    requires if s.index == [] || s.endPosition - s.lastIndexed >= interval
             then t.index == s.index + [Entry(|rs|, s.endPosition)] else t.index == s.index
    ensures SegmentKept(t, rs + batch, interval, Bigger(largest, |Flat(batch)|), flushed)
  {
    hide Start, Flat, Dense, IndexOk, AllFramed;
    var more := Bigger(largest, |Flat(batch)|);
    DenseMore(s.index, rs, interval, largest, more);
    AppendKeepsDense(s, rs, batch, t, interval, more);
    forall k | 0 < k <= |rs + batch| && t.base + k <= flushed
      ensures Start(rs + batch, k) <= t.synced
    {
      StartPrefix(rs, batch, k);
    }
  }

  lemma CutKept(s: Segment, rs: seq<seq<byte>>, keep: nat, t: Segment, interval: nat, largest: nat, flushed: nat)
    requires Holds(s, rs) && SegmentKept(s, rs, interval, largest, flushed) && keep <= |rs|
    requires Holds(t, rs[..keep]) && t.base == s.base && t.index <= s.index
    requires forall i :: |t.index| <= i < |s.index| ==> s.index[i].relative >= keep
    requires t.synced == (if s.synced < t.endPosition then s.synced else t.endPosition)
    ensures SegmentKept(t, rs[..keep], interval, largest, flushed)
  {
    hide Start, Flat, Dense, IndexOk, AllFramed;
    CutKeepsDense(s.index, rs, |t.index|, keep, interval, largest);
    assert s.index[..|t.index|] == t.index;
    FlatLength(rs[..keep]);
    forall k | 0 < k <= keep && t.base + k <= flushed
      ensures Start(rs[..keep], k) <= t.synced
    {
      StartCut(rs, keep, k);
      StartMonotone(rs[..keep], k, keep);
    }
  }

  // ------------------------------------------------------------ segment sizes

  type Batch = seq<seq<byte>>

  /** A segment keeps to its size, or holds records of a single batch. */
  ghost predicate Sized(s: Segment, rs: seq<seq<byte>>, segmentBytes: int, batches: set<Batch>) {
    segmentBytes > 0 && s.endPosition > segmentBytes ==> exists b :: b in batches && rs <= b
  }

  ghost predicate LogSized(segments: seq<Segment>, parts: seq<seq<seq<byte>>>, segmentBytes: int, batches: set<Batch>) {
    && |segments| == |parts|
    && forall i :: 0 <= i < |segments| ==> Sized(segments[i], parts[i], segmentBytes, batches)
  }

  lemma ReplaceLastSized(segments: seq<Segment>, parts: seq<seq<seq<byte>>>, s: Segment, rs: seq<seq<byte>>,
                         segmentBytes: int, batches: set<Batch>, more: set<Batch>)
    requires LogSized(segments, parts, segmentBytes, batches) && segments != [] && batches <= more
    requires Sized(s, rs, segmentBytes, more)
    ensures LogSized(segments[|segments| - 1 := s], parts[|parts| - 1 := rs], segmentBytes, more)
  {
    forall i | 0 <= i < |segments| - 1
      ensures Sized(segments[i], parts[i], segmentBytes, more)
    {
      assert Sized(segments[i], parts[i], segmentBytes, batches);
    }
  }

  lemma WithinSized(segments: seq<Segment>, parts: seq<seq<seq<byte>>>, i: nat, j: nat, segmentBytes: int, batches: set<Batch>)
    requires LogSized(segments, parts, segmentBytes, batches) && i <= j <= |segments|
    ensures LogSized(segments[i..j], parts[i..j], segmentBytes, batches)
  {
    hide Sized;
  }

  lemma AddSized(segments: seq<Segment>, parts: seq<seq<seq<byte>>>, base: nat, segmentBytes: int, batches: set<Batch>)
    requires LogSized(segments, parts, segmentBytes, batches)
    ensures LogSized(segments + [Fresh(base)], parts + [[]], segmentBytes, batches)
  {
    assert Sized(Fresh(base), [], segmentBytes, batches);
    hide Sized;
  }

  // The sizes do not depend on what is synced.
  lemma SameSized(segments: seq<Segment>, sealed: seq<Segment>, parts: seq<seq<seq<byte>>>, segmentBytes: int, batches: set<Batch>)
    requires LogSized(segments, parts, segmentBytes, batches) && |sealed| == |segments|
    requires forall i :: 0 <= i < |segments| ==> sealed[i].endPosition == segments[i].endPosition
    ensures LogSized(sealed, parts, segmentBytes, batches)
  {
    forall i | 0 <= i < |segments|
      ensures Sized(sealed[i], parts[i], segmentBytes, batches)
    {
      assert Sized(segments[i], parts[i], segmentBytes, batches);
    }
  }

  lemma AppendSized(s: Segment, rs: seq<seq<byte>>, batch: Batch, t: Segment, segmentBytes: int, batches: set<Batch>)
    requires Holds(s, rs) && Holds(t, rs + batch)
    requires segmentBytes > 0 && s.endPosition > 0 ==> s.endPosition + |Flat(batch)| <= segmentBytes
    ensures Sized(t, rs + batch, segmentBytes, batches + {batch})
  {
    hide Flat, IndexOk, Framed;
    FlatAppend(rs, batch);
    if s.endPosition == 0 {
      EmptyBatch(rs);
      assert rs + batch == batch;
    }
  }

  lemma CutSized(s: Segment, rs: seq<seq<byte>>, keep: nat, t: Segment, segmentBytes: int, batches: set<Batch>)
    requires Holds(s, rs) && keep <= |rs| && Holds(t, rs[..keep]) && Sized(s, rs, segmentBytes, batches)
    ensures Sized(t, rs[..keep], segmentBytes, batches)
  {
    hide Flat, IndexOk, AllFramed;
    assert rs == rs[..keep] + rs[keep..];
    FlatAppend(rs[..keep], rs[keep..]);
    if segmentBytes > 0 && t.endPosition > segmentBytes {
      var b :| b in batches && rs <= b;
      assert rs[..keep] <= b;
    }
  }

  // ---------------------------------------------------------------- sealing

  /** Sync: everything the segment holds is on media. */
  function Sealed(s: Segment): Segment {
    s.(synced := s.endPosition)
  }

  function AllSealed(segments: seq<Segment>): (sealed: seq<Segment>)
    ensures |sealed| == |segments| && forall i :: 0 <= i < |segments| ==> sealed[i] == Sealed(segments[i])
  {
    seq(|segments|, i requires 0 <= i < |segments| => Sealed(segments[i]))
  }

  lemma SealedOk(s: Segment, rs: seq<seq<byte>>, interval: nat, largest: nat, flushed: nat, any: nat)
    requires PartOk(s, rs) && SegmentKept(s, rs, interval, largest, flushed)
    ensures PartOk(Sealed(s), rs) && SegmentKept(Sealed(s), rs, interval, largest, any)
  {
    hide Start, Flat, Dense, IndexOk, AllFramed, ValidRun;
    FlatLength(rs);
    forall k | 0 < k <= |rs|
      ensures Start(rs, k) <= s.endPosition
    {
      StartMonotone(rs, k, |rs|);
    }
  }

  // With every segment synced, any offset may count as flushed.
  lemma AllSealedOk(segments: seq<Segment>, parts: seq<seq<seq<byte>>>, interval: nat, largest: nat, flushed: nat, any: nat)
    requires LogOk(segments, parts) && LogKept(segments, parts, interval, largest, flushed)
    ensures LogOk(AllSealed(segments), parts) && LogKept(AllSealed(segments), parts, interval, largest, any)
  {
    hide PartOk, SegmentKept;
    var sealed := AllSealed(segments);
    forall i | 0 <= i < |segments|
      ensures PartOk(sealed[i], parts[i]) && SegmentKept(sealed[i], parts[i], interval, largest, any)
    {
      SealedOk(segments[i], parts[i], interval, largest, flushed, any);
    }
    forall i | 0 <= i < |segments| - 1
      ensures Follows(sealed[i], parts[i], sealed[i + 1])
    {
      assert Follows(segments[i], parts[i], segments[i + 1]);
    }
  }

  function SealLast(segments: seq<Segment>): seq<Segment> {
    if segments == [] then [] else segments[|segments| - 1 := Sealed(segments[|segments| - 1])]
  }

  function ActiveSize(segments: seq<Segment>): nat {
    if segments == [] then 0 else segments[|segments| - 1].endPosition
  }

  lemma SealLastOk(segments: seq<Segment>, parts: seq<seq<seq<byte>>>, interval: nat, largest: nat, flushed: nat)
    requires LogOk(segments, parts) && LogKept(segments, parts, interval, largest, flushed)
    ensures LogOk(SealLast(segments), parts) && LogKept(SealLast(segments), parts, interval, largest, flushed)
  {
    hide PartOk, SegmentKept, Join;
    var n := |segments| - 1;
    SealedOk(segments[n], parts[n], interval, largest, flushed, flushed);
    ReplaceLast(segments, parts, Sealed(segments[n]), parts[n]);
    ReplaceLastKept(segments, parts, Sealed(segments[n]), parts[n], interval, largest, largest, flushed, flushed);
    assert parts[n := parts[n]] == parts;
  }

  // After an empty segment the next base repeats it.
  lemma RepeatedBase(segments: seq<Segment>, parts: seq<seq<seq<byte>>>, s: Segment)
    requires |segments| == |parts| >= 1 && parts[|parts| - 1] == []
    ensures !LogOk(segments + [s], parts + [[]])
  {
    var n := |segments| - 1;
    var t, q := segments + [s], parts + [[]];
    assert !Follows(t[n], q[n], t[n + 1]);
  }

  // -------------------------------------------------------------- reading

  /** The shortest run of whole records from record k whose size reaches maxBytes, or all that is left. */
  ghost predicate ShortestRun(rs: seq<seq<byte>>, k: nat, maxBytes: nat, n: nat) {
    && k + n <= |rs|
    && (n > 0 ==> Start(rs, k + n - 1) - Start(rs, k) < maxBytes)
    && (k + n < |rs| ==> Start(rs, k + n) - Start(rs, k) >= maxBytes)
  }

  lemma SubSlice<T>(s: seq<T>, p: nat, n: nat, i: nat, m: nat)
    requires p + n <= |s| && i + m <= n
    ensures s[p..p + n][i..i + m] == s[p + i..p + i + m]
  {
    var a, b := s[p..p + n][i..i + m], s[p + i..p + i + m];
    forall k | 0 <= k < m
      ensures a[k] == b[k]
    {
      assert a[k] == s[p..p + n][i + k] == s[p + i + k];
    }
    assert a == b;
  }

  // A stretch of one segment, seen in the whole log.
  lemma SameStretch(parts: seq<seq<seq<byte>>>, j: nat, i: nat, m: nat)
    requires j < |parts| && i + m <= |parts[j]|
    ensures var (rs, g) := (Join(parts), |Join(parts[..j])| + i);
      && g + m <= |rs| && rs[g..g + m] == parts[j][i..i + m]
      && Start(rs, g + m) - Start(rs, g) == Start(parts[j], i + m) - Start(parts[j], i) == |Flat(parts[j][i..i + m])|
  {
    hide Join, Start, Flat;
    JoinSlice(parts, j);
    var rs, p := Join(parts), |Join(parts[..j])|;
    SubSlice(rs, p, |parts[j]|, i, m);
    FlatSlice(rs, p + i, p + i + m);
    FlatSlice(parts[j], i, i + m);
  }

  // One segment read continues a run that is still below the budget.
  lemma ReadContinues(parts: seq<seq<seq<byte>>>, j: nat, i: nat, m: nat, k: nat, n: nat, maxBytes: nat)
    requires j < |parts| && i < |parts[j]| && i + m <= |parts[j]| && k + n == |Join(parts[..j])| + i
    requires k + n <= |Join(parts)| && AllFramed(parts[j])
    requires var bytes := Start(Join(parts), k + n) - Start(Join(parts), k);
      0 <= bytes < maxBytes && ReadStops(parts[j], i, maxBytes - bytes, m)
    ensures m >= 1 && k + n + m <= |Join(parts)|
    ensures Start(Join(parts), k + n + m - 1) - Start(Join(parts), k) < maxBytes
    ensures Flat(Join(parts)[k..k + n + m]) == Flat(Join(parts)[k..k + n]) + Flat(parts[j][i..i + m])
    ensures |Flat(Join(parts)[k..k + n + m])| == Start(Join(parts), k + n + m) - Start(Join(parts), k)
  {
    hide Join, Start, Flat, Framed;
    var rs := Join(parts);
    SameStretch(parts, j, i, m);
    SameStretch(parts, j, i, m - 1);
    FlatSlice(rs, k, k + n + m);
    assert rs[k..k + n + m] == rs[k..k + n] + rs[k + n..k + n + m];
    FlatAppend(rs[k..k + n], rs[k + n..k + n + m]);
    StartIncreasing(parts[j], i + m - 1, i + m);
  }

  // ------------------------------------------------ records a lookup can find

  /** The place of a segment's record in the whole log. */
  ghost function Position(parts: seq<seq<seq<byte>>>, j: nat, i: nat): nat
    requires j <= |parts|
  {
    |Join(parts[..j])| + i
  }

  /** The scan from the index entry below record g of the log can step over every record up to it. */
  ghost predicate FoundAt(segments: seq<Segment>, parts: seq<seq<seq<byte>>>, g: nat, limit: nat)
    requires |segments| == |parts|
  {
    forall j: nat, i: nat :: j < |parts| && i < |parts[j]| && Position(parts, j, i) == g ==>
      Found(segments[j], parts[j], i, limit)
  }

  ghost predicate Found(s: Segment, rs: seq<seq<byte>>, i: nat, limit: nat)
    requires i < |rs|
  {
    Steppable(rs, Floor(s.index, i), i, limit)
  }

  lemma {:induction false} JoinMonotone(parts: seq<seq<seq<byte>>>, i: nat, j: nat)
    requires i <= j <= |parts|
    ensures |Join(parts[..i])| <= |Join(parts[..j])|
    decreases j - i
  {
    hide Join;
    if i < j {
      JoinMonotone(parts, i, j - 1);
      JoinSlice(parts, j - 1);
    }
  }

  lemma Located(parts: seq<seq<seq<byte>>>, j: nat, i: nat, j': nat, i': nat)
    requires j < |parts| && j' < |parts| && i < |parts[j]| && i' < |parts[j']|
    requires Position(parts, j, i) == Position(parts, j', i')
    ensures j == j' && i == i'
  {
    hide Join;
    JoinSlice(parts, j);
    JoinSlice(parts, j');
    if j < j' {
      JoinMonotone(parts, j + 1, j');
    } else if j' < j {
      JoinMonotone(parts, j' + 1, j);
    }
  }

  lemma FoundIff(segments: seq<Segment>, parts: seq<seq<seq<byte>>>, j: nat, i: nat, limit: nat)
    requires |segments| == |parts| && j < |parts| && i < |parts[j]|
    ensures FoundAt(segments, parts, Position(parts, j, i), limit) <==> Found(segments[j], parts[j], i, limit)
  {
    hide Position, Found;
    forall j': nat, i': nat | j' < |parts| && i' < |parts[j']| && Position(parts, j', i') == Position(parts, j, i)
      ensures j' == j && i' == i
    {
      Located(parts, j, i, j', i');
    }
  }

  // The segment reads that one log read makes begin at its first record, at
  // records larger than a chunk, and at the record that exceeds the budget.
  ghost predicate Restarts(rs: seq<seq<byte>>, k: nat, maxBytes: nat, g: nat)
    requires k <= g < |rs|
  {
    g == k || |rs[g]| > CHUNK_BYTES || Start(rs, g) + |rs[g]| - Start(rs, k) > maxBytes
  }

  // Such a beginning before record `end`, within the budget, is always found.
  ghost predicate FoundBelow(segments: seq<Segment>, parts: seq<seq<seq<byte>>>, k: nat, maxBytes: nat, limit: nat, end: nat)
    requires |segments| == |parts| && end <= |Join(parts)|
  {
    forall g :: k <= g < end && Start(Join(parts), g) - Start(Join(parts), k) < maxBytes
                && Restarts(Join(parts), k, maxBytes, g) ==>
      FoundAt(segments, parts, g, limit)
  }

  /** Every record at which a read of `maxBytes` from record k must look up its position can be found. */
  ghost predicate AllFound(segments: seq<Segment>, parts: seq<seq<seq<byte>>>, k: nat, maxBytes: nat, limit: nat)
    requires |segments| == |parts|
  {
    FoundBelow(segments, parts, k, maxBytes, limit, |Join(parts)|)
  }

  // One segment read: nothing it takes after its first record is a beginning, and the next record is one.
  lemma ReadFinds(segments: seq<Segment>, parts: seq<seq<seq<byte>>>, j: nat, i: nat, m: nat,
                  k: nat, n: nat, maxBytes: nat, limit: nat)
    requires |segments| == |parts| && j < |parts| && i < |parts[j]| && i + m <= |parts[j]|
    requires k + n == Position(parts, j, i) && k + n + m <= |Join(parts)| && AllFramed(Join(parts))
    requires var bytes := Start(Join(parts), k + n) - Start(Join(parts), k);
      0 <= bytes < maxBytes && ReadStops(parts[j], i, maxBytes - bytes, m)
    requires FoundBelow(segments, parts, k, maxBytes, limit, k + n) && Found(segments[j], parts[j], i, limit)
    ensures FoundBelow(segments, parts, k, maxBytes, limit, k + n + m)
    ensures i + m < |parts[j]| ==> k + n + m < |Join(parts)| && Restarts(Join(parts), k, maxBytes, k + n + m)
  {
    hide Join, Start, FoundAt, Found, AllFramed;
    var rs := Join(parts);
    FoundIff(segments, parts, j, i, limit);
    SameStretch(parts, j, i, m);
    forall g | k + n < g < k + n + m
      ensures !Restarts(rs, k, maxBytes, g)
    {
      SameRecord(parts, j, i, m, g - (k + n));
      StartStep(rs, g);
      StartMonotone(rs, g + 1, k + n + m);
    }
    if i + m < |parts[j]| {
      SameStretch(parts, j, i, m + 1);
      SameRecord(parts, j, i, m + 1, m);
    }
  }

  lemma SameRecord(parts: seq<seq<seq<byte>>>, j: nat, i: nat, m: nat, d: nat)
    requires j < |parts| && i + m <= |parts[j]| && d < m
    ensures Position(parts, j, i) + d < |Join(parts)| && Join(parts)[Position(parts, j, i) + d] == parts[j][i + d]
  {
    hide Join;
    JoinSlice(parts, j);
    var p := |Join(parts[..j])|;
    assert Join(parts)[p..p + |parts[j]|][i + d] == Join(parts)[p + (i + d)];
  }

  lemma ReadEnds(segments: seq<Segment>, parts: seq<seq<seq<byte>>>, k: nat, maxBytes: nat, limit: nat, end: nat)
    requires |segments| == |parts| && k <= end <= |Join(parts)|
    requires end == |Join(parts)| || Start(Join(parts), end) - Start(Join(parts), k) >= maxBytes
    requires FoundBelow(segments, parts, k, maxBytes, limit, end)
    ensures AllFound(segments, parts, k, maxBytes, limit)
  {
    hide Join, Start, FoundAt;
    forall g | end <= g < |Join(parts)|
      ensures Start(Join(parts), g) - Start(Join(parts), k) >= maxBytes
    {
      StartMonotone(Join(parts), end, g);
    }
  }

  /** What cannot be found lies behind a record larger than any block of the scan. */
  lemma NotFoundLarge(segments: seq<Segment>, parts: seq<seq<seq<byte>>>, g: nat, limit: nat)
    requires |segments| == |parts| && !FoundAt(segments, parts, g, limit)
    ensures !Steppable(Join(parts), 0, |Join(parts)|, limit)
  {
    hide Join, Position, Steppable;
    var j: nat, i: nat :| j < |parts| && i < |parts[j]| && Position(parts, j, i) == g && !Found(segments[j], parts[j], i, limit);
    LargeSomewhere(parts, j, Floor(segments[j].index, i), i, limit);
  }

  lemma SmallAllFound(segments: seq<Segment>, parts: seq<seq<seq<byte>>>, k: nat, maxBytes: nat, interval: nat)
    requires |segments| == |parts|
    ensures Steppable(Join(parts), 0, |Join(parts)|, MAX_RECORD_BYTES) ==>
            AllFound(segments, parts, k, maxBytes, StepLimit(interval))
  {
    hide Join, Start, Restarts, FoundAt;
    forall g: nat | !FoundAt(segments, parts, g, StepLimit(interval))
      ensures !Steppable(Join(parts), 0, |Join(parts)|, MAX_RECORD_BYTES)
    {
      NotFoundLarge(segments, parts, g, StepLimit(interval));
    }
  }

  // ------------------------------------------------------- dropping segments

  lemma KeepFirst(segments: seq<Segment>, parts: seq<seq<seq<byte>>>, n: nat)
    requires LogOk(segments, parts) && 1 <= n <= |segments|
    ensures LogOk(segments[..n], parts[..n]) && Join(parts[..n]) <= Join(parts)
  {
    hide PartOk, Join;
    forall i | 0 <= i < n - 1
      ensures Follows(segments[..n][i], parts[..n][i], segments[..n][i + 1])
    {
      assert Follows(segments[i], parts[i], segments[i + 1]);
    }
    assert parts == parts[..n] + parts[n..];
    JoinAppend(parts[..n], parts[n..]);
  }

  // ------------------------------------------------------------------ the log

  datatype AppendError = Closed | InvalidArgument | DiskFull | BadRecord

  datatype LogOptions = LogOptions(
    segmentBytes: int, interval: nat, retentionBytes: int, retentionMs: int, syncOnAppend: bool)

  class PartitionLog {
    const options: LogOptions
    var segments: seq<Segment>
    var logStart: nat
    var logEnd: nat
    var flushed: nat
    var closed: bool
    ghost var parts: seq<seq<seq<byte>>>
    ghost var largest: nat      // bytes of the largest batch ever appended
    ghost var batches: set<Batch>

    ghost predicate Valid()
      reads this
    {
      && LogOk(segments, parts) && LogKept(segments, parts, options.interval, largest, flushed)
      && LogSized(segments, parts, options.segmentBytes, batches)
      && logStart == segments[0].base && flushed <= logEnd == segments[|segments| - 1].nextOffset
    }

    /** The log as one sequence: record `logStart + i` is element i. */
    ghost function Records(): seq<seq<byte>>
      reads this
    {
      Join(parts)
    }

    lemma Bounds()
      requires Valid()
      ensures logEnd == logStart + |Records()|
    {
      hide Join, PartOk, Follows;
      BaseCounts(segments, parts, |segments| - 1);
      assert parts[..|parts|] == parts;
    }

    lemma AllValid()
      requires Valid()
      ensures ValidRun(Records(), logStart) && AllFramed(Records())
    {
      hide Join, PartOk, Follows;
      JoinValid(segments, parts, |segments|);
      assert parts[..|parts|] == parts;
    }

    /** In every reachable log, a lookup walks less than one index interval and one batch from its index entry. */
    lemma ScanBound(j: nat, k: nat)
      requires Valid() && j < |segments| && k < |parts[j]|
      ensures Start(parts[j], k) < Start(parts[j], Floor(segments[j].index, k)) + options.interval + largest
    {
      hide PartOk, Follows, Start, Floor;
      assert SegmentKept(segments[j], parts[j], options.interval, largest, flushed);
    }

    /** In every reachable log, each record below the flushed offset is below its segment's synced position. */
    lemma FlushedIsSynced(j: nat, k: nat)
      requires Valid() && j < |segments| && k < |parts[j]| && segments[j].base + k < flushed
      ensures Start(parts[j], k) + |parts[j][k]| <= segments[j].synced
    {
      hide PartOk, Follows, Start, Dense;
      assert SegmentKept(segments[j], parts[j], options.interval, largest, flushed);
      StartStep(parts[j], k);
      assert Start(parts[j], k + 1) <= segments[j].synced;
    }

    /** In every reachable log, a segment over the configured size holds records of one batch only. */
    lemma SegmentSizes(j: nat)
      requires Valid() && j < |segments| && options.segmentBytes > 0
      ensures |segments| == |parts|
      ensures segments[j].endPosition <= options.segmentBytes || exists b :: b in batches && parts[j] <= b
    {
      hide LogOk, LogKept;
      assert Sized(segments[j], parts[j], options.segmentBytes, batches);
    }

    /** What retention adds up is the size of the records. */
    lemma TotalIsBytes()
      requires Valid()
      ensures TotalBytes(segments) == |Flat(Records())|
    {
      hide Join, PartOk, Follows, LogKept, LogSized, TotalBytes;
      TotalOfParts(segments, parts);
    }

    constructor (options: LogOptions)
      ensures Valid() && Records() == [] && logStart == flushed == 0 && !closed && batches == {} && this.options == options
    {
      hide LogOk, LogKept, LogSized, Join;
      this.options := options;
      segments, logStart, logEnd, flushed, closed, parts, largest, batches := [Fresh(0)], 0, 0, 0, false, [[]], 0, {};
      FreshLog(options.interval, options.segmentBytes);
    }

    /** Flush: every segment is synced, and then the whole log counts as flushed. */
    method Flush()
      requires Valid()
      modifies this`segments, this`flushed
      ensures Valid() && Records() == old(Records()) && flushed == logEnd
      ensures segments == if old(flushed) == logEnd then old(segments) else AllSealed(old(segments))
    {
      hide LogOk, LogKept, LogSized;
      if flushed == logEnd {
        return;
      }
      SyncAll();
      flushed := logEnd;
    }

    method SyncAll()
      requires Valid()
      modifies this`segments
      ensures segments == AllSealed(old(segments)) && |segments| == |old(segments)| >= 1
      ensures LogOk(segments, parts) && LogSized(segments, parts, options.segmentBytes, batches)
      ensures forall any :: LogKept(segments, parts, options.interval, largest, any)
      ensures segments[0].base == logStart && segments[|segments| - 1].nextOffset == logEnd
    {
      hide PartOk, Follows, LogKept, LogSized;
      SameSized(segments, AllSealed(segments), parts, options.segmentBytes, batches);
      forall any: nat
        ensures LogKept(AllSealed(segments), parts, options.interval, largest, any)
      {
        AllSealedOk(segments, parts, options.interval, largest, flushed, any);
      }
      AllSealedOk(segments, parts, options.interval, largest, flushed, 0);
      var sealed := [];
      while |sealed| < |segments|
        invariant segments == old(segments)
        invariant |sealed| <= |segments| && forall i :: 0 <= i < |sealed| ==> sealed[i] == Sealed(segments[i])
      {
        var s := segments[|sealed|];
        assert PartOk(s, parts[|sealed|]);
        SyncedInside(s, parts[|sealed|]);
        sealed := sealed + [if s.synced < s.endPosition then Sealed(s) else s];
      }
      assert sealed == AllSealed(segments);
      segments := sealed;
    }

    /** Close: the segments are synced and later appends are refused. */
    method Close()
      requires Valid()
      modifies this`segments, this`closed
      ensures Valid() && closed && Records() == old(Records())
      ensures segments == if old(closed) then old(segments) else AllSealed(old(segments))
    {
      hide LogOk, LogKept, LogSized;
      if closed {
        return;
      }
      closed := true;
      SyncAll();
    }

    /**
     RollSegment: the active segment is synced and a new one opened at its end.
     The log stays well formed exactly when the active segment was not empty;
     otherwise the new base repeats the old.
     */
    method RollSegment()
      requires Valid()
      modifies this`segments, this`parts
      ensures Valid() <==> old(parts)[|old(parts)| - 1] != []
      ensures Records() == old(Records())
      ensures segments == SealLast(old(segments)) + [Fresh(logEnd)] && parts == old(parts) + [[]]
      ensures |segments| == |old(segments)| + 1 >= 2
      ensures var n := |old(segments)| - 1; segments[n] == old(segments)[n].(synced := old(segments)[n].endPosition)
    {
      hide Join, PartOk, LogKept, LogSized;
      var active := segments[|segments| - 1];
      FreshOk(active.nextOffset);
      SameSized(segments, SealLast(segments), parts, options.segmentBytes, batches);
      AddSized(SealLast(segments), parts, active.nextOffset, options.segmentBytes, batches);
      SealLastOk(segments, parts, options.interval, largest, flushed);
      AddKept(SealLast(segments), parts, active.nextOffset, options.interval, largest, flushed);
      JoinEmpty(parts);
      if parts[|parts| - 1] != [] {
        AddSegment(SealLast(segments), parts, Fresh(active.nextOffset));
      } else {
        RepeatedBase(SealLast(segments), parts, Fresh(active.nextOffset));
      }
      segments := SealLast(segments) + [Fresh(active.nextOffset)];
      parts := parts + [[]];
    }

    predicate RollDue(size: nat, incoming: nat, ageDue: bool) {
      || (size > 0 && options.segmentBytes > 0 && size + incoming > options.segmentBytes)
      || (size > 0 && ageDue)
      || size + incoming > UINT32_MAX
    }

    /**
     MaybeRoll: afterwards the batch fits 32-bit positions, unless it could not
     fit any segment; only then can an empty segment be rolled.
     */
    method MaybeRoll(incoming: nat, ageDue: bool)
      requires Valid()
      modifies this`segments, this`parts
      ensures Records() == old(Records())
      ensures ActiveSize(segments) == 0 || ActiveSize(segments) + incoming <= 0xFFFF_FFFF
      ensures ActiveSize(segments) > 0 && options.segmentBytes > 0 ==> ActiveSize(segments) + incoming <= options.segmentBytes
      ensures segments ==
        if RollDue(ActiveSize(old(segments)), incoming, ageDue) then SealLast(old(segments)) + [Fresh(logEnd)] else old(segments)
      ensures Valid() <==> ActiveSize(old(segments)) > 0 || incoming <= UINT32_MAX
      ensures ActiveSize(old(segments)) > 0 && ageDue ==> |segments| == |old(segments)| + 1
      ensures !ageDue && ActiveSize(old(segments)) + incoming <= UINT32_MAX
              && (options.segmentBytes <= 0 || ActiveSize(old(segments)) + incoming <= options.segmentBytes) ==>
        segments == old(segments)
    {
      hide Join, LogOk, LogKept, LogSized;
      SameCount();
      ActiveEmpty();
      var size := segments[|segments| - 1].endPosition;
      var bySize := options.segmentBytes > 0 && size + incoming > options.segmentBytes && size > 0;
      var byAge := size > 0 && ageDue;
      var byLimit := size + incoming > UINT32_MAX;
      if bySize || byAge || byLimit {
        RollSegment();
      }
    }

    lemma ActiveEmpty()
      requires Valid()
      ensures |segments| == |parts| >= 1 && (ActiveSize(segments) == 0 <==> parts[|parts| - 1] == [])
    {
      hide Join, ValidRun, IndexOk, Flat, LogKept, LogSized, Framed;
      var rs := parts[|parts| - 1];
      assert PartOk(segments[|segments| - 1], rs);
      EmptyFlat(rs);
      if Flat(rs) == [] {
        EmptyBatch(rs);
      }
    }

    // The active segment takes a valid batch.
    method AppendToActive(bytes: seq<byte>, ghost batch: seq<seq<byte>>, count: nat)
      requires Valid() && bytes == Flat(batch) && count == |batch| > 0 && AllFramed(batch) && ValidRun(batch, logEnd)
      requires ActiveSize(segments) <= UINT32_MAX
      requires ActiveSize(segments) > 0 && options.segmentBytes > 0 ==> ActiveSize(segments) + |bytes| <= options.segmentBytes
      modifies this`segments, this`parts, this`logEnd, this`largest, this`batches
      ensures Valid() && Records() == old(Records()) + batch
      ensures largest == Bigger(old(largest), |bytes|) && batches == old(batches) + {batch}
    {
      hide Join, Flat, ValidRun, AllFramed, LogOk, LogKept, Holds, LogSized, Sized;
      ActivePart(segments, parts);
      NotEmptyBytes(batch);
      var n := |segments| - 1;
      var t := AppendEncoded(segments[n], parts[n], bytes, batch, count, options.interval);
      Appended(segments, parts, batch, t, options.interval, largest, flushed);
      AppendSized(segments[n], parts[n], batch, t, options.segmentBytes, batches);
      ReplaceLastSized(segments, parts, t, parts[n] + batch, options.segmentBytes, batches, batches + {batch});
      batches := batches + {batch};
      parts := parts[n := parts[n] + batch];
      segments := segments[n := t];
      logEnd := t.nextOffset;
      largest := Bigger(largest, |bytes|);
    }

    // FinalizeAppend: with sync_on_append the batch is flushed before the append returns.
    method FinishAppend()
      requires Valid()
      modifies this`segments, this`flushed
      ensures Valid() && Records() == old(Records())
      ensures flushed == if options.syncOnAppend then logEnd else old(flushed)
    {
      hide LogOk, LogKept, LogSized;
      if options.syncOnAppend {
        Flush();
      }
    }

    /** The leader's append: offsets are assigned from the log end; a batch that does not parse, or is miscounted, adds nothing. */
    method AppendAssigningOffsets(buf: array<byte>, recordCount: nat, now: i64, ageDue: bool, diskFull: bool)
      returns (error: Option<AppendError>)
      requires Valid() && buf.Length <= UINT32_MAX && logEnd + buf.Length < OFFSET_LIMIT
      modifies this`segments, this`parts, this`logEnd, this`largest, this`batches, this`flushed, buf
      ensures Valid() && logStart == old(logStart)
      ensures var st := Stamped(old(buf[..]), old(logEnd), now);
        error ==
          if closed then Some(Closed)
          else if old(buf[..]) == [] || recordCount == 0 then Some(InvalidArgument)
          else if diskFull then Some(DiskFull)
          else if st.None? then Some(BadRecord)
          else if |st.value| != recordCount then Some(InvalidArgument)
          else None
      ensures error.Some? ==> Records() == old(Records()) && logEnd == old(logEnd) && flushed == old(flushed)
      ensures error.None? ==>
        && Records() == old(Records()) + Stamped(old(buf[..]), old(logEnd), now).value && logEnd == old(logEnd) + recordCount
        && flushed == if options.syncOnAppend then logEnd else old(flushed)
    {
      hide Join, LogOk, Stamped, LogKept, LogSized, RollDue, SealLast, ActiveSize;
      if closed {
        return Some(Closed);
      }
      if buf.Length == 0 || recordCount == 0 {
        return Some(InvalidArgument);
      }
      if diskFull {
        return Some(DiskFull);
      }
      Bounds();
      MaybeRoll(buf.Length, ageDue);
      Bounds();
      error := AppendStamped(buf, recordCount, now);
      if error.None? {
        FinishAppend();
      }
    }

    // The pass over the batch, and the write.
    method AppendStamped(buf: array<byte>, recordCount: nat, now: i64) returns (error: Option<AppendError>)
      requires Valid() && ActiveSize(segments) <= UINT32_MAX && recordCount > 0 && logEnd + buf.Length < OFFSET_LIMIT
      requires ActiveSize(segments) > 0 && options.segmentBytes > 0 ==> ActiveSize(segments) + buf.Length <= options.segmentBytes
      modifies this`segments, this`parts, this`logEnd, this`largest, this`batches, buf
      ensures Valid()
      ensures var st := Stamped(old(buf[..]), old(logEnd), now);
        if st.None? then error == Some(BadRecord) && Records() == old(Records()) && logEnd == old(logEnd)
        else if |st.value| != recordCount then
          error == Some(InvalidArgument) && Records() == old(Records()) && logEnd == old(logEnd)
        else error == None && Records() == old(Records()) + st.value && logEnd == old(logEnd) + recordCount
    {
      hide Join, PartOk, Follows, Flat, Stamped, ValidRun, AllFramed, LogKept, LogSized;
      ghost var sent := buf[..];
      var base := segments[|segments| - 1].nextOffset;
      StampedValid(sent, base, now);
      var ok, seen := StampBatch(buf, base, now);
      if !ok {
        return Some(BadRecord);
      }
      if seen != recordCount {
        return Some(InvalidArgument);
      }
      Bounds();
      AppendToActive(buf[..], Stamped(sent, base, now).value, seen);
      Bounds();
      return None;
    }

    /** The follower's append: checksum-valid records that continue the log, or nothing. */
    method AppendWithOffsets(records: seq<byte>, recordCount: nat, ageDue: bool, diskFull: bool)
      returns (error: Option<AppendError>)
      requires Valid() && |records| <= UINT32_MAX
      modifies this`segments, this`parts, this`logEnd, this`largest, this`batches, this`flushed
      ensures Valid() && logStart == old(logStart)
      ensures var ch := Checked(records, old(logEnd));
        error ==
          if closed then Some(Closed)
          else if records == [] || recordCount == 0 then Some(InvalidArgument)
          else if diskFull then Some(DiskFull)
          else if ch.None? then Some(BadRecord)
          else if |ch.value| != recordCount then Some(InvalidArgument)
          else None
      ensures error.Some? ==> Records() == old(Records()) && logEnd == old(logEnd) && flushed == old(flushed)
      ensures error.None? ==>
        && Records() == old(Records()) + Checked(records, old(logEnd)).value && logEnd == old(logEnd) + recordCount
        && flushed == if options.syncOnAppend then logEnd else old(flushed)
      // Any valid run that continues the log, and nothing else, is appended whole.
      ensures forall rs :: IsRun(rs, records, old(logEnd)) && rs != [] && !closed && !diskFull && recordCount == |rs| ==>
        error == None && Records() == old(Records()) + rs
      ensures error == None ==>
        exists rs :: IsRun(rs, records, old(logEnd)) && recordCount == |rs| && Records() == old(Records()) + rs
    {
      hide Join, LogOk, Flat, Checked, ValidRun, AllFramed, LogKept, LogSized, IsRun;
      forall rs
        ensures Checked(records, logEnd) == Some(rs) <==> IsRun(rs, records, logEnd)
        ensures IsRun(rs, records, logEnd) && rs != [] ==> records != []
      {
        CheckedIff(records, logEnd, rs);
        if IsRun(rs, records, logEnd) && rs != [] {
          SomeBytes(rs, records, logEnd);
        }
      }
      if closed {
        return Some(Closed);
      }
      if records == [] || recordCount == 0 {
        return Some(InvalidArgument);
      }
      if diskFull {
        return Some(DiskFull);
      }
      var expected := logEnd;
      CheckedValid(records, expected);
      var ok, seen := CheckBatch(records, expected);
      if !ok {
        return Some(BadRecord);
      }
      if seen != recordCount {
        return Some(InvalidArgument);
      }
      Bounds();
      MaybeRoll(|records|, ageDue);
      Bounds();
      AppendToActive(records, Checked(records, expected).value, seen);
      Bounds();
      FinishAppend();
      return None;
    }

    /** SegmentForOffset: the last segment whose base is not past the offset. */
    method SegmentFor(offset: nat) returns (j: nat)
      requires Valid() && logStart <= offset < logEnd
      ensures j < |segments| && segments[j].base <= offset < segments[j].nextOffset
    {
      hide PartOk, Follows;
      var lo, hi := 0, |segments|;
      while lo < hi
        invariant 0 <= lo <= hi <= |segments|
        invariant forall i :: 0 <= i < lo ==> segments[i].base <= offset
        invariant forall i :: hi <= i < |segments| ==> offset < segments[i].base
      {
        var mid := (lo + hi) / 2;
        if offset < segments[mid].base {
          forall i | mid <= i < |segments|
            ensures offset < segments[i].base
          {
            if mid < i {
              BasesIncrease(segments, parts, mid, i);
            }
          }
          hi := mid;
        } else {
          forall i | 0 <= i <= mid
            ensures segments[i].base <= offset
          {
            if i < mid {
              BasesIncrease(segments, parts, i, mid);
            }
          }
          lo := mid + 1;
        }
      }
      assert lo > 0;
      j := lo - 1;
      if lo < |segments| {
        NextBase(segments, parts, j);
      }
    }

    /** Read, from the offset's segment onward: an error exactly when a record it must look up cannot be found. */
    method Read(from: nat, maxBytes: nat) returns (r: Result<(nat, seq<byte>), Error>)
      requires Valid()
      ensures from < logStart || from > logEnd ==> r == Err(OutOfRange)
      ensures logStart <= from <= logEnd ==>
        && (r.Ok? <==> AllFound(segments, parts, from - logStart, maxBytes, StepLimit(options.interval)))
        && (r.Err? ==> r.error == Corruption)
      // Records within the size limit never stand in the way.
      ensures logStart <= from <= logEnd && Steppable(Records(), 0, |Records()|, MAX_RECORD_BYTES) ==> r.Ok?
      ensures r.Ok? ==> logStart <= from <= logEnd
      ensures r.Ok? ==>
        var (k, n) := (from - logStart, r.value.0);
        ShortestRun(Records(), k, maxBytes, n) && r.value.1 == Flat(Records()[k..k + n])
    {
      hide Join, LogOk, LogKept, LogSized, Start, Flat, FoundBelow, Restarts, AllFound;
      if from < logStart || from > logEnd {
        return Err(OutOfRange);
      }
      Bounds();
      SameCount();
      ghost var rs, k, limit := Records(), from - logStart, StepLimit(options.interval);
      SmallAllFound(segments, parts, k, maxBytes, options.interval);
      EmptyFlat(rs[k..k]);
      NothingBelow(segments, parts, k, maxBytes, limit);
      if from == logEnd {
        ReadEnds(segments, parts, k, maxBytes, limit, k);
        return Ok((0, []));
      }
      var j: nat := SegmentFor(from);
      RestartsAtFirst(rs, k, maxBytes);
      var count: nat, out: seq<byte> := 0, [];
      while |out| < maxBytes && from + count < logEnd
        invariant from + count <= logEnd && j < |segments|
        invariant from + count < logEnd ==> segments[j].base <= from + count < segments[j].nextOffset
        invariant out == Flat(rs[k..k + count]) && |out| == Start(rs, k + count) - Start(rs, k)
        invariant count > 0 ==> Start(rs, k + count - 1) - Start(rs, k) < maxBytes
        invariant FoundBelow(segments, parts, k, maxBytes, limit, k + count)
        invariant from + count < logEnd && from + count > segments[j].base ==> Restarts(rs, k, maxBytes, k + count)
        decreases logEnd - from - count
      {
        var chunk := ReadMore(j, from, count, |out|, maxBytes);
        if chunk.Err? {
          return Err(Corruption);
        }
        count, out := count + chunk.value.0, out + chunk.value.1;
        if from + count < logEnd && from + count >= segments[j].nextOffset {
          MoreSegments(segments, parts, j);
          j := j + 1;
        }
      }
      ReadEnds(segments, parts, k, maxBytes, limit, k + count);
      return Ok((count, out));
    }

    lemma SameCount()
      requires Valid()
      ensures |segments| == |parts| >= 1
    {
      hide PartOk, Follows, LogKept, LogSized;
    }

    // One segment read of a log read that has taken `count` records of `taken` bytes.
    method ReadMore(j: nat, from: nat, count: nat, taken: nat, maxBytes: nat) returns (r: Result<(nat, seq<byte>), Error>)
      requires Valid() && j < |segments| == |parts| && segments[j].base <= from + count < segments[j].nextOffset
      requires logStart <= from && from + count <= logStart + |Records()| && taken < maxBytes
      requires taken == Start(Records(), from + count - logStart) - Start(Records(), from - logStart)
      requires FoundBelow(segments, parts, from - logStart, maxBytes, StepLimit(options.interval), from + count - logStart)
      requires from + count < logEnd && from + count > segments[j].base ==>
        from + count < logStart + |Records()| && Restarts(Records(), from - logStart, maxBytes, from + count - logStart)
      ensures r.Err? ==> !AllFound(segments, parts, from - logStart, maxBytes, StepLimit(options.interval))
      ensures r.Ok? ==>
        var (rs, k, n) := (Records(), from - logStart, from - logStart + count + r.value.0);
        && r.value.0 >= 1 && n <= |rs| && from + count + r.value.0 <= segments[j].nextOffset
        && Start(rs, n - 1) - Start(rs, k) < maxBytes
        && Flat(rs[k..n]) == Flat(rs[k..k + count]) + r.value.1 && |Flat(rs[k..n])| == Start(rs, n) - Start(rs, k)
        && FoundBelow(segments, parts, k, maxBytes, StepLimit(options.interval), n)
        && (from + count + r.value.0 < segments[j].nextOffset ==> n < |rs| && Restarts(rs, k, maxBytes, n))
    {
      hide Join, LogOk, LogKept, LogSized, Start, Flat, FoundBelow, Restarts, AllFound, Found, ReadStops, AllFramed;
      ghost var k, limit, i := from - logStart, StepLimit(options.interval), from + count - segments[j].base;
      Bounds();
      AllValid();
      PartFacts(segments, parts, j);
      InLog(segments, parts, j, i);
      r := ReadSegment(j, from + count, maxBytes - taken);
      if r.Err? {
        LookupFails(segments, parts, j, i, k, count, maxBytes, limit);
      } else {
        ReadContinues(parts, j, i, r.value.0, k, count, maxBytes);
        ReadFinds(segments, parts, j, i, r.value.0, k, count, maxBytes, limit);
      }
    }

    method ReadSegment(j: nat, cursor: nat, budget: nat) returns (r: Result<(nat, seq<byte>), Error>)
      requires Valid() && j < |segments| && segments[j].base <= cursor < segments[j].nextOffset && budget > 0
      ensures segments[j].nextOffset == segments[j].base + |parts[j]|
      ensures r.Ok? <==> Found(segments[j], parts[j], cursor - segments[j].base, StepLimit(options.interval))
      ensures r.Ok? ==>
        var (i, m) := (cursor - segments[j].base, r.value.0);
        i + m <= |parts[j]| && ReadStops(parts[j], i, budget, m) && r.value.1 == Flat(parts[j][i..i + m])
    {
      hide Join, Start, Flat, ValidRun, IndexOk, AllFramed, ReadStops, LogKept, LogSized;
      assert PartOk(segments[j], parts[j]);
      r := Segments.Read(segments[j], parts[j], cursor, budget, options.interval);
    }

    /**
     TruncateTo: the log becomes its first records up to `offset`, whatever
     segment boundaries lie beyond. It fails exactly when the record at `offset`
     cannot be found. By then the segments after its own are gone while the log
     end still counts their records, so the log is whole only if they had none.
     */
    method TruncateTo(offset: nat) returns (error: Option<Error>)
      requires Valid()
      modifies this`segments, this`parts, this`logEnd, this`flushed
      ensures logStart == old(logStart)
      ensures offset >= old(logEnd) ==> error == None && Valid() && Records() == old(Records())
      ensures offset < logStart ==> error == Some(OutOfRange) && Valid() && Records() == old(Records())
      ensures logStart <= offset < old(logEnd) ==>
        error == if FoundAt(old(segments), old(parts), offset - logStart, StepLimit(options.interval))
                 then None else Some(Corruption)
      ensures logStart <= offset < old(logEnd) && error == None ==>
        && offset - logStart <= |old(Records())| && Valid() && logEnd == offset && Records() == old(Records())[..offset - logStart]
        && flushed == if old(flushed) > offset then offset else old(flushed)
      ensures error == Some(Corruption) ==>
        && 1 <= |segments| && segments <= old(segments) && logEnd == old(logEnd) && LogOk(segments, parts)
        && Records() <= old(Records()) && |Records()| > offset - logStart
        && (forall i :: |segments| <= i < |old(segments)| ==> old(segments)[i].base > offset)
        && (Valid() <==> Records() == old(Records()))
    {
      hide Join, LogOk, LogKept, LogSized, FoundAt;
      Bounds();
      SameCount();
      if offset >= logEnd {
        return None;
      }
      if offset < logStart {
        return Some(OutOfRange);
      }
      var n := |segments|;
      while n > 1 && segments[n - 1].base >= offset
        invariant 1 <= n <= |segments|
        invariant forall i :: n <= i < |segments| ==> segments[i].base >= offset
      {
        n := n - 1;
      }
      error := CutTo(n, offset);
    }

    // The segments before n stay, and the last of them is cut at `offset`.
    method CutTo(n: nat, offset: nat) returns (error: Option<Error>)
      requires Valid() && |segments| == |parts| && 1 <= n <= |segments| && logStart <= offset < logEnd
      requires n > 1 ==> segments[n - 1].base < offset
      requires forall i :: n <= i < |segments| ==> segments[i].base >= offset
      modifies this`segments, this`parts, this`logEnd, this`flushed
      ensures error == if FoundAt(old(segments), old(parts), offset - logStart, StepLimit(options.interval))
                       then None else Some(Corruption)
      ensures error == None ==>
        && offset - logStart <= |old(Records())| && Valid() && logEnd == offset && Records() == old(Records())[..offset - logStart]
        && flushed == if old(flushed) > offset then offset else old(flushed)
      ensures error == Some(Corruption) ==>
        && 1 <= |segments| && segments <= old(segments) && logEnd == old(logEnd) && LogOk(segments, parts)
        && Records() <= old(Records()) && |Records()| > offset - logStart
        && (forall i :: |segments| <= i < |old(segments)| ==> old(segments)[i].base > offset)
        && (Valid() <==> Records() == old(Records()))
    {
      hide Join, PartOk, Follows, Steppable, HoldsBytes, IndexOk, Floor, LogKept, SegmentKept, LogSized, FoundAt;
      ghost var rs, keep := parts[n - 1], offset - segments[n - 1].base;
      CutAt(segments, parts, n, offset);
      CutFound(segments, parts, n, offset, StepLimit(options.interval));
      var t := TruncateFrom(segments[n - 1], rs, offset, options.interval);
      if t.Err? {
        DropTail(n, offset);
        return Some(Corruption);
      }
      CutLog(segments, parts, n, offset, t.value);
      CutLogKept(segments, parts, n, segments[n - 1], rs, keep, t.value, options.interval, largest, flushed,
                 if flushed > offset then offset else flushed);
      CutLogSized(segments, parts, n, segments[n - 1], rs, keep, t.value, options.segmentBytes, batches);
      segments := segments[..n][n - 1 := t.value];
      parts := parts[..n][n - 1 := rs[..keep]];
      logEnd := offset;
      if flushed > offset {
        flushed := offset;
      }
      return None;
    }

    method DropTail(n: nat, offset: nat)
      requires Valid() && |segments| == |parts| && 1 <= n <= |segments| && logStart <= offset < segments[n - 1].nextOffset
      requires forall i :: n <= i < |segments| ==> segments[i].base >= offset
      modifies this`segments, this`parts
      ensures 1 <= |segments| && segments <= old(segments) && LogOk(segments, parts)
      ensures Records() <= old(Records()) && |Records()| > offset - logStart
      ensures forall i :: |segments| <= i < |old(segments)| ==> old(segments)[i].base > offset
      ensures Valid() <==> Records() == old(Records())
    {
      hide Join, PartOk, Follows, LogKept, LogSized;
      WithinSized(segments, parts, 0, n, options.segmentBytes, batches);
      CutShort(segments, parts, n, offset);
      WithinKept(segments, parts, 0, n, options.interval, largest, flushed);
      assert segments[0..n] == segments[..n] && parts[0..n] == parts[..n];
      segments, parts := segments[..n], parts[..n];
    }

    // Retention asks for segment i once the ones before it are gone.
    ghost predicate Doomed(all: seq<Segment>, maxTimestamps: seq<int>, now: int, i: nat)
      requires i < |all| == |maxTimestamps|
    {
      || (options.retentionMs > 0 && maxTimestamps[i] > 0 && now - maxTimestamps[i] > options.retentionMs)
      || (options.retentionBytes > 0 && TotalBytes(all[i..]) > options.retentionBytes)
    }

    predicate TooOld(maxTimestamp: int, now: int) {
      options.retentionMs > 0 && maxTimestamp > 0 && now - maxTimestamp > options.retentionMs
    }

    /** Retention drops whole segments from the front, never the active one, until neither rule asks for more. */
    method EnforceRetention(maxTimestamps: seq<int>, now: int) returns (deleted: nat)
      requires Valid() && |maxTimestamps| == |segments|
      modifies this`segments, this`parts, this`logStart
      ensures Valid() && logEnd == old(logEnd) && deleted < |old(segments)| && segments == old(segments)[deleted..]
      ensures logStart - old(logStart) <= |old(Records())| && old(logStart) <= logStart
      ensures Records() == old(Records())[logStart - old(logStart)..]
      ensures options.retentionBytes <= 0 && options.retentionMs <= 0 ==> deleted == 0
      ensures |segments| > 1 && options.retentionBytes > 0 ==> TotalBytes(segments) <= options.retentionBytes
      ensures |segments| > 1 && options.retentionMs > 0 && maxTimestamps[deleted] > 0 ==>
        now - maxTimestamps[deleted] <= options.retentionMs
      ensures forall i :: 0 <= i < deleted ==> Doomed(old(segments), maxTimestamps, now, i)
    {
      hide Join, PartOk, Follows, TotalBytes, LogKept, LogSized;
      deleted := 0;
      Bounds();
      assert segments[0..] == segments && parts[0..] == parts;
      if options.retentionBytes > 0 || options.retentionMs > 0 {
        while |segments| - deleted > 1
          invariant deleted < |segments|
          invariant forall i :: 0 <= i < deleted ==> Doomed(segments, maxTimestamps, now, i)
        {
          // Segments still there: segments[deleted..].
          var total := TotalBytes(segments[deleted..]);
          var expired := TooOld(maxTimestamps[deleted], now);
          var big := options.retentionBytes > 0 && total > options.retentionBytes;
          if !expired && !big {
            break;
          }
          deleted := deleted + 1;
        }
      }
      DropMany(segments, parts, deleted);
      WithinSized(segments, parts, deleted, |segments|, options.segmentBytes, batches);
      WithinKept(segments, parts, deleted, |segments|, options.interval, largest, flushed);
      assert segments[deleted..|segments|] == segments[deleted..] && parts[deleted..|segments|] == parts[deleted..];
      segments, parts := segments[deleted..], parts[deleted..];
      logStart := segments[0].base;
      Bounds();
    }
  }

  lemma {:induction false} DropMany(segments: seq<Segment>, parts: seq<seq<seq<byte>>>, n: nat)
    requires LogOk(segments, parts) && n < |segments|
    ensures |segments| == |parts| && LogOk(segments[n..], parts[n..])
    ensures segments[n].base - segments[0].base == |Join(parts[..n])| <= |Join(parts)|
    ensures Join(parts[n..]) == Join(parts)[segments[n].base - segments[0].base..]
  {
    hide Join, PartOk, Follows;
    var t, q := segments[n..], parts[n..];
    forall i | 0 <= i < |t| - 1
      ensures Follows(t[i], q[i], t[i + 1])
    {
      assert Follows(segments[n + i], parts[n + i], segments[n + i + 1]);
    }
    BaseCounts(segments, parts, n);
    assert parts == parts[..n] + parts[n..];
    JoinAppend(parts[..n], parts[n..]);
  }

  lemma JoinEmpty(parts: seq<seq<seq<byte>>>)
    ensures Join(parts + [[]]) == Join(parts)
  {
    assert (parts + [[]])[..|parts|] == parts;
  }

  lemma SyncedInside(s: Segment, rs: seq<seq<byte>>)
    requires PartOk(s, rs)
    ensures s.synced >= s.endPosition ==> Sealed(s) == s
  {
    hide Flat, ValidRun, AllFramed, IndexOk;
  }

  lemma ActiveKept(segments: seq<Segment>, parts: seq<seq<seq<byte>>>, interval: nat, largest: nat, flushed: nat)
    requires LogKept(segments, parts, interval, largest, flushed) && segments != []
    ensures SegmentKept(segments[|segments| - 1], parts[|parts| - 1], interval, largest, flushed)
  {
    hide SegmentKept;
  }

  lemma ActivePart(segments: seq<Segment>, parts: seq<seq<seq<byte>>>)
    requires LogOk(segments, parts)
    ensures |segments| == |parts| >= 1 && Holds(segments[|segments| - 1], parts[|parts| - 1])
  {
    hide Holds, ValidRun, Follows;
    assert PartOk(segments[|segments| - 1], parts[|parts| - 1]);
  }

  // The log after its active segment took a batch.
  lemma Appended(segments: seq<Segment>, parts: seq<seq<seq<byte>>>, batch: seq<seq<byte>>, t: Segment,
                 interval: nat, largest: nat, flushed: nat)
    requires LogOk(segments, parts) && LogKept(segments, parts, interval, largest, flushed)
    requires var s := segments[|segments| - 1];
      && flushed <= s.nextOffset && AllFramed(batch) && batch != [] && ValidRun(batch, s.nextOffset)
      && Holds(t, parts[|parts| - 1] + batch) && t.base == s.base && t.synced == s.synced
      && if s.index == [] || s.endPosition - s.lastIndexed >= interval
         then t.index == s.index + [Entry(|parts[|parts| - 1]|, s.endPosition)] else t.index == s.index
    ensures var n := |segments| - 1; var (t', q) := (segments[n := t], parts[n := parts[n] + batch]);
      && LogOk(t', q) && LogKept(t', q, interval, Bigger(largest, |Flat(batch)|), flushed)
      && Join(q) == Join(parts) + batch && t.nextOffset == segments[n].nextOffset + |batch| && t'[0].base == segments[0].base
  {
    hide Join, Flat, ValidRun, AllFramed, IndexOk, LogKept, SegmentKept;
    var n := |segments| - 1;
    var s, rs := segments[n], parts[n];
    assert PartOk(s, rs);
    ValidRunAppend(rs, batch, s.base);
    ReplaceLast(segments, parts, t, rs + batch);
    ActiveKept(segments, parts, interval, largest, flushed);
    AppendKept(s, rs, batch, t, interval, largest, flushed);
    ReplaceLastKept(segments, parts, t, rs + batch, interval, largest, Bigger(largest, |Flat(batch)|), flushed, flushed);
    JoinLast(parts);
    assert Join(parts[..n]) + (rs + batch) == (Join(parts[..n]) + rs) + batch;
  }

  lemma NotEmptyBytes(batch: seq<seq<byte>>)
    requires AllFramed(batch) && batch != []
    ensures Flat(batch) != []
  {
    hide Flat, Framed;
    RelativeFits(batch);
  }

  lemma NothingBelow(segments: seq<Segment>, parts: seq<seq<seq<byte>>>, k: nat, maxBytes: nat, limit: nat)
    requires |segments| == |parts| && k <= |Join(parts)|
    ensures FoundBelow(segments, parts, k, maxBytes, limit, k)
  {
    hide Join, Start;
  }

  lemma RestartsAtFirst(rs: seq<seq<byte>>, k: nat, maxBytes: nat)
    requires k < |rs|
    ensures Restarts(rs, k, maxBytes, k)
  {
  }

  lemma InLog(segments: seq<Segment>, parts: seq<seq<seq<byte>>>, j: nat, i: nat)
    requires |segments| == |parts| && j < |parts| && i < |parts[j]|
    ensures Position(parts, j, i) < |Join(parts)|
  {
    hide Join;
    JoinSlice(parts, j);
  }

  // A lookup that fails is one the read had to make.
  lemma LookupFails(segments: seq<Segment>, parts: seq<seq<seq<byte>>>, j: nat, i: nat,
                    k: nat, n: nat, maxBytes: nat, limit: nat)
    requires |segments| == |parts| && j < |parts| && i < |parts[j]|
    requires k + n == Position(parts, j, i) < |Join(parts)| && !Found(segments[j], parts[j], i, limit)
    requires Start(Join(parts), k + n) - Start(Join(parts), k) < maxBytes
    requires i > 0 ==> Restarts(Join(parts), k, maxBytes, k + n)
    ensures !AllFound(segments, parts, k, maxBytes, limit)
  {
    hide Join, Start, FoundAt, Restarts;
    FoundIff(segments, parts, j, i, limit);
    assert i > 0;
  }

  function TotalBytes(segments: seq<Segment>): nat {
    if segments == [] then 0 else segments[0].endPosition + TotalBytes(segments[1..])
  }

  lemma {:induction false} TotalOfParts(segments: seq<Segment>, parts: seq<seq<seq<byte>>>)
    requires |segments| == |parts| && forall i :: 0 <= i < |segments| ==> PartOk(segments[i], parts[i])
    ensures TotalBytes(segments) == |Flat(Join(parts))|
  {
    hide Join, Flat, ValidRun, AllFramed, IndexOk;
    if segments == [] {
      NothingBefore(parts);
      assert parts[..0] == parts;
      EmptyFlat([]);
    } else {
      assert PartOk(segments[0], parts[0]);
      assert parts == [parts[0]] + parts[1..];
      JoinAppend([parts[0]], parts[1..]);
      JoinOne(parts[0]);
      FlatAppend(parts[0], Join(parts[1..]));
      TotalOfParts(segments[1..], parts[1..]);
    }
  }

  // Where the loop over trailing segments stops.
  lemma CutAt(segments: seq<Segment>, parts: seq<seq<seq<byte>>>, n: nat, offset: nat)
    requires LogOk(segments, parts) && 1 <= n <= |segments| && segments[0].base <= offset
    requires n > 1 ==> segments[n - 1].base < offset
    requires n < |segments| ==> segments[n].base >= offset
    requires n == |segments| ==> offset < segments[n - 1].nextOffset
    ensures Holds(segments[n - 1], parts[n - 1]) && |segments| == |parts|
    ensures segments[n - 1].base <= offset <= segments[n - 1].nextOffset == segments[n - 1].base + |parts[n - 1]|
  {
    hide Join, ValidRun, IndexOk, Flat, AllFramed;
    assert PartOk(segments[n - 1], parts[n - 1]);
    if n < |segments| {
      NextBase(segments, parts, n - 1);
    }
  }

  // The wanted offset is a record of the segment the cut reaches, or begins the one after.
  lemma CutFound(segments: seq<Segment>, parts: seq<seq<seq<byte>>>, n: nat, offset: nat, limit: nat)
    requires LogOk(segments, parts) && 1 <= n <= |segments| && segments[0].base <= offset < segments[|segments| - 1].nextOffset
    requires segments[n - 1].base <= offset <= segments[n - 1].base + |parts[n - 1]|
    requires forall i :: n <= i < |segments| ==> segments[i].base >= offset
    ensures var (s, rs, i) := (segments[n - 1], parts[n - 1], offset - segments[n - 1].base);
      FoundAt(segments, parts, offset - segments[0].base, limit) <==>
        (0 < i < |rs| ==> Steppable(rs, Floor(s.index, i), i, limit))
  {
    hide Join, PartOk, Follows, FoundAt;
    var i := offset - segments[n - 1].base;
    PartFacts(segments, parts, n - 1);
    if i < |parts[n - 1]| {
      FoundIff(segments, parts, n - 1, i, limit);
    } else {
      FoundFirst(segments, parts, n, offset, limit);
    }
  }

  // The first record of a segment needs no scan.
  lemma FoundFirst(segments: seq<Segment>, parts: seq<seq<seq<byte>>>, n: nat, offset: nat, limit: nat)
    requires LogOk(segments, parts) && 1 <= n <= |segments| && segments[0].base <= offset < segments[|segments| - 1].nextOffset
    requires offset == segments[n - 1].base + |parts[n - 1]|
    ensures FoundAt(segments, parts, offset - segments[0].base, limit)
  {
    hide Join, PartOk, Follows, FoundAt;
    PartFacts(segments, parts, n - 1);
    MoreSegments(segments, parts, n - 1);
    PartFacts(segments, parts, n);
    FoundIff(segments, parts, n, 0, limit);
  }

  /**
   A log whose truncation to offset 1 fails after its second segment is gone:
   the first segment holds a record longer than a lookup can step over, and one
   behind it.
   */
  lemma TruncationFails(r: R.Record, next: R.Record, last: R.Record, interval: nat)
    requires R.Fits(r) && R.Fits(next) && R.Fits(last) && r.offset == 0 && next.offset == 1 && last.offset == 2
    requires |R.Encode(r)| > MAX_RECORD_BYTES >= interval
    ensures var (rs, b) := ([R.Encode(r), R.Encode(next)], R.Encode(last));
      var segments := [Segment(0, Flat(rs), |Flat(rs)|, 2, 0, 0, [Entry(0, 0)]), Segment(2, b, |b|, 3, 0, 0, [Entry(0, 0)])];
      LogOk(segments, [rs, [b]]) && !FoundAt(segments, [rs, [b]], 1, StepLimit(interval)) && segments[1].base > 1
  {
    hide R.Encode, R.Fits, Flat, ValidRun, Join, FoundAt;
    var rs, b := [R.Encode(r), R.Encode(next)], R.Encode(last);
    var s, t := Segment(0, Flat(rs), |Flat(rs)|, 2, 0, 0, [Entry(0, 0)]), Segment(2, b, |b|, 3, 0, 0, [Entry(0, 0)]);
    SecondRecordUnreachable(r, next, interval);
    OneRecord(last);
    var segments, parts := [s, t], [rs, [b]];
    assert Follows(s, rs, t);
    NothingBefore(parts);
    FoundIff(segments, parts, 0, 1, StepLimit(interval));
  }

  lemma OneRecord(r: R.Record)
    requires R.Fits(r) && r.offset >= 0
    ensures var b := R.Encode(r);
      PartOk(Segment(r.offset, b, |b|, r.offset + 1, 0, 0, [Entry(0, 0)]), [b])
  {
    hide R.Encode, R.Fits, Flat, ValidRecord, Framed;
    EncodedValid(r);
    FlatOne(R.Encode(r));
    StartZero([R.Encode(r)]);
  }

  // What a failed truncation leaves.
  lemma CutShort(segments: seq<Segment>, parts: seq<seq<seq<byte>>>, n: nat, offset: nat)
    requires LogOk(segments, parts) && 1 <= n <= |segments| && segments[0].base <= offset < segments[n - 1].nextOffset
    requires forall i :: n <= i < |segments| ==> segments[i].base >= offset
    ensures LogOk(segments[..n], parts[..n]) && Join(parts[..n]) <= Join(parts)
    ensures |Join(parts[..n])| > offset - segments[0].base
    ensures forall i :: n <= i < |segments| ==> segments[i].base > offset
    ensures segments[n - 1].nextOffset == segments[|segments| - 1].nextOffset <==> Join(parts[..n]) == Join(parts)
  {
    hide Join, PartOk, Follows;
    KeepFirst(segments, parts, n);
    BaseCounts(segments, parts, n - 1);
    BaseCounts(segments, parts, |segments| - 1);
    assert parts[..|parts|] == parts;
    forall i | n <= i < |segments|
      ensures segments[i].base > offset
    {
      BasesIncrease(segments, parts, n - 1, i);
    }
  }

  lemma CutLogKept(segments: seq<Segment>, parts: seq<seq<seq<byte>>>, n: nat, s: Segment, rs: seq<seq<byte>>,
                   keep: nat, t: Segment, interval: nat, largest: nat, flushed: nat, less: nat)
    requires LogKept(segments, parts, interval, largest, flushed) && 1 <= n <= |segments| && less <= flushed
    requires s == segments[n - 1] && rs == parts[n - 1] && Holds(s, rs) && keep <= |rs|
    requires Holds(t, rs[..keep]) && t.base == s.base && t.index <= s.index
    requires forall i :: |t.index| <= i < |s.index| ==> s.index[i].relative >= keep
    requires t.synced == (if s.synced < t.endPosition then s.synced else t.endPosition)
    ensures LogKept(segments[..n][n - 1 := t], parts[..n][n - 1 := rs[..keep]], interval, largest, less)
  {
    hide Holds, SegmentKept;
    WithinKept(segments, parts, 0, n, interval, largest, flushed);
    assert segments[0..n] == segments[..n] && parts[0..n] == parts[..n];
    ActiveKept(segments[..n], parts[..n], interval, largest, flushed);
    CutKept(s, rs, keep, t, interval, largest, flushed);
    KeptMore(t, rs[..keep], interval, largest, largest, flushed, less);
    ReplaceLastKept(segments[..n], parts[..n], t, rs[..keep], interval, largest, largest, flushed, less);
  }

  lemma CutLogSized(segments: seq<Segment>, parts: seq<seq<seq<byte>>>, n: nat, s: Segment, rs: seq<seq<byte>>,
                    keep: nat, t: Segment, segmentBytes: int, batches: set<Batch>)
    requires LogSized(segments, parts, segmentBytes, batches) && 1 <= n <= |segments|
    requires s == segments[n - 1] && rs == parts[n - 1] && Holds(s, rs) && keep <= |rs| && Holds(t, rs[..keep])
    ensures LogSized(segments[..n][n - 1 := t], parts[..n][n - 1 := rs[..keep]], segmentBytes, batches)
  {
    hide Holds, Sized;
    WithinSized(segments, parts, 0, n, segmentBytes, batches);
    assert segments[0..n] == segments[..n] && parts[0..n] == parts[..n];
    assert Sized(s, rs, segmentBytes, batches);
    CutSized(s, rs, keep, t, segmentBytes, batches);
    ReplaceLastSized(segments[..n], parts[..n], t, rs[..keep], segmentBytes, batches, batches);
  }

  lemma CutLog(segments: seq<Segment>, parts: seq<seq<seq<byte>>>, n: nat, offset: nat, t: Segment)
    requires LogOk(segments, parts) && 1 <= n <= |segments| && segments[0].base <= offset
    requires segments[n - 1].base <= offset <= segments[n - 1].base + |parts[n - 1]|
    requires t.base == segments[n - 1].base && Holds(t, parts[n - 1][..offset - segments[n - 1].base])
    ensures var keep := offset - segments[n - 1].base;
      var (s, q) := (segments[..n][n - 1 := t], parts[..n][n - 1 := parts[n - 1][..keep]]);
      && LogOk(s, q) && s[0].base == segments[0].base && s[n - 1].nextOffset == offset
      && offset - segments[0].base <= |Join(parts)| && Join(q) == Join(parts)[..offset - segments[0].base]
  {
    hide Join, IndexOk, Flat, AllFramed;
    var keep := offset - segments[n - 1].base;
    var rs := parts[n - 1];
    KeepFirst(segments, parts, n);
    assert PartOk(segments[n - 1], rs);
    assert ValidRun(rs[..keep], t.base);
    ReplaceLast(segments[..n], parts[..n], t, rs[..keep]);
    BaseCounts(segments, parts, n - 1);
    JoinSlice(parts, n - 1);
    var p := |Join(parts[..n - 1])|;
    assert parts[..n][..n - 1] == parts[..n - 1];
    JoinLast(parts[..n]);
    assert Join(parts)[..p + keep] == Join(parts[..n])[..p + keep] == Join(parts[..n - 1]) + rs[..keep];
  }

  /** Every record in the log is checksum-valid and carries its own offset. */
  lemma {:induction false} JoinValid(segments: seq<Segment>, parts: seq<seq<seq<byte>>>, n: nat)
    requires LogOk(segments, parts) && n <= |segments|
    ensures ValidRun(Join(parts[..n]), segments[0].base) && AllFramed(Join(parts[..n]))
  {
    hide Join, IndexOk, ValidRecord, Framed, Flat;
    if n == 0 {
      NothingBefore(parts);
    } else {
      JoinValid(segments, parts, n - 1);
      assert PartOk(segments[n - 1], parts[n - 1]);
      BaseCounts(segments, parts, n - 1);
      JoinLast(parts[..n]);
      assert parts[..n][..n - 1] == parts[..n - 1];
      ValidRunAppend(Join(parts[..n - 1]), parts[n - 1], segments[0].base);
    }
  }

  lemma NextBase(segments: seq<Segment>, parts: seq<seq<seq<byte>>>, j: nat)
    requires LogOk(segments, parts) && j + 1 < |segments|
    ensures segments[j + 1].base == segments[j].nextOffset
  {
    assert Follows(segments[j], parts[j], segments[j + 1]);
  }

  // Only the last segment ends at the log end.
  lemma MoreSegments(segments: seq<Segment>, parts: seq<seq<seq<byte>>>, j: nat)
    requires LogOk(segments, parts) && j < |segments| && segments[j].nextOffset < segments[|segments| - 1].nextOffset
    ensures j + 1 < |segments| && segments[j + 1].base == segments[j].nextOffset
    ensures j + 1 < |segments| - 1 ==> segments[j + 1].base < segments[j + 1].nextOffset
  {
    hide ValidRun, AllFramed, IndexOk, Flat;
    assert Follows(segments[j], parts[j], segments[j + 1]);
    if j + 1 < |segments| - 1 {
      assert PartOk(segments[j + 1], parts[j + 1]);
      assert Follows(segments[j + 1], parts[j + 1], segments[j + 2]);
    }
  }

  lemma PartFacts(segments: seq<Segment>, parts: seq<seq<seq<byte>>>, j: nat)
    requires LogOk(segments, parts) && j < |segments|
    ensures |segments| == |parts| && segments[j].nextOffset == segments[j].base + |parts[j]| && AllFramed(parts[j])
    ensures segments[j].base == segments[0].base + |Join(parts[..j])|
  {
    hide Join, ValidRun, IndexOk, Flat, Framed;
    assert PartOk(segments[j], parts[j]);
    BaseCounts(segments, parts, j);
  }

  lemma LargeSomewhere(parts: seq<seq<seq<byte>>>, j: nat, a: nat, b: nat, limit: nat)
    requires j < |parts| && a <= b <= |parts[j]| && !Steppable(parts[j], a, b, limit)
    ensures !Steppable(Join(parts), 0, |Join(parts)|, limit)
  {
    hide Join;
    JoinSlice(parts, j);
    var i :| a <= i < b && |parts[j][i]| > limit;
    var p := |Join(parts[..j])|;
    assert Join(parts)[p + i] == Join(parts)[p..p + |parts[j]|][i];
  }
}
