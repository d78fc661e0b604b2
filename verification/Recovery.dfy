/**
 Segment recovery: the windowed scan over whatever bytes a crash left, against
 the longest run of checksum-valid, consecutively numbered records.
 */
module Recovery {

  import opened Wrappers
  import opened Bytes
  import opened Segments
  import Crc32c
  import R = Record

  const WINDOW := 0x10_0000

  // The size of the valid record numbered `offset` at byte q, or zero.
  function NextSize(file: seq<byte>, q: nat, offset: int): (n: nat)
    requires q <= |file|
    ensures q + n <= |file|
  {
    var p := R.Parse(file[q..], true);
    if p.Parsed? && p.record.offset == offset then p.size else 0
  }

  /** The valid run that starts at byte q, as a list of record byte strings. */
  ghost function RunRecords(file: seq<byte>, q: nat, offset: int): (rs: seq<seq<byte>>)
    requires q <= |file|
    decreases |file| - q
  {
    var n := NextSize(file, q, offset);
    if n == 0 then [] else [file[q..q + n]] + RunRecords(file, q + n, offset + 1)
  }

  ghost function RunEnd(file: seq<byte>, q: nat, offset: int): (e: (nat, int))
    requires q <= |file|
    ensures q <= e.0 <= |file|
    decreases |file| - q
  {
    var n := NextSize(file, q, offset);
    if n == 0 then (q, offset) else RunEnd(file, q + n, offset + 1)
  }

  // The record at q declares more than a window, and more than a window is left.
  predicate Blocked(file: seq<byte>, q: nat)
    requires q <= |file|
  {
    |file| - q > WINDOW && WINDOW < SizeAt(file, q) <= MAX_RECORD_BYTES + 4
  }

  /** Somewhere on the valid run the scan meets a record it can never fit in its window. */
  ghost predicate Stalls(file: seq<byte>, q: nat, offset: int)
    requires q <= |file|
    decreases |file| - q
  {
    Blocked(file, q) || (NextSize(file, q, offset) > 0 && Stalls(file, q + NextSize(file, q, offset), offset + 1))
  }

  // ------------------------------------------------- the window and the file

  // Parsing inside a window agrees with parsing the file wherever it reaches a verdict.
  lemma WindowVerdict(file: seq<byte>, q: nat, end: nat, offset: int)
    requires q < end <= |file| && end - q <= WINDOW
    ensures var p := R.Parse(file[q..end], true);
      && (p.Parsed? ==> R.Parse(file[q..], true) == p && !Blocked(file, q))
      && (p == R.Failed(R.Corruption) ==> R.Parse(file[q..], true) == p && !Blocked(file, q))
      && (p == R.Failed(R.OutOfRange) && end == |file| ==> R.Parse(file[q..], true) == p && !Blocked(file, q))
      && (p == R.Failed(R.OutOfRange) && end < |file| && end - q == WINDOW ==> Blocked(file, q))
  {
    hide Crc32c.Crc, LoadLe, R.ParseFields;
    var v, w := file[q..end], file[q..];
    if |v| >= R.FIXED_PREFIX {
      assert v[..4] == w[..4] == file[q..q + 4];
      var total := LoadLe(v[..4]) + 4;
      assert SizeAt(file, q) == total;
      assert R.Parse(v, true) == R.Failed(R.OutOfRange) ==> |v| < total <= MAX_RECORD_BYTES + 4;
      if R.FIXED_PREFIX <= total <= |v| {
        assert v[..total] == w[..total];
        R.ParseWindow(v, w, total, true);
      }
    }
    if end == |file| {
      assert v == w;
    }
  }

  /**
   The scan. `spins` marks an iteration that ends where it began: the window is
   read again at its old size, so the loop never leaves that position.
   */
  method Scan(file: seq<byte>, from: nat, firstOffset: int) returns (spins: bool, position: nat, offset: int)
    ensures from >= |file| ==> !spins && position == from && offset == firstOffset
    ensures from < |file| ==> (spins <==> Stalls(file, from, firstOffset))
    ensures from < |file| && !spins ==> (position, offset) == RunEnd(file, from, firstOffset)
  {
    hide R.Parse, Stalls, RunEnd, Blocked;
    position, offset, spins := from, firstOffset, false;
    var done := false;
    while !done && position < |file|
      invariant from < |file| ==> position <= |file|
      invariant from >= |file| ==> position == from && offset == firstOffset
      invariant from < |file| ==> Stalls(file, from, firstOffset) == Stalls(file, position, offset)
      invariant from < |file| ==> RunEnd(file, from, firstOffset) == RunEnd(file, position, offset)
      invariant from < |file| && (done || position == |file|) ==>
        RunEnd(file, position, offset) == (position, offset) && !Stalls(file, position, offset)
      decreases |file| - position, !done
    {
      var want := if |file| - position < WINDOW then |file| - position else WINDOW;
      var chunkPos;
      chunkPos, offset, done := ScanWindow(file, position, want, offset);
      if chunkPos == 0 && !done {
        return true, position, offset;
      }
      position := position + chunkPos;
    }
  }

  method ScanWindow(file: seq<byte>, position: nat, want: nat, first: int)
    returns (chunkPos: nat, offset: int, done: bool)
    requires position + want <= |file| && 0 < want <= WINDOW && (want < WINDOW ==> position + want == |file|)
    ensures chunkPos <= want
    ensures Stalls(file, position, first) == Stalls(file, position + chunkPos, offset)
    ensures RunEnd(file, position, first) == RunEnd(file, position + chunkPos, offset)
    ensures done || position + chunkPos == |file| ==>
      RunEnd(file, position + chunkPos, offset) == (position + chunkPos, offset) && !Stalls(file, position + chunkPos, offset)
    ensures chunkPos == 0 && !done ==> Stalls(file, position, first)
  {
    hide R.Parse, Stalls, RunEnd, Blocked;
    chunkPos, offset, done := 0, first, false;
    while chunkPos < want
      invariant chunkPos <= want
      invariant Stalls(file, position, first) == Stalls(file, position + chunkPos, offset)
      invariant RunEnd(file, position, first) == RunEnd(file, position + chunkPos, offset)
      decreases want - chunkPos
    {
      ghost var q := position + chunkPos;
      var p := R.ParseRecord(file[position..position + want], chunkPos, true);
      assert file[position..position + want][chunkPos..] == file[q..position + want];
      WindowVerdict(file, q, position + want, offset);
      RunStep(file, q, offset);
      if p.Failed? {
        if p.error == R.OutOfRange && position + want < |file| {
          return;
        }
        done := true;
        return;
      }
      if p.record.offset != offset {
        done := true;
        return;
      }
      offset := offset + 1;
      chunkPos := chunkPos + p.size;
    }
    if position + chunkPos == |file| {
      AtEnd(file, offset);
    }
  }

  lemma RunStep(file: seq<byte>, q: nat, offset: int)
    requires q <= |file|
    ensures var p := R.Parse(file[q..], true); var n := NextSize(file, q, offset);
      && n == (if p.Parsed? && p.record.offset == offset then p.size else 0)
      && Stalls(file, q, offset) == (Blocked(file, q) || (n > 0 && Stalls(file, q + n, offset + 1)))
      && RunEnd(file, q, offset) == (if n == 0 then (q, offset) else RunEnd(file, q + n, offset + 1))
      && RunRecords(file, q, offset) == if n == 0 then [] else [file[q..q + n]] + RunRecords(file, q + n, offset + 1)
  {
    hide R.Parse, Blocked;
  }

  lemma AtEnd(file: seq<byte>, offset: int)
    ensures RunEnd(file, |file|, offset) == (|file|, offset) && !Stalls(file, |file|, offset)
  {
    assert file[|file|..] == [];
  }

  // ------------------------------------------------------------ the valid run

  /** Checksum-valid records numbered consecutively from `offset`. */
  ghost predicate ValidRun(rs: seq<seq<byte>>, offset: int) {
    forall i :: 0 <= i < |rs| ==> ValidRecord(rs[i], offset + i)
  }

  ghost predicate ValidRecord(b: seq<byte>, offset: int) {
    var p := R.Parse(b, true);
    p.Parsed? && p.size == |b| && p.record.offset == offset
  }

  lemma RunWithin(rs: seq<seq<byte>>, i: nat, j: nat, offset: int)
    requires ValidRun(rs, offset) && i <= j <= |rs|
    ensures ValidRun(rs[i..j], offset + i)
  {
    hide ValidRecord;
    forall m | 0 <= m < j - i
      ensures ValidRecord(rs[i..j][m], offset + i + m)
    {
      assert ValidRecord(rs[i + m], offset + (i + m));
    }
  }

  lemma OwnRecord(file: seq<byte>, q: nat, offset: int)
    requires q <= |file| && NextSize(file, q, offset) > 0
    ensures var n := NextSize(file, q, offset); ValidRecord(file[q..q + n], offset) && Framed(file[q..q + n])
  {
    hide R.Parse, LoadLe;
    var w, n := file[q..], NextSize(file, q, offset);
    var b := file[q..q + n];
    R.ParsedDeclares(w, true);
    assert b == b[..n] == w[..n] && b[..4] == w[..4];
    R.ParseWindow(w, b, n, true);
  }

  // A valid record at the front of the remaining bytes is what the run continues with.
  lemma FrontRecord(file: seq<byte>, q: nat, b: seq<byte>, offset: int)
    requires q + |b| <= |file| && file[q..q + |b|] == b && ValidRecord(b, offset)
    ensures NextSize(file, q, offset) == |b|
  {
    hide R.Parse, LoadLe;
    var w := file[q..];
    R.ParsedDeclares(b, true);
    assert b == b[..|b|] == w[..|b|];
    R.ParseWindow(b, w, |b|, true);
  }

  /** The run holds valid records only, its bytes are the file's, and it ends where RunEnd says. */
  lemma {:induction false} RunIsValid(file: seq<byte>, q: nat, offset: int)
    requires q <= |file|
    ensures var (rs, e) := (RunRecords(file, q, offset), RunEnd(file, q, offset));
      && ValidRun(rs, offset) && AllFramed(rs)
      && e.1 == offset + |rs| && e.0 == q + |Flat(rs)| && file[q..e.0] == Flat(rs)
    decreases |file| - q
  {
    hide NextSize, Framed, ValidRecord, Flat;
    var n := NextSize(file, q, offset);
    if n == 0 {
      EmptyFlat([]);
    } else {
      OwnRecord(file, q, offset);
      RunIsValid(file, q + n, offset + 1);
      var b, rest := file[q..q + n], RunRecords(file, q + n, offset + 1);
      FlatAppend([b], rest);
      FlatOne(b);
      assert file[q..RunEnd(file, q, offset).0] == b + file[q + n..RunEnd(file, q + n, offset + 1).0];
      assert forall i :: 0 <= i < |rest| ==> ValidRecord(rest[i], offset + 1 + i);
    }
  }

  /** Nothing longer would do: any valid run at the front of the file is a prefix of this one. */
  lemma {:induction false} RunIsLongest(file: seq<byte>, q: nat, rs: seq<seq<byte>>, offset: int)
    requires q + |Flat(rs)| <= |file| && file[q..q + |Flat(rs)|] == Flat(rs) && ValidRun(rs, offset)
    ensures rs <= RunRecords(file, q, offset)
    decreases |rs|
  {
    hide NextSize, ValidRecord, Flat;
    if rs != [] {
      var b, rest := rs[0], rs[1..];
      assert rs == [b] + rest;
      FlatAppend([b], rest);
      FlatOne(b);
      assert file[q..q + |b|] == file[q..q + |Flat(rs)|][..|b|] == b;
      assert file[q + |b|..q + |Flat(rs)|] == file[q..q + |Flat(rs)|][|b|..] == Flat(rest);
      FrontRecord(file, q, b, offset);
      NonEmpty(b, offset);
      forall i | 0 <= i < |rest|
        ensures ValidRecord(rest[i], offset + 1 + i)
      {
        assert ValidRecord(rs[i + 1], offset + (i + 1));
      }
      RunIsLongest(file, q + |b|, rest, offset + 1);
    }
  }

  lemma NonEmpty(b: seq<byte>, offset: int)
    requires ValidRecord(b, offset)
    ensures |b| > 0
  {
    hide R.Parse;
  }

  // ------------------------------------------------------ starting from the index

  // Every entry that names a surviving record names it truly.
  ghost predicate TrueIndex(index: seq<Entry>, rs: seq<seq<byte>>) {
    && Increasing(index)
    && forall i :: 0 <= i < |index| ==>
         index[i].relative <= UINT32_MAX && (index[i].relative < |rs| ==> index[i].position == Start(rs, index[i].relative))
  }

  /** The run from any of its own record boundaries is the rest of the run. */
  lemma {:induction false} RunFromBoundary(file: seq<byte>, q: nat, offset: int, k: nat)
    requires q <= |file| && k <= |RunRecords(file, q, offset)|
    ensures var (rs, p) := (RunRecords(file, q, offset), q + Start(RunRecords(file, q, offset), k));
      && p <= |file| && RunRecords(file, p, offset + k) == rs[k..]
      && RunEnd(file, p, offset + k) == RunEnd(file, q, offset)
    decreases k
  {
    hide NextSize;
    if k > 0 {
      var n := NextSize(file, q, offset);
      var rs, rest := RunRecords(file, q, offset), RunRecords(file, q + n, offset + 1);
      RunFromBoundary(file, q + n, offset + 1, k - 1);
      StartTail(rs, k);
      assert rs[1..] == rest && rs[k..] == rest[k - 1..];
    }
  }

  lemma {:induction false} StartTail(rs: seq<seq<byte>>, k: nat)
    requires 1 <= k <= |rs|
    ensures Start(rs, k) == |rs[0]| + Start(rs[1..], k - 1)
  {
    if k > 1 {
      StartTail(rs, k - 1);
    }
  }

  function StartPoint(s: Segment, fullScan: bool): (nat, int) {
    if fullScan || s.index == [] then (0, s.base)
    else (s.index[|s.index| - 1].position, s.base + s.index[|s.index| - 1].relative)
  }

  /** The last index entry is a record boundary of the run (or its end). */
  ghost predicate LastOnRun(s: Segment, rs: seq<seq<byte>>) {
    s.index != [] ==>
      var e := s.index[|s.index| - 1];
      e.relative <= |rs| && e.position == Start(rs, e.relative)
  }

  lemma SameRun(s: Segment, fullScan: bool)
    requires !fullScan ==> LastOnRun(s, RunRecords(s.file, 0, s.base))
    ensures var (p, o) := StartPoint(s, fullScan);
      p <= |s.file| && RunEnd(s.file, p, o) == RunEnd(s.file, 0, s.base)
  {
    hide RunRecords, RunEnd, Start;
    if !fullScan && s.index != [] {
      RunFromBoundary(s.file, 0, s.base, s.index[|s.index| - 1].relative);
    }
  }

  // What a finished recovery of s leaves: the bytes and offsets of the run rs.
  ghost predicate Recovered(s: Segment, rs: seq<seq<byte>>, t: Segment) {
    && HoldsBytes(t, rs) && t.base == s.base && t.file == Flat(rs) && Flat(rs) <= s.file
    && t.synced == t.endPosition
    && t.index <= s.index && TrueIndex(t.index, rs)
    && (forall i :: |t.index| <= i < |s.index| ==> s.index[i].relative >= |rs|)
    && (|Flat(rs)| == |s.file| ==> t.index == s.index)
  }

  /** Where recovery leaves the end: after the run from its starting point, or right there when that is past the file. */
  ghost function Landing(s: Segment, fullScan: bool): (nat, int) {
    var start := StartPoint(s, fullScan);
    if start.0 < |s.file| then RunEnd(s.file, start.0, start.1) else start
  }

  // The segment s with its end moved to `end`; file and index are cut together, or not at all.
  ghost predicate EndsAt(s: Segment, end: (nat, int), t: Segment) {
    && t.base == s.base && t.endPosition == t.synced == end.0 && t.nextOffset == end.1
    && t.lastIndexed == (if t.index == [] then 0 else t.index[|t.index| - 1].position)
    && t.file == (if end.0 < |s.file| then s.file[..end.0] else s.file)
    && t.index <= s.index
    && (if end.0 < |s.file| then
          && (forall i :: 0 <= i < |t.index| ==> s.index[i].relative < end.1 - s.base)
          && (forall i :: |t.index| <= i < |s.index| ==> s.index[i].relative >= end.1 - s.base)
        else t.index == s.index)
  }

  /**
   Recover, for any bytes and any index that Open lets through. `None` is the
   scan that never ends. With entries true of the records that survived, the
   result is the longest valid run of the file exactly when the scan began on
   it; then no index entry is left beyond the run exactly when bytes were cut
   off or there was none.
   */
  method Recover(s: Segment, fullScan: bool) returns (r: Option<Segment>)
    requires Increasing(s.index)
    ensures var (p, o) := StartPoint(s, fullScan); r.None? <==> p < |s.file| && Stalls(s.file, p, o)
    ensures r.Some? ==> EndsAt(s, Landing(s, fullScan), r.value)
    ensures var rs := RunRecords(s.file, 0, s.base);
      r.Some? && TrueIndex(s.index, rs) ==> (Recovered(s, rs, r.value) <==> fullScan || LastOnRun(s, rs))
    ensures var rs := RunRecords(s.file, 0, s.base);
      r.Some? && TrueIndex(s.index, rs) && (fullScan || LastOnRun(s, rs)) ==>
        (Holds(r.value, rs) <==> |Flat(rs)| < |s.file| || forall i :: 0 <= i < |s.index| ==> s.index[i].relative < |rs|)
  {
    hide RunRecords, RunEnd, Start, Stalls, Flat, TrueIndex, LastOnRun, Recovered, Holds;
    var start := StartPoint(s, fullScan);
    var spins, position, offset := Scan(s.file, start.0, start.1);
    if spins {
      return None;
    }
    RunCounts(s.file, start.0, start.1);
    var file, index := s.file, s.index;
    if position < |s.file| {
      file := s.file[..position];
      var n := CountBelow(s.index, offset - s.base);
      index := s.index[..n];
    }
    r := Some(Segment(s.base, file, position, offset, position,
                      if index == [] then 0 else index[|index| - 1].position, index));
    if TrueIndex(s.index, RunRecords(s.file, 0, s.base)) {
      RecoveredIff(s, fullScan, r.value);
    }
  }

  lemma RunCounts(file: seq<byte>, q: nat, offset: int)
    ensures q < |file| ==> RunEnd(file, q, offset).1 >= offset
  {
    hide RunEnd, RunRecords, Flat, Framed, ValidRun;
    if q < |file| {
      RunIsValid(file, q, offset);
    }
  }

  /** Recovery lands at the end of the file's run exactly when its starting point is on that run. */
  lemma LandingIff(s: Segment)
    requires TrueIndex(s.index, RunRecords(s.file, 0, s.base))
    ensures Landing(s, false) == RunEnd(s.file, 0, s.base) <==> LastOnRun(s, RunRecords(s.file, 0, s.base))
  {
    hide RunRecords, RunEnd, Start, Flat, Framed, ValidRun;
    var rs := RunRecords(s.file, 0, s.base);
    RunIsValid(s.file, 0, s.base);
    FlatLength(rs);
    var (p, o) := StartPoint(s, false);
    AtEnd(s.file, o);
    if LastOnRun(s, rs) {
      SameRun(s, false);
    } else if p <= |s.file| {
      RunIsValid(s.file, p, o);
      EmptyFlat(RunRecords(s.file, p, o));
      if s.index[|s.index| - 1].relative < |rs| {
        TrueEntry(s.index, rs, |s.index| - 1);
      }
    }
  }

  lemma TrueEntry(index: seq<Entry>, rs: seq<seq<byte>>, i: nat)
    requires TrueIndex(index, rs) && i < |index| && index[i].relative < |rs|
    ensures index[i].position == Start(rs, index[i].relative)
  {
    hide Start;
  }

  lemma RecoveredIff(s: Segment, fullScan: bool, t: Segment)
    requires var rs := RunRecords(s.file, 0, s.base); TrueIndex(s.index, rs) && EndsAt(s, Landing(s, fullScan), t)
    ensures var rs := RunRecords(s.file, 0, s.base);
      && (Recovered(s, rs, t) <==> fullScan || LastOnRun(s, rs))
      && (fullScan || LastOnRun(s, rs) ==>
            (Holds(t, rs) <==> |Flat(rs)| < |s.file| || forall i :: 0 <= i < |s.index| ==> s.index[i].relative < |rs|))
  {
    hide RunRecords, RunEnd, Start, Flat, Framed, ValidRun, LastOnRun, StartPoint, TrueIndex, IndexOk;
    var rs := RunRecords(s.file, 0, s.base);
    RunIsValid(s.file, 0, s.base);
    if fullScan || LastOnRun(s, rs) {
      SameRun(s, fullScan);
      AtEnd(s.file, StartPoint(s, fullScan).1);
      assert s.file[0..t.endPosition] == s.file[..t.endPosition];
      if t.endPosition < |s.file| {
        CutIndex(s.index, rs, |t.index|);
        assert t.index == s.index[..|t.index|];
      } else {
        WholeIndex(s.index, rs);
        assert s.file == s.file[..t.endPosition];
      }
    } else if Recovered(s, rs, t) {
      LandingIff(s);
    }
  }

  /**
   A truncation cuts the log file first and its index second. Whatever is cut,
   after a crash between the two the entries left are true of the records that
   remain, and when the last one is past them recovery from the index adopts an
   end position beyond the file and offsets that name no record.
   */
  lemma CutBeforeIndex(s: Segment, rs: seq<seq<byte>>, k: nat)
    requires Holds(s, rs) && ValidRun(rs, s.base) && k <= |rs|
    ensures var cut := s.(file := Flat(rs[..k]));
      && RunRecords(cut.file, 0, cut.base) == rs[..k] && TrueIndex(cut.index, rs[..k])
      && (LastOnRun(cut, rs[..k]) <==> s.index == [] || s.index[|s.index| - 1].relative <= k)
      && (!LastOnRun(cut, rs[..k]) ==> Landing(cut, false).0 > |cut.file| && Landing(cut, false).1 > cut.base + k)
  {
    hide RunRecords, RunEnd, Start, Flat, Framed, ValidRun;
    var cut, kept := s.(file := Flat(rs[..k])), rs[..k];
    RunWithin(rs, 0, k, s.base);
    assert rs[0..k] == kept && Flat(kept) + [] == Flat(kept) == cut.file == cut.file[0..];
    TornTail(cut.file, 0, kept, [], s.base);
    FlatLength(kept);
    forall i | 0 <= i < |s.index| && s.index[i].relative <= k
      ensures s.index[i].position == Start(kept, s.index[i].relative)
    {
      StartCut(rs, k, s.index[i].relative);
    }
    if s.index != [] && s.index[|s.index| - 1].relative > k {
      StartCut(rs, k, k);
      StartIncreasing(rs, k, s.index[|s.index| - 1].relative);
    }
  }

  /** Such a segment: no bytes, and an entry for record 1 at byte 100. */
  lemma StaleEntry()
    ensures var s := Segment(0, [], 0, 0, 0, 0, [Entry(1, 100)]); var rs := RunRecords(s.file, 0, 0);
      && TrueIndex(s.index, rs) && !LastOnRun(s, rs)
      && Landing(s, false) == (100, 1) && RunEnd(s.file, 0, 0) == (0, 0)
  {
    NothingAtEnd([], 0);
  }

  /** An entry that recovery leaves behind: it names the record after the last one, and no byte is cut. */
  lemma LeftoverEntry(fullScan: bool, t: Segment)
    requires var s := Segment(0, [], 0, 0, 0, 0, [Entry(0, 0)]); EndsAt(s, Landing(s, fullScan), t)
    ensures Recovered(Segment(0, [], 0, 0, 0, 0, [Entry(0, 0)]), [], t) && t.index == [Entry(0, 0)] && !Holds(t, [])
  {
    NothingAtEnd([], 0);
    RecoveredIff(Segment(0, [], 0, 0, 0, 0, [Entry(0, 0)]), fullScan, t);
  }

  lemma CutIndex(index: seq<Entry>, rs: seq<seq<byte>>, n: nat)
    requires TrueIndex(index, rs) && n <= |index| && forall i :: 0 <= i < n ==> index[i].relative < |rs|
    ensures TrueIndex(index[..n], rs) && IndexOk(index[..n], rs)
  {
    hide Start;
  }

  lemma WholeIndex(index: seq<Entry>, rs: seq<seq<byte>>)
    requires TrueIndex(index, rs)
    ensures IndexOk(index, rs) <==> forall i :: 0 <= i < |index| ==> index[i].relative < |rs|
  {
    hide Start;
  }

  /** lower_bound: the number of entries before record k. */
  method CountBelow(index: seq<Entry>, k: int) returns (n: nat)
    requires Increasing(index)
    ensures n <= |index|
    ensures forall i :: 0 <= i < n ==> index[i].relative < k
    ensures forall i :: n <= i < |index| ==> index[i].relative >= k
  {
    if k <= 0 {
      return 0;
    }
    n := CountUpTo(index, k - 1);
  }

  // ------------------------------------------------------------ recovering again

  // Cutting the file at the end of its run leaves the run, and adds no obstacle to its scan.
  lemma {:induction false} RunOfCut(file: seq<byte>, q: nat, offset: int, end: nat)
    requires q <= |file| && end == RunEnd(file, q, offset).0
    ensures RunRecords(file[..end], q, offset) == RunRecords(file, q, offset)
    ensures RunEnd(file[..end], q, offset) == RunEnd(file, q, offset)
    ensures Stalls(file[..end], q, offset) ==> Stalls(file, q, offset)
    decreases |file| - q
  {
    hide Blocked, NextSize, R.Parse, Stalls, RunEnd, RunRecords;
    var n, cut := NextSize(file, q, offset), file[..end];
    RunStep(file, q, offset);
    RunStep(cut, q, offset);
    if n == 0 {
      AtEnd(cut, offset);
      NothingAtEnd(cut, offset);
    } else {
      RunOfCut(file, q + n, offset + 1, end);
      OwnRecord(file, q, offset);
      assert cut[q..q + n] == file[q..q + n];
      FrontRecord(cut, q, file[q..q + n], offset);
      CutNotBlocked(file, q, end);
    }
  }

  lemma NothingAtEnd(file: seq<byte>, offset: int)
    ensures NextSize(file, |file|, offset) == 0
  {
    assert file[|file|..] == [];
  }

  lemma CutNotBlocked(file: seq<byte>, q: nat, end: nat)
    requires q <= end <= |file|
    ensures Blocked(file[..end], q) ==> Blocked(file, q)
  {
    hide LoadLe;
    if end - q > WINDOW {
      assert file[..end][q..q + 4] == file[q..q + 4];
    }
  }

  /**
   A second recovery, full or from the index, keeps to the run and changes
   nothing; it ends whenever the scan from its starting point ends in the
   original file.
   */
  lemma RecoverAgain(s: Segment, t: Segment, fullScan: bool, again: Segment)
    requires Recovered(s, RunRecords(s.file, 0, s.base), t) && Increasing(s.index)
    ensures var rs := RunRecords(s.file, 0, s.base);
      && RunRecords(t.file, 0, t.base) == rs
      && (LastOnRun(s, rs) ==> LastOnRun(t, rs))
      && (fullScan || LastOnRun(t, rs) ==>
            var (p, o) := StartPoint(t, fullScan);
            p <= |t.file| <= |s.file| && (Stalls(t.file, p, o) ==> Stalls(s.file, p, o)))
      && (Recovered(t, rs, again) ==> again == t)
  {
    hide RunRecords, RunEnd, Start, Stalls, Flat, Framed;
    var rs, end := RunRecords(s.file, 0, s.base), RunEnd(s.file, 0, s.base).0;
    RunIsValid(s.file, 0, s.base);
    assert s.file[0..end] == s.file[..end] == t.file;
    RunOfCut(s.file, 0, s.base, end);
    LastKept(s, t, rs);
    if fullScan || LastOnRun(t, rs) {
      SameRun(t, fullScan);
      var (p, o) := StartPoint(t, fullScan);
      SameStart(s, t, fullScan);
      RunOfCut(s.file, p, o, end);
    }
  }

  lemma LastKept(s: Segment, t: Segment, rs: seq<seq<byte>>)
    requires t.index <= s.index && TrueIndex(t.index, rs) && Increasing(s.index)
    ensures LastOnRun(s, rs) ==> LastOnRun(t, rs)
  {
    hide Start;
    if t.index != [] && LastOnRun(s, rs) {
      var n := |t.index|;
      assert t.index[n - 1] == s.index[n - 1];
    }
  }

  // The starting point of the recovered segment is on the original's run too.
  lemma SameStart(s: Segment, t: Segment, fullScan: bool)
    requires var rs := RunRecords(s.file, 0, s.base); t.base == s.base && (fullScan || LastOnRun(t, rs))
    ensures var (p, o) := StartPoint(t, fullScan);
      p <= |s.file| && RunEnd(s.file, p, o) == RunEnd(s.file, 0, s.base)
  {
    hide RunRecords, RunEnd, Start;
    if !fullScan && t.index != [] {
      RunFromBoundary(s.file, 0, s.base, t.index[|t.index| - 1].relative);
    }
  }

  ghost predicate HasLarge(rs: seq<seq<byte>>) {
    exists i :: 0 <= i < |rs| && |rs[i]| > WINDOW
  }

  /** On an undamaged file the scan fails to end exactly when some record is larger than the window. */
  lemma {:induction false} IntactStallsIff(file: seq<byte>, q: nat, offset: int)
    requires q <= |file| && RunEnd(file, q, offset).0 == |file|
    ensures Stalls(file, q, offset) <==> HasLarge(RunRecords(file, q, offset))
    decreases |file| - q
  {
    hide Blocked, NextSize, HasLarge;
    var n := NextSize(file, q, offset);
    if n == 0 {
      AtEnd(file, offset);
      LargeSplit([], []);
    } else {
      var rest := RunRecords(file, q + n, offset + 1);
      IntactStallsIff(file, q + n, offset + 1);
      BlockedIff(file, q, offset);
      LargeSplit(file[q..q + n], rest);
    }
  }

  lemma LargeSplit(b: seq<byte>, rest: seq<seq<byte>>)
    ensures HasLarge([b] + rest) <==> |b| > WINDOW || HasLarge(rest)
    ensures !HasLarge([])
  {
    var rs := [b] + rest;
    assert forall i :: 0 <= i < |rest| ==> rs[i + 1] == rest[i];
    assert forall i :: 0 < i < |rs| ==> rs[i] == rest[i - 1];
    assert rs[0] == b;
  }

  lemma BlockedIff(file: seq<byte>, q: nat, offset: int)
    requires q <= |file| && NextSize(file, q, offset) > 0
    ensures Blocked(file, q) <==> NextSize(file, q, offset) > WINDOW
  {
    hide Crc32c.Crc, LoadLe, R.ParseFields;
    R.ParsedDeclares(file[q..], true);
    assert file[q..][..4] == file[q..q + 4];
  }

  lemma FrontSlices(file: seq<byte>, q: nat, b: seq<byte>, rest: seq<byte>)
    requires q <= |file| && file[q..] == b + rest
    ensures q + |b| <= |file| && file[q..q + |b|] == b && file[q + |b|..] == rest
  {
    assert file[q..q + |b|] == file[q..][..|b|];
    assert file[q + |b|..] == file[q..][|b|..];
  }

  /** A record that fits the format and encodes to more than a window stops the scan for good, even alone in its file. */
  lemma LargeRecordStalls(r: R.Record)
    requires R.Fits(r) && |R.Encode(r)| > WINDOW
    ensures Stalls(R.Encode(r), 0, r.offset)
  {
    hide R.Encode, R.Parse, Blocked;
    var file := R.Encode(r);
    R.ParseEncode(r, [], true);
    assert file + [] == file == file[0..];
    BlockedIff(file, 0, r.offset);
  }

  /** A file of at most one mebibyte is always scanned to the end. */
  lemma {:induction false} SmallFileEnds(file: seq<byte>, q: nat, offset: int)
    requires q <= |file| <= 0x10_0000
    ensures !Stalls(file, q, offset)
    decreases |file| - q
  {
    hide NextSize;
    if NextSize(file, q, offset) > 0 {
      SmallFileEnds(file, q + NextSize(file, q, offset), offset + 1);
    }
  }

  /** One such record: a value of one mebibyte. */
  lemma MebibyteValue()
    ensures var r := R.Record(0, 0, 0, None, seq(0x10_0000, _ => 0)); R.Fits(r) && Stalls(R.Encode(r), 0, 0)
  {
    hide R.Encode, R.VarUInt, Stalls;
    var r := R.Record(0, 0, 0, None, seq(0x10_0000, _ => 0));
    R.VarRoundTrip(R.KeyField(r.key), []);
    R.VarRoundTrip(|r.value|, []);
    LargeRecordStalls(r);
  }

  /**
   The parser accepts a record of up to MAX_RECORD_BYTES + 4 bytes, and the
   forward scan of a lookup steps over MAX_RECORD_BYTES at most: a segment can
   hold valid records of which the second cannot be found.
   */
  lemma SecondRecordUnreachable(r: R.Record, next: R.Record, interval: nat)
    requires R.Fits(r) && R.Fits(next) && r.offset == 0 && next.offset == 1
    requires |R.Encode(r)| > MAX_RECORD_BYTES >= interval
    ensures var rs := [R.Encode(r), R.Encode(next)];
      var s := Segment(0, Flat(rs), |Flat(rs)|, 2, 0, 0, [Entry(0, 0)]);
      Holds(s, rs) && ValidRun(rs, 0) && !Steppable(rs, Floor(s.index, 1), 1, StepLimit(interval))
  {
    hide R.Encode, R.Parse, Flat, Framed;
    var rs := [R.Encode(r), R.Encode(next)];
    EncodedValid(r);
    EncodedValid(next);
    assert rs[0] == R.Encode(r);
    StartZero(rs);
  }

  lemma EncodedValid(r: R.Record)
    requires R.Fits(r)
    ensures ValidRecord(R.Encode(r), r.offset) && Framed(R.Encode(r))
  {
    hide R.Encode, R.Parse, LoadLe;
    R.ParseEncode(r, [], true);
    assert R.Encode(r) + [] == R.Encode(r);
    R.ParsedDeclares(R.Encode(r), true);
  }

  /** Such a record: its value brings the encoding to MAX_RECORD_BYTES + 2 bytes. */
  lemma OversizedValue()
    ensures var r := R.Record(0, 0, 0, None, seq(MAX_RECORD_BYTES - 28, _ => 0));
      R.Fits(r) && |R.Encode(r)| == MAX_RECORD_BYTES + 2
  {
    hide R.Encode;
    var r := R.Record(0, 0, 0, None, seq(MAX_RECORD_BYTES - 28, _ => 0));
    assert |R.VarUInt(0)| == 1;
    assert |R.VarUInt(0xFF_FFE4)| == 4;
  }

  /** After a crash that tears the tail anywhere: recovery keeps every whole record before the tear and nothing else. */
  lemma {:induction false} TornTail(file: seq<byte>, q: nat, rs: seq<seq<byte>>, torn: seq<byte>, offset: int)
    requires q <= |file| && file[q..] == Flat(rs) + torn && ValidRun(rs, offset)
    requires var p := R.Parse(torn, true); p.Failed? || p.record.offset != offset + |rs|
    ensures RunRecords(file, q, offset) == rs
    decreases |rs|
  {
    hide R.Parse, Flat, ValidRecord, Stalls, RunEnd, RunRecords, NextSize;
    RunStep(file, q, offset);
    if rs == [] {
      EmptyFlat(rs);
      assert file[q..] == torn;
    } else {
      var b, rest := rs[0], rs[1..];
      assert rs == [b] + rest;
      FlatAppend([b], rest);
      FlatOne(b);
      assert file[q..] == b + (Flat(rest) + torn);
      FrontSlices(file, q, b, Flat(rest) + torn);
      FrontRecord(file, q, b, offset);
      NonEmpty(b, offset);
      forall i | 0 <= i < |rest|
        ensures ValidRecord(rest[i], offset + 1 + i)
      {
        assert ValidRecord(rs[i + 1], offset + (i + 1));
      }
      TornTail(file, q + |b|, rest, torn, offset + 1);
    }
  }
}
