/**
 Serving a fetch: resolving the requested position, reading the log, and
 trimming whole records beyond the visible end.
 */
module Fetch {

  import opened Wrappers
  import opened Bytes
  import opened Segments
  import opened Recovery
  import opened PartitionLog
  import Crc32c
  import R = Record

  const EARLIEST := -2
  const LATEST := -1

  datatype Response = Response(baseOffset: nat, recordCount: nat, records: seq<byte>, highWaterMark: nat, logStart: nat)

  function Resolve(fetchOffset: int, logStart: nat, logEnd: nat, mark: nat, replicated: bool): int {
    if fetchOffset == EARLIEST then logStart
    else if fetchOffset == LATEST then (if replicated then mark else logEnd)
    else fetchOffset
  }

  // A valid record parses the same without its checksum being looked at, whatever follows.
  lemma ParsesUnverified(b: seq<byte>, suffix: seq<byte>, offset: int)
    requires ValidRecord(b, offset)
    ensures var p := R.Parse(b + suffix, false); p.Parsed? && p.size == |b|
  {
    hide R.ParseFields, LoadLe, Crc32c.Crc;
    R.ParsedDeclares(b, true);
    assert (b + suffix)[..|b|] == b == b[..|b|];
    R.ParseWindow(b, b + suffix, |b|, false);
  }

  /** The byte length of the first `want` records of a run. */
  method Trim(records: seq<byte>, ghost rs: seq<seq<byte>>, ghost offset: int, want: nat) returns (bytes: nat)
    requires records == Flat(rs) && ValidRun(rs, offset) && want <= |rs|
    ensures bytes <= |records| && records[..bytes] == Flat(rs[..want])
  {
    hide Flat, R.Parse, ValidRecord, Start;
    bytes := 0;
    var seen := 0;
    EmptyFlat(rs[..0]);
    while seen < want
      invariant 0 <= seen <= want && bytes <= |records| && records[..bytes] == Flat(rs[..seen])
    {
      NextInRun(rs, seen, offset);
      var p := R.ParseRecord(records, bytes, false);
      bytes, seen := bytes + p.size, seen + 1;
    }
  }

  lemma NextInRun(rs: seq<seq<byte>>, seen: nat, offset: int)
    requires ValidRun(rs, offset) && seen < |rs|
    ensures var (flat, at) := (Flat(rs), |Flat(rs[..seen])|);
      at <= |flat|
      && var p := R.Parse(flat[at..], false);
      && p.Parsed? && at + p.size <= |flat| && flat[..at + p.size] == Flat(rs[..seen + 1])
  {
    hide Flat, R.Parse, ValidRecord;
    var head, b, tail := rs[..seen], rs[seen], rs[seen + 1..];
    assert rs == head + [b] + tail && rs[..seen + 1] == head + [b];
    FlatAppend(head + [b], tail);
    FlatAppend(head, [b]);
    FlatOne(b);
    assert ValidRecord(b, offset + seen);
    ParsesUnverified(b, Flat(tail), offset + seen);
    assert Flat(rs)[|Flat(head)|..] == b + Flat(tail);
  }

  /** A run found in the whole log, cut to the visible records, is the run of the visible log. */
  lemma VisibleRun(rs: seq<seq<byte>>, k: nat, maxBytes: nat, n: nat, visible: nat)
    requires ShortestRun(rs, k, maxBytes, n) && AllFramed(rs) && k <= visible <= |rs|
    ensures k + n <= |rs|
    ensures ShortestRun(rs[..visible], k, maxBytes, if k + n > visible then visible - k else n)
  {
    hide Start, Framed;
    var m := if k + n > visible then visible - k else n;
    StartCut(rs, visible, k);
    StartCut(rs, visible, k + m);
    if m > 0 {
      StartCut(rs, visible, k + m - 1);
      StartMonotone(rs, k + m - 1, k + n - 1);
    }
  }

  // The response carries exactly the run of `rs` it should.
  ghost predicate Answers(rs: seq<seq<byte>>, k: nat, maxBytes: nat, response: Response) {
    && ShortestRun(rs, k, maxBytes, response.recordCount)
    && response.records == Flat(rs[k..k + response.recordCount])
  }

  ghost predicate CanRead(log: PartitionLog, start: nat, maxBytes: nat)
    reads log
    requires log.Valid() && log.logStart <= start
  {
    log.SameCount();
    AllFound(log.segments, log.parts, start - log.logStart, maxBytes, StepLimit(log.options.interval))
  }

  /**
   A fetch answers with whole consecutive records from its start: the shortest
   run of the records visible to it that reaches the byte budget, or all of them.
   */
  method Serve(log: PartitionLog, mark: nat, fetchOffset: int, maxBytes: nat, replicated: bool) returns (r: Result<Response, Error>)
    requires log.Valid() && mark <= log.logEnd
    ensures var start := Resolve(fetchOffset, log.logStart, log.logEnd, mark, replicated);
      var visible := if replicated then mark else log.logEnd;
      && (start < log.logStart || start > log.logEnd ==> r == Err(OutOfRange))
      && (r.Ok? ==> log.logStart <= start <= log.logEnd && r.value.baseOffset == start)
      && (r.Ok? ==> r.value.highWaterMark == mark && r.value.logStart == log.logStart)
      // What the two special positions mean; every other request is its own position.
      && (fetchOffset == -1 && log.logStart <= visible ==> r == Ok(Response(visible, 0, [], mark, log.logStart)))
      && (fetchOffset == -2 && r.Ok? ==> r.value.baseOffset == log.logStart)
      && (fetchOffset != -1 && fetchOffset != -2 && r.Ok? ==> r.value.baseOffset == fetchOffset)
      && (fetchOffset != -1 && fetchOffset != -2 && (fetchOffset < log.logStart || fetchOffset > log.logEnd) ==> r == Err(OutOfRange))
      && (r.Ok? && start >= visible ==> r.value.recordCount == 0 && r.value.records == [])
      && (r.Ok? && log.logStart <= start < visible ==>
            visible - log.logStart <= |log.Records()|
            && Answers(log.Records()[..visible - log.logStart], start - log.logStart, maxBytes, r.value))
      // Within the log it fails exactly when it must read, and a record the read looks up cannot be found.
      && (log.logStart <= start <= log.logEnd ==>
            (r.Err? <==> start < visible && !CanRead(log, start, maxBytes)))
  {
    hide Join, LogOk, LogKept, LogSized, ShortestRun, Flat, ValidRun, AllFramed, AllFound;
    log.SameCount();
    var start := Resolve(fetchOffset, log.logStart, log.logEnd, mark, replicated);
    if start > log.logEnd || start < log.logStart {
      return Err(OutOfRange);
    }
    var visibleEnd := if replicated then mark else log.logEnd;
    if start >= visibleEnd {
      return Ok(Response(start, 0, [], mark, log.logStart));
    }
    var read := log.Read(start, maxBytes);
    if read.Err? {
      return Err(read.error);
    }
    var count, records := read.value.0, read.value.1;
    ghost var rs, k, v := log.Records(), start - log.logStart, visibleEnd - log.logStart;
    log.Bounds();
    log.AllValid();
    VisibleRun(rs, k, maxBytes, count, v);
    var bytes := |records|;
    if start + count > visibleEnd {
      ghost var all := rs[k..k + count];
      RunWithin(rs, k, k + count, log.logStart);
      count := visibleEnd - start;
      bytes := Trim(records, all, start, count);
      SubSlice(rs, k, |all|, 0, count);
      assert all[..count] == all[0..count];
    }
    SubSlice(rs, 0, v, k, count);
    assert rs[..v] == rs[0..v];
    return Ok(Response(start, count, records[..bytes], mark, log.logStart));
  }

  // ------------------------------------------------------- a consumer's fetches

  /** One answered fetch: how far the log was visible, the byte budget, and the response. */
  datatype Poll = Poll(visible: nat, maxBytes: nat, response: Response)

  /**
   Fetches that each begin where the one before ended. `rs` is the log from
   offset `origin` as it finally stands; a fetch saw its records below `visible`.
   */
  ghost predicate Continues(rs: seq<seq<byte>>, origin: nat, from: nat, polls: seq<Poll>)
    decreases |polls|
  {
    polls == [] ||
      var p := polls[0];
      && p.response.baseOffset == from && origin <= from && p.visible <= origin + |rs|
      && (if from < p.visible then Answers(rs[..p.visible - origin], from - origin, p.maxBytes, p.response)
          else p.response.recordCount == 0 && p.response.records == [])
      && Continues(rs, origin, from + p.response.recordCount, polls[1..])
  }

  /** Everything received, in order. */
  function Received(polls: seq<Poll>): seq<byte> {
    if polls == [] then [] else polls[0].response.records + Received(polls[1..])
  }

  /** Where the next fetch would begin. */
  function Reached(from: nat, polls: seq<Poll>): nat
    decreases |polls|
  {
    if polls == [] then from else Reached(from + polls[0].response.recordCount, polls[1..])
  }

  /** A fetch on a log whose front is gone answers as it would on the whole log. */
  lemma AnswersWithin(rs: seq<seq<byte>>, d: nat, v: nat, k: nat, maxBytes: nat, response: Response)
    requires d <= k <= v <= |rs| && Answers(rs[d..v], k - d, maxBytes, response)
    ensures Answers(rs[..v], k, maxBytes, response)
  {
    hide Start, Flat;
    var part, n := rs[d..v], response.recordCount;
    StartWithin(rs, d, v, k - d);
    StartWithin(rs, d, v, k - d + n);
    if n > 0 {
      StartWithin(rs, d, v, k - d + n - 1);
    }
    SubSlice(rs, d, v - d, k - d, n);
    SubSlice(rs, 0, v, k, n);
    assert rs[0..v] == rs[..v];
  }

  lemma {:induction false} StartWithin(rs: seq<seq<byte>>, d: nat, v: nat, i: nat)
    requires d <= v <= |rs| && i <= v - d
    ensures Start(rs[..v], d + i) == Start(rs[..v], d) + Start(rs[d..v], i)
  {
    if i > 0 {
      StartWithin(rs, d, v, i - 1);
      assert rs[..v][d + i - 1] == rs[d..v][i - 1];
    }
  }

  // One fetch: its records, and how far they go.
  lemma OnePoll(rs: seq<seq<byte>>, origin: nat, from: nat, p: Poll)
    requires origin <= from <= origin + |rs| && p.visible <= origin + |rs|
    requires if from < p.visible then Answers(rs[..p.visible - origin], from - origin, p.maxBytes, p.response)
             else p.response.recordCount == 0 && p.response.records == []
    ensures var to := from + p.response.recordCount;
      && to <= origin + |rs| && p.response.records == Flat(rs[from - origin..to - origin])
      && (from < p.visible ==> to <= p.visible && (p.maxBytes > 0 ==> to > from))
  {
    hide Start, Flat;
    var k, n := from - origin, p.response.recordCount;
    if from < p.visible {
      var v := p.visible - origin;
      SubSlice(rs, 0, v, k, n);
      assert rs[0..v] == rs[..v];
    } else {
      EmptyFlat(rs[k..k]);
    }
  }

  /** Continued fetches return exactly the log's records from the first base on: none skipped, none repeated. */
  lemma {:induction false} FetchesJoin(rs: seq<seq<byte>>, origin: nat, from: nat, polls: seq<Poll>)
    requires origin <= from <= origin + |rs| && Continues(rs, origin, from, polls)
    ensures var to := Reached(from, polls);
      from <= to <= origin + |rs| && Received(polls) == Flat(rs[from - origin..to - origin])
    decreases |polls|
  {
    hide Flat, Answers;
    if polls == [] {
      EmptyFlat(rs[from - origin..from - origin]);
    } else {
      OnePoll(rs, origin, from, polls[0]);
      var mid := from + polls[0].response.recordCount;
      FetchesJoin(rs, origin, mid, polls[1..]);
      var i, j, k := from - origin, mid - origin, Reached(from, polls) - origin;
      assert rs[i..k] == rs[i..j] + rs[j..k];
      FlatAppend(rs[i..j], rs[j..k]);
    }
  }

  /** Fetching with a budget, under marks of at least `mark`, reaches the mark; under exactly that mark it stops there. */
  lemma {:induction false} FetchesReach(rs: seq<seq<byte>>, origin: nat, from: nat, polls: seq<Poll>, mark: nat)
    requires origin <= from <= origin + |rs| && Continues(rs, origin, from, polls) && |polls| >= mark - from
    requires forall i :: 0 <= i < |polls| ==> polls[i].maxBytes > 0 && polls[i].visible >= mark
    ensures Reached(from, polls) >= mark
    ensures from <= mark && (forall i :: 0 <= i < |polls| ==> polls[i].visible == mark) ==> Reached(from, polls) == mark
    decreases |polls|
  {
    hide Flat, Answers;
    if polls != [] {
      OnePoll(rs, origin, from, polls[0]);
      FetchesReach(rs, origin, from + polls[0].response.recordCount, polls[1..], mark);
    }
  }
}
