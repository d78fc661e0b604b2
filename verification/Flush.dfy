/**
 Flush accounting: one appender and one flusher share a partition log. Every
 store, fetch_add and fsync is a step of its own, and so is every load, with
 three exceptions: the log end and the flushed offset are read together, the
 size test and the capture of the end position read the end once, and a synced
 position is read together with the fsync that follows it.
 */
module Flush {

  /** A segment's published end, its synced position, and what is on media. */
  datatype Segment = Segment(end: nat, synced: nat, durable: nat)

  /** A record: its segment, where it ends there, and the log bytes through it. */
  datatype Entry = Entry(seg: nat, end: nat, total: nat)

  // Where the appender is between two appends.
  datatype Appender =
    | Idle
    | Ended(bytes: nat, count: nat)       // end_position stored
    | Logged(bytes: nat, count: nat)      // log_end_offset stored
    | Counted(count: nat)                 // unflushed_bytes added
    | RollCaptured(pos: nat)              // RollSegment inside Sync
    | RollSynced(pos: nat)
    | RollSealed                          // about to publish the new segment

  datatype Flusher =
    | Resting
    | HaveBytes(bytes: int)
    | HaveCounts(bytes: int, records: int)
    | HaveTarget(bytes: int, records: int, target: nat)
    | Scanning(bytes: int, records: int, target: nat, i: nat)   // shared lock held
    | SawSynced(bytes: int, records: int, target: nat, i: nat, seen: nat)
    | Captured(bytes: int, records: int, target: nat, i: nat, pos: nat)
    | Synced(bytes: int, records: int, target: nat, i: nat, pos: nat)
    | Released(bytes: int, records: int, target: nat)
    | Stored(bytes: int, records: int)    // flushed_offset stored
    | Subtracted(records: int)            // unflushed_bytes reduced

  datatype State = State(
    segments: seq<Segment>,
    entries: seq<Entry>,
    logEnd: nat,
    flushed: nat,
    unflushedBytes: int,
    unflushedRecords: int,
    appender: Appender,
    flusher: Flusher)

  // Log bytes below an offset.
  function BytesBelow(entries: seq<Entry>, n: nat): nat
    requires n <= |entries|
  {
    if n == 0 then 0 else entries[n - 1].total
  }

  // ------------------------------------------------------------------ steps

  // AppendEncoded/FinishAppend of a batch: its records continue the active
  // segment and the byte total, each with a positive size.
  ghost predicate Extends(s: State, t: State, bytes: nat, count: nat) {
    && count > 0 && |t.entries| == |s.entries| + count
    && t.entries[..|s.entries|] == s.entries
    && |s.segments| > 0
    && var last := |s.segments| - 1;
       var grown := s.segments[last].(end := s.segments[last].end + bytes);
       && t.segments == s.segments[last := grown]
       && BytesBelow(t.entries, |t.entries|) == BytesBelow(s.entries, |s.entries|) + bytes
       && forall k :: |s.entries| <= k < |t.entries| ==> Continues(s, t, k)
  }

  ghost predicate Continues(s: State, t: State, k: nat)
    requires k < |t.entries| && |s.segments| > 0
  {
    var last := |s.segments| - 1;
    && t.entries[k].seg == last
    && t.entries[k].total > BytesBelow(t.entries, k)
    && t.entries[k].end == s.segments[last].end + t.entries[k].total - BytesBelow(s.entries, |s.entries|)
  }

  function Fsync(g: Segment): Segment {
    if g.durable < g.end then g.(durable := g.end) else g
  }

  ghost predicate Publish(s: State, t: State) {
    && s.appender == Idle && t.appender.Ended?
    && Extends(s, t, t.appender.bytes, t.appender.count)
    && t == s.(segments := t.segments, entries := t.entries, appender := t.appender)
  }

  ghost predicate AppenderStep(s: State, t: State) {
    match s.appender
    case Idle =>
      || Publish(s, t)
      || (|s.segments| > 0
          && t == s.(appender := RollCaptured(s.segments[|s.segments| - 1].end)))
    case Ended(bytes, count) =>
      t == s.(logEnd := |s.entries|, appender := Logged(bytes, count))
    case Logged(bytes, count) =>
      t == s.(unflushedBytes := s.unflushedBytes + bytes, appender := Counted(count))
    case Counted(count) =>
      t == s.(unflushedRecords := s.unflushedRecords + count, appender := Idle)
    case RollCaptured(pos) =>
      |s.segments| > 0
      && var last := |s.segments| - 1;
         if pos == s.segments[last].synced then t == s.(appender := RollSealed)
         else t == s.(segments := s.segments[last := Fsync(s.segments[last])], appender := RollSynced(pos))
    case RollSynced(pos) =>
      |s.segments| > 0
      && var last := |s.segments| - 1;
         t == s.(segments := s.segments[last := s.segments[last].(synced := pos)], appender := RollSealed)
    case RollSealed =>
      // The new segment is pushed under the unique lock.
      !HoldsLock(s.flusher)
      && t == s.(segments := s.segments + [Segment(0, 0, 0)], appender := Idle)
  }

  predicate HoldsLock(f: Flusher) {
    f.Scanning? || f.SawSynced? || f.Captured? || f.Synced?
  }

  ghost predicate FlusherStep(s: State, t: State) {
    match s.flusher
    case Resting => t == s.(flusher := HaveBytes(s.unflushedBytes))
    case HaveBytes(b) => t == s.(flusher := HaveCounts(b, s.unflushedRecords))
    case HaveCounts(b, r) =>
      if s.logEnd == s.flushed then t == s.(flusher := Resting)
      else t == s.(flusher := HaveTarget(b, r, s.logEnd))
    case HaveTarget(b, r, target) => t == s.(flusher := Scanning(b, r, target, 0))
    case Scanning(b, r, target, i) =>
      if i < |s.segments| then t == s.(flusher := SawSynced(b, r, target, i, s.segments[i].synced))
      else t == s.(flusher := Released(b, r, target))
    case SawSynced(b, r, target, i, seen) =>
      i < |s.segments|
      && if seen < s.segments[i].end then t == s.(flusher := Captured(b, r, target, i, s.segments[i].end))
         else t == s.(flusher := Scanning(b, r, target, i + 1))
    case Captured(b, r, target, i, pos) =>
      i < |s.segments|
      && if pos == s.segments[i].synced then t == s.(flusher := Scanning(b, r, target, i + 1))
         else t == s.(segments := s.segments[i := Fsync(s.segments[i])], flusher := Synced(b, r, target, i, pos))
    case Synced(b, r, target, i, pos) =>
      i < |s.segments|
      && t == s.(segments := s.segments[i := s.segments[i].(synced := pos)], flusher := Scanning(b, r, target, i + 1))
    case Released(b, r, target) => t == s.(flushed := target, flusher := Stored(b, r))
    case Stored(b, r) =>
      t == s.(unflushedBytes := s.unflushedBytes - b, flusher := Subtracted(r))
    case Subtracted(r) =>
      t == s.(unflushedRecords := s.unflushedRecords - r, flusher := Resting)
  }

  ghost predicate Init(s: State) {
    s == State([Segment(0, 0, 0)], [], 0, 0, 0, 0, Idle, Resting)
  }

  ghost predicate Next(s: State, t: State) {
    AppenderStep(s, t) || FlusherStep(s, t)
  }

  ghost predicate Run(states: seq<State>) {
    |states| > 0 && Init(states[0])
    && forall i :: 0 <= i < |states| - 1 ==> Next(states[i], states[i + 1])
  }

  // -------------------------------------------------------------- invariant

  // Bytes and records published in log_end_offset but not yet counted.
  function BytesInFlight(a: Appender): nat {
    if a.Logged? then a.bytes else 0
  }

  function RecordsInFlight(a: Appender): nat {
    if a.Logged? || a.Counted? then a.count else 0
  }

  ghost predicate EntryOk(s: State, k: nat)
    requires k < |s.entries|
  {
    && s.entries[k].seg < |s.segments|
    && s.entries[k].end <= s.segments[s.entries[k].seg].end
    && s.entries[k].total > BytesBelow(s.entries, k)
  }

  ghost predicate EntriesOk(s: State) {
    forall k :: 0 <= k < |s.entries| ==> EntryOk(s, k)
  }

  // Every record of segment i below `limit` ends at or before `pos`.
  ghost predicate Covers(s: State, i: nat, limit: nat, pos: nat) {
    forall k :: 0 <= k < limit && k < |s.entries| && s.entries[k].seg == i ==> s.entries[k].end <= pos
  }

  ghost predicate SegmentsOk(s: State) {
    forall i :: 0 <= i < |s.segments| ==>
      && s.segments[i].synced <= s.segments[i].durable <= s.segments[i].end
      && Covers(s, i, s.flushed, s.segments[i].synced)
  }

  ghost predicate AppenderOk(s: State) {
    && |s.segments| > 0 && s.logEnd <= |s.entries|
    && (s.appender.Ended? ==>
          && s.logEnd + s.appender.count == |s.entries|
          && BytesBelow(s.entries, s.logEnd) + s.appender.bytes == BytesBelow(s.entries, |s.entries|))
    && (!s.appender.Ended? ==> s.logEnd == |s.entries|)
    && var last := s.segments[|s.segments| - 1];
       && (s.appender.RollCaptured? ==> s.appender.pos == last.end)
       && (s.appender.RollSynced? ==> s.appender.pos == last.end == last.durable)
  }

  // What fetch_add has put into the counters so far.
  ghost function BytesCounted(s: State): int
    requires s.logEnd <= |s.entries|
  {
    BytesBelow(s.entries, s.logEnd) - BytesInFlight(s.appender)
  }

  ghost function RecordsCounted(s: State): int {
    s.logEnd - RecordsInFlight(s.appender)
  }

  // A pending subtraction of `b` bytes and `r` records will not take away
  // anything at or above `limit`.
  ghost predicate Owed(s: State, b: int, r: int, limit: nat)
    requires s.logEnd <= |s.entries|
  {
    && limit <= |s.entries|
    && b <= s.unflushedBytes && r <= s.unflushedRecords
    && BytesCounted(s) - s.unflushedBytes + b <= BytesBelow(s.entries, limit)
    && RecordsCounted(s) - s.unflushedRecords + r <= limit
  }

  ghost predicate CountersOk(s: State)
    requires s.logEnd <= |s.entries|
  {
    && 0 <= s.flushed <= s.logEnd
    && match s.flusher
       case Resting => Owed(s, 0, 0, s.flushed)
       case HaveBytes(b) => 0 <= b && Owed(s, 0, 0, s.flushed) && Owed(s, b, 0, s.logEnd)
       case HaveCounts(b, r) => 0 <= b && 0 <= r && Owed(s, 0, 0, s.flushed) && Owed(s, b, r, s.logEnd)
       case Stored(b, r) => 0 <= b && 0 <= r && Owed(s, b, r, s.flushed)
       case Subtracted(r) => 0 <= r && Owed(s, 0, r, s.flushed)
       case _ =>
         && 0 <= s.flusher.bytes && 0 <= s.flusher.records
         && s.flushed <= s.flusher.target <= s.logEnd
         && Owed(s, 0, 0, s.flushed)
         && Owed(s, s.flusher.bytes, s.flusher.records, s.flusher.target)
  }

  // The scan's progress: segments already visited cover everything below target.
  ghost predicate Visited(s: State, target: nat, i: nat) {
    i <= |s.segments|
    && forall j :: 0 <= j < i ==> Covers(s, j, target, s.segments[j].synced)
  }

  ghost predicate ScanOk(s: State) {
    match s.flusher
    case Scanning(_, _, target, i) => Visited(s, target, i)
    case SawSynced(_, _, target, i, seen) =>
      i < |s.segments| && Visited(s, target, i) && seen <= s.segments[i].synced
    case Captured(_, _, target, i, pos) =>
      i < |s.segments| && Visited(s, target, i) && pos <= s.segments[i].end && Covers(s, i, target, pos)
    case Synced(_, _, target, i, pos) =>
      i < |s.segments| && Visited(s, target, i) && pos <= s.segments[i].durable && Covers(s, i, target, pos)
    case Released(_, _, target) => Visited(s, target, |s.segments|)
    case _ => true
  }

  ghost predicate Inv(s: State) {
    AppenderOk(s) && EntriesOk(s) && SegmentsOk(s) && CountersOk(s) && ScanOk(s)
  }

  // ----------------------------------------------------------- preservation

  // What the appender's steps do to the segments and the records: nothing is
  // taken back, and a published list is only extended.
  ghost predicate Raises(s: State, t: State) {
    && t.flusher == s.flusher && t.flushed == s.flushed
    && |s.entries| <= |t.entries| && t.entries[..|s.entries|] == s.entries
    && |s.segments| <= |t.segments|
    && (HoldsLock(s.flusher) ==> |t.segments| == |s.segments|)
    && (forall i :: 0 <= i < |s.segments| ==>
          && s.segments[i].end <= t.segments[i].end
          && s.segments[i].synced <= t.segments[i].synced
          && s.segments[i].durable <= t.segments[i].durable)
  }

  lemma AppenderRaises(s: State, t: State)
    requires AppenderOk(s) && SegmentsOk(s) && AppenderStep(s, t)
    ensures Raises(s, t)
  {
    hide Covers;
    var last := |s.segments| - 1;
    assert s.segments[last].synced <= s.segments[last].durable <= s.segments[last].end;
  }

  lemma CoversKept(s: State, t: State, i: nat, limit: nat, p: nat, q: nat)
    requires limit <= |s.entries| <= |t.entries| && t.entries[..|s.entries|] == s.entries
    requires p <= q && Covers(s, i, limit, p)
    ensures Covers(t, i, limit, q)
  {
    forall k | 0 <= k < limit && t.entries[k].seg == i ensures t.entries[k].end <= q {
      assert t.entries[k] == t.entries[..|s.entries|][k];
    }
  }

  lemma NewSegmentCovered(s: State, t: State, i: nat, limit: nat)
    requires EntriesOk(s) && limit <= |s.entries| <= |t.entries| && t.entries[..|s.entries|] == s.entries
    requires |s.segments| <= i
    ensures Covers(t, i, limit, 0)
  {
    forall k | 0 <= k < limit ensures t.entries[k].seg != i {
      assert EntryOk(s, k);
      assert t.entries[k] == t.entries[..|s.entries|][k] == s.entries[k];
    }
  }

  lemma RaisesVisited(s: State, t: State, target: nat, i: nat, j: nat)
    requires EntriesOk(s) && Raises(s, t) && target <= |s.entries| && Visited(s, target, i)
    requires i <= j <= |t.segments| && (i < j ==> i == |s.segments|)
    ensures Visited(t, target, j)
  {
    forall x: nat | x < j ensures Covers(t, x, target, t.segments[x].synced) {
      if x < i {
        CoversKept(s, t, x, target, s.segments[x].synced, t.segments[x].synced);
      } else {
        NewSegmentCovered(s, t, x, target);
        CoversKept(t, t, x, target, 0, t.segments[x].synced);
      }
    }
  }

  lemma RaisesScan(s: State, t: State)
    requires Inv(s) && Raises(s, t)
    ensures ScanOk(t)
  {
    hide Covers, Visited, EntriesOk, SegmentsOk, Owed;
    match s.flusher
    case Scanning(_, _, target, i) => VisitedBound(s, target, i); RaisesVisited(s, t, target, i, i);
    case SawSynced(_, _, target, i, seen) => RaisesVisited(s, t, target, i, i);
    case Captured(_, _, target, i, pos) =>
      RaisesVisited(s, t, target, i, i);
      CoversKept(s, t, i, target, pos, pos);
    case Synced(_, _, target, i, pos) =>
      RaisesVisited(s, t, target, i, i);
      CoversKept(s, t, i, target, pos, pos);
    case Released(_, _, target) => RaisesVisited(s, t, target, |s.segments|, |t.segments|);
    case _ =>
  }

  lemma VisitedBound(s: State, target: nat, i: nat)
    requires Visited(s, target, i)
    ensures i <= |s.segments|
  {
  }

  lemma AppenderSegments(s: State, t: State)
    requires Inv(s) && AppenderStep(s, t)
    ensures SegmentsOk(t)
  {
    AppenderRaises(s, t);
    forall i: nat | i < |t.segments|
      ensures t.segments[i].synced <= t.segments[i].durable <= t.segments[i].end
      ensures Covers(t, i, t.flushed, t.segments[i].synced)
    {
      if i < |s.segments| {
        CoversKept(s, t, i, s.flushed, s.segments[i].synced, t.segments[i].synced);
      } else {
        NewSegmentCovered(s, t, i, s.flushed);
      }
      SegmentOrder(s, t, i);
    }
  }

  lemma SegmentOrder(s: State, t: State, i: nat)
    requires Inv(s) && AppenderStep(s, t) && i < |t.segments|
    ensures t.segments[i].synced <= t.segments[i].durable <= t.segments[i].end
  {
    hide Covers, Visited, Owed, ScanOk, CountersOk, EntriesOk;
    if i < |s.segments| {
      assert s.segments[i].synced <= s.segments[i].durable <= s.segments[i].end;
    }
  }

  lemma OldEntryOk(s: State, t: State, k: nat)
    requires EntriesOk(s) && Raises(s, t) && k < |s.entries|
    ensures EntryOk(t, k)
  {
    assert EntryOk(s, k);
    assert t.entries[k] == t.entries[..|s.entries|][k] == s.entries[k];
    PrefixBytes(s, t, k);
  }

  lemma NewEntryOk(s: State, t: State, k: nat)
    requires |s.segments| > 0 && Publish(s, t) && |s.entries| <= k < |t.entries|
    ensures EntryOk(t, k)
  {
    assert Continues(s, t, k);
    TotalsRise(s, t, k, |t.entries|);
  }

  // Totals rise along the new entries, so none passes the last one.
  lemma {:induction false} TotalsRise(s: State, t: State, k: nat, m: nat)
    requires |s.segments| > 0 && |s.entries| <= k < m <= |t.entries|
    requires forall j :: |s.entries| <= j < |t.entries| ==> Continues(s, t, j)
    ensures t.entries[k].total <= BytesBelow(t.entries, m)
    decreases m - k
  {
    if k + 1 < m {
      assert Continues(s, t, k + 1);
      TotalsRise(s, t, k + 1, m);
    }
  }

  lemma AppenderEntries(s: State, t: State)
    requires Inv(s) && AppenderStep(s, t)
    ensures EntriesOk(t)
  {
    AppenderRaises(s, t);
    forall k: nat | k < |t.entries| ensures EntryOk(t, k) {
      if k < |s.entries| {
        OldEntryOk(s, t, k);
      } else {
        OnlyPublishExtends(s, t);
        NewEntryOk(s, t, k);
      }
    }
  }

  lemma OnlyPublishExtends(s: State, t: State)
    requires AppenderStep(s, t) && |t.entries| > |s.entries|
    ensures Publish(s, t)
  {
    hide Extends;
  }

  lemma PrefixBytes(s: State, t: State, n: nat)
    requires n <= |s.entries| <= |t.entries| && t.entries[..|s.entries|] == s.entries
    ensures BytesBelow(t.entries, n) == BytesBelow(s.entries, n)
  {
    if n > 0 {
      assert t.entries[n - 1] == t.entries[..|s.entries|][n - 1];
    }
  }

  lemma AppenderPositions(s: State, t: State)
    requires Inv(s) && AppenderStep(s, t)
    ensures AppenderOk(t)
  {
    AppenderRaises(s, t);
    PrefixBytes(s, t, s.logEnd);
    var last := |s.segments| - 1;
    assert s.segments[last].durable <= s.segments[last].end;
    hide Covers, Visited, ScanOk, CountersOk, SegmentsOk, EntriesOk;
  }

  // The appender never disturbs what the flusher is owed.
  lemma AppenderOwed(s: State, t: State, b: int, r: int, limit: nat)
    requires Inv(s) && AppenderStep(s, t) && t.logEnd <= |t.entries| && Owed(s, b, r, limit)
    ensures Owed(t, b, r, limit)
  {
    AppenderRaises(s, t);
    PrefixBytes(s, t, s.logEnd);
    PrefixBytes(s, t, limit);
    hide Covers, Visited, ScanOk, CountersOk, SegmentsOk, EntriesOk, Extends;
  }

  lemma OwedAtEnd(s: State, b: int, r: int, limit: nat)
    requires AppenderOk(s) && EntriesOk(s) && Owed(s, b, r, limit) && limit <= s.logEnd
    ensures Owed(s, b, r, s.logEnd)
  {
    if limit < s.logEnd {
      BytesMonotone(s, limit, s.logEnd);
    }
  }

  lemma {:induction false} BytesMonotone(s: State, m: nat, n: nat)
    requires EntriesOk(s) && m <= n <= |s.entries|
    ensures BytesBelow(s.entries, m) + (n - m) <= BytesBelow(s.entries, n)
    decreases n - m
  {
    if m < n {
      BytesMonotone(s, m, n - 1);
      assert EntryOk(s, n - 1);
    }
  }

  lemma AppenderCounters(s: State, t: State)
    requires Inv(s) && AppenderStep(s, t)
    ensures t.logEnd <= |t.entries| && CountersOk(t)
  {
    AppenderPositions(s, t);
    AppenderEntries(s, t);
    AppenderRaises(s, t);
    LogEndRises(s, t);
    hide Covers, Visited, ScanOk, SegmentsOk, EntriesOk, Owed, AppenderStep, Raises;
    match s.flusher
    case Resting => AppenderOwed(s, t, 0, 0, s.flushed);
    case HaveBytes(b) =>
      AppenderOwed(s, t, 0, 0, s.flushed);
      AppenderOwed(s, t, b, 0, s.logEnd);
      OwedAtEnd(t, b, 0, s.logEnd);
    case HaveCounts(b, r) =>
      AppenderOwed(s, t, 0, 0, s.flushed);
      AppenderOwed(s, t, b, r, s.logEnd);
      OwedAtEnd(t, b, r, s.logEnd);
    case Stored(b, r) => AppenderOwed(s, t, b, r, s.flushed);
    case Subtracted(r) => AppenderOwed(s, t, 0, r, s.flushed);
    case _ =>
      AppenderOwed(s, t, 0, 0, s.flushed);
      AppenderOwed(s, t, s.flusher.bytes, s.flusher.records, s.flusher.target);
  }

  lemma LogEndRises(s: State, t: State)
    requires AppenderOk(s) && AppenderStep(s, t)
    ensures s.logEnd <= t.logEnd
  {
    hide Extends;
  }

  lemma AppenderKeeps(s: State, t: State)
    requires Inv(s) && AppenderStep(s, t)
    ensures Inv(t)
  {
    hide AppenderStep, EntriesOk, SegmentsOk, CountersOk, ScanOk;
    AppenderPositions(s, t);
    AppenderEntries(s, t);
    AppenderSegments(s, t);
    AppenderCounters(s, t);
    AppenderRaises(s, t);
    RaisesScan(s, t);
  }

  // The flusher moves no segment end and adds no record.
  lemma FlusherEntries(s: State, t: State)
    requires Inv(s) && FlusherStep(s, t)
    ensures t.entries == s.entries && t.appender == s.appender && t.logEnd == s.logEnd
    ensures |t.segments| == |s.segments|
    ensures forall i :: 0 <= i < |s.segments| ==>
              t.segments[i].end == s.segments[i].end && t.segments[i].durable >= s.segments[i].durable
  {
    hide Covers, Visited, EntriesOk, CountersOk, AppenderOk, SegmentsOk;
  }

  lemma FlusherShape(s: State, t: State)
    requires Inv(s) && FlusherStep(s, t)
    ensures AppenderOk(t) && EntriesOk(t)
  {
    FlusherEntries(s, t);
    assert forall i :: 0 <= i < |s.segments| ==> s.segments[i].durable <= s.segments[i].end;
    FlusherDurable(s, t);
    hide FlusherStep, CountersOk, ScanOk, Covers, SegmentsOk;
    forall k | 0 <= k < |t.entries| ensures EntryOk(t, k) {
      assert EntryOk(s, k);
    }
  }

  lemma FlusherDurable(s: State, t: State)
    requires Inv(s) && FlusherStep(s, t)
    ensures forall i :: 0 <= i < |t.segments| ==> t.segments[i].synced <= t.segments[i].durable <= t.segments[i].end
  {
    hide Covers, Visited, EntriesOk, CountersOk, AppenderOk;
  }

  lemma OwedSame(s: State, t: State, b: int, r: int, limit: nat)
    requires AppenderOk(s) && Owed(s, b, r, limit)
    requires t == s.(segments := t.segments, flushed := t.flushed, flusher := t.flusher)
    ensures Owed(t, b, r, limit)
  {
  }

  // Loading a counter takes on exactly what it holds.
  lemma OwedLoaded(s: State, b: int, r: int)
    requires AppenderOk(s) && EntriesOk(s) && s.flushed <= s.logEnd && Owed(s, 0, 0, s.flushed) && Owed(s, b, r, s.logEnd)
    ensures Owed(s, s.unflushedBytes, r, s.logEnd) && Owed(s, b, s.unflushedRecords, s.logEnd)
    ensures 0 <= s.unflushedBytes && 0 <= s.unflushedRecords
  {
  }

  lemma LoadingCounters(s: State, t: State)
    requires Inv(s) && FlusherStep(s, t) && (s.flusher.Resting? || s.flusher.HaveBytes? || s.flusher.HaveCounts?)
    ensures CountersOk(t)
  {
    hide Covers, Visited, EntriesOk, ScanOk, SegmentsOk, Owed;
    OwedSame(s, t, 0, 0, s.flushed);
    match s.flusher
    case Resting =>
      OwedAtEnd(s, 0, 0, s.flushed);
      OwedLoaded(s, 0, 0);
      OwedSame(s, t, s.unflushedBytes, 0, s.logEnd);
    case HaveBytes(b) =>
      OwedLoaded(s, b, 0);
      OwedSame(s, t, b, s.unflushedRecords, s.logEnd);
    case HaveCounts(b, r) =>
      OwedSame(s, t, b, r, s.logEnd);
  }

  lemma SubtractingCounters(s: State, t: State)
    requires Inv(s) && FlusherStep(s, t) && (s.flusher.Stored? || s.flusher.Subtracted?)
    ensures CountersOk(t)
  {
    hide Covers, Visited, EntriesOk, ScanOk, SegmentsOk;
  }

  lemma ScanningCounters(s: State, t: State)
    requires Inv(s) && FlusherStep(s, t) && HoldsTarget(s.flusher)
    ensures CountersOk(t)
  {
    hide Covers, Visited, EntriesOk, ScanOk, SegmentsOk, Owed;
    OwedSame(s, t, 0, 0, s.flushed);
    OwedSame(s, t, s.flusher.bytes, s.flusher.records, s.flusher.target);
  }

  predicate HoldsTarget(f: Flusher) {
    f.HaveTarget? || f.Released? || HoldsLock(f)
  }

  lemma FlusherCounters(s: State, t: State)
    requires Inv(s) && FlusherStep(s, t)
    ensures t.logEnd <= |t.entries| && CountersOk(t)
  {
    FlusherEntries(s, t);
    hide FlusherStep, ScanOk, SegmentsOk, EntriesOk, CountersOk;
    if HoldsTarget(s.flusher) {
      ScanningCounters(s, t);
    } else if s.flusher.Stored? || s.flusher.Subtracted? {
      SubtractingCounters(s, t);
    } else {
      LoadingCounters(s, t);
    }
  }

  lemma EndCovers(s: State, i: nat, limit: nat)
    requires EntriesOk(s) && i < |s.segments|
    ensures Covers(s, i, limit, s.segments[i].end)
  {
    forall k | 0 <= k < limit && k < |s.entries| && s.entries[k].seg == i
      ensures s.entries[k].end <= s.segments[i].end
    {
      assert EntryOk(s, k);
    }
  }

  lemma CoversLess(s: State, t: State, i: nat, limit: nat, limit': nat, p: nat, q: nat)
    requires t.entries == s.entries && limit' <= limit && p <= q && Covers(s, i, limit, p)
    ensures Covers(t, i, limit', q)
  {
  }

  lemma FlusherSegments(s: State, t: State)
    requires Inv(s) && FlusherStep(s, t)
    ensures SegmentsOk(t)
  {
    FlusherEntries(s, t);
    FlusherDurable(s, t);
    forall i: nat | i < |t.segments| ensures Covers(t, i, t.flushed, t.segments[i].synced) {
      assert Covers(s, i, s.flushed, s.segments[i].synced);
      hide Covers, EntriesOk;
      match s.flusher
      case Synced(_, _, target, j, pos) =>
        if i == j {
          CoversLess(s, t, i, target, s.flushed, pos, pos);
        } else {
          CoversLess(s, t, i, s.flushed, s.flushed, s.segments[i].synced, s.segments[i].synced);
        }
      case Released(_, _, target) =>
        CoversLess(s, t, i, target, target, s.segments[i].synced, s.segments[i].synced);
      case _ =>
        CoversLess(s, t, i, s.flushed, s.flushed, s.segments[i].synced, s.segments[i].synced);
    }
  }

  lemma VisitedNext(s: State, t: State, target: nat, i: nat)
    requires Visited(s, target, i) && i < |s.segments| == |t.segments| && t.entries == s.entries
    requires forall j :: 0 <= j < i ==> t.segments[j].synced == s.segments[j].synced
    ensures Visited(t, target, i)
    ensures Covers(s, i, target, t.segments[i].synced) ==> Visited(t, target, i + 1)
  {
    forall j: nat | j < i ensures Covers(t, j, target, t.segments[j].synced) {
      CoversLess(s, t, j, target, target, s.segments[j].synced, t.segments[j].synced);
    }
  }

  lemma FlusherScan(s: State, t: State)
    requires Inv(s) && FlusherStep(s, t)
    ensures ScanOk(t)
  {
    hide AppenderOk, CountersOk, SegmentsOk;
    FlusherEntries(s, t);
    match s.flusher
    case SawSynced(_, _, target, i, seen) =>
      EndCovers(s, i, target);
      CoversLess(s, s, i, target, target, s.segments[i].end, s.segments[i].end);
      if seen >= s.segments[i].end {
        CoversLess(s, s, i, target, target, s.segments[i].end, s.segments[i].synced);
      }
      VisitedNext(s, t, target, i);
    case Captured(_, _, target, i, pos) =>
      VisitedNext(s, t, target, i);
    case Synced(_, _, target, i, pos) =>
      VisitedNext(s, t, target, i);
    case _ =>
  }

  lemma FlusherKeeps(s: State, t: State)
    requires Inv(s) && FlusherStep(s, t)
    ensures Inv(t)
  {
    hide FlusherStep, EntriesOk, SegmentsOk, CountersOk, ScanOk, AppenderOk;
    FlusherShape(s, t);
    FlusherCounters(s, t);
    FlusherSegments(s, t);
    FlusherScan(s, t);
  }

  lemma {:induction false} RunInv(states: seq<State>, k: nat)
    requires Run(states) && k < |states|
    ensures Inv(states[k])
  {
    if k > 0 {
      hide AppenderStep, FlusherStep, Inv;
      RunInv(states, k - 1);
      if AppenderStep(states[k - 1], states[k]) {
        AppenderKeeps(states[k - 1], states[k]);
      } else {
        FlusherKeeps(states[k - 1], states[k]);
      }
    }
  }

  // --------------------------------------------------------- theorems on runs

  /** Every record below flushed_offset lies below its segment's synced position, on media. */
  lemma FlushedIsDurable(states: seq<State>, k: nat, n: nat)
    requires Run(states) && k < |states| && n < states[k].flushed
    ensures var s := states[k];
            && n < |s.entries| && s.entries[n].seg < |s.segments|
            && var g := s.segments[s.entries[n].seg];
               s.entries[n].end <= g.synced <= g.durable
  {
    RunInv(states, k);
    var s := states[k];
    assert EntryOk(s, n);
    assert Covers(s, s.entries[n].seg, s.flushed, s.segments[s.entries[n].seg].synced);
  }

  /**
   The counters are never negative and never forget a record: they are at
   least what lies between flushed_offset and the log end, less the one append
   that may still be on its way into them.
   */
  lemma NothingForgotten(states: seq<State>, k: nat)
    requires Run(states) && k < |states|
    ensures var s := states[k];
            && s.flushed <= s.logEnd <= |s.entries|
            && 0 <= s.unflushedBytes && 0 <= s.unflushedRecords
            && BytesBelow(s.entries, s.logEnd) - BytesBelow(s.entries, s.flushed) - BytesInFlight(s.appender)
               <= s.unflushedBytes
            && s.logEnd - s.flushed - RecordsInFlight(s.appender) <= s.unflushedRecords
  {
    RunInv(states, k);
  }

  /** Zero unflushed bytes and no append in flight: the whole log is flushed. */
  lemma ZeroMeansFlushed(states: seq<State>, k: nat)
    requires Run(states) && k < |states|
    requires states[k].unflushedBytes == 0 && BytesInFlight(states[k].appender) == 0
    ensures states[k].flushed == states[k].logEnd
  {
    NothingForgotten(states, k);
    RunInv(states, k);
    BytesMonotone(states[k], states[k].flushed, states[k].logEnd);
  }

  // ------------------------------------------------------- what one flush does

  ghost predicate Path(states: seq<State>) {
    forall i :: 0 <= i < |states| - 1 ==> Next(states[i], states[i + 1])
  }

  lemma Extend(states: seq<State>, t: State) returns (longer: seq<State>)
    requires |states| > 0 && Path(states) && Next(states[|states| - 1], t)
    ensures |longer| > 0 && Path(longer) && longer[0] == states[0] && longer[|longer| - 1] == t
  {
    hide Next;
    longer := states + [t];
  }

  // The lock-protected visit of segment i.
  lemma VisitSegment(states: seq<State>, b: int, r: int, target: nat, i: nat) returns (longer: seq<State>)
    requires |states| > 0 && Path(states)
    requires var s := states[|states| - 1]; s.flusher == Scanning(b, r, target, i) && i < |s.segments|
    ensures |longer| > 0 && Path(longer) && longer[0] == states[0]
    ensures var (s, t) := (states[|states| - 1], longer[|longer| - 1]);
      && t == s.(segments := t.segments, flusher := Scanning(b, r, target, i + 1)) && |t.segments| == |s.segments|
      && (forall j :: 0 <= j < |s.segments| ==> t.segments[j].end == s.segments[j].end && (j != i ==> t.segments[j] == s.segments[j]))
      && t.segments[i].synced >= t.segments[i].end
  {
    hide Path, AppenderStep;
    var s := states[|states| - 1];
    var g := s.segments[i];
    longer := Extend(states, s.(flusher := SawSynced(b, r, target, i, g.synced)));
    if g.synced < g.end {
      longer := Extend(longer, s.(flusher := Captured(b, r, target, i, g.end)));
      var f := s.(segments := s.segments[i := Fsync(g)], flusher := Synced(b, r, target, i, g.end));
      longer := Extend(longer, f);
      longer := Extend(longer, f.(segments := f.segments[i := Fsync(g).(synced := g.end)], flusher := Scanning(b, r, target, i + 1)));
    } else {
      longer := Extend(longer, s.(flusher := Scanning(b, r, target, i + 1)));
    }
  }

  lemma {:induction false} VisitAll(states: seq<State>, b: int, r: int, target: nat, i: nat) returns (longer: seq<State>)
    requires |states| > 0 && Path(states)
    requires var s := states[|states| - 1];
      && s.flusher == Scanning(b, r, target, i) && i <= |s.segments|
      && forall j :: 0 <= j < i ==> s.segments[j].synced >= s.segments[j].end
    ensures |longer| > 0 && Path(longer) && longer[0] == states[0]
    ensures var (s, t) := (states[|states| - 1], longer[|longer| - 1]);
      && t == s.(segments := t.segments, flusher := Released(b, r, target)) && |t.segments| == |s.segments|
      && forall j :: 0 <= j < |s.segments| ==> t.segments[j].end == s.segments[j].end && t.segments[j].synced >= t.segments[j].end
    decreases |states[|states| - 1].segments| - i
  {
    hide Path;
    var s := states[|states| - 1];
    if i == |s.segments| {
      longer := Extend(states, s.(flusher := Released(b, r, target)));
    } else {
      longer := VisitSegment(states, b, r, target, i);
      longer := VisitAll(longer, b, r, target, i + 1);
    }
  }

  /**
   The rest of a flush with no append beside it, from the moment the bytes to
   subtract were read: what was read comes off the counters, unless there is
   nothing to flush, in which case the counters stay.
   */
  lemma FinishFlush(states: seq<State>, b: int) returns (longer: seq<State>)
    requires |states| > 0 && Path(states) && states[|states| - 1].flusher == HaveBytes(b)
    ensures |longer| > 0 && Path(longer) && longer[0] == states[0]
    ensures var (s, t) := (states[|states| - 1], longer[|longer| - 1]);
      if s.logEnd == s.flushed then t == s.(flusher := Resting)
      else
        && t == s.(segments := t.segments, flusher := Resting, flushed := s.logEnd,
                   unflushedBytes := s.unflushedBytes - b, unflushedRecords := 0)
        && |t.segments| == |s.segments|
        && forall j :: 0 <= j < |s.segments| ==> t.segments[j].end == s.segments[j].end && t.segments[j].synced >= t.segments[j].end
  {
    hide Path, AppenderStep;
    var s := states[|states| - 1];
    var r := s.unflushedRecords;
    longer := Extend(states, s.(flusher := HaveCounts(b, r)));
    if s.logEnd == s.flushed {
      longer := Extend(longer, s.(flusher := Resting));
    } else {
      longer := Extend(longer, s.(flusher := HaveTarget(b, r, s.logEnd)));
      longer := Extend(longer, s.(flusher := Scanning(b, r, s.logEnd, 0)));
      longer := VisitAll(longer, b, r, s.logEnd, 0);
      var u := longer[|longer| - 1];
      longer := Extend(longer, u.(flushed := s.logEnd, flusher := Stored(b, r)));
      longer := Extend(longer, u.(flushed := s.logEnd, unflushedBytes := s.unflushedBytes - b, flusher := Subtracted(r)));
      longer := Extend(longer, u.(flushed := s.logEnd, unflushedBytes := s.unflushedBytes - b, unflushedRecords := 0, flusher := Resting));
    }
  }

  /** A whole flush with no append beside it clears the counters exactly when there is something to flush, or nothing counted. */
  lemma QuietFlush(s: State) returns (states: seq<State>)
    requires s.flusher == Resting
    ensures |states| > 0 && Path(states) && states[0] == s
    ensures var t := states[|states| - 1];
      && t.flusher == Resting && t.flushed == s.logEnd == t.logEnd
      && (t.unflushedBytes == 0 <==> s.logEnd != s.flushed || s.unflushedBytes == 0)
      && (t.unflushedRecords == 0 <==> s.logEnd != s.flushed || s.unflushedRecords == 0)
      && (s.logEnd != s.flushed ==>
            |t.segments| == |s.segments|
            && forall j :: 0 <= j < |s.segments| ==> t.segments[j].end == s.segments[j].end <= t.segments[j].synced)
  {
    states := Extend([s], s.(flusher := HaveBytes(s.unflushedBytes)));
    hide Path;
    states := FinishFlush(states, s.unflushedBytes);
  }

  lemma PublishOne(s: State) returns (t: State)
    requires s.appender == Idle && |s.segments| > 0
    ensures Publish(s, t) && t.appender == Ended(1, 1) && |t.segments| == |s.segments| && |t.entries| == |s.entries| + 1
    ensures t == s.(segments := t.segments, entries := t.entries, appender := t.appender)
  {
    var last, total := |s.segments| - 1, BytesBelow(s.entries, |s.entries|);
    var g := s.segments[last];
    t := s.(segments := s.segments[last := g.(end := g.end + 1)],
            entries := s.entries + [Entry(last, g.end + 1, total + 1)], appender := Ended(1, 1));
    assert t.entries[..|s.entries|] == s.entries;
  }

  // One record of one byte, all the way through.
  lemma AppendOne(states: seq<State>) returns (longer: seq<State>)
    requires |states| > 0 && Path(states)
    requires var s := states[|states| - 1]; s.appender == Idle && |s.segments| > 0 && s.logEnd == |s.entries|
    ensures |longer| > 0 && Path(longer) && longer[0] == states[0]
    ensures var (s, t) := (states[|states| - 1], longer[|longer| - 1]);
      && t == s.(segments := t.segments, entries := t.entries, logEnd := s.logEnd + 1,
                 unflushedBytes := s.unflushedBytes + 1, unflushedRecords := s.unflushedRecords + 1)
      && |t.segments| == |s.segments| && |t.entries| == t.logEnd
  {
    hide Path, FlusherStep, Publish;
    var s := states[|states| - 1];
    var t := PublishOne(s);
    longer := Extend(states, t);
    var u := t.(logEnd := |t.entries|, appender := Logged(1, 1));
    longer := Extend(longer, u);
    var v := u.(unflushedBytes := u.unflushedBytes + 1, appender := Counted(1));
    longer := Extend(longer, v);
    longer := Extend(longer, v.(unflushedRecords := v.unflushedRecords + 1, appender := Idle));
  }

  /**
   The counter can stay up after everything is flushed: an append that lands
   between the flusher's reading of the counter and of the log end is flushed
   and not subtracted, and every further flush finds nothing to do.
   */
  lemma CounterStaysUp() returns (states: seq<State>)
    ensures Run(states)
    ensures var t := states[|states| - 1];
      t.appender == Idle && t.flusher == Resting && t.flushed == t.logEnd == 2 && t.unflushedBytes == 1
  {
    var s := State([Segment(0, 0, 0)], [], 0, 0, 0, 0, Idle, Resting);
    states := AppendOne([s]);
    hide Path;
    var t := states[|states| - 1];
    states := Extend(states, t.(flusher := HaveBytes(1)));
    states := AppendOne(states);
    states := FinishFlush(states, 1);
    PathIsRun(states);
  }

  lemma PathIsRun(states: seq<State>)
    requires |states| > 0 && Path(states) && Init(states[0])
    ensures Run(states)
  {
    hide Next, Init;
  }
}
