/**
 The flusher's sweep over a partition, and why no quorum waiter is stranded:
 local flushing, replication and the sweep between them always have a next move.
 */
module Sweep {
  import opened Wrappers
  import opened PartitionReplica
  import Flush
  import R = Replication

  datatype FlushPolicy = FlushPolicy(syncOnAppend: bool, intervalMs: int, maxBytes: int, maxRecords: int)

  /** PartitionLog::NeedsFlush. */
  predicate NeedsFlush(p: FlushPolicy, bytes: int, records: int, lastFlushMs: int, nowMs: int) {
    !p.syncOnAppend && bytes != 0
    && (|| (p.maxBytes > 0 && bytes >= p.maxBytes)
        || (p.maxRecords > 0 && records >= p.maxRecords)
        || (p.intervalMs > 0 && nowMs - lastFlushMs >= p.intervalMs))
  }

  /** Unflushed bytes become due at some time exactly when a limit is already met or flushing is periodic. */
  lemma DueIff(p: FlushPolicy, bytes: int, records: int, lastFlushMs: int)
    requires bytes != 0
    ensures (exists now :: NeedsFlush(p, bytes, records, lastFlushMs, now)) <==>
            !p.syncOnAppend && (p.intervalMs > 0 || 0 < p.maxBytes <= bytes || 0 < p.maxRecords <= records)
  {
    if !p.syncOnAppend && p.intervalMs > 0 {
      DueFrom(p, bytes, records, lastFlushMs, lastFlushMs + p.intervalMs);
    } else {
      assert NeedsFlush(p, bytes, records, lastFlushMs, 0) <==>
             !p.syncOnAppend && (0 < p.maxBytes <= bytes || 0 < p.maxRecords <= records);
    }
  }

  /** As long as no limit is met, the flush is due from one interval after the last one on, and not before. */
  lemma DueAtInterval(p: FlushPolicy, bytes: int, records: int, lastFlushMs: int, nowMs: int)
    requires bytes > 0 && !p.syncOnAppend && p.intervalMs > 0
    requires (p.maxBytes <= 0 || bytes < p.maxBytes) && (p.maxRecords <= 0 || records < p.maxRecords)
    ensures NeedsFlush(p, bytes, records, lastFlushMs, nowMs) <==> nowMs >= lastFlushMs + p.intervalMs
    ensures !NeedsFlush(p, 0, records, lastFlushMs, nowMs)
  {
  }

  lemma DueFrom(p: FlushPolicy, bytes: int, records: int, lastFlushMs: int, nowMs: int)
    requires bytes != 0 && !p.syncOnAppend && 0 < p.intervalMs <= nowMs - lastFlushMs
    ensures NeedsFlush(p, bytes, records, lastFlushMs, nowMs)
  {
  }

  /**
   A partition's log as the sweep finds it (`idle`), what it is after Flush()
   succeeds (`flushed`), and the error if Flush() fails.
   */
  datatype Log = Log(policy: FlushPolicy, bytes: int, records: int, lastFlushMs: int,
                     idle: LogView, flushed: LogView, failure: Option<string>)

  predicate Due(log: Log, nowMs: int) {
    NeedsFlush(log.policy, log.bytes, log.records, log.lastFlushMs, nowMs)
  }

  // The log the waiters are re-evaluated against, if they are at all.
  function Seen(log: Log, nowMs: int, waiting: bool): Option<LogView> {
    if !Due(log, nowMs) then if waiting then Some(log.idle) else None
    else if log.failure.Some? then None
    else Some(log.flushed)
  }

  ghost function Swept(b: Book, cfg: Config, log: Log, nowMs: int): Book {
    match Seen(log, nowMs, b.waiters != [])
    case Some(view) => Settled(b, cfg, view)
    case None => b
  }

  ghost function SweptOut(b: Book, cfg: Config, log: Log, nowMs: int): seq<Waiter> {
    match Seen(log, nowMs, b.waiters != [])
    case Some(view) => Completed(b, cfg, view)
    case None => []
  }

  /** One round of FlushDuePartitions: both ways through re-evaluate the waiters; only a failed flush leaves them alone. */
  method SweepPartition(replica: Replica, log: Log, nowMs: int) returns (done: seq<Waiter>)
    requires replica.Valid()
    modifies replica
    ensures replica.Valid()
    ensures replica.followers == old(replica.followers) && replica.added == old(replica.added)
    ensures replica.State() == Swept(old(replica.State()), replica.Cfg(), log, nowMs)
    ensures done == SweptOut(old(replica.State()), replica.Cfg(), log, nowMs)
    // Flushed or idle, no waiter that the log then satisfies is left; a failed flush changes nothing.
    ensures Fails(log, nowMs) ==> replica.State() == old(replica.State()) && done == []
    ensures !Fails(log, nowMs) ==>
      var view := if Due(log, nowMs) then log.flushed else log.idle;
      forall w :: w in replica.waiters <==> w in old(replica.waiters) && w !in Completed(old(replica.State()), replica.Cfg(), view)
  {
    SweptLeaves(replica.State(), replica.Cfg(), log, nowMs);
    done := [];
    if !Due(log, nowMs) {
      // HasPendingWaiters
      if replica.pendingWaiters != 0 {
        done := replica.CompleteSatisfiedWaiters(log.idle);
      }
      return;
    }
    if log.failure.Some? {
      return;
    }
    done := replica.CompleteSatisfiedWaiters(log.flushed);
  }

  /** The waiters a round leaves, told from who is satisfied. */
  lemma SweptLeaves(b: Book, cfg: Config, log: Log, nowMs: int)
    ensures Fails(log, nowMs) ==> Swept(b, cfg, log, nowMs) == b
    ensures !Fails(log, nowMs) ==>
      var view := if Due(log, nowMs) then log.flushed else log.idle;
      forall w :: w in Swept(b, cfg, log, nowMs).waiters <==> w in b.waiters && w !in Completed(b, cfg, view)
  {
    hide Due, Where, Watermark;
    if !Fails(log, nowMs) {
      var view := if Due(log, nowMs) then log.flushed else log.idle;
      WhereMeans(DurableTest(b, cfg, view), b.waiters, true);
      WhereMeans(DurableTest(b, cfg, view), b.waiters, false);
    }
  }

  ghost function Flushes(logs: seq<Log>, nowMs: int): set<nat> {
    set i: nat | i < |logs| && Due(logs[i], nowMs) && logs[i].failure.None?
  }

  predicate Fails(log: Log, nowMs: int) {
    Due(log, nowMs) && log.failure.Some?
  }

  /**
   FlushDuePartitions. Every partition gets its round, whatever happened to the
   others; the result counts the flushes, or is the first error.
   */
  method FlushDuePartitions(replicas: seq<Replica>, logs: seq<Log>, nowMs: int) returns (r: Result<nat, string>)
    requires |replicas| == |logs|
    requires forall i, j :: 0 <= i < j < |replicas| ==> replicas[i] != replicas[j]
    requires forall i :: 0 <= i < |replicas| ==> replicas[i].Valid()
    modifies replicas
    ensures forall i :: 0 <= i < |replicas| ==> replicas[i].Valid()
    ensures forall i :: 0 <= i < |replicas| ==>
      replicas[i].State() == Swept(old(replicas[i].State()), replicas[i].Cfg(), logs[i], nowMs)
    ensures r.Ok? ==> (forall i :: 0 <= i < |logs| ==> !Fails(logs[i], nowMs)) && r.value == |Flushes(logs, nowMs)|
    ensures r.Err? ==> exists i :: 0 <= i < |logs| && Fails(logs[i], nowMs) && logs[i].failure == Some(r.error)
                                   && forall j :: 0 <= j < i ==> !Fails(logs[j], nowMs)
  {
    hide Swept, SweptOut, Due;
    var flushed: nat, firstError := 0, None;
    for i := 0 to |replicas|
      invariant forall j :: 0 <= j < |replicas| ==> replicas[j].Valid()
      invariant forall j :: 0 <= j < i ==>
        replicas[j].State() == Swept(old(replicas[j].State()), replicas[j].Cfg(), logs[j], nowMs)
      invariant forall j :: i <= j < |replicas| ==> replicas[j].State() == old(replicas[j].State())
      invariant flushed == |Flushes(logs[..i], nowMs)|
      invariant firstError.None? ==> forall j :: 0 <= j < i ==> !Fails(logs[j], nowMs)
      invariant firstError.Some? ==>
        exists k :: 0 <= k < i && Fails(logs[k], nowMs) && logs[k].failure == firstError
                    && forall j :: 0 <= j < k ==> !Fails(logs[j], nowMs)
    {
      var _ := SweepPartition(replicas[i], logs[i], nowMs);
      FlushesNext(logs, nowMs, i);
      if Due(logs[i], nowMs) {
        if logs[i].failure.Some? {
          if firstError.None? {
            firstError := logs[i].failure;
          }
        } else {
          flushed := flushed + 1;
        }
      }
    }
    assert logs[..|logs|] == logs;
    if firstError.Some? {
      return Err(firstError.value);
    }
    return Ok(flushed);
  }

  lemma FlushesNext(logs: seq<Log>, nowMs: int, i: nat)
    requires i < |logs|
    ensures |Flushes(logs[..i + 1], nowMs)| ==
            |Flushes(logs[..i], nowMs)| + if Due(logs[i], nowMs) && logs[i].failure.None? then 1 else 0
  {
    hide Due;
    var a, b := Flushes(logs[..i], nowMs), Flushes(logs[..i + 1], nowMs);
    assert b == if Due(logs[i], nowMs) && logs[i].failure.None? then a + {i} else a;
  }

  // ---------------------------------------------------- no stranded waiter

  // Nothing is left for any sender to say: every follower is recorded as
  // caught up and durable.
  ghost predicate SendersQuiet(s: R.System) {
    forall f, count: nat, m :: !R.Sends(s, f, count, m)
  }

  ghost function InSync(fs: Followers): set<BrokerId> {
    set f | f in fs && fs[f].inSync
  }

  lemma QuietMeansDurable(s: R.System, f: BrokerId)
    requires R.Inv(s) && SendersQuiet(s) && f in s.book.followers
    ensures s.book.followers[f].flushed >= |s.log|
  {
    var p := s.book.followers[f];
    var base := Max(p.logEnd, s.start);
    if base < |s.log| {
      var m := R.Request(f, base, s.log[base..base + 1]);
      assert R.Sends(s, f, 1, m);
    } else {
      var m := R.Request(f, base, []);
      assert R.Sends(s, f, 0, m) || p.flushed >= |s.log|;
    }
  }

  /**
   When the flusher has nothing accounted, no append is in flight and every
   sender is quiet, the next sweep completes a pending quorum waiter exactly
   when the in-sync set, leader included, is a majority.
   */
  lemma QuiescentSweep(flush: seq<Flush.State>, k: nat, s: R.System, w: Waiter, log: Log, nowMs: int)
    requires Flush.Run(flush) && k < |flush|
    requires R.Inv(s) && |s.log| == flush[k].logEnd && s.flushed == flush[k].flushed
    requires w in s.book.waiters && w.mode == AckQuorum
    requires flush[k].unflushedBytes == 0 && Flush.BytesInFlight(flush[k].appender) == 0 && SendersQuiet(s)
    requires log.bytes == flush[k].unflushedBytes && log.idle == R.View(s)
    ensures w !in Swept(s.book, R.Cfg(s), log, nowMs).waiters <==> 2 * (1 + |InSync(s.book.followers)|) > |R.Replicas(s)|
  {
    hide Swept, Where;
    Flush.ZeroMeansFlushed(flush, k);
    assert s.flushed == |s.log| > w.required;
    forall f | f in s.book.followers ensures s.book.followers[f].flushed > w.required {
      QuietMeansDurable(s, f);
    }
    assert PersistedFollowers(s.book.followers, w.required) == InSync(s.book.followers);
    WhereMeans(DurableTest(s.book, R.Cfg(s), R.View(s)), s.book.waiters, true);
    SweptLeaves(s.book, R.Cfg(s), log, nowMs);
  }

  /**
   With every follower in sync, a pending quorum waiter is never stranded: the
   flusher has accounted work, which a periodic policy flushes once the interval
   has passed, or some sender has a batch or a probe to send, or the next sweep
   completes it.
   */
  lemma NoStrandedWaiter(flush: seq<Flush.State>, k: nat, s: R.System, w: Waiter, log: Log, nowMs: int)
    requires Flush.Run(flush) && k < |flush|
    requires R.Inv(s) && |s.log| == flush[k].logEnd && s.flushed == flush[k].flushed
    requires w in s.book.waiters && w.mode == AckQuorum
    requires Flush.BytesInFlight(flush[k].appender) == 0
    requires log.bytes == flush[k].unflushedBytes && log.idle == R.View(s)
    requires forall f :: f in s.book.followers ==> s.book.followers[f].inSync
    ensures || (&& flush[k].unflushedBytes > 0
                && (!log.policy.syncOnAppend && log.policy.intervalMs > 0 ==>
                      forall now :: now >= log.lastFlushMs + log.policy.intervalMs ==> Due(log, now)))
            || !SendersQuiet(s)
            || w !in Swept(s.book, R.Cfg(s), log, nowMs).waiters
  {
    hide Swept;
    Flush.NothingForgotten(flush, k);
    if flush[k].unflushedBytes == 0 && SendersQuiet(s) {
      QuiescentSweep(flush, k, s, w, log, nowMs);
      forall f | f in s.nodes ensures f in InSync(s.book.followers) {
        assert f in s.book.followers.Keys;
      }
      assert InSync(s.book.followers) == s.nodes.Keys;
      assert R.Replicas(s) == s.nodes.Keys + {s.leader};
    }
  }

  // ------------------------------------------------- the condition is needed

  lemma OneKept(t: Test, w: Waiter)
    requires !Passes(t, w)
    ensures Where(t, [w], false) == [w] && Where(t, [w], true) == []
  {
    assert [w][..0] == [];
  }

  // A leader and one follower.
  ghost function Pair(log: seq<R.Record>, flushed: nat, node: R.Node, f: FollowerState,
                      ws: seq<Waiter>, mark: int, net: set<R.Message>): R.System {
    R.System(0, log, 0, flushed, Book(map[1 := f], ws, mark), map[1 := node], net, {}, {})
  }

  const ONE: seq<R.Record> := [[0]]
  const BATCH := R.Request(1, 0, ONE)
  const PROBE := R.Request(1, 1, [])
  const APPENDED := R.Response(1, 1, 0)
  const DURABLE := R.Response(1, 1, 1)

  ghost function Script(w: Waiter): seq<R.Step> {
    [R.Append(ONE), R.Settle, R.Wait(w), R.Send(1, 1), R.Deliver(BATCH), R.Progress(APPENDED),
     R.FollowerFlush(1, 1), R.Send(1, 0), R.Deliver(PROBE), R.Progress(DURABLE), R.Evict(1), R.Flush(1)]
  }

  // A book with one waiting quorum waiter that one persisted replica of two
  // does not satisfy.
  lemma StillWaiting(s: R.System, b: Book, w: Waiter)
    requires R.Cfg(s) == Config(2, true) && b.waiters == [w] && w.mode == AckQuorum
    requires b.followers.Keys == {1}
    requires s.flushed <= w.required || !b.followers[1].inSync || b.followers[1].flushed <= w.required
    ensures Completed(b, R.Cfg(s), R.View(s)) == []
    ensures Extracted(b, R.Cfg(s), R.View(s)) == b
  {
    var p := PersistedFollowers(b.followers, w.required);
    assert p <= {1};
    R.SubsetSize(p, {1});
    if p != {} {
      assert 1 in p;
    }
    OneKept(DurableTest(b, R.Cfg(s), R.View(s)), w);
  }

  lemma TwoReplicas(s: R.System)
    requires s.leader == 0 && s.nodes.Keys == {1}
    ensures R.Cfg(s) == Config(2, true)
  {
    assert R.Replicas(s) == {0, 1};
  }

  // Settling such a book changes at most the mark, and answers nobody.
  lemma SettlesQuietly(s: R.System, b: Book, w: Waiter)
    requires R.Cfg(s) == Config(2, true) && b.waiters == [w] && w.mode == AckQuorum
    requires b.followers.Keys == {1} && s.acked == {}
    requires s.flushed <= w.required || !b.followers[1].inSync || b.followers[1].flushed <= w.required
    ensures var t := R.Settling(s, b);
            && t == s.(book := t.book)
            && t.book == b.(highWaterMark := t.book.highWaterMark)
  {
    StillWaiting(s, Recomputed(b, R.Cfg(s), R.View(s)), w);
    StillWaiting(s, b, w);
    assert R.Answered(s, b) == {};
  }

  lemma AppendStep(f: FollowerState)
    requires f == FollowerState(0, 0, true)
    ensures R.Init(Pair([], 0, R.Node([], 0), f, [], 0, {}))
    ensures R.Next(Pair([], 0, R.Node([], 0), f, [], 0, {}), R.Append(ONE), Pair(ONE, 0, R.Node([], 0), f, [], 0, {}))
  {
    assert [] + ONE == ONE;
  }

  lemma SettleStep(s: R.System) returns (mark: int)
    requires s.book.waiters == [] && s.acked == {}
    ensures R.Next(s, R.Settle, s.(book := s.book.(highWaterMark := mark)))
  {
    mark := R.Settling(s, s.book).book.highWaterMark;
    assert R.Answered(s, s.book) == {};
  }

  lemma WaitStep(s: R.System, w: Waiter)
    requires s.leader == 0 && s.nodes.Keys == s.book.followers.Keys == {1} && s.acked == {}
    requires s.book.waiters == [] && s.flushed == 0 && |s.log| == 1 && w.required == 0 && w.mode == AckQuorum
    ensures R.Next(s, R.Wait(w), s.(book := s.book.(waiters := [w])))
  {
    TwoReplicas(s);
    var b := s.book.(waiters := [w]);
    assert s.book.waiters + [w] == [w];
    StillWaiting(s, b, w);
    assert R.Answered(s, b) == {};
  }

  lemma SendStep(s: R.System, count: nat, m: R.Message)
    requires R.Sends(s, 1, count, m)
    ensures R.Next(s, R.Send(1, count), s.(net := s.net + {m}))
  {
    hide R.Sends;
  }

  lemma DeliverStep(s: R.System, m: R.Message, n: R.Node)
    requires m in s.net && m.Request? && m.to == 1 && s.nodes.Keys == {1} && n == R.Handle(s.nodes[1], m)
    ensures R.Next(s, R.Deliver(m), s.(nodes := map[1 := n], net := s.net + {R.Response(1, |n.log|, n.flushed)}))
  {
    hide R.Handle;
    assert s.nodes[1 := n] == map[1 := n];
  }

  lemma FollowerFlushStep(s: R.System, n: R.Node)
    requires s.nodes.Keys == {1} && s.nodes[1] == n && n.flushed <= 1 == |n.log|
    ensures R.Next(s, R.FollowerFlush(1, 1), s.(nodes := map[1 := n.(flushed := 1)]))
  {
    assert s.nodes[1 := n.(flushed := 1)] == map[1 := n.(flushed := 1)];
  }

  // A leader whose one waiter is not satisfied, whatever becomes of the book.
  ghost predicate Pending(s: R.System, w: Waiter) {
    && s.leader == 0 && s.nodes.Keys == s.book.followers.Keys == {1} && s.acked == {}
    && s.book.waiters == [w] && w.required == 0 && w.mode == AckQuorum && s.flushed == 0
  }

  lemma ProgressStep(s: R.System, m: R.Message, w: Waiter, f: FollowerState) returns (mark: int)
    requires Pending(s, w) && m in s.net && m.Response? && m.from == 1
    requires f == Reported(s.book, 1, m.logEnd, m.flushed).followers[1]
    ensures R.Next(s, R.Progress(m), s.(book := Book(map[1 := f], [w], mark)))
  {
    TwoReplicas(s);
    var b := Reported(s.book, 1, m.logEnd, m.flushed);
    SettlesQuietly(s, b, w);
    mark := R.Settling(s, b).book.highWaterMark;
    assert b.followers == map[1 := f];
  }

  lemma EvictStep(s: R.System, w: Waiter, f: FollowerState) returns (mark: int)
    requires Pending(s, w) && s.book.followers[1].inSync && f == s.book.followers[1].(inSync := false)
    ensures R.Next(s, R.Evict(1), s.(book := Book(map[1 := f], [w], mark)))
  {
    TwoReplicas(s);
    var b := Evicted(s.book, 1);
    SettlesQuietly(s, b, w);
    mark := R.Settling(s, b).book.highWaterMark;
    assert b.followers == map[1 := f];
  }

  // From empty logs to one record that the follower has appended.
  lemma StrandedStart(w: Waiter) returns (mark: int, mark': int)
    requires w.required == 0 && w.mode == AckQuorum
    ensures var f := FollowerState(0, 0, true); var (n, n') := (R.Node([], 0), R.Node(ONE, 0));
      && R.Init(Pair([], 0, n, f, [], 0, {}))
      && R.Next(Pair([], 0, n, f, [], 0, {}), R.Append(ONE), Pair(ONE, 0, n, f, [], 0, {}))
      && R.Next(Pair(ONE, 0, n, f, [], 0, {}), R.Settle, Pair(ONE, 0, n, f, [], mark, {}))
      && R.Next(Pair(ONE, 0, n, f, [], mark, {}), R.Wait(w), Pair(ONE, 0, n, f, [w], mark, {}))
      && R.Next(Pair(ONE, 0, n, f, [w], mark, {}), R.Send(1, 1), Pair(ONE, 0, n, f, [w], mark, {} + {BATCH}))
      && R.Next(Pair(ONE, 0, n, f, [w], mark, {} + {BATCH}), R.Deliver(BATCH),
                Pair(ONE, 0, n', f, [w], mark, {} + {BATCH} + {APPENDED}))
      && R.Next(Pair(ONE, 0, n', f, [w], mark, {} + {BATCH} + {APPENDED}), R.Progress(APPENDED),
                Pair(ONE, 0, n', FollowerState(1, 0, true), [w], mark', {} + {BATCH} + {APPENDED}))
  {
    hide R.Next, R.Init;
    var f, n, n' := FollowerState(0, 0, true), R.Node([], 0), R.Node(ONE, 0);
    AppendStep(f);
    mark := SettleStep(Pair(ONE, 0, n, f, [], 0, {}));
    WaitStep(Pair(ONE, 0, n, f, [], mark, {}), w);
    assert ONE[0..1] == ONE;
    SendStep(Pair(ONE, 0, n, f, [w], mark, {}), 1, BATCH);
    assert [] + ONE == ONE;
    DeliverStep(Pair(ONE, 0, n, f, [w], mark, {} + {BATCH}), BATCH, n');
    mark' := ProgressStep(Pair(ONE, 0, n', f, [w], mark, {} + {BATCH} + {APPENDED}), APPENDED, w, FollowerState(1, 0, true));
  }

  // The follower flushes, a probe finds it durable, it is evicted, and the leader flushes.
  lemma StrandedRest(w: Waiter, mark: int, net: set<R.Message>) returns (mark': int, mark'': int)
    requires w.required == 0 && w.mode == AckQuorum
    ensures var (n, f) := (R.Node(ONE, 1), FollowerState(1, 0, true)); var net' := net + {PROBE} + {DURABLE};
      && R.Next(Pair(ONE, 0, R.Node(ONE, 0), f, [w], mark, net), R.FollowerFlush(1, 1), Pair(ONE, 0, n, f, [w], mark, net))
      && R.Next(Pair(ONE, 0, n, f, [w], mark, net), R.Send(1, 0), Pair(ONE, 0, n, f, [w], mark, net + {PROBE}))
      && R.Next(Pair(ONE, 0, n, f, [w], mark, net + {PROBE}), R.Deliver(PROBE), Pair(ONE, 0, n, f, [w], mark, net'))
      && R.Next(Pair(ONE, 0, n, f, [w], mark, net'), R.Progress(DURABLE),
                Pair(ONE, 0, n, FollowerState(1, 1, true), [w], mark', net'))
      && R.Next(Pair(ONE, 0, n, FollowerState(1, 1, true), [w], mark', net'), R.Evict(1),
                Pair(ONE, 0, n, FollowerState(1, 1, false), [w], mark'', net'))
      && R.Next(Pair(ONE, 0, n, FollowerState(1, 1, false), [w], mark'', net'), R.Flush(1),
                Pair(ONE, 1, n, FollowerState(1, 1, false), [w], mark'', net'))
  {
    hide R.Next, R.Init;
    var n, f, net' := R.Node(ONE, 1), FollowerState(1, 0, true), net + {PROBE} + {DURABLE};
    FollowerFlushStep(Pair(ONE, 0, R.Node(ONE, 0), f, [w], mark, net), R.Node(ONE, 0));
    SendStep(Pair(ONE, 0, n, f, [w], mark, net), 0, PROBE);
    DeliverStep(Pair(ONE, 0, n, f, [w], mark, net + {PROBE}), PROBE, n);
    mark' := ProgressStep(Pair(ONE, 0, n, f, [w], mark, net'), DURABLE, w, FollowerState(1, 1, true));
    mark'' := EvictStep(Pair(ONE, 0, n, FollowerState(1, 1, true), [w], mark', net'), w, FollowerState(1, 1, false));
    FlushStep(Pair(ONE, 0, n, FollowerState(1, 1, false), [w], mark'', net'));
  }

  lemma FlushStep(s: R.System)
    requires s.flushed <= 1 == |s.log|
    ensures R.Next(s, R.Flush(1), s.(flushed := 1))
  {
  }

  /**
   The in-sync condition cannot be dropped. From empty logs: one record is
   appended, replicated and flushed by the follower, a probe reports it durable,
   and then the follower is evicted. It is never probed again, so once the
   leader has flushed too the waiter stays pending although the record is on
   every replica's media.
   */
  lemma StrandedRun(w: Waiter) returns (states: seq<R.System>)
    requires w.required == 0 && w.mode == AckQuorum
    ensures R.Run(states, Script(w)) && states[0].log == [] && states[0].nodes == map[1 := R.Node([], 0)]
    ensures var s := states[12];
      && s.log == ONE && s.flushed == 1 && s.nodes == map[1 := R.Node(ONE, 1)] && w in s.book.waiters
      && SendersQuiet(s) && w !in Completed(s.book, R.Cfg(s), R.View(s))
  {
    hide R.Next, R.Init, SendersQuiet, Completed, Pair;
    var mark, mark' := StrandedStart(w);
    var net := {} + {BATCH} + {APPENDED};
    var mark2, mark3 := StrandedRest(w, mark', net);
    var f, n, n', durable := FollowerState(0, 0, true), R.Node([], 0), R.Node(ONE, 0), R.Node(ONE, 1);
    var net', net2 := net + {PROBE}, net + {PROBE} + {DURABLE};
    states := [Pair([], 0, n, f, [], 0, {}), Pair(ONE, 0, n, f, [], 0, {}), Pair(ONE, 0, n, f, [], mark, {}),
               Pair(ONE, 0, n, f, [w], mark, {}), Pair(ONE, 0, n, f, [w], mark, {} + {BATCH}),
               Pair(ONE, 0, n', f, [w], mark, net), Pair(ONE, 0, n', FollowerState(1, 0, true), [w], mark', net),
               Pair(ONE, 0, durable, FollowerState(1, 0, true), [w], mark', net),
               Pair(ONE, 0, durable, FollowerState(1, 0, true), [w], mark', net'),
               Pair(ONE, 0, durable, FollowerState(1, 0, true), [w], mark', net2),
               Pair(ONE, 0, durable, FollowerState(1, 1, true), [w], mark2, net2),
               Pair(ONE, 0, durable, FollowerState(1, 1, false), [w], mark3, net2),
               Pair(ONE, 1, durable, FollowerState(1, 1, false), [w], mark3, net2)];
    EmptyStart(n, f);
    StrandedEnd(w, mark3, net2);
  }

  lemma EmptyStart(n: R.Node, f: FollowerState)
    ensures var s := Pair([], 0, n, f, [], 0, {}); s.log == [] && s.nodes == map[1 := n]
  {
  }

  lemma StrandedEnd(w: Waiter, mark: int, net: set<R.Message>)
    requires w.required == 0 && w.mode == AckQuorum
    ensures var s := Pair(ONE, 1, R.Node(ONE, 1), FollowerState(1, 1, false), [w], mark, net);
      && s.log == ONE && s.flushed == 1 && s.nodes == map[1 := R.Node(ONE, 1)] && w in s.book.waiters
      && SendersQuiet(s) && w !in Completed(s.book, R.Cfg(s), R.View(s))
  {
    var s := Pair(ONE, 1, R.Node(ONE, 1), FollowerState(1, 1, false), [w], mark, net);
    TwoReplicas(s);
    StillWaiting(s, s.book, w);
  }
}
