/**
 Leader-side bookkeeping of one partition: follower progress, the high-water
 mark and the produce requests waiting for their durability condition.
 */
module PartitionReplica {

  type BrokerId = int

  datatype AckMode = AckNone | AckLeader | AckQuorum

  /** What the leader knows about one follower. */
  datatype FollowerState = FollowerState(logEnd: int, flushed: int, inSync: bool)

  type Followers = map<BrokerId, FollowerState>

  /** A produce request that has been appended but not yet acknowledged. */
  datatype Waiter = Waiter(id: nat, required: int, mode: AckMode, deadline: int)

  datatype Outcome = Acknowledged | TimedOut | Failed

  /** The two positions of the local log that this bookkeeping reads. */
  datatype LogView = LogView(end: int, flushed: int)

  function QuorumSize(replicas: nat): nat {
    replicas / 2 + 1
  }

  function Max(a: int, b: int): int {
    if a < b then b else a
  }

  // -------------------------------------------------------- high-water mark

  // The greatest offset not past the log end nor past any in-sync follower.
  ghost predicate IsWatermark(fs: Followers, end: int, w: int) {
    w <= end
    && (forall f :: f in fs && fs[f].inSync ==> w <= fs[f].logEnd)
    && (w == end || exists f :: f in fs && fs[f].inSync && fs[f].logEnd == w)
  }

  ghost function Behind(fs: Followers, end: int): set<BrokerId> {
    set f | f in fs && fs[f].inSync && fs[f].logEnd < end
  }

  ghost function Watermark(fs: Followers, end: int): (w: int)
    ensures IsWatermark(fs, end, w)
    decreases Behind(fs, end)
  {
    if f :| f in fs && fs[f].inSync && fs[f].logEnd < end then
      assert f in Behind(fs, end) - Behind(fs, fs[f].logEnd);
      Watermark(fs, fs[f].logEnd)
    else end
  }

  lemma WatermarkUnique(fs: Followers, end: int, v: int, w: int)
    requires IsWatermark(fs, end, v) && IsWatermark(fs, end, w)
    ensures v == w
  {
  }

  // ------------------------------------------------- durability conditions

  ghost function PersistedFollowers(fs: Followers, offset: int): set<BrokerId> {
    set f | f in fs && fs[f].inSync && fs[f].flushed > offset
  }

  ghost predicate Satisfied(fs: Followers, quorum: nat, log: LogView, w: Waiter) {
    match w.mode
    case AckNone => true
    case AckLeader => log.end > w.required
    case AckQuorum =>
      (if log.flushed > w.required then 1 else 0) + |PersistedFollowers(fs, w.required)| >= quorum
  }

  /** The two tests a waiter list is partitioned by. */
  datatype Test = Durable(fs: Followers, quorum: nat, log: LogView) | Overdue(now: int)

  ghost predicate Passes(t: Test, w: Waiter) {
    match t
    case Durable(fs, quorum, log) => Satisfied(fs, quorum, log, w)
    case Overdue(now) => w.deadline <= now
  }

  // std::stable_partition: the waiters that pass (or fail) a test, in order.
  ghost function Where(t: Test, ws: seq<Waiter>, want: bool): seq<Waiter> {
    if ws == [] then []
    else
      var rest := Where(t, ws[..|ws| - 1], want);
      var last := ws[|ws| - 1];
      if Passes(t, last) == want then rest + [last] else rest
  }

  ghost function Ids(ws: seq<Waiter>): set<nat> {
    set i | 0 <= i < |ws| :: ws[i].id
  }

  ghost predicate DistinctIds(ws: seq<Waiter>) {
    forall i, j :: 0 <= i < j < |ws| ==> ws[i].id != ws[j].id
  }

  // A split of a waiter list: every waiter on exactly one side.
  ghost predicate Splits(ws: seq<Waiter>, a: seq<Waiter>, b: seq<Waiter>) {
    && multiset(a) + multiset(b) == multiset(ws)
    && |a| + |b| == |ws|
    && Ids(a) + Ids(b) == Ids(ws)
    && (DistinctIds(ws) ==> DistinctIds(a) && DistinctIds(b) && Ids(a) !! Ids(b))
  }

  lemma SplitSnoc(ws: seq<Waiter>, a: seq<Waiter>, b: seq<Waiter>, w: Waiter)
    requires Splits(ws, a, b)
    ensures Splits(ws + [w], a + [w], b) && Splits(ws + [w], a, b + [w])
  {
    IdsSnoc(ws, w);
    IdsSnoc(a, w);
    IdsSnoc(b, w);
    if DistinctIds(ws + [w]) {
      assert ws == (ws + [w])[..|ws|];
      assert w.id !in Ids(ws) by {
        forall i | 0 <= i < |ws| ensures ws[i].id != w.id {
          assert (ws + [w])[i] == ws[i] && (ws + [w])[|ws|] == w;
        }
      }
      assert DistinctIds(ws) by {
        forall i, j | 0 <= i < j < |ws| ensures ws[i].id != ws[j].id {
          assert (ws + [w])[i] == ws[i] && (ws + [w])[j] == ws[j];
        }
      }
    }
  }

  lemma IdsSnoc(ws: seq<Waiter>, w: Waiter)
    ensures Ids(ws + [w]) == Ids(ws) + {w.id}
  {
    forall x | x in Ids(ws) + {w.id} ensures x in Ids(ws + [w]) {
      if x == w.id {
        assert (ws + [w])[|ws|].id == x;
      } else {
        var i :| 0 <= i < |ws| && ws[i].id == x;
        assert (ws + [w])[i].id == x;
      }
    }
  }

  lemma {:induction false} WhereSplits(t: Test, ws: seq<Waiter>)
    ensures Splits(ws, Where(t, ws, true), Where(t, ws, false))
  {
    if ws != [] {
      hide Splits, Passes;
      var init, last := ws[..|ws| - 1], ws[|ws| - 1];
      WhereSplits(t, init);
      SplitSnoc(init, Where(t, init, true), Where(t, init, false), last);
      assert ws == init + [last];
    }
  }

  lemma {:induction false} WhereMeans(t: Test, ws: seq<Waiter>, want: bool)
    ensures forall w :: w in Where(t, ws, want) <==> w in ws && Passes(t, w) == want
  {
    hide Passes;
    if ws != [] {
      WhereMeans(t, ws[..|ws| - 1], want);
      assert ws == ws[..|ws| - 1] + [ws[|ws| - 1]];
    }
  }

  // ------------------------------------------------ what each operation does

  datatype Config = Config(replicas: nat, leads: bool)

  /** The mutable bookkeeping as a value. */
  datatype Book = Book(followers: Followers, waiters: seq<Waiter>, highWaterMark: int)

  ghost function Recomputed(b: Book, cfg: Config, log: LogView): Book {
    if cfg.leads then b.(highWaterMark := Max(b.highWaterMark, Watermark(b.followers, log.end))) else b
  }

  ghost function DurableTest(b: Book, cfg: Config, log: LogView): Test {
    Durable(b.followers, QuorumSize(cfg.replicas), log)
  }

  ghost function Completed(b: Book, cfg: Config, log: LogView): seq<Waiter> {
    Where(DurableTest(b, cfg, log), b.waiters, true)
  }

  ghost function Extracted(b: Book, cfg: Config, log: LogView): Book {
    b.(waiters := Where(DurableTest(b, cfg, log), b.waiters, false))
  }

  ghost function Settled(b: Book, cfg: Config, log: LogView): Book {
    Extracted(Recomputed(b, cfg, log), cfg, log)
  }

  // Positions only move up; any report puts the follower back in sync.
  ghost function Reported(b: Book, f: BrokerId, logEnd: int, flushed: int): Book
    requires f in b.followers
  {
    var was := b.followers[f];
    b.(followers := b.followers[f := FollowerState(Max(was.logEnd, logEnd), Max(was.flushed, flushed), true)])
  }

  ghost function Evicted(b: Book, f: BrokerId): Book
    requires f in b.followers
  {
    b.(followers := b.followers[f := b.followers[f].(inSync := false)])
  }

  lemma NonEmpty(s: set<BrokerId>)
    requires s != {}
    ensures exists f :: f in s
  {
    assert (forall f :: f !in s) ==> s == {};
  }

  /** A majority and no more: one replica less is none. */
  lemma QuorumIsLeast(replicas: nat)
    ensures 2 * QuorumSize(replicas) > replicas >= 2 * (QuorumSize(replicas) - 1)
  {
  }

  /** Who is answered, mode by mode. */
  lemma CompletedExactly(b: Book, cfg: Config, log: LogView, w: Waiter)
    ensures w.mode == AckNone ==> (w in Completed(b, cfg, log) <==> w in b.waiters)
    ensures w.mode == AckLeader ==> (w in Completed(b, cfg, log) <==> w in b.waiters && w.required < log.end)
    ensures w.mode == AckQuorum ==>
      (w in Completed(b, cfg, log) <==>
         && w in b.waiters
         && 2 * ((if w.required < log.flushed then 1 else 0)
                 + |set f | f in b.followers && b.followers[f].inSync && w.required < b.followers[f].flushed|) > cfg.replicas)
    ensures w in Completed(b, cfg, log) || w in Extracted(b, cfg, log).waiters <==> w in b.waiters
  {
    hide Where;
    WhereMeans(DurableTest(b, cfg, log), b.waiters, true);
    WhereMeans(DurableTest(b, cfg, log), b.waiters, false);
    assert PersistedFollowers(b.followers, w.required) ==
           set f | f in b.followers && b.followers[f].inSync && w.required < b.followers[f].flushed;
  }

  /** Only a leader moves its mark here. */
  lemma FollowersMarkStays(b: Book, cfg: Config, log: LogView)
    requires !cfg.leads
    ensures Settled(b, cfg, log).highWaterMark == b.highWaterMark
  {
    hide Where;
  }

  /** The partition keeps the waiters in their order. */
  lemma {:induction false} WhereAppend(t: Test, a: seq<Waiter>, b: seq<Waiter>, want: bool)
    ensures Where(t, a + b, want) == Where(t, a, want) + Where(t, b, want)
    decreases |b|
  {
    hide Passes;
    if b == [] {
      assert a + b == a;
    } else {
      var init, last := b[..|b| - 1], b[|b| - 1];
      assert (a + b)[..|a + b| - 1] == a + init && (a + b)[|a + b| - 1] == last;
      WhereAppend(t, a, init, want);
    }
  }

  class Replica {
    const replicas: nat
    const leads: bool
    var followers: Followers
    var waiters: seq<Waiter>
    var pendingWaiters: nat
    var highWaterMark: int

    // Every waiter ever added, and what each one that left was told.
    ghost var added: set<nat>
    ghost var answered: map<nat, Outcome>

    ghost function Cfg(): Config
    {
      Config(replicas, leads)
    }

    ghost function State(): Book
      reads this
    {
      Book(followers, waiters, highWaterMark)
    }

    // Each added waiter is either pending, once, or answered, never both.
    ghost predicate Valid()
      reads this
    {
      && pendingWaiters == |waiters|
      && DistinctIds(waiters)
      && Ids(waiters) !! answered.Keys
      && Ids(waiters) + answered.Keys == added
    }

    constructor (followerIds: set<BrokerId>, leads: bool, log: LogView)
      ensures Valid() && added == {} && waiters == []
      ensures this.leads == leads && replicas == |followerIds| + 1
      ensures followers == map f | f in followerIds :: FollowerState(0, 0, true)
      ensures highWaterMark == if leads && followerIds == {} then log.end else 0
    {
      this.replicas := |followerIds| + 1;
      this.leads := leads;
      followers := map f | f in followerIds :: FollowerState(0, 0, true);
      waiters, pendingWaiters := [], 0;
      highWaterMark := if leads && followerIds == {} then log.end else 0;
      added, answered := {}, map[];
    }

    method RecomputeHighWaterMark(log: LogView) returns (mark: int)
      modifies this`highWaterMark
      ensures State() == Recomputed(old(State()), Cfg(), log)
      ensures mark == highWaterMark
    {
      if !leads {
        return highWaterMark;
      }
      var watermark, inSyncCount := log.end, 1;
      var rest := followers.Keys;
      while rest != {}
        invariant rest <= followers.Keys
        invariant IsWatermark(followers - rest, log.end, watermark)
        invariant highWaterMark == old(highWaterMark)
        invariant inSyncCount >= 1 && (inSyncCount == 1 ==> watermark == log.end)
      {
        NonEmpty(rest);
        var f :| f in rest;
        ghost var seen := followers - rest;
        rest := rest - {f};
        assert (followers - rest).Keys == seen.Keys + {f};
        if followers[f].inSync {
          inSyncCount := inSyncCount + 1;
          if followers[f].logEnd < watermark {
            watermark := followers[f].logEnd;
          }
        }
      }
      assert followers - rest == followers;
      assert IsWatermark(followers, log.end, watermark);
      WatermarkUnique(followers, log.end, watermark, Watermark(followers, log.end));
      if inSyncCount == 1 {
        watermark := log.end;
      }
      if watermark > highWaterMark {
        highWaterMark := watermark;
      }
      mark := highWaterMark;
    }

    method IsSatisfied(log: LogView, w: Waiter) returns (yes: bool)
      ensures yes <==> Satisfied(followers, QuorumSize(replicas), log, w)
    {
      match w.mode
      case AckNone => yes := true;
      case AckLeader => yes := log.end > w.required;
      case AckQuorum =>
        var persisted := if log.flushed > w.required then 1 else 0;
        ghost var local := persisted;
        var rest := followers.Keys;
        while rest != {}
          invariant rest <= followers.Keys
          invariant persisted == local + |PersistedFollowers(followers - rest, w.required)|
        {
          NonEmpty(rest);
          var f :| f in rest;
          ghost var before := PersistedFollowers(followers - rest, w.required);
          rest := rest - {f};
          if followers[f].inSync && followers[f].flushed > w.required {
            assert PersistedFollowers(followers - rest, w.required) == before + {f};
            persisted := persisted + 1;
          } else {
            assert PersistedFollowers(followers - rest, w.required) == before;
          }
        }
        assert followers - rest == followers;
        yes := persisted >= replicas / 2 + 1;
    }

    method Partition(log: LogView) returns (kept: seq<Waiter>, done: seq<Waiter>)
      ensures kept == Extracted(State(), Cfg(), log).waiters
      ensures done == Completed(State(), Cfg(), log)
    {
      hide Satisfied;
      kept, done := [], [];
      ghost var t := DurableTest(State(), Cfg(), log);
      for i := 0 to |waiters|
        invariant kept == Where(t, waiters[..i], false)
        invariant done == Where(t, waiters[..i], true)
      {
        var yes := IsSatisfied(log, waiters[i]);
        assert waiters[..i + 1][..i] == waiters[..i];
        if yes {
          done := done + [waiters[i]];
        } else {
          kept := kept + [waiters[i]];
        }
      }
      assert waiters[..|waiters|] == waiters;
    }

    // The waiters taken out are called back with OK exactly once, here.
    method ExtractSatisfied(log: LogView) returns (done: seq<Waiter>)
      requires Valid()
      modifies this`waiters, this`pendingWaiters, this`answered
      ensures Valid()
      ensures State() == Extracted(old(State()), Cfg(), log)
      ensures done == Completed(old(State()), Cfg(), log)
      ensures answered == old(answered) + (map i | i in Ids(done) :: Acknowledged)
    {
      hide Where, DurableTest;
      WhereSplits(DurableTest(State(), Cfg(), log), waiters);
      var kept, taken := Partition(log);
      done := taken;
      answered := answered + (map i | i in Ids(done) :: Acknowledged);
      waiters, pendingWaiters := kept, |kept|;
    }

    method OnLeaderAppend(log: LogView) returns (done: seq<Waiter>)
      requires Valid()
      modifies this`highWaterMark, this`waiters, this`pendingWaiters, this`answered
      ensures Valid()
      ensures State() == Settled(old(State()), Cfg(), log)
      ensures done == Completed(old(State()), Cfg(), log)
      ensures answered == old(answered) + (map i | i in Ids(done) :: Acknowledged)
    {
      var _ := RecomputeHighWaterMark(log);
      done := ExtractSatisfied(log);
    }

    method OnFollowerProgress(log: LogView, f: BrokerId, logEnd: int, flushed: int)
      returns (mark: int, done: seq<Waiter>)
      requires Valid()
      modifies this`followers, this`highWaterMark, this`waiters, this`pendingWaiters, this`answered
      ensures Valid() && mark == highWaterMark
      ensures f !in old(followers) ==> State() == old(State()) && done == [] && answered == old(answered)
      ensures f in old(followers) ==>
                var b := Reported(old(State()), f, logEnd, flushed);
                && State() == Settled(b, Cfg(), log)
                && done == Completed(b, Cfg(), log)
                && answered == old(answered) + (map i | i in Ids(done) :: Acknowledged)
    {
      if f !in followers {
        return highWaterMark, [];
      }
      var s := followers[f];
      var newEnd := if s.logEnd < logEnd then logEnd else s.logEnd;
      var newFlushed := if s.flushed < flushed then flushed else s.flushed;
      s := s.(logEnd := newEnd, flushed := newFlushed);
      if !s.inSync {
        s := s.(inSync := true);
      }
      followers := followers[f := s];
      mark := RecomputeHighWaterMark(log);
      done := ExtractSatisfied(log);
    }

    method MarkFollowerOutOfSync(log: LogView, f: BrokerId) returns (done: seq<Waiter>)
      requires Valid()
      modifies this`followers, this`highWaterMark, this`waiters, this`pendingWaiters, this`answered
      ensures Valid()
      ensures f !in old(followers) || !old(followers)[f].inSync ==>
                State() == old(State()) && done == [] && answered == old(answered)
      ensures f in old(followers) && old(followers)[f].inSync ==>
                var b := Evicted(old(State()), f);
                && State() == Settled(b, Cfg(), log)
                && done == Completed(b, Cfg(), log)
                && answered == old(answered) + (map i | i in Ids(done) :: Acknowledged)
    {
      if f !in followers || !followers[f].inSync {
        return [];
      }
      followers := followers[f := followers[f].(inSync := false)];
      var _ := RecomputeHighWaterMark(log);
      done := ExtractSatisfied(log);
    }

    method AddWaiter(log: LogView, w: Waiter) returns (done: seq<Waiter>)
      requires Valid() && w.id !in added
      modifies this`waiters, this`pendingWaiters, this`added, this`answered
      ensures Valid() && added == old(added) + {w.id}
      ensures var b := old(State()).(waiters := old(waiters) + [w]);
              && State() == Extracted(b, Cfg(), log)
              && done == Completed(b, Cfg(), log)
              && answered == old(answered) + (map i | i in Ids(done) :: Acknowledged)
    {
      IdsSnoc(waiters, w);
      waiters := waiters + [w];
      added := added + {w.id};
      pendingWaiters := |waiters|;
      done := ExtractSatisfied(log);
    }

    method CompleteSatisfiedWaiters(log: LogView) returns (done: seq<Waiter>)
      requires Valid()
      modifies this`highWaterMark, this`waiters, this`pendingWaiters, this`answered
      ensures Valid()
      ensures State() == Settled(old(State()), Cfg(), log)
      ensures done == Completed(old(State()), Cfg(), log)
      ensures answered == old(answered) + (map i | i in Ids(done) :: Acknowledged)
    {
      var _ := RecomputeHighWaterMark(log);
      done := ExtractSatisfied(log);
    }

    method ExpireWaiters(now: int) returns (expired: seq<Waiter>)
      requires Valid()
      modifies this`waiters, this`pendingWaiters, this`answered
      ensures Valid()
      ensures waiters == Where(Overdue(now), old(waiters), false)
      ensures expired == Where(Overdue(now), old(waiters), true)
      ensures answered == old(answered) + (map i | i in Ids(expired) :: TimedOut)
      ensures forall w :: w in expired <==> w in old(waiters) && w.deadline <= now
      ensures forall w :: w in waiters <==> w in old(waiters) && w.deadline > now
    {
      var kept: seq<Waiter> := [];
      expired := [];
      for i := 0 to |waiters|
        invariant waiters == old(waiters)
        invariant kept == Where(Overdue(now), waiters[..i], false)
        invariant expired == Where(Overdue(now), waiters[..i], true)
      {
        assert waiters[..i + 1][..i] == waiters[..i];
        if waiters[i].deadline > now {
          kept := kept + [waiters[i]];
        } else {
          expired := expired + [waiters[i]];
        }
      }
      assert waiters[..|waiters|] == waiters;
      WhereSplits(Overdue(now), waiters);
      WhereMeans(Overdue(now), waiters, true);
      WhereMeans(Overdue(now), waiters, false);
      answered := answered + (map i | i in Ids(expired) :: TimedOut);
      waiters, pendingWaiters := kept, |kept|;
    }

    method FailAllWaiters() returns (failed: seq<Waiter>)
      requires Valid()
      modifies this`waiters, this`pendingWaiters, this`answered
      ensures Valid() && waiters == [] && failed == old(waiters)
      ensures answered == old(answered) + (map i | i in Ids(failed) :: Failed)
    {
      failed := waiters;
      answered := answered + (map i | i in Ids(failed) :: Failed);
      waiters, pendingWaiters := [], 0;
    }
  }
}
