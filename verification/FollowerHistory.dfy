/**
 What the leader knows about its followers, told from the history alone: the
 reports that reached it and the evictions it made, step by step.
 */
module FollowerHistory {

  import opened PartitionReplica
  import opened Replication

  // ---------------------------------------------------------------- the history

  predicate Reports(step: Step, f: BrokerId) {
    step.Progress? && step.reply.Response? && step.reply.from == f
  }

  /** The last the leader heard of f, or did about it, is an eviction. */
  ghost predicate LastEvicted(steps: seq<Step>, f: BrokerId) {
    exists i :: 0 <= i < |steps| && steps[i] == Evict(f) && forall j :: i < j < |steps| ==> !Reports(steps[j], f)
  }

  ghost predicate ReportedEnd(steps: seq<Step>, f: BrokerId, n: int) {
    exists i :: 0 <= i < |steps| && Reports(steps[i], f) && steps[i].reply.logEnd >= n
  }

  ghost predicate ReportedFlushed(steps: seq<Step>, f: BrokerId, n: int) {
    exists i :: 0 <= i < |steps| && Reports(steps[i], f) && steps[i].reply.flushed >= n
  }

  /** In sync unless evicted since; each position the greatest one reported, or zero. */
  ghost predicate Tracks(steps: seq<Step>, f: BrokerId, p: FollowerState) {
    && (p.inSync <==> !LastEvicted(steps, f))
    && p.logEnd >= 0 && p.flushed >= 0
    && (forall n :: n > 0 ==> (ReportedEnd(steps, f, n) <==> n <= p.logEnd))
    && (forall n :: n > 0 ==> (ReportedFlushed(steps, f, n) <==> n <= p.flushed))
  }

  // ------------------------------------------------------- one step of the book

  ghost function After(p: FollowerState, step: Step, f: BrokerId): FollowerState {
    if Reports(step, f) then FollowerState(Max(p.logEnd, step.reply.logEnd), Max(p.flushed, step.reply.flushed), true)
    else if step == Evict(f) then p.(inSync := false)
    else p
  }

  lemma BookStep(s: System, step: Step, t: System, f: BrokerId)
    requires Next(s, step, t) && f in s.book.followers
    ensures f in t.book.followers && t.book.followers[f] == After(s.book.followers[f], step, f)
  {
    hide Where, Watermark, Sends, Handle, Grows;
    if OutsideBook(step) {
      OutsideGrows(s, step, t);
    } else if Settles(step) {
      JudgedStep(s, step, t);
    }
  }

  lemma TracksStep(steps: seq<Step>, f: BrokerId, p: FollowerState, step: Step)
    requires Tracks(steps, f, p)
    ensures Tracks(steps + [step], f, After(p, step, f))
  {
    hide LastEvicted, ReportedEnd, ReportedFlushed;
    EvictedStep(steps, f, step);
    forall n
      ensures ReportedEnd(steps + [step], f, n) <==> ReportedEnd(steps, f, n) || (Reports(step, f) && step.reply.logEnd >= n)
      ensures ReportedFlushed(steps + [step], f, n) <==>
              ReportedFlushed(steps, f, n) || (Reports(step, f) && step.reply.flushed >= n)
    {
      ReportedStep(steps, f, step, n);
    }
  }

  lemma EvictedStep(steps: seq<Step>, f: BrokerId, step: Step)
    ensures LastEvicted(steps + [step], f) <==> step == Evict(f) || (LastEvicted(steps, f) && !Reports(step, f))
  {
    var more := steps + [step];
    if step == Evict(f) {
      assert more[|steps|] == Evict(f);
    } else if LastEvicted(steps, f) && !Reports(step, f) {
      var i :| 0 <= i < |steps| && steps[i] == Evict(f) && forall j :: i < j < |steps| ==> !Reports(steps[j], f);
      assert more[i] == Evict(f);
      forall j | i < j < |more| ensures !Reports(more[j], f) {
        assert j < |steps| ==> more[j] == steps[j];
      }
    } else if LastEvicted(more, f) {
      var i :| 0 <= i < |more| && more[i] == Evict(f) && forall j :: i < j < |more| ==> !Reports(more[j], f);
      assert steps[i] == Evict(f) && more[|steps|] == step;
      forall j | i < j < |steps| ensures !Reports(steps[j], f) {
        assert more[j] == steps[j];
      }
    }
  }

  lemma ReportedStep(steps: seq<Step>, f: BrokerId, step: Step, n: int)
    ensures ReportedEnd(steps + [step], f, n) <==> ReportedEnd(steps, f, n) || (Reports(step, f) && step.reply.logEnd >= n)
    ensures ReportedFlushed(steps + [step], f, n) <==>
            ReportedFlushed(steps, f, n) || (Reports(step, f) && step.reply.flushed >= n)
  {
    var more := steps + [step];
    assert more[|steps|] == step;
    assert forall i :: 0 <= i < |steps| ==> more[i] == steps[i];
  }

  // -------------------------------------------------------- theorems on runs

  /**
   In every reachable state a follower is in sync exactly when the last the
   leader heard of it came after its last eviction, and the positions recorded
   for it are the greatest it ever reported, or zero.
   */
  lemma {:induction false} RecordIsHistory(states: seq<System>, steps: seq<Step>, k: nat, f: BrokerId)
    requires Run(states, steps) && k < |states| && f in states[0].nodes
    ensures f in states[k].book.followers && k <= |steps| && Tracks(steps[..k], f, states[k].book.followers[f])
  {
    hide Next, Tracks;
    if k == 0 {
      FreshRecord(f);
    } else {
      RecordIsHistory(states, steps, k - 1, f);
      BookStep(states[k - 1], steps[k - 1], states[k], f);
      TracksStep(steps[..k - 1], f, states[k - 1].book.followers[f], steps[k - 1]);
      assert steps[..k] == steps[..k - 1] + [steps[k - 1]];
    }
  }

  lemma FreshRecord(f: BrokerId)
    ensures Tracks([], f, FollowerState(0, 0, true))
  {
  }

  /** The followers heard of since any eviction that have reported record `offset` as flushed. */
  ghost function Confirmed(s: System, steps: seq<Step>, offset: int): set<BrokerId> {
    set f | f in s.nodes && !LastEvicted(steps, f) && (offset < 0 || ReportedFlushed(steps, f, offset + 1))
  }

  predicate Settles(step: Step) {
    step.Settle? || step.Evict? || step.Progress? || step.Wait?
  }

  lemma ConfirmedCounts(s: System, steps: seq<Step>, offset: int)
    requires s.book.followers.Keys == s.nodes.Keys
    requires forall f :: f in s.nodes ==> Tracks(steps, f, s.book.followers[f])
    ensures PersistedFollowers(s.book.followers, offset) == Confirmed(s, steps, offset)
  {
    hide LastEvicted, ReportedEnd, ReportedFlushed;
    forall f | f in s.nodes
      ensures f in PersistedFollowers(s.book.followers, offset) <==> f in Confirmed(s, steps, offset)
    {
      assert Tracks(steps, f, s.book.followers[f]);
    }
  }

  // The book a step leaves to be judged: who waits, and what the followers have said.
  ghost function Judged(s: System, step: Step): Book
    requires step.Evict? ==> step.f in s.book.followers
    requires step.Progress? ==> step.reply.Response? && step.reply.from in s.book.followers
  {
    match step
    case Wait(w) => s.book.(waiters := s.book.waiters + [w])
    case Evict(f) => Evicted(s.book, f)
    case Progress(m) => Reported(s.book, m.from, m.logEnd, m.flushed)
    case _ => s.book
  }

  lemma JudgedStep(s: System, step: Step, t: System)
    requires Next(s, step, t) && Settles(step)
    ensures step.Evict? ==> step.f in s.book.followers
    ensures step.Progress? ==> step.reply.Response? && step.reply.from in s.book.followers
    ensures var b := Judged(s, step);
      && t == s.(book := t.book, acked := Answered(s, b)) && t.book.followers == b.followers
      && t.book.waiters == Where(DurableTest(b, Cfg(s), View(s)), b.waiters, false)
      && forall w :: w in s.book.waiters || step == Wait(w) ==> w in b.waiters
  {
    hide Where, Watermark, Sends, Handle, Answered;
  }

  // What a settling step keeps waiting, from the followers as they then are.
  lemma SettledWaiters(s: System, step: Step, t: System, w: Waiter)
    requires Next(s, step, t) && Settles(step) && (w in s.book.waiters || step == Wait(w)) && w.mode == AckQuorum
    ensures w in t.book.waiters <==>
            (if s.flushed > w.required then 1 else 0) + |PersistedFollowers(t.book.followers, w.required)| < QuorumSize(|Replicas(s)|)
    ensures w !in t.book.waiters ==> w in t.acked
    ensures t.flushed == s.flushed && t.nodes == s.nodes && t.leader == s.leader && t.log == s.log
  {
    hide Where, Next, Judged, PersistedFollowers, Replicas;
    JudgedStep(s, step, t);
    var b := Judged(s, step);
    WhereMeans(DurableTest(b, Cfg(s), View(s)), b.waiters, true);
    WhereMeans(DurableTest(b, Cfg(s), View(s)), b.waiters, false);
  }

  /**
   At every report, eviction, append or new waiter, a quorum waiter stays
   pending exactly when the leader's own flush and the followers confirmed by
   the history up to then are no majority; otherwise it is answered there.
   */
  lemma AnsweredExactly(states: seq<System>, steps: seq<Step>, k: nat, w: Waiter)
    requires Run(states, steps) && k < |steps| && Settles(steps[k])
    requires (w in states[k].book.waiters || steps[k] == Wait(w)) && w.mode == AckQuorum
    ensures var t := states[k + 1];
      && (w in t.book.waiters <==>
            2 * ((if t.flushed > w.required then 1 else 0) + |Confirmed(t, steps[..k + 1], w.required)|) <= |Replicas(t)|)
      && (w !in t.book.waiters ==> w in t.acked)
  {
    hide Next, Inv, PersistedFollowers, Confirmed, Tracks;
    var s, t := states[k], states[k + 1];
    SettledWaiters(s, steps[k], t, w);
    RunTracks(states, steps, k + 1);
    ConfirmedCounts(t, steps[..k + 1], w.required);
  }

  lemma RunTracks(states: seq<System>, steps: seq<Step>, k: nat)
    requires Run(states, steps) && k < |states|
    ensures states[k].book.followers.Keys == states[k].nodes.Keys && k <= |steps|
    ensures forall f :: f in states[k].nodes ==> Tracks(steps[..k], f, states[k].book.followers[f])
  {
    hide Next, Tracks, MessageOk, AckedOk;
    RunInv(states, steps, k);
    RunGrows(states, steps, 0, k);
    forall f | f in states[k].nodes
      ensures Tracks(steps[..k], f, states[k].book.followers[f])
    {
      RecordIsHistory(states, steps, k, f);
    }
  }

  /** Every follower heard of since any eviction has reported its log up to x. */
  ghost predicate CommonEnd(t: System, steps: seq<Step>, x: int) {
    x <= |t.log| && forall f :: f in t.nodes && !LastEvicted(steps, f) ==> x <= 0 || ReportedEnd(steps, f, x)
  }

  /** At every report, eviction or append the mark becomes the greatest such offset, if that is higher. */
  lemma MarkFollows(states: seq<System>, steps: seq<Step>, k: nat, x: int)
    requires Run(states, steps) && k < |steps| && Settles(steps[k]) && !steps[k].Wait?
    ensures var (s, t) := (states[k], states[k + 1]);
      && (CommonEnd(t, steps[..k + 1], x) ==> x <= t.book.highWaterMark)
      && (t.book.highWaterMark == s.book.highWaterMark || CommonEnd(t, steps[..k + 1], t.book.highWaterMark))
  {
    hide Next, Inv, Tracks, CommonEnd, IsWatermark;
    var s, t := states[k], states[k + 1];
    RunTracks(states, steps, k + 1);
    SettledMark(s, steps[k], t);
    var w := Watermark(t.book.followers, |t.log|);
    CommonIff(t, steps[..k + 1], x, w);
    CommonIff(t, steps[..k + 1], w, w);
  }

  lemma SettledMark(s: System, step: Step, t: System)
    requires Next(s, step, t) && Settles(step) && !step.Wait?
    ensures t.book.highWaterMark == Max(s.book.highWaterMark, Watermark(t.book.followers, |t.log|))
  {
    hide Where, Watermark, Sends, Handle;
  }

  lemma CommonIff(t: System, steps: seq<Step>, x: int, w: int)
    requires t.book.followers.Keys == t.nodes.Keys && IsWatermark(t.book.followers, |t.log|, w)
    requires forall f :: f in t.nodes ==> Tracks(steps, f, t.book.followers[f])
    ensures CommonEnd(t, steps, x) <==> x <= w
  {
    hide LastEvicted, ReportedEnd, ReportedFlushed;
    forall f | f in t.nodes
      ensures !LastEvicted(steps, f) <==> t.book.followers[f].inSync
      ensures x <= 0 || ReportedEnd(steps, f, x) <==> x <= t.book.followers[f].logEnd
    {
      assert Tracks(steps, f, t.book.followers[f]);
    }
  }

  // ---------------------------------------------------------------- catching up

  /**
   One exchange with a follower whose recorded log end is its own: whatever
   batch is sent next, delivering it and its answer leaves the follower with
   exactly the leader's records up to there, and the leader knowing it.
   */
  lemma CatchUp(s: System, f: BrokerId, count: nat) returns (m: Message, reply: Message, t: System, u: System, v: System)
    requires Inv(s) && f in s.nodes && s.book.followers[f].logEnd == |s.nodes[f].log| >= s.start
    requires count > 0 && |s.nodes[f].log| + count <= |s.log|
    ensures Next(s, Send(f, count), t) && Next(t, Deliver(m), u) && Next(u, Progress(reply), v)
    ensures v.log == s.log && f in v.nodes && v.nodes[f].log == s.log[..|s.nodes[f].log| + count]
    ensures f in v.book.followers && v.book.followers[f].inSync && v.book.followers[f].logEnd == |v.nodes[f].log|
  {
    hide Where, Watermark, MessageOk, AckedOk;
    var n := s.nodes[f];
    var base := |n.log|;
    m := Request(f, base, s.log[base..base + count]);
    assert Sends(s, f, count, m);
    t := s.(net := s.net + {m});
    var n' := Handle(n, m);
    assert n.log == s.log[..base];
    assert n'.log == s.log[..base + count];
    reply := Response(f, |n'.log|, n'.flushed);
    u := t.(nodes := t.nodes[f := n'], net := t.net + {reply});
    v := Settling(u, Reported(u.book, f, reply.logEnd, reply.flushed));
  }

  /** A batch that is sent is appended exactly when the follower's log ends where the leader takes it to be, or at the log start. */
  lemma SentIsAppended(s: System, f: BrokerId, count: nat, m: Message)
    requires f in s.nodes && Sends(s, f, count, m) && m.records != []
    ensures Handle(s.nodes[f], m).log != s.nodes[f].log <==> |s.nodes[f].log| == Max(s.book.followers[f].logEnd, s.start)
  {
    var n := s.nodes[f];
    assert |n.log + m.records| > |n.log|;
  }

  // ------------------------------------------------------------ never catching up

  /**
   A follower whose log ends between `low` and `high` while the leader would
   send from beyond, with no batch for that stretch under way.
   */
  ghost predicate Stuck(s: System, f: BrokerId, low: nat, high: nat) {
    && f in s.nodes && f in s.book.followers
    && low <= s.nodes[f].flushed <= |s.nodes[f].log| <= high < Max(s.book.followers[f].logEnd, s.start)
    && forall m :: m in s.net && m.Request? && m.to == f && m.records != [] ==> m.base < low || m.base > high
  }

  lemma StuckStep(s: System, step: Step, t: System, f: BrokerId, low: nat, high: nat)
    requires Stuck(s, f, low, high) && Next(s, step, t)
    ensures Stuck(t, f, low, high)
  {
    hide Where, Watermark, Grows;
    BookStep(s, step, t, f);
    if Settles(step) {
      hide Next, Handle, Sends;
      JudgedStep(s, step, t);
    }
  }

  /** Once stuck, stuck for good: no step of any continuation lets that follower's log grow. */
  lemma {:induction false} NeverResumes(states: seq<System>, steps: seq<Step>, j: nat, k: nat, f: BrokerId, low: nat, high: nat)
    requires Run(states, steps) && j <= k < |states| && Stuck(states[j], f, low, high)
    ensures Stuck(states[k], f, low, high)
    decreases k - j
  {
    hide Next, Stuck;
    if j < k {
      NeverResumes(states, steps, j, k - 1, f, low, high);
      StuckStep(states[k - 1], steps[k - 1], states[k], f, low, high);
    }
  }

  const TWO: seq<Record> := [[0], [0]]

  ghost function Pair(start: nat, node: Node, f: FollowerState, mark: int, net: set<Message>, shrunk: set<BrokerId>): System {
    System(0, TWO, start, 2, Book(map[1 := f], [], mark), map[1 := node], net, {}, shrunk)
  }

  lemma PairInit(n: Node)
    requires n.log <= TWO && n.flushed <= |n.log|
    ensures Init(Pair(0, n, FollowerState(0, 0, true), 0, {}, {}))
  {
    var s := Pair(0, n, FollowerState(0, 0, true), 0, {}, {});
    assert s.book.followers == map f | f in s.nodes :: FollowerState(0, 0, true);
    assert 1 in s.nodes.Keys;
  }

  lemma SendOne(n: Node, f: FollowerState, m: Message)
    requires f == FollowerState(0, 0, true) && m == Request(1, 0, TWO[..1])
    ensures Next(Pair(0, n, f, 0, {}, {}), Send(1, 1), Pair(0, n, f, 0, {m}, {}))
  {
    var s := Pair(0, n, f, 0, {}, {});
    assert TWO[0..1] == TWO[..1] && s.net + {m} == {m};
    assert Sends(s, 1, 1, m);
  }

  lemma RefuseOne(f: FollowerState, m: Message, reply: Message)
    requires m == Request(1, 0, TWO[..1]) && reply == Response(1, 2, 1)
    ensures Next(Pair(0, Node(TWO, 1), f, 0, {m}, {}), Deliver(m), Pair(0, Node(TWO, 1), f, 0, {m, reply}, {}))
  {
    var s := Pair(0, Node(TWO, 1), f, 0, {m}, {});
    assert s.nodes[1 := Node(TWO, 1)] == s.nodes && s.net + {reply} == {m, reply};
  }

  lemma LoseOne(f: FollowerState, mark: int, net: set<Message>)
    ensures Next(Pair(0, Node(TWO, 1), f, mark, net, {}), FollowerCrash(1, 1), Pair(0, Node(TWO[..1], 1), f, mark, net, {1}))
  {
    var s := Pair(0, Node(TWO, 1), f, mark, net, {});
    assert s.nodes[1 := Node(TWO[..1], 1)] == map[1 := Node(TWO[..1], 1)] && {} + {1} == {1};
  }

  /**
   A follower that has reported two records and loses the unflushed one in a
   crash: the recorded position does not go back, whatever it reports next.
   */
  lemma LostTail() returns (states: seq<System>, steps: seq<Step>)
    ensures Run(states, steps) && |states| == 5 && |steps| == 4
    ensures states[3].nodes == map[1 := Node(TWO, 1)] && steps[3] == FollowerCrash(1, 1) && Stuck(states[4], 1, 1, 1)
  {
    hide Next, Init;
    var n, f, g := Node(TWO, 1), FollowerState(0, 0, true), FollowerState(2, 1, true);
    var m, reply := Request(1, 0, TWO[..1]), Response(1, 2, 1);
    PairInit(n);
    SendOne(n, f, m);
    RefuseOne(f, m, reply);
    var mark := ReportTwo(Pair(0, n, f, 0, {m, reply}, {}), reply);
    LoseOne(g, mark, {m, reply});
    states := [Pair(0, n, f, 0, {}, {}), Pair(0, n, f, 0, {m}, {}), Pair(0, n, f, 0, {m, reply}, {}),
               Pair(0, n, g, mark, {m, reply}, {}), Pair(0, Node(TWO[..1], 1), g, mark, {m, reply}, {1})];
    steps := [Send(1, 1), Deliver(m), Progress(reply), FollowerCrash(1, 1)];
  }

  lemma ReportTwo(s: System, reply: Message) returns (mark: int)
    requires reply == Response(1, 2, 1) && reply in s.net && s.book.followers == map[1 := FollowerState(0, 0, true)]
    requires s.book.waiters == [] && s.acked == {}
    ensures Next(s, Progress(reply), s.(book := Book(map[1 := FollowerState(2, 1, true)], [], mark)))
  {
    hide Watermark;
    var b := Reported(s.book, 1, 2, 1);
    mark := Settling(s, b).book.highWaterMark;
    assert b.followers == map[1 := FollowerState(2, 1, true)];
    assert Answered(s, b) == {};
  }

  /** A follower with nothing when retention deletes the leader's first record. */
  lemma BehindRetention() returns (states: seq<System>, steps: seq<Step>)
    ensures Run(states, steps) && |states| == 2 && steps == [Retain(1)] && Stuck(states[1], 1, 0, 0)
  {
    var n, f := Node([], 0), FollowerState(0, 0, true);
    PairInit(n);
    states, steps := [Pair(0, n, f, 0, {}, {}), Pair(1, n, f, 0, {}, {})], [Retain(1)];
  }

  // ------------------------------------------------------- the other two modes

  /** Only quorum waiters ever wait: the others are answered as soon as they are added. */
  lemma {:induction false} OnlyQuorumWaits(states: seq<System>, steps: seq<Step>, k: nat, w: Waiter)
    requires Run(states, steps) && k < |states| && w in states[k].book.waiters
    ensures w.mode == AckQuorum
    decreases k
  {
    hide Next;
    if k > 0 {
      WaitsFromStep(states[k - 1], steps[k - 1], states[k], w);
      if w in states[k - 1].book.waiters {
        OnlyQuorumWaits(states, steps, k - 1, w);
      }
    }
  }

  lemma WaitsFromStep(s: System, step: Step, t: System, w: Waiter)
    requires Next(s, step, t) && w in t.book.waiters
    ensures w in s.book.waiters || w.mode == AckQuorum
  {
    hide Where, Watermark, Sends, Handle;
    if Settles(step) {
      JudgedStep(s, step, t);
      var b := Judged(s, step);
      WhereMeans(DurableTest(b, Cfg(s), View(s)), b.waiters, false);
    }
  }
}
