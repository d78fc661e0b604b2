/**
 One replicated partition as a step system: a leader that never restarts, any
 number of followers, and a network that may delay, repeat, reorder or drop
 every Replicate request and response.
 */
module Replication {
  import opened Bytes
  import opened PartitionReplica

  type Record = seq<byte>

  /** A follower's log; the first `flushed` records are on media. */
  datatype Node = Node(log: seq<Record>, flushed: nat)

  datatype Message =
    | Request(to: BrokerId, base: nat, records: seq<Record>)
    | Response(from: BrokerId, logEnd: nat, flushed: nat)

  /**
   `net` holds every message ever sent: a message in it may be delivered any
   number of times, in any order, or never. `acked` and `shrunk` are history:
   the quorum waiters answered OK, and the followers that have lost records.
   */
  datatype System = System(
    leader: BrokerId,
    log: seq<Record>,
    start: nat,
    flushed: nat,
    book: Book,
    nodes: map<BrokerId, Node>,
    net: set<Message>,
    acked: set<Waiter>,
    shrunk: set<BrokerId>)

  function Replicas(s: System): set<BrokerId> {
    s.nodes.Keys + {s.leader}
  }

  ghost function Cfg(s: System): Config {
    Config(|Replicas(s)|, true)
  }

  ghost function View(s: System): LogView {
    LogView(|s.log|, s.flushed)
  }

  // ------------------------------------------------------------------ steps

  datatype Step =
    | Append(records: seq<Record>)                // AppendAssigningOffsets
    | Flush(upTo: nat)                            // leader's flusher
    | Retain(upTo: nat)                           // leader's retention
    | Settle                                      // OnLeaderAppend, sweep
    | Wait(waiter: Waiter)                        // AddWaiter
    | DropWaiters(kept: seq<Waiter>)              // expiry, shutdown
    | Evict(f: BrokerId)                          // MarkFollowerOutOfSync
    | Send(f: BrokerId, count: nat)               // SendPending
    | Progress(reply: Message)                    // response reaches the leader
    | Deliver(request: Message)                   // request reaches a follower
    | FollowerFlush(f: BrokerId, upTo: nat)
    | FollowerCrash(f: BrokerId, survive: nat)

  // Completed quorum waiters enter the history.
  ghost function Answered(s: System, before: Book): set<Waiter> {
    s.acked + set w | w in Completed(before, Cfg(s), View(s)) && w.mode == AckQuorum
  }

  // Run RecomputeHighWaterMark and ExtractSatisfied on a changed book.
  ghost function Settling(s: System, before: Book): System {
    s.(book := Settled(before, Cfg(s), View(s)), acked := Answered(s, before))
  }

  // The request SendPending builds for f, or none when f is caught up and durable.
  ghost predicate Sends(s: System, f: BrokerId, count: nat, m: Message) {
    f in s.book.followers && m.Request? && m.to == f
    && var p := s.book.followers[f];
       var base := Max(p.logEnd, s.start);
       m.base == base
       && if base < |s.log| then
            count > 0 && base + count <= |s.log| && m.records == s.log[base..base + count]
          else
            p.flushed < |s.log| && m.records == []
  }

  // ExecuteReplicate: append only at the log end, report the position always.
  function Handle(n: Node, m: Message): Node
    requires m.Request?
  {
    if m.records != [] && m.base == |n.log| then n.(log := n.log + m.records) else n
  }

  ghost predicate Next(s: System, step: Step, t: System) {
    match step
    case Append(records) => t == s.(log := s.log + records)
    case Flush(upTo) => s.flushed <= upTo <= |s.log| && t == s.(flushed := upTo)
    case Retain(upTo) => s.start <= upTo <= |s.log| && t == s.(start := upTo)
    case Settle => t == Settling(s, s.book)
    case Wait(w) =>
      w.required < |s.log|
      && var b := s.book.(waiters := s.book.waiters + [w]);
         t == s.(book := Extracted(b, Cfg(s), View(s)), acked := Answered(s, b))
    case DropWaiters(kept) =>
      (forall w :: w in kept ==> w in s.book.waiters)
      && t == s.(book := s.book.(waiters := kept))
    case Evict(f) => f in s.book.followers && s.book.followers[f].inSync && t == Settling(s, Evicted(s.book, f))
    case Send(f, count) => exists m :: Sends(s, f, count, m) && t == s.(net := s.net + {m})
    case Progress(m) =>
      m in s.net && m.Response? && m.from in s.book.followers
      && t == Settling(s, Reported(s.book, m.from, m.logEnd, m.flushed))
    case Deliver(m) =>
      m in s.net && m.Request? && m.to in s.nodes
      && var n := Handle(s.nodes[m.to], m);
         t == s.(nodes := s.nodes[m.to := n], net := s.net + {Response(m.to, |n.log|, n.flushed)})
    case FollowerFlush(f, upTo) =>
      f in s.nodes && s.nodes[f].flushed <= upTo <= |s.nodes[f].log|
      && t == s.(nodes := s.nodes[f := s.nodes[f].(flushed := upTo)])
    case FollowerCrash(f, survive) =>
      // Everything flushed survives, and what survives is on media.
      f in s.nodes && s.nodes[f].flushed <= survive <= |s.nodes[f].log|
      && t == s.(nodes := s.nodes[f := Node(s.nodes[f].log[..survive], survive)],
                 shrunk := if survive < |s.nodes[f].log| then s.shrunk + {f} else s.shrunk)
  }

  ghost predicate Init(s: System) {
    && s.leader !in s.nodes
    && s.start <= |s.log| && s.flushed <= |s.log|
    && (forall f :: f in s.nodes ==> s.nodes[f].log <= s.log && s.nodes[f].flushed <= |s.nodes[f].log|)
    && s.book == Book(map f | f in s.nodes :: FollowerState(0, 0, true), [],
                      if s.nodes.Keys == {} then |s.log| else 0)
    && s.net == {} && s.acked == {} && s.shrunk == {}
  }

  // A finite run: states linked by steps.
  ghost predicate Run(states: seq<System>, steps: seq<Step>) {
    |states| == |steps| + 1 && Init(states[0])
    && forall i :: 0 <= i < |steps| ==> Next(states[i], steps[i], states[i + 1])
  }

  // -------------------------------------------------------------- invariant

  ghost predicate MessageOk(s: System, m: Message) {
    match m
    case Request(to, base, records) =>
      base + |records| <= |s.log| && records == s.log[base..base + |records|]
    case Response(from, logEnd, flushed) =>
      from in s.nodes && ReportOk(s, from, logEnd, flushed)
  }

  // A report is a past truth about a follower.
  ghost predicate ReportOk(s: System, f: BrokerId, logEnd: int, flushed: int)
    requires f in s.nodes
  {
    && flushed <= s.nodes[f].flushed
    && logEnd <= |s.log|
    && (f !in s.shrunk ==> logEnd <= |s.nodes[f].log|)
  }

  ghost predicate NodesOk(s: System) {
    forall f :: f in s.nodes ==> s.nodes[f].log <= s.log && s.nodes[f].flushed <= |s.nodes[f].log|
  }

  ghost predicate BookOk(s: System) {
    && s.book.followers.Keys == s.nodes.Keys
    && (forall f :: f in s.nodes ==>
          ReportOk(s, f, s.book.followers[f].logEnd, s.book.followers[f].flushed))
    && (forall f :: f in s.nodes ==> s.book.followers[f].logEnd >= 0)
    && (forall w :: w in s.book.waiters ==> w.required < |s.log|)
    && s.book.highWaterMark <= |s.log|
  }

  // The replicas that have flushed past an offset.
  ghost function FlushedPast(s: System, offset: int): set<BrokerId> {
    set b | b in Replicas(s) && FlushedOf(s, b) > offset
  }

  ghost function FlushedOf(s: System, b: BrokerId): nat
    requires b in Replicas(s)
  {
    if b == s.leader then s.flushed else s.nodes[b].flushed
  }

  ghost function LogOf(s: System, b: BrokerId): seq<Record>
    requires b in Replicas(s)
  {
    if b == s.leader then s.log else s.nodes[b].log
  }

  ghost predicate AckedOk(s: System) {
    forall w :: w in s.acked ==>
      w.required < |s.log| && |FlushedPast(s, w.required)| >= QuorumSize(|Replicas(s)|)
  }

  ghost predicate Inv(s: System) {
    && s.leader !in s.nodes
    && s.start <= |s.log| && s.flushed <= |s.log|
    && NodesOk(s)
    && (forall m :: m in s.net ==> MessageOk(s, m))
    && BookOk(s)
    && AckedOk(s)
  }

  // What no step ever takes back.
  ghost predicate Grows(s: System, t: System) {
    && t.leader == s.leader && t.nodes.Keys == s.nodes.Keys
    && s.log <= t.log && s.flushed <= t.flushed
    && (forall f :: f in s.nodes ==> s.nodes[f].flushed <= t.nodes[f].flushed)
    && s.net <= t.net && s.acked <= t.acked && s.shrunk <= t.shrunk
    && (forall f :: f in s.nodes && f !in t.shrunk ==> |s.nodes[f].log| <= |t.nodes[f].log|)
    && s.book.highWaterMark <= t.book.highWaterMark
  }

  // ------------------------------------------------------------ preservation

  lemma SettlingGrows(s: System, b: Book)
    requires b.highWaterMark == s.book.highWaterMark
    ensures Grows(s, Settling(s, b))
  {
  }

  // Steps that touch a follower, the log or the network, not the book.
  ghost predicate OutsideBook(step: Step) {
    step.Append? || step.Flush? || step.Retain? || step.Send? || step.Deliver? || step.FollowerFlush? || step.FollowerCrash?
  }

  lemma OutsideGrows(s: System, step: Step, t: System)
    requires OutsideBook(step) && Next(s, step, t)
    ensures Grows(s, t) && t.book == s.book && t.acked == s.acked
  {
    hide Sends;
  }

  // Every step only grows what Grows lists.
  lemma StepGrows(s: System, step: Step, t: System)
    requires Next(s, step, t)
    ensures Grows(s, t)
  {
    if OutsideBook(step) {
      OutsideGrows(s, step, t);
    } else {
      hide Grows, Settling;
      match step
      case Settle => SettlingGrows(s, s.book);
      case Evict(f) => SettlingGrows(s, Evicted(s.book, f));
      case Progress(m) => SettlingGrows(s, Reported(s.book, m.from, m.logEnd, m.flushed));
      case Wait(w) => WaiterGrows(s, t);
      case DropWaiters(kept) => WaiterGrows(s, t);
    }
  }

  lemma WaiterGrows(s: System, t: System)
    requires t == s.(book := t.book, acked := t.acked) && s.acked <= t.acked
    requires t.book.highWaterMark == s.book.highWaterMark
    ensures Grows(s, t)
  {
  }

  // Truths of the past stay truths when the system grows.
  lemma GrownMessages(s: System, t: System, m: Message)
    requires Grows(s, t) && MessageOk(s, m)
    ensures MessageOk(t, m)
  {
  }

  lemma GrownReports(s: System, t: System)
    requires Grows(s, t) && BookOk(s) && t.book.followers == s.book.followers
    requires t.book.waiters == s.book.waiters
    requires t.book.highWaterMark == s.book.highWaterMark
    ensures BookOk(t)
  {
  }

  lemma GrownQuorum(s: System, t: System, offset: int)
    requires Inv(s) && Grows(s, t)
    ensures FlushedPast(s, offset) <= FlushedPast(t, offset)
    ensures |FlushedPast(s, offset)| <= |FlushedPast(t, offset)|
    ensures Replicas(t) == Replicas(s)
  {
    SubsetSize(FlushedPast(s, offset), FlushedPast(t, offset));
  }

  lemma {:induction false} SubsetSize<T>(a: set<T>, b: set<T>)
    requires a <= b
    ensures |a| <= |b|
    decreases |a|
  {
    if a != {} {
      var x :| x in a;
      SubsetSize(a - {x}, b - {x});
    }
  }

  lemma GrownAcks(s: System, t: System)
    requires Inv(s) && Grows(s, t) && t.acked == s.acked
    ensures AckedOk(t)
  {
    forall w | w in t.acked
      ensures w.required < |t.log| && |FlushedPast(t, w.required)| >= QuorumSize(|Replicas(t)|)
    {
      GrownQuorum(s, t, w.required);
    }
  }

  // The count a quorum waiter is judged by never exceeds the true one.
  lemma CountIsSound(s: System, fs: Followers, offset: int)
    requires s.leader !in s.nodes && fs.Keys == s.nodes.Keys
    requires forall f :: f in s.nodes ==> fs[f].flushed <= s.nodes[f].flushed
    ensures (if s.flushed > offset then 1 else 0) + |PersistedFollowers(fs, offset)| <= |FlushedPast(s, offset)|
  {
    var p := PersistedFollowers(fs, offset);
    var q := if s.flushed > offset then p + {s.leader} else p;
    forall b | b in q ensures b in FlushedPast(s, offset) {
      assert b in Replicas(s) && FlushedOf(s, b) > offset;
    }
    SubsetSize(q, FlushedPast(s, offset));
  }

  lemma CompletionIsSound(s: System, b: Book, w: Waiter)
    requires s.leader !in s.nodes && b.followers.Keys == s.nodes.Keys
    requires forall f :: f in s.nodes ==> b.followers[f].flushed <= s.nodes[f].flushed
    requires w in Completed(b, Cfg(s), View(s)) && w.mode == AckQuorum
    ensures w in b.waiters
    ensures |FlushedPast(s, w.required)| >= QuorumSize(|Replicas(s)|)
  {
    WhereMeans(DurableTest(b, Cfg(s), View(s)), b.waiters, true);
    CountIsSound(s, b.followers, w.required);
  }

  // Everything but the book of a settled system.
  ghost predicate Rest(s: System) {
    && s.leader !in s.nodes
    && s.start <= |s.log| && s.flushed <= |s.log|
    && NodesOk(s)
    && (forall m :: m in s.net ==> MessageOk(s, m))
    && AckedOk(s)
  }

  lemma NewAcks(s: System, b: Book)
    requires Rest(s) && BookOk(s.(book := b))
    ensures forall w :: w in Answered(s, b) ==>
              w.required < |s.log| && |FlushedPast(s, w.required)| >= QuorumSize(|Replicas(s)|)
  {
    forall w | w in Answered(s, b)
      ensures w.required < |s.log| && |FlushedPast(s, w.required)| >= QuorumSize(|Replicas(s)|)
    {
      if w !in s.acked {
        CompletionIsSound(s, b, w);
      }
    }
  }

  // Extraction keeps a good book good.
  lemma ExtractedBookOk(s: System, b: Book)
    requires BookOk(s.(book := b))
    ensures BookOk(s.(book := Extracted(b, Cfg(s), View(s))))
  {
    WhereMeans(DurableTest(b, Cfg(s), View(s)), b.waiters, false);
  }

  lemma SettlingInv(s: System, b: Book)
    requires Rest(s) && BookOk(s.(book := b))
    ensures Inv(Settling(s, b))
  {
    var c := Recomputed(b, Cfg(s), View(s));
    NewAcks(s, b);
    ExtractedBookOk(s, c);
    SameBookParts(s, Settling(s, b));
  }

  // The parts of the invariant outside the book and the history ignore both.
  lemma SameBookParts(s: System, t: System)
    requires Rest(s) && t == s.(book := t.book, acked := t.acked)
    ensures NodesOk(t) && forall m :: m in t.net ==> MessageOk(t, m)
    ensures forall i :: FlushedPast(t, i) == FlushedPast(s, i)
    ensures Replicas(t) == Replicas(s)
  {
    assert forall m :: m in s.net ==> MessageOk(s, m) && MessageOk(t, m);
    forall i ensures FlushedPast(t, i) == FlushedPast(s, i) {
    }
  }

  lemma FreshMessage(s: System, step: Step, t: System, m: Message)
    requires Inv(s) && OutsideBook(step) && Next(s, step, t) && m in t.net - s.net
    ensures MessageOk(t, m)
  {
    if step.Deliver? {
      assert MessageOk(s, step.request);
    }
  }

  lemma OutsideNodes(s: System, step: Step, t: System)
    requires Inv(s) && OutsideBook(step) && Next(s, step, t)
    ensures NodesOk(t)
  {
    hide Sends, BookOk, AckedOk;
    if step.Deliver? {
      assert MessageOk(s, step.request);
    }
  }

  lemma OutsideInv(s: System, step: Step, t: System)
    requires Inv(s) && OutsideBook(step) && Next(s, step, t)
    ensures Inv(t)
  {
    hide Next, Grows, NodesOk, MessageOk, BookOk, AckedOk;
    OutsideGrows(s, step, t);
    OutsideNodes(s, step, t);
    OutsidePositions(s, step, t);
    GrownAcks(s, t);
    GrownReports(s, t);
    forall m | m in t.net ensures MessageOk(t, m) {
      if m in s.net {
        GrownMessages(s, t, m);
      } else {
        FreshMessage(s, step, t, m);
      }
    }
  }

  lemma OutsidePositions(s: System, step: Step, t: System)
    requires Inv(s) && OutsideBook(step) && Next(s, step, t)
    ensures t.leader !in t.nodes && t.start <= |t.log| && t.flushed <= |t.log|
  {
  }

  lemma WaitInv(s: System, w: Waiter, t: System)
    requires Inv(s) && Next(s, Wait(w), t)
    ensures Inv(t)
  {
    var b := s.book.(waiters := s.book.waiters + [w]);
    assert BookOk(s.(book := b));
    NewAcks(s, b);
    ExtractedBookOk(s, b);
    SameBookParts(s, t);
  }

  lemma ReportedBookOk(s: System, m: Message)
    requires Inv(s) && m in s.net && m.Response?
    ensures m.from in s.book.followers
    ensures BookOk(s.(book := Reported(s.book, m.from, m.logEnd, m.flushed)))
  {
    assert MessageOk(s, m);
  }

  lemma EvictedBookOk(s: System, f: BrokerId)
    requires Inv(s) && f in s.book.followers
    ensures BookOk(s.(book := Evicted(s.book, f)))
  {
  }

  lemma DroppedInv(s: System, kept: seq<Waiter>, t: System)
    requires Inv(s) && Next(s, DropWaiters(kept), t)
    ensures Inv(t)
  {
    SameBookParts(s, t);
  }

  lemma InvStep(s: System, step: Step, t: System)
    requires Inv(s) && Next(s, step, t)
    ensures Inv(t)
  {
    if OutsideBook(step) {
      OutsideInv(s, step, t);
    } else {
      hide BookOk, AckedOk, NodesOk, MessageOk, Settling, Extracted, Reported, Evicted;
      match step
      case Settle => SettlingInv(s, s.book);
      case Wait(w) => WaitInv(s, w, t);
      case Evict(f) =>
        EvictedBookOk(s, f);
        SettlingInv(s, Evicted(s.book, f));
      case Progress(m) =>
        ReportedBookOk(s, m);
        SettlingInv(s, Reported(s.book, m.from, m.logEnd, m.flushed));
      case DropWaiters(kept) => DroppedInv(s, kept, t);
    }
  }

  lemma InitInv(s: System)
    requires Init(s)
    ensures Inv(s)
  {
  }

  // --------------------------------------------------------- theorems on runs

  lemma {:induction false} RunInv(states: seq<System>, steps: seq<Step>, k: nat)
    requires Run(states, steps) && k < |states|
    ensures Inv(states[k])
  {
    hide Next, Init, Inv;
    if k == 0 {
      InitInv(states[0]);
    } else {
      RunInv(states, steps, k - 1);
      InvStep(states[k - 1], steps[k - 1], states[k]);
    }
  }

  lemma GrowsTransitive(a: System, b: System, c: System)
    requires Grows(a, b) && Grows(b, c)
    ensures Grows(a, c)
  {
  }

  lemma GrowsReflexive(a: System)
    ensures Grows(a, a)
  {
  }

  lemma {:induction false} RunGrows(states: seq<System>, steps: seq<Step>, j: nat, k: nat)
    requires Run(states, steps) && j <= k < |states|
    ensures Grows(states[j], states[k])
    decreases k - j
  {
    hide Next, Init, Grows;
    if j == k {
      GrowsReflexive(states[j]);
    } else {
      RunGrows(states, steps, j, k - 1);
      StepGrows(states[k - 1], steps[k - 1], states[k]);
      GrowsTransitive(states[j], states[k - 1], states[k]);
    }
  }

  /** In every reachable state each follower's log is a prefix of the leader's. */
  lemma LogMatching(states: seq<System>, steps: seq<Step>, k: nat, f: BrokerId)
    requires Run(states, steps) && k < |states| && f in states[k].nodes
    ensures states[k].nodes[f].log <= states[k].log
  {
    RunInv(states, steps, k);
  }

  // The replicas that hold record r at offset i on media.
  ghost function Holders(s: System, i: nat, r: Record): set<BrokerId> {
    set b | b in Replicas(s) && i < FlushedOf(s, b) && i < |LogOf(s, b)| && LogOf(s, b)[i] == r
  }

  /**
   Once a quorum waiter has been answered OK, every record up to its offset is
   on media, identical to the leader's, on a majority of the replicas, in that
   state and in every later one.
   */
  lemma QuorumDurability(states: seq<System>, steps: seq<Step>, j: nat, k: nat, w: Waiter, i: nat)
    requires Run(states, steps) && j <= k < |states|
    requires w in states[j].acked && i <= w.required
    ensures i < |states[j].log| && states[j].log <= states[k].log
    ensures Replicas(states[k]) == Replicas(states[0])
    ensures |Holders(states[k], i, states[j].log[i])| >= QuorumSize(|Replicas(states[0])|)
  {
    hide Run, Inv, Grows, Holders;
    SameLength(states, steps);
    RunInv(states, steps, j);
    RunInv(states, steps, k);
    RunGrows(states, steps, 0, k);
    RunGrows(states, steps, j, k);
    HeldByQuorum(states[0], states[j], states[k], w, i);
  }

  lemma SameLength(states: seq<System>, steps: seq<Step>)
    requires Run(states, steps)
    ensures |states| == |steps| + 1
  {
  }

  lemma HeldByQuorum(first: System, s: System, t: System, w: Waiter, i: nat)
    requires Inv(s) && Inv(t) && Grows(first, t) && Grows(s, t) && w in s.acked && i <= w.required
    ensures i < |s.log| && s.log <= t.log && Replicas(t) == Replicas(first)
    ensures |Holders(t, i, s.log[i])| >= QuorumSize(|Replicas(first)|)
  {
    hide MessageOk, BookOk;
    assert w in t.acked;
    var r := s.log[i];
    assert FlushedPast(t, w.required) <= Holders(t, i, r);
    SubsetSize(FlushedPast(t, w.required), Holders(t, i, r));
  }

  /** A majority survives the loss of any minority. */
  lemma MinorityLoss(s: System, i: nat, r: Record, lost: set<BrokerId>)
    requires |Holders(s, i, r)| >= QuorumSize(|Replicas(s)|)
    requires lost <= Replicas(s) && 2 * |lost| < |Replicas(s)|
    ensures exists b :: b in Holders(s, i, r) && b !in lost
  {
    if Holders(s, i, r) <= lost {
      SubsetSize(Holders(s, i, r), lost);
    }
  }

  // Every in-sync follower has reported the mark and, if whole, holds it.
  ghost predicate MarkBacked(t: System) {
    var mark := t.book.highWaterMark;
    && 0 <= mark <= |t.log| && t.book.followers.Keys == t.nodes.Keys
    && forall f :: f in t.nodes && t.book.followers[f].inSync ==>
         && t.book.followers[f].logEnd >= mark
         && (f !in t.shrunk ==> mark <= |t.nodes[f].log| && t.nodes[f].log[..mark] == t.log[..mark])
  }

  /**
   The high-water mark never falls and never passes the log end; when a step
   raises it, every follower then in sync has reported that far and, unless it
   has lost records, holds exactly the leader's records below the mark.
   */
  lemma HighWaterMarkSafety(states: seq<System>, steps: seq<Step>, k: nat)
    requires Run(states, steps) && k < |steps|
    ensures states[k].book.highWaterMark <= states[k + 1].book.highWaterMark <= |states[k + 1].log|
    ensures states[k + 1].book.highWaterMark > states[k].book.highWaterMark ==> MarkBacked(states[k + 1])
  {
    hide Run, Inv, Grows, MarkBacked;
    StepOfRun(states, steps, k);
    RunInv(states, steps, k + 1);
    RunGrows(states, steps, k, k + 1);
    RunGrows(states, steps, 0, k);
    StepMark(states[0], states[k], steps[k], states[k + 1]);
  }

  lemma StepOfRun(states: seq<System>, steps: seq<Step>, k: nat)
    requires Run(states, steps) && k < |steps|
    ensures |states| == |steps| + 1 && Next(states[k], steps[k], states[k + 1]) && 0 <= states[0].book.highWaterMark
  {
    hide Next;
  }

  lemma StepMark(first: System, s: System, step: Step, t: System)
    requires 0 <= first.book.highWaterMark && Grows(first, s) && Grows(s, t) && Inv(t) && Next(s, step, t)
    ensures s.book.highWaterMark <= t.book.highWaterMark <= |t.log|
    ensures t.book.highWaterMark > s.book.highWaterMark ==> MarkBacked(t)
  {
    hide Next, AckedOk, MessageOk;
    if t.book.highWaterMark > s.book.highWaterMark {
      MarkRises(s, step, t);
    }
  }

  lemma MarkRises(s: System, step: Step, t: System)
    requires Next(s, step, t) && t.book.highWaterMark > s.book.highWaterMark
    ensures IsWatermark(t.book.followers, |t.log|, t.book.highWaterMark)
  {
    hide IsWatermark, Where;
  }
}