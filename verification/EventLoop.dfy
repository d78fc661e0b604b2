/**
 The event loop's task queue and wakeup protocol: threads that post tasks and
 coalesce their wakeups through a flag, and the loop that polls, reads the
 wakeup descriptor, clears the flag and drains. The queue is the ticket queue
 of MpmcQueue, step by step; thread 0 is the loop.
 */
module EventLoop {

  import Q = MpmcQueue

  datatype Waker =
    | Quiet
    | Exchanging      // about to exchange wake_pending_
    | Writing         // the exchange returned false: about to write

  datatype Loop =
    | Polling
    | Reading                  // the poll reported the wakeup descriptor
    | Storing                  // descriptor emptied, flag not yet cleared
    | Draining(executed: nat)

  datatype State = State(
    queue: Q.State,
    wakers: map<Q.Thread, Waker>,
    descriptor: nat,           // unread wakeup writes
    wakePending: bool,
    loop: Loop)

  function Limit(s: State): nat {
    |s.queue.cells|
  }

  // ------------------------------------------------------------------ steps

  // PostTask: a step of TryPush; when it has published, the wakeup follows.
  ghost predicate PostStep(s: State, i: Q.Thread, t: State) {
    && i != 0 && i in s.queue.threads && i in s.wakers && s.wakers[i] == Quiet
    && Q.Next(s.queue, i, t.queue) && i in t.queue.threads && PushSide(t.queue.threads[i])
    && var published := s.queue.threads[i].PushBuilt?;
       t == s.(queue := t.queue, wakers := if published then s.wakers[i := Exchanging] else s.wakers)
  }

  predicate PushSide(pc: Q.Pc) {
    pc.Idle? || pc.PushStart? || pc.PushLoaded? || pc.PushReady? || pc.PushClaimed? || pc.PushBuilt?
  }

  predicate PopSide(pc: Q.Pc) {
    pc.Idle? || pc.PopStart? || pc.PopLoaded? || pc.PopReady? || pc.PopClaimed? || pc.PopTaken?
  }

  // Wake, from PostTask or directly from Stop.
  ghost predicate WakeStep(s: State, i: Q.Thread, t: State) {
    && i != 0 && i in s.queue.threads && i in s.wakers && s.queue.threads[i] == Q.Idle
    && match s.wakers[i]
       case Quiet => t == s.(wakers := s.wakers[i := Exchanging])
       case Exchanging =>
         t == if s.wakePending then s.(wakers := s.wakers[i := Quiet])
              else s.(wakers := s.wakers[i := Writing], wakePending := true)
       case Writing => t == s.(wakers := s.wakers[i := Quiet], descriptor := s.descriptor + 1)
  }

  // The poll may also return for a timer or another descriptor.
  ghost predicate LoopStep(s: State, t: State) {
    match s.loop
    case Polling => (s.descriptor > 0 && t == s.(loop := Reading)) || t == s.(loop := Draining(0))
    case Reading => t == s.(descriptor := 0, loop := Storing)
    case Storing => t == s.(wakePending := false, loop := Draining(0))
    case Draining(executed) =>
      if executed >= Limit(s) then t == s.(loop := Polling)
      else
        && Q.Next(s.queue, 0, t.queue) && 0 in t.queue.threads && PopSide(t.queue.threads[0])
        && var before, after := s.queue.threads[0], t.queue.threads[0];
           t == s.(queue := t.queue,
                   loop := if before.PopTaken? then Draining(executed + 1)
                           else if before.PopLoaded? && after == Q.Idle then Polling
                           else s.loop)
  }

  datatype Step = Post(i: Q.Thread) | Wake(i: Q.Thread) | Turn

  ghost predicate Next(s: State, step: Step, t: State) {
    match step
    case Post(i) => PostStep(s, i, t)
    case Wake(i) => WakeStep(s, i, t)
    case Turn => LoopStep(s, t)
  }

  ghost predicate Init(s: State, capacity: nat) {
    && Q.Init(s.queue, capacity) && 0 in s.queue.threads
    && s.wakers.Keys == s.queue.threads.Keys
    && (forall i :: i in s.wakers ==> s.wakers[i] == Quiet)
    && s.descriptor == 0 && !s.wakePending && s.loop == Polling
  }

  ghost predicate Run(states: seq<State>, steps: seq<Step>, capacity: nat) {
    |states| == |steps| + 1 && Init(states[0], capacity)
    && forall k :: 0 <= k < |steps| ==> Next(states[k], steps[k], states[k + 1])
  }

  // -------------------------------------------------------------- invariant

  // A poster that has taken a ticket and has not exchanged the flag yet.
  ghost predicate Coming(s: State, i: Q.Thread) {
    && i in s.queue.threads && i in s.wakers
    && (s.wakers[i] == Exchanging || s.queue.threads[i].PushClaimed? || s.queue.threads[i].PushBuilt?)
  }

  ghost predicate SomeComing(s: State) {
    exists i :: Coming(s, i)
  }

  ghost predicate SomeWriting(s: State) {
    exists i :: i in s.wakers && s.wakers[i] == Writing
  }

  ghost predicate Shape(s: State) {
    && Q.Inv(s.queue) && 0 in s.queue.threads && s.wakers.Keys == s.queue.threads.Keys
    && s.wakers[0] == Quiet && PopSide(s.queue.threads[0])
    && (!s.loop.Draining? ==> s.queue.threads[0] == Q.Idle)
    && (s.loop.Draining? && s.loop.executed >= Limit(s) ==> s.queue.threads[0] == Q.Idle)
    && (forall i :: i in s.wakers && i != 0 ==>
          PushSide(s.queue.threads[i]) && (s.wakers[i] != Quiet ==> s.queue.threads[i] == Q.Idle))
  }

  // A set flag stands for exactly one wakeup: being written, in the
  // descriptor, or read and about to be cleared.
  ghost predicate OneToken(s: State) {
    && (forall i, j :: i in s.wakers && j in s.wakers && s.wakers[i] == Writing && s.wakers[j] == Writing ==> i == j)
    && (SomeWriting(s) ==> s.wakePending && s.descriptor == 0 && !s.loop.Reading? && !s.loop.Storing?)
    && s.descriptor <= 1
    && (s.descriptor == 1 ==> s.wakePending && !s.loop.Storing?)
    && (s.loop.Reading? ==> s.descriptor == 1)
    && (s.loop.Storing? ==> s.wakePending && s.descriptor == 0)
    && (s.wakePending ==> SomeWriting(s) || s.descriptor == 1 || s.loop.Storing?)
  }

  function InFlight(s: State): nat
    requires 0 in s.queue.threads
  {
    if s.queue.threads[0].PopClaimed? || s.queue.threads[0].PopTaken? then 1 else 0
  }

  // Queued tasks are announced, about to be, or within the current drain.
  ghost predicate Covered(s: State)
    requires 0 in s.queue.threads
  {
    && (s.loop.Draining? ==> s.loop.executed + InFlight(s) <= Limit(s))
    && (s.queue.enqueuePos > s.queue.dequeuePos ==>
          || s.wakePending
          || SomeComing(s)
          || (s.loop.Draining?
              && s.queue.enqueuePos - s.queue.dequeuePos + s.loop.executed + InFlight(s) <= Limit(s)))
  }

  ghost predicate Inv(s: State) {
    Shape(s) && OneToken(s) && Covered(s)
  }

  // ----------------------------------------------------------- preservation

  // What a step of the queue does to the positions and the program counters.
  lemma PushEffect(s: Q.State, i: Q.Thread, t: Q.State)
    requires Q.Next(s, i, t) && i in t.threads && PushSide(s.threads[i]) && PushSide(t.threads[i])
    ensures t.dequeuePos == s.dequeuePos
    ensures t.enqueuePos == s.enqueuePos || t.threads[i].PushClaimed?
    ensures s.threads[i].PushClaimed? ==> t.threads[i].PushBuilt?
    ensures s.threads[i].PushBuilt? ==> t.threads[i] == Q.Idle
  {
    hide Q.Slot;
  }

  lemma PopEffect(s: Q.State, i: Q.Thread, t: Q.State)
    requires Q.Next(s, i, t) && i in t.threads && PopSide(s.threads[i]) && PopSide(t.threads[i])
    ensures t.enqueuePos == s.enqueuePos
    ensures t.dequeuePos == s.dequeuePos || (t.dequeuePos == s.dequeuePos + 1 && s.threads[i].PopReady? && t.threads[i].PopClaimed?)
    ensures t.threads[i].PopClaimed? ==> t.dequeuePos == s.dequeuePos + 1 && s.threads[i].PopReady?
    ensures s.threads[i].PopClaimed? <==> t.threads[i].PopTaken?
    ensures s.threads[i].PopTaken? ==> t.threads[i] == Q.Idle
    ensures t.threads[i] == Q.Idle ==> s.threads[i].PopTaken? || s.threads[i].PopLoaded?
  {
    hide Q.Slot;
  }

  lemma PostKeeps(s: State, i: Q.Thread, t: State)
    requires Inv(s) && PostStep(s, i, t)
    ensures Inv(t)
  {
    hide Q.Next, Q.Inv, OneToken, Covered;
    Q.StepFrame(s.queue, i, t.queue);
    PushEffect(s.queue, i, t.queue);
    Q.NextKeeps(s.queue, i, t.queue);
    PostToken(s, i, t);
    PostCovered(s, i, t);
  }

  lemma PostToken(s: State, i: Q.Thread, t: State)
    requires Shape(s) && OneToken(s) && PostStep(s, i, t)
    ensures OneToken(t)
  {
    hide Q.Next, Q.Inv;
    assert forall j :: j in s.wakers && s.wakers[j] == Writing ==> j in t.wakers && t.wakers[j] == Writing;
    assert forall j :: j in t.wakers && t.wakers[j] == Writing ==> j in s.wakers && s.wakers[j] == Writing;
  }

  lemma PostCovered(s: State, i: Q.Thread, t: State)
    requires Shape(s) && Covered(s) && PostStep(s, i, t)
    ensures 0 in t.queue.threads && Covered(t)
  {
    hide Q.Next, Q.Inv;
    Q.StepFrame(s.queue, i, t.queue);
    PushEffect(s.queue, i, t.queue);
    if SomeComing(s) {
      var j :| Coming(s, j);
      assert Coming(t, j);
    } else if t.queue.enqueuePos != s.queue.enqueuePos {
      assert Coming(t, i);
    }
  }

  lemma WakeKeeps(s: State, i: Q.Thread, t: State)
    requires Inv(s) && WakeStep(s, i, t)
    ensures Inv(t)
  {
    hide Q.Next, Q.Inv, OneToken, Covered;
    WakeToken(s, i, t);
    WakeCovered(s, i, t);
  }

  lemma WakeToken(s: State, i: Q.Thread, t: State)
    requires Shape(s) && OneToken(s) && WakeStep(s, i, t)
    ensures OneToken(t)
  {
    hide Q.Next, Q.Inv, Shape;
    assert forall j :: j in s.wakers && j != i ==> j in t.wakers && t.wakers[j] == s.wakers[j];
    assert forall j :: j in t.wakers && j != i ==> j in s.wakers && t.wakers[j] == s.wakers[j];
    if s.wakers[i] == Writing {
      assert !SomeWriting(t);
    } else if t.wakers[i] == Writing {
      assert !SomeWriting(s);
    }
  }

  lemma WakeCovered(s: State, i: Q.Thread, t: State)
    requires Shape(s) && OneToken(s) && Covered(s) && WakeStep(s, i, t)
    ensures Covered(t)
  {
    hide Q.Next, Q.Inv;
    if s.wakers[i] == Quiet {
      assert Coming(t, i);
    } else if s.wakers[i] == Writing && SomeComing(s) {
      var j :| Coming(s, j);
      assert Coming(t, j);
    }
  }

  lemma SameWakers(s: State, t: State)
    requires t.wakers == s.wakers && t.queue == s.queue
    ensures SomeWriting(t) == SomeWriting(s) && SomeComing(t) == SomeComing(s)
  {
    assert forall i :: Coming(s, i) == Coming(t, i);
  }

  lemma TurnKeeps(s: State, t: State)
    requires Inv(s) && LoopStep(s, t) && (s.loop.Draining? ==> s.loop.executed >= Limit(s))
    ensures Inv(t)
  {
    hide Q.Next;
    SameWakers(s, t);
  }

  lemma DrainKeeps(s: State, t: State)
    requires Inv(s) && LoopStep(s, t) && s.loop.Draining? && s.loop.executed < Limit(s)
    ensures Inv(t)
  {
    hide Q.Next, Q.Inv;
    Q.StepFrame(s.queue, 0, t.queue);
    PopEffect(s.queue, 0, t.queue);
    Q.NextKeeps(s.queue, 0, t.queue);
    assert forall i :: Coming(s, i) == Coming(t, i);
    if t.loop == Polling {
      Q.PopFailure(s.queue, 0, t.queue);
      if s.queue.enqueuePos > s.queue.dequeuePos {
        var i :| i in s.queue.threads && Q.PushOwns(s.queue.threads[i], s.queue.dequeuePos);
        assert Coming(s, i);
      }
    }
  }

  lemma NextKeeps(s: State, step: Step, t: State)
    requires Inv(s) && Next(s, step, t)
    ensures Inv(t)
  {
    hide Inv, PostStep, WakeStep, LoopStep;
    match step {
      case Post(i) => PostKeeps(s, i, t);
      case Wake(i) => WakeKeeps(s, i, t);
      case Turn =>
        if s.loop.Draining? && s.loop.executed < Limit(s) {
          DrainKeeps(s, t);
        } else {
          TurnKeeps(s, t);
        }
    }
  }

  lemma {:induction false} RunInv(states: seq<State>, steps: seq<Step>, capacity: nat, n: nat)
    requires Run(states, steps, capacity) && capacity >= 2 && n < |states|
    ensures Inv(states[n])
  {
    if n == 0 {
      Q.InitHolds(states[0].queue, capacity);
    } else {
      hide Inv, PostStep, WakeStep, LoopStep;
      RunInv(states, steps, capacity, n - 1);
      NextKeeps(states[n - 1], steps[n - 1], states[n]);
    }
  }

  // --------------------------------------------------------------- theorems

  /** The loop never sleeps on a queued task unless a wakeup is in the descriptor or a poster is on its way to one. */
  lemma NoLostWakeup(states: seq<State>, steps: seq<Step>, capacity: nat, n: nat)
    requires Run(states, steps, capacity) && capacity >= 2 && n < |states|
    requires states[n].loop == Polling && states[n].queue.enqueuePos > states[n].queue.dequeuePos
    ensures states[n].descriptor == 1 || SomeWriting(states[n]) || SomeComing(states[n])
  {
    RunInv(states, steps, capacity, n);
  }

  /** A set flag is exactly one wakeup: posts coalesce into one write, and the descriptor never holds a second. */
  lemma OneWakeup(states: seq<State>, steps: seq<Step>, capacity: nat, n: nat)
    requires Run(states, steps, capacity) && capacity >= 2 && n < |states|
    ensures var s := states[n];
      && (forall i, j :: i in s.wakers && j in s.wakers && s.wakers[i] == Writing && s.wakers[j] == Writing ==> i == j)
      && (SomeWriting(s) ==> s.descriptor == 0) && s.descriptor <= 1
      && (s.wakePending <==> SomeWriting(s) || s.descriptor == 1 || s.loop == Storing)
  {
    RunInv(states, steps, capacity, n);
  }

  ghost predicate PostersQuiet(s: State) {
    && (forall i :: i in s.wakers ==> s.wakers[i] == Quiet)
    && (forall i :: i in s.queue.threads && i != 0 ==> s.queue.threads[i] == Q.Idle)
  }

  // A finite continuation in which only the loop moves.
  ghost predicate Turns(states: seq<State>) {
    |states| > 0 && forall k :: 0 <= k < |states| - 1 ==> LoopStep(states[k], states[k + 1])
  }

  lemma Join(a: seq<State>, b: seq<State>) returns (all: seq<State>)
    requires Turns(a) && Turns(b) && a[|a| - 1] == b[0]
    ensures Turns(all) && all[0] == a[0] && all[|all| - 1] == b[|b| - 1]
  {
    hide LoopStep;
    all := a + b[1..];
    forall k | 0 <= k < |all| - 1
      ensures LoopStep(all[k], all[k + 1])
    {
      if k >= |a| - 1 {
        assert LoopStep(b[k - (|a| - 1)], b[k - (|a| - 1) + 1]);
      }
    }
  }

  // The loop ends the drain with an empty queue and every task taken.
  ghost predicate Drains(s: State, states: seq<State>) {
    && Turns(states) && states[0] == s
    && var t := states[|states| - 1];
      && t.loop == Polling && t.queue.enqueuePos == s.queue.enqueuePos == t.queue.dequeuePos
      && s.queue.popped.Keys <= t.queue.popped.Keys
      && forall k :: s.queue.dequeuePos <= k < s.queue.enqueuePos ==> k in t.queue.popped
  }

  // One more step of the loop's TryPop.
  lemma PopTurn(states: seq<State>, q: Q.State, t: State) returns (longer: seq<State>)
    requires Turns(states)
    requires var s := states[|states| - 1];
      && s.loop.Draining? && s.loop.executed < Limit(s) && Q.Inv(s.queue)
      && Q.Next(s.queue, 0, q) && 0 in q.threads && PopSide(q.threads[0])
      && (s.queue.threads[0].PopLoaded? ==> q.threads[0] != Q.Idle)
      && t == s.(queue := q,
                 loop := if s.queue.threads[0].PopTaken? then Draining(s.loop.executed + 1) else s.loop)
    ensures Turns(longer) && longer[0] == states[0] && longer[|longer| - 1] == t
    ensures Q.Inv(q) && |q.cells| == |states[|states| - 1].queue.cells|
  {
    hide Q.Next, Q.Inv;
    var s := states[|states| - 1];
    Q.NextKeeps(s.queue, 0, q);
    Q.StepFrame(s.queue, 0, q);
    assert LoopStep(s, t);
    longer := states + [t];
  }

  lemma PopOne(s: State) returns (states: seq<State>, t: State)
    requires Q.Inv(s.queue) && 0 in s.queue.threads && Q.AllIdle(s.queue)
    requires s.loop.Draining? && s.loop.executed < Limit(s) && s.queue.dequeuePos < s.queue.enqueuePos
    ensures t == s.(queue := t.queue, loop := Draining(s.loop.executed + 1))
    ensures Q.Inv(t.queue) && t.queue.threads == s.queue.threads && |t.queue.cells| == |s.queue.cells|
    ensures t.queue.enqueuePos == s.queue.enqueuePos && t.queue.dequeuePos == s.queue.dequeuePos + 1
    ensures t.queue.popped.Keys == s.queue.popped.Keys + {s.queue.dequeuePos}
    ensures Turns(states) && states[0] == s && states[|states| - 1] == t
  {
    hide LoopStep, Q.Next, Q.Inv;
    var q1, q2, q3, q4, q5, q6 := Q.PopSucceeds(s.queue, 0);
    states := PopTurn([s], q1, s.(queue := q1));
    states := PopTurn(states, q2, s.(queue := q2));
    states := PopTurn(states, q3, s.(queue := q3));
    states := PopTurn(states, q4, s.(queue := q4));
    states := PopTurn(states, q5, s.(queue := q5));
    t := s.(queue := q6, loop := Draining(s.loop.executed + 1));
    states := PopTurn(states, q6, t);
  }

  lemma DrainEnd(s: State) returns (states: seq<State>)
    requires Q.Inv(s.queue) && 0 in s.queue.threads && Q.AllIdle(s.queue)
    requires s.loop.Draining? && s.queue.dequeuePos == s.queue.enqueuePos
    ensures Drains(s, states)
  {
    var t := s.(loop := Polling);
    if s.loop.executed >= Limit(s) {
      states := [s, t];
    } else {
      var q1, q2 := Q.PopFindsNothing(s.queue, 0);
      hide Q.Inv, Q.Next;
      var s1, s2 := s.(queue := q1), s.(queue := q2);
      assert LoopStep(s, s1);
      assert LoopStep(s1, s2);
      assert LoopStep(s2, t);
      states := [s, s1, s2, t];
    }
  }

  lemma {:induction false} DrainAll(s: State) returns (states: seq<State>)
    requires Q.Inv(s.queue) && 0 in s.queue.threads && Q.AllIdle(s.queue) && s.loop.Draining?
    requires s.queue.dequeuePos <= s.queue.enqueuePos <= s.queue.dequeuePos + Limit(s) - s.loop.executed
    ensures Drains(s, states)
    decreases s.queue.enqueuePos - s.queue.dequeuePos
  {
    hide Q.Inv, LoopStep;
    if s.queue.dequeuePos == s.queue.enqueuePos {
      states := DrainEnd(s);
    } else {
      var first, t := PopOne(s);
      var rest := DrainAll(t);
      states := Join(first, rest);
    }
  }

  /** From any reachable state in which no poster is under way, the loop on its own runs every queued task. */
  lemma QuietDrain(states: seq<State>, steps: seq<Step>, capacity: nat, n: nat) returns (more: seq<State>)
    requires Run(states, steps, capacity) && capacity >= 2 && n < |states|
    requires states[n].loop == Polling && PostersQuiet(states[n])
    ensures Drains(states[n], more)
  {
    var s := states[n];
    RunInv(states, steps, capacity, n);
    if s.queue.enqueuePos == s.queue.dequeuePos {
      more := [s];
    } else {
      assert s.descriptor == 1;
      var s1, s2 := s.(loop := Reading), s.(descriptor := 0, loop := Storing);
      var s3 := s2.(wakePending := false, loop := Draining(0));
      assert LoopStep(s, s1) && LoopStep(s1, s2) && LoopStep(s2, s3);
      var rest := DrainAll(s3);
      more := Join([s, s1, s2, s3], rest);
    }
  }
}
