/**
 The bounded multi-producer multi-consumer ticket queue. Any number of threads
 run TryPush and TryPop; every atomic access is one step.
 */
module MpmcQueue {

  import opened Wrappers
  import Bytes

  type Item = int
  type Thread = nat

  datatype Cell = Cell(sequence: nat, slot: Option<Item>)

  // Program counters, named after what the thread has just done.
  datatype Pc =
    | Idle
    | PushStart(v: Item)
    | PushLoaded(v: Item, pos: nat)      // enqueue_pos_ read
    | PushReady(v: Item, pos: nat)       // sequence == pos seen, CAS next
    | PushClaimed(v: Item, pos: nat)     // ticket taken
    | PushBuilt(v: Item, pos: nat)       // value constructed, publish next
    | PopStart
    | PopLoaded(pos: nat)
    | PopReady(pos: nat)                 // sequence == pos + 1 seen, CAS next
    | PopClaimed(pos: nat)
    | PopTaken(pos: nat, out: Item)      // value moved out, release next

  /** `pushed[i]` is the value ticket i was taken with; `popped` what came out. */
  datatype State = State(
    cells: seq<Cell>,
    enqueuePos: nat,
    dequeuePos: nat,
    threads: map<Thread, Pc>,
    pushed: seq<Item>,
    popped: map<nat, Item>)

  // pos & mask_: the capacity is a power of two.
  function Slot(pos: nat, capacity: nat): (index: nat)
    requires capacity > 0
    ensures index < capacity
  {
    pos % capacity
  }

  function CellAt(s: State, pos: nat): Cell
    requires |s.cells| > 0
  {
    s.cells[Slot(pos, |s.cells|)]
  }

  /** The constructor's rounding loop. */
  method RoundUpPow2(v: nat) returns (result: nat)
    ensures result >= 1 && result >= v && (v >= 1 ==> result < 2 * v)
    ensures exists k: nat :: result == Bytes.Pow2(k)
  {
    result := 1;
    ghost var k: nat := 0;
    while result < v
      invariant result == Bytes.Pow2(k) && (k > 0 ==> result < 2 * v)
      decreases v - result
    {
      result := result * 2;
      k := k + 1;
    }
  }

  // ------------------------------------------------------------------ steps

  ghost function Goto(s: State, i: Thread, pc: Pc): State {
    s.(threads := s.threads[i := pc])
  }

  ghost function StoreCell(s: State, pos: nat, cell: Cell): State
    requires |s.cells| > 0
  {
    s.(cells := s.cells[Slot(pos, |s.cells|) := cell])
  }

  ghost predicate PushStep(s: State, i: Thread, t: State)
    requires |s.cells| > 0 && i in s.threads
  {
    match s.threads[i]
    case PushStart(v) => t == Goto(s, i, PushLoaded(v, s.enqueuePos))
    case PushLoaded(v, pos) =>
      var q := CellAt(s, pos).sequence;
      if q == pos then t == Goto(s, i, PushReady(v, pos))
      else if q < pos then t == Goto(s, i, Idle)                     // full
      else t == Goto(s, i, PushStart(v))
    case PushReady(v, pos) =>
      // A weak compare-exchange: it may fail even when the position matches.
      || t == Goto(s, i, PushLoaded(v, s.enqueuePos))
      || (s.enqueuePos == pos
          && t == Goto(s, i, PushClaimed(v, pos)).(enqueuePos := pos + 1, pushed := s.pushed + [v]))
    case PushClaimed(v, pos) =>
      t == Goto(StoreCell(s, pos, CellAt(s, pos).(slot := Some(v))), i, PushBuilt(v, pos))
    case PushBuilt(v, pos) =>
      t == Goto(StoreCell(s, pos, CellAt(s, pos).(sequence := pos + 1)), i, Idle)
    case _ => false
  }

  ghost predicate PopStep(s: State, i: Thread, t: State)
    requires |s.cells| > 0 && i in s.threads
  {
    match s.threads[i]
    case PopStart => t == Goto(s, i, PopLoaded(s.dequeuePos))
    case PopLoaded(pos) =>
      var q := CellAt(s, pos).sequence;
      if q == pos + 1 then t == Goto(s, i, PopReady(pos))
      else if q < pos + 1 then t == Goto(s, i, Idle)                 // empty
      else t == Goto(s, i, PopStart)
    case PopReady(pos) =>
      || t == Goto(s, i, PopLoaded(s.dequeuePos))
      || (s.dequeuePos == pos && t == Goto(s, i, PopClaimed(pos)).(dequeuePos := pos + 1))
    case PopClaimed(pos) =>
      var slot := CellAt(s, pos).slot;
      && slot.Some?
      && t == Goto(StoreCell(s, pos, CellAt(s, pos).(slot := None)), i,
                   PopTaken(pos, slot.value)).(popped := s.popped[pos := slot.value])
    case PopTaken(pos, v) =>
      t == Goto(StoreCell(s, pos, CellAt(s, pos).(sequence := pos + |s.cells|)), i, Idle)
    case _ => false
  }

  ghost predicate Call(s: State, i: Thread, t: State) {
    i in s.threads && s.threads[i] == Idle
    && (t == Goto(s, i, PopStart) || exists v :: t == Goto(s, i, PushStart(v)))
  }

  ghost predicate Next(s: State, i: Thread, t: State) {
    |s.cells| > 0 && i in s.threads && (Call(s, i, t) || PushStep(s, i, t) || PopStep(s, i, t))
  }

  ghost predicate Init(s: State, capacity: nat) {
    && |s.cells| == capacity && (forall k: nat :: k < capacity ==> s.cells[k] == Cell(k, None))
    && s.enqueuePos == 0 && s.dequeuePos == 0
    && (forall i :: i in s.threads ==> s.threads[i] == Idle)
    && s.pushed == [] && s.popped == map[]
  }

  ghost predicate Run(states: seq<State>, who: seq<Thread>, capacity: nat) {
    |states| == |who| + 1 && Init(states[0], capacity)
    && forall k :: 0 <= k < |who| ==> Next(states[k], who[k], states[k + 1])
  }

  // -------------------------------------------------------------- invariant

  predicate PushOwns(pc: Pc, pos: nat) {
    (pc.PushClaimed? || pc.PushBuilt?) && pc.pos == pos
  }

  predicate PopOwns(pc: Pc, pos: nat) {
    (pc.PopClaimed? || pc.PopTaken?) && pc.pos == pos
  }

  ghost predicate PushHeld(threads: map<Thread, Pc>, k: nat) {
    exists i :: i in threads && PushOwns(threads[i], k)
  }

  ghost predicate PopHeld(threads: map<Thread, Pc>, k: nat) {
    exists i :: i in threads && PopOwns(threads[i], k)
  }

  ghost predicate Taking(threads: map<Thread, Pc>, k: nat) {
    exists i :: i in threads && threads[i] == PopClaimed(k)
  }

  // The cell waits for the producer of ticket k, or that producer is in it.
  ghost predicate Writable(s: State, k: nat)
    requires |s.cells| > 0
  {
    && CellAt(s, k).sequence == k
    && s.dequeuePos <= k < s.dequeuePos + |s.cells|
    && (k < s.enqueuePos ==> PushHeld(s.threads, k))
  }

  // The cell holds ticket k's value, or that ticket's consumer is in it.
  ghost predicate Readable(s: State, k: nat)
    requires |s.cells| > 0
  {
    && CellAt(s, k).sequence == k + 1
    && k < s.enqueuePos <= k + |s.cells|
    && (k >= s.dequeuePos ==> CellAt(s, k).slot == Some(TicketValue(s.pushed, k)))
    && (k < s.dequeuePos ==> PopHeld(s.threads, k))
  }

  ghost function TicketValue(pushed: seq<Item>, k: nat): Item {
    if k < |pushed| then pushed[k] else 0
  }

  ghost predicate CellOk(s: State, c: nat)
    requires c < |s.cells|
  {
    exists k: nat :: Slot(k, |s.cells|) == c && (Writable(s, k) || Readable(s, k))
  }

  ghost predicate PcOk(s: State, pc: Pc)
    requires |s.cells| > 0
  {
    match pc
    case PushLoaded(v, pos) => pos <= s.enqueuePos
    case PushReady(v, pos) => pos <= s.enqueuePos && (pos == s.enqueuePos ==> CellAt(s, pos).sequence == pos)
    case PushClaimed(v, pos) =>
      pos < s.enqueuePos && CellAt(s, pos).sequence == pos && v == TicketValue(s.pushed, pos)
    case PushBuilt(v, pos) =>
      pos < s.enqueuePos && CellAt(s, pos).sequence == pos && v == TicketValue(s.pushed, pos)
      && CellAt(s, pos).slot == Some(v)
    case PopLoaded(pos) => pos <= s.dequeuePos
    case PopReady(pos) => pos <= s.dequeuePos && (pos == s.dequeuePos ==> CellAt(s, pos).sequence == pos + 1)
    case PopClaimed(pos) =>
      pos < s.dequeuePos && CellAt(s, pos).sequence == pos + 1 && pos !in s.popped
      && CellAt(s, pos).slot == Some(TicketValue(s.pushed, pos))
    case PopTaken(pos, v) =>
      pos < s.dequeuePos && CellAt(s, pos).sequence == pos + 1 && v == TicketValue(s.pushed, pos)
    case _ => true
  }

  ghost predicate Exclusive(s: State) {
    forall i, j, pos :: i in s.threads && j in s.threads && i != j ==>
      && !(PushOwns(s.threads[i], pos) && PushOwns(s.threads[j], pos))
      && !(PopOwns(s.threads[i], pos) && PopOwns(s.threads[j], pos))
  }

  ghost predicate HistoryOk(s: State) {
    && |s.pushed| == s.enqueuePos
    && (forall k :: k in s.popped ==> k < s.dequeuePos && s.popped[k] == TicketValue(s.pushed, k))
    && (forall k :: 0 <= k < s.dequeuePos ==>
          k in s.popped || Taking(s.threads, k))
  }

  ghost predicate Inv(s: State) {
    && |s.cells| >= 2
    && s.dequeuePos <= s.enqueuePos <= s.dequeuePos + |s.cells|
    && (forall c :: 0 <= c < |s.cells| ==> CellOk(s, c))
    && (forall i :: i in s.threads ==> PcOk(s, s.threads[i]))
    && Exclusive(s)
    && HistoryOk(s)
  }

  // ------------------------------------------------------ ticket arithmetic

  lemma SlotShift(pos: nat, capacity: nat)
    requires capacity > 0
    ensures Slot(pos + capacity, capacity) == Slot(pos, capacity)
  {
    Bytes.DivModUnique(pos + capacity, capacity, pos / capacity + 1, pos % capacity);
  }

  lemma SlotGap(a: nat, b: nat, capacity: nat)
    requires capacity > 0 && a < b && Slot(a, capacity) == Slot(b, capacity)
    ensures a + capacity <= b
  {
    if b < a + capacity {
      var q, r := a / capacity, a % capacity;
      if r + (b - a) < capacity {
        Bytes.DivModUnique(b, capacity, q, r + (b - a));
      } else {
        Bytes.DivModUnique(b, capacity, q + 1, r + (b - a) - capacity);
      }
    }
  }

  lemma SeenWritable(s: State, pos: nat)
    requires Inv(s) && CellAt(s, pos).sequence == pos
    ensures Writable(s, pos)
  {
    hide Slot;
    assert CellOk(s, Slot(pos, |s.cells|));
    var k: nat :| Slot(k, |s.cells|) == Slot(pos, |s.cells|) && (Writable(s, k) || Readable(s, k));
    if k + 1 == pos {
      SlotGap(k, pos, |s.cells|);
    }
  }

  lemma SeenReadable(s: State, pos: nat)
    requires Inv(s) && CellAt(s, pos).sequence == pos + 1
    ensures Readable(s, pos)
  {
    hide Slot;
    assert CellOk(s, Slot(pos, |s.cells|));
    var k: nat :| Slot(k, |s.cells|) == Slot(pos, |s.cells|) && (Writable(s, k) || Readable(s, k));
    if k == pos + 1 {
      SlotGap(pos, k, |s.cells|);
    }
  }

  // ----------------------------------------------------------- preservation

  predicate Owner(pc: Pc) {
    pc.PushClaimed? || pc.PushBuilt? || pc.PopClaimed? || pc.PopTaken?
  }

  lemma HeldFrame(threads: map<Thread, Pc>, i: Thread, pc: Pc, k: nat)
    requires i in threads
    ensures PushHeld(threads, k) && !PushOwns(threads[i], k) ==> PushHeld(threads[i := pc], k)
    ensures PopHeld(threads, k) && !PopOwns(threads[i], k) ==> PopHeld(threads[i := pc], k)
    ensures Taking(threads, k) && threads[i] != PopClaimed(k) ==> Taking(threads[i := pc], k)
    ensures PushOwns(pc, k) ==> PushHeld(threads[i := pc], k)
    ensures PopOwns(pc, k) ==> PopHeld(threads[i := pc], k)
    ensures pc == PopClaimed(k) ==> Taking(threads[i := pc], k)
  {
    var after := threads[i := pc];
    assert forall j :: j in threads && j != i ==> j in after && after[j] == threads[j];
    assert i in after && after[i] == pc;
  }

  // Steps in which the thread holds no cell before or after.
  lemma OutsideStep(s: State, i: Thread, pc: Pc)
    requires Inv(s) && i in s.threads && !Owner(s.threads[i]) && !Owner(pc) && PcOk(s, pc)
    ensures Inv(Goto(s, i, pc))
  {
    hide Slot, TicketValue, PushHeld, PopHeld, Taking;
    var t := Goto(s, i, pc);
    forall k: nat
      ensures Taking(s.threads, k) ==> Taking(t.threads, k)
    {
      HeldFrame(s.threads, i, pc, k);
    }
    forall c | 0 <= c < |t.cells|
      ensures CellOk(t, c)
    {
      assert CellOk(s, c);
      var k: nat :| Slot(k, |s.cells|) == c && (Writable(s, k) || Readable(s, k));
      HeldFrame(s.threads, i, pc, k);
      assert Writable(t, k) || Readable(t, k);
    }
  }

  lemma PushClaim(s: State, i: Thread, v: Item, pos: nat, t: State)
    requires Inv(s) && i in s.threads && s.threads[i] == PushReady(v, pos) && s.enqueuePos == pos
    requires t == Goto(s, i, PushClaimed(v, pos)).(enqueuePos := pos + 1, pushed := s.pushed + [v])
    ensures Inv(t)
  {
    hide Slot, PushHeld, PopHeld, Taking;
    assert PcOk(s, s.threads[i]);
    SeenWritable(s, pos);
    forall k: nat
      ensures Taking(s.threads, k) ==> Taking(t.threads, k)
    {
      HeldFrame(s.threads, i, PushClaimed(v, pos), k);
    }
    forall c | 0 <= c < |t.cells|
      ensures CellOk(t, c)
    {
      assert CellOk(s, c);
      var k: nat :| Slot(k, |s.cells|) == c && (Writable(s, k) || Readable(s, k));
      HeldFrame(s.threads, i, PushClaimed(v, pos), k);
      if Writable(s, k) {
        assert Writable(t, k);
      } else {
        SlotShift(k, |s.cells|);
        assert Readable(t, k);
      }
    }
  }

  lemma PopClaim(s: State, i: Thread, pos: nat, t: State)
    requires Inv(s) && i in s.threads && s.threads[i] == PopReady(pos) && s.dequeuePos == pos
    requires t == Goto(s, i, PopClaimed(pos)).(dequeuePos := pos + 1)
    ensures Inv(t)
  {
    hide Slot, TicketValue, PushHeld, PopHeld, Taking;
    assert PcOk(s, s.threads[i]);
    SeenReadable(s, pos);
    forall k: nat
      ensures Taking(s.threads, k) ==> Taking(t.threads, k)
    {
      HeldFrame(s.threads, i, PopClaimed(pos), k);
    }
    forall c | 0 <= c < |t.cells|
      ensures CellOk(t, c)
    {
      assert CellOk(s, c);
      var k: nat :| Slot(k, |s.cells|) == c && (Writable(s, k) || Readable(s, k));
      HeldFrame(s.threads, i, PopClaimed(pos), k);
      assert Writable(t, k) || Readable(t, k);
    }
    HeldFrame(s.threads, i, PopClaimed(pos), pos);
  }

  // With two cells or more, consecutive tickets never share one.
  lemma Neighbours(pos: nat, capacity: nat)
    requires capacity >= 2
    ensures Slot(pos, capacity) != Slot(pos + 1, capacity)
    ensures pos > 0 ==> Slot(pos - 1, capacity) != Slot(pos, capacity)
  {
    hide Slot;
    if Slot(pos, capacity) == Slot(pos + 1, capacity) {
      SlotGap(pos, pos + 1, capacity);
    }
    if pos > 0 && Slot(pos - 1, capacity) == Slot(pos, capacity) {
      SlotGap(pos - 1, pos, capacity);
    }
  }

  // What a step inside a cell leaves of the other cells.
  lemma OtherCells(s: State, i: Thread, pos: nat, t: State)
    requires Inv(s) && i in s.threads && t.threads.Keys == s.threads.Keys
    requires |t.cells| == |s.cells| && t.enqueuePos == s.enqueuePos && t.dequeuePos == s.dequeuePos && t.pushed == s.pushed
    requires PushOwns(s.threads[i], pos) || PopOwns(s.threads[i], pos)
    requires t.threads == s.threads[i := t.threads[i]]
    requires forall c: nat :: c < |s.cells| && c != Slot(pos, |s.cells|) ==> t.cells[c] == s.cells[c]
    ensures forall c :: 0 <= c < |t.cells| && c != Slot(pos, |s.cells|) ==> CellOk(t, c)
  {
    hide Slot, TicketValue, PushHeld, PopHeld, Taking, PcOk, HistoryOk, Exclusive;
    forall c | 0 <= c < |t.cells| && c != Slot(pos, |s.cells|)
      ensures CellOk(t, c)
    {
      assert CellOk(s, c);
      var k: nat :| Slot(k, |s.cells|) == c && (Writable(s, k) || Readable(s, k));
      HeldFrame(s.threads, i, t.threads[i], k);
      assert Writable(t, k) || Readable(t, k);
    }
  }

  // The thread inside a cell is alone there.
  lemma Alone(s: State, i: Thread, j: Thread, pos: nat)
    requires Inv(s) && i in s.threads && j in s.threads && i != j
    requires PushOwns(s.threads[i], pos) || PopOwns(s.threads[i], pos)
    ensures Owner(s.threads[j]) ==> Slot(s.threads[j].pos, |s.cells|) != Slot(pos, |s.cells|)
    ensures s.threads[j].PushReady? && s.threads[j].pos == s.enqueuePos
            ==> Slot(s.threads[j].pos, |s.cells|) != Slot(pos, |s.cells|)
    ensures s.threads[j].PopReady? && s.threads[j].pos == s.dequeuePos
            ==> Slot(s.threads[j].pos, |s.cells|) != Slot(pos, |s.cells|)
  {
    hide Slot, CellOk, HistoryOk;
    Neighbours(pos, |s.cells|);
    assert PcOk(s, s.threads[i]) && PcOk(s, s.threads[j]);
    if PushOwns(s.threads[i], pos) {
      assert !PushOwns(s.threads[j], pos);
      SeenWritable(s, pos);
    } else {
      assert !PopOwns(s.threads[j], pos);
      SeenReadable(s, pos);
    }
  }

  // What that step leaves of another thread's facts.
  lemma OtherThread(s: State, i: Thread, j: Thread, pos: nat, t: State)
    requires Inv(s) && i in s.threads && j in s.threads && i != j
    requires PushOwns(s.threads[i], pos) || PopOwns(s.threads[i], pos)
    requires |t.cells| == |s.cells| && t.enqueuePos == s.enqueuePos && t.dequeuePos == s.dequeuePos && t.pushed == s.pushed
    requires forall c: nat :: c < |s.cells| && c != Slot(pos, |s.cells|) ==> t.cells[c] == s.cells[c]
    requires t.popped.Keys <= s.popped.Keys + {pos}
    ensures PcOk(t, s.threads[j])
  {
    hide Slot, CellOk, HistoryOk, TicketValue;
    Alone(s, i, j, pos);
    assert PcOk(s, s.threads[j]);
  }

  lemma StillExclusive(s: State, i: Thread, pc: Pc, t: State)
    requires Exclusive(s) && i in s.threads && t.threads == s.threads[i := pc]
    requires forall k :: PushOwns(pc, k) ==> PushOwns(s.threads[i], k)
    requires forall k :: PopOwns(pc, k) ==> PopOwns(s.threads[i], k)
    ensures Exclusive(t)
  {
  }

  // A step of thread i inside the cell of its ticket, up to what that step must
  // establish for its own cell and program counter.
  lemma InsideStep(s: State, i: Thread, pos: nat, cell: Cell, pc: Pc, popped: map<nat, Item>, t: State)
    requires Inv(s) && i in s.threads
    requires PushOwns(s.threads[i], pos) || PopOwns(s.threads[i], pos)
    requires t == Goto(StoreCell(s, pos, cell), i, pc).(popped := popped)
    requires popped.Keys <= s.popped.Keys + {pos}
    requires forall k :: PushOwns(pc, k) ==> PushOwns(s.threads[i], k)
    requires forall k :: PopOwns(pc, k) ==> PopOwns(s.threads[i], k)
    requires CellOk(t, Slot(pos, |s.cells|)) && PcOk(t, pc) && HistoryOk(t)
    ensures Inv(t)
  {
    hide Slot, CellOk, HistoryOk, TicketValue, PcOk, Exclusive;
    OtherCells(s, i, pos, t);
    StillExclusive(s, i, pc, t);
    forall j | j in t.threads && j != i
      ensures PcOk(t, t.threads[j])
    {
      OtherThread(s, i, j, pos, t);
    }
  }

  lemma PushConstruct(s: State, i: Thread, v: Item, pos: nat, t: State)
    requires Inv(s) && i in s.threads && s.threads[i] == PushClaimed(v, pos)
    requires t == Goto(StoreCell(s, pos, CellAt(s, pos).(slot := Some(v))), i, PushBuilt(v, pos))
    ensures Inv(t)
  {
    hide Slot, TicketValue, PushHeld, PopHeld, Taking, Exclusive;
    assert PcOk(s, s.threads[i]);
    SeenWritable(s, pos);
    forall k: nat {
      HeldFrame(s.threads, i, PushBuilt(v, pos), k);
    }
    assert Writable(t, pos);
    InsideStep(s, i, pos, CellAt(s, pos).(slot := Some(v)), PushBuilt(v, pos), s.popped, t);
  }

  lemma PushPublish(s: State, i: Thread, v: Item, pos: nat, t: State)
    requires Inv(s) && i in s.threads && s.threads[i] == PushBuilt(v, pos)
    requires t == Goto(StoreCell(s, pos, CellAt(s, pos).(sequence := pos + 1)), i, Idle)
    ensures Inv(t)
  {
    hide Slot, TicketValue, PushHeld, PopHeld, Taking, Exclusive;
    assert PcOk(s, s.threads[i]);
    SeenWritable(s, pos);
    forall k: nat {
      HeldFrame(s.threads, i, Idle, k);
    }
    assert Readable(t, pos);
    InsideStep(s, i, pos, CellAt(s, pos).(sequence := pos + 1), Idle, s.popped, t);
  }

  lemma PopTake(s: State, i: Thread, pos: nat, v: Item, t: State)
    requires Inv(s) && i in s.threads && s.threads[i] == PopClaimed(pos)
    requires CellAt(s, pos).slot == Some(v)
    requires t == Goto(StoreCell(s, pos, CellAt(s, pos).(slot := None)), i,
                       PopTaken(pos, v)).(popped := s.popped[pos := v])
    ensures Inv(t)
  {
    hide Slot, TicketValue, PushHeld, PopHeld, Taking, Exclusive;
    assert PcOk(s, s.threads[i]);
    SeenReadable(s, pos);
    forall k: nat {
      HeldFrame(s.threads, i, PopTaken(pos, v), k);
    }
    assert Readable(t, pos);
    InsideStep(s, i, pos, CellAt(s, pos).(slot := None), PopTaken(pos, v), s.popped[pos := v], t);
  }

  lemma PopRelease(s: State, i: Thread, pos: nat, v: Item, t: State)
    requires Inv(s) && i in s.threads && s.threads[i] == PopTaken(pos, v)
    requires t == Goto(StoreCell(s, pos, CellAt(s, pos).(sequence := pos + |s.cells|)), i, Idle)
    ensures Inv(t)
  {
    hide Slot, TicketValue, PushHeld, PopHeld, Taking, Exclusive;
    assert PcOk(s, s.threads[i]);
    SeenReadable(s, pos);
    SlotShift(pos, |s.cells|);
    forall k: nat {
      HeldFrame(s.threads, i, Idle, k);
    }
    assert Writable(t, pos + |s.cells|);
    InsideStep(s, i, pos, CellAt(s, pos).(sequence := pos + |s.cells|), Idle, s.popped, t);
  }

  lemma PushKeeps(s: State, i: Thread, t: State)
    requires Inv(s) && i in s.threads && PushStep(s, i, t)
    ensures Inv(t)
  {
    hide Slot, Inv, StoreCell;
    Parts(s);
    match s.threads[i] {
      case PushStart(v) => OutsideStep(s, i, PushLoaded(v, s.enqueuePos));
      case PushLoaded(v, pos) =>
        var q := CellAt(s, pos).sequence;
        OutsideStep(s, i, if q == pos then PushReady(v, pos) else if q < pos then Idle else PushStart(v));
      case PushReady(v, pos) =>
        if t == Goto(s, i, PushLoaded(v, s.enqueuePos)) {
          OutsideStep(s, i, PushLoaded(v, s.enqueuePos));
        } else {
          PushClaim(s, i, v, pos, t);
        }
      case PushClaimed(v, pos) => PushConstruct(s, i, v, pos, t);
      case PushBuilt(v, pos) => PushPublish(s, i, v, pos, t);
    }
  }

  lemma Parts(s: State)
    requires Inv(s)
    ensures |s.cells| >= 2 && forall i :: i in s.threads ==> PcOk(s, s.threads[i])
  {
  }

  lemma PopKeeps(s: State, i: Thread, t: State)
    requires Inv(s) && i in s.threads && PopStep(s, i, t)
    ensures Inv(t)
  {
    hide Slot, Inv, StoreCell;
    Parts(s);
    match s.threads[i] {
      case PopStart => OutsideStep(s, i, PopLoaded(s.dequeuePos));
      case PopLoaded(pos) =>
        var q := CellAt(s, pos).sequence;
        OutsideStep(s, i, if q == pos + 1 then PopReady(pos) else if q < pos + 1 then Idle else PopStart);
      case PopReady(pos) =>
        if t == Goto(s, i, PopLoaded(s.dequeuePos)) {
          OutsideStep(s, i, PopLoaded(s.dequeuePos));
        } else {
          PopClaim(s, i, pos, t);
        }
      case PopClaimed(pos) => PopTake(s, i, pos, CellAt(s, pos).slot.value, t);
      case PopTaken(pos, v) => PopRelease(s, i, pos, v, t);
    }
  }

  lemma NextKeeps(s: State, i: Thread, t: State)
    requires Inv(s) && Next(s, i, t)
    ensures Inv(t)
  {
    hide Inv, PushStep, PopStep;
    Parts(s);
    if PushStep(s, i, t) {
      PushKeeps(s, i, t);
    } else if PopStep(s, i, t) {
      PopKeeps(s, i, t);
    } else if t == Goto(s, i, PopStart) {
      OutsideStep(s, i, PopStart);
    } else {
      var v :| t == Goto(s, i, PushStart(v));
      OutsideStep(s, i, PushStart(v));
    }
  }

  lemma InitHolds(s: State, capacity: nat)
    requires Init(s, capacity) && capacity >= 2
    ensures Inv(s)
  {
    forall c | 0 <= c < |s.cells|
      ensures CellOk(s, c)
    {
      Bytes.DivModUnique(c, capacity, 0, c);
      assert Slot(c, capacity) == c && Writable(s, c);
    }
  }

  /** Every state of every run of a queue with two cells or more. */
  lemma {:induction false} RunInv(states: seq<State>, who: seq<Thread>, capacity: nat, n: nat)
    requires Run(states, who, capacity) && capacity >= 2 && n < |states|
    ensures Inv(states[n]) && |states[n].cells| == capacity
  {
    hide Inv, PushStep, PopStep, Call;
    if n == 0 {
      InitHolds(states[0], capacity);
    } else {
      RunInv(states, who, capacity, n - 1);
      NextKeeps(states[n - 1], who[n - 1], states[n]);
      StepFrame(states[n - 1], who[n - 1], states[n]);
    }
  }

  lemma StepFrame(s: State, i: Thread, t: State)
    requires Next(s, i, t)
    ensures |t.cells| == |s.cells| && i in t.threads && t.threads == s.threads[i := t.threads[i]]
  {
    hide PushStep, PopStep;
    if PushStep(s, i, t) {
      PushFrame(s, i, t);
    } else if PopStep(s, i, t) {
      PopFrame(s, i, t);
    }
  }

  lemma PushFrame(s: State, i: Thread, t: State)
    requires |s.cells| > 0 && i in s.threads && PushStep(s, i, t)
    ensures |t.cells| == |s.cells| && i in t.threads && t.threads == s.threads[i := t.threads[i]]
  {
    hide Slot;
  }

  lemma PopFrame(s: State, i: Thread, t: State)
    requires |s.cells| > 0 && i in s.threads && PopStep(s, i, t)
    ensures |t.cells| == |s.cells| && i in t.threads && t.threads == s.threads[i := t.threads[i]]
  {
    hide Slot;
  }

  // --------------------------------------------------------------- theorems

  /** Whatever comes out under a ticket is what went in under it, and no more than the capacity is outstanding. */
  lemma TicketOrder(states: seq<State>, who: seq<Thread>, capacity: nat, n: nat)
    requires Run(states, who, capacity) && capacity >= 2 && n < |states|
    ensures var s := states[n];
      && s.dequeuePos <= s.enqueuePos <= s.dequeuePos + capacity
      && |s.pushed| == s.enqueuePos
      && (forall k :: k in s.popped ==> k < s.dequeuePos && s.popped[k] == s.pushed[k])
  {
    RunInv(states, who, capacity, n);
  }

  /** Once every call has returned, the values out and the values in the ring are together exactly the values in. */
  lemma NothingLost(states: seq<State>, who: seq<Thread>, capacity: nat, n: nat)
    requires Run(states, who, capacity) && capacity >= 2 && n < |states|
    requires forall i :: i in states[n].threads ==> states[n].threads[i] == Idle
    ensures var s := states[n];
      && |s.cells| == capacity && s.dequeuePos <= s.enqueuePos == |s.pushed|
      && s.popped == (map k | 0 <= k < s.dequeuePos :: s.pushed[k])
      && (forall k: nat :: s.dequeuePos <= k < s.enqueuePos ==> CellAt(s, k).slot == Some(s.pushed[k]))
  {
    RunInv(states, who, capacity, n);
    var s := states[n];
    forall k: nat | s.dequeuePos <= k < s.enqueuePos
      ensures CellAt(s, k).slot == Some(s.pushed[k])
    {
      LiveTicket(s, k);
    }
  }

  // The cell of a ticket that is claimed and not yet consumed belongs to it.
  lemma LiveTicket(s: State, k: nat)
    requires Inv(s) && s.dequeuePos <= k < s.enqueuePos
    ensures Writable(s, k) || Readable(s, k)
  {
    hide Slot, TicketValue;
    assert CellOk(s, Slot(k, |s.cells|));
    var m: nat :| Slot(m, |s.cells|) == Slot(k, |s.cells|) && (Writable(s, m) || Readable(s, m));
    if m < k {
      SlotGap(m, k, |s.cells|);
    } else if k < m {
      SlotGap(k, m, |s.cells|);
    }
  }

  /** At most one thread is inside a cell, whether it writes or reads it. */
  lemma OneOwner(states: seq<State>, who: seq<Thread>, capacity: nat, n: nat, i: Thread, j: Thread)
    requires Run(states, who, capacity) && capacity >= 2 && n < |states|
    requires i in states[n].threads && j in states[n].threads && i != j
    requires Owner(states[n].threads[i]) && Owner(states[n].threads[j])
    ensures Slot(states[n].threads[i].pos, capacity) != Slot(states[n].threads[j].pos, capacity)
  {
    RunInv(states, who, capacity, n);
    Alone(states[n], i, j, states[n].threads[i].pos);
  }

  /** TryPush gives up only when every cell is taken: full, or its cell's last consumer has not let go. */
  lemma PushFailure(states: seq<State>, who: seq<Thread>, capacity: nat, n: nat, i: Thread)
    requires Run(states, who, capacity) && capacity >= 2 && n < |who| && who[n] == i
    requires i in states[n].threads && states[n].threads[i].PushLoaded?
    requires i in states[n + 1].threads && states[n + 1].threads[i] == Idle
    ensures var s := states[n];
      && s.threads[i].pos == s.enqueuePos
      && (s.enqueuePos == s.dequeuePos + capacity
          || (s.enqueuePos >= capacity && PopHeld(s.threads, s.enqueuePos - capacity)))
  {
    RunInv(states, who, capacity, n);
    var s, pos := states[n], states[n].threads[i].pos;
    assert PcOk(s, s.threads[i]);
    assert CellOk(s, Slot(pos, capacity));
    var k: nat :| Slot(k, capacity) == Slot(pos, capacity) && (Writable(s, k) || Readable(s, k));
    assert k != pos;
    if k < pos {
      SlotGap(k, pos, capacity);
    } else {
      SlotGap(pos, k, capacity);
    }
  }

  /** TryPop gives up only when no value is published at the head. */
  lemma PopFailure(s: State, i: Thread, t: State)
    requires Inv(s) && Next(s, i, t)
    requires s.threads[i].PopLoaded? && i in t.threads && t.threads[i] == Idle
    ensures s.threads[i].pos == s.dequeuePos
    ensures s.enqueuePos == s.dequeuePos || PushHeld(s.threads, s.dequeuePos)
  {
    var pos, capacity := s.threads[i].pos, |s.cells|;
    assert PcOk(s, s.threads[i]);
    assert CellOk(s, Slot(pos, capacity));
    var k: nat :| Slot(k, capacity) == Slot(pos, capacity) && (Writable(s, k) || Readable(s, k));
    if k < pos {
      SlotGap(k, pos, capacity);
    } else if pos < k {
      SlotGap(pos, k, capacity);
    }
  }

  ghost predicate AllIdle(s: State) {
    forall i :: i in s.threads ==> s.threads[i] == Idle
  }

  /** With no call under way, TryPop on a nonempty queue takes the head: six steps of one thread. */
  lemma PopSucceeds(s: State, i: Thread)
    returns (s1: State, s2: State, s3: State, s4: State, s5: State, s6: State)
    requires Inv(s) && i in s.threads && AllIdle(s) && s.dequeuePos < s.enqueuePos
    ensures Next(s, i, s1) && Next(s1, i, s2) && Next(s2, i, s3) && Next(s3, i, s4) && Next(s4, i, s5) && Next(s5, i, s6)
    ensures s1.threads == s.threads[i := PopStart] && s2.threads == s.threads[i := PopLoaded(s.dequeuePos)]
    ensures s3.threads == s.threads[i := PopReady(s.dequeuePos)] && s4.threads == s.threads[i := PopClaimed(s.dequeuePos)]
    ensures s5.threads == s.threads[i := PopTaken(s.dequeuePos, s.pushed[s.dequeuePos])] && s6.threads == s.threads
    ensures s6.enqueuePos == s.enqueuePos && s6.dequeuePos == s.dequeuePos + 1
    ensures s6.pushed == s.pushed && s6.popped == s.popped[s.dequeuePos := s.pushed[s.dequeuePos]]
  {
    var pos := s.dequeuePos;
    LiveTicket(s, pos);
    hide Slot, Inv, Next;
    s1, s2, s3, s4 := PopStarts(s, i);
    s5, s6 := PopFinishes(s4, i, pos, CellAt(s, pos).slot.value);
    assert s6.threads == s.threads;
  }

  lemma PopStarts(s: State, i: Thread) returns (s1: State, s2: State, s3: State, s4: State)
    requires |s.cells| > 0 && i in s.threads && s.threads[i] == Idle
    requires CellAt(s, s.dequeuePos).sequence == s.dequeuePos + 1
    ensures Next(s, i, s1) && Next(s1, i, s2) && Next(s2, i, s3) && Next(s3, i, s4)
    ensures s1 == Goto(s, i, PopStart) && s2 == Goto(s, i, PopLoaded(s.dequeuePos)) && s3 == Goto(s, i, PopReady(s.dequeuePos))
    ensures s4 == Goto(s, i, PopClaimed(s.dequeuePos)).(dequeuePos := s.dequeuePos + 1)
  {
    hide Slot;
    var pos := s.dequeuePos;
    s1, s2, s3 := Goto(s, i, PopStart), Goto(s, i, PopLoaded(pos)), Goto(s, i, PopReady(pos));
    s4 := Goto(s, i, PopClaimed(pos)).(dequeuePos := pos + 1);
    assert PopStep(s1, i, s2);
    assert PopStep(s2, i, s3);
    assert PopStep(s3, i, s4);
  }

  lemma PopFinishes(s: State, i: Thread, pos: nat, v: Item) returns (s1: State, s2: State)
    requires |s.cells| > 0 && i in s.threads && s.threads[i] == PopClaimed(pos) && CellAt(s, pos).slot == Some(v)
    ensures Next(s, i, s1) && Next(s1, i, s2)
    ensures s1.threads == s.threads[i := PopTaken(pos, v)] && s2.threads == s.threads[i := Idle]
    ensures s2.enqueuePos == s.enqueuePos && s2.dequeuePos == s.dequeuePos
    ensures s2.pushed == s.pushed && s2.popped == s.popped[pos := v]
  {
    hide Slot;
    s1 := Goto(StoreCell(s, pos, CellAt(s, pos).(slot := None)), i, PopTaken(pos, v)).(popped := s.popped[pos := v]);
    s2 := Goto(StoreCell(s1, pos, CellAt(s1, pos).(sequence := pos + |s1.cells|)), i, Idle);
    assert PopStep(s, i, s1) && PopStep(s1, i, s2);
  }

  /** With no call under way, TryPop on an empty queue returns false: three steps that change nothing. */
  lemma PopFindsNothing(s: State, i: Thread) returns (s1: State, s2: State)
    requires Inv(s) && i in s.threads && AllIdle(s) && s.dequeuePos == s.enqueuePos
    ensures Next(s, i, s1) && Next(s1, i, s2) && Next(s2, i, s)
    ensures s1 == s.(threads := s.threads[i := PopStart])
    ensures s2 == s.(threads := s.threads[i := PopLoaded(s.dequeuePos)])
  {
    hide Slot, TicketValue;
    var pos := s.dequeuePos;
    assert CellOk(s, Slot(pos, |s.cells|));
    var k: nat :| Slot(k, |s.cells|) == Slot(pos, |s.cells|) && (Writable(s, k) || Readable(s, k));
    if pos < k {
      SlotGap(pos, k, |s.cells|);
    }
    s1 := Goto(s, i, PopStart);
    s2 := Goto(s, i, PopLoaded(pos));
    assert PopStep(s1, i, s2);
    assert s == Goto(s2, i, Idle);
    assert PopStep(s2, i, s);
  }

  lemma Extend(states: seq<State>, who: seq<Thread>, capacity: nat, i: Thread, t: State)
    returns (states': seq<State>, who': seq<Thread>)
    requires Run(states, who, capacity) && Next(states[|who|], i, t)
    ensures Run(states', who', capacity) && states'[|who'|] == t
  {
    hide Next;
    states', who' := states + [t], who + [i];
  }

  // One thread pushing into a ring of one cell: the published cell of ticket
  // pos reads as the free cell of ticket pos + 1.
  lemma PushOnce(states: seq<State>, who: seq<Thread>, v: Item) returns (states': seq<State>, who': seq<Thread>)
    requires Run(states, who, 1)
    requires var s := states[|who|]; s.threads == map[0 := Idle] && |s.cells| == 1 && s.cells[0].sequence == s.enqueuePos
    ensures Run(states', who', 1)
    ensures var s, t := states[|who|], states'[|who'|];
      && t.enqueuePos == s.enqueuePos + 1 && t.dequeuePos == s.dequeuePos
      && t.threads == map[0 := Idle] && t.cells == [Cell(s.enqueuePos + 1, Some(v))]
  {
    hide Next;
    var s := states[|who|];
    var s1, s2, s3 := PushSearch(s, v);
    var s4, s5, s6 := PushStore(s3, v);
    states', who' := Extend(states, who, 1, 0, s1);
    states', who' := Extend(states', who', 1, 0, s2);
    states', who' := Extend(states', who', 1, 0, s3);
    states', who' := Extend(states', who', 1, 0, s4);
    states', who' := Extend(states', who', 1, 0, s5);
    states', who' := Extend(states', who', 1, 0, s6);
  }

  lemma PushSearch(s: State, v: Item) returns (s1: State, s2: State, s3: State)
    requires s.threads == map[0 := Idle] && |s.cells| == 1 && s.cells[0].sequence == s.enqueuePos
    ensures Next(s, 0, s1) && Next(s1, 0, s2) && Next(s2, 0, s3)
    ensures s3 == s.(threads := map[0 := PushReady(v, s.enqueuePos)])
  {
    s1 := s.(threads := map[0 := PushStart(v)]);
    s2 := s.(threads := map[0 := PushLoaded(v, s.enqueuePos)]);
    s3 := s.(threads := map[0 := PushReady(v, s.enqueuePos)]);
    assert s1 == Goto(s, 0, PushStart(v)) && Call(s, 0, s1);
    assert PushStep(s1, 0, s2);
    assert PushStep(s2, 0, s3);
  }

  lemma PushStore(s: State, v: Item) returns (s1: State, s2: State, s3: State)
    requires s.threads == map[0 := PushReady(v, s.enqueuePos)] && |s.cells| == 1 && s.cells[0].sequence == s.enqueuePos
    ensures Next(s, 0, s1) && Next(s1, 0, s2) && Next(s2, 0, s3)
    ensures s3 == State([Cell(s.enqueuePos + 1, Some(v))], s.enqueuePos + 1, s.dequeuePos, map[0 := Idle],
                        s.pushed + [v], s.popped)
  {
    var pos := s.enqueuePos;
    s1 := s.(threads := map[0 := PushClaimed(v, pos)], enqueuePos := pos + 1, pushed := s.pushed + [v]);
    s2 := s1.(threads := map[0 := PushBuilt(v, pos)], cells := [s.cells[0].(slot := Some(v))]);
    s3 := s2.(threads := map[0 := Idle], cells := [Cell(pos + 1, Some(v))]);
    assert PushStep(s, 0, s1);
    assert PushStep(s1, 0, s2);
    assert PushStep(s2, 0, s3);
  }

  /** A run that puts two values into a ring of one cell before any is taken out. */
  lemma SingleCellOverrun() returns (states: seq<State>, who: seq<Thread>)
    ensures Run(states, who, 1)
    ensures var s := states[|states| - 1]; s.enqueuePos == 2 && s.dequeuePos == 0
  {
    states, who := [State([Cell(0, None)], 0, 0, map[0 := Idle], [], map[])], [];
    states, who := PushOnce(states, who, 7);
    states, who := PushOnce(states, who, 8);
  }

  ghost predicate NeverOverrun(capacity: nat) {
    forall states: seq<State>, who: seq<Thread>, n: nat :: Run(states, who, capacity) && n < |states| ==>
      states[n].enqueuePos <= states[n].dequeuePos + capacity
  }

  /** The bound on outstanding values holds over all runs exactly when the ring has two cells or more. */
  lemma CapacityTwo(capacity: nat)
    requires capacity >= 1
    ensures NeverOverrun(capacity) <==> capacity >= 2
  {
    if capacity >= 2 {
      forall states: seq<State>, who: seq<Thread>, n: nat | Run(states, who, capacity) && n < |states|
        ensures states[n].enqueuePos <= states[n].dequeuePos + capacity
      {
        TicketOrder(states, who, capacity, n);
      }
    } else {
      var states, who := SingleCellOverrun();
      assert states[|states| - 1].enqueuePos > states[|states| - 1].dequeuePos + capacity;
    }
  }
}
