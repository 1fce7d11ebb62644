/**
 The lock-free pool of crates/io/src/pool.rs as a transition system.

 One transition is one compare-and-swap, one access to a cell, one access to the shared size counter, or one
 choice made by the environment. Any number of threads run `take`, `return_value` and the destroy loop of `Drop`;
 a run is any interleaving of their transitions.
 */
module PoolMachine {
  import opened Prelude

  /** The values of a slot's atomic state. */
  datatype SlotState = Empty | Writing | Available | Taking | Destroyed

  /** A pooled value: its identity, and the capacity the buffer hooks look at. */
  datatype Buffer = Buffer(id: nat, capacity: nat)

  /** The constants of the hooks of `BUFFER_POOL`. */
  datatype Limits = Limits(total: nat, single: nat)

  /** A pool with the hooks of `BUFFER_POOL`, or with no hooks at all. */
  datatype Config = Config(capacity: nat, maxLoop: nat, initial: nat, limits: Option<Limits>) {
    /** `with_max_search` caps the number of probes at the number of slots. */
    ghost predicate Valid() {
      maxLoop <= capacity < WORD
    }
  }

  /** Where a thread is. Each constructor names the transition the thread makes next. */
  datatype Thread =
    | Idle
    | CheckLimit(v: Buffer)                           // return hook: load the size and decide
    | AddSize(v: Buffer)                              // return hook: accepted, size not yet increased
    | ReturnOffset(v: Buffer)                         // next_id
    | ReturnProbe(v: Buffer, offset: nat, k: nat)     // CAS EMPTY -> WRITING
    | WriteCell(v: Buffer, slot: nat)
    | Publish(slot: nat)                              // CAS WRITING -> AVAILABLE
    | TakeOffset                                      // next_id
    | TakeProbe(offset: nat, k: nat)                  // CAS AVAILABLE -> TAKING
    | ReadCell(slot: nat)
    | Release(v: Buffer, slot: nat)                   // CAS TAKING -> EMPTY
    | SubSize(v: Buffer)                              // take hook
    | DestroyLoad(except: int, slot: nat)
    | DestroyEmpty(except: int, slot: nat)            // CAS EMPTY -> DESTROYED
    | DestroyAvailable(except: int, slot: nat)        // CAS AVAILABLE -> DESTROYED
    | DestroyDrop(except: int, slot: nat)             // claimed: the value is still in the cell
    | DestroyTaking(except: int, slot: nat)           // CAS TAKING -> DESTROYED
    | Gone                                            // the destroy loop has ended
    | Fault                                           // an uninitialised cell was read

  datatype State = State(
    slots: seq<SlotState>,
    cells: seq<Option<Buffer>>,      // None is an uninitialised cell
    size: nat,                       // CURRENT_SIZE
    threads: seq<Thread>,
    outside: map<nat, nat>,          // values in the hands of callers, with their capacities
    dropped: multiset<nat>,          // values whose destructor has run in the pool, once per run
    leaked: nat,                     // capacity counted by the return hook for values since dropped
    next: nat)                       // identity of the next value to be created

  /** What the environment chooses for a thread; `Advance` is the only choice inside an operation. */
  datatype Action =
    | StartTake
    | StartReturn(id: nat)
    | StartDestroy
    | Resize(id: nat, newCapacity: nat)   // a holder grows or shrinks a buffer it has taken
    | Advance(offset: nat)                // the offset matters to `next_id` alone

  function Wrap(x: int): nat { x % WORD }

  /** The slot of the k-th probe: `k.wrapping_add(offset).wrapping_rem(CAPACITY)`. */
  function ProbeIndex(capacity: nat, offset: nat, k: nat): (i: nat)
    requires capacity > 0
    ensures i < capacity
  {
    Wrap(k + offset) % capacity
  }

  /** The slot a thread has exclusive use of. */
  function Slot(p: Thread): Option<nat> {
    match p
    case WriteCell(_, i) => Some(i)
    case Publish(i) => Some(i)
    case ReadCell(i) => Some(i)
    case Release(_, i) => Some(i)
    case DestroyDrop(_, i) => Some(i)
    case _ => None
  }

  function Destroying(p: Thread): Option<(int, nat)> {
    match p
    case DestroyLoad(e, i) => Some((e, i))
    case DestroyEmpty(e, i) => Some((e, i))
    case DestroyAvailable(e, i) => Some((e, i))
    case DestroyDrop(e, i) => Some((e, i))
    case DestroyTaking(e, i) => Some((e, i))
    case _ => None
  }

  ghost predicate InRange(c: Config, p: Thread) {
    && (Slot(p).Some? ==> Slot(p).value < c.capacity)
    && (Destroying(p).Some? ==> Destroying(p).value.1 < c.capacity)
  }

  ghost predicate Shape(c: Config, s: State) {
    && c.Valid()
    && |s.slots| == |s.cells| == c.capacity
    && forall t :: 0 <= t < |s.threads| ==> InRange(c, s.threads[t])
  }

  function Init(c: Config, n: nat): State {
    State(seq(c.capacity, i => Empty), seq(c.capacity, i => None), 0, seq(n, i => Idle), map[], multiset{}, 0, 0)
  }

  // ----- the pieces of a transition -----

  function Goto(s: State, t: nat, p: Thread): State
    requires t < |s.threads|
  {
    s.(threads := s.threads[t := p])
  }

  function SetSlot(s: State, i: nat, x: SlotState): State
    requires i < |s.slots|
  {
    s.(slots := s.slots[i := x])
  }

  /** A value that is not put back: its destructor runs. */
  function Discard(s: State, v: Buffer, counted: bool): State {
    s.(dropped := s.dropped + multiset{v.id}, leaked := s.leaked + if counted then v.capacity else 0)
  }

  function Deliver(s: State, v: Buffer): State {
    s.(outside := s.outside[v.id := v.capacity])
  }

  /** The end of one iteration of the inner destroy loop, and of the outer one after the last slot. */
  function NextSlot(c: Config, except: int, i: nat): Thread {
    if i + 1 < c.capacity then DestroyLoad(except, i + 1)
    else if except != 0 then DestroyLoad(c.capacity, 0)
    else Gone
  }

  /** The operation an idle thread starts. */
  function Start(c: Config, s: State, t: nat, a: Action): (r: Option<State>)
    requires Shape(c, s) && t < |s.threads|
    ensures r.Some? ==> Shape(c, r.value) && |r.value.threads| == |s.threads|
  {
    match a
    case StartTake => Some(Goto(s, t, TakeOffset))
    case StartReturn(id) =>
      if id !in s.outside then None else
      var v := Buffer(id, s.outside[id]);
      var taken := s.(outside := s.outside - {id});
      Some(Goto(taken, t, if c.limits.Some? then CheckLimit(v) else ReturnOffset(v)))
    case StartDestroy => Some(Goto(s, t, if c.capacity == 0 then Gone else DestroyLoad(c.capacity, 0)))
    case Resize(id, newCapacity) =>
      if id !in s.outside then None else Some(s.(outside := s.outside[id := newCapacity]))
    case Advance(_) => None
  }

  /** The next transition of a thread inside `return_value`. */
  function ReturnStep(c: Config, s: State, t: nat, offset: nat): (s': State)
    requires Shape(c, s) && t < |s.threads|
    ensures Shape(c, s') && |s'.threads| == |s.threads|
  {
    match s.threads[t]
    case CheckLimit(v) =>
      if c.limits.Some? && (v.capacity > c.limits.value.single || Wrap(s.size + v.capacity) > c.limits.value.total)
      then Goto(Discard(s, v, false), t, Idle)
      else Goto(s, t, AddSize(v))
    case AddSize(v) => Goto(s.(size := Wrap(s.size + v.capacity)), t, ReturnOffset(v))
    case ReturnOffset(v) => Goto(s, t, ReturnProbe(v, Wrap(offset), 0))
    case ReturnProbe(v, o, k) =>
      if k >= c.maxLoop then Goto(Discard(s, v, c.limits.Some?), t, Idle) else
      var i := ProbeIndex(c.capacity, o, k);
      (match s.slots[i]
       case Empty => Goto(SetSlot(s, i, Writing), t, WriteCell(v, i))
       case Destroyed => Goto(Discard(s, v, c.limits.Some?), t, Idle)
       case _ => Goto(s, t, ReturnProbe(v, o, k + 1)))
    case WriteCell(v, i) => Goto(s.(cells := s.cells[i := Some(v)]), t, Publish(i))
    case Publish(i) => Goto(if s.slots[i] == Writing then SetSlot(s, i, Available) else s, t, Idle)
    case _ => s
  }

  /** The next transition of a thread inside `take`. */
  function TakeStep(c: Config, s: State, t: nat, offset: nat): (s': State)
    requires Shape(c, s) && t < |s.threads|
    ensures Shape(c, s') && |s'.threads| == |s.threads|
  {
    match s.threads[t]
    case TakeOffset => Goto(s, t, TakeProbe(Wrap(offset), 0))
    case TakeProbe(o, k) =>
      if k >= c.maxLoop then Goto(Deliver(s, Buffer(s.next, c.initial)).(next := s.next + 1), t, Idle) else
      var i := ProbeIndex(c.capacity, o, k);
      if s.slots[i] == Available then Goto(SetSlot(s, i, Taking), t, ReadCell(i))
      else Goto(s, t, TakeProbe(o, k + 1))
    case ReadCell(i) =>
      if s.cells[i].None? then Goto(s, t, Fault)
      else Goto(s.(cells := s.cells[i := None]), t, Release(s.cells[i].value, i))
    case Release(v, i) =>
      var freed := if s.slots[i] == Taking then SetSlot(s, i, Empty) else s;
      if c.limits.Some? then Goto(freed, t, SubSize(v)) else Goto(Deliver(freed, v), t, Idle)
    case SubSize(v) => Goto(Deliver(s.(size := Wrap(s.size - v.capacity)), v), t, Idle)
    case _ => s
  }

  /** The next transition of a thread inside the destroy loop. */
  function DestroyStep(c: Config, s: State, t: nat): (s': State)
    requires Shape(c, s) && t < |s.threads|
    ensures Shape(c, s') && |s'.threads| == |s.threads|
  {
    match s.threads[t]
    case DestroyLoad(e, i) =>
      Goto(s, t, if s.slots[i] == Destroyed then NextSlot(c, e - 1, i) else DestroyEmpty(e, i))
    case DestroyEmpty(e, i) =>
      (match s.slots[i]
       case Empty => Goto(SetSlot(s, i, Destroyed), t, NextSlot(c, e - 1, i))
       case Destroyed => Goto(s, t, NextSlot(c, e - 1, i))
       case _ => Goto(s, t, DestroyAvailable(e, i)))
    case DestroyAvailable(e, i) =>
      (match s.slots[i]
       case Available => Goto(SetSlot(s, i, Destroyed), t, DestroyDrop(e, i))
       case Destroyed => Goto(s, t, NextSlot(c, e - 1, i))
       case Taking => Goto(s, t, DestroyTaking(e, i))
       case _ => Goto(s, t, NextSlot(c, e, i)))
    case DestroyDrop(e, i) =>
      if s.cells[i].None? then Goto(s, t, Fault) else
      var emptied := Discard(s.(cells := s.cells[i := None]), s.cells[i].value, c.limits.Some?);
      Goto(emptied, t, NextSlot(c, e - 1, i))
    case DestroyTaking(e, i) =>
      (match s.slots[i]
       case Taking => Goto(SetSlot(s, i, Destroyed), t, NextSlot(c, e - 1, i))
       case Destroyed => Goto(s, t, NextSlot(c, e - 1, i))
       case _ => Goto(s, t, NextSlot(c, e, i)))
    case _ => s
  }

  predicate IsReturning(p: Thread) {
    p.CheckLimit? || p.AddSize? || p.ReturnOffset? || p.ReturnProbe? || p.WriteCell? || p.Publish?
  }

  predicate IsTaking(p: Thread) {
    p.TakeOffset? || p.TakeProbe? || p.ReadCell? || p.Release? || p.SubSize?
  }

  predicate IsDestroying(p: Thread) {
    Destroying(p).Some?
  }

  /** One transition of thread t, or None when the choice is not open to it. */
  function Step(c: Config, s: State, t: nat, a: Action): (r: Option<State>)
    requires Shape(c, s)
    ensures r.Some? ==> Shape(c, r.value) && |r.value.threads| == |s.threads| && t < |s.threads|
  {
    if t >= |s.threads| then None
    else if s.threads[t] == Idle then Start(c, s, t, a)
    else if !a.Advance? then None
    else if IsReturning(s.threads[t]) then Some(ReturnStep(c, s, t, a.offset))
    else if IsTaking(s.threads[t]) then Some(TakeStep(c, s, t, a.offset))
    else if IsDestroying(s.threads[t]) then Some(DestroyStep(c, s, t))
    else None
  }

  /** A schedule: which thread moves, and what it chooses. */
  type Schedule = seq<(nat, Action)>

  /** The state after a schedule, or None if it makes a choice that is not open. */
  function Exec(c: Config, s: State, run: Schedule): (r: Option<State>)
    requires Shape(c, s)
    ensures r.Some? ==> Shape(c, r.value) && |r.value.threads| == |s.threads|
  {
    if run == [] then Some(s) else
    var before := Exec(c, s, run[..|run| - 1]);
    if before.None? then None
    else Step(c, before.value, run[|run| - 1].0, run[|run| - 1].1)
  }

  lemma ExecOneMore(c: Config, s: State, run: Schedule, t: nat, a: Action)
    requires Shape(c, s) && Exec(c, s, run).Some?
    ensures Exec(c, s, run + [(t, a)]) == Step(c, Exec(c, s, run).value, t, a)
  {
    assert (run + [(t, a)])[..|run|] == run;
  }

  lemma {:induction false} ExecAppend(c: Config, s: State, first: Schedule, second: Schedule)
    requires Shape(c, s) && Exec(c, s, first).Some?
    ensures Exec(c, s, first + second) == Exec(c, Exec(c, s, first).value, second)
  {
    hide Step;
    if second == [] {
      assert first + second == first;
    } else {
      var n := |second| - 1;
      ExecAppend(c, s, first, second[..n]);
      assert (first + second)[..|first + second| - 1] == first + second[..n];
    }
  }

  /** A run that starts with one move. */
  lemma ExecFirst(c: Config, s: State, t: nat, a: Action, rest: Schedule)
    requires Shape(c, s) && Step(c, s, t, a).Some?
    ensures Exec(c, s, [(t, a)] + rest) == Exec(c, Step(c, s, t, a).value, rest)
  {
    assert Exec(c, s, []) == Some(s) && [] + [(t, a)] == [(t, a)];
    ExecOneMore(c, s, [], t, a);
    ExecAppend(c, s, [(t, a)], rest);
  }
}
