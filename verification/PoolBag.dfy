/**
 What the pool is: an atomic bag of at most CAPACITY values (crates/io/src/pool.rs:3-6, 89-152).

 The bag knows nothing of slots, states, probes or cells. A taker removes a member in one step or creates a value;
 a returner adds its value in one step or discards it.
 */
module PoolBag {
  import opened Prelude
  import opened PoolMachine
  import opened PoolOwnership

  datatype Op =
    | Resting
    | Acquiring
    | Got(v: Buffer)
    | Offering(v: Buffer, accepted: bool)
    | Clearing(claimed: Option<Buffer>)
    | Ended

  datatype Bag = Bag(
    values: multiset<Buffer>,
    ops: seq<Op>,
    outside: map<nat, nat>,
    dropped: multiset<nat>,
    next: nat)

  datatype Event =
    | Quiet
    | BeginTake
    | Remove(v: Buffer)
    | Create
    | Hand
    | BeginReturn(id: nat)
    | Accept
    | Refuse
    | Add
    | BeginDestroy
    | Claim(v: Buffer)
    | Drop(last: bool)
    | End
    | Change(id: nat, newCapacity: nat)

  predicate Accepted(c: Config, v: Buffer) {
    c.limits.Some? ==> v.capacity <= c.limits.value.single
  }

  function Become(b: Bag, t: nat, op: Op): Bag
    requires t < |b.ops|
  {
    b.(ops := b.ops[t := op])
  }

  /** The bag's own behaviour: what event e of thread t does, or None if it cannot happen. */
  function BagStep(c: Config, b: Bag, t: nat, e: Event): Option<Bag> {
    if t >= |b.ops| then None else
    var op := b.ops[t];
    match e
    case Quiet => Some(b)
    case BeginTake => if op.Resting? then Some(Become(b, t, Acquiring)) else None
    case Remove(v) =>
      if op.Acquiring? && v in b.values
      then Some(Become(b.(values := b.values - multiset{v}), t, Got(v))) else None
    case Create =>
      if op.Acquiring?
      then Some(Become(b.(outside := b.outside[b.next := c.initial], next := b.next + 1), t, Resting)) else None
    case Hand =>
      if op.Got? then Some(Become(b.(outside := b.outside[op.v.id := op.v.capacity]), t, Resting)) else None
    case BeginReturn(id) =>
      if op.Resting? && id in b.outside
      then Some(Become(b.(outside := b.outside - {id}), t, Offering(Buffer(id, b.outside[id]), c.limits.None?)))
      else None
    case Accept => if op.Offering? && Accepted(c, op.v) then Some(Become(b, t, Offering(op.v, true))) else None
    case Refuse =>
      if op.Offering? then Some(Become(b.(dropped := b.dropped + multiset{op.v.id}), t, Resting)) else None
    case Add =>
      if op.Offering? && op.accepted && |b.values| < c.capacity
      then Some(Become(b.(values := b.values + multiset{op.v}), t, Resting)) else None
    case BeginDestroy =>
      if op.Resting? then Some(Become(b, t, if c.capacity == 0 then Ended else Clearing(None))) else None
    case Claim(v) =>
      if op == Clearing(None) && v in b.values
      then Some(Become(b.(values := b.values - multiset{v}), t, Clearing(Some(v)))) else None
    case Drop(last) =>
      if op.Clearing? && op.claimed.Some?
      then Some(Become(b.(dropped := b.dropped + multiset{op.claimed.value.id}), t,
                       if last then Ended else Clearing(None)))
      else None
    case End => if op == Clearing(None) then Some(Become(b, t, Ended)) else None
    case Change(id, newCapacity) =>
      if op.Resting? && id in b.outside then Some(b.(outside := b.outside[id := newCapacity])) else None
  }

  function BagExec(c: Config, b: Bag, trace: seq<(nat, Event)>): Option<Bag> {
    if trace == [] then Some(b) else
    var before := BagExec(c, b, trace[..|trace| - 1]);
    if before.None? then None
    else BagStep(c, before.value, trace[|trace| - 1].0, trace[|trace| - 1].1)
  }

  // ----- the bag a state of the pool stands for -----

  function ValueIn(s: State, i: nat): Buffer {
    if i < |s.cells| && s.cells[i].Some? then s.cells[i].value else Buffer(0, 0)
  }

  /** A taker has its value from the moment it wins TAKING; a returner still holds its value until AVAILABLE. */
  function AbstractOp(c: Config, s: State, p: Thread): Op {
    match p
    case Idle => Resting
    case CheckLimit(v) => Offering(v, c.limits.None?)
    case AddSize(v) => Offering(v, true)
    case ReturnOffset(v) => Offering(v, true)
    case ReturnProbe(v, _, _) => Offering(v, true)
    case WriteCell(v, _) => Offering(v, true)
    case Publish(i) => Offering(ValueIn(s, i), true)
    case TakeOffset => Acquiring
    case TakeProbe(_, _) => Acquiring
    case ReadCell(i) => Got(ValueIn(s, i))
    case Release(v, _) => Got(v)
    case SubSize(v) => Got(v)
    case DestroyDrop(_, i) => Clearing(Some(ValueIn(s, i)))
    case Gone => Ended
    case _ => Clearing(None)
  }

  function Pooled(x: (SlotState, Option<Buffer>)): multiset<Buffer> {
    if x.0 == Available && x.1.Some? then multiset{x.1.value} else multiset{}
  }

  function Pairs(s: State): seq<(SlotState, Option<Buffer>)>
    requires |s.slots| == |s.cells|
  {
    seq(|s.slots|, i requires 0 <= i < |s.slots| => (s.slots[i], s.cells[i]))
  }

  ghost function Abstract(c: Config, s: State): Bag
    requires |s.slots| == |s.cells|
  {
    Bag(Collect(Pairs(s), Pooled), seq(|s.threads|, t requires 0 <= t < |s.threads| => AbstractOp(c, s, s.threads[t])),
        s.outside, s.dropped, s.next)
  }

  /** Only the moving thread's operation changes in the bag. */
  lemma OpsChange(c: Config, s: State, s': State, t: nat)
    requires Owned(c, s) && |s'.slots| == |s'.cells|
    requires t < |s.threads| == |s'.threads| && s'.threads == s.threads[t := s'.threads[t]]
    requires forall i: nat :: i < |s.cells| && !Owns(s, t, i) ==> i < |s'.cells| && s'.cells[i] == s.cells[i]
    ensures Abstract(c, s').ops == Abstract(c, s).ops[t := AbstractOp(c, s', s'.threads[t])]
  {
    forall u: nat | u < |s.threads| && u != t
      ensures AbstractOp(c, s', s'.threads[u]) == AbstractOp(c, s, s.threads[u])
    {
      if Slot(s.threads[u]).Some? {
        assert Owns(s, u, Slot(s.threads[u]).value);
        assert Local(s, s.threads[u]);
      }
    }
  }

  /** The bag after a transition that rewrites no slot and no cell. */
  lemma BagAfterQuietly(c: Config, s: State, s': State, t: nat)
    requires Owned(c, s) && s'.slots == s.slots && s'.cells == s.cells
    requires t < |s.threads| == |s'.threads| && s'.threads == s.threads[t := s'.threads[t]]
    ensures Abstract(c, s').values == Abstract(c, s).values
    ensures Abstract(c, s').ops == Abstract(c, s).ops[t := AbstractOp(c, s', s'.threads[t])]
  {
    assert Pairs(s') == Pairs(s);
    OpsChange(c, s, s', t);
  }

  /** The values in the bag after a transition that rewrites slot or cell j. */
  lemma ValuesAfter(c: Config, s: State, s': State, j: nat)
    requires |s.slots| == |s.cells| == c.capacity == |s'.slots| == |s'.cells| && j < c.capacity
    requires s'.slots == s.slots[j := s'.slots[j]] && s'.cells == s.cells[j := s'.cells[j]]
    ensures Pooled((s.slots[j], s.cells[j])) <= Abstract(c, s).values
    ensures Abstract(c, s').values
         == Abstract(c, s).values - Pooled((s.slots[j], s.cells[j])) + Pooled((s'.slots[j], s'.cells[j]))
    ensures |Abstract(c, s').values| <= c.capacity
  {
    assert Pairs(s') == Pairs(s)[j := (s'.slots[j], s'.cells[j])];
    CollectUpdate(Pairs(s), Pooled, j, (s'.slots[j], s'.cells[j]));
    CollectSize(Pairs(s'), Pooled);
  }

  /** The bag after a transition that rewrites slot j, or a cell of the thread's own. */
  lemma BagAfter(c: Config, s: State, s': State, t: nat, j: nat)
    requires Owned(c, s) && j < c.capacity == |s'.slots| == |s'.cells|
    requires t < |s.threads| == |s'.threads| && s'.threads == s.threads[t := s'.threads[t]]
    requires s'.slots == s.slots[j := s'.slots[j]] && s'.cells == s.cells[j := s'.cells[j]]
    requires Owns(s, t, j) || s'.cells == s.cells
    ensures Pooled((s.slots[j], s.cells[j])) <= Abstract(c, s).values
    ensures Abstract(c, s').values
         == Abstract(c, s).values - Pooled((s.slots[j], s.cells[j])) + Pooled((s'.slots[j], s'.cells[j]))
    ensures |Abstract(c, s').values| <= c.capacity
    ensures Abstract(c, s').ops == Abstract(c, s).ops[t := AbstractOp(c, s', s'.threads[t])]
  {
    hide Abstract, Pooled, AbstractOp;
    ValuesAfter(c, s, s', j);
    OpsChange(c, s, s', t);
  }

  lemma StartRefines(c: Config, s: State, t: nat, a: Action) returns (e: Event)
    requires Owned(c, s) && t < |s.threads| && s.threads[t] == Idle && Start(c, s, t, a).Some?
    ensures BagStep(c, Abstract(c, s), t, e) == Some(Abstract(c, Start(c, s, t, a).value))
  {
    var s' := Start(c, s, t, a).value;
    var b := Abstract(c, s);
    assert s'.threads == s.threads[t := s'.threads[t]];
    BagAfterQuietly(c, s, s', t);
    assert b.ops[t] == Resting;
    match a
    case StartTake => e := BeginTake;
    case StartReturn(id) => e := BeginReturn(id);
    case StartDestroy => e := BeginDestroy;
    case Resize(id, n) =>
      e := Change(id, n);
      assert b.ops[t := Resting] == b.ops;
  }

  /** A transition that moves no value in or out of AVAILABLE. */
  ghost predicate Still(c: Config, s: State, s': State, t: nat, j: nat)
    requires Owned(c, s)
  {
    && t < |s.threads| == |s'.threads| && s'.threads == s.threads[t := s'.threads[t]]
    && (|| (s'.slots == s.slots && s'.cells == s.cells)
        || (&& j < c.capacity == |s'.slots| == |s'.cells|
            && s'.slots == s.slots[j := s'.slots[j]] && s'.cells == s.cells[j := s'.cells[j]]
            && (Owns(s, t, j) || s'.cells == s.cells)
            && Pooled((s'.slots[j], s'.cells[j])) == Pooled((s.slots[j], s.cells[j]))))
  }

  lemma ValuesStay(c: Config, s: State, s': State, t: nat, j: nat)
    requires Owned(c, s) && Still(c, s, s', t, j)
    ensures Abstract(c, s).ops[t] == AbstractOp(c, s, s.threads[t])
    ensures Abstract(c, s') == Bag(Abstract(c, s).values, Abstract(c, s).ops[t := AbstractOp(c, s', s'.threads[t])],
                                   s'.outside, s'.dropped, s'.next)
  {
    if s'.slots == s.slots && s'.cells == s.cells {
      BagAfterQuietly(c, s, s', t);
    } else {
      BagAfter(c, s, s', t, j);
    }
  }

  /** A transition the bag does not see. */
  lemma Unseen(c: Config, s: State, s': State, t: nat, j: nat)
    requires Owned(c, s) && Still(c, s, s', t, j)
    requires s'.outside == s.outside && s'.dropped == s.dropped && s'.next == s.next
    requires AbstractOp(c, s', s'.threads[t]) == AbstractOp(c, s, s.threads[t])
    ensures Abstract(c, s') == Abstract(c, s)
  {
    ValuesStay(c, s, s', t, j);
  }

  /** A value enters the bag: WRITING -> AVAILABLE. */
  lemma PublishAdds(c: Config, s: State, t: nat)
    requires Owned(c, s) && t < |s.threads| && s.threads[t].Publish?
    ensures BagStep(c, Abstract(c, s), t, Add)
         == Some(Abstract(c, Goto(SetSlot(s, s.threads[t].slot, Available), t, Idle)))
  {
    var i := s.threads[t].slot;
    var s' := Goto(SetSlot(s, i, Available), t, Idle);
    assert Local(s, s.threads[t]) && Owns(s, t, i);
    BagAfter(c, s, s', t, i);
    assert Pooled((s'.slots[i], s'.cells[i])) == multiset{ValueIn(s, i)};
    var b, b' := Abstract(c, s), Abstract(c, s');
    assert b.ops[t] == Offering(ValueIn(s, i), true);
    assert b'.values == b.values + multiset{ValueIn(s, i)};
    assert |b'.values| == |b.values| + 1;
  }

  /** A value leaves the bag: AVAILABLE -> TAKING, or AVAILABLE -> DESTROYED. */
  lemma ClaimRemoves(c: Config, s: State, t: nat, i: nat, x: SlotState, p: Thread)
    requires Owned(c, s) && t < |s.threads| && i < c.capacity && s.slots[i] == Available && x != Available
    requires p.ReadCell? || p.DestroyDrop?
    requires p.slot == i
    ensures s.cells[i].Some? && s.cells[i].value in Abstract(c, s).values
    ensures var b, b' := Abstract(c, s), Abstract(c, Goto(SetSlot(s, i, x), t, p));
      b' == Become(b.(values := b.values - multiset{s.cells[i].value}), t, AbstractOp(c, s, p))
  {
    FreeSlotUnowned(c, s, i);
    var s' := Goto(SetSlot(s, i, x), t, p);
    BagAfter(c, s, s', t, i);
    assert Pooled((s.slots[i], s.cells[i])) == multiset{s.cells[i].value};
    assert Pooled((s'.slots[i], s'.cells[i])) == multiset{};
    assert AbstractOp(c, s', p) == AbstractOp(c, s, p);
    assert Abstract(c, s').values == Abstract(c, s).values - multiset{s.cells[i].value};
  }

  /** The hook refuses, no slot is free, or the pool is destroyed: the value is dropped. */
  lemma RefuseRefines(c: Config, s: State, t: nat, s': State)
    requires Owned(c, s) && t < |s.threads| && Carrying(s.threads[t]).Some?
    requires exists counted :: s' == Goto(Discard(s, Carrying(s.threads[t]).value, counted), t, Idle)
    ensures BagStep(c, Abstract(c, s), t, Refuse) == Some(Abstract(c, s'))
  {
    ValuesStay(c, s, s', t, 0);
  }

  lemma AcceptRefines(c: Config, s: State, t: nat, s': State)
    requires Owned(c, s) && t < |s.threads| && s.threads[t].CheckLimit? && Accepted(c, s.threads[t].v)
    requires s' == Goto(s, t, AddSize(s.threads[t].v))
    ensures BagStep(c, Abstract(c, s), t, Accept) == Some(Abstract(c, s'))
  {
    ValuesStay(c, s, s', t, 0);
  }

  /** The value of a returner that has no slot yet. */
  function Carrying(p: Thread): Option<Buffer> {
    match p
    case CheckLimit(v) => Some(v)
    case ReturnProbe(v, _, _) => Some(v)
    case _ => None
  }

  lemma ReturnRefines(c: Config, s: State, t: nat, offset: nat) returns (e: Event)
    requires Owned(c, s) && t < |s.threads| && IsReturning(s.threads[t])
    ensures BagStep(c, Abstract(c, s), t, e) == Some(Abstract(c, ReturnStep(c, s, t, offset)))
  {
    hide Abstract, BagStep;
    var p, s' := s.threads[t], ReturnStep(c, s, t, offset);
    assert Local(s, p);
    if p.Publish? {
      e := Add;
      PublishAdds(c, s, t);
    } else if s'.threads[t] == Idle {
      e := Refuse;
      RefuseRefines(c, s, t, s');
    } else if p.CheckLimit? {
      e := Accept;
      AcceptRefines(c, s, t, s');
    } else {
      e := Quiet;
      ReturnUnseen(c, s, t, offset);
      QuietStep(c, s, t);
    }
  }

  lemma QuietStep(c: Config, s: State, t: nat)
    requires |s.slots| == |s.cells| && t < |s.threads|
    ensures BagStep(c, Abstract(c, s), t, Quiet) == Some(Abstract(c, s))
  {
  }

  lemma ReturnUnseen(c: Config, s: State, t: nat, offset: nat)
    requires Owned(c, s) && t < |s.threads| && IsReturning(s.threads[t]) && !s.threads[t].Publish?
    requires ReturnStep(c, s, t, offset).threads[t] != Idle && !s.threads[t].CheckLimit?
    ensures Abstract(c, ReturnStep(c, s, t, offset)) == Abstract(c, s)
  {
    var p, s' := s.threads[t], ReturnStep(c, s, t, offset);
    assert Local(s, p);
    if p.WriteCell? {
      assert Owns(s, t, p.slot);
      Unseen(c, s, s', t, p.slot);
    } else if p.ReturnProbe? {
      Unseen(c, s, s', t, ProbeIndex(c.capacity, p.offset, p.k));
    } else {
      Unseen(c, s, s', t, 0);
    }
  }

  /** A taker that finds nothing creates a value. */
  lemma CreateRefines(c: Config, s: State, t: nat, s': State)
    requires Owned(c, s) && t < |s.threads| && s.threads[t].TakeProbe?
    requires s' == Goto(Deliver(s, Buffer(s.next, c.initial)).(next := s.next + 1), t, Idle)
    ensures BagStep(c, Abstract(c, s), t, Create) == Some(Abstract(c, s'))
  {
    ValuesStay(c, s, s', t, 0);
  }

  lemma TakeProbeRefines(c: Config, s: State, t: nat, offset: nat) returns (e: Event)
    requires Owned(c, s) && t < |s.threads| && s.threads[t].TakeProbe?
    ensures BagStep(c, Abstract(c, s), t, e) == Some(Abstract(c, TakeStep(c, s, t, offset)))
  {
    var p, s' := s.threads[t], TakeStep(c, s, t, offset);
    if p.k >= c.maxLoop {
      e := Create;
      CreateRefines(c, s, t, s');
    } else if s'.threads[t].ReadCell? {
      var i := ProbeIndex(c.capacity, p.offset, p.k);
      RemoveRefines(c, s, t, i);
      e := Remove(s.cells[i].value);
    } else {
      e := Quiet;
      Unseen(c, s, s', t, 0);
    }
  }

  lemma RemoveRefines(c: Config, s: State, t: nat, i: nat)
    requires Owned(c, s) && t < |s.threads| && s.threads[t].TakeProbe?
    requires i < c.capacity && s.slots[i] == Available
    ensures s.cells[i].Some?
    ensures BagStep(c, Abstract(c, s), t, Remove(s.cells[i].value))
         == Some(Abstract(c, Goto(SetSlot(s, i, Taking), t, ReadCell(i))))
  {
    hide Collect, Pairs;
    ClaimRemoves(c, s, t, i, Taking, ReadCell(i));
  }

  /** The taker's value reaches the caller. */
  lemma HandRefines(c: Config, s: State, s': State, t: nat, j: nat, v: Buffer)
    requires Owned(c, s) && Still(c, s, s', t, j)
    requires AbstractOp(c, s, s.threads[t]) == Got(v) && s'.threads[t] == Idle
    requires s'.outside == s.outside[v.id := v.capacity] && s'.dropped == s.dropped && s'.next == s.next
    ensures BagStep(c, Abstract(c, s), t, Hand) == Some(Abstract(c, s'))
  {
    ValuesStay(c, s, s', t, j);
  }

  lemma TakeRefines(c: Config, s: State, t: nat, offset: nat) returns (e: Event)
    requires Owned(c, s) && t < |s.threads| && IsTaking(s.threads[t])
    ensures BagStep(c, Abstract(c, s), t, e) == Some(Abstract(c, TakeStep(c, s, t, offset)))
  {
    var p, s' := s.threads[t], TakeStep(c, s, t, offset);
    assert Local(s, p);
    if p.TakeProbe? {
      e := TakeProbeRefines(c, s, t, offset);
    } else {
      var j := if Slot(p).Some? then Slot(p).value else 0;
      assert Slot(p).Some? ==> Owns(s, t, j);
      if s'.threads[t] == Idle {
        HandRefines(c, s, s', t, j, p.v);
        e := Hand;
      } else {
        Unseen(c, s, s', t, j);
        e := Quiet;
      }
    }
  }

  /** The operation ends without moving a value, or the bag sees nothing. */
  lemma EndsOrUnseen(c: Config, s: State, s': State, t: nat, j: nat)
    requires Owned(c, s) && Still(c, s, s', t, j)
    requires s'.outside == s.outside && s'.dropped == s.dropped && s'.next == s.next
    requires AbstractOp(c, s, s.threads[t]) == Clearing(None)
    requires AbstractOp(c, s', s'.threads[t]) in {Clearing(None), Ended}
    ensures var e := if AbstractOp(c, s', s'.threads[t]) == Ended then End else Quiet;
      BagStep(c, Abstract(c, s), t, e) == Some(Abstract(c, s'))
  {
    if AbstractOp(c, s', s'.threads[t]) == Ended {
      ValuesStay(c, s, s', t, j);
    } else {
      Unseen(c, s, s', t, j);
    }
  }

  /** A claimed value is dropped by the destroyer. */
  lemma DropRefines(c: Config, s: State, s': State, t: nat, i: nat, v: Buffer)
    requires Owned(c, s) && Still(c, s, s', t, i)
    requires AbstractOp(c, s, s.threads[t]) == Clearing(Some(v))
    requires s'.outside == s.outside && s'.dropped == s.dropped + multiset{v.id} && s'.next == s.next
    requires AbstractOp(c, s', s'.threads[t]) in {Clearing(None), Ended}
    ensures var last := AbstractOp(c, s', s'.threads[t]) == Ended;
      BagStep(c, Abstract(c, s), t, Drop(last)) == Some(Abstract(c, s'))
  {
    ValuesStay(c, s, s', t, i);
  }

  /** A probe of the destroy loop touches its slot's state at most. */
  lemma DestroyProbeFrame(c: Config, s: State, t: nat)
    requires Shape(c, s) && t < |s.threads| && IsDestroying(s.threads[t]) && !s.threads[t].DestroyDrop?
    requires !DestroyStep(c, s, t).threads[t].DestroyDrop?
    ensures var i, s' := s.threads[t].slot, DestroyStep(c, s, t);
      && s'.threads == s.threads[t := s'.threads[t]] && s'.cells == s.cells
      && s'.slots == s.slots[i := s'.slots[i]]
      && (s'.slots[i] == s.slots[i] || (s.slots[i] in {Empty, Taking} && s'.slots[i] == Destroyed))
      && s'.outside == s.outside && s'.dropped == s.dropped && s'.next == s.next
      && AbstractOp(c, s', s'.threads[t]) in {Clearing(None), Ended}
  {
    var i := s.threads[t].slot;
    assert s.slots[i := s.slots[i]] == s.slots;
  }

  lemma DestroyProbeStill(c: Config, s: State, t: nat)
    requires Owned(c, s) && t < |s.threads| && IsDestroying(s.threads[t]) && !s.threads[t].DestroyDrop?
    requires !DestroyStep(c, s, t).threads[t].DestroyDrop?
    ensures Still(c, s, DestroyStep(c, s, t), t, s.threads[t].slot)
    ensures var s' := DestroyStep(c, s, t);
      && s'.outside == s.outside && s'.dropped == s.dropped && s'.next == s.next
      && AbstractOp(c, s', s'.threads[t]) in {Clearing(None), Ended}
  {
    hide DestroyStep, AbstractOp;
    DestroyProbeFrame(c, s, t);
  }

  lemma DestroyProbeRefines(c: Config, s: State, t: nat) returns (e: Event)
    requires Owned(c, s) && t < |s.threads| && IsDestroying(s.threads[t]) && !s.threads[t].DestroyDrop?
    requires !DestroyStep(c, s, t).threads[t].DestroyDrop?
    ensures BagStep(c, Abstract(c, s), t, e) == Some(Abstract(c, DestroyStep(c, s, t)))
  {
    hide Abstract, BagStep, Still, DestroyStep;
    var p, s' := s.threads[t], DestroyStep(c, s, t);
    DestroyProbeStill(c, s, t);
    EndsOrUnseen(c, s, s', t, p.slot);
    e := if AbstractOp(c, s', s'.threads[t]) == Ended then End else Quiet;
  }

  lemma DestroyClaimRefines(c: Config, s: State, t: nat)
    requires Owned(c, s) && t < |s.threads| && s.threads[t].DestroyAvailable?
    requires s.slots[s.threads[t].slot] == Available
    ensures s.cells[s.threads[t].slot].Some?
    ensures BagStep(c, Abstract(c, s), t, Claim(s.cells[s.threads[t].slot].value))
         == Some(Abstract(c, DestroyStep(c, s, t)))
  {
    hide Collect, Pairs;
    var p := s.threads[t];
    ClaimRemoves(c, s, t, p.slot, Destroyed, DestroyDrop(p.except, p.slot));
    assert Abstract(c, s).ops[t] == Clearing(None);
  }

  lemma DestroyDropRefines(c: Config, s: State, t: nat) returns (e: Event)
    requires Owned(c, s) && t < |s.threads| && s.threads[t].DestroyDrop?
    ensures BagStep(c, Abstract(c, s), t, e) == Some(Abstract(c, DestroyStep(c, s, t)))
  {
    hide Abstract, BagStep;
    var p, s' := s.threads[t], DestroyStep(c, s, t);
    assert Local(s, p) && Owns(s, t, p.slot);
    DropRefines(c, s, s', t, p.slot, s.cells[p.slot].value);
    e := Drop(AbstractOp(c, s', s'.threads[t]) == Ended);
  }

  lemma DestroyRefines(c: Config, s: State, t: nat) returns (e: Event)
    requires Owned(c, s) && t < |s.threads| && IsDestroying(s.threads[t])
    ensures BagStep(c, Abstract(c, s), t, e) == Some(Abstract(c, DestroyStep(c, s, t)))
  {
    hide Abstract, BagStep;
    var p, s' := s.threads[t], DestroyStep(c, s, t);
    if p.DestroyDrop? {
      e := DestroyDropRefines(c, s, t);
    } else if s'.threads[t].DestroyDrop? {
      DestroyClaimRefines(c, s, t);
      e := Claim(s.cells[p.slot].value);
    } else {
      e := DestroyProbeRefines(c, s, t);
    }
  }

  /** One transition of the pool is one step of the bag, or no step. */
  lemma StepRefines(c: Config, s: State, t: nat, a: Action) returns (e: Event)
    requires Owned(c, s) && Step(c, s, t, a).Some?
    ensures BagStep(c, Abstract(c, s), t, e) == Some(Abstract(c, Step(c, s, t, a).value))
  {
    hide Abstract, BagStep;
    var p := s.threads[t];
    if p == Idle {
      e := StartRefines(c, s, t, a);
    } else if IsReturning(p) {
      e := ReturnRefines(c, s, t, a.offset);
    } else if IsTaking(p) {
      e := TakeRefines(c, s, t, a.offset);
    } else {
      e := DestroyRefines(c, s, t);
    }
  }

  lemma BagExecOneMore(c: Config, b: Bag, trace: seq<(nat, Event)>, t: nat, e: Event)
    requires BagExec(c, b, trace).Some?
    ensures BagExec(c, b, trace + [(t, e)]) == BagStep(c, BagExec(c, b, trace).value, t, e)
  {
    assert (trace + [(t, e)])[..|trace|] == trace;
  }

  lemma {:induction false} RunRefines(c: Config, s: State, run: Schedule) returns (trace: seq<(nat, Event)>)
    requires Owned(c, s) && Exec(c, s, run).Some?
    ensures |trace| == |run| && forall k :: 0 <= k < |run| ==> trace[k].0 == run[k].0
    ensures BagExec(c, Abstract(c, s), trace) == Some(Abstract(c, Exec(c, s, run).value))
  {
    hide Abstract, BagStep, Step;
    if run == [] {
      trace := [];
    } else {
      var r := |run| - 1;
      var before := RunRefines(c, s, run[..r]);
      RunKeepsOwned(c, s, run[..r]);
      var e := StepRefines(c, Exec(c, s, run[..r]).value, run[r].0, run[r].1);
      trace := before + [(run[r].0, e)];
      BagExecOneMore(c, Abstract(c, s), before, run[r].0, e);
    }
  }

  /** The pool refines the bag: every run of the pool is, transition for transition, a run of the bag. */
  lemma PoolRefinesBag(c: Config, n: nat, run: Schedule) returns (trace: seq<(nat, Event)>)
    requires c.Valid() && Exec(c, Init(c, n), run).Some?
    ensures |trace| == |run| && forall k :: 0 <= k < |run| ==> trace[k].0 == run[k].0
    ensures BagExec(c, Abstract(c, Init(c, n)), trace) == Some(Abstract(c, Exec(c, Init(c, n), run).value))
  {
    InitOwned(c, n);
    trace := RunRefines(c, Init(c, n), run);
  }

  // ----- what the bag promises -----

  /** The bag never exceeds its capacity, and holds and hands out only values the return hook has accepted. */
  ghost predicate BagSafe(c: Config, b: Bag) {
    && |b.values| <= c.capacity
    && (forall v :: v in b.values ==> Accepted(c, v))
    && (forall t :: 0 <= t < |b.ops| && b.ops[t].Got? ==> Accepted(c, b.ops[t].v))
    && (forall t :: 0 <= t < |b.ops| && b.ops[t].Offering? && b.ops[t].accepted ==> Accepted(c, b.ops[t].v))
  }

  /** The values a step of the bag leaves in it, and the operation it leaves its thread with. */
  lemma BagStepValues(c: Config, b: Bag, t: nat, e: Event)
    requires BagStep(c, b, t, e).Some?
    ensures var b' := BagStep(c, b, t, e).value;
      if e.Add? then b.ops[t].Offering? && b.ops[t].accepted && b'.values == b.values + multiset{b.ops[t].v}
        && |b.values| < c.capacity
      else b'.values <= b.values && |b'.values| <= |b.values|
  {
    var b' := BagStep(c, b, t, e).value;
    if !e.Add? {
      assert b'.values <= b.values;
      assert b.values == b'.values + (b.values - b'.values);
    }
  }

  lemma BagStepOps(c: Config, b: Bag, t: nat, e: Event)
    requires BagStep(c, b, t, e).Some?
    ensures t < |b.ops|
    ensures var b' := BagStep(c, b, t, e).value;
      |b'.ops| == |b.ops| && b'.ops == b.ops[t := b'.ops[t]]
    ensures var op, op' := b.ops[t], BagStep(c, b, t, e).value.ops[t];
      && (op'.Got? && op' != op ==> op'.v in b.values)
      && (op'.Offering? && op'.accepted && op' != op ==> Accepted(c, op'.v))
  {
    assert b.ops[t := b.ops[t]] == b.ops;
  }

  lemma BagStepSafe(c: Config, b: Bag, t: nat, e: Event)
    requires BagSafe(c, b) && BagStep(c, b, t, e).Some?
    ensures BagSafe(c, BagStep(c, b, t, e).value)
  {
    hide BagStep, Accepted;
    BagStepValues(c, b, t, e);
    BagStepOps(c, b, t, e);
  }

  lemma {:induction false} BagAlwaysSafe(c: Config, b: Bag, trace: seq<(nat, Event)>)
    requires BagSafe(c, b) && BagExec(c, b, trace).Some?
    ensures BagSafe(c, BagExec(c, b, trace).value)
  {
    if trace != [] {
      var r := |trace| - 1;
      BagAlwaysSafe(c, b, trace[..r]);
      BagStepSafe(c, BagExec(c, b, trace[..r]).value, trace[r].0, trace[r].1);
    }
  }

  lemma OnlyAcceptedValuesHandedOut(c: Config, n: nat, run: Schedule, s: State)
    requires c.Valid() && Exec(c, Init(c, n), run) == Some(s)
    ensures BagSafe(c, Abstract(c, s))
  {
    var trace := PoolRefinesBag(c, n, run);
    var b := Abstract(c, Init(c, n));
    assert b.values == multiset{} by {
      CollectNothing(Pairs(Init(c, n)), Pooled);
    }
    assert forall t :: 0 <= t < |b.ops| ==> b.ops[t] == Resting;
    BagAlwaysSafe(c, b, trace);
  }
}
