/** What one call does while every other thread stands still: the sequential meaning of `take` and `return_value`. */
module PoolSolo {
  import opened Prelude
  import opened PoolMachine
  import opened PoolOwnership
  import opened PoolProbe
  import opened PoolDestroy

  /** The first of the probes k, k+1, ... that finds a slot in one of the wanted states. */
  function FirstProbe(c: Config, slots: seq<SlotState>, wanted: set<SlotState>, offset: nat, k: nat): (r: Option<nat>)
    requires c.Valid() && |slots| == c.capacity
    ensures r.Some? ==> r.value < c.capacity && slots[r.value] in wanted
    decreases c.maxLoop - k
  {
    if k >= c.maxLoop then None
    else if slots[ProbeIndex(c.capacity, offset, k)] in wanted then Some(ProbeIndex(c.capacity, offset, k))
    else FirstProbe(c, slots, wanted, offset, k + 1)
  }

  /** A search finds nothing exactly when none of its probes does. */
  lemma {:induction false} FirstProbeFails(c: Config, slots: seq<SlotState>, wanted: set<SlotState>, offset: nat, k: nat)
    requires c.Valid() && |slots| == c.capacity
    ensures FirstProbe(c, slots, wanted, offset, k).None? <==>
      forall j: nat :: k <= j < c.maxLoop ==> slots[ProbeIndex(c.capacity, offset, j)] !in wanted
    decreases c.maxLoop - k
  {
    if k < c.maxLoop {
      FirstProbeFails(c, slots, wanted, offset, k + 1);
    }
  }

  /**
   Without interference a full search finds what there is to find: for any offset at which the probes cover the pool,
   `take` finds a value if there is one and `return_value` finds a free slot if there is one.
   */
  lemma FullSearchFinds(c: Config, slots: seq<SlotState>, wanted: set<SlotState>, offset: nat)
    requires c.Valid() && |slots| == c.capacity == c.maxLoop && c.capacity > 0 && offset < WORD
    requires Undisturbed(c.capacity, offset)
    ensures FirstProbe(c, slots, wanted, offset, 0).Some? <==> exists i :: 0 <= i < c.capacity && slots[i] in wanted
  {
    FirstProbeFails(c, slots, wanted, offset, 0);
    UndisturbedCovers(c.capacity, offset);
    forall i: nat | i < c.capacity && slots[i] in wanted
      ensures FirstProbe(c, slots, wanted, offset, 0).Some?
    {
      assert Reaches(c.capacity, offset, i);
      var j: nat :| j < c.capacity && ProbeIndex(c.capacity, offset, j) == i;
    }
  }

  /** Thread t alone can bring the pool from s to s'. */
  ghost predicate Leads(c: Config, s: State, t: nat, s': State)
    requires Shape(c, s)
  {
    exists run: Schedule :: Exec(c, s, run) == Some(s') && forall m :: m in run ==> m.0 == t
  }

  lemma LeadsHere(c: Config, s: State, t: nat)
    requires Shape(c, s)
    ensures Leads(c, s, t, s)
  {
    assert Exec(c, s, []) == Some(s);
  }

  lemma LeadsOn(c: Config, s: State, t: nat, a: Action, s': State)
    requires Shape(c, s) && Step(c, s, t, a).Some? && Leads(c, Step(c, s, t, a).value, t, s')
    ensures Leads(c, s, t, s')
  {
    var s1 := Step(c, s, t, a).value;
    var rest: Schedule :| Exec(c, s1, rest) == Some(s') && forall m :: m in rest ==> m.0 == t;
    ExecFirst(c, s, t, a, rest);
    assert Exec(c, s, [(t, a)] + rest) == Some(s');
  }

  // ----- take -----

  /** The value a solo take delivers: that of the first AVAILABLE slot probed, or a new one. */
  function Taken(c: Config, s: State, offset: nat, k: nat): Buffer
    requires Shape(c, s)
  {
    match FirstProbe(c, s.slots, {Available}, offset, k)
    case Some(i) => if s.cells[i].Some? then s.cells[i].value else Buffer(0, 0)
    case None => Buffer(s.next, c.initial)
  }

  function AfterTake(c: Config, s: State, t: nat, offset: nat, k: nat): State
    requires Shape(c, s) && t < |s.threads|
  {
    var v := Taken(c, s, offset, k);
    var s' := Goto(Deliver(s, v), t, Idle);
    match FirstProbe(c, s.slots, {Available}, offset, k)
    case Some(i) =>
      s'.(slots := s.slots[i := Empty], cells := s.cells[i := None],
          size := if c.limits.Some? then Wrap(s.size - v.capacity) else s.size)
    case None => s'.(next := s.next + 1)
  }

  /** The outcome does not depend on where in the call the thread was. */
  lemma AfterTakeForgets(c: Config, s: State, t: nat, p: Thread, offset: nat, k: nat)
    requires Shape(c, s) && t < |s.threads| && InRange(c, p)
    ensures AfterTake(c, Goto(s, t, p), t, offset, k) == AfterTake(c, s, t, offset, k)
  {
    assert s.threads[t := p][t := Idle] == s.threads[t := Idle];
  }

  lemma ReadMove(c: Config, s: State, t: nat, i: nat, v: Buffer)
    requires Shape(c, s) && t < |s.threads| && s.threads[t] == ReadCell(i) && s.cells[i] == Some(v)
    ensures Step(c, s, t, Advance(0)) == Some(Goto(s.(cells := s.cells[i := None]), t, Release(v, i)))
  {
  }

  lemma ReleaseMove(c: Config, s: State, t: nat, i: nat, v: Buffer)
    requires Shape(c, s) && t < |s.threads| && s.threads[t] == Release(v, i) && s.slots[i] == Taking
    ensures Step(c, s, t, Advance(0)) == Some(
      if c.limits.Some? then Goto(SetSlot(s, i, Empty), t, SubSize(v))
      else Goto(Deliver(SetSlot(s, i, Empty), v), t, Idle))
  {
  }

  lemma SubMove(c: Config, s: State, t: nat, v: Buffer)
    requires Shape(c, s) && t < |s.threads| && s.threads[t] == SubSize(v)
    ensures Step(c, s, t, Advance(0)) == Some(Goto(Deliver(s.(size := Wrap(s.size - v.capacity)), v), t, Idle))
  {
  }

  /** The end of a take that has won TAKING. */
  lemma TakeHit(c: Config, s: State, t: nat, i: nat, v: Buffer)
    requires Shape(c, s) && t < |s.threads| && s.threads[t] == ReadCell(i)
    requires s.slots[i] == Taking && s.cells[i] == Some(v)
    ensures Leads(c, s, t, Goto(Deliver(s, v), t, Idle).(
      slots := s.slots[i := Empty], cells := s.cells[i := None],
      size := if c.limits.Some? then Wrap(s.size - v.capacity) else s.size))
  {
    hide Leads;
    var s1 := Goto(s.(cells := s.cells[i := None]), t, Release(v, i));
    ReadMove(c, s, t, i, v);
    ReleaseMove(c, s1, t, i, v);
    var last := Step(c, s1, t, Advance(0)).value;
    if c.limits.Some? {
      SubMove(c, last, t, v);
      var end := Step(c, last, t, Advance(0)).value;
      assert end.threads == s.threads[t := Idle];
      LeadsHere(c, end, t);
      LeadsOn(c, last, t, Advance(0), end);
      LeadsOn(c, s1, t, Advance(0), end);
      LeadsOn(c, s, t, Advance(0), end);
    } else {
      assert last.threads == s.threads[t := Idle];
      LeadsHere(c, last, t);
      LeadsOn(c, s1, t, Advance(0), last);
      LeadsOn(c, s, t, Advance(0), last);
    }
  }

  lemma ProbeMove(c: Config, s: State, t: nat, offset: nat, k: nat)
    requires Shape(c, s) && t < |s.threads| && s.threads[t] == TakeProbe(offset, k) && k < c.maxLoop
    ensures var i := ProbeIndex(c.capacity, offset, k);
      Step(c, s, t, Advance(0)) == Some(
        if s.slots[i] == Available then Goto(SetSlot(s, i, Taking), t, ReadCell(i))
        else Goto(s, t, TakeProbe(offset, k + 1)))
  {
  }

  lemma TakeCreates(c: Config, s: State, t: nat, offset: nat, k: nat)
    requires Shape(c, s) && t < |s.threads| && s.threads[t] == TakeProbe(offset, k) && k >= c.maxLoop
    ensures Leads(c, s, t, AfterTake(c, s, t, offset, k))
  {
    var end := AfterTake(c, s, t, offset, k);
    assert Step(c, s, t, Advance(0)) == Some(end);
    LeadsHere(c, end, t);
    LeadsOn(c, s, t, Advance(0), end);
  }

  lemma TakeWins(c: Config, s: State, t: nat, offset: nat, k: nat, i: nat)
    requires Shape(c, s) && t < |s.threads| && s.threads[t] == TakeProbe(offset, k) && k < c.maxLoop
    requires i == ProbeIndex(c.capacity, offset, k) && s.slots[i] == Available && s.cells[i].Some?
    ensures Leads(c, s, t, AfterTake(c, s, t, offset, k))
  {
    hide Leads;
    ProbeMove(c, s, t, offset, k);
    var s1 := Goto(SetSlot(s, i, Taking), t, ReadCell(i));
    TakeHit(c, s1, t, i, s.cells[i].value);
    assert s1.threads[t := Idle] == s.threads[t := Idle] && s1.slots[i := Empty] == s.slots[i := Empty];
    LeadsOn(c, s, t, Advance(0), AfterTake(c, s, t, offset, k));
  }

  ghost predicate Filled(c: Config, s: State)
    requires Shape(c, s)
  {
    forall i :: 0 <= i < c.capacity && s.slots[i] == Available ==> s.cells[i].Some?
  }

  lemma TakeMisses(c: Config, s: State, t: nat, offset: nat, k: nat)
    requires Shape(c, s) && t < |s.threads| && s.threads[t] == TakeProbe(offset, k) && k < c.maxLoop
    requires s.slots[ProbeIndex(c.capacity, offset, k)] != Available
    requires var s1 := Goto(s, t, TakeProbe(offset, k + 1));
      Leads(c, s1, t, AfterTake(c, s1, t, offset, k + 1))
    ensures Leads(c, s, t, AfterTake(c, s, t, offset, k))
  {
    hide Leads;
    ProbeMove(c, s, t, offset, k);
    AfterTakeForgets(c, s, t, TakeProbe(offset, k + 1), offset, k + 1);
    LeadsOn(c, s, t, Advance(0), AfterTake(c, s, t, offset, k));
  }

  lemma {:induction false} TakeProbes(c: Config, s: State, t: nat, offset: nat, k: nat)
    requires Shape(c, s) && t < |s.threads| && s.threads[t] == TakeProbe(offset, k)
    requires Filled(c, s)
    ensures Leads(c, s, t, AfterTake(c, s, t, offset, k))
    decreases c.maxLoop - k
  {
    hide Leads, AfterTake, FirstProbe;
    if k >= c.maxLoop {
      TakeCreates(c, s, t, offset, k);
    } else if s.slots[ProbeIndex(c.capacity, offset, k)] == Available {
      TakeWins(c, s, t, offset, k, ProbeIndex(c.capacity, offset, k));
    } else {
      var s1 := Goto(s, t, TakeProbe(offset, k + 1));
      TakeProbes(c, s1, t, offset, k + 1);
      TakeMisses(c, s, t, offset, k);
    }
  }

  lemma OffsetMoves(c: Config, s: State, t: nat, offset: nat)
    requires Shape(c, s) && t < |s.threads| && s.threads[t] == Idle && offset < WORD
    ensures Step(c, s, t, StartTake) == Some(Goto(s, t, TakeOffset))
    ensures Step(c, Goto(s, t, TakeOffset), t, Advance(offset)) == Some(Goto(s, t, TakeProbe(offset, 0)))
  {
    assert s.threads[t := TakeOffset][t := TakeProbe(offset, 0)] == s.threads[t := TakeProbe(offset, 0)];
  }

  /** A solo take is a run of the machine with the outcome AfterTake. */
  lemma SoloTake(c: Config, s: State, t: nat, offset: nat)
    requires Owned(c, s) && t < |s.threads| && s.threads[t] == Idle && offset < WORD
    ensures Leads(c, s, t, AfterTake(c, s, t, offset, 0))
  {
    var s1, s2, end := Goto(s, t, TakeOffset), Goto(s, t, TakeProbe(offset, 0)), AfterTake(c, s, t, offset, 0);
    OffsetMoves(c, s, t, offset);
    forall i: nat | i < c.capacity && s.slots[i] == Available
      ensures s.cells[i].Some?
    {
      FreeSlotUnowned(c, s, i);
    }
    TakeProbes(c, s2, t, offset, 0);
    AfterTakeForgets(c, s, t, TakeProbe(offset, 0), offset, 0);
    LeadsOn(c, s1, t, Advance(offset), end);
    LeadsOn(c, s, t, StartTake, end);
  }

  // ----- return_value -----

  predicate Refused(c: Config, s: State, v: Buffer) {
    c.limits.Some? && (v.capacity > c.limits.value.single || Wrap(s.size + v.capacity) > c.limits.value.total)
  }

  /** The slot a solo return stores its value in: the first EMPTY one probed, unless a DESTROYED one comes before. */
  function StoreSlot(c: Config, s: State, offset: nat, k: nat): (r: Option<nat>)
    requires Shape(c, s)
    ensures r.Some? ==> r.value < c.capacity && s.slots[r.value] == Empty
  {
    var i := FirstProbe(c, s.slots, {Empty, Destroyed}, offset, k);
    if i.Some? && s.slots[i.value] == Empty then i else None
  }

  /** The outcome once the hook has accepted the value: stored, or dropped although counted. */
  function AfterSearch(c: Config, s: State, t: nat, v: Buffer, offset: nat, k: nat): State
    requires Shape(c, s) && t < |s.threads|
  {
    match StoreSlot(c, s, offset, k)
    case Some(i) => Goto(s.(slots := s.slots[i := Available], cells := s.cells[i := Some(v)]), t, Idle)
    case None => Goto(Discard(s, v, c.limits.Some?), t, Idle)
  }

  /** The outcome does not depend on where in the call the thread was. */
  lemma AfterSearchForgets(c: Config, s: State, t: nat, p: Thread, v: Buffer, offset: nat, k: nat)
    requires Shape(c, s) && t < |s.threads| && InRange(c, p)
    ensures AfterSearch(c, Goto(s, t, p), t, v, offset, k) == AfterSearch(c, s, t, v, offset, k)
  {
    assert s.threads[t := p][t := Idle] == s.threads[t := Idle];
  }

  function AfterReturn(c: Config, s: State, t: nat, id: nat, offset: nat): State
    requires Shape(c, s) && t < |s.threads| && id in s.outside
  {
    var v, given := Buffer(id, s.outside[id]), s.(outside := s.outside - {id});
    if Refused(c, s, v) then Goto(Discard(given, v, false), t, Idle)
    else
      AfterSearch(c, if c.limits.Some? then given.(size := Wrap(s.size + v.capacity)) else given, t, v, offset, 0)
  }

  lemma StoreMoves(c: Config, s: State, t: nat, v: Buffer, i: nat)
    requires Shape(c, s) && t < |s.threads| && s.threads[t] == WriteCell(v, i) && s.slots[i] == Writing
    ensures Leads(c, s, t, Goto(s.(slots := s.slots[i := Available], cells := s.cells[i := Some(v)]), t, Idle))
  {
    var s1 := Goto(s.(cells := s.cells[i := Some(v)]), t, Publish(i));
    assert Step(c, s, t, Advance(0)) == Some(s1);
    var end := Goto(SetSlot(s1, i, Available), t, Idle);
    assert Step(c, s1, t, Advance(0)) == Some(end);
    assert end.threads == s.threads[t := Idle];
    LeadsHere(c, end, t);
    LeadsOn(c, s1, t, Advance(0), end);
    LeadsOn(c, s, t, Advance(0), end);
  }

  lemma ReturnProbeMove(c: Config, s: State, t: nat, v: Buffer, offset: nat, k: nat)
    requires Shape(c, s) && t < |s.threads| && s.threads[t] == ReturnProbe(v, offset, k)
    ensures Step(c, s, t, Advance(0)) == Some(
      if k >= c.maxLoop then Goto(Discard(s, v, c.limits.Some?), t, Idle) else
      var i := ProbeIndex(c.capacity, offset, k);
      if s.slots[i] == Empty then Goto(SetSlot(s, i, Writing), t, WriteCell(v, i))
      else if s.slots[i] == Destroyed then Goto(Discard(s, v, c.limits.Some?), t, Idle)
      else Goto(s, t, ReturnProbe(v, offset, k + 1)))
  {
  }

  lemma ReturnWins(c: Config, s: State, t: nat, v: Buffer, offset: nat, k: nat, i: nat)
    requires Shape(c, s) && t < |s.threads| && s.threads[t] == ReturnProbe(v, offset, k) && k < c.maxLoop
    requires i == ProbeIndex(c.capacity, offset, k) && s.slots[i] == Empty
    ensures Leads(c, s, t, AfterSearch(c, s, t, v, offset, k))
  {
    ReturnProbeMove(c, s, t, v, offset, k);
    var s1 := Goto(SetSlot(s, i, Writing), t, WriteCell(v, i));
    StoreMoves(c, s1, t, v, i);
    assert s1.threads[t := Idle] == s.threads[t := Idle] && s1.slots[i := Available] == s.slots[i := Available];
    LeadsOn(c, s, t, Advance(0), AfterSearch(c, s, t, v, offset, k));
  }

  lemma {:induction false} ReturnProbes(c: Config, s: State, t: nat, v: Buffer, offset: nat, k: nat)
    requires Shape(c, s) && t < |s.threads| && s.threads[t] == ReturnProbe(v, offset, k)
    ensures Leads(c, s, t, AfterSearch(c, s, t, v, offset, k))
    decreases c.maxLoop - k
  {
    var end := AfterSearch(c, s, t, v, offset, k);
    if k < c.maxLoop && s.slots[ProbeIndex(c.capacity, offset, k)] == Empty {
      ReturnWins(c, s, t, v, offset, k, ProbeIndex(c.capacity, offset, k));
      return;
    }
    ReturnProbeMove(c, s, t, v, offset, k);
    if k >= c.maxLoop || s.slots[ProbeIndex(c.capacity, offset, k)] == Destroyed {
      LeadsHere(c, end, t);
    } else {
      ReturnProbes(c, Goto(s, t, ReturnProbe(v, offset, k + 1)), t, v, offset, k + 1);
      AfterSearchForgets(c, s, t, ReturnProbe(v, offset, k + 1), v, offset, k + 1);
    }
    LeadsOn(c, s, t, Advance(0), end);
  }

  lemma SearchFromOffset(c: Config, s: State, t: nat, v: Buffer, offset: nat)
    requires Shape(c, s) && t < |s.threads| && s.threads[t] == ReturnOffset(v) && offset < WORD
    ensures Leads(c, s, t, AfterSearch(c, s, t, v, offset, 0))
  {
    var s1 := Goto(s, t, ReturnProbe(v, offset, 0));
    assert Step(c, s, t, Advance(offset)) == Some(s1);
    ReturnProbes(c, s1, t, v, offset, 0);
    AfterSearchForgets(c, s, t, s1.threads[t], v, offset, 0);
    LeadsOn(c, s, t, Advance(offset), AfterSearch(c, s, t, v, offset, 0));
  }

  lemma HookMoves(c: Config, s: State, t: nat, v: Buffer, offset: nat)
    requires Shape(c, s) && t < |s.threads| && s.threads[t] == CheckLimit(v) && offset < WORD && c.limits.Some?
    ensures Leads(c, s, t,
      if Refused(c, s, v) then Goto(Discard(s, v, false), t, Idle)
      else AfterSearch(c, s.(size := Wrap(s.size + v.capacity)), t, v, offset, 0))
  {
    hide Leads;
    var s1 := Step(c, s, t, Advance(0)).value;
    if Refused(c, s, v) {
      LeadsHere(c, s1, t);
      LeadsOn(c, s, t, Advance(0), s1);
    } else {
      assert s1 == Goto(s, t, AddSize(v));
      var counted := s.(size := Wrap(s.size + v.capacity));
      var s2 := Goto(counted, t, ReturnOffset(v));
      assert s1.threads[t := ReturnOffset(v)] == s.threads[t := ReturnOffset(v)];
      assert Step(c, s1, t, Advance(0)) == Some(s2);
      SearchFromOffset(c, s2, t, v, offset);
      var end := AfterSearch(c, counted, t, v, offset, 0);
      AfterSearchForgets(c, counted, t, ReturnOffset(v), v, offset, 0);
      LeadsOn(c, s1, t, Advance(0), end);
      LeadsOn(c, s, t, Advance(0), end);
    }
  }

  /** A solo return is a run of the machine with the outcome AfterReturn. */
  lemma SoloReturn(c: Config, s: State, t: nat, id: nat, offset: nat)
    requires Shape(c, s) && t < |s.threads| && s.threads[t] == Idle && id in s.outside && offset < WORD
    ensures Leads(c, s, t, AfterReturn(c, s, t, id, offset))
  {
    hide Leads;
    var v, given := Buffer(id, s.outside[id]), s.(outside := s.outside - {id});
    var s1 := Goto(given, t, if c.limits.Some? then CheckLimit(v) else ReturnOffset(v));
    assert Step(c, s, t, StartReturn(id)) == Some(s1);
    assert s1.threads[t := Idle] == s.threads[t := Idle];
    if c.limits.Some? {
      HookMoves(c, s1, t, v, offset);
      AfterSearchForgets(c, given.(size := Wrap(s.size + v.capacity)), t, CheckLimit(v), v, offset, 0);
    } else {
      SearchFromOffset(c, s1, t, v, offset);
      AfterSearchForgets(c, given, t, ReturnOffset(v), v, offset, 0);
    }
    LeadsOn(c, s, t, StartReturn(id), AfterReturn(c, s, t, id, offset));
  }

  // ----- drop -----

  lemma LeadsThen(c: Config, s: State, t: nat, s1: State, s2: State)
    requires Shape(c, s) && Shape(c, s1) && Leads(c, s, t, s1) && Leads(c, s1, t, s2)
    ensures Leads(c, s, t, s2)
  {
    var first: Schedule :| Exec(c, s, first) == Some(s1) && forall m :: m in first ==> m.0 == t;
    var second: Schedule :| Exec(c, s1, second) == Some(s2) && forall m :: m in second ==> m.0 == t;
    ExecAppend(c, s, first, second);
    assert Exec(c, s, first + second) == Some(s2);
  }

  /** What the destroy loop makes of slot i when nobody is writing to it: DESTROYED, its value dropped if AVAILABLE. */
  function Cleared(c: Config, s: State, i: nat): State
    requires Shape(c, s) && i < c.capacity
  {
    var s' := SetSlot(s, i, Destroyed);
    if s.slots[i] == Available && s.cells[i].Some?
    then Discard(s'.(cells := s.cells[i := None]), s.cells[i].value, c.limits.Some?)
    else s'
  }

  lemma DestroyMove(c: Config, s: State, t: nat)
    requires Shape(c, s) && t < |s.threads| && IsDestroying(s.threads[t])
    ensures Step(c, s, t, Advance(0)) == Some(DestroyStep(c, s, t))
  {
  }

  lemma LoadMove(c: Config, s: State, t: nat, except: int, i: nat)
    requires Shape(c, s) && t < |s.threads| && s.threads[t] == DestroyLoad(except, i)
    ensures Step(c, s, t, Advance(0)) ==
      Some(Goto(s, t, if s.slots[i] == Destroyed then NextSlot(c, except - 1, i) else DestroyEmpty(except, i)))
  {
  }

  lemma EmptyMove(c: Config, s: State, t: nat, except: int, i: nat)
    requires Shape(c, s) && t < |s.threads| && i < c.capacity && s.slots[i] != Destroyed
    ensures Step(c, Goto(s, t, DestroyEmpty(except, i)), t, Advance(0)) == Some(
      if s.slots[i] == Empty then Goto(SetSlot(s, i, Destroyed), t, NextSlot(c, except - 1, i))
      else Goto(s, t, DestroyAvailable(except, i)))
  {
    var p := if s.slots[i] == Empty then NextSlot(c, except - 1, i) else DestroyAvailable(except, i);
    assert s.threads[t := DestroyEmpty(except, i)][t := p] == s.threads[t := p];
  }

  /** One round of the inner loop on a slot that is not being written. */
  lemma ClearsSlot(c: Config, s: State, t: nat, except: int, i: nat)
    requires Shape(c, s) && t < |s.threads| && s.threads[t] == DestroyLoad(except, i)
    requires s.slots[i] != Writing && (s.slots[i] == Available ==> s.cells[i].Some?)
    ensures Leads(c, s, t, Goto(Cleared(c, s, i), t, NextSlot(c, except - 1, i)))
  {
    hide Leads, Step;
    var end := Goto(Cleared(c, s, i), t, NextSlot(c, except - 1, i));
    LeadsHere(c, end, t);
    LoadMove(c, s, t, except, i);
    if s.slots[i] == Destroyed {
      assert s.slots[i := Destroyed] == s.slots;
    } else {
      EmptyMove(c, s, t, except, i);
      if s.slots[i] == Available {
        ClearsAvailable(c, s, t, except, i);
      } else if s.slots[i] == Taking {
        ClearsTaking(c, s, t, except, i);
      }
      LeadsOn(c, Goto(s, t, DestroyEmpty(except, i)), t, Advance(0), end);
    }
    LeadsOn(c, s, t, Advance(0), end);
  }

  lemma ClaimMove(c: Config, s: State, t: nat, except: int, i: nat)
    requires Shape(c, s) && t < |s.threads| && i < c.capacity && s.slots[i] == Available && s.cells[i].Some?
    ensures Step(c, Goto(s, t, DestroyAvailable(except, i)), t, Advance(0))
         == Some(Goto(SetSlot(s, i, Destroyed), t, DestroyDrop(except, i)))
  {
    DestroyMove(c, Goto(s, t, DestroyAvailable(except, i)), t);
    assert s.threads[t := DestroyAvailable(except, i)][t := DestroyDrop(except, i)] == s.threads[t := DestroyDrop(except, i)];
  }

  lemma DropMove(c: Config, s: State, t: nat, except: int, i: nat)
    requires Shape(c, s) && t < |s.threads| && i < c.capacity && s.slots[i] == Available && s.cells[i].Some?
    ensures Step(c, Goto(SetSlot(s, i, Destroyed), t, DestroyDrop(except, i)), t, Advance(0))
         == Some(Goto(Cleared(c, s, i), t, NextSlot(c, except - 1, i)))
  {
    DestroyMove(c, Goto(SetSlot(s, i, Destroyed), t, DestroyDrop(except, i)), t);
    var p := NextSlot(c, except - 1, i);
    assert s.threads[t := DestroyDrop(except, i)][t := p] == s.threads[t := p];
  }

  lemma TakingMoves(c: Config, s: State, t: nat, except: int, i: nat)
    requires Shape(c, s) && t < |s.threads| && i < c.capacity && s.slots[i] == Taking
    ensures Step(c, Goto(s, t, DestroyAvailable(except, i)), t, Advance(0)) == Some(Goto(s, t, DestroyTaking(except, i)))
    ensures Step(c, Goto(s, t, DestroyTaking(except, i)), t, Advance(0))
         == Some(Goto(Cleared(c, s, i), t, NextSlot(c, except - 1, i)))
  {
    var p := NextSlot(c, except - 1, i);
    assert s.threads[t := DestroyAvailable(except, i)][t := DestroyTaking(except, i)] == s.threads[t := DestroyTaking(except, i)];
    assert s.threads[t := DestroyTaking(except, i)][t := p] == s.threads[t := p];
    DestroyMove(c, Goto(s, t, DestroyAvailable(except, i)), t);
    DestroyMove(c, Goto(s, t, DestroyTaking(except, i)), t);
  }

  lemma ClearsAvailable(c: Config, s: State, t: nat, except: int, i: nat)
    requires Shape(c, s) && t < |s.threads| && i < c.capacity
    requires s.slots[i] == Available && s.cells[i].Some?
    ensures Leads(c, Goto(s, t, DestroyAvailable(except, i)), t, Goto(Cleared(c, s, i), t, NextSlot(c, except - 1, i)))
  {
    hide Leads, Step;
    var end := Goto(Cleared(c, s, i), t, NextSlot(c, except - 1, i));
    ClaimMove(c, s, t, except, i);
    DropMove(c, s, t, except, i);
    LeadsHere(c, end, t);
    LeadsOn(c, Goto(SetSlot(s, i, Destroyed), t, DestroyDrop(except, i)), t, Advance(0), end);
    LeadsOn(c, Goto(s, t, DestroyAvailable(except, i)), t, Advance(0), end);
  }

  lemma ClearsTaking(c: Config, s: State, t: nat, except: int, i: nat)
    requires Shape(c, s) && t < |s.threads| && i < c.capacity && s.slots[i] == Taking
    ensures Leads(c, Goto(s, t, DestroyAvailable(except, i)), t, Goto(Cleared(c, s, i), t, NextSlot(c, except - 1, i)))
  {
    hide Leads, Step;
    var end := Goto(Cleared(c, s, i), t, NextSlot(c, except - 1, i));
    TakingMoves(c, s, t, except, i);
    LeadsHere(c, end, t);
    LeadsOn(c, Goto(s, t, DestroyTaking(except, i)), t, Advance(0), end);
    LeadsOn(c, Goto(s, t, DestroyAvailable(except, i)), t, Advance(0), end);
  }

  /** The state after the first i rounds of a pass. */
  ghost function ClearedUpTo(c: Config, s: State, i: nat): (s': State)
    requires Shape(c, s) && i <= c.capacity
    ensures Shape(c, s') && s'.threads == s.threads
    ensures forall j :: i <= j < c.capacity ==> s'.slots[j] == s.slots[j] && s'.cells[j] == s.cells[j]
    ensures forall j :: 0 <= j < i ==> s'.slots[j] == Destroyed
  {
    if i == 0 then s else Cleared(c, ClearedUpTo(c, s, i - 1), i - 1)
  }

  ghost function AfterDrop(c: Config, s: State, t: nat): State
    requires Shape(c, s) && t < |s.threads|
  {
    Goto(ClearedUpTo(c, s, c.capacity), t, Gone)
  }

  /** One round touches one slot. */
  lemma DropOneMore(c: Config, s: State, i: nat)
    requires Shape(c, s) && i < c.capacity && (s.slots[i] == Available ==> s.cells[i].Some?)
    ensures var before, s' := ClearedUpTo(c, s, i), ClearedUpTo(c, s, i + 1);
      && s'.slots == before.slots[i := Destroyed]
      && s'.cells == (if s.slots[i] == Available then before.cells[i := None] else before.cells)
      && s'.size == before.size && s'.outside == before.outside && s'.next == before.next
  {
    assert ClearedUpTo(c, s, i + 1) == Cleared(c, ClearedUpTo(c, s, i), i);
  }

  /** What dropping the pool means, slot by slot. */
  lemma {:induction false} DropMeaning(c: Config, s: State, i: nat)
    requires Owned(c, s) && i <= c.capacity
    ensures var s' := ClearedUpTo(c, s, i);
      && (forall j :: 0 <= j < i ==>
            s'.slots[j] == Destroyed && s'.cells[j] == if s.slots[j] == Available then None else s.cells[j])
      && s'.size == s.size && s'.outside == s.outside && s'.next == s.next
  {
    hide Cleared;
    if i > 0 {
      DropMeaning(c, s, i - 1);
      if s.slots[i - 1] == Available {
        FreeSlotUnowned(c, s, i - 1);
      }
      DropOneMore(c, s, i - 1);
    }
  }

  lemma RoundLeads(c: Config, s: State, t: nat, i: nat)
    requires Owned(c, s) && t < |s.threads| && i < c.capacity
    requires forall j :: 0 <= j < c.capacity ==> s.slots[j] != Writing
    ensures Leads(c, Goto(ClearedUpTo(c, s, i), t, DestroyLoad(c.capacity - i, i)), t,
                  Goto(ClearedUpTo(c, s, i + 1), t, NextSlot(c, c.capacity - i - 1, i)))
  {
    hide Leads;
    if s.slots[i] == Available {
      FreeSlotUnowned(c, s, i);
    }
    var before := ClearedUpTo(c, s, i);
    var s1 := Goto(before, t, DestroyLoad(c.capacity - i, i));
    ClearsSlot(c, s1, t, c.capacity - i, i);
    assert Goto(Cleared(c, s1, i), t, NextSlot(c, c.capacity - i - 1, i)).threads
        == before.threads[t := NextSlot(c, c.capacity - i - 1, i)];
  }

  /** The destroyer after i rounds of its first pass. */
  ghost function PassAt(c: Config, s: State, t: nat, i: nat): (s': State)
    requires Shape(c, s) && t < |s.threads| && i < c.capacity
    ensures Shape(c, s')
  {
    Goto(ClearedUpTo(c, s, i), t, DestroyLoad(c.capacity - i, i))
  }

  lemma PassOn(c: Config, s: State, t: nat, i: nat)
    requires Shape(c, s) && t < |s.threads| && i + 1 < c.capacity
    requires Leads(c, PassAt(c, s, t, 0), t, PassAt(c, s, t, i))
    requires Leads(c, PassAt(c, s, t, i), t, Goto(ClearedUpTo(c, s, i + 1), t, NextSlot(c, c.capacity - i - 1, i)))
    ensures Leads(c, PassAt(c, s, t, 0), t, PassAt(c, s, t, i + 1))
  {
    hide Leads, ClearedUpTo;
    LeadsThen(c, PassAt(c, s, t, 0), t, PassAt(c, s, t, i), PassAt(c, s, t, i + 1));
  }

  lemma {:induction false} PassLeads(c: Config, s: State, t: nat, i: nat)
    requires Owned(c, s) && t < |s.threads| && i < c.capacity
    requires forall j :: 0 <= j < c.capacity ==> s.slots[j] != Writing
    ensures Leads(c, PassAt(c, s, t, 0), t, PassAt(c, s, t, i))
  {
    hide Leads, ClearedUpTo, NextSlot;
    if i == 0 {
      LeadsHere(c, PassAt(c, s, t, 0), t);
    } else {
      PassLeads(c, s, t, i - 1);
      RoundLeads(c, s, t, i - 1);
      PassOn(c, s, t, i - 1);
    }
  }

  /** A solo drop is a run of the machine; one pass is enough. */
  lemma SoloDrop(c: Config, s: State, t: nat)
    requires Owned(c, s) && t < |s.threads| && s.threads[t] == Idle
    requires forall j :: 0 <= j < c.capacity ==> s.slots[j] != Writing
    ensures Leads(c, s, t, AfterDrop(c, s, t))
  {
    hide Leads, Cleared;
    var end := AfterDrop(c, s, t);
    if c.capacity == 0 {
      LeadsHere(c, end, t);
    } else {
      var last := c.capacity - 1;
      PassLeads(c, s, t, last);
      RoundLeads(c, s, t, last);
      LeadsThen(c, PassAt(c, s, t, 0), t, PassAt(c, s, t, last), end);
    }
    LeadsOn(c, s, t, StartDestroy, end);
  }

  // ----- when drop has to wait -----

  /** A thread leaves alone a slot that another is writing. */
  lemma WritingStays(c: Config, s: State, t: nat, a: Action, j: nat)
    requires Shape(c, s) && Step(c, s, t, a).Some? && j < c.capacity
    requires s.slots[j] == Writing && !Owns(s, t, j)
    ensures Step(c, s, t, a).value.slots[j] == Writing && !Owns(Step(c, s, t, a).value, t, j)
  {
    var p := s.threads[t];
    assert p == Idle || IsReturning(p) || IsTaking(p) || IsDestroying(p);
  }

  lemma {:induction false} WaitsForWriting(c: Config, s: State, t: nat, run: Schedule, j: nat)
    requires Owned(c, s) && AllCounting(c, s) && Exec(c, s, run).Some? && forall m :: m in run ==> m.0 == t
    requires j < c.capacity && t < |s.threads| && s.slots[j] == Writing && !Owns(s, t, j)
    ensures Exec(c, s, run).value.slots[j] == Writing && !Owns(Exec(c, s, run).value, t, j)
    ensures Exec(c, s, run).value.threads[t] != Gone
  {
    hide Step, Owned;
    if run != [] {
      var r := |run| - 1;
      assert run[r] in run && forall m :: m in run[..r] ==> m in run;
      WaitsForWriting(c, s, t, run[..r], j);
      WritingStays(c, Exec(c, s, run[..r]).value, t, run[r].1, j);
    }
    RunKeepsCounting(c, s, run);
  }

  /** Left to itself a thread gets through the destroy loop if and only if nobody is in the middle of writing to a slot. */
  lemma SoloDropExact(c: Config, s: State, t: nat)
    requires Owned(c, s) && AllCounting(c, s) && t < |s.threads| && s.threads[t] == Idle
    ensures CanGo(c, s, t) <==> forall j :: 0 <= j < c.capacity ==> s.slots[j] != Writing
  {
    hide Owned, AllCounting;
    assert Shape(c, s) by { ShapeOf(c, s); }
    if forall j :: 0 <= j < c.capacity ==> s.slots[j] != Writing {
      SoloDrop(c, s, t);
      assert Leads(c, s, t, AfterDrop(c, s, t));
    } else {
      var j :| 0 <= j < c.capacity && s.slots[j] == Writing;
      forall s' | Shape(c, s') && Leads(c, s, t, s')
        ensures t < |s'.threads| && s'.threads[t] != Gone
      {
        var run: Schedule :| Exec(c, s, run) == Some(s') && forall m :: m in run ==> m.0 == t;
        WaitsForWriting(c, s, t, run, j);
      }
    }
  }

  lemma ShapeOf(c: Config, s: State)
    requires Owned(c, s)
    ensures Shape(c, s)
  {
  }

  /** The thread can have left its destroy loop by moves of its own. */
  ghost predicate CanGo(c: Config, s: State, t: nat)
    requires Shape(c, s)
  {
    exists s' :: Shape(c, s') && Leads(c, s, t, s') && t < |s'.threads| && s'.threads[t] == Gone
  }
}
