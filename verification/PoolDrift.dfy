/** The drift of CURRENT_SIZE is real: a quiet, empty pool that refuses every buffer can be reached (pool.rs:20-46, 119-152). */
module PoolDrift {
  import opened Prelude
  import opened PoolMachine
  import opened PoolOwnership
  import opened PoolProbe
  import opened PoolSolo
  import opened PoolLedger
  import opened PoolSoftLimit

  /** Empty buffers that take up every slot a search from offset 0 probes, then buffers of one byte that find no slot. */
  function WantedForDrift(c: Config): nat -> nat {
    (id: nat) => if id < c.maxLoop then 0 else 1
  }

  /**
   Everybody at rest; slots from lo up to hi hold empty buffers and all others nothing; `lost` bytes have been counted and
   dropped; the buffers still to be used are with callers.
   */
  ghost predicate Layout(c: Config, n: nat, s: State, lo: nat, hi: nat, lost: nat)
    requires c.limits.Some?
  {
    && c.Valid() && Shape(c, s) && s.threads == seq(n, i => Idle) && s.size == lost == s.leaked
    && (forall k :: 0 <= k < c.capacity ==>
          if lo <= k < hi then s.slots[k] == Available && s.cells[k] == Some(Buffer(k, 0))
          else s.slots[k] == Empty && s.cells[k] == None)
    && (forall id: nat :: hi <= id < c.maxLoop ==> id in s.outside && s.outside[id] == 0)
    && (forall id: nat :: c.maxLoop + lost <= id <= c.maxLoop + c.limits.value.total ==>
          id in s.outside && s.outside[id] == 1)
  }

  lemma PlainIndex(capacity: nat, k: nat)
    requires k < capacity < WORD
    ensures ProbeIndex(capacity, 0, k) == k
  {
    ModUnique(k, 0, k, WORD);
    ModUnique(k, 0, k, capacity);
  }

  /** From offset 0 the probes go through the slots in order. */
  lemma {:induction false} FirstIs(c: Config, slots: seq<SlotState>, wanted: set<SlotState>, i: nat, k: nat)
    requires c.Valid() && |slots| == c.capacity && k <= i < c.maxLoop
    requires slots[i] in wanted && forall j :: k <= j < i ==> slots[j] !in wanted
    ensures FirstProbe(c, slots, wanted, 0, k) == Some(i)
    decreases i - k
  {
    hide ProbeIndex;
    PlainIndex(c.capacity, k);
    if k < i {
      FirstIs(c, slots, wanted, i, k + 1);
    }
  }

  lemma NoneIs(c: Config, slots: seq<SlotState>, wanted: set<SlotState>)
    requires c.Valid() && |slots| == c.capacity && forall j :: 0 <= j < c.maxLoop ==> slots[j] !in wanted
    ensures FirstProbe(c, slots, wanted, 0, 0) == None
  {
    hide ProbeIndex, FirstProbe;
    FirstProbeFails(c, slots, wanted, 0, 0);
    forall j: nat | j < c.maxLoop
      ensures slots[ProbeIndex(c.capacity, 0, j)] !in wanted
    {
      PlainIndex(c.capacity, j);
    }
  }

  // ----- filling the probed slots with empty buffers -----

  lemma LoadOne(c: Config, n: nat, s0: State, i: nat) returns (s: State)
    requires Metered(c, n) && Layout(c, n, s0, 0, i, 0) && i < c.maxLoop
    ensures Leads(c, s0, 0, s) && Layout(c, n, s, 0, i + 1, 0)
  {
    hide Leads, FirstProbe;
    var v := Buffer(i, 0);
    SoloReturn(c, s0, 0, i, 0);
    s := AfterReturn(c, s0, 0, i, 0);
    assert !Refused(c, s0, v);
    FirstIs(c, s0.slots, {Empty, Destroyed}, i, 0);
    assert s0.threads[0 := Idle] == s0.threads;
    assert s.slots == s0.slots[i := Available] && s.cells == s0.cells[i := Some(v)] && s.outside == s0.outside - {i};
  }

  lemma {:induction false} Load(c: Config, n: nat, i: nat) returns (s: State)
    requires Metered(c, n) && i <= c.maxLoop
    ensures Reachable(c, n, s) && Layout(c, n, s, 0, i, 0)
  {
    hide Reachable, Leads;
    if i == 0 {
      s := Stock(c, n, c.maxLoop + c.limits.value.total + 1, WantedForDrift(c));
    } else {
      var s0 := Load(c, n, i - 1);
      s := LoadOne(c, n, s0, i - 1);
      ReachLeads(c, n, s0, 0, s);
    }
  }

  // ----- buffers that are counted and find no slot -----

  lemma SearchLoses(c: Config, s: State, t: nat, v: Buffer)
    requires Shape(c, s) && t < |s.threads|
    requires forall j :: 0 <= j < c.maxLoop ==> s.slots[j] == Available
    ensures AfterSearch(c, s, t, v, 0, 0) == Goto(Discard(s, v, c.limits.Some?), t, Idle)
  {
    hide FirstProbe;
    NoneIs(c, s.slots, {Empty, Destroyed});
  }

  lemma LoseLayout(c: Config, n: nat, s0: State, lost: nat, s: State)
    requires Metered(c, n) && lost < c.limits.value.total && Layout(c, n, s0, 0, c.maxLoop, lost)
    requires s.slots == s0.slots && s.cells == s0.cells && s.threads == s0.threads && s.size == s.leaked == lost + 1
    requires s.outside == s0.outside - {c.maxLoop + lost}
    ensures Layout(c, n, s, 0, c.maxLoop, lost + 1)
  {
  }

  lemma LoseOne(c: Config, n: nat, s0: State, lost: nat) returns (s: State)
    requires Metered(c, n) && 1 <= c.limits.value.single && lost < c.limits.value.total
    requires Layout(c, n, s0, 0, c.maxLoop, lost)
    ensures Leads(c, s0, 0, s) && Layout(c, n, s, 0, c.maxLoop, lost + 1)
  {
    hide Leads, AfterSearch;
    var id := c.maxLoop + lost;
    var v, given := Buffer(id, 1), s0.(outside := s0.outside - {id}, size := lost + 1);
    SoloReturn(c, s0, 0, id, 0);
    s := Goto(Discard(given, v, true), 0, Idle);
    assert Wrap(s0.size + 1) == lost + 1 by { TotalWithin(c.limits.value, n); }
    assert !Refused(c, s0, v);
    SearchLoses(c, given, 0, v);
    assert s0.threads[0 := Idle] == s0.threads;
    LoseLayout(c, n, s0, lost, s);
  }

  lemma {:induction false} Lose(c: Config, n: nat, lost: nat) returns (s: State)
    requires Metered(c, n) && 1 <= c.limits.value.single && lost <= c.limits.value.total
    ensures Reachable(c, n, s) && Layout(c, n, s, 0, c.maxLoop, lost)
  {
    hide Reachable, Leads, Layout;
    if lost == 0 {
      s := Load(c, n, c.maxLoop);
    } else {
      var s0 := Lose(c, n, lost - 1);
      ReachableOwned(c, n, s0);
      s := LoseOne(c, n, s0, lost - 1);
      ReachLeads(c, n, s0, 0, s);
    }
  }

  // ----- taking the empty buffers out again -----

  lemma UnloadOne(c: Config, n: nat, s0: State, i: nat) returns (s: State)
    requires Metered(c, n) && 1 <= c.limits.value.single && i < c.maxLoop && Owned(c, s0)
    requires Layout(c, n, s0, i, c.maxLoop, c.limits.value.total)
    ensures Leads(c, s0, 0, s) && Layout(c, n, s, i + 1, c.maxLoop, c.limits.value.total)
  {
    hide Leads, FirstProbe, Owned;
    var v := Buffer(i, 0);
    SoloTake(c, s0, 0, 0);
    s := AfterTake(c, s0, 0, 0, 0);
    FirstIs(c, s0.slots, {Available}, i, 0);
    assert s0.threads[0 := Idle] == s0.threads;
    assert s.slots == s0.slots[i := Empty] && s.cells == s0.cells[i := None] && s.outside == s0.outside[i := 0];
    assert s.size == Wrap(s0.size - 0) == s0.size;
  }

  lemma {:induction false} Unload(c: Config, n: nat, i: nat) returns (s: State)
    requires Metered(c, n) && 1 <= c.limits.value.single && i <= c.maxLoop
    ensures Reachable(c, n, s) && Layout(c, n, s, i, c.maxLoop, c.limits.value.total)
  {
    hide Reachable, Leads, Layout;
    if i == 0 {
      s := Lose(c, n, c.limits.value.total);
    } else {
      var s0 := Unload(c, n, i - 1);
      ReachableOwned(c, n, s0);
      s := UnloadOne(c, n, s0, i - 1);
      ReachLeads(c, n, s0, 0, s);
    }
  }

  /**
   In every metered pool a state can be reached in which nobody is doing anything, every slot is EMPTY, and yet the hook
   refuses every buffer of any capacity, among them one of a single byte that a caller is holding.
   */
  lemma DriftReached(c: Config, n: nat) returns (s: State, id: nat)
    requires Metered(c, n) && 1 <= c.limits.value.single
    ensures Reachable(c, n, s) && Shape(c, s) && |s.threads| == n
    ensures forall t :: 0 <= t < n ==> s.threads[t] == Idle
    ensures forall k :: 0 <= k < c.capacity ==> s.slots[k] == Empty && s.cells[k] == None
    ensures s.leaked == s.size == c.limits.value.total
    ensures forall v: Buffer :: v.capacity > 0 ==> Refused(c, s, v)
    ensures id in s.outside && s.outside[id] == 1
    ensures Leads(c, s, 0, Goto(Discard(s.(outside := s.outside - {id}), Buffer(id, 1), false), 0, Idle))
  {
    hide Reachable, Leads, AfterSearch, Refused;
    s := Unload(c, n, c.maxLoop);
    id := c.maxLoop + c.limits.value.total;
    FullRefuses(c, n, s);
    assert Refused(c, s, Buffer(id, 1));
    SoloReturn(c, s, 0, id, 0);
  }

  lemma FullRefuses(c: Config, n: nat, s: State)
    requires Metered(c, n) && s.size == c.limits.value.total
    ensures forall v: Buffer :: v.capacity > 0 ==> Refused(c, s, v)
  {
    forall v: Buffer | v.capacity > 0
      ensures Refused(c, s, v)
    {
      assert v.capacity <= c.limits.value.single ==> Wrap(s.size + v.capacity) == s.size + v.capacity by {
        TotalWithin(c.limits.value, n);
      }
    }
  }

  lemma TotalWithin(limits: Limits, n: nat)
    requires n > 0
    ensures limits.total <= SoftBound(limits, n)
  {
    MulMonotone(0, n - 1, limits.single);
  }

  /** `BUFFER_POOL` is such a pool, even with a single thread. */
  lemma BufferPoolDrifts() returns (s: State)
    ensures BUFFER_POOL.Valid() && Reachable(BUFFER_POOL, 1, s) && |s.threads| == 1
    ensures s.threads[0] == Idle && |s.cells| == 128 && forall k :: 0 <= k < 128 ==> s.cells[k] == None
    ensures forall v: Buffer :: v.capacity > 0 ==> Refused(BUFFER_POOL, s, v)
  {
    hide Reachable, Leads;
    var id;
    s, id := DriftReached(BUFFER_POOL, 1);
  }
}
