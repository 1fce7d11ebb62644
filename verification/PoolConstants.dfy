/** `BUFFER_POOL` in numbers, and how far each of them reaches (crates/io/src/pool.rs:20-46). */
module PoolConstants {
  import opened Prelude
  import opened PoolMachine
  import opened PoolOwnership
  import opened PoolProbe
  import opened PoolSolo
  import opened PoolLedger
  import opened PoolSoftLimit

  // ----- the hooks -----

  /** A buffer is refused if and only if it is over 2 MiB or would bring the counter over 16 MiB. */
  lemma BufferHook(n: nat, run: Schedule, s: State, t: nat, offset: nat)
    requires 0 < n < 0x400_0000_0000 && t < n
    requires BUFFER_POOL.Valid() && Exec(BUFFER_POOL, Init(BUFFER_POOL, n), run) == Some(s) && s.threads[t].CheckLimit?
    ensures ReturnStep(BUFFER_POOL, s, t, offset).threads[t] == Idle <==>
      s.threads[t].v.capacity > 2097152 || s.size + s.threads[t].v.capacity > 16777216
  {
    hide Exec;
    RefusesExactly(BUFFER_POOL, n, run, s, t, offset);
    CounterExact(BUFFER_POOL, n, run, s);
  }

  /** With n threads the counter can get to 16 MiB and 2 MiB for each thread but one, and no further. */
  lemma BufferPoolAttains(n: nat) returns (s: State)
    requires 0 < n < 0x400_0000_0000
    ensures BUFFER_POOL.Valid() && Reachable(BUFFER_POOL, n, s)
    ensures s.size == 16777216 + (n - 1) * 2097152
  {
    hide Reachable;
    s := SoftLimitAttained(BUFFER_POOL, n);
  }

  /** A take that finds nothing delivers a new buffer of 16 KiB. */
  lemma BufferPoolCreates(n: nat, t: nat, offset: nat) returns (s: State)
    requires t < n && offset < WORD
    ensures BUFFER_POOL.Valid()
    ensures Leads(BUFFER_POOL, Init(BUFFER_POOL, n), t, s) && s.outside == map[0 := 16384]
  {
    hide Leads;
    var c := BUFFER_POOL;
    InitOwned(c, n);
    FirstProbeFails(c, Init(c, n).slots, {Available}, offset, 0);
    SoloTake(c, Init(c, n), t, offset);
    s := AfterTake(c, Init(c, n), t, offset, 0);
  }

  // ----- the search -----

  ghost predicate Searching(c: Config, p: Thread) {
    (p.TakeProbe? || p.ReturnProbe?) ==> p.k <= c.maxLoop
  }

  lemma StepSearches(c: Config, s: State, t: nat, a: Action)
    requires Shape(c, s) && Step(c, s, t, a).Some? && forall u :: 0 <= u < |s.threads| ==> Searching(c, s.threads[u])
    ensures forall u :: 0 <= u < |s.threads| ==> Searching(c, Step(c, s, t, a).value.threads[u])
  {
    var p := s.threads[t];
    assert p == Idle || IsReturning(p) || IsTaking(p) || IsDestroying(p);
  }

  /** No search makes more probes than it may. */
  lemma {:induction false} EverySearchBounded(c: Config, n: nat, run: Schedule)
    requires c.Valid() && Exec(c, Init(c, n), run).Some?
    ensures forall u :: 0 <= u < n ==> Searching(c, Exec(c, Init(c, n), run).value.threads[u])
  {
    hide Step, Searching;
    if run == [] {
      AllIdle(c, n);
    } else {
      var r := |run| - 1;
      EverySearchBounded(c, n, run[..r]);
      StepSearches(c, Exec(c, Init(c, n), run[..r]).value, run[r].0, run[r].1);
    }
  }

  lemma AllIdle(c: Config, n: nat)
    ensures forall u :: 0 <= u < n ==> Searching(c, Init(c, n).threads[u])
  {
  }

  /** In an empty pool a taker gets to any number of fruitless probes it may make. */
  lemma {:induction false} SearchGoesOn(c: Config, n: nat, k: nat)
    requires c.Valid() && n > 0 && k <= c.maxLoop
    ensures Reachable(c, n, Goto(Init(c, n), 0, TakeProbe(0, k)))
  {
    hide Reachable;
    var s := Init(c, n);
    if k == 0 {
      StartsHere(c, n);
      OffsetMoves(c, s, 0, 0);
      ReachStep(c, n, s, 0, StartTake);
      ReachStep(c, n, Goto(s, 0, TakeOffset), 0, Advance(0));
    } else {
      SearchGoesOn(c, n, k - 1);
      var s0 := Goto(s, 0, TakeProbe(0, k - 1));
      ProbeMove(c, s0, 0, 0, k - 1);
      assert s.threads[0 := TakeProbe(0, k - 1)][0 := TakeProbe(0, k)] == s.threads[0 := TakeProbe(0, k)];
      ReachStep(c, n, s0, 0, Advance(0));
    }
  }

  lemma StartsHere(c: Config, n: nat)
    requires c.Valid()
    ensures Reachable(c, n, Init(c, n))
  {
    assert Exec(c, Init(c, n), []) == Some(Init(c, n));
  }

  /** A search of `BUFFER_POOL` makes sixteen probes if it finds nothing, and never more. */
  lemma SixteenProbes(n: nat, run: Schedule, s: State, t: nat)
    requires 0 < n && t < n && BUFFER_POOL.Valid() && Exec(BUFFER_POOL, Init(BUFFER_POOL, n), run) == Some(s)
    ensures s.threads[t].TakeProbe? || s.threads[t].ReturnProbe? ==> s.threads[t].k <= 16
    ensures Reachable(BUFFER_POOL, n, Goto(Init(BUFFER_POOL, n), 0, TakeProbe(0, 16)))
  {
    hide Reachable, Exec;
    EverySearchBounded(BUFFER_POOL, n, run);
    SearchGoesOn(BUFFER_POOL, n, 16);
  }

  // ----- the slots -----

  /** The first j slots hold empty buffers, the others nothing; everybody is at rest. */
  ghost predicate FilledUpTo(c: Config, n: nat, s: State, j: nat)
    requires c.limits.Some?
  {
    && c.Valid() && Shape(c, s) && s.threads == seq(n, i => Idle) && s.size == 0
    && (forall k :: 0 <= k < c.capacity ==> s.slots[k] == if k < j then Available else Empty)
    && (forall id: nat :: j <= id < c.capacity ==> id in s.outside && s.outside[id] == 0)
  }

  lemma FillNext(c: Config, n: nat, s0: State, j: nat) returns (s: State)
    requires Metered(c, n) && c.maxLoop > 0 && j < c.capacity && FilledUpTo(c, n, s0, j)
    ensures Leads(c, s0, 0, s) && FilledUpTo(c, n, s, j + 1)
  {
    hide Leads;
    ModUnique(j, 0, j, WORD);
    ModUnique(j, 0, j, c.capacity);
    assert ProbeIndex(c.capacity, j, 0) == j;
    assert FirstProbe(c, s0.slots, {Empty, Destroyed}, j, 0) == Some(j);
    hide FirstProbe, ProbeIndex;
    SoloReturn(c, s0, 0, j, j);
    s := AfterReturn(c, s0, 0, j, j);
    assert !Refused(c, s0, Buffer(j, 0));
    assert s0.threads[0 := Idle] == s0.threads;
    assert s.slots == s0.slots[j := Available] && s.outside == s0.outside - {j};
  }

  lemma {:induction false} FillSlots(c: Config, n: nat, j: nat) returns (s: State)
    requires Metered(c, n) && c.maxLoop > 0 && j <= c.capacity
    ensures Reachable(c, n, s) && FilledUpTo(c, n, s, j)
  {
    hide Reachable, Leads;
    if j == 0 {
      s := Stock(c, n, c.capacity, (id: nat) => 0);
    } else {
      var s0 := FillSlots(c, n, j - 1);
      s := FillNext(c, n, s0, j - 1);
      ReachLeads(c, n, s0, 0, s);
    }
  }

  /** All 128 slots of `BUFFER_POOL` can be AVAILABLE at once. */
  lemma BufferPoolFills() returns (s: State)
    ensures BUFFER_POOL.Valid() && Reachable(BUFFER_POOL, 1, s)
    ensures s.slots == seq(128, i => Available)
  {
    hide Reachable;
    s := FillSlots(BUFFER_POOL, 1, 128);
  }
}
