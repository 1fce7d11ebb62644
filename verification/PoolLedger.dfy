/** The shared size counter of `BUFFER_POOL` and its soft limit (crates/io/src/pool.rs:20-46, 119-152). */
module PoolLedger {
  import opened Prelude
  import opened PoolMachine
  import opened PoolOwnership

  function CellCapacity(cell: Option<Buffer>): int {
    if cell.Some? then cell.value.capacity else 0
  }

  /** Capacity a thread carries that the counter includes: after the return hook, or before the take hook. */
  function Counted(p: Thread): int {
    match p
    case ReturnOffset(v) => v.capacity
    case ReturnProbe(v, _, _) => v.capacity
    case WriteCell(v, _) => v.capacity
    case Release(v, _) => v.capacity
    case SubSize(v) => v.capacity
    case _ => 0
  }

  /** Capacity in the window between the check and the addition of the return hook. */
  function Pending(p: Thread): int {
    if p.AddSize? then p.v.capacity else 0
  }

  /** The most the counter can hold with n threads. */
  function SoftBound(limits: Limits, n: nat): int {
    limits.total + (n - 1) * limits.single
  }

  /** The buffer hooks are set, and the bound is within the counter's width. */
  ghost predicate Metered(c: Config, n: nat) {
    && c.Valid() && n > 0 && c.limits.Some?
    && SoftBound(c.limits.value, n) + c.limits.value.single < WORD
  }

  ghost predicate Ledger(c: Config, s: State)
    requires Shape(c, s) && Metered(c, |s.threads|)
  {
    && s.size == Total(s.cells, CellCapacity) + Total(s.threads, Counted) + s.leaked
    && s.size + Total(s.threads, Pending) <= SoftBound(c.limits.value, |s.threads|)
    && (forall t :: 0 <= t < |s.threads| ==> Pending(s.threads[t]) <= c.limits.value.single)
  }

  lemma InitLedger(c: Config, n: nat)
    requires Metered(c, n)
    ensures Ledger(c, Init(c, n))
  {
    var s := Init(c, n);
    TotalNothing(s.cells, CellCapacity);
    TotalNothing(s.threads, Counted);
    TotalNothing(s.threads, Pending);
  }

  /** What is in the counter is at least what any one thread carries, and no sum is negative. */
  lemma LedgerParts(c: Config, s: State)
    requires Shape(c, s) && Metered(c, |s.threads|) && Ledger(c, s)
    ensures Total(s.cells, CellCapacity) >= 0 && Total(s.threads, Pending) >= 0
    ensures s.leaked <= s.size <= SoftBound(c.limits.value, |s.threads|)
    ensures forall t :: 0 <= t < |s.threads| ==> Counted(s.threads[t]) + s.leaked <= s.size
  {
    TotalAtLeast(s.cells, CellCapacity);
    TotalAtLeast(s.threads, Counted);
    TotalAtLeast(s.threads, Pending);
  }

  /** How the sums change when thread t moves and cell j may be rewritten. */
  lemma SumsAfter(s: State, s': State, t: nat, j: nat)
    requires t < |s.threads| == |s'.threads| && s'.threads == s.threads[t := s'.threads[t]]
    requires s'.cells == s.cells
      || (j < |s.cells| == |s'.cells| && s'.cells == s.cells[j := s'.cells[j]])
    ensures Total(s'.threads, Counted) - Counted(s'.threads[t]) == Total(s.threads, Counted) - Counted(s.threads[t])
    ensures Total(s'.threads, Pending) - Pending(s'.threads[t]) == Total(s.threads, Pending) - Pending(s.threads[t])
    ensures s'.cells != s.cells ==>
      Total(s'.cells, CellCapacity) - CellCapacity(s'.cells[j])
        == Total(s.cells, CellCapacity) - CellCapacity(s.cells[j])
  {
    TotalChange(s.threads, s'.threads, Counted, t);
    TotalChange(s.threads, s'.threads, Pending, t);
    if s'.cells != s.cells {
      TotalChange(s.cells, s'.cells, CellCapacity, j);
    }
  }

  /** Passing the check leaves room for one buffer of every other thread that has passed it too. */
  lemma CheckKeepsLedger(c: Config, s: State, t: nat, offset: nat)
    requires Owned(c, s) && Metered(c, |s.threads|) && Ledger(c, s)
    requires t < |s.threads| && s.threads[t].CheckLimit?
    ensures Ledger(c, ReturnStep(c, s, t, offset))
  {
    var s', v, n := ReturnStep(c, s, t, offset), s.threads[t].v, |s.threads|;
    SumsAfter(s, s', t, 0);
    LedgerParts(c, s);
    if s'.threads[t].AddSize? {
      assert s.size + v.capacity < WORD;
      assert s.size + v.capacity <= c.limits.value.total;
      TotalAtMostBut(s.threads, Pending, t, c.limits.value.single);
    }
  }

  function CapacityAt(s: State, j: nat): int {
    if j < |s.cells| then CellCapacity(s.cells[j]) else 0
  }

  /** A transition that balances what it adds and removes, and adds no more than what was pending. */
  lemma BalancedKeepsLedger(c: Config, s: State, s': State, t: nat, j: nat)
    requires Shape(c, s) && Metered(c, |s.threads|) && Ledger(c, s) && Shape(c, s')
    requires t < |s.threads| == |s'.threads| && s'.threads == s.threads[t := s'.threads[t]]
    requires s'.cells == s.cells || (j < c.capacity && s'.cells == s.cells[j := s'.cells[j]])
    requires s'.size - Counted(s'.threads[t]) - s'.leaked - CapacityAt(s', j)
          == s.size - Counted(s.threads[t]) - s.leaked - CapacityAt(s, j)
    requires s'.size + Pending(s'.threads[t]) <= s.size + Pending(s.threads[t])
    requires Pending(s'.threads[t]) <= c.limits.value.single
    ensures Ledger(c, s')
  {
    SumsAfter(s, s', t, j);
  }

  lemma ReturnKeepsLedger(c: Config, s: State, t: nat, offset: nat)
    requires Owned(c, s) && Metered(c, |s.threads|) && Ledger(c, s)
    requires t < |s.threads| && IsReturning(s.threads[t]) && !s.threads[t].CheckLimit?
    ensures Ledger(c, ReturnStep(c, s, t, offset))
  {
    var p := s.threads[t];
    assert Local(s, p);
    if p.AddSize? {
      assert s.size + Pending(p) < WORD by {
        TotalAtLeast(s.threads, Pending);
      }
    }
    BalancedKeepsLedger(c, s, ReturnStep(c, s, t, offset), t, if Slot(p).Some? then Slot(p).value else 0);
  }

  lemma TakeKeepsLedger(c: Config, s: State, t: nat, offset: nat)
    requires Owned(c, s) && Metered(c, |s.threads|) && Ledger(c, s)
    requires t < |s.threads| && IsTaking(s.threads[t])
    ensures Ledger(c, TakeStep(c, s, t, offset))
  {
    hide Ledger;
    var p := s.threads[t];
    assert Local(s, p);
    LedgerParts(c, s);
    if p.SubSize? {
      assert Counted(p) == p.v.capacity <= s.size < WORD;
    }
    BalancedKeepsLedger(c, s, TakeStep(c, s, t, offset), t, if Slot(p).Some? then Slot(p).value else 0);
  }

  lemma DestroyKeepsLedger(c: Config, s: State, t: nat)
    requires Owned(c, s) && Metered(c, |s.threads|) && Ledger(c, s)
    requires t < |s.threads| && IsDestroying(s.threads[t])
    ensures Ledger(c, DestroyStep(c, s, t))
  {
    hide Ledger;
    assert Local(s, s.threads[t]);
    BalancedKeepsLedger(c, s, DestroyStep(c, s, t), t, s.threads[t].slot);
  }

  lemma StepKeepsLedger(c: Config, s: State, t: nat, a: Action)
    requires Owned(c, s) && Metered(c, |s.threads|) && Ledger(c, s) && Step(c, s, t, a).Some?
    ensures Ledger(c, Step(c, s, t, a).value)
  {
    var p, s' := s.threads[t], Step(c, s, t, a).value;
    if p == Idle {
      assert s'.threads == s.threads[t := s'.threads[t]];
      SumsAfter(s, s', t, 0);
    } else if p.CheckLimit? {
      CheckKeepsLedger(c, s, t, a.offset);
    } else if IsReturning(p) {
      ReturnKeepsLedger(c, s, t, a.offset);
    } else if IsTaking(p) {
      TakeKeepsLedger(c, s, t, a.offset);
    } else {
      DestroyKeepsLedger(c, s, t);
    }
  }

  lemma {:induction false} RunKeepsLedger(c: Config, s: State, run: Schedule)
    requires Owned(c, s) && Metered(c, |s.threads|) && Ledger(c, s) && Exec(c, s, run).Some?
    ensures Ledger(c, Exec(c, s, run).value)
  {
    if run != [] {
      var r := |run| - 1;
      RunKeepsOwned(c, s, run[..r]);
      RunKeepsLedger(c, s, run[..r]);
      StepKeepsLedger(c, Exec(c, s, run[..r]).value, run[r].0, run[r].1);
    }
  }

  /**
   In every reachable state the counter is exactly the capacity in cells, plus what is in transit between a hook and a
   cell, plus what was accepted but dropped; so no subtraction underflows, and with n threads racing through the
   check the counter exceeds the limit by at most one buffer for each other thread.
   */
  lemma CounterExact(c: Config, n: nat, run: Schedule, s: State)
    requires Metered(c, n) && Exec(c, Init(c, n), run) == Some(s)
    ensures s.size == Total(s.cells, CellCapacity) + Total(s.threads, Counted) + s.leaked
    ensures s.size <= SoftBound(c.limits.value, n)
    ensures forall t :: 0 <= t < n && s.threads[t].SubSize? ==> s.threads[t].v.capacity <= s.size
  {
    InitOwned(c, n);
    InitLedger(c, n);
    RunKeepsLedger(c, Init(c, n), run);
    LedgerParts(c, s);
    forall t | 0 <= t < n && s.threads[t].SubSize?
      ensures s.threads[t].v.capacity <= s.size
    {
      assert Counted(s.threads[t]) == s.threads[t].v.capacity;
    }
  }

  /** What the return hook decides, in terms of where counted capacity is. */
  lemma RefusesExactly(c: Config, n: nat, run: Schedule, s: State, t: nat, offset: nat)
    requires Metered(c, n) && Exec(c, Init(c, n), run) == Some(s)
    requires t < n && s.threads[t].CheckLimit?
    ensures var v := s.threads[t].v;
      ReturnStep(c, s, t, offset).threads[t] == Idle <==>
        || v.capacity > c.limits.value.single
        || Total(s.cells, CellCapacity) + Total(s.threads, Counted) + s.leaked + v.capacity > c.limits.value.total
    ensures ReturnStep(c, s, t, offset).threads[t] == Idle ==>
      ReturnStep(c, s, t, offset).dropped == s.dropped + multiset{s.threads[t].v.id}
  {
    hide Exec;
    CounterExact(c, n, run, s);
  }

  /**
   The counter never gets back what was accepted and then dropped. With the pool empty and nothing in transit the hook
   refuses a buffer exactly if it is too large by itself or together with that drift.
   */
  lemma DriftRefuses(c: Config, n: nat, run: Schedule, s: State, t: nat, offset: nat)
    requires Metered(c, n) && Exec(c, Init(c, n), run) == Some(s)
    requires t < n && s.threads[t].CheckLimit?
    requires forall i :: 0 <= i < c.capacity ==> s.cells[i] == None
    requires forall u :: 0 <= u < n ==> Counted(s.threads[u]) == 0
    ensures var v := s.threads[t].v;
      ReturnStep(c, s, t, offset).threads[t] == Idle <==>
        v.capacity > c.limits.value.single || s.leaked + v.capacity > c.limits.value.total
  {
    hide Exec;
    RefusesExactly(c, n, run, s, t, offset);
    TotalNothing(s.cells, CellCapacity);
    TotalNothing(s.threads, Counted);
  }

  /** Counted capacity that the next transition of a thread drops: its search fails, meets DESTROYED, or it destroys. */
  function LostBy(c: Config, s: State, p: Thread): nat
    requires Shape(c, s) && InRange(c, p)
  {
    if c.limits.None? then 0 else
    match p
    case ReturnProbe(v, offset, k) =>
      if k >= c.maxLoop || s.slots[ProbeIndex(c.capacity, offset, k)] == Destroyed then v.capacity else 0
    case DestroyDrop(_, i) => if s.cells[i].Some? then s.cells[i].value.capacity else 0
    case _ => 0
  }

  /** The drift grows by exactly that, so a step adds to it if and only if it drops a counted buffer of some capacity. */
  lemma DriftStep(c: Config, s: State, t: nat, a: Action)
    requires Shape(c, s) && Step(c, s, t, a).Some?
    ensures Step(c, s, t, a).value.leaked == s.leaked + LostBy(c, s, s.threads[t])
  {
    var p := s.threads[t];
    assert p == Idle || IsReturning(p) || IsTaking(p) || IsDestroying(p);
  }

  /** The drift is for ever: no continuation of a run makes up for it. */
  lemma {:induction false} DriftIsForever(c: Config, s: State, run: Schedule)
    requires Shape(c, s) && Exec(c, s, run).Some?
    ensures s.leaked <= Exec(c, s, run).value.leaked
  {
    hide Step;
    if run != [] {
      var r := |run| - 1;
      DriftIsForever(c, s, run[..r]);
      DriftStep(c, Exec(c, s, run[..r]).value, run[r].0, run[r].1);
    }
  }

  /** The constants of `BUFFER_POOL`: 128 slots, 16 probes, buffers of 16 KiB at first and of 2 MiB at most. */
  const BUFFER_LIMITS: Limits := Limits(0x100_0000, 0x20_0000)
  const BUFFER_POOL: Config := Config(128, 16, 0x4000, Some(BUFFER_LIMITS))

  /** With fewer than 2^42 threads its counter is exact and never more than one buffer a thread above the limit. */
  lemma BufferPoolMetered(n: nat, run: Schedule, s: State)
    requires 0 < n < 0x400_0000_0000
    requires BUFFER_POOL.Valid() && Exec(BUFFER_POOL, Init(BUFFER_POOL, n), run) == Some(s)
    ensures s.size == Total(s.cells, CellCapacity) + Total(s.threads, Counted) + s.leaked
    ensures s.size <= 0x100_0000 + (n - 1) * 0x20_0000
  {
    hide Exec;
    CounterExact(BUFFER_POOL, n, run, s);
  }
}
