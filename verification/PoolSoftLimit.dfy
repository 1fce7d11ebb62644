/** The soft limit of `BUFFER_POOL` is exact: n threads racing through the check do reach it (pool.rs:33-46). */
module PoolSoftLimit {
  import opened Prelude
  import opened PoolMachine
  import opened PoolOwnership
  import opened PoolSolo
  import opened PoolLedger

  ghost predicate Reachable(c: Config, n: nat, s: State)
    requires c.Valid()
  {
    exists run: Schedule :: Exec(c, Init(c, n), run) == Some(s)
  }

  lemma ReachStep(c: Config, n: nat, s: State, t: nat, a: Action)
    requires c.Valid() && Reachable(c, n, s) && Shape(c, s) && Step(c, s, t, a).Some?
    ensures Reachable(c, n, Step(c, s, t, a).value)
  {
    var run: Schedule :| Exec(c, Init(c, n), run) == Some(s);
    ExecOneMore(c, Init(c, n), run, t, a);
    assert Exec(c, Init(c, n), run + [(t, a)]) == Some(Step(c, s, t, a).value);
  }

  lemma ReachLeads(c: Config, n: nat, s: State, t: nat, s': State)
    requires c.Valid() && Reachable(c, n, s) && Shape(c, s) && Leads(c, s, t, s')
    ensures Reachable(c, n, s')
  {
    var run: Schedule :| Exec(c, Init(c, n), run) == Some(s);
    var more: Schedule :| Exec(c, s, more) == Some(s') && forall m :: m in more ==> m.0 == t;
    ExecAppend(c, Init(c, n), run, more);
    assert Exec(c, Init(c, n), run + more) == Some(s');
  }

  lemma ReachableOwned(c: Config, n: nat, s: State)
    requires c.Valid() && Reachable(c, n, s)
    ensures Owned(c, s) && |s.threads| == n
  {
    var run: Schedule :| Exec(c, Init(c, n), run) == Some(s);
    EveryRunOwned(c, n, run);
  }

  /** Everybody at rest, the pool empty, and j buffers of the wanted capacities in the hands of callers. */
  ghost predicate Stocked(c: Config, n: nat, s: State, j: nat, wanted: nat -> nat)
    requires c.limits.Some?
  {
    && c.Valid() && Shape(c, s) && s.threads == seq(n, i => Idle) && s.size == 0 && s.next == j && s.leaked == 0
    && (forall i :: 0 <= i < c.capacity ==> s.slots[i] == Empty && s.cells[i] == None)
    && s.outside == map id: nat | id < j :: wanted(id)
  }

  /** Taking from an empty pool creates a buffer; its holder gives it the capacity it wants. */
  lemma StockOne(c: Config, n: nat, s0: State, j: nat, wanted: nat -> nat) returns (s1: State, s: State)
    requires Metered(c, n) && Owned(c, s0) && Stocked(c, n, s0, j, wanted)
    ensures Leads(c, s0, 0, s1) && Shape(c, s1)
    ensures Step(c, s1, 0, Resize(j, wanted(j))) == Some(s) && Stocked(c, n, s, j + 1, wanted)
  {
    hide Leads;
    assert FirstProbe(c, s0.slots, {Available}, 0, 0).None? by {
      FirstProbeFails(c, s0.slots, {Available}, 0, 0);
    }
    SoloTake(c, s0, 0, 0);
    s1 := AfterTake(c, s0, 0, 0, 0);
    assert s0.threads[0 := Idle] == s0.threads;
    s := s1.(outside := s1.outside[j := wanted(j)]);
  }

  lemma {:induction false} Stock(c: Config, n: nat, j: nat, wanted: nat -> nat) returns (s: State)
    requires Metered(c, n)
    ensures Reachable(c, n, s) && Stocked(c, n, s, j, wanted)
  {
    if j == 0 {
      s := Init(c, n);
      assert Exec(c, s, []) == Some(s);
    } else {
      var s0 := Stock(c, n, j - 1, wanted);
      ReachableOwned(c, n, s0);
      var s1;
      s1, s := StockOne(c, n, s0, j - 1, wanted);
      ReachLeads(c, n, s0, 0, s1);
      ReachStep(c, n, s1, 0, Resize(j - 1, wanted(j - 1)));
    }
  }

  /** Small buffers up to the limit less one, then one buffer of the largest kind for each thread. */
  function Wanted(limits: Limits, id: nat): nat {
    if id + limits.single < limits.total then 1 else limits.single
  }

  /** The first j buffers are back, stored or dropped but counted, and the others still outside. */
  ghost predicate Filled(c: Config, n: nat, s: State, j: nat)
    requires c.limits.Some?
  {
    && c.Valid() && Shape(c, s) && s.threads == seq(n, i => Idle) && s.size == j
    && (forall id: nat :: id in s.outside <==> j <= id < c.limits.value.total - c.limits.value.single + n)
    && (forall id: nat :: id in s.outside ==> s.outside[id] == Wanted(c.limits.value, id))
  }

  /** What a search for a slot leaves alone, whether it finds one or not. */
  lemma SearchLeaves(c: Config, s: State, t: nat, v: Buffer, offset: nat)
    requires Shape(c, s) && t < |s.threads|
    ensures var s' := AfterSearch(c, s, t, v, offset, 0);
      && |s'.slots| == |s'.cells| == c.capacity && s'.threads == s.threads[t := Idle]
      && s'.size == s.size && s'.outside == s.outside
  {
    hide StoreSlot;
  }

  /** Whether its search succeeds or not, a small buffer that is returned is counted. */
  lemma FillOne(c: Config, n: nat, s0: State, j: nat) returns (s: State)
    requires Metered(c, n) && Owned(c, s0) && Filled(c, n, s0, j)
    requires 1 <= c.limits.value.single && j < c.limits.value.total - c.limits.value.single
    ensures Leads(c, s0, 0, s) && |s.slots| == |s.cells| == c.capacity && Filled(c, n, s, j + 1)
  {
    hide Leads, AfterSearch, Owned;
    var v := Buffer(j, 1);
    assert s0.outside[j] == 1;
    SoloReturn(c, s0, 0, j, 0);
    s := AfterReturn(c, s0, 0, j, 0);
    var given := s0.(outside := s0.outside - {j}, size := Wrap(s0.size + 1));
    assert !Refused(c, s0, v);
    assert s == AfterSearch(c, given, 0, v, 0, 0);
    SearchLeaves(c, given, 0, v, 0);
    assert s0.threads[0 := Idle] == s0.threads;
  }

  lemma {:induction false} Fill(c: Config, n: nat, j: nat) returns (s: State)
    requires Metered(c, n) && 1 <= c.limits.value.single
    requires j <= c.limits.value.total - c.limits.value.single
    ensures Reachable(c, n, s) && Filled(c, n, s, j)
  {
    if j == 0 {
      s := Stock(c, n, c.limits.value.total - c.limits.value.single + n, (id: nat) => Wanted(c.limits.value, id));
    } else {
      var s0 := Fill(c, n, j - 1);
      ReachableOwned(c, n, s0);
      s := FillOne(c, n, s0, j - 1);
      ReachLeads(c, n, s0, 0, s);
    }
  }

  /** Threads before i have passed the check with a largest buffer and not yet counted it. */
  ghost predicate InWindow(c: Config, n: nat, s: State, i: nat)
    requires c.limits.Some?
  {
    var small := c.limits.value.total - c.limits.value.single;
    && c.Valid() && Shape(c, s) && |s.threads| == n && s.size == small
    && (forall t :: 0 <= t < n ==>
          if t < i then s.threads[t].AddSize? && s.threads[t].v.capacity == c.limits.value.single
          else s.threads[t] == Idle)
    && (forall id: nat :: small + i <= id < small + n ==>
          id in s.outside && s.outside[id] == c.limits.value.single)
  }

  lemma EnterOne(c: Config, n: nat, s0: State, t: nat) returns (s1: State, s: State)
    requires Metered(c, n) && 1 <= c.limits.value.single <= c.limits.value.total && t < n
    requires InWindow(c, n, s0, t)
    ensures Step(c, s0, t, StartReturn(c.limits.value.total - c.limits.value.single + t)) == Some(s1)
    ensures Shape(c, s1) && Step(c, s1, t, Advance(0)) == Some(s) && InWindow(c, n, s, t + 1)
  {
    var id := c.limits.value.total - c.limits.value.single + t;
    var v := Buffer(id, c.limits.value.single);
    assert id in s0.outside && s0.threads[t] == Idle;
    s1 := Goto(s0.(outside := s0.outside - {id}), t, CheckLimit(v));
    s := Goto(s1, t, AddSize(v));
    assert Wrap(s1.size + v.capacity) == c.limits.value.total;
  }

  lemma FilledIsWindow(c: Config, n: nat, s: State)
    requires Metered(c, n) && 1 <= c.limits.value.single <= c.limits.value.total
    requires Filled(c, n, s, c.limits.value.total - c.limits.value.single)
    ensures InWindow(c, n, s, 0)
  {
  }

  lemma {:induction false} EnterWindow(c: Config, n: nat, i: nat) returns (s: State)
    requires Metered(c, n) && 1 <= c.limits.value.single <= c.limits.value.total && i <= n
    ensures Reachable(c, n, s) && InWindow(c, n, s, i)
  {
    hide Reachable, Filled;
    var small := c.limits.value.total - c.limits.value.single;
    if i == 0 {
      s := Fill(c, n, small);
      FilledIsWindow(c, n, s);
    } else {
      var s0 := EnterWindow(c, n, i - 1);
      var s1;
      s1, s := EnterOne(c, n, s0, i - 1);
      ReachStep(c, n, s0, i - 1, StartReturn(small + (i - 1)));
      ReachStep(c, n, s1, i - 1, Advance(0));
    }
  }

  /** Threads before i have counted their buffers. */
  ghost predicate Leaving(c: Config, n: nat, s: State, i: nat)
    requires c.limits.Some?
  {
    && c.Valid() && Shape(c, s) && |s.threads| == n
    && s.size == c.limits.value.total - c.limits.value.single + i * c.limits.value.single
    && (forall t :: i <= t < n ==> s.threads[t].AddSize? && s.threads[t].v.capacity == c.limits.value.single)
  }

  lemma LeaveOne(c: Config, n: nat, s0: State, t: nat) returns (s: State)
    requires Metered(c, n) && 1 <= c.limits.value.single <= c.limits.value.total && t < n
    requires Leaving(c, n, s0, t)
    ensures Step(c, s0, t, Advance(0)) == Some(s) && Leaving(c, n, s, t + 1)
  {
    var single := c.limits.value.single;
    assert (t + 1) * single == t * single + single;
    MulMonotone(t, n - 1, single);
    assert Wrap(s0.size + single) == s0.size + single;
    s := Goto(s0.(size := s0.size + single), t, ReturnOffset(s0.threads[t].v));
  }

  lemma {:induction false} LeaveWindow(c: Config, n: nat, i: nat) returns (s: State)
    requires Metered(c, n) && 1 <= c.limits.value.single <= c.limits.value.total && i <= n
    ensures Reachable(c, n, s) && Leaving(c, n, s, i)
  {
    hide Reachable;
    if i == 0 {
      s := EnterWindow(c, n, n);
      assert s.size == c.limits.value.total - c.limits.value.single + 0 * c.limits.value.single;
    } else {
      var s0 := LeaveWindow(c, n, i - 1);
      s := LeaveOne(c, n, s0, i - 1);
      ReachStep(c, n, s0, i - 1, Advance(0));
    }
  }

  lemma MulMonotone(a: nat, b: nat, m: nat)
    requires a <= b
    ensures a * m <= b * m
  {
    assert b * m == a * m + (b - a) * m;
  }

  /** The bound of CounterExact is attained, for every number of threads. */
  lemma SoftLimitAttained(c: Config, n: nat) returns (s: State)
    requires Metered(c, n) && 1 <= c.limits.value.single <= c.limits.value.total
    ensures Reachable(c, n, s) && s.size == SoftBound(c.limits.value, n)
  {
    s := LeaveWindow(c, n, n);
    assert n * c.limits.value.single == (n - 1) * c.limits.value.single + c.limits.value.single;
  }
}
