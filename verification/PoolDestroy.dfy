/** The destroy loop, with takers and returners still running (crates/io/src/pool.rs:155-218). */
module PoolDestroy {
  import opened Prelude
  import opened PoolMachine
  import opened PoolOwnership
  import opened PoolConservation

  function IsDestroyed(x: SlotState): int {
    if x == Destroyed then 1 else 0
  }

  /** How many of the first i slots are DESTROYED. */
  ghost function DestroyedBefore(s: State, i: nat): int
    requires i <= |s.slots|
  {
    Total(s.slots[..i], IsDestroyed)
  }

  lemma {:induction false} DestroyedCount(xs: seq<SlotState>, ys: seq<SlotState>)
    requires |xs| == |ys| && forall i :: 0 <= i < |xs| && xs[i] == Destroyed ==> ys[i] == Destroyed
    ensures Total(xs, IsDestroyed) <= Total(ys, IsDestroyed) <= |ys|
    ensures Total(ys, IsDestroyed) == |ys| ==> forall i :: 0 <= i < |ys| ==> ys[i] == Destroyed
  {
    if xs != [] {
      var n := |xs| - 1;
      DestroyedCount(xs[..n], ys[..n]);
    }
  }

  /** No transition brings a slot back from DESTROYED. */
  lemma DestroyedIsAbsorbing(c: Config, s: State, t: nat, a: Action)
    requires Shape(c, s) && Step(c, s, t, a).Some?
    ensures forall i :: 0 <= i < c.capacity && s.slots[i] == Destroyed ==>
      Step(c, s, t, a).value.slots[i] == Destroyed
  {
    var p := s.threads[t];
    assert p == Idle || IsReturning(p) || IsTaking(p) || IsDestroying(p);
  }

  /**
   The books of a destroyer: in the current pass it has counted `CAPACITY - except` slots, all before slot i and all
   DESTROYED. When it has left the loop every slot is DESTROYED.
   */
  ghost predicate Counting(c: Config, s: State, p: Thread)
    requires Shape(c, s) && InRange(c, p)
  {
    && (Destroying(p).Some? ==>
          var (except, i) := Destroying(p).value;
          0 <= c.capacity - except <= DestroyedBefore(s, i))
    && (p.Gone? ==> forall i :: 0 <= i < c.capacity ==> s.slots[i] == Destroyed)
  }

  ghost predicate AllCounting(c: Config, s: State) {
    Shape(c, s) && forall t :: 0 <= t < |s.threads| ==> Counting(c, s, s.threads[t])
  }

  lemma StaysCounting(c: Config, s: State, s': State, p: Thread)
    requires Shape(c, s) && Shape(c, s') && InRange(c, p) && Counting(c, s, p)
    requires forall i :: 0 <= i < c.capacity && s.slots[i] == Destroyed ==> s'.slots[i] == Destroyed
    ensures Counting(c, s', p)
  {
    if Destroying(p).Some? {
      var i := Destroying(p).value.1;
      DestroyedCount(s.slots[..i], s'.slots[..i]);
    }
  }

  /** Counting slot i, or passing it by, and going on to the next slot or the next pass. */
  lemma MovesOn(c: Config, s: State, except: int, i: nat)
    requires Shape(c, s) && i < c.capacity
    requires 0 <= c.capacity - except
    requires c.capacity - except <= DestroyedBefore(s, i) + IsDestroyed(s.slots[i])
    ensures Counting(c, s, NextSlot(c, except, i))
  {
    assert s.slots[..i + 1][..i] == s.slots[..i];
    assert DestroyedBefore(s, i + 1) == DestroyedBefore(s, i) + IsDestroyed(s.slots[i]);
    if i + 1 == c.capacity {
      assert s.slots[..i + 1] == s.slots;
      DestroyedCount(s.slots, s.slots);
      assert DestroyedBefore(s, 0) == 0;
    }
  }

  lemma DestroyerCounts(c: Config, s: State, t: nat)
    requires Owned(c, s) && AllCounting(c, s) && t < |s.threads| && IsDestroying(s.threads[t])
    ensures Counting(c, DestroyStep(c, s, t), DestroyStep(c, s, t).threads[t])
  {
    var p, s' := s.threads[t], DestroyStep(c, s, t);
    var (except, i) := Destroying(p).value;
    assert Local(s, p) && Counting(c, s, p);
    assert s'.slots[..i] == s.slots[..i];
    if s'.slots[i] == Destroyed {
      MovesOn(c, s', except - 1, i);
    } else {
      MovesOn(c, s', except, i);
    }
  }

  lemma StepKeepsCounting(c: Config, s: State, t: nat, a: Action)
    requires Owned(c, s) && AllCounting(c, s) && Step(c, s, t, a).Some?
    ensures AllCounting(c, Step(c, s, t, a).value)
  {
    var p, s' := s.threads[t], Step(c, s, t, a).value;
    DestroyedIsAbsorbing(c, s, t, a);
    forall u | 0 <= u < |s'.threads|
      ensures Counting(c, s', s'.threads[u])
    {
      if u != t {
        assert s'.threads[u] == s.threads[u];
        StaysCounting(c, s, s', s.threads[u]);
      } else if IsDestroying(p) {
        DestroyerCounts(c, s, t);
      } else {
        assert DestroyedBefore(s', 0) == 0;
      }
    }
  }

  lemma {:induction false} RunKeepsCounting(c: Config, s: State, run: Schedule)
    requires Owned(c, s) && AllCounting(c, s) && Exec(c, s, run).Some?
    ensures AllCounting(c, Exec(c, s, run).value)
  {
    if run != [] {
      var r := |run| - 1;
      RunKeepsOwned(c, s, run[..r]);
      RunKeepsCounting(c, s, run[..r]);
      StepKeepsCounting(c, Exec(c, s, run[..r]).value, run[r].0, run[r].1);
    }
  }

  /**
   In every interleaving: `except` counts down at most once per slot and pass and never underflows, and a destroyer
   that has left its loop leaves every slot DESTROYED, for good. The only values then still in cells belong to a thread
   that won its slot before, and will be delivered by a taker or dropped by the destroyer that claimed it.
   */
  lemma DestroyLoopSafe(c: Config, n: nat, run: Schedule, s: State, t: nat)
    requires c.Valid() && Exec(c, Init(c, n), run) == Some(s) && t < n
    ensures IsDestroying(s.threads[t]) ==>
      var (except, i) := Destroying(s.threads[t]).value; 1 <= c.capacity - i <= except <= c.capacity
    ensures s.threads[t] == Gone ==> forall i :: 0 <= i < c.capacity ==> s.slots[i] == Destroyed
    ensures s.threads[t] == Gone ==> forall i: nat :: i < c.capacity && s.cells[i].Some? ==>
      exists u: nat :: Owns(s, u, i) && (s.threads[u].ReadCell? || s.threads[u].DestroyDrop?)
  {
    InitOwned(c, n);
    RunKeepsOwned(c, Init(c, n), run);
    RunKeepsCounting(c, Init(c, n), run);
    var p := s.threads[t];
    assert Counting(c, s, p) && InRange(c, p);
    if IsDestroying(p) {
      var i := Destroying(p).value.1;
      DestroyedCount(s.slots[..i], s.slots[..i]);
    }
    if p == Gone {
      forall i: nat | i < c.capacity && s.cells[i].Some?
        ensures exists u: nat :: Owns(s, u, i) && (s.threads[u].ReadCell? || s.threads[u].DestroyDrop?)
      {
        assert HasOwner(s, i);
        var u: nat :| Owns(s, u, i);
        assert Local(s, s.threads[u]);
      }
    }
  }

  lemma EmptiedCells(c: Config, n: nat, run: Schedule, s: State, t: nat)
    requires c.Valid() && Exec(c, Init(c, n), run) == Some(s) && t < n && s.threads[t] == Gone
    requires forall u :: 0 <= u < n ==> s.threads[u] in {Idle, Gone}
    ensures forall i :: 0 <= i < c.capacity ==> s.cells[i] == None
  {
    hide Exec;
    DestroyLoopSafe(c, n, run, s, t);
  }

  /**
   Dropping the pool leaks nothing and drops nothing twice: once a destroyer is through and no operation is under way,
   every value ever created is with a caller or has been dropped exactly once, and not both.
   */
  lemma NothingLeaks(c: Config, n: nat, run: Schedule, s: State, t: nat, id: nat)
    requires c.Valid() && Exec(c, Init(c, n), run) == Some(s) && t < n && s.threads[t] == Gone
    requires forall u :: 0 <= u < n ==> s.threads[u] in {Idle, Gone}
    ensures id < s.next <==> id in s.outside || s.dropped[id] == 1
    ensures !(id in s.outside && id in s.dropped) && s.dropped[id] <= 1
  {
    hide Exec;
    EmptiedCells(c, n, run, s, t);
    ExactlyOnePlace(c, n, run, s, id);
    assert At(s, id, Outside) <==> id in s.outside;
    assert At(s, id, Dropped) <==> s.dropped[id] == 1;
    forall place | At(s, id, place)
      ensures place in {Outside, Dropped}
    {
    }
  }
}
