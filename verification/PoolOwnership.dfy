/** Who may touch a cell: the ownership discipline every run of the pool keeps (crates/io/src/pool.rs:89-217). */
module PoolOwnership {
  import opened Prelude
  import opened PoolMachine

  /** What a thread may rely on about the slot it is working on. */
  ghost predicate Local(s: State, p: Thread)
    requires Slot(p).Some? ==> Slot(p).value < |s.slots| == |s.cells|
  {
    match p
    case WriteCell(_, i) => s.slots[i] == Writing && s.cells[i].None?
    case Publish(i) => s.slots[i] == Writing && s.cells[i].Some?
    case ReadCell(i) => s.slots[i] in {Taking, Destroyed} && s.cells[i].Some?
    case Release(_, i) => s.slots[i] in {Taking, Destroyed} && s.cells[i].None?
    case DestroyDrop(_, i) => s.slots[i] == Destroyed && s.cells[i].Some?
    case Fault => false
    case _ => true
  }

  ghost predicate Owns(s: State, t: nat, i: nat) {
    t < |s.threads| && Slot(s.threads[t]) == Some(i)
  }

  ghost predicate HasOwner(s: State, i: nat) {
    exists t: nat :: Owns(s, t, i)
  }

  /** A slot nobody owns is at rest: its cell is initialised exactly when it is AVAILABLE. */
  ghost predicate AtRest(s: State, i: nat)
    requires i < |s.slots| == |s.cells|
  {
    s.slots[i] in {Empty, Available, Destroyed} && (s.cells[i].Some? <==> s.slots[i] == Available)
  }

  ghost predicate Owned(c: Config, s: State) {
    && Shape(c, s)
    && (forall t :: 0 <= t < |s.threads| ==> Local(s, s.threads[t]))
    && (forall t: nat, u: nat, i: nat :: Owns(s, t, i) && Owns(s, u, i) ==> t == u)
    && (forall i: nat :: i < c.capacity && !HasOwner(s, i) ==> AtRest(s, i))
  }

  lemma InitOwned(c: Config, n: nat)
    requires c.Valid()
    ensures Owned(c, Init(c, n))
  {
  }

  /**
   A transition of thread t that leaves every slot and cell but j alone keeps the discipline, if what it does to j
   is allowed: t owned j, or j was at rest, or j was TAKING and is now DESTROYED with its cell untouched.
   */
  lemma KeepsOwned(c: Config, s: State, s': State, t: nat, j: nat)
    requires Owned(c, s) && Shape(c, s') && t < |s.threads| == |s'.threads| && j < c.capacity
    requires s'.threads == s.threads[t := s'.threads[t]]
    requires s'.slots == s.slots[j := s'.slots[j]] && s'.cells == s.cells[j := s'.cells[j]]
    requires Local(s', s'.threads[t])
    requires Slot(s.threads[t]) in {None, Some(j)} && Slot(s'.threads[t]) in {None, Some(j)}
    requires
      || Owns(s, t, j)
      || !HasOwner(s, j)
      || (Slot(s'.threads[t]).None? && s'.cells[j] == s.cells[j]
          && (s'.slots[j] == s.slots[j] || (s.slots[j] == Taking && s'.slots[j] == Destroyed)))
    requires Slot(s'.threads[t]).Some? || (HasOwner(s, j) && !Owns(s, t, j)) || AtRest(s', j)
    ensures Owned(c, s')
  {
    forall u: nat, i: nat | u != t && Owns(s, u, i)
      ensures Owns(s', u, i)
    {
    }
    forall u | 0 <= u < |s'.threads|
      ensures Local(s', s'.threads[u])
    {
      if u != t {
        assert s'.threads[u] == s.threads[u] && Local(s, s.threads[u]);
        if Slot(s.threads[u]) == Some(j) {
          assert Owns(s, u, j) && HasOwner(s, j);
          assert !Owns(s, t, j);
        }
      }
    }
    forall u: nat, v: nat, i: nat | Owns(s', u, i) && Owns(s', v, i)
      ensures u == v
    {
      if u != t { assert Owns(s, u, i); }
      if v != t { assert Owns(s, v, i); }
    }
    forall i: nat | i < c.capacity
      ensures HasOwner(s', i) || AtRest(s', i)
    {
      if u: nat :| u != t && Owns(s, u, i) {
        assert Owns(s', u, i);
      } else if Slot(s'.threads[t]) == Some(i) {
        assert Owns(s', t, i);
      } else {
        assert i == j || !HasOwner(s, i);
      }
    }
  }

  /** A transition that touches no slot and no cell, by a thread that owns nothing before or after. */
  lemma KeepsOwnedQuietly(c: Config, s: State, s': State, t: nat)
    requires Owned(c, s) && Shape(c, s') && t < |s.threads| == |s'.threads|
    requires s'.threads == s.threads[t := s'.threads[t]] && s'.slots == s.slots && s'.cells == s.cells
    requires Slot(s.threads[t]).None? && Slot(s'.threads[t]).None? && !s'.threads[t].Fault?
    ensures Owned(c, s')
  {
    forall u: nat, i: nat
      ensures Owns(s, u, i) <==> Owns(s', u, i)
    {
    }
    forall i: nat
      ensures HasOwner(s, i) <==> HasOwner(s', i)
    {
      if HasOwner(s, i) {
        var u: nat :| Owns(s, u, i);
        assert Owns(s', u, i);
      }
      if HasOwner(s', i) {
        var u: nat :| Owns(s', u, i);
        assert Owns(s, u, i);
      }
    }
    forall u | 0 <= u < |s'.threads|
      ensures Local(s', s'.threads[u])
    {
      assert Local(s, s.threads[u]);
    }
  }

  /** An owned slot is WRITING, TAKING or DESTROYED, so a compare-and-swap from EMPTY or AVAILABLE finds no owner. */
  lemma FreeSlotUnowned(c: Config, s: State, i: nat)
    requires Owned(c, s) && i < c.capacity && s.slots[i] in {Empty, Available}
    ensures !HasOwner(s, i) && AtRest(s, i)
  {
    forall u: nat | u < |s.threads|
      ensures !Owns(s, u, i)
    {
      assert Local(s, s.threads[u]);
    }
  }

  lemma ReturnKeepsOwned(c: Config, s: State, t: nat, offset: nat)
    requires Owned(c, s) && t < |s.threads| && IsReturning(s.threads[t])
    ensures Owned(c, ReturnStep(c, s, t, offset))
  {
    var p, s' := s.threads[t], ReturnStep(c, s, t, offset);
    assert Local(s, p);
    if p.WriteCell? || p.Publish? {
      assert Owns(s, t, p.slot);
      KeepsOwned(c, s, s', t, p.slot);
    } else if p.ReturnProbe? && p.k < c.maxLoop && s.slots[ProbeIndex(c.capacity, p.offset, p.k)] == Empty {
      var i := ProbeIndex(c.capacity, p.offset, p.k);
      FreeSlotUnowned(c, s, i);
      KeepsOwned(c, s, s', t, i);
    } else {
      KeepsOwnedQuietly(c, s, s', t);
    }
  }

  lemma TakeKeepsOwned(c: Config, s: State, t: nat, offset: nat)
    requires Owned(c, s) && t < |s.threads| && IsTaking(s.threads[t])
    ensures Owned(c, TakeStep(c, s, t, offset))
  {
    var p, s' := s.threads[t], TakeStep(c, s, t, offset);
    assert Local(s, p);
    if p.ReadCell? || p.Release? {
      assert Owns(s, t, p.slot);
      KeepsOwned(c, s, s', t, p.slot);
    } else if p.TakeProbe? && p.k < c.maxLoop && s.slots[ProbeIndex(c.capacity, p.offset, p.k)] == Available {
      var i := ProbeIndex(c.capacity, p.offset, p.k);
      FreeSlotUnowned(c, s, i);
      KeepsOwned(c, s, s', t, i);
    } else {
      KeepsOwnedQuietly(c, s, s', t);
    }
  }

  lemma DestroyKeepsOwned(c: Config, s: State, t: nat)
    requires Owned(c, s) && t < |s.threads| && IsDestroying(s.threads[t])
    ensures Owned(c, DestroyStep(c, s, t))
  {
    var p, s' := s.threads[t], DestroyStep(c, s, t);
    var i := p.slot;
    assert Local(s, p);
    if p.DestroyDrop? {
      assert Owns(s, t, i);
      KeepsOwned(c, s, s', t, i);
    } else if s'.slots == s.slots {
      KeepsOwnedQuietly(c, s, s', t);
    } else {
      if s.slots[i] == Taking {
        assert !AtRest(s, i);
      } else {
        FreeSlotUnowned(c, s, i);
      }
      KeepsOwned(c, s, s', t, i);
    }
  }

  lemma StepKeepsOwned(c: Config, s: State, t: nat, a: Action)
    requires Owned(c, s) && Step(c, s, t, a).Some?
    ensures Owned(c, Step(c, s, t, a).value)
  {
    var p := s.threads[t];
    if p == Idle {
      var s' := Step(c, s, t, a).value;
      if a.Resize? {
        assert s'.threads == s.threads[t := s'.threads[t]];
      }
      KeepsOwnedQuietly(c, s, s', t);
    } else if IsReturning(p) {
      ReturnKeepsOwned(c, s, t, a.offset);
    } else if IsTaking(p) {
      TakeKeepsOwned(c, s, t, a.offset);
    } else {
      DestroyKeepsOwned(c, s, t);
    }
  }

  lemma {:induction false} RunKeepsOwned(c: Config, s: State, run: Schedule)
    requires Owned(c, s) && Exec(c, s, run).Some?
    ensures Owned(c, Exec(c, s, run).value)
  {
    if run != [] {
      var r := |run| - 1;
      RunKeepsOwned(c, s, run[..r]);
      StepKeepsOwned(c, Exec(c, s, run[..r]).value, run[r].0, run[r].1);
    }
  }

  /** In every interleaving of any number of threads the ownership discipline holds. */
  lemma EveryRunOwned(c: Config, n: nat, run: Schedule)
    requires c.Valid() && Exec(c, Init(c, n), run).Some?
    ensures Owned(c, Exec(c, Init(c, n), run).value)
  {
    InitOwned(c, n);
    RunKeepsOwned(c, Init(c, n), run);
  }

  /**
   Read off in the terms of the code: each WRITING and each TAKING slot has exactly one thread working on it, that
   thread is inside `return_value` or `take` respectively, and no thread ever reads an uninitialised cell.
   */
  lemma ExclusiveAccess(c: Config, n: nat, run: Schedule, s: State)
    requires c.Valid() && Exec(c, Init(c, n), run) == Some(s)
    ensures forall t :: 0 <= t < |s.threads| ==> !s.threads[t].Fault?
    ensures forall i: nat :: i < c.capacity && s.slots[i] == Writing ==>
      exists t: nat :: Owns(s, t, i) && IsReturning(s.threads[t]) && forall u: nat :: Owns(s, u, i) ==> u == t
    ensures forall i: nat :: i < c.capacity && s.slots[i] == Taking ==>
      exists t: nat :: Owns(s, t, i) && IsTaking(s.threads[t]) && forall u: nat :: Owns(s, u, i) ==> u == t
    ensures forall t: nat, i: nat :: Owns(s, t, i) && (s.threads[t].ReadCell? || s.threads[t].DestroyDrop?) ==>
      s.cells[i].Some?
    ensures forall t: nat, i: nat :: Owns(s, t, i) && s.threads[t].WriteCell? ==> s.cells[i].None?
  {
    EveryRunOwned(c, n, run);
    forall t | 0 <= t < |s.threads|
      ensures !s.threads[t].Fault?
    {
      assert Local(s, s.threads[t]);
    }
    forall i: nat | i < c.capacity && s.slots[i] in {Writing, Taking}
      ensures exists t: nat :: Owns(s, t, i) && Local(s, s.threads[t]) && forall u: nat :: Owns(s, u, i) ==> u == t
    {
      assert HasOwner(s, i);
      var t: nat :| Owns(s, t, i);
      assert Local(s, s.threads[t]);
    }
  }
}
