/** No value of the pool is lost, duplicated or dropped twice (crates/io/src/pool.rs:89-217). */
module PoolConservation {
  import opened Prelude
  import opened PoolMachine
  import opened PoolOwnership

  /** The value a thread carries between two places. */
  function Carried(p: Thread): Option<Buffer> {
    match p
    case CheckLimit(v) => Some(v)
    case AddSize(v) => Some(v)
    case ReturnOffset(v) => Some(v)
    case ReturnProbe(v, _, _) => Some(v)
    case WriteCell(v, _) => Some(v)
    case Release(v, _) => Some(v)
    case SubSize(v) => Some(v)
    case _ => None
  }

  function Is(id: nat): Option<Buffer> -> int {
    (cell: Option<Buffer>) => if cell.Some? && cell.value.id == id then 1 else 0
  }

  function Carries(id: nat): Thread -> int {
    (p: Thread) => if Carried(p).Some? && Carried(p).value.id == id then 1 else 0
  }

  function Held(outside: map<nat, nat>, id: nat): int {
    if id in outside then 1 else 0
  }

  /** In how many places the value is: cells, threads, the hands of callers, destructors run. */
  ghost function Occurrences(s: State, id: nat): int {
    Total(s.cells, Is(id)) + Total(s.threads, Carries(id)) + Held(s.outside, id) + s.dropped[id]
  }

  /** The identities handed out so far are somewhere, once each, and no other is anywhere. */
  ghost predicate Conserved(s: State) {
    forall id: nat :: Occurrences(s, id) == if id < s.next then 1 else 0
  }

  lemma InitConserved(c: Config, n: nat)
    requires c.Valid()
    ensures Conserved(Init(c, n))
  {
    forall id: nat
      ensures Occurrences(Init(c, n), id) == 0
    {
      TotalNothing(Init(c, n).cells, Is(id));
      TotalNothing(Init(c, n).threads, Carries(id));
    }
  }

  /** How the places change when thread t moves and cell j may be rewritten. */
  lemma PlacesAfter(s: State, s': State, t: nat, j: nat, id: nat)
    requires t < |s.threads| == |s'.threads| && s'.threads == s.threads[t := s'.threads[t]]
    requires j < |s.cells| == |s'.cells| && s'.cells == s.cells[j := s'.cells[j]]
    ensures Occurrences(s', id) - Is(id)(s'.cells[j]) - Carries(id)(s'.threads[t])
              - Held(s'.outside, id) - s'.dropped[id]
         == Occurrences(s, id) - Is(id)(s.cells[j]) - Carries(id)(s.threads[t])
              - Held(s.outside, id) - s.dropped[id]
  {
    TotalChange(s.threads, s'.threads, Carries(id), t);
    TotalChange(s.cells, s'.cells, Is(id), j);
  }

  lemma PlacesAfterQuietly(s: State, s': State, t: nat, id: nat)
    requires t < |s.threads| == |s'.threads| && s'.threads == s.threads[t := s'.threads[t]]
    requires s'.cells == s.cells
    ensures Occurrences(s', id) - Carries(id)(s'.threads[t]) - Held(s'.outside, id) - s'.dropped[id]
         == Occurrences(s, id) - Carries(id)(s.threads[t]) - Held(s.outside, id) - s.dropped[id]
  {
    TotalChange(s.threads, s'.threads, Carries(id), t);
  }

  /** What one place holds is part of the whole. */
  lemma PartsOfOccurrences(s: State, id: nat)
    ensures Total(s.cells, Is(id)) >= 0 && Total(s.threads, Carries(id)) >= 0
    ensures forall i :: 0 <= i < |s.cells| ==> Is(id)(s.cells[i]) <= Total(s.cells, Is(id))
    ensures forall t :: 0 <= t < |s.threads| ==> Carries(id)(s.threads[t]) <= Total(s.threads, Carries(id))
  {
    TotalAtLeast(s.cells, Is(id));
    TotalAtLeast(s.threads, Carries(id));
  }

  lemma ReturnConserves(c: Config, s: State, t: nat, offset: nat, id: nat)
    requires Owned(c, s) && t < |s.threads| && IsReturning(s.threads[t])
    ensures Occurrences(ReturnStep(c, s, t, offset), id) == Occurrences(s, id)
  {
    hide Occurrences;
    var p, s' := s.threads[t], ReturnStep(c, s, t, offset);
    if p.WriteCell? {
      assert Local(s, p);
      PlacesAfter(s, s', t, p.slot, id);
    } else {
      PlacesAfterQuietly(s, s', t, id);
    }
  }

  /** A value with a thread is not in the hands of a caller. */
  lemma CarriedNotOutside(s: State, t: nat)
    requires Conserved(s) && t < |s.threads| && Carried(s.threads[t]).Some?
    ensures Carried(s.threads[t]).value.id !in s.outside
  {
    var id := Carried(s.threads[t]).value.id;
    PartsOfOccurrences(s, id);
    assert Carries(id)(s.threads[t]) == 1;
    assert Occurrences(s, id) <= 1;
  }

  lemma NextNotOutside(s: State)
    requires Conserved(s)
    ensures s.next !in s.outside
  {
    PartsOfOccurrences(s, s.next);
    assert Occurrences(s, s.next) == 0;
  }

  /** Delivering to the caller, or moving on with the value in hand. */
  lemma TakeQuietlyConserves(c: Config, s: State, t: nat, offset: nat, id: nat)
    requires Shape(c, s) && t < |s.threads| && IsTaking(s.threads[t]) && !s.threads[t].ReadCell?
    requires Carried(s.threads[t]).Some? ==> Carried(s.threads[t]).value.id !in s.outside
    requires s.next !in s.outside
    ensures var s' := TakeStep(c, s, t, offset);
      Occurrences(s', id) == Occurrences(s, id) + if s.next <= id < s'.next then 1 else 0
  {
    hide Occurrences;
    PlacesAfterQuietly(s, TakeStep(c, s, t, offset), t, id);
  }

  lemma TakeConserves(c: Config, s: State, t: nat, offset: nat, id: nat)
    requires Owned(c, s) && Conserved(s) && t < |s.threads| && IsTaking(s.threads[t])
    ensures var s' := TakeStep(c, s, t, offset);
      Occurrences(s', id) == Occurrences(s, id) + if s.next <= id < s'.next then 1 else 0
  {
    hide Occurrences;
    var p := s.threads[t];
    if p.ReadCell? {
      assert Local(s, p);
      PlacesAfter(s, TakeStep(c, s, t, offset), t, p.slot, id);
    } else {
      NextNotOutside(s);
      if Carried(p).Some? {
        CarriedNotOutside(s, t);
      }
      TakeQuietlyConserves(c, s, t, offset, id);
    }
  }

  lemma DestroyDropConserves(c: Config, s: State, t: nat, id: nat)
    requires Shape(c, s) && t < |s.threads| && s.threads[t].DestroyDrop? && s.cells[s.threads[t].slot].Some?
    ensures Occurrences(DestroyStep(c, s, t), id) == Occurrences(s, id)
  {
    hide Occurrences;
    PlacesAfter(s, DestroyStep(c, s, t), t, s.threads[t].slot, id);
  }

  lemma DestroyConserves(c: Config, s: State, t: nat, id: nat)
    requires Owned(c, s) && t < |s.threads| && IsDestroying(s.threads[t])
    ensures Occurrences(DestroyStep(c, s, t), id) == Occurrences(s, id)
  {
    hide Occurrences;
    if s.threads[t].DestroyDrop? {
      assert Local(s, s.threads[t]);
      DestroyDropConserves(c, s, t, id);
    } else {
      PlacesAfterQuietly(s, DestroyStep(c, s, t), t, id);
    }
  }

  lemma StartConserves(c: Config, s: State, t: nat, a: Action, id: nat)
    requires Shape(c, s) && t < |s.threads| && s.threads[t] == Idle && Start(c, s, t, a).Some?
    ensures Occurrences(Start(c, s, t, a).value, id) == Occurrences(s, id)
    ensures Start(c, s, t, a).value.next == s.next
  {
    hide Occurrences;
    var s' := Start(c, s, t, a).value;
    assert s'.threads == s.threads[t := s'.threads[t]];
    PlacesAfterQuietly(s, s', t, id);
  }

  lemma StepKeepsConserved(c: Config, s: State, t: nat, a: Action)
    requires Owned(c, s) && Conserved(s) && Step(c, s, t, a).Some?
    ensures Conserved(Step(c, s, t, a).value)
  {
    hide Occurrences;
    var p, s' := s.threads[t], Step(c, s, t, a).value;
    forall id: nat
      ensures Occurrences(s', id) == if id < s'.next then 1 else 0
    {
      assert Occurrences(s, id) == if id < s.next then 1 else 0;
      if p == Idle {
        StartConserves(c, s, t, a, id);
      } else if IsReturning(p) {
        ReturnConserves(c, s, t, a.offset, id);
      } else if IsTaking(p) {
        TakeConserves(c, s, t, a.offset, id);
      } else {
        DestroyConserves(c, s, t, id);
      }
    }
  }

  lemma {:induction false} EveryRunConserves(c: Config, n: nat, run: Schedule)
    requires c.Valid() && Exec(c, Init(c, n), run).Some?
    ensures Conserved(Exec(c, Init(c, n), run).value)
  {
    if run == [] {
      InitConserved(c, n);
    } else {
      var r := |run| - 1;
      EveryRunOwned(c, n, run[..r]);
      EveryRunConserves(c, n, run[..r]);
      StepKeepsConserved(c, Exec(c, Init(c, n), run[..r]).value, run[r].0, run[r].1);
    }
  }

  /** The places a value can be in. */
  datatype Place = InCell(slot: nat) | WithThread(thread: nat) | Outside | Dropped

  ghost predicate At(s: State, id: nat, place: Place) {
    match place
    case InCell(i) => i < |s.cells| && s.cells[i].Some? && s.cells[i].value.id == id
    case WithThread(t) => t < |s.threads| && Carried(s.threads[t]).Some? && Carried(s.threads[t]).value.id == id
    case Outside => id in s.outside
    case Dropped => id in s.dropped
  }

  lemma AtMostOnePlace(s: State, id: nat, p: Place, q: Place)
    requires Occurrences(s, id) <= 1 && At(s, id, p) && At(s, id, q)
    ensures p == q
  {
    PartsOfOccurrences(s, id);
    assert p.InCell? ==> Is(id)(s.cells[p.slot]) == 1;
    assert q.InCell? ==> Is(id)(s.cells[q.slot]) == 1;
    assert p.WithThread? ==> Carries(id)(s.threads[p.thread]) == 1;
    assert q.WithThread? ==> Carries(id)(s.threads[q.thread]) == 1;
    if p.InCell? && q.InCell? && p != q {
      TotalOfTwo(s.cells, Is(id), p.slot, q.slot);
    } else if p.WithThread? && q.WithThread? && p != q {
      TotalOfTwo(s.threads, Carries(id), p.thread, q.thread);
    }
  }

  lemma Somewhere(s: State, id: nat)
    requires Occurrences(s, id) > 0
    ensures exists place :: At(s, id, place)
  {
    if Total(s.cells, Is(id)) > 0 {
      var i := TotalSomewhere(s.cells, Is(id));
      assert At(s, id, InCell(i));
    } else if Total(s.threads, Carries(id)) > 0 {
      var t := TotalSomewhere(s.threads, Carries(id));
      assert At(s, id, WithThread(t));
    } else {
      assert At(s, id, Outside) || At(s, id, Dropped);
    }
  }

  /**
   In every reachable state each value ever created is in exactly one place: one cell, one thread in the middle of
   an operation, the hands of a caller, or dropped; and no destructor runs twice.
   */
  lemma ExactlyOnePlace(c: Config, n: nat, run: Schedule, s: State, id: nat)
    requires c.Valid() && Exec(c, Init(c, n), run) == Some(s)
    ensures id < s.next <==> exists place :: At(s, id, place)
    ensures forall p, q :: At(s, id, p) && At(s, id, q) ==> p == q
    ensures s.dropped[id] <= 1
  {
    EveryRunConserves(c, n, run);
    assert Occurrences(s, id) == if id < s.next then 1 else 0;
    PartsOfOccurrences(s, id);
    forall p, q | At(s, id, p) && At(s, id, q)
      ensures p == q
    {
      AtMostOnePlace(s, id, p, q);
    }
    forall place | At(s, id, place)
      ensures Occurrences(s, id) > 0
    {
      assert place.InCell? ==> Is(id)(s.cells[place.slot]) == 1;
      assert place.WithThread? ==> Carries(id)(s.threads[place.thread]) == 1;
    }
    if id < s.next {
      Somewhere(s, id);
    }
  }
}
