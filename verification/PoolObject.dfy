/**
 The pool as an object: the loops of crates/io/src/pool.rs over its arrays, run by one thread while the others
 stand still wherever they are. Each call is proved to have a plain sequential meaning, and to be a run of the
 transition system.
 */
module PoolObject {
  import opened Prelude
  import opened PoolMachine
  import opened PoolOwnership
  import opened PoolProbe
  import opened PoolSolo

  class PoolState {
    const config: Config
    const states: array<SlotState>
    const cells: array<Option<Buffer>>
    var currentSize: nat
    var created: nat
    ghost var threads: seq<Thread>
    ghost var outside: map<nat, nat>
    ghost var dropped: multiset<nat>
    ghost var leaked: nat

    ghost function Model(): State
      reads this, states, cells
    {
      State(states[..], cells[..], currentSize, threads, outside, dropped, leaked, created)
    }

    ghost predicate Valid()
      reads this, states, cells
    {
      Owned(config, Model())
    }

    /** `Pool::new` with `with_max_search`; the hooks are those of `BUFFER_POOL` when limits are given. */
    constructor (capacity: nat, maxSearch: nat, initial: nat, limits: Option<Limits>, ghost n: nat)
      requires capacity < WORD
      ensures config == Config(capacity, Min(maxSearch, capacity), initial, limits)
      ensures Valid() && fresh(states) && fresh(cells)
      ensures Model() == Init(config, n)
    {
      config := Config(capacity, Min(maxSearch, capacity), initial, limits);
      states := new SlotState[capacity](i => SlotState.Empty);
      cells := new Option<Buffer>[capacity](i => None);
      currentSize, created := 0, 0;
      threads, outside, dropped, leaked := seq(n, i => Idle), map[], multiset{}, 0;
      new;
      assert states[..] == Init(config, n).slots && cells[..] == Init(config, n).cells;
      InitOwned(config, n);
    }

    /** Takes the value of the first AVAILABLE slot probed, or creates one. */
    method Take(ghost t: nat, offset: nat) returns (v: Buffer)
      requires Valid() && t < |threads| && threads[t] == Idle && offset < WORD
      modifies this, states, cells
      ensures Valid() && Leads(config, old(Model()), t, Model())
      ensures Model() == AfterTake(config, old(Model()), t, offset, 0)
      ensures v == Taken(config, old(Model()), offset, 0)
    {
      ghost var start := Model();
      var k := 0;
      while k < config.maxLoop
        invariant 0 <= k <= config.maxLoop && Model() == start
        invariant FirstProbe(config, start.slots, {Available}, offset, 0)
               == FirstProbe(config, start.slots, {Available}, offset, k)
      {
        var i := ProbeIndex(config.capacity, offset, k);
        if states[i] != Available {
          k := k + 1;
          continue;
        }
        FreeSlotUnowned(config, start, i);
        states[i] := Taking;
        v := cells[i].value;
        cells[i] := None;
        if states[i] == Taking {
          states[i] := SlotState.Empty;
        }
        if config.limits.Some? {
          currentSize := Wrap(currentSize - v.capacity);
        }
        threads, outside := threads[t := Idle], outside[v.id := v.capacity];
        Finish(start, t, offset);
        return;
      }
      v := Buffer(created, config.initial);
      created := created + 1;
      threads, outside := threads[t := Idle], outside[v.id := v.capacity];
      Finish(start, t, offset);
    }

    lemma Finish(start: State, t: nat, offset: nat)
      requires Owned(config, start) && t < |start.threads| && start.threads[t] == Idle && offset < WORD
      requires Model() == AfterTake(config, start, t, offset, 0)
      ensures Valid() && Leads(config, start, t, Model())
    {
      SoloTake(config, start, t, offset);
      LeadsOwned(config, start, t, Model());
    }

    /** Stores the value in the first EMPTY slot probed, or drops it. */
    method ReturnValue(ghost t: nat, value: Buffer, offset: nat)
      requires Valid() && t < |threads| && threads[t] == Idle && offset < WORD
      requires value.id in outside && outside[value.id] == value.capacity
      modifies this, states, cells
      ensures Valid() && Leads(config, old(Model()), t, Model())
      ensures Model() == AfterReturn(config, old(Model()), t, value.id, offset)
    {
      hide Leads, AfterSearch;
      ghost var start := Model();
      threads, outside := threads[t := Idle], outside - {value.id};
      if config.limits.Some? {
        if value.capacity > config.limits.value.single
          || Wrap(currentSize + value.capacity) > config.limits.value.total {
          dropped := dropped + multiset{value.id};
          FinishReturn(start, t, value.id, offset);
          return;
        }
        currentSize := Wrap(currentSize + value.capacity);
      }
      ghost var given := start.(outside := outside, size := currentSize);
      assert Model() == Goto(given, t, Idle);
      Store(t, value, offset);
      AfterSearchForgets(config, given, t, Idle, value, offset, 0);
      FinishReturn(start, t, value.id, offset);
    }

    lemma FinishReturn(start: State, t: nat, id: nat, offset: nat)
      requires Owned(config, start) && t < |start.threads| && start.threads[t] == Idle && offset < WORD
      requires id in start.outside && Model() == AfterReturn(config, start, t, id, offset)
      ensures Valid() && Leads(config, start, t, Model())
    {
      SoloReturn(config, start, t, id, offset);
      LeadsOwned(config, start, t, Model());
    }

    /** The search of `return_value`, once its hook has accepted the value. */
    method Store(ghost t: nat, value: Buffer, offset: nat)
      requires Shape(config, Model()) && t < |threads| && threads[t] == Idle
      modifies this, states, cells
      ensures Model() == AfterSearch(config, old(Model()), t, value, offset, 0)
    {
      ghost var start := Model();
      assert start.threads[t := Idle] == start.threads;
      var k := 0;
      while k < config.maxLoop
        invariant 0 <= k <= config.maxLoop && Model() == start
        invariant FirstProbe(config, start.slots, {SlotState.Empty, Destroyed}, offset, 0)
               == FirstProbe(config, start.slots, {SlotState.Empty, Destroyed}, offset, k)
      {
        var i := ProbeIndex(config.capacity, offset, k);
        if states[i] == SlotState.Empty {
          states[i] := Writing;
        } else if states[i] == Destroyed {
          break;
        } else {
          k := k + 1;
          continue;
        }
        cells[i] := Some(value);
        if states[i] == Writing {
          states[i] := Available;
        }
        return;
      }
      dropped := dropped + multiset{value.id};
      leaked := leaked + if config.limits.Some? then value.capacity else 0;
    }

    /**
     `Drop`, when no thread is inside `return_value` with a slot in hand: one pass makes every slot DESTROYED and drops
     every AVAILABLE value; what a taker has won stays with the taker.
     */
    method Drop(ghost t: nat)
      requires Valid() && t < |threads| && threads[t] == Idle
      requires forall i :: 0 <= i < states.Length ==> states[i] != Writing
      modifies this, states, cells
      ensures Valid() && Leads(config, old(Model()), t, Model())
      ensures Model() == AfterDrop(config, old(Model()), t)
    {
      hide Leads, Cleared;
      ghost var start := Model();
      var except := config.capacity;
      while except != 0
        invariant except == 0 || (except == config.capacity && Model() == start)
        invariant except == 0 ==> Model() == ClearedUpTo(config, start, config.capacity)
        decreases except
      {
        except := Pass(start);
      }
      threads := threads[t := Gone];
      FinishDrop(start, t);
    }

    lemma FinishDrop(start: State, t: nat)
      requires Owned(config, start) && t < |start.threads| && start.threads[t] == Idle
      requires forall j :: 0 <= j < config.capacity ==> start.slots[j] != Writing
      requires Model() == AfterDrop(config, start, t)
      ensures Valid() && Leads(config, start, t, Model())
    {
      hide Leads;
      SoloDrop(config, start, t);
      LeadsOwned(config, start, t, Model());
    }

    /** The inner destroy loop: once over all slots, counting those that are DESTROYED afterwards. */
    method Pass(ghost start: State) returns (except: int)
      requires Valid() && Model() == start
      requires forall i :: 0 <= i < states.Length ==> states[i] != Writing
      modifies this, states, cells
      ensures except == 0 && Model() == ClearedUpTo(config, start, config.capacity)
    {
      hide Owned, Cleared, Leads;
      assert Shape(config, start) by { ShapeOf(config, start); }
      except := config.capacity;
      var i := 0;
      while i < config.capacity
        invariant 0 <= i <= config.capacity && except == config.capacity - i
        invariant Model() == ClearedUpTo(config, start, i)
      {
        AvailableIsFilled(start, i);
        var counted := Clear(i);
        except := except - if counted then 1 else 0;
        i := i + 1;
      }
    }

    lemma AvailableIsFilled(start: State, i: nat)
      requires Owned(config, start) && i < config.capacity
      ensures start.slots[i] == Available ==> start.cells[i].Some?
    {
      if start.slots[i] == Available {
        FreeSlotUnowned(config, start, i);
      }
    }

    /** One round of the inner destroy loop, and whether it counts. */
    method Clear(i: nat) returns (counted: bool)
      requires Shape(config, Model()) && i < config.capacity
      requires states[i] == Available ==> cells[i].Some?
      modifies this, states, cells
      ensures counted <==> old(states[i]) != Writing
      ensures Model() == if counted then Cleared(config, old(Model()), i) else old(Model())
    {
      counted := true;
      if states[i] == Destroyed {
        return;
      }
      if states[i] == SlotState.Empty {
        states[i] := Destroyed;
      } else if states[i] == Available {
        states[i] := Destroyed;
        var v := cells[i].value;
        cells[i] := None;
        dropped := dropped + multiset{v.id};
        leaked := leaked + if config.limits.Some? then v.capacity else 0;
      } else if states[i] == Taking {
        states[i] := Destroyed;
      } else {
        counted := false;
      }
    }
  }

  lemma LeadsOwned(c: Config, s: State, t: nat, s': State)
    requires Owned(c, s) && Leads(c, s, t, s')
    ensures Owned(c, s')
  {
    var run: Schedule :| Exec(c, s, run) == Some(s') && forall m :: m in run ==> m.0 == t;
    RunKeepsOwned(c, s, run);
  }
}
