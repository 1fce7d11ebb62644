/** How many probes an operation makes, and which slots they reach (crates/io/src/pool.rs:84-113, 130-151). */
module PoolProbe {
  import opened Prelude
  import opened PoolMachine

  // ----- wait-freedom -----

  /** The most moves of its own a thread still has to make before its operation is over. */
  function MovesLeft(c: Config, p: Thread): nat {
    match p
    case CheckLimit(_) => c.maxLoop + 6
    case AddSize(_) => c.maxLoop + 5
    case ReturnOffset(_) => c.maxLoop + 4
    case ReturnProbe(_, _, k) => (if k < c.maxLoop then c.maxLoop - k else 0) + 3
    case WriteCell(_, _) => 2
    case Publish(_) => 1
    case TakeOffset => c.maxLoop + 5
    case TakeProbe(_, k) => (if k < c.maxLoop then c.maxLoop - k else 0) + 4
    case ReadCell(_) => 3
    case Release(_, _) => 2
    case SubSize(_) => 1
    case _ => 0
  }

  /** How often thread t moves in a schedule. */
  function Moves(run: Schedule, t: nat): nat {
    if run == [] then 0 else Moves(run[..|run| - 1], t) + if run[|run| - 1].0 == t then 1 else 0
  }

  predicate Operating(p: Thread) {
    IsTaking(p) || IsReturning(p)
  }

  /** Every move of a thread inside take or return brings it nearer the end, and no other thread sets it back. */
  lemma MoveCounts(c: Config, s: State, t: nat, u: nat, a: Action)
    requires Shape(c, s) && Step(c, s, u, a).Some? && t < |s.threads|
    requires Operating(s.threads[t])
    ensures var p := Step(c, s, u, a).value.threads[t];
      if u == t then p in {Idle, Fault} || (Operating(p) && MovesLeft(c, p) < MovesLeft(c, s.threads[t]))
      else p == s.threads[t]
  {
  }

  lemma MovesLeftBounded(c: Config, p: Thread)
    ensures MovesLeft(c, p) <= c.maxLoop + 6
  {
  }

  /**
   Wait-freedom: whatever the other threads do, an operation is over (or has read an uninitialised cell, which
   never happens in a run of the pool) once its thread has moved MovesLeft times, at most maxLoop + 6.
   */
  lemma {:induction false} WaitFree(c: Config, s: State, run: Schedule, t: nat)
    requires Shape(c, s) && Exec(c, s, run).Some? && t < |s.threads|
    requires Operating(s.threads[t])
    requires forall k :: 0 <= k <= |run| && Exec(c, s, run[..k]).Some? ==>
      Operating(Exec(c, s, run[..k]).value.threads[t])
    ensures Moves(run, t) + MovesLeft(c, Exec(c, s, run).value.threads[t]) <= MovesLeft(c, s.threads[t])
    ensures Moves(run, t) <= c.maxLoop + 6
  {
    hide Step, MovesLeft;
    MovesLeftBounded(c, s.threads[t]);
    if run != [] {
      var r := |run| - 1;
      assert run[..|run|] == run;
      forall k | 0 <= k <= r && Exec(c, s, run[..r][..k]).Some?
        ensures Operating(Exec(c, s, run[..r][..k]).value.threads[t])
      {
        assert run[..r][..k] == run[..k];
      }
      WaitFree(c, s, run[..r], t);
      MoveCounts(c, Exec(c, s, run[..r]).value, t, run[r].0, run[r].1);
    }
  }

  // ----- coverage -----

  /** One of the CAPACITY probes from this offset lands on slot i. */
  ghost predicate Reaches(capacity: nat, offset: nat, i: nat)
    requires capacity > 0
  {
    exists k: nat :: k < capacity && ProbeIndex(capacity, offset, k) == i
  }

  ghost predicate Covers(capacity: nat, offset: nat)
    requires capacity > 0
  {
    forall i: nat :: i < capacity ==> Reaches(capacity, offset, i)
  }

  /** The probe sequence does not wrap around the word, or wrapping does not disturb the remainders. */
  predicate Undisturbed(capacity: nat, offset: nat)
    requires capacity > 0
  {
    WORD % capacity == 0 || offset + capacity <= WORD
  }

  lemma ModShift(x: int, m: int, d: nat)
    requires d > 0
    ensures (x + m * d) % d == x % d
  {
    var q, r := x / d, x % d;
    assert x + m * d == (q + m) * d + r;
    ModUnique(x + m * d, q + m, r, d);
  }

  lemma MultipleIsFar(m: int, d: int)
    requires d > 0 && m != 0
    ensures m * d >= d || m * d <= 0 - d
  {
    if m >= 1 {
      assert (m - 1) * d >= 0;
    } else {
      assert (0 - m - 1) * d >= 0;
    }
  }

  lemma ModUnique(x: int, q: int, r: int, d: nat)
    requires d > 0 && x == q * d + r && 0 <= r < d
    ensures x % d == r
  {
    var e := x / d;
    assert x == e * d + x % d;
    assert (q - e) * d == x % d - r;
    if q != e {
      MultipleIsFar(q - e, d);
    }
  }

  /** Without disturbance the k-th probe is the plain remainder. */
  lemma PlainProbe(capacity: nat, offset: nat, k: nat)
    requires 0 < capacity < WORD && offset < WORD && k < capacity && Undisturbed(capacity, offset)
    ensures ProbeIndex(capacity, offset, k) == (offset + k) % capacity
  {
    var x := offset + k;
    if x >= WORD {
      var m := WORD / capacity;
      assert WORD == m * capacity;
      assert Wrap(x) == x - WORD;
      ModShift(x - WORD, m, capacity);
    }
  }

  lemma UndisturbedReaches(capacity: nat, offset: nat, i: nat)
    requires 0 < capacity < WORD && offset < WORD && Undisturbed(capacity, offset) && i < capacity
    ensures Reaches(capacity, offset, i)
  {
    var q, r := offset / capacity, offset % capacity;
    var k, m := if i >= r then i - r else i - r + capacity, if i >= r then q else q + 1;
    PlainProbe(capacity, offset, k);
    assert offset + k == m * capacity + i;
    ModUnique(offset + k, m, i, capacity);
  }

  lemma UndisturbedCovers(capacity: nat, offset: nat)
    requires 0 < capacity < WORD && offset < WORD && Undisturbed(capacity, offset)
    ensures Covers(capacity, offset)
  {
    forall i: nat | i < capacity
      ensures Reaches(capacity, offset, i)
    {
      UndisturbedReaches(capacity, offset, i);
    }
  }

  /** The slot a disturbed sequence never reaches. */
  function Missed(capacity: nat, offset: nat): (i: nat)
    requires 0 < capacity < WORD && offset < WORD && !Undisturbed(capacity, offset)
    ensures i < capacity
  {
    var d, p := WORD % capacity, WORD - offset;
    if p >= d then capacity - (p - d + 1) else capacity - 1
  }

  lemma MissedIsMissed(capacity: nat, offset: nat, k: nat)
    requires 0 < capacity < WORD && offset < WORD && !Undisturbed(capacity, offset) && k < capacity
    ensures ProbeIndex(capacity, offset, k) != Missed(capacity, offset)
  {
    var d, m, p := WORD % capacity, WORD / capacity, WORD - offset;
    assert WORD == m * capacity + d;
    if k < p {
      var j := p - k;
      assert Wrap(k + offset) == WORD - j;
      var r := if d >= j then d - j else d - j + capacity;
      ModUnique(WORD - j, if d >= j then m else m - 1, r, capacity);
    } else {
      assert Wrap(k + offset) == k - p;
      ModUnique(k - p, 0, k - p, capacity);
    }
  }

  /**
   A search of CAPACITY probes reaches every slot if and only if CAPACITY divides the number of `usize` values or the
   sequence ends before the word wraps. For any other capacity some offsets leave a slot out.
   */
  lemma CoverageExact(capacity: nat, offset: nat)
    requires 0 < capacity < WORD && offset < WORD
    ensures Covers(capacity, offset) <==> Undisturbed(capacity, offset)
  {
    if Undisturbed(capacity, offset) {
      UndisturbedCovers(capacity, offset);
    } else {
      var i := Missed(capacity, offset);
      forall k: nat | k < capacity
        ensures ProbeIndex(capacity, offset, k) != i
      {
        MissedIsMissed(capacity, offset, k);
      }
      assert !Reaches(capacity, offset, i);
    }
  }

  lemma RemaindersDiffer(x: int, y: int, d: int)
    requires d > 0 && x < y < x + d
    ensures x % d != y % d
  {
    var m := y / d - x / d;
    assert y - x == m * d + (y % d - x % d);
    if m != 0 {
      MultipleIsFar(m, d);
    }
  }

  /** Covering sequences do not repeat: the CAPACITY probes reach each slot exactly once. */
  lemma ProbesDistinct(capacity: nat, offset: nat, j: nat, k: nat)
    requires 0 < capacity < WORD && offset < WORD && Undisturbed(capacity, offset)
    requires j < k < capacity
    ensures ProbeIndex(capacity, offset, j) != ProbeIndex(capacity, offset, k)
  {
    PlainProbe(capacity, offset, j);
    PlainProbe(capacity, offset, k);
    RemaindersDiffer(offset + j, offset + k, capacity);
  }

  /** A pool of three slots: one offset at which the wrapping sequence visits slot 0 twice and slot 2 never. */
  lemma ThreeSlotsNotCovered()
    ensures ProbeIndex(3, WORD - 1, 0) == 0 && ProbeIndex(3, WORD - 1, 1) == 0 && ProbeIndex(3, WORD - 1, 2) == 1
    ensures !Covers(3, WORD - 1)
  {
    CoverageExact(3, WORD - 1);
  }
}
