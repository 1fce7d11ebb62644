/** Types and sums shared by the models of nck. */
module Prelude {

  datatype Option<+T> = None | Some(value: T)

  /** A byte of an archive or of a hasher's input. */
  type Byte = b: int | 0 <= b < 256

  type Bytes = seq<Byte>

  /** Number of values of a `usize` on the 64-bit targets of nck. */
  const WORD: int := 0x1_0000_0000_0000_0000

  function Min(a: nat, b: nat): nat { if a <= b then a else b }

  // ----- totals over sequences, and what one update does to them -----

  ghost function Total<T>(xs: seq<T>, f: T -> int): int {
    if xs == [] then 0 else Total(xs[..|xs| - 1], f) + f(xs[|xs| - 1])
  }

  lemma {:induction false} TotalUpdate<T>(xs: seq<T>, f: T -> int, i: nat, y: T)
    requires i < |xs|
    ensures Total(xs[i := y], f) == Total(xs, f) - f(xs[i]) + f(y)
  {
    var n := |xs| - 1;
    if i == n {
      assert xs[i := y][..n] == xs[..n];
    } else {
      assert xs[i := y][..n] == xs[..n][i := y];
      TotalUpdate(xs[..n], f, i, y);
    }
  }

  lemma {:induction false} TotalAtMost<T>(xs: seq<T>, f: T -> int, high: nat)
    requires forall x :: x in xs ==> f(x) <= high
    ensures Total(xs, f) <= |xs| * high
  {
    if xs != [] {
      var n := |xs| - 1;
      TotalAtMost(xs[..n], f, high);
      assert |xs| * high == n * high + high;
    }
  }

  lemma {:induction false} TotalAppend<T>(xs: seq<T>, ys: seq<T>, f: T -> int)
    ensures Total(xs + ys, f) == Total(xs, f) + Total(ys, f)
  {
    if ys == [] {
      assert xs + ys == xs;
    } else {
      var n := |ys| - 1;
      assert (xs + ys)[..|xs| + n] == xs + ys[..n];
      TotalAppend(xs, ys[..n], f);
    }
  }

  /** The total without its first place. */
  lemma TotalTail<T>(xs: seq<T>, f: T -> int)
    requires xs != []
    ensures Total(xs, f) == f(xs[0]) + Total(xs[1..], f)
  {
    assert xs == [xs[0]] + xs[1..];
    TotalAppend([xs[0]], xs[1..], f);
  }

  /** One place that contributes nothing leaves the others. */
  lemma {:induction false} TotalAtMostBut<T>(xs: seq<T>, f: T -> int, i: nat, high: nat)
    requires i < |xs| && f(xs[i]) <= 0
    requires forall x :: x in xs ==> f(x) <= high
    ensures Total(xs, f) <= (|xs| - 1) * high
  {
    var n := |xs| - 1;
    if i == n {
      TotalAtMost(xs[..n], f, high);
    } else {
      TotalAtMostBut(xs[..n], f, i, high);
      assert n * high == (n - 1) * high + high;
    }
  }

  lemma {:induction false} TotalAtLeast<T>(xs: seq<T>, f: T -> int)
    requires forall x :: x in xs ==> 0 <= f(x)
    ensures 0 <= Total(xs, f)
    ensures forall x :: x in xs ==> f(x) <= Total(xs, f)
  {
    if xs != [] {
      TotalAtLeast(xs[..|xs| - 1], f);
    }
  }

  /** The same for a sequence of which only place i has changed. */
  lemma TotalChange<T>(xs: seq<T>, ys: seq<T>, f: T -> int, i: nat)
    requires i < |xs| == |ys| && ys == xs[i := ys[i]]
    ensures Total(ys, f) - f(ys[i]) == Total(xs, f) - f(xs[i])
  {
    TotalUpdate(xs, f, i, ys[i]);
  }

  lemma {:induction false} TotalNothing<T>(xs: seq<T>, f: T -> int)
    requires forall x :: x in xs ==> f(x) == 0
    ensures Total(xs, f) == 0
  {
    if xs != [] {
      TotalNothing(xs[..|xs| - 1], f);
    }
  }

  lemma {:induction false} TotalSomewhere<T>(xs: seq<T>, f: T -> int) returns (i: nat)
    requires Total(xs, f) > 0
    ensures i < |xs| && f(xs[i]) > 0
  {
    var n := |xs| - 1;
    if f(xs[n]) > 0 {
      i := n;
    } else {
      i := TotalSomewhere(xs[..n], f);
    }
  }

  /** Two places add up. */
  lemma TotalOfTwo<T>(xs: seq<T>, f: T -> int, i: nat, j: nat)
    requires i < |xs| && j < |xs| && i != j
    requires forall x :: x in xs ==> 0 <= f(x)
    ensures f(xs[i]) + f(xs[j]) <= Total(xs, f)
  {
    var n := |xs| - 1;
    TotalAtLeast(xs[..n], f);
    if i < n && j < n {
      TotalOfTwo(xs[..n], f, i, j);
    } else {
      assert xs[if i < n then i else j] in xs[..n];
    }
  }

  ghost function Collect<T, U>(xs: seq<T>, f: T -> multiset<U>): multiset<U> {
    if xs == [] then multiset{} else Collect(xs[..|xs| - 1], f) + f(xs[|xs| - 1])
  }

  lemma {:induction false} CollectUpdate<T, U>(xs: seq<T>, f: T -> multiset<U>, i: nat, y: T)
    requires i < |xs|
    ensures f(xs[i]) <= Collect(xs, f)
    ensures Collect(xs[i := y], f) == Collect(xs, f) - f(xs[i]) + f(y)
  {
    var n := |xs| - 1;
    if i == n {
      assert xs[i := y][..n] == xs[..n];
    } else {
      assert xs[i := y][..n] == xs[..n][i := y];
      CollectUpdate(xs[..n], f, i, y);
    }
  }

  lemma {:induction false} CollectNothing<T, U>(xs: seq<T>, f: T -> multiset<U>)
    requires forall x :: x in xs ==> f(x) == multiset{}
    ensures Collect(xs, f) == multiset{}
  {
    if xs != [] {
      CollectNothing(xs[..|xs| - 1], f);
    }
  }

  lemma {:induction false} CollectSize<T, U>(xs: seq<T>, f: T -> multiset<U>)
    requires forall x :: x in xs ==> |f(x)| <= 1
    ensures |Collect(xs, f)| <= |xs|
  {
    if xs != [] {
      CollectSize(xs[..|xs| - 1], f);
    }
  }
}
