/** What a value feeds into a stable hasher (crates/hashing/src/lib.rs, supported.rs), and why it is unambiguous. */
module StableEncoding {
  import opened Prelude
  import opened ArchiveFormat

  /**
   The hashed types. Strings and paths are sequences of bytes; `usize` and `isize` are integers of eight bytes; an
   ordered map iterates over pairs, as an ordered set does over its elements.
   */
  datatype Ty =
    | TInt(width: nat, signed: bool)
    | TBool
    | TSeq(item: Ty)
    | TOption(some: Ty)
    | TOrdered(elem: Ty)
    | TPair(first: Ty, second: Ty)
    | THash

  /** The value of an ordered collection is its elements in iteration order. */
  datatype Val =
    | VInt(n: int)
    | VBool(b: bool)
    | VMany(items: seq<Val>)
    | VNone
    | VSome(v: Val)
    | VPair(fst: Val, snd: Val)
    | VHash(hash: SupportedHash)

  function Pow256(w: nat): (p: int)
    ensures p > 0
  {
    if w == 0 then 1 else 256 * Pow256(w - 1)
  }

  /** Values of a type; a collection's length is a `usize`. */
  predicate HasType(v: Val, ty: Ty)
    decreases ty
  {
    match ty
    case TInt(w, signed) =>
      w > 0 && v.VInt? && if signed then -Pow256(w) <= 2 * v.n < Pow256(w) else 0 <= v.n < Pow256(w)
    case TBool => v.VBool?
    case TSeq(t) => v.VMany? && |v.items| < WORD && forall i :: 0 <= i < |v.items| ==> HasType(v.items[i], t)
    case TOption(t) => v.VNone? || (v.VSome? && HasType(v.v, t))
    case TOrdered(t) => v.VMany? && |v.items| < WORD && forall i :: 0 <= i < |v.items| ==> HasType(v.items[i], t)
    case TPair(t, u) => v.VPair? && HasType(v.fst, t) && HasType(v.snd, u)
    case THash => v.VHash?
  }

  predicate AllHaveType(vs: seq<Val>, t: Ty) {
    forall i :: 0 <= i < |vs| ==> HasType(vs[i], t)
  }

  /** `to_be_bytes` of a natural number in w bytes. */
  function BigEndian(n: nat, w: nat): (b: Bytes)
    ensures |b| == w
  {
    if w == 0 then [] else BigEndian(n / 256, w - 1) + [n % 256]
  }

  function TwosComplement(n: int, w: nat): nat
    requires -Pow256(w) <= n
  {
    if n < 0 then n + Pow256(w) else n
  }

  function Encode(v: Val, ty: Ty): Bytes
    requires HasType(v, ty)
    decreases ty, 0
  {
    match ty
    case TInt(w, _) => BigEndian(TwosComplement(v.n, w), w)
    case TBool => [if v.b then 0xFF else 0]
    case TSeq(t) => BigEndian(|v.items|, 8) + EncodeAll(v.items, t)
    case TOption(t) => if v.VSome? then [1] + Encode(v.v, t) else [0]
    case TOrdered(t) => EncodeIndexed(v.items, t, 0) + BigEndian(WORD - 1, 8)
    case TPair(t, u) => Encode(v.fst, t) + Encode(v.snd, u)
    case THash => HashBytes(v.hash)
  }

  function EncodeAll(vs: seq<Val>, t: Ty): Bytes
    requires AllHaveType(vs, t)
    decreases t, |vs| + 1
  {
    if vs == [] then [] else Encode(vs[0], t) + EncodeAll(vs[1..], t)
  }

  /** `update_iter`: every element behind its index. */
  function EncodeIndexed(vs: seq<Val>, t: Ty, i: nat): Bytes
    requires AllHaveType(vs, t)
    decreases t, |vs| + 1
  {
    if vs == [] then [] else BigEndian(i, 8) + Encode(vs[0], t) + EncodeIndexed(vs[1..], t, i + 1)
  }

  // ----- unambiguity -----

  lemma {:induction false} BigEndianInjective(m: nat, n: nat, w: nat)
    requires m < Pow256(w) && n < Pow256(w) && BigEndian(m, w) == BigEndian(n, w)
    ensures m == n
  {
    if w > 0 {
      var a, b := BigEndian(m, w), BigEndian(n, w);
      assert a[..w - 1] == BigEndian(m / 256, w - 1) && b[..w - 1] == BigEndian(n / 256, w - 1);
      assert a[w - 1] == m % 256 && b[w - 1] == n % 256;
      BigEndianInjective(m / 256, n / 256, w - 1);
    }
  }

  lemma Word()
    ensures Pow256(8) == WORD
  {
    assert Pow256(4) == 0x1_0000_0000;
    assert Pow256(8) == 256 * (256 * (256 * (256 * Pow256(4))));
  }

  /** Two strings of equal length that start equal continuations are equal. */
  lemma SameHead(a: Bytes, b: Bytes, x: Bytes, y: Bytes)
    requires |a| == |b| && a + x == b + y
    ensures a == b && x == y
  {
    assert a == (a + x)[..|a|] && b == (b + y)[..|b|];
    assert x == (a + x)[|a|..] && y == (b + y)[|b|..];
  }

  lemma IndexedHead(i: nat, j: nat, x: Bytes, y: Bytes)
    requires i < WORD && j < WORD && BigEndian(i, 8) + x == BigEndian(j, 8) + y
    ensures i == j && x == y
  {
    SameHead(BigEndian(i, 8), BigEndian(j, 8), x, y);
    Word();
    BigEndianInjective(i, j, 8);
  }

  lemma IntPrefixFree(m: int, n: int, w: nat, signed: bool, x: Bytes, y: Bytes)
    requires HasType(VInt(m), TInt(w, signed)) && HasType(VInt(n), TInt(w, signed))
    requires Encode(VInt(m), TInt(w, signed)) + x == Encode(VInt(n), TInt(w, signed)) + y
    ensures m == n && x == y
  {
    SameHead(BigEndian(TwosComplement(m, w), w), BigEndian(TwosComplement(n, w), w), x, y);
    BigEndianInjective(TwosComplement(m, w), TwosComplement(n, w), w);
  }

  /**
   No encoding of a type is the beginning of another: what follows a value in the hasher can never be taken for part of
   it, at any depth of nesting.
   */
  lemma {:induction false} PrefixFree(a: Val, b: Val, ty: Ty, x: Bytes, y: Bytes)
    requires HasType(a, ty) && HasType(b, ty) && Encode(a, ty) + x == Encode(b, ty) + y
    ensures a == b && x == y
    decreases ty, 0
  {
    match ty
    case TInt(w, signed) => IntPrefixFree(a.n, b.n, w, signed, x, y);
    case TBool => SameHead(Encode(a, ty), Encode(b, ty), x, y);
    case TSeq(t) =>
      var m, n := BigEndian(|a.items|, 8), BigEndian(|b.items|, 8);
      Associates(m, EncodeAll(a.items, t), x, []);
      Associates(n, EncodeAll(b.items, t), y, []);
      IndexedHead(|a.items|, |b.items|, EncodeAll(a.items, t) + x, EncodeAll(b.items, t) + y);
      AllPrefixFree(a.items, b.items, t, x, y);
    case TOption(t) =>
      assert (Encode(a, ty) + x)[0] == (if a.VSome? then 1 else 0);
      assert (Encode(b, ty) + y)[0] == (if b.VSome? then 1 else 0);
      if a.VSome? {
        Associates([1], Encode(a.v, t), x, []);
        Associates([1], Encode(b.v, t), y, []);
        SameHead([1], [1], Encode(a.v, t) + x, Encode(b.v, t) + y);
        PrefixFree(a.v, b.v, t, x, y);
      } else {
        SameHead([0], [0], x, y);
      }
    case TOrdered(t) =>
      var last := BigEndian(WORD - 1, 8);
      Associates(EncodeIndexed(a.items, t, 0), last, x, []);
      Associates(EncodeIndexed(b.items, t, 0), last, y, []);
      IndexedPrefixFree(a.items, b.items, t, 0, x, y);
    case TPair(t, u) =>
      Associates(Encode(a.fst, t), Encode(a.snd, u), x, []);
      Associates(Encode(b.fst, t), Encode(b.snd, u), y, []);
      PrefixFree(a.fst, b.fst, t, Encode(a.snd, u) + x, Encode(b.snd, u) + y);
      PrefixFree(a.snd, b.snd, u, x, y);
    case THash => SameHead(HashBytes(a.hash), HashBytes(b.hash), x, y);
      HashBytesInjective(a.hash, b.hash);
  }

  lemma HashBytesInjective(a: SupportedHash, b: SupportedHash)
    requires HashBytes(a) == HashBytes(b)
    ensures a == b
  {
    assert HashBytes(a)[1..] == a.digest && HashBytes(b)[1..] == b.digest;
  }

  lemma {:induction false} AllPrefixFree(us: seq<Val>, bs: seq<Val>, t: Ty, x: Bytes, y: Bytes)
    requires AllHaveType(us, t) && AllHaveType(bs, t) && |us| == |bs|
    requires EncodeAll(us, t) + x == EncodeAll(bs, t) + y
    ensures us == bs && x == y
    decreases t, |us| + 1
  {
    if us == [] {
      assert [] + x == x && [] + y == y;
    } else {
      Associates(Encode(us[0], t), EncodeAll(us[1..], t), x, []);
      Associates(Encode(bs[0], t), EncodeAll(bs[1..], t), y, []);
      PrefixFree(us[0], bs[0], t, EncodeAll(us[1..], t) + x, EncodeAll(bs[1..], t) + y);
      AllPrefixFree(us[1..], bs[1..], t, x, y);
      assert us == [us[0]] + us[1..] && bs == [bs[0]] + bs[1..];
    }
  }

  /** The index-then-element form needs no length: the closing u64::MAX is no index. */
  lemma {:induction false} IndexedPrefixFree(us: seq<Val>, bs: seq<Val>, t: Ty, i: nat, x: Bytes, y: Bytes)
    requires AllHaveType(us, t) && AllHaveType(bs, t) && i + |us| < WORD && i + |bs| < WORD
    requires EncodeIndexed(us, t, i) + (BigEndian(WORD - 1, 8) + x) == EncodeIndexed(bs, t, i) + (BigEndian(WORD - 1, 8) + y)
    ensures us == bs && x == y
    decreases t, |us| + 1
  {
    hide BigEndian, EncodeIndexed, Encode;
    var restA, restB := IndexedTail(us, t, i, x), IndexedTail(bs, t, i, y);
    IndexedFromIndex(us, t, i, x);
    IndexedFromIndex(bs, t, i, y);
    IndexedHead(if us == [] then WORD - 1 else i, if bs == [] then WORD - 1 else i, restA, restB);
    if us != [] && bs != [] {
      var last := BigEndian(WORD - 1, 8);
      PrefixFree(us[0], bs[0], t, EncodeIndexed(us[1..], t, i + 1) + (last + x),
                 EncodeIndexed(bs[1..], t, i + 1) + (last + y));
      IndexedPrefixFree(us[1..], bs[1..], t, i + 1, x, y);
      assert us == [us[0]] + us[1..] && bs == [bs[0]] + bs[1..];
    }
  }

  /** What follows the first index of the rest of an indexed collection. */
  function IndexedTail(vs: seq<Val>, t: Ty, i: nat, x: Bytes): Bytes
    requires AllHaveType(vs, t)
  {
    if vs == [] then x
    else Encode(vs[0], t) + (EncodeIndexed(vs[1..], t, i + 1) + (BigEndian(WORD - 1, 8) + x))
  }

  lemma IndexedFromIndex(vs: seq<Val>, t: Ty, i: nat, x: Bytes)
    requires AllHaveType(vs, t)
    ensures EncodeIndexed(vs, t, i) + (BigEndian(WORD - 1, 8) + x)
         == BigEndian(if vs == [] then WORD - 1 else i, 8) + IndexedTail(vs, t, i, x)
  {
    var last := BigEndian(WORD - 1, 8) + x;
    if vs == [] {
      assert [] + last == last;
    } else {
      Associates(BigEndian(i, 8), Encode(vs[0], t), EncodeIndexed(vs[1..], t, i + 1), last);
      Associates(Encode(vs[0], t), EncodeIndexed(vs[1..], t, i + 1), last, []);
    }
  }

  /** Values of one type feed a hasher the same bytes only if they are equal. */
  lemma EncodeInjective(a: Val, b: Val, ty: Ty)
    requires HasType(a, ty) && HasType(b, ty)
    ensures Encode(a, ty) == Encode(b, ty) <==> a == b
  {
    if Encode(a, ty) == Encode(b, ty) {
      PrefixFree(a, b, ty, [], []);
    }
  }

  // ----- the hasher -----

  lemma {:induction false} EncodeAllOneMore(vs: seq<Val>, v: Val, t: Ty)
    requires AllHaveType(vs, t) && HasType(v, t)
    ensures EncodeAll(vs + [v], t) == EncodeAll(vs, t) + Encode(v, t)
  {
    if vs == [] {
      assert vs + [v] == [v] && [v][1..] == [];
    } else {
      assert (vs + [v])[1..] == vs[1..] + [v];
      EncodeAllOneMore(vs[1..], v, t);
      Associates(Encode(vs[0], t), EncodeAll(vs[1..], t), Encode(v, t), []);
    }
  }

  lemma {:induction false} EncodeIndexedOneMore(vs: seq<Val>, v: Val, t: Ty, i: nat)
    requires AllHaveType(vs, t) && HasType(v, t)
    ensures EncodeIndexed(vs + [v], t, i) == EncodeIndexed(vs, t, i) + (BigEndian(i + |vs|, 8) + Encode(v, t))
  {
    if vs == [] {
      assert vs + [v] == [v] && [v][1..] == [];
    } else {
      assert (vs + [v])[1..] == vs[1..] + [v];
      EncodeIndexedOneMore(vs[1..], v, t, i + 1);
      Associates(BigEndian(i, 8) + Encode(vs[0], t), EncodeIndexed(vs[1..], t, i + 1),
                 BigEndian(i + |vs|, 8) + Encode(v, t), []);
    }
  }

  /** One round of the loop of `update_iter`. */
  lemma IndexedStep(start: Bytes, vs: seq<Val>, t: Ty, i: nat)
    requires AllHaveType(vs, t) && i < |vs|
    ensures start + EncodeIndexed(vs[..i], t, 0) + BigEndian(i, 8) + Encode(vs[i], t)
         == start + EncodeIndexed(vs[..i + 1], t, 0)
  {
    hide BigEndian, EncodeIndexed, Encode;
    EncodeIndexedOneMore(vs[..i], vs[i], t, 0);
    assert vs[..i + 1] == vs[..i] + [vs[i]];
    Associates(start, EncodeIndexed(vs[..i], t, 0), BigEndian(i, 8), Encode(vs[i], t));
    Associates(EncodeIndexed(vs[..i], t, 0), BigEndian(i, 8), Encode(vs[i], t), []);
  }

  class StableHasher {
    var absorbed: Bytes

    constructor ()
      ensures absorbed == []
    {
      absorbed := [];
    }

    method Update(bytes: Bytes)
      modifies this
      ensures absorbed == old(absorbed) + bytes
    {
      absorbed := absorbed + bytes;
    }

    /** `update_hash`: the implementation of `StableHash` for the value's type. */
    method UpdateHash(v: Val, ty: Ty)
      requires HasType(v, ty)
      modifies this
      ensures absorbed == old(absorbed) + Encode(v, ty)
      decreases ty, 0
    {
      var before := absorbed;
      match ty {
        case TInt(w, _) =>
          Update(BigEndian(TwosComplement(v.n, w), w));
        case TBool =>
          if v.b {
            Update([0xFF]);
          } else {
            Update([0]);
          }
        case TSeq(t) =>
          UpdateSlice(v.items, t);
        case TOption(t) =>
          if v.VSome? {
            Update([1]);
            UpdateHash(v.v, t);
            Associates(before, [1], Encode(v.v, t), []);
          } else {
            Update([0]);
          }
        case TOrdered(t) =>
          UpdateIter(v.items, t);
        case TPair(t, u) =>
          UpdateHash(v.fst, t);
          UpdateHash(v.snd, u);
          Associates(before, Encode(v.fst, t), Encode(v.snd, u), []);
        case THash =>
          Update([1]);
          Update(v.hash.digest);
          Associates(before, [1], v.hash.digest, []);
      }
    }

    /** The implementation for slices: the length, then the elements. */
    method UpdateSlice(vs: seq<Val>, t: Ty)
      requires AllHaveType(vs, t) && |vs| < WORD
      modifies this
      ensures absorbed == old(absorbed) + (BigEndian(|vs|, 8) + EncodeAll(vs, t))
      decreases t, 1
    {
      Update(BigEndian(|vs|, 8));
      var start := absorbed;
      assert start + EncodeAll([], t) == start;
      hide BigEndian, EncodeAll, Encode;
      for i := 0 to |vs|
        invariant absorbed == start + EncodeAll(vs[..i], t)
      {
        UpdateHash(vs[i], t);
        EncodeAllOneMore(vs[..i], vs[i], t);
        assert vs[..i + 1] == vs[..i] + [vs[i]];
        Associates(start, EncodeAll(vs[..i], t), Encode(vs[i], t), []);
      }
      assert vs[..|vs|] == vs;
      Associates(old(absorbed), BigEndian(|vs|, 8), EncodeAll(vs, t), []);
    }

    /** `update_iter`: each index and element, closed by u64::MAX. */
    method UpdateIter(vs: seq<Val>, t: Ty)
      requires AllHaveType(vs, t) && |vs| < WORD
      modifies this
      ensures absorbed == old(absorbed) + (EncodeIndexed(vs, t, 0) + BigEndian(WORD - 1, 8))
      decreases t, 1
    {
      var start := absorbed;
      assert start + EncodeIndexed([], t, 0) == start;
      hide BigEndian, EncodeIndexed, Encode;
      for i := 0 to |vs|
        invariant absorbed == start + EncodeIndexed(vs[..i], t, 0)
      {
        Update(BigEndian(i, 8));
        UpdateHash(vs[i], t);
        IndexedStep(start, vs, t, i);
      }
      assert vs[..|vs|] == vs;
      Update(BigEndian(WORD - 1, 8));
      Associates(start, EncodeIndexed(vs, t, 0), BigEndian(WORD - 1, 8), []);
    }
  }
}
