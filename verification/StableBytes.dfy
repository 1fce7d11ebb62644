/** The bytes a stable hasher is fed, one by one (crates/hashing/src/lib.rs:37-44, 72-222, supported.rs:105-111). */
module StableBytes {
  import opened Prelude
  import opened ArchiveFormat
  import opened StableEncoding

  /** The number that bytes stand for, the first being the most significant. */
  function Value(b: Bytes): nat {
    if b == [] then 0 else 256 * Value(b[..|b| - 1]) + b[|b| - 1]
  }

  lemma {:induction false} BigEndianValue(n: nat, w: nat)
    requires n < Pow256(w)
    ensures |BigEndian(n, w)| == w && Value(BigEndian(n, w)) == n
  {
    if w > 0 {
      var b := BigEndian(n, w);
      assert b[..w - 1] == BigEndian(n / 256, w - 1) && b[w - 1] == n % 256;
      BigEndianValue(n / 256, w - 1);
    }
  }

  lemma Powers()
    ensures Pow256(1) == 0x100 && Pow256(2) == 0x1_0000 && Pow256(4) == 0x1_0000_0000
    ensures Pow256(8) == 0x1_0000_0000_0000_0000
  {
    assert Pow256(2) == 256 * Pow256(1);
    assert Pow256(4) == 256 * (256 * Pow256(2));
    assert Pow256(8) == 256 * (256 * (256 * (256 * Pow256(4))));
  }

  /** An integer is fed as its width in bytes says, two's complement if it is signed. */
  lemma IntBytes(n: int, w: nat, signed: bool)
    requires HasType(VInt(n), TInt(w, signed))
    ensures var b := Encode(VInt(n), TInt(w, signed));
      |b| == w && Value(b) == if n < 0 then n + Pow256(w) else n
  {
    BigEndianValue(TwosComplement(n, w), w);
  }

  /** A slice, string or path: eight bytes of length, then the elements. */
  lemma SliceBytes(vs: seq<Val>, t: Ty)
    requires AllHaveType(vs, t) && |vs| < 0x1_0000_0000_0000_0000
    ensures HasType(VMany(vs), TSeq(t))
    ensures var b := Encode(VMany(vs), TSeq(t));
      |b| >= 8 && Value(b[..8]) == |vs| && b[8..] == EncodeAll(vs, t)
  {
    Powers();
    BigEndianValue(|vs|, 8);
    var m := BigEndian(|vs|, 8);
    assert (m + EncodeAll(vs, t))[..8] == m && (m + EncodeAll(vs, t))[8..] == EncodeAll(vs, t);
  }

  lemma {:induction false} AllOnes(w: nat)
    ensures Pow256(w) - 1 >= 0 && BigEndian(Pow256(w) - 1, w) == seq(w, i => 0xFF)
  {
    if w > 0 {
      AllOnes(w - 1);
      assert (Pow256(w) - 1) / 256 == Pow256(w - 1) - 1 && (Pow256(w) - 1) % 256 == 255;
      assert seq(w, i => 0xFF) == seq(w - 1, i => 0xFF) + [0xFF];
    }
  }

  /** An ordered collection ends with eight bytes of ones, and begins each element with eight bytes of its index. */
  lemma OrderedBytes(vs: seq<Val>, t: Ty)
    requires AllHaveType(vs, t) && |vs| < 0x1_0000_0000_0000_0000
    ensures HasType(VMany(vs), TOrdered(t))
    ensures Encode(VMany(vs), TOrdered(t))
         == EncodeIndexed(vs, t, 0) + [0xFF, 0xFF, 0xFF, 0xFF, 0xFF, 0xFF, 0xFF, 0xFF]
  {
    hide EncodeIndexed;
    Powers();
    AllOnes(8);
  }

  lemma IndexBytes(vs: seq<Val>, t: Ty, i: nat)
    requires AllHaveType(vs, t) && vs != [] && i < 0x1_0000_0000_0000_0000
    ensures var b, e := EncodeIndexed(vs, t, i), Encode(vs[0], t);
      |b| >= 8 + |e| && Value(b[..8]) == i && b[8..8 + |e|] == e && b[8 + |e|..] == EncodeIndexed(vs[1..], t, i + 1)
  {
    Powers();
    BigEndianValue(i, 8);
    var m, e, rest := BigEndian(i, 8), Encode(vs[0], t), EncodeIndexed(vs[1..], t, i + 1);
    assert (m + e + rest)[..8] == m && (m + e + rest)[8..8 + |e|] == e && (m + e + rest)[8 + |e|..] == rest;
  }

  // ----- values, byte by byte -----

  lemma Small(n: nat)
    requires n < 0x100
    ensures BigEndian(n, 8) == [0, 0, 0, 0, 0, 0, 0, n]
  {
    Zeros(7);
    assert BigEndian(n, 8) == BigEndian(0, 7) + [n];
  }

  lemma {:induction false} Zeros(w: nat)
    ensures BigEndian(0, w) == seq(w, i => 0)
  {
    if w > 0 {
      Zeros(w - 1);
      assert seq(w, i => 0) == seq(w - 1, i => 0) + [0];
    }
  }

  lemma Integers()
    ensures HasType(VInt(0x0102), TInt(2, false)) && Encode(VInt(0x0102), TInt(2, false)) == [1, 2]
    ensures HasType(VInt(0x01020304), TInt(4, false)) && Encode(VInt(0x01020304), TInt(4, false)) == [1, 2, 3, 4]
    ensures HasType(VInt(-1), TInt(1, true)) && Encode(VInt(-1), TInt(1, true)) == [0xFF]
    ensures HasType(VInt(-2), TInt(2, true)) && Encode(VInt(-2), TInt(2, true)) == [0xFF, 0xFE]
  {
    Powers();
    assert BigEndian(0x0102, 2) == BigEndian(1, 1) + [2] && BigEndian(1, 1) == [1];
    assert BigEndian(0x0102_0304, 4) == BigEndian(0x0102, 2) + [3, 4];
    assert TwosComplement(-1, 1) == 0xFF && BigEndian(0xFF, 1) == [0xFF];
    assert TwosComplement(-2, 2) == 0xFFFE && BigEndian(0xFFFE, 2) == BigEndian(0xFF, 1) + [0xFE];
  }

  lemma Bools()
    ensures Encode(VBool(true), TBool) == [0xFF] && Encode(VBool(false), TBool) == [0]
  {
  }

  lemma Options(v: Val, t: Ty)
    requires HasType(v, t)
    ensures Encode(VNone, TOption(t)) == [0] && Encode(VSome(v), TOption(t)) == [1] + Encode(v, t)
  {
  }

  lemma Pairs(v: Val, w: Val, t: Ty, u: Ty)
    requires HasType(v, t) && HasType(w, u)
    ensures Encode(VPair(v, w), TPair(t, u)) == Encode(v, t) + Encode(w, u)
  {
  }

  lemma Hashes(digest: Digest)
    ensures Encode(VHash(Blake3(digest)), THash) == [1] + digest
  {
  }

  /** The string "ab". */
  lemma Text()
    ensures HasType(VMany([VInt(0x61), VInt(0x62)]), TSeq(TInt(1, false)))
    ensures Encode(VMany([VInt(0x61), VInt(0x62)]), TSeq(TInt(1, false))) == [0, 0, 0, 0, 0, 0, 0, 2, 0x61, 0x62]
  {
    var t, vs := TInt(1, false), [VInt(0x61), VInt(0x62)];
    Powers();
    Small(2);
    assert BigEndian(0x61, 1) == [0x61] && BigEndian(0x62, 1) == [0x62];
    assert vs[1..] == [VInt(0x62)] && vs[1..][1..] == [];
    assert EncodeAll(vs[1..], t) == [0x62] + [] && EncodeAll(vs, t) == [0x61] + EncodeAll(vs[1..], t);
  }

  lemma OneByte(a: Byte)
    ensures HasType(VInt(a), TInt(1, false)) && Encode(VInt(a), TInt(1, false)) == [a]
  {
    assert BigEndian(a, 1) == BigEndian(0, 0) + [a];
  }

  /** An ordered set of two bytes. */
  lemma ByteSet(a: Byte, b: Byte)
    ensures HasType(VMany([VInt(a), VInt(b)]), TOrdered(TInt(1, false)))
    ensures Encode(VMany([VInt(a), VInt(b)]), TOrdered(TInt(1, false)))
         == [0, 0, 0, 0, 0, 0, 0, 0, a, 0, 0, 0, 0, 0, 0, 0, 1, b, 0xFF, 0xFF, 0xFF, 0xFF, 0xFF, 0xFF, 0xFF, 0xFF]
  {
    var t, vs := TInt(1, false), [VInt(a), VInt(b)];
    OneByte(a);
    OneByte(b);
    OrderedBytes(vs, t);
    hide Encode, EncodeIndexed, BigEndian;
    TwoIndexed(vs, t);
  }

  lemma TwoIndexed(vs: seq<Val>, t: Ty)
    requires AllHaveType(vs, t) && |vs| == 2
    ensures EncodeIndexed(vs, t, 0)
         == [0, 0, 0, 0, 0, 0, 0, 0] + Encode(vs[0], t) + ([0, 0, 0, 0, 0, 0, 0, 1] + Encode(vs[1], t))
  {
    hide Encode, BigEndian, AllHaveType;
    Small(0);
    Small(1);
    TwoSteps(vs, t);
  }

  lemma TwoSteps(vs: seq<Val>, t: Ty)
    requires AllHaveType(vs, t) && |vs| == 2
    ensures EncodeIndexed(vs, t, 0) == BigEndian(0, 8) + Encode(vs[0], t) + (BigEndian(1, 8) + Encode(vs[1], t))
  {
    hide Encode, BigEndian;
    var tail := vs[1..];
    assert tail[0] == vs[1] && tail[1..] == [];
    assert EncodeIndexed(tail, t, 1) == BigEndian(1, 8) + Encode(vs[1], t) + [];
  }
}
