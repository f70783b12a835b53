/** Byte strings, the little-endian integers the on-disk formats use, and content addresses. */
module Bytes {

  newtype byte = x: int | 0 <= x < 256

  type ByteSeq = seq<byte>

  function Pow256(n: nat): (p: nat)
    ensures p > 0
  {
    if n == 0 then 1 else 256 * Pow256(n - 1)
  }

  /** The `n` low bytes of `v`, least significant first. */
  function LittleEndian(v: nat, n: nat): (b: ByteSeq)
    ensures |b| == n
  {
    if n == 0 then [] else [(v % 256) as byte] + LittleEndian(v / 256, n - 1)
  }

  function FromLittleEndian(b: ByteSeq): (v: nat)
    ensures v < Pow256(|b|)
  {
    if b == [] then 0 else b[0] as nat + 256 * FromLittleEndian(b[1..])
  }

  /** Byte `i` stands for that many 256ths to the `i`. */
  lemma {:induction false} LittleEndianByte(v: nat, n: nat, i: nat)
    requires i < n
    ensures LittleEndian(v, n)[i] as int == v / Pow256(i) % 256
    decreases i
  {
    if i > 0 {
      LittleEndianByte(v / 256, n - 1, i - 1);
      DivideTwice(v, Pow256(i - 1));
    }
  }

  lemma DivideTwice(v: nat, b: nat)
    requires b > 0
    ensures v / 256 / b == v / (256 * b)
  {
    var q := v / 256;
    var s := q / b;
    QuotientBounds(q, b);
    QuotientIs(v, 256 * b, s, 256 * (b * s));
  }

  lemma QuotientBounds(v: nat, d: nat)
    requires d > 0
    ensures d * (v / d) <= v < d * (v / d) + d
  {
  }

  lemma QuotientIs(v: nat, d: nat, q: nat, product: nat)
    requires d > 0 && product <= v < product + d && product == d * q
    ensures v / d == q
  {
    var k := v / d;
    QuotientBounds(v, d);
    if k < q {
      LaterMultiple(d, k, q);
    } else if q < k {
      LaterMultiple(d, q, k);
    }
  }

  lemma LaterMultiple(d: nat, a: nat, b: nat)
    requires a < b
    ensures d * a + d <= d * b
  {
    assert d * (b - a - 1) >= 0;
  }

  lemma {:induction false} LittleEndianRoundTrip(v: nat, n: nat)
    requires v < Pow256(n)
    ensures FromLittleEndian(LittleEndian(v, n)) == v
    decreases n
  {
    if n > 0 {
      LittleEndianRoundTrip(v / 256, n - 1);
      assert LittleEndian(v, n)[1..] == LittleEndian(v / 256, n - 1);
    }
  }

  lemma {:induction false} FromLittleEndianRoundTrip(b: ByteSeq)
    ensures LittleEndian(FromLittleEndian(b), |b|) == b
    decreases |b|
  {
    if b != [] {
      FromLittleEndianRoundTrip(b[1..]);
      var rest := FromLittleEndian(b[1..]);
      assert (b[0] as nat + 256 * rest) % 256 == b[0] as nat;
      assert (b[0] as nat + 256 * rest) / 256 == rest;
      assert b == [b[0]] + b[1..];
    }
  }
}

/**
 * Content addresses. The engine's digest function is a parameter; the one thing assumed of it is that
 * no two byte strings share an address.
 */
module Digests {
  import opened Bytes

  datatype Digest = Digest(value: ByteSeq)

  ghost predicate CollisionFree(h: ByteSeq -> Digest) {
    forall a, b :: h(a) == h(b) ==> a == b
  }

  type Hasher = h: ByteSeq -> Digest | CollisionFree(h) witness (b: ByteSeq) => Digest(b)
}
