/** What the XOR of SCRAM does to every single bit. */
module Bits {
  import opened Prelude

  /** Bit `i` of `n`, counted from the least significant. */
  predicate Bit(n: nat, i: nat) {
    n / Pow2(i) % 2 == 1
  }

  lemma StepsApart(d: nat, p: nat, q: nat)
    ensures p < q ==> d * p + d <= d * q
  {
    if p < q {
      assert d * (p + 1) <= d * q;
    }
  }

  lemma QuotientIs(n: nat, d: nat, q: nat, r: nat)
    requires d > 0 && n == d * q + r && r < d
    ensures n / d == q
  {
    var p := n / d;
    assert n == d * p + n % d;
    StepsApart(d, p, q);
    StepsApart(d, q, p);
  }

  lemma Doubled(d: nat, q: nat, r: nat, low: nat)
    ensures 2 * (d * q + r) + low == 2 * d * q + (2 * r + low)
  {
  }

  lemma HalveFirst(n: nat, d: nat)
    requires d > 0
    ensures n / (2 * d) == n / 2 / d
  {
    var (half, low) := (n / 2, n % 2);
    var (q, r) := (half / d, half % d);
    assert half == d * q + r;
    Doubled(d, q, r, low);
    QuotientIs(n, 2 * d, q, 2 * r + low);
  }

  lemma NextBit(n: nat, i: nat)
    ensures Bit(n, i + 1) == Bit(n / 2, i)
  {
    HalveFirst(n, Pow2(i));
  }

  lemma LowBit(n: nat)
    ensures Bit(n, 0) <==> n % 2 == 1
  {
    assert Pow2(0) == 1;
  }

  lemma {:induction false} BitsDiffer(a: nat, b: nat, width: nat, i: nat)
    requires i < width
    ensures Bit(XorBits(a, b, width), i) <==> Bit(a, i) != Bit(b, i)
  {
    hide Bit, Pow2;
    var x := XorBits(a / 2, b / 2, width - 1);
    assert XorBits(a, b, width) == (a + b) % 2 + 2 * x;
    if i == 0 {
      LowBit(a);
      LowBit(b);
      LowBit(XorBits(a, b, width));
    } else {
      NextBit(a, i - 1);
      NextBit(b, i - 1);
      NextBit(XorBits(a, b, width), i - 1);
      BitsDiffer(a / 2, b / 2, width - 1, i - 1);
    }
  }

  /** A bit of the result is set exactly when that bit of exactly one of the two is. */
  lemma XorIsExclusive(a: Bytes, b: Bytes, k: nat, i: nat)
    requires |a| == |b| && k < |a| && i < 8
    ensures Bit(Xor(a, b)[k], i) <==> Bit(a[k], i) != Bit(b[k], i)
  {
    BitsDiffer(a[k], b[k], 8, i);
  }

  lemma {:induction false} BitsCommute(a: nat, b: nat, width: nat)
    ensures XorBits(a, b, width) == XorBits(b, a, width)
    ensures XorBits(a, a, width) == 0
  {
    if width > 0 {
      BitsCommute(a / 2, b / 2, width - 1);
    }
  }

  /** It does not matter which of the two is the mask, and a key masked with itself is gone. */
  lemma XorCommutes(a: Bytes, b: Bytes)
    requires |a| == |b|
    ensures Xor(a, b) == Xor(b, a)
    ensures forall k | 0 <= k < |a| :: Xor(a, a)[k] == 0
  {
    forall k | 0 <= k < |a|
      ensures Xor(a, b)[k] == Xor(b, a)[k] && Xor(a, a)[k] == 0
    {
      BitsCommute(a[k], b[k], 8);
    }
  }

  /** A byte is the eight bits it has. */
  lemma {:induction false} BitsDecide(a: nat, b: nat, width: nat)
    requires a < Pow2(width) && b < Pow2(width)
    requires forall i: nat | i < width :: Bit(a, i) == Bit(b, i)
    ensures a == b
  {
    hide Bit;
    if width > 0 {
      LowBit(a);
      LowBit(b);
      forall i: nat | i < width - 1
        ensures Bit(a / 2, i) == Bit(b / 2, i)
      {
        NextBit(a, i);
        NextBit(b, i);
        assert Bit(a, i + 1) == Bit(b, i + 1);
      }
      assert Pow2(width) == 2 * Pow2(width - 1);
      BitsDecide(a / 2, b / 2, width - 1);
    }
  }
}
