/** Value types shared by every module: outcomes, bytes, machine integers and the XOR of RFC 5802. */
module Prelude {

  datatype Option<+T> = None | Some(value: T)

  datatype Result<+T, +E> = Ok(value: T) | Err(error: E)

  type byte = b: int | 0 <= b < 256

  type Bytes = seq<byte>

  const U32_LIMIT := 0x1_0000_0000

  type u32 = n: int | 0 <= n < U32_LIMIT

  /** A 32-byte digest, MAC or key. */
  type Key = k: Bytes | |k| == 32 witness seq(32, _ => 0)

  /** Bitwise exclusive or of the low `width` bits, least significant bit first. */
  function XorBits(a: nat, b: nat, width: nat): (r: nat)
  {
    if width == 0 then 0 else (a + b) % 2 + 2 * XorBits(a / 2, b / 2, width - 1)
  }

  lemma {:induction false} XorBitsBelow(a: nat, b: nat, width: nat, limit: nat)
    requires limit == Pow2(width)
    ensures XorBits(a, b, width) < limit
  {
    if width > 0 {
      XorBitsBelow(a / 2, b / 2, width - 1, limit / 2);
    }
  }

  lemma LowBitCancels(a: nat, b: nat, x: nat)
    ensures var mixed := (a + b) % 2 + 2 * x;
            mixed / 2 == x && (mixed + b) % 2 == a % 2
  {
    var low := (a + b) % 2;
    assert (low + 2 * x) / 2 == x;
    assert (low + 2 * x + b) % 2 == (low + b) % 2;
    assert (low + b) % 2 == (a + b + b) % 2 == a % 2;
  }

  lemma {:induction false} XorBitsCancels(a: nat, b: nat, width: nat)
    requires a < Pow2(width)
    ensures XorBits(XorBits(a, b, width), b, width) == a
  {
    if width > 0 {
      LowBitCancels(a, b, XorBits(a / 2, b / 2, width - 1));
      XorBitsCancels(a / 2, b / 2, width - 1);
    }
  }

  function Pow2(n: nat): (r: nat)
    ensures 1 <= r
  {
    if n == 0 then 1 else 2 * Pow2(n - 1)
  }

  function XorByte(a: byte, b: byte): byte {
    assert XorBits(a, b, 8) < 256 by {
      assert Pow2(8) == 2 * Pow2(7) && Pow2(7) == 2 * Pow2(6) && Pow2(6) == 2 * Pow2(5) && Pow2(5) == 2 * Pow2(4)
          && Pow2(4) == 2 * Pow2(3) && Pow2(3) == 2 * Pow2(2) && Pow2(2) == 2 * Pow2(1);
      XorBitsBelow(a, b, 8, 256);
    }
    XorBits(a, b, 8)
  }

  function Xor(a: Bytes, b: Bytes): (r: Bytes)
    requires |a| == |b|
    ensures |r| == |a|
  {
    seq(|a|, i requires 0 <= i < |a| => XorByte(a[i], b[i]))
  }

  lemma XorByteCancels(a: byte, b: byte)
    ensures XorByte(XorByte(a, b), b) == a
  {
    assert Pow2(8) == 2 * Pow2(7) && Pow2(7) == 2 * Pow2(6) && Pow2(6) == 2 * Pow2(5) && Pow2(5) == 2 * Pow2(4)
        && Pow2(4) == 2 * Pow2(3) && Pow2(3) == 2 * Pow2(2) && Pow2(2) == 2 * Pow2(1);
    XorBitsCancels(a, b, 8);
  }

  /** XOR-ing twice with the same mask gives the original back: `ClientProof XOR ClientSignature == ClientKey`. */
  lemma XorCancels(a: Bytes, b: Bytes)
    requires |a| == |b|
    ensures Xor(Xor(a, b), b) == a
  {
    forall i | 0 <= i < |a|
      ensures Xor(Xor(a, b), b)[i] == a[i]
    {
      XorByteCancels(a[i], b[i]);
    }
  }

  /** `u32::to_be_bytes`. */
  function BigEndian(n: u32): (b: Bytes)
    ensures |b| == 4
  {
    [n / 256 / 256 / 256, n / 256 / 256 % 256, n / 256 % 256, n % 256]
  }

  /** `u32::from_be_bytes`. */
  function FromBigEndian(b: Bytes): u32
    requires |b| == 4
  {
    var (b0: int, b1: int, b2: int, b3: int) := (b[0], b[1], b[2], b[3]);
    ((b0 * 256 + b1) * 256 + b2) * 256 + b3
  }

  lemma BigEndianRoundTrip(n: u32)
    ensures FromBigEndian(BigEndian(n)) == n
  {
  }

  lemma DivideBack(q: nat, r: byte)
    ensures (q * 256 + r) / 256 == q && (q * 256 + r) % 256 == r
  {
  }

  lemma FromBigEndianRoundTrip(b: Bytes)
    requires |b| == 4
    ensures BigEndian(FromBigEndian(b)) == b
  {
    var high: nat := b[0];
    var (middle, low) := (high * 256 + b[1], (high * 256 + b[1]) * 256 + b[2]);
    DivideBack(high, b[1]);
    DivideBack(middle, b[2]);
    DivideBack(low, b[3]);
  }
}
