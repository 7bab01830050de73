/** Base64 as RFC 4648 describes it: the alphabets written out, and every symbol by the six bits it stands for. */
module Rfc4648 {
  import opened Prelude
  import opened Base64

  const UPPER := "ABCDEFGHIJKLMNOPQRSTUVWXYZ"

  const LOWER := "abcdefghijklmnopqrstuvwxyz"

  const DIGITS := "0123456789"

  /** Tables 1 and 2 of RFC 4648. */
  function Table(a: Alphabet): (table: string)
    ensures |table| == 64
  {
    UPPER + LOWER + DIGITS + (if a.Standard? then "+/" else "-_")
  }

  lemma UpperAt(i: nat)
    requires i < 26
    ensures |UPPER| == 26 && UPPER[i] == ('A' as int + i) as char
  {
  }

  lemma LowerAt(i: nat)
    requires i < 26
    ensures |LOWER| == 26 && LOWER[i] == ('a' as int + i) as char
  {
  }

  lemma DigitAt(i: nat)
    requires i < 10
    ensures |DIGITS| == 10 && DIGITS[i] == ('0' as int + i) as char
  {
  }

  /** The symbol of every value is the character at its place in the table. */
  lemma SymbolIsTabled(a: Alphabet, i: nat)
    requires i < 64
    ensures |Table(a)| == 64 && Symbol(a, i) == Table(a)[i]
  {
    hide *;
    PartsAt(a, i);
    SymbolIs(a, i);
  }

  lemma SymbolIs(a: Alphabet, i: nat)
    requires i < 64
    ensures i < 26 ==> Symbol(a, i) == ('A' as int + i) as char
    ensures 26 <= i < 52 ==> Symbol(a, i) == ('a' as int + i - 26) as char
    ensures 52 <= i < 62 ==> Symbol(a, i) == ('0' as int + i - 52) as char
    ensures i == 62 ==> Symbol(a, i) == if a.Standard? then '+' else '-'
    ensures i == 63 ==> Symbol(a, i) == if a.Standard? then '/' else '_'
  {
  }

  lemma PartsAt(a: Alphabet, i: nat)
    requires i < 64
    ensures |Table(a)| == 64
    ensures i < 26 ==> Table(a)[i] == ('A' as int + i) as char
    ensures 26 <= i < 52 ==> Table(a)[i] == ('a' as int + i - 26) as char
    ensures 52 <= i < 62 ==> Table(a)[i] == ('0' as int + i - 52) as char
    ensures i == 62 ==> Table(a)[i] == if a.Standard? then '+' else '-'
    ensures i == 63 ==> Table(a)[i] == if a.Standard? then '/' else '_'
  {
    var last := if a.Standard? then "+/" else "-_";
    Joined(UPPER, LOWER, DIGITS, last, i);
    UpperAt(if i < 26 then i else 0);
    LowerAt(if 26 <= i < 52 then i - 26 else 0);
    DigitAt(if 52 <= i < 62 then i - 52 else 0);
    hide UPPER, LOWER, DIGITS;
  }

  lemma Joined(u: string, l: string, d: string, last: string, i: nat)
    requires i < |u| + |l| + |d| + |last|
    ensures (u + l + d + last)[i] == if i < |u| then u[i]
                                     else if i < |u| + |l| then l[i - |u|]
                                     else if i < |u| + |l| + |d| then d[i - |u| - |l|]
                                     else last[i - |u| - |l| - |d|]
  {
  }

  /** Byte `k`, and zero past the end. */
  function At(b: Bytes, k: nat): byte {
    if k < |b| then b[k] else 0
  }

  /** The six bits from bit `i * 6` on, the most significant bit of a byte first. */
  function SixBits(b: Bytes, i: nat): (n: nat)
    ensures n < 64
  {
    var (k, skipped) := (i * 6 / 8, i * 6 % 8);
    (At(b, k) * 256 + At(b, k + 1)) / Pow2(10 - skipped) % 64
  }

  lemma Offsets(g: nat, r: nat)
    requires r < 4
    ensures (g * 4 + r) * 6 / 8 == g * 3 + r * 6 / 8 && (g * 4 + r) * 6 % 8 == r * 6 % 8
  {
  }

  lemma {:induction false} Later(b: Bytes, i: nat)
    requires |b| >= 3 && i >= 4
    ensures SixBits(b, i) == SixBits(b[3..], i - 4)
  {
    hide Pow2;
    Offsets(i / 4, i % 4);
    Offsets(i / 4 - 1, i % 4);
    assert i == i / 4 * 4 + i % 4 && i - 4 == (i / 4 - 1) * 4 + i % 4;
    var k := i * 6 / 8;
    assert k >= 3 && (i - 4) * 6 / 8 == k - 3 && (i - 4) * 6 % 8 == i * 6 % 8;
    assert At(b, k) == At(b[3..], k - 3) && At(b, k + 1) == At(b[3..], k + 1 - 3);
  }

  lemma HighSix(x: byte, y: byte)
    ensures (x * 256 + y) / 1024 % 64 == x / 4 && (x * 256 + y) / 256 % 64 == x % 64
  {
    assert (x * 256 + y) / 1024 == x / 4 && (x * 256 + y) / 256 == x;
  }

  lemma MiddleSix(x: byte, y: byte)
    ensures (x * 256 + y) / 16 % 64 == x % 4 * 16 + y / 16
  {
    assert (x * 256 + y) / 16 == x * 16 + y / 16 == x / 4 * 64 + (x % 4 * 16 + y / 16);
  }

  lemma LowSix(x: byte, y: byte)
    ensures (x * 256 + y) / 64 % 64 == x % 16 * 4 + y / 64
  {
    assert (x * 256 + y) / 64 == x * 4 + y / 64 == x / 16 * 64 + (x % 16 * 4 + y / 64);
  }

  lemma Form(b: Bytes, i: nat, k: nat, skipped: nat)
    requires i * 6 / 8 == k && i * 6 % 8 == skipped
    ensures SixBits(b, i) == (At(b, k) * 256 + At(b, k + 1)) / Pow2(10 - skipped) % 64
  {
    hide At, Pow2;
  }

  lemma Forms(b: Bytes)
    ensures SixBits(b, 0) == (At(b, 0) * 256 + At(b, 1)) / 1024 % 64 && SixBits(b, 1) == (At(b, 0) * 256 + At(b, 1)) / 16 % 64
    ensures SixBits(b, 2) == (At(b, 1) * 256 + At(b, 2)) / 64 % 64 && SixBits(b, 3) == (At(b, 2) * 256 + At(b, 3)) / 256 % 64
  {
    hide At, SixBits;
    Powers();
    hide Pow2;
    Form(b, 0, 0, 0);
    Form(b, 1, 0, 6);
    Form(b, 2, 1, 4);
    Form(b, 3, 2, 2);
  }

  lemma FirstFour(b: Bytes)
    ensures var (x, y, z) := (At(b, 0), At(b, 1), At(b, 2));
            && SixBits(b, 0) == x / 4 && SixBits(b, 1) == x % 4 * 16 + y / 16
            && SixBits(b, 2) == y % 16 * 4 + z / 64 && SixBits(b, 3) == z % 64
  {
    hide At, SixBits;
    Forms(b);
    HighSix(At(b, 0), At(b, 1));
    MiddleSix(At(b, 0), At(b, 1));
    LowSix(At(b, 1), At(b, 2));
    HighSix(At(b, 2), At(b, 3));
  }

  lemma Powers()
    ensures Pow2(10) == 1024 && Pow2(8) == 256 && Pow2(6) == 64 && Pow2(4) == 16
  {
    assert Pow2(8) == 2 * Pow2(7) && Pow2(6) == 2 * Pow2(5) && Pow2(4) == 2 * Pow2(3);
  }

  /** The four symbols of a group of three bytes, some of which may be padding. */
  lemma QuadIs(a: Alphabet, b: Bytes)
    requires b != []
    ensures var q := EncodeQuad(a, At(b, 0), At(b, 1), At(b, 2));
            forall i: nat | i < 4 :: q[i] == Table(a)[SixBits(b, i)]
  {
    hide At, SixBits, Table, Symbol;
    FirstFour(b);
    SymbolIsTabled(a, SixBits(b, 0));
    SymbolIsTabled(a, SixBits(b, 1));
    SymbolIsTabled(a, SixBits(b, 2));
    SymbolIsTabled(a, SixBits(b, 3));
  }

  lemma TailIs(a: Alphabet, pad: bool, b: Bytes)
    requires 1 <= |b| <= 2
    ensures var (s, n) := (Encode(a, pad, b), |b| + 1);
            && |s| == (if pad then 4 else n)
            && (forall i: nat | i < n :: s[i] == EncodeQuad(a, At(b, 0), At(b, 1), At(b, 2))[i])
            && (forall i: nat | n <= i < |s| :: s[i] == '=')
  {
    hide EncodeQuad;
  }

  /** Every symbol of an encoding, at its place, and the padding behind them. */
  lemma {:induction false} EncodingIs(a: Alphabet, pad: bool, b: Bytes)
    ensures var (s, n) := (Encode(a, pad, b), (|b| * 8 + 5) / 6);
            && |s| == (if pad then (|b| + 2) / 3 * 4 else n)
            && (forall i: nat | i < n :: i < |s| && s[i] == Table(a)[SixBits(b, i)])
            && (forall i: nat | n <= i < |s| :: s[i] == '=')
    decreases |b|
  {
    hide At, SixBits, Table, EncodeQuad, EncodeTail;
    if 0 < |b| < 3 {
      TailIs(a, pad, b);
      QuadIs(a, b);
    } else if b != [] {
      QuadIs(a, b);
      IsQuadOf(b);
      var (q, rest) := (EncodeQuad(a, b[0], b[1], b[2]), Encode(a, pad, b[3..]));
      EncodingIs(a, pad, b[3..]);
      var n := (|b| * 8 + 5) / 6;
      assert (|b[3..]| * 8 + 5) / 6 == n - 4 && (|b[3..]| + 2) / 3 == (|b| + 2) / 3 - 1;
      forall i: nat | i < n
        ensures (q + rest)[i] == Table(a)[SixBits(b, i)]
      {
        if i >= 4 {
          Later(b, i);
          assert (q + rest)[i] == rest[i - 4];
        }
      }
    }
  }

  lemma IsQuadOf(b: Bytes)
    requires |b| >= 3
    ensures At(b, 0) == b[0] && At(b, 1) == b[1] && At(b, 2) == b[2]
  {
  }

  /** The test vectors of section 10. */
  lemma TestVectors()
    ensures Encode(Standard, true, []) == "" && Encode(Standard, true, [102]) == "Zg=="
    ensures Encode(Standard, true, [102, 111]) == "Zm8=" && Encode(Standard, true, [102, 111, 111]) == "Zm9v"
    ensures Encode(Standard, true, [102, 111, 111, 98]) == "Zm9vYg=="
    ensures Encode(Standard, true, [102, 111, 111, 98, 97, 114]) == "Zm9vYmFy"
  {
  }
}
