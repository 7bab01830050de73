/** UTF-8 as the wire uses it: `str::as_bytes` and `String::from_utf8`. */
module Utf8 {
  import opened Prelude

  function EncodeChar(c: char): (b: Bytes)
    ensures 1 <= |b| <= 4
    ensures 0 in b <==> c == '\0'
  {
    var n := c as int;
    if n < 0x80 then [n]
    else if n < 0x800 then [0xC0 + n / 64, 0x80 + n % 64]
    else if n < 0x1_0000 then [0xE0 + n / 64 / 64, 0x80 + n / 64 % 64, 0x80 + n % 64]
    else [0xF0 + n / 64 / 64 / 64, 0x80 + n / 64 / 64 % 64, 0x80 + n / 64 % 64, 0x80 + n % 64]
  }

  /** `str::as_bytes`. */
  function Encode(s: string): Bytes {
    if s == "" then [] else EncodeChar(s[0]) + Encode(s[1..])
  }

  predicate Continues(b: byte) {
    0x80 <= b < 0xC0
  }

  /** `n` followed by the six payload bits of a continuation byte. */
  function Append6(n: int, continuation: int): int {
    n * 64 + (continuation - 0x80)
  }

  predicate IsScalar(n: int) {
    0 <= n < 0xD800 || 0xE000 <= n < 0x11_0000
  }

  /** The code point at the start of `b` and the number of bytes it takes; overlong forms and surrogates are refused. */
  function DecodeChar(b: Bytes): (r: Option<(char, nat)>)
    requires b != []
    ensures r.Some? ==> 1 <= r.value.1 <= |b|
  {
    if b[0] < 0x80 then Some((b[0] as char, 1))
    else if 0xC0 <= b[0] < 0xE0 && |b| >= 2 && Continues(b[1]) then
      var n := Append6(b[0] - 0xC0, b[1]);
      if 0x80 <= n then Some((n as char, 2)) else None
    else if 0xE0 <= b[0] < 0xF0 && |b| >= 3 && Continues(b[1]) && Continues(b[2]) then
      var n := Append6(Append6(b[0] - 0xE0, b[1]), b[2]);
      if 0x800 <= n && IsScalar(n) then Some((n as char, 3)) else None
    else if 0xF0 <= b[0] < 0xF8 && |b| >= 4 && Continues(b[1]) && Continues(b[2]) && Continues(b[3]) then
      var n := Append6(Append6(Append6(b[0] - 0xF0, b[1]), b[2]), b[3]);
      if 0x1_0000 <= n && IsScalar(n) then Some((n as char, 4)) else None
    else None
  }

  /** `String::from_utf8`: `None` on a malformed sequence. */
  function Decode(b: Bytes): Option<string> {
    if b == [] then Some("")
    else
      var first := DecodeChar(b);
      if first.None? then None
      else
        var rest := Decode(b[first.value.1..]);
        if rest.None? then None else Some([first.value.0] + rest.value)
  }

  lemma DecodeEncodedChar(c: char, rest: Bytes)
    ensures DecodeChar(EncodeChar(c) + rest) == Some((c, |EncodeChar(c)|))
  {
    var n := c as int;
    var b := EncodeChar(c) + rest;
    if 0x80 <= n < 0x800 {
      assert b[0] == 0xC0 + n / 64 && b[1] == 0x80 + n % 64;
    } else if 0x800 <= n < 0x1_0000 {
      assert b[0] == 0xE0 + n / 64 / 64 && b[1] == 0x80 + n / 64 % 64 && b[2] == 0x80 + n % 64;
      assert Append6(b[0] - 0xE0, b[1]) == n / 64;
    } else if 0x1_0000 <= n {
      assert b[0] == 0xF0 + n / 64 / 64 / 64 && b[1] == 0x80 + n / 64 / 64 % 64;
      assert b[2] == 0x80 + n / 64 % 64 && b[3] == 0x80 + n % 64;
      assert Append6(b[0] - 0xF0, b[1]) == n / 64 / 64;
    }
  }

  lemma EncodeDecodedChar(b: Bytes)
    requires b != [] && DecodeChar(b).Some?
    ensures b[..DecodeChar(b).value.1] == EncodeChar(DecodeChar(b).value.0)
  {
    var (c, k) := DecodeChar(b).value;
    var n := c as int;
    if k == 2 {
      assert n / 64 == b[0] - 0xC0;
    } else if k == 3 {
      assert n / 64 == Append6(b[0] - 0xE0, b[1]);
      assert n / 64 / 64 == b[0] - 0xE0;
    } else if k == 4 {
      assert n / 64 == Append6(Append6(b[0] - 0xF0, b[1]), b[2]);
      assert n / 64 / 64 == Append6(b[0] - 0xF0, b[1]);
    }
  }

  /** The table of section 3 of RFC 3629: the shortest form, its lead byte, its continuation bytes, its payload. */
  lemma EncodedForm(c: char)
    ensures var (n, b) := (c as int, EncodeChar(c));
            && (|b| == 1 <==> n < 0x80) && (|b| == 2 <==> 0x80 <= n < 0x800)
            && (|b| == 3 <==> 0x800 <= n < 0x1_0000) && (|b| == 4 <==> 0x1_0000 <= n)
            && (forall i | 1 <= i < |b| :: 0x80 <= b[i] <= 0xBF)
            && (|b| == 1 ==> b[0] == n)
            && (|b| == 2 ==> 0xC2 <= b[0] <= 0xDF && n == (b[0] as int - 0xC0) * 64 + (b[1] as int - 0x80))
            && (|b| == 3 ==>
                  0xE0 <= b[0] <= 0xEF && n == (b[0] as int - 0xE0) * 4096 + (b[1] as int - 0x80) * 64 + (b[2] as int - 0x80))
            && (|b| == 4 ==>
                  0xF0 <= b[0] <= 0xF4
                  && n == (b[0] as int - 0xF0) * 262144 + (b[1] as int - 0x80) * 4096 + (b[2] as int - 0x80) * 64 + (b[3] as int - 0x80))
  {
    var n := c as int;
    assert n == n / 64 * 64 + n % 64;
    assert n / 64 == n / 64 / 64 * 64 + n / 64 % 64;
    assert n / 64 / 64 == n / 64 / 64 / 64 * 64 + n / 64 / 64 % 64;
  }

  /** ASCII text is its own encoding, a byte for a character. */
  lemma {:induction false} AsciiIsItself(s: string)
    requires forall i | 0 <= i < |s| :: s[i] as int < 0x80
    ensures |Encode(s)| == |s| && forall i | 0 <= i < |s| :: Encode(s)[i] == s[i] as int
  {
    if s != "" {
      AsciiIsItself(s[1..]);
      assert EncodeChar(s[0]) == [s[0] as int];
      assert forall i | 1 <= i < |s| :: Encode(s)[i] == Encode(s[1..])[i - 1];
    }
  }

  lemma {:induction false} EncodeThenDecode(s: string)
    ensures Decode(Encode(s)) == Some(s)
  {
    if s != "" {
      DecodeEncodedChar(s[0], Encode(s[1..]));
      assert Encode(s) == EncodeChar(s[0]) + Encode(s[1..]);
      assert Encode(s)[|EncodeChar(s[0])|..] == Encode(s[1..]);
      assert s == [s[0]] + s[1..];
      EncodeThenDecode(s[1..]);
    }
  }

  lemma {:induction false} DecodeThenEncode(b: Bytes)
    requires Decode(b).Some?
    ensures Encode(Decode(b).value) == b
  {
    if b != [] {
      var k := DecodeChar(b).value.1;
      EncodeDecodedChar(b);
      DecodeThenEncode(b[k..]);
      assert b == b[..k] + b[k..];
    }
  }

  lemma {:induction false} EncodeConcat(a: string, b: string)
    ensures Encode(a + b) == Encode(a) + Encode(b)
  {
    if a == "" {
      assert a + b == b;
    } else {
      assert (a + b)[1..] == a[1..] + b;
      EncodeConcat(a[1..], b);
    }
  }

  lemma {:induction false} EncodeNul(s: string)
    ensures 0 in Encode(s) <==> '\0' in s
  {
    if s != "" {
      EncodeNul(s[1..]);
    }
  }
}
