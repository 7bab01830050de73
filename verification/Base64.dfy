/** Base64 (sections 4 and 5 of RFC 4648) with the strictness of the engines the proxy uses. */
module Base64 {
  import opened Prelude

  datatype Alphabet = Standard | UrlSafe

  /** Letters, digits, `+ / - _` and the padding sign: no separator of any format that embeds base64. */
  predicate IsSymbol(c: char) {
    'A' <= c <= 'Z' || 'a' <= c <= 'z' || '0' <= c <= '9' || c in "+/-_="
  }

  function Symbol(a: Alphabet, i: int): (c: char)
    requires 0 <= i < 64
    ensures IsSymbol(c) && c != '='
  {
    if i < 26 then ('A' as int + i) as char
    else if i < 52 then ('a' as int + i - 26) as char
    else if i < 62 then ('0' as int + i - 52) as char
    else if i == 62 then (if a.Standard? then '+' else '-')
    else (if a.Standard? then '/' else '_')
  }

  /** The value of a symbol of the standard alphabet, found by searching up from `from`; -1 for any other character. */
  function Sextet(c: char, from: int := 0): (i: int)
    requires 0 <= from <= 64
    ensures i == -1 || from <= i < 64
    ensures 0 <= i ==> Symbol(Standard, i) == c
    ensures i == -1 ==> forall j | from <= j < 64 :: Symbol(Standard, j) != c
    decreases 64 - from
  {
    if from == 64 then -1 else if Symbol(Standard, from) == c then from else Sextet(c, from + 1)
  }

  lemma SextetOfSymbol(i: int)
    requires 0 <= i < 64
    ensures Sextet(Symbol(Standard, i)) == i
  {
    var j := Sextet(Symbol(Standard, i));
    assert Symbol(Standard, j) == Symbol(Standard, i);
  }

  function EncodeQuad(a: Alphabet, x: int, y: int, z: int): (s: string)
    requires 0 <= x < 256 && 0 <= y < 256 && 0 <= z < 256
    ensures |s| == 4
  {
    [Symbol(a, x / 4), Symbol(a, x % 4 * 16 + y / 16), Symbol(a, y % 16 * 4 + z / 64), Symbol(a, z % 64)]
  }

  /** The unpadded encoding of a last group of one or two bytes. */
  function EncodeTail(a: Alphabet, b: Bytes): (s: string)
    requires 1 <= |b| <= 2
    ensures |s| == |b| + 1
  {
    if |b| == 1 then EncodeQuad(a, b[0], 0, 0)[..2] else EncodeQuad(a, b[0], b[1], 0)[..3]
  }

  function Encode(a: Alphabet, pad: bool, b: Bytes): string {
    if b == [] then ""
    else if |b| < 3 then
      EncodeTail(a, b) + (if !pad then "" else if |b| == 1 then "==" else "=")
    else EncodeQuad(a, b[0], b[1], b[2]) + Encode(a, pad, b[3..])
  }

  /** The bytes of a last group of two or three symbols; non-zero trailing bits are refused. */
  function DecodeTail(t: string): Option<Bytes> {
    if |t| == 2 && 0 <= Sextet(t[0]) && 0 <= Sextet(t[1]) && Sextet(t[1]) % 16 == 0 then
      Some([Sextet(t[0]) * 4 + Sextet(t[1]) / 16])
    else if |t| == 3 && 0 <= Sextet(t[0]) && 0 <= Sextet(t[1]) && 0 <= Sextet(t[2]) && Sextet(t[2]) % 4 == 0 then
      Some([Sextet(t[0]) * 4 + Sextet(t[1]) / 16, Sextet(t[1]) % 16 * 16 + Sextet(t[2]) / 4])
    else None
  }

  predicate IsQuad(s: string) {
    |s| == 4 && 0 <= Sextet(s[0]) && 0 <= Sextet(s[1]) && 0 <= Sextet(s[2]) && 0 <= Sextet(s[3])
  }

  function DecodeQuad(s: string): (b: Bytes)
    requires IsQuad(s)
    ensures |b| == 3
  {
    var (w, x, y, z) := (Sextet(s[0]), Sextet(s[1]), Sextet(s[2]), Sextet(s[3]));
    [w * 4 + x / 16, x % 16 * 16 + y / 4, y % 4 * 64 + z]
  }

  /**
   * The bytes `s` stands for in the standard alphabet. `pad` says whether the last group must be padded;
   * misplaced or missing padding, foreign symbols and non-zero trailing bits are all refused.
   */
  function Decode(pad: bool, s: string): Option<Bytes> {
    if s == "" then Some([])
    else if !pad && |s| < 4 then DecodeTail(s)
    else if pad && |s| == 4 && s[3] == '=' then DecodeTail(if s[2] == '=' then s[..2] else s[..3])
    else if |s| >= 4 && IsQuad(s[..4]) then
      match Decode(pad, s[4..])
      case None => None
      case Some(rest) => Some(DecodeQuad(s[..4]) + rest)
    else None
  }

  /** `STANDARD.encode`. */
  function Standard64(b: Bytes): string {
    Encode(Standard, true, b)
  }

  /** Three bytes and the four sextets they regroup into carry the same bits. */
  lemma Regroup(w: int, x: int, y: int, z: int)
    requires 0 <= w < 64 && 0 <= x < 64 && 0 <= y < 64 && 0 <= z < 64
    ensures var (b0, b1, b2) := (w * 4 + x / 16, x % 16 * 16 + y / 4, y % 4 * 64 + z);
            b0 / 4 == w && b0 % 4 * 16 + b1 / 16 == x && b1 % 16 * 4 + b2 / 64 == y && b2 % 64 == z
  {
  }

  lemma Ungroup(x: int, y: int, z: int)
    requires 0 <= x < 256 && 0 <= y < 256 && 0 <= z < 256
    ensures var (s0, s1, s2, s3) := (x / 4, x % 4 * 16 + y / 16, y % 16 * 4 + z / 64, z % 64);
            s0 * 4 + s1 / 16 == x && s1 % 16 * 16 + s2 / 4 == y && s2 % 4 * 64 + s3 == z
  {
  }

  lemma QuadSextets(x: int, y: int, z: int)
    requires 0 <= x < 256 && 0 <= y < 256 && 0 <= z < 256
    ensures var s := EncodeQuad(Standard, x, y, z);
            && Sextet(s[0]) == x / 4 && Sextet(s[1]) == x % 4 * 16 + y / 16
            && Sextet(s[2]) == y % 16 * 4 + z / 64 && Sextet(s[3]) == z % 64
            && s[2] != '=' && s[3] != '='
  {
    SextetOfSymbol(x / 4);
    SextetOfSymbol(x % 4 * 16 + y / 16);
    SextetOfSymbol(y % 16 * 4 + z / 64);
    SextetOfSymbol(z % 64);
  }

  lemma OneByteTail(x: byte)
    ensures DecodeTail(EncodeTail(Standard, [x])) == Some([x])
  {
    hide Symbol, Sextet;
    QuadSextets(x, 0, 0);
    Ungroup(x, 0, 0);
  }

  lemma TwoByteTail(x: byte, y: byte)
    ensures DecodeTail(EncodeTail(Standard, [x, y])) == Some([x, y])
    ensures EncodeTail(Standard, [x, y])[2] != '='
  {
    hide Symbol, Sextet;
    QuadSextets(x, y, 0);
    Ungroup(x, y, 0);
  }

  lemma TailRoundTrip(b: Bytes)
    requires 1 <= |b| <= 2
    ensures DecodeTail(EncodeTail(Standard, b)) == Some(b)
    ensures |b| == 2 ==> EncodeTail(Standard, b)[2] != '='
  {
    hide EncodeTail, DecodeTail;
    if |b| == 1 {
      OneByteTail(b[0]);
      assert b == [b[0]];
    } else {
      TwoByteTail(b[0], b[1]);
      assert b == [b[0], b[1]];
    }
  }

  lemma QuadRoundTrip(x: byte, y: byte, z: byte)
    ensures IsQuad(EncodeQuad(Standard, x, y, z)) && EncodeQuad(Standard, x, y, z)[3] != '='
    ensures DecodeQuad(EncodeQuad(Standard, x, y, z)) == [x, y, z]
  {
    hide Symbol, Sextet;
    QuadSextets(x, y, z);
    Ungroup(x, y, z);
  }

  lemma DecodeCons(pad: bool, q: string, rest: string)
    requires IsQuad(q) && q[3] != '=' && Decode(pad, rest).Some?
    ensures Decode(pad, q + rest) == Some(DecodeQuad(q) + Decode(pad, rest).value)
  {
    var s := q + rest;
    assert s[3] == q[3] && s[..4] == q && s[4..] == rest;
  }

  lemma LastGroup(pad: bool, b: Bytes)
    requires 1 <= |b| <= 2
    ensures Decode(pad, Encode(Standard, pad, b)) == Some(b)
  {
    TailRoundTrip(b);
    hide EncodeTail, DecodeTail, Symbol, Sextet;
    var s := Encode(Standard, pad, b);
    assert s[..|b| + 1] == EncodeTail(Standard, b);
    assert !pad ==> s == EncodeTail(Standard, b);
    assert |b| == 2 ==> s[2] == EncodeTail(Standard, b)[2];
  }

  lemma {:induction false} EncodeThenDecode(pad: bool, b: Bytes)
    ensures Decode(pad, Encode(Standard, pad, b)) == Some(b)
  {
    hide EncodeTail, EncodeQuad, IsQuad, DecodeQuad, Decode;
    if b == [] {
      NothingDecodes(pad);
    } else if |b| < 3 {
      LastGroup(pad, b);
    } else {
      QuadRoundTrip(b[0], b[1], b[2]);
      EncodeThenDecode(pad, b[3..]);
      DecodeCons(pad, EncodeQuad(Standard, b[0], b[1], b[2]), Encode(Standard, pad, b[3..]));
      assert b == [b[0], b[1], b[2]] + b[3..];
    }
  }

  lemma NothingDecodes(pad: bool)
    ensures Decode(pad, "") == Some([])
  {
  }

  lemma SymbolAt(s: string, i: nat, n: int)
    requires i < |s| && 0 <= n < 64 && n == Sextet(s[i])
    ensures Symbol(Standard, n) == s[i]
  {
  }

  lemma DecodedQuad(s: string)
    requires IsQuad(s)
    ensures var b := DecodeQuad(s); EncodeQuad(Standard, b[0], b[1], b[2]) == s
  {
    hide Symbol, Sextet;
    var b := DecodeQuad(s);
    Regroup(Sextet(s[0]), Sextet(s[1]), Sextet(s[2]), Sextet(s[3]));
    SymbolAt(s, 0, b[0] / 4);
    SymbolAt(s, 1, b[0] % 4 * 16 + b[1] / 16);
    SymbolAt(s, 2, b[1] % 16 * 4 + b[2] / 64);
    SymbolAt(s, 3, b[2] % 64);
  }

  lemma DecodedTail(t: string)
    requires DecodeTail(t).Some?
    ensures 1 <= |DecodeTail(t).value| <= 2 && EncodeTail(Standard, DecodeTail(t).value) == t
  {
    hide Symbol, Sextet;
    var b := DecodeTail(t).value;
    Regroup(Sextet(t[0]), Sextet(t[1]), if |t| == 3 then Sextet(t[2]) else 0, 0);
    SymbolAt(t, 0, b[0] / 4);
    if |t| == 2 {
      SymbolAt(t, 1, b[0] % 4 * 16);
    } else {
      SymbolAt(t, 1, b[0] % 4 * 16 + b[1] / 16);
      SymbolAt(t, 2, b[1] % 16 * 4);
    }
  }

  /** Decoding accepts nothing but canonical encodings. */
  lemma {:induction false} DecodeThenEncode(pad: bool, s: string)
    requires Decode(pad, s).Some?
    ensures Encode(Standard, pad, Decode(pad, s).value) == s
  {
    hide EncodeTail, DecodeTail, EncodeQuad, DecodeQuad, Symbol, Sextet;
    if s == "" {
    } else if !pad && |s| < 4 {
      DecodedTail(s);
    } else if pad && |s| == 4 && s[3] == '=' {
      var t := if s[2] == '=' then s[..2] else s[..3];
      DecodedTail(t);
      assert s == t + s[|t|..] && s[|t|..] == if |t| == 2 then "==" else "=";
    } else {
      DecodedQuad(s[..4]);
      DecodeThenEncode(pad, s[4..]);
      var b := Decode(pad, s).value;
      assert b[3..] == Decode(pad, s[4..]).value;
      assert s == s[..4] + s[4..];
    }
  }

  lemma {:induction false} EncodeSymbols(a: Alphabet, pad: bool, b: Bytes)
    ensures forall c <- Encode(a, pad, b) :: IsSymbol(c)
    ensures b != [] ==> Encode(a, pad, b) != ""
  {
    if |b| > 2 {
      EncodeSymbols(a, pad, b[3..]);
    }
    assert IsSymbol('=');
  }

  lemma EncodedSize(pad: bool, b: Bytes)
    ensures |b| >= 3 ==> |Encode(Standard, pad, b)| >= 4 && Encode(Standard, pad, b)[..4] == EncodeQuad(Standard, b[0], b[1], b[2])
    ensures |b| >= 3 ==> Encode(Standard, pad, b)[3] == EncodeQuad(Standard, b[0], b[1], b[2])[3]
    ensures |b| >= 3 ==> Encode(Standard, pad, b)[4..] == Encode(Standard, pad, b[3..])
    ensures 0 < |b| < 3 ==> |Encode(Standard, pad, b)| == if pad then 4 else |b| + 1
    ensures 0 < |b| < 3 && pad ==> Encode(Standard, pad, b)[3] == '='
  {
    hide EncodeQuad;
  }

  /** A padded and an unpadded encoding are the same text only if they are of the same bytes. */
  lemma {:induction false} SameEncoding(a: Bytes, b: Bytes)
    requires Encode(Standard, true, a) == Encode(Standard, false, b)
    ensures a == b
    decreases |a|
  {
    hide EncodeQuad, EncodeTail, DecodeQuad, IsQuad;
    EncodedSize(true, a);
    EncodedSize(false, b);
    if |b| >= 3 {
      QuadRoundTrip(b[0], b[1], b[2]);
    }
    if |a| >= 3 {
      assert |b| >= 3;
      QuadRoundTrip(a[0], a[1], a[2]);
      assert [a[0], a[1], a[2]] == [b[0], b[1], b[2]];
      SameEncoding(a[3..], b[3..]);
      assert a == [a[0], a[1], a[2]] + a[3..] && b == [b[0], b[1], b[2]] + b[3..];
    } else if a != [] {
      assert false;
    }
  }
}
