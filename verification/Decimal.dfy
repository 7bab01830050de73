/** Decimal `u32` as `format!` prints it and `str::parse` reads it. */
module Decimal {
  import opened Prelude

  predicate IsDigit(c: char) {
    '0' <= c <= '9'
  }

  function Print(n: nat): (s: string)
    ensures s != "" && forall c <- s :: IsDigit(c)
  {
    var digit := ('0' as int + n % 10) as char;
    if n < 10 then [digit] else Print(n / 10) + [digit]
  }

  function Value(digits: string): nat
    requires forall c <- digits :: IsDigit(c)
  {
    if digits == "" then 0
    else
      assert IsDigit(digits[|digits| - 1]);
      Value(digits[..|digits| - 1]) * 10 + (digits[|digits| - 1] as int - '0' as int)
  }

  /** `u32::from_str`: one leading `+` is allowed, and the value must fit. */
  function Parse(s: string): Option<u32> {
    var digits := if |s| > 1 && s[0] == '+' then s[1..] else s;
    if digits == "" || !(forall c <- digits :: IsDigit(c)) then None
    else
      var n := Value(digits);
      if n < U32_LIMIT then Some(n) else None
  }

  lemma {:induction false} ValueOfPrint(n: nat)
    ensures Value(Print(n)) == n
  {
    if n >= 10 {
      assert Print(n)[..|Print(n)| - 1] == Print(n / 10);
      ValueOfPrint(n / 10);
    }
  }

  lemma PrintThenParse(n: u32)
    ensures Parse(Print(n)) == Some(n)
  {
    ValueOfPrint(n);
    assert IsDigit(Print(n)[0]);
  }

  /** Appending a digit to a number multiplies it by ten and adds the digit; there are no leading zeros. */
  lemma DigitAppended(n: nat, digit: nat)
    requires digit < 10
    ensures Print(digit) == ["0123456789"[digit]]
    ensures n > 0 ==> Print(n * 10 + digit) == Print(n) + ["0123456789"[digit]]
  {
    var m := n * 10 + digit;
    assert m / 10 == n && m % 10 == digit;
  }

  predicate AllDigits(s: string) {
    forall c <- s :: '0' <= c <= '9'
  }

  lemma DigitsParse(digits: string)
    requires digits != "" && AllDigits(digits)
    ensures Parse(digits) == if Value(digits) < 0x1_0000_0000 then Some(Value(digits)) else None
  {
    assert digits[0] in digits;
    hide Value;
  }

  lemma SignedParse(digits: string)
    requires digits != "" && AllDigits(digits)
    ensures Parse("+" + digits) == if Value(digits) < 0x1_0000_0000 then Some(Value(digits)) else None
  {
    assert ("+" + digits)[1..] == digits;
    hide Value;
  }

  lemma ZeroIsDigit(digits: string)
    requires AllDigits(digits)
    ensures AllDigits("0" + digits)
  {
    assert forall c <- "0" + digits :: c == '0' || c in digits;
  }

  /** What is accepted: digits, with or without one sign, leading zeros or not, whose value fits. */
  lemma ParseMeans(digits: string)
    requires digits != "" && AllDigits(digits)
    ensures Parse(digits) == Parse("+" + digits) == if Value(digits) < 0x1_0000_0000 then Some(Value(digits)) else None
    ensures Parse("0" + digits) == Parse(digits)
  {
    hide Parse, Value;
    DigitsParse(digits);
    SignedParse(digits);
    ZeroIsDigit(digits);
    ZeroFirst(digits);
    DigitsParse("0" + digits);
  }

  lemma {:induction false} ZeroFirst(digits: string)
    requires forall c <- digits :: IsDigit(c)
    ensures (forall c <- "0" + digits :: IsDigit(c)) && Value("0" + digits) == Value(digits)
  {
    if digits != "" {
      var (before, last) := (digits[..|digits| - 1], digits[|digits| - 1]);
      ZeroFirst(before);
      assert ("0" + digits)[..|digits|] == "0" + before && ("0" + digits)[|digits|] == last;
      assert forall c <- "0" + digits :: c == '0' || c in digits;
    } else {
      assert "0" + digits == "0" && "0"[..0] == "";
    }
  }

  /** Nothing else is: no other character, nothing empty, no lone or second sign. */
  lemma ParseRefuses(s: string)
    requires s == "" || s == "+" || exists i :: 0 <= i < |s| && !('0' <= s[i] <= '9') && !(i == 0 && s[i] == '+')
    ensures Parse(s) == None
  {
    var digits := if |s| > 1 && s[0] == '+' then s[1..] else s;
    if s != "" && s != "+" {
      var i :| 0 <= i < |s| && !('0' <= s[i] <= '9') && !(i == 0 && s[i] == '+');
      var k := if |s| > 1 && s[0] == '+' then i - 1 else i;
      assert digits[k] == s[i] && !IsDigit(digits[k]) && digits[k] in digits;
    } else if s == "+" {
      assert digits[0] in digits && !IsDigit(digits[0]);
    }
  }
}
