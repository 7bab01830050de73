/** The placeholder check of an `auth_query` query. */
module Placeholders {
  import opened Prelude
  import Decimal
  import Utf8

  const DOLLAR: byte := '$' as int

  predicate IsDigit(b: byte) {
    '0' as int <= b <= '9' as int
  }

  predicate AllDigits(b: Bytes) {
    forall d <- b :: IsDigit(d)
  }

  /** Digits as the text they are. */
  function AsText(digits: Bytes): (s: string)
    requires AllDigits(digits)
    ensures |s| == |digits| && forall i | 0 <= i < |s| :: s[i] == digits[i] as char
    ensures forall c <- s :: Decimal.IsDigit(c)
  {
    assert forall i | 0 <= i < |digits| :: IsDigit(digits[i]);
    seq(|digits|, i requires 0 <= i < |digits| => digits[i] as char)
  }

  function Value(digits: Bytes): nat
    requires AllDigits(digits)
  {
    Decimal.Value(AsText(digits))
  }

  /** The longest run of digits from position `i` on. */
  function RunFrom(query: Bytes, i: nat): (run: Bytes)
    requires i <= |query|
    ensures AllDigits(run) && |run| <= |query| - i
    decreases |query| - i
  {
    if i < |query| && IsDigit(query[i]) then [query[i]] + RunFrom(query, i + 1) else []
  }

  /** A `$` with a number after it. */
  predicate Numbered(query: Bytes, i: nat) {
    i < |query| && query[i] == DOLLAR && RunFrom(query, i + 1) != []
  }

  /** A `$` with a number after it that fits in 32 bits. */
  predicate Placeholder(query: Bytes, i: nat) {
    Numbered(query, i) && Value(RunFrom(query, i + 1)) < U32_LIMIT
  }

  /** The numbers of the placeholders from position `i` on, position by position. */
  function Numbers(query: Bytes, i: nat): seq<u32>
    requires i <= |query|
    decreases |query| - i
  {
    if i == |query| then []
    else (if Placeholder(query, i) then [Value(RunFrom(query, i + 1))] else []) + Numbers(query, i + 1)
  }

  datatype QueryError = NotExactlyOne | NotTheFirst {
    function Message(): string {
      if NotExactlyOne? then "query must contain exactly one placeholder"
      else "the placeholder must be $1 (the requested user name)"
    }
  }

  lemma {:induction false} NothingBetween(query: Bytes, i: nat, end: nat)
    requires i <= end <= |query| && forall j | i <= j < end :: query[j] != DOLLAR
    ensures Numbers(query, i) == Numbers(query, end)
    decreases end - i
  {
    if i < end {
      NothingBetween(query, i + 1, end);
    }
  }

  lemma {:induction false} RunIs(query: Bytes, start: nat, end: nat)
    requires start <= end <= |query|
    requires forall j | start <= j < end :: IsDigit(query[j])
    requires end < |query| ==> !IsDigit(query[end])
    ensures RunFrom(query, start) == query[start..end]
    decreases end - start
  {
    if start < end {
      RunIs(query, start + 1, end);
    }
  }

  /** A `$` and the digits after it contribute their number, when there is one and it fits. */
  lemma DollarRun(query: Bytes, i: nat, end: nat)
    requires i < end <= |query| && query[i] == DOLLAR
    requires forall j | i < j < end :: IsDigit(query[j])
    requires end < |query| ==> !IsDigit(query[end])
    ensures AllDigits(query[i + 1..end])
    ensures Numbers(query, i)
         == (if end > i + 1 && Value(query[i + 1..end]) < U32_LIMIT then [Value(query[i + 1..end])] else []) + Numbers(query, end)
  {
    hide Value, RunFrom, Numbers;
    RunIs(query, i + 1, end);
    NothingBetween(query, i + 1, end);
    NumbersFrom(query, i);
  }

  lemma NumbersFrom(query: Bytes, i: nat)
    requires i < |query|
    ensures Numbers(query, i) == (if Placeholder(query, i) then [Value(RunFrom(query, i + 1))] else []) + Numbers(query, i + 1)
  {
  }

  method Validate(query: string) returns (r: Result<(), QueryError>)
    ensures var numbers := Numbers(Utf8.Encode(query), 0);
            && (r.Ok? <==> numbers == [1])
            && (r == Err(NotExactlyOne) <==> |numbers| != 1)
            && (r == Err(NotTheFirst) <==> |numbers| == 1 && numbers[0] != 1)
  {
    hide Utf8.Encode, Value, Numbers, AllDigits;
    var bytes := Utf8.Encode(query);
    var placeholders := Scan(bytes);
    if |placeholders| != 1 {
      return Err(NotExactlyOne);
    }
    if placeholders[0] != 1 {
      return Err(NotTheFirst);
    }
    r := Ok(());
  }

  method Scan(bytes: Bytes) returns (placeholders: seq<u32>)
    ensures placeholders == Numbers(bytes, 0)
  {
    hide Value, AllDigits, Numbers;
    placeholders := [];
    var i := 0;
    while i < |bytes|
      invariant i <= |bytes|
      invariant Numbers(bytes, 0) == placeholders + Numbers(bytes, i)
    {
      if bytes[i] != DOLLAR {
        NothingBetween(bytes, i, i + 1);
        i := i + 1;
        continue;
      }
      var start := i + 1;
      var end := start;
      while end < |bytes| && IsDigit(bytes[end])
        invariant start <= end <= |bytes|
        invariant forall j | start <= j < end :: IsDigit(bytes[j])
      {
        end := end + 1;
      }
      DollarRun(bytes, i, end);
      if end > start {
        var number := Value(bytes[start..end]);
        if number < U32_LIMIT {
          placeholders := placeholders + [number];
        }
        i := end;
      } else {
        i := i + 1;
      }
    }
    NoneLeft(bytes, |bytes|);
  }

  lemma {:induction false} NoneLeft(query: Bytes, i: nat)
    requires i <= |query|
    ensures Numbers(query, i) == [] <==> forall j | i <= j < |query| :: !Placeholder(query, j)
    decreases |query| - i
  {
    hide Placeholder, Value;
    if i < |query| {
      NoneLeft(query, i + 1);
    }
  }

  /** `p` is the only position from `i` on where `P` holds. */
  predicate Only(query: Bytes, i: nat, p: nat) {
    && i <= p < |query|
    && Placeholder(query, p)
    && forall j | i <= j < |query| && Placeholder(query, j) :: j == p
  }

  lemma OneHere(query: Bytes, i: nat, n: u32)
    requires i < |query| && Placeholder(query, i)
    ensures Numbers(query, i) == [n] <==> exists p: nat :: Only(query, i, p) && Value(RunFrom(query, p + 1)) == n
  {
    hide Placeholder, Value, Numbers;
    NumbersFrom(query, i);
    NoneLeft(query, i + 1);
    var (rest, value) := (Numbers(query, i + 1), Value(RunFrom(query, i + 1)));
    assert Numbers(query, i)[0] == value;
    assert Numbers(query, i) == [n] <==> rest == [] && value == n;
    assert Only(query, i, i) <==> rest == [];
    assert forall p: nat :: Only(query, i, p) ==> p == i;
  }

  lemma NoneHere(query: Bytes, i: nat)
    requires i < |query| && !Placeholder(query, i)
    ensures Numbers(query, i) == Numbers(query, i + 1) && forall p: nat :: Only(query, i, p) <==> Only(query, i + 1, p)
  {
    hide Placeholder, Value, Numbers;
    NumbersFrom(query, i);
    forall p: nat
      ensures Only(query, i, p) <==> Only(query, i + 1, p)
    {
    }
  }

  /** The list from a position on is `[n]` exactly when there is one placeholder left, numbered `n`. */
  lemma {:induction false} OneLeft(query: Bytes, i: nat, n: u32)
    requires i <= |query|
    ensures Numbers(query, i) == [n] <==> exists p: nat :: Only(query, i, p) && Value(RunFrom(query, p + 1)) == n
    decreases |query| - i
  {
    hide Placeholder, Value;
    if i < |query| {
      OneLeft(query, i + 1, n);
      if Placeholder(query, i) {
        OneHere(query, i, n);
      } else {
        NoneHere(query, i);
        hide Numbers;
        if Numbers(query, i) == [n] {
          var p: nat :| Only(query, i + 1, p) && Value(RunFrom(query, p + 1)) == n;
          assert Only(query, i, p);
        }
        if p: nat :| Only(query, i, p) && Value(RunFrom(query, p + 1)) == n {
          assert Only(query, i + 1, p);
        }
      }
    }
  }

  /** What the documentation promises: of all `$N` in the query, however large, there is one, and it is `$1`. */
  ghost predicate BindsOnlyTheUser(query: Bytes) {
    exists p: nat :: Numbered(query, p) && Value(RunFrom(query, p + 1)) == 1 && forall j | Numbered(query, j) :: j == p
  }

  /** No number of the query is too large to parse. */
  ghost predicate AllFit(query: Bytes) {
    forall j | Numbered(query, j) :: Placeholder(query, j)
  }

  /** An accepted query keeps the documented promise exactly when every number in it parses. */
  lemma PromiseKeptIffAllFit(query: Bytes)
    ensures Numbers(query, 0) == [1] ==> (BindsOnlyTheUser(query) <==> AllFit(query))
    ensures BindsOnlyTheUser(query) ==> Numbers(query, 0) == [1] && AllFit(query)
  {
    OneLeft(query, 0, 1);
    hide Value, Numbers;
    if BindsOnlyTheUser(query) {
      var p: nat :| Numbered(query, p) && Value(RunFrom(query, p + 1)) == 1 && forall j | Numbered(query, j) :: j == p;
      assert Only(query, 0, p);
    }
    if Numbers(query, 0) == [1] && AllFit(query) {
      var p: nat :| Only(query, 0, p) && Value(RunFrom(query, p + 1)) == 1;
      assert Numbered(query, p);
    }
  }

  /** `$1$4294967296` is accepted although it names two parameters. */
  lemma OverlooksALargeNumber()
    ensures var query := [DOLLAR, 49, DOLLAR, 52, 50, 57, 52, 57, 54, 55, 50, 57, 54];
            Numbers(query, 0) == [1] && !BindsOnlyTheUser(query)
  {
    hide Value, Numbers;
    var query: Bytes := [DOLLAR, 49, DOLLAR, 52, 50, 57, 52, 57, 54, 55, 50, 57, 54];
    ValueOfNothing();
    ValueOfOneMore([], 49);
    assert query[1..2] == [] + [49];
    LargeValue(query[3..13]);
    DollarRun(query, 0, 2);
    DollarRun(query, 2, 13);
    NoneLeft(query, 13);
    RunIs(query, 1, 2);
    RunIs(query, 3, 13);
    assert Numbered(query, 0) && Numbered(query, 2);
  }

  lemma ValueOfOneMore(digits: Bytes, d: byte)
    requires AllDigits(digits) && IsDigit(d)
    ensures AllDigits(digits + [d]) && Value(digits + [d]) == Value(digits) * 10 + (d - '0' as int)
  {
    var longer := AsText(digits + [d]);
    assert longer[..|digits|] == AsText(digits) && longer[|digits|] == d as char;
  }

  lemma LargeValue(digits: Bytes)
    requires digits == [52, 50, 57, 52, 57, 54, 55, 50, 57, 54]
    ensures Value(digits) == U32_LIMIT
  {
    hide Value;
    ValueOfNothing();
    for i := 0 to 10
      invariant AllDigits(digits[..i])
      invariant Value(digits[..i]) == [0, 4, 42, 429, 4294, 42949, 429496, 4294967, 42949672, 429496729, 4294967296][i]
    {
      ValueOfOneMore(digits[..i], digits[i]);
      assert digits[..i] + [digits[i]] == digits[..i + 1];
    }
    assert digits[..10] == digits;
  }

  lemma ValueOfNothing()
    ensures Value([]) == 0
  {
  }

  /** The ten digits and no other byte. */
  lemma DigitsAre(b: byte)
    ensures IsDigit(b) <==> b in [48, 49, 50, 51, 52, 53, 54, 55, 56, 57]
    ensures IsDigit(b) ==> Value([b]) == b - 48
    ensures DOLLAR == 36
  {
    if IsDigit(b) {
      ValueOfNothing();
      ValueOfOneMore([], b);
      assert [] + [b] == [b];
    }
  }

  /** A placeholder of two digits is one placeholder, and not the first parameter. */
  lemma TwoDigits()
    ensures Numbers([36, 49, 48], 0) == [10]
  {
    var query: Bytes := [36, 49, 48];
    var run := query[1..3];
    assert run == [49, 48];
    ValueOfNothing();
    ValueOfOneMore([], 49);
    ValueOfOneMore([49], 48);
    assert [] + [49] == [49] && [49] + [48] == run;
    hide Value, Numbers;
    RunIs(query, 1, 3);
    DollarRun(query, 0, 3);
    NoneLeft(query, 3);
  }
}
