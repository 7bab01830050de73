/** The string operations of the message parsers: `split`, `split_once`, `rfind` and `strip_prefix`. */
module Text {
  import opened Prelude

  /** `str::split`. */
  function Split(s: string, sep: char): (parts: seq<string>)
    ensures parts != []
  {
    if s == "" then [""]
    else
      var rest := Split(s[1..], sep);
      if s[0] == sep then [""] + rest else [[s[0]] + rest[0]] + rest[1..]
  }

  /** `str::split_once`: cut at the first `sep`. */
  function SplitOnce(s: string, sep: char): (r: Option<(string, string)>)
    ensures r.None? <==> sep !in s
    ensures r.Some? ==> s == r.value.0 + [sep] + r.value.1 && sep !in r.value.0
  {
    if s == "" then None
    else if s[0] == sep then Some(("", s[1..]))
    else
      match SplitOnce(s[1..], sep)
      case None => None
      case Some((a, b)) => Some(([s[0]] + a, b))
  }

  /** `str::strip_prefix`. */
  function StripPrefix(s: string, prefix: string): (r: Option<string>)
    ensures r.Some? <==> prefix <= s
    ensures r.Some? ==> s == prefix + r.value
  {
    if prefix <= s then Some(s[|prefix|..]) else None
  }

  predicate OccursAt(s: string, pattern: string, i: nat) {
    i + |pattern| <= |s| && s[i..i + |pattern|] == pattern
  }

  /** `str::rfind`: the last position of `pattern`, searching down from `from`. */
  function RFind(s: string, pattern: string, from: nat := |s|): (r: Option<nat>)
    requires from <= |s|
    ensures r.Some? ==> r.value <= from && OccursAt(s, pattern, r.value)
    ensures forall i: nat | (if r.Some? then r.value < i else true) && i <= from :: !OccursAt(s, pattern, i)
  {
    if OccursAt(s, pattern, from) then Some(from)
    else if from == 0 then None
    else RFind(s, pattern, from - 1)
  }

  lemma {:induction false} SplitPlain(s: string, sep: char)
    requires sep !in s
    ensures Split(s, sep) == [s]
  {
    if s != "" {
      SplitPlain(s[1..], sep);
      assert s == [s[0]] + s[1..];
    }
  }

  lemma {:induction false} SplitCons(a: string, sep: char, rest: string)
    requires sep !in a
    ensures Split(a + [sep] + rest, sep) == [a] + Split(rest, sep)
  {
    var s := a + [sep] + rest;
    if a == "" {
      assert s[1..] == rest;
    } else {
      SplitCons(a[1..], sep, rest);
      assert s[1..] == a[1..] + [sep] + rest;
      assert a == [a[0]] + a[1..];
    }
  }

  lemma {:induction false} SplitOnceAt(a: string, sep: char, b: string)
    requires sep !in a
    ensures SplitOnce(a + [sep] + b, sep) == Some((a, b))
  {
    var s := a + [sep] + b;
    if a == "" {
      assert s[1..] == b;
    } else {
      SplitOnceAt(a[1..], sep, b);
      assert s[1..] == a[1..] + [sep] + b;
      assert a == [a[0]] + a[1..];
    }
  }

  /** A pattern whose first character occurs nowhere after it in the text is found where it was put. */
  lemma RFindAt(a: string, pattern: string, b: string)
    requires pattern != "" && pattern[0] !in pattern[1..] && pattern[0] !in b
    ensures RFind(a + pattern + b, pattern) == Some(|a|)
  {
    var s := a + pattern + b;
    assert OccursAt(s, pattern, |a|);
    forall i: nat | |a| < i && i + |pattern| <= |s|
      ensures !OccursAt(s, pattern, i)
    {
      var tail := pattern[1..] + b;
      assert s[i] == tail[i - |a| - 1] && tail[i - |a| - 1] in tail;
      assert s[i] != pattern[0];
      assert s[i..i + |pattern|][0] == s[i];
    }
  }

  lemma {:induction false} PartsHoldNoSeparator(s: string, sep: char)
    ensures forall part <- Split(s, sep) :: sep !in part
  {
    if s != "" {
      PartsHoldNoSeparator(s[1..], sep);
    }
  }

  /** The last part is what follows the last separator. */
  lemma {:induction false} SplitLast(s: string, sep: char)
    ensures var parts := Split(s, sep);
            var last := parts[|parts| - 1];
            && sep !in last && |last| <= |s| && s[|s| - |last|..] == last
            && (if |parts| == 1 then last == s else |last| < |s| && s[|s| - |last| - 1] == sep)
  {
    if s != "" {
      SplitLast(s[1..], sep);
      var (parts, rest) := (Split(s, sep), Split(s[1..], sep));
      if |parts| > 1 {
        assert parts[|parts| - 1] == rest[|rest| - 1];
      }
    }
  }
}
