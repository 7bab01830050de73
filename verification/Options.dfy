/** The `options` startup parameter: tokens, `-c key=value` settings, and the replication mode. */
module Options {
  import opened Prelude
  import opened Text

  datatype OptionsError = InvalidData

  predicate IsBlank(c: char) {
    c == ' ' || c == '\t'
  }

  /** The tokens of `s`: blanks separate, a backslash makes the next character ordinary. `current` is the token begun so far. */
  function Tokens(s: string, current: string := ""): (tokens: seq<string>)
    ensures "" !in tokens
    decreases |s|
  {
    var begun := if current == "" then [] else [current];
    if s == "" then begun
    else if s[0] == '\\' then (if |s| == 1 then begun else Tokens(s[2..], current + [s[1]]))
    else if IsBlank(s[0]) then begun + Tokens(s[1..], "")
    else Tokens(s[1..], current + [s[0]])
  }

  /** The tokens still to come when the loop has begun `current` and just read a backslash or not. */
  function Pending(rest: string, current: string, escaped: bool): seq<string> {
    if !escaped then Tokens(rest, current)
    else if rest == "" then (if current == "" then [] else [current])
    else Tokens(rest[1..], current + [rest[0]])
  }

  method SplitOptionTokens(s: string) returns (tokens: seq<string>)
    ensures tokens == Tokens(s)
  {
    tokens := [];
    var curr, escaped := "", false;
    for i := 0 to |s|
      invariant tokens + Pending(s[i..], curr, escaped) == Tokens(s)
    {
      var c := s[i];
      assert s[i..][1..] == s[i + 1..];
      assert |s[i..]| >= 2 ==> s[i..][2..] == s[i + 1..][1..] && s[i..][1] == s[i + 1..][0];
      if escaped {
        escaped := false;
        curr := curr + [c];
      } else if c == '\\' {
        escaped := true;
      } else if IsBlank(c) {
        if curr != "" {
          tokens := tokens + [curr];
          curr := "";
        }
      } else {
        curr := curr + [c];
      }
    }
    if curr != "" {
      tokens := tokens + [curr];
    }
  }

  /** `-c` with its argument, `-ckey=value` or `--key=value`. */
  function SplitKeyValue(token: string): Option<(string, string)> {
    match SplitOnce(token, '=')
    case None => None
    case Some((key, value)) => if key == "" || value == "" then None else Some((key, value))
  }

  function DashesToUnderscores(key: string): (r: string)
    ensures |r| == |key|
    ensures forall i | 0 <= i < |key| :: r[i] == if key[i] == '-' then '_' else key[i]
  {
    seq(|key|, i requires 0 <= i < |key| => if key[i] == '-' then '_' else key[i])
  }

  /** The setting the tokens start with, and how many tokens it takes. */
  function Setting(tokens: seq<string>): (r: Option<(string, string, nat)>)
    requires tokens != []
    ensures r.Some? ==> 1 <= r.value.2 <= |tokens| && r.value.0 != "" && r.value.1 != ""
  {
    if tokens[0] == "-c" then
      if |tokens| == 1 || SplitKeyValue(tokens[1]).None? then None
      else var (key, value) := SplitKeyValue(tokens[1]).value; Some((key, value, 2))
    else if "-c" <= tokens[0] then
      if SplitKeyValue(tokens[0][2..]).None? then None
      else var (key, value) := SplitKeyValue(tokens[0][2..]).value; Some((key, value, 1))
    else if "--" <= tokens[0] then
      if SplitKeyValue(tokens[0][2..]).None? then None
      else var (key, value) := SplitKeyValue(tokens[0][2..]).value; Some((DashesToUnderscores(key), value, 1))
    else None
  }

  /** The settings of a token list, a later one replacing an earlier one of the same name. */
  function Settings(tokens: seq<string>): Result<map<string, string>, OptionsError>
    decreases |tokens|
  {
    if tokens == [] then Ok(map[])
    else
      match Setting(tokens)
      case None => Err(InvalidData)
      case Some((key, value, used)) =>
        match Settings(tokens[used..])
        case Err(error) => Err(error)
        case Ok(later) => Ok(map[key := value] + later)
  }

  /** What the loop still owes once it has collected `result` and stands before `rest`. */
  function Remaining(result: map<string, string>, rest: seq<string>): Result<map<string, string>, OptionsError> {
    match Settings(rest)
    case Err(error) => Err(error)
    case Ok(later) => Ok(result + later)
  }

  lemma SettingRead(result: map<string, string>, rest: seq<string>)
    requires rest != [] && Setting(rest).Some?
    ensures var (key, value, used) := Setting(rest).value;
            Remaining(result, rest) == Remaining(result[key := value], rest[used..])
  {
    var (key, value, used) := Setting(rest).value;
    if Settings(rest[used..]).Ok? {
      var later := Settings(rest[used..]).value;
      assert result + (map[key := value] + later) == result[key := value] + later;
    }
  }

  /** The key and value of one option token other than a lone `-c`. */
  function InlineSetting(token: string): Option<(string, string)> {
    if "-c" <= token then SplitKeyValue(token[2..])
    else if "--" <= token then
      (match SplitKeyValue(token[2..])
       case None => None
       case Some((key, value)) => Some((DashesToUnderscores(key), value)))
    else None
  }

  /** One turn of the option loop, seen from what remains. */
  lemma Turn(result: map<string, string>, tokens: seq<string>, i: nat)
    requires i < |tokens|
    ensures var next := if tokens[i] != "-c" then InlineSetting(tokens[i])
                        else if i + 1 == |tokens| then None
                        else SplitKeyValue(tokens[i + 1]);
            var used := if tokens[i] == "-c" then 2 else 1;
            match next
            case None => Remaining(result, tokens[i..]) == Err(InvalidData)
            case Some((key, value)) => Remaining(result, tokens[i..]) == Remaining(result[key := value], tokens[i + used..])
  {
    var rest := tokens[i..];
    if Setting(rest).Some? {
      SettingRead(result, rest);
      assert rest[1..] == tokens[i + 1..] && (|rest| > 1 ==> rest[2..] == tokens[i + 2..]);
    }
  }

  method ParseOptions(options: string) returns (r: Result<map<string, string>, OptionsError>)
    ensures r == Settings(Tokens(options))
  {
    hide Settings, SplitKeyValue, Tokens, Remaining, DashesToUnderscores;
    var tokens := SplitOptionTokens(options);
    var result: map<string, string> := map[];
    var i := 0;
    NothingRead(tokens);
    while i < |tokens|
      invariant 0 <= i <= |tokens|
      invariant Remaining(result, tokens[i..]) == Settings(tokens)
    {
      Turn(result, tokens, i);
      var token := tokens[i];
      if token == "-c" {
        i := i + 1;
        if i == |tokens| {
          return Err(InvalidData);
        }
        var kv := SplitKeyValue(tokens[i]);
        if kv.None? {
          return Err(InvalidData);
        }
        result := result[kv.value.0 := kv.value.1];
      } else if "-c" <= token {
        var kv := SplitKeyValue(token[2..]);
        if kv.None? {
          return Err(InvalidData);
        }
        result := result[kv.value.0 := kv.value.1];
      } else if "--" <= token {
        var kv := SplitKeyValue(token[2..]);
        if kv.None? {
          return Err(InvalidData);
        }
        result := result[DashesToUnderscores(kv.value.0) := kv.value.1];
      } else {
        return Err(InvalidData);
      }
      i := i + 1;
    }
    AllRead(result, tokens);
    r := Ok(result);
  }

  lemma NothingRead(tokens: seq<string>)
    ensures Remaining(map[], tokens[0..]) == Settings(tokens)
  {
    assert tokens[0..] == tokens;
    if Settings(tokens).Ok? {
      assert map[] + Settings(tokens).value == Settings(tokens).value;
    }
  }

  lemma AllRead(result: map<string, string>, tokens: seq<string>)
    ensures Remaining(result, tokens[|tokens|..]) == Ok(result)
  {
    assert tokens[|tokens|..] == [];
    assert result + map[] == result;
  }

  /** `spelling` is `token` with a backslash before every blank and backslash, and possibly before other characters. */
  predicate Spells(spelling: string, token: string) {
    if spelling == "" then token == ""
    else if spelling[0] == '\\' then |spelling| >= 2 && token != "" && token[0] == spelling[1] && Spells(spelling[2..], token[1..])
    else !IsBlank(spelling[0]) && token != "" && token[0] == spelling[0] && Spells(spelling[1..], token[1..])
  }

  /** The spelling that escapes nothing but what it has to. */
  function Escape(token: string): string {
    if token == "" then ""
    else (if token[0] == '\\' || IsBlank(token[0]) then ['\\', token[0]] else [token[0]]) + Escape(token[1..])
  }

  lemma {:induction false} EscapeSpells(token: string)
    ensures Spells(Escape(token), token)
  {
    if token != "" {
      EscapeSpells(token[1..]);
      assert Escape(token)[|Escape(token)| - |Escape(token[1..])|..] == Escape(token[1..]);
    }
  }

  lemma {:induction false} SpellingIsRead(spelling: string, token: string, rest: string, current: string)
    requires Spells(spelling, token)
    ensures Tokens(spelling + rest, current) == Tokens(rest, current + token)
    decreases |spelling|
  {
    var s := spelling + rest;
    if spelling == "" {
      assert s == rest && current + token == current;
    } else if spelling[0] == '\\' {
      assert s[2..] == spelling[2..] + rest;
      SpellingIsRead(spelling[2..], token[1..], rest, current + [token[0]]);
      assert current + [token[0]] + token[1..] == current + token;
    } else {
      assert s[1..] == spelling[1..] + rest;
      SpellingIsRead(spelling[1..], token[1..], rest, current + [token[0]]);
      assert current + [token[0]] + token[1..] == current + token;
    }
  }

  predicate IsGap(s: string) {
    forall c <- s :: IsBlank(c)
  }

  lemma {:induction false} GapIsSkipped(gap: string, rest: string)
    requires IsGap(gap)
    ensures Tokens(gap + rest, "") == Tokens(rest, "")
  {
    if gap == "" {
      assert gap + rest == rest;
    } else {
      assert (gap + rest)[1..] == gap[1..] + rest;
      GapIsSkipped(gap[1..], rest);
    }
  }

  /** The spellings one after the other, each followed by its gap. */
  function Joined(spellings: seq<string>, gaps: seq<string>): string
    requires |spellings| == |gaps|
  {
    if spellings == [] then "" else spellings[0] + gaps[0] + Joined(spellings[1..], gaps[1..])
  }

  /** Any way of writing down non-empty tokens, with any blanks around and at least one between, reads back as those tokens. */
  lemma {:induction false} TokensRoundTrip(leading: string, spellings: seq<string>, gaps: seq<string>, tokens: seq<string>)
    requires |spellings| == |gaps| == |tokens| && IsGap(leading)
    requires forall i | 0 <= i < |tokens| :: tokens[i] != "" && Spells(spellings[i], tokens[i]) && IsGap(gaps[i])
    requires forall i | 0 <= i < |gaps| - 1 :: gaps[i] != ""
    ensures Tokens(leading + Joined(spellings, gaps)) == tokens
    decreases |tokens|
  {
    GapIsSkipped(leading, Joined(spellings, gaps));
    if tokens != [] {
      var rest := Joined(spellings[1..], gaps[1..]);
      assert Joined(spellings, gaps) == spellings[0] + (gaps[0] + rest);
      SpellingIsRead(spellings[0], tokens[0], gaps[0] + rest, "");
      assert "" + tokens[0] == tokens[0];
      TokensRoundTrip("", spellings[1..], gaps[1..], tokens[1..]);
      assert "" + rest == rest;
      assert tokens == [tokens[0]] + tokens[1..];
      if gaps[0] == "" {
        assert gaps[0] + rest == "";
      } else {
        assert (gaps[0] + rest)[1..] == gaps[0][1..] + rest;
        assert IsBlank(gaps[0][0]) && (gaps[0] + rest)[0] == gaps[0][0];
        assert Tokens(gaps[0] + rest, tokens[0]) == [tokens[0]] + Tokens(gaps[0][1..] + rest, "");
        GapIsSkipped(gaps[0][1..], rest);
      }
    }
  }

  /** The three ways to write one setting. */
  datatype Style = Inline | Separate | Long

  datatype Written = Written(key: string, value: string, style: Style) {
    predicate Valid() {
      key != "" && value != "" && '=' !in key && (style.Long? ==> '-' !in key)
    }

    function AsTokens(): seq<string> {
      match style
      case Inline => ["-c" + key + "=" + value]
      case Separate => ["-c", key + "=" + value]
      case Long => ["--" + key + "=" + value]
    }
  }

  function AllTokens(settings: seq<Written>): seq<string> {
    if settings == [] then [] else settings[0].AsTokens() + AllTokens(settings[1..])
  }

  /** The map the settings describe. */
  function Meaning(settings: seq<Written>): map<string, string> {
    if settings == [] then map[] else map[settings[0].key := settings[0].value] + Meaning(settings[1..])
  }

  lemma KeyValueReadsBack(key: string, value: string)
    requires key != "" && value != "" && '=' !in key
    ensures SplitKeyValue(key + "=" + value) == Some((key, value))
  {
    SplitOnceAt(key, '=', value);
  }

  lemma WrittenIsRead(w: Written, rest: seq<string>)
    requires w.Valid()
    ensures var tokens := w.AsTokens() + rest;
            && Setting(tokens) == Some((w.key, w.value, |w.AsTokens()|))
            && tokens[|w.AsTokens()|..] == rest
  {
    hide SplitKeyValue;
    KeyValueReadsBack(w.key, w.value);
    var token := w.AsTokens()[0];
    match w.style
    case Inline =>
      assert token[2..] == w.key + "=" + w.value;
    case Separate =>
    case Long =>
      assert token[1] == '-' && token[2..] == w.key + "=" + w.value;
      assert DashesToUnderscores(w.key) == w.key;
  }

  /** Settings written in any mix of styles parse to the map they describe. */
  lemma {:induction false} SettingsRoundTrip(settings: seq<Written>)
    requires forall w <- settings :: w.Valid()
    ensures Settings(AllTokens(settings)) == Ok(Meaning(settings))
  {
    if settings != [] {
      WrittenIsRead(settings[0], AllTokens(settings[1..]));
      SettingsRoundTrip(settings[1..]);
    }
  }

  /** `settings` lists every entry of `m` exactly once. */
  predicate Lists(settings: seq<Written>, m: map<string, string>) {
    if settings == [] then m == map[]
    else
      && settings[0].key in m
      && m[settings[0].key] == settings[0].value
      && Lists(settings[1..], m - {settings[0].key})
  }

  lemma {:induction false} MeaningOfList(settings: seq<Written>, m: map<string, string>)
    requires Lists(settings, m)
    ensures Meaning(settings) == m
  {
    if settings != [] {
      MeaningOfList(settings[1..], m - {settings[0].key});
      assert map[settings[0].key := settings[0].value] + (m - {settings[0].key}) == m;
    }
  }

  /** Any map of writable settings survives being written as an `options` value, escaped and spaced at will. */
  lemma OptionsRoundTrip(
    m: map<string, string>, settings: seq<Written>, leading: string, spellings: seq<string>, gaps: seq<string>)
    requires Lists(settings, m) && forall w <- settings :: w.Valid()
    requires |spellings| == |gaps| == |AllTokens(settings)| && IsGap(leading)
    requires forall i | 0 <= i < |gaps| :: Spells(spellings[i], AllTokens(settings)[i]) && IsGap(gaps[i])
    requires forall i | 0 <= i < |gaps| - 1 :: gaps[i] != ""
    ensures Settings(Tokens(leading + Joined(spellings, gaps))) == Ok(m)
  {
    AllTokensNonEmpty(settings);
    TokensRoundTrip(leading, spellings, gaps, AllTokens(settings));
    SettingsRoundTrip(settings);
    MeaningOfList(settings, m);
  }

  lemma {:induction false} AllTokensNonEmpty(settings: seq<Written>)
    ensures forall i | 0 <= i < |AllTokens(settings)| :: AllTokens(settings)[i] != ""
  {
    if settings != [] {
      AllTokensNonEmpty(settings[1..]);
    }
  }

  /** A name that can be sent as a C string: not empty, no NUL. */
  predicate Sendable(m: map<string, string>) {
    forall key <- m :: key != "" && '\0' !in key && '\0' !in m[key]
  }

  lemma {:induction false} TokensAddNothing(s: string, current: string)
    ensures forall token <- Tokens(s, current) :: forall c <- token :: c in s || c in current
    decreases |s|
  {
    if s != "" {
      if s[0] == '\\' {
        if |s| > 1 {
          TokensAddNothing(s[2..], current + [s[1]]);
        }
      } else if IsBlank(s[0]) {
        TokensAddNothing(s[1..], "");
      } else {
        TokensAddNothing(s[1..], current + [s[0]]);
      }
    }
  }

  lemma SettingSendable(tokens: seq<string>)
    requires tokens != [] && Setting(tokens).Some? && forall token <- tokens :: '\0' !in token
    ensures '\0' !in Setting(tokens).value.0 && '\0' !in Setting(tokens).value.1
  {
    var used := Setting(tokens).value.2;
    if used == 2 {
      assert '\0' !in tokens[1];
    } else {
      assert '\0' !in tokens[0];
      var (key, value) := SplitKeyValue(tokens[0][2..]).value;
      assert tokens[0][2..] == key + "=" + value;
      assert forall c <- key :: c in tokens[0][2..];
      assert forall c <- value :: c in tokens[0][2..];
    }
  }

  lemma {:induction false} SettingsSendable(tokens: seq<string>)
    requires Settings(tokens).Ok? && forall token <- tokens :: '\0' !in token
    ensures Sendable(Settings(tokens).value)
    decreases |tokens|
  {
    if tokens != [] {
      SettingSendable(tokens);
      SettingsSendable(tokens[Setting(tokens).value.2..]);
    }
  }

  /** Options read from a NUL-free value name only settings that can be sent on. */
  lemma OptionsSendable(options: string)
    requires '\0' !in options && Settings(Tokens(options)).Ok?
    ensures Sendable(Settings(Tokens(options)).value)
  {
    TokensAddNothing(options, "");
    SettingsSendable(Tokens(options));
  }

  datatype ReplicationMode = Off | Physical | Logical

  function Lower(s: string): (r: string)
    ensures |r| == |s|
  {
    seq(|s|, i requires 0 <= i < |s| => if 'A' <= s[i] <= 'Z' then (s[i] as int + 32) as char else s[i])
  }

  /** The `replication` parameter, in any letter case. */
  function ParseReplicationMode(value: string): Result<ReplicationMode, OptionsError> {
    var v := Lower(value);
    if v in ["", "false", "off", "no", "0", "f", "n"] then Ok(Off)
    else if v in ["true", "on", "yes", "1", "t", "y"] then Ok(Physical)
    else if v == "database" then Ok(Logical)
    else Err(InvalidData)
  }

  /** The words for each replication mode, whatever the case of their letters. */
  lemma ReplicationWords(value: string)
    ensures ParseReplicationMode(value) == Ok(Logical) <==> Lower(value) == "database"
    ensures ParseReplicationMode(value) == Ok(Physical)
            <==> Lower(value) == "true" || Lower(value) == "on" || Lower(value) == "yes" || Lower(value) == "1" || Lower(value) == "t" || Lower(value) == "y"
    ensures ParseReplicationMode(value) == Ok(Off)
            <==> Lower(value) == "" || Lower(value) == "false" || Lower(value) == "off" || Lower(value) == "no" || Lower(value) == "0"
                 || Lower(value) == "f" || Lower(value) == "n"
  {
  }

  lemma LowerMeans(value: string, i: nat)
    requires i < |value|
    ensures 'A' <= value[i] <= 'Z' ==> Lower(value)[i] as int - 'a' as int == value[i] as int - 'A' as int
    ensures !('A' <= value[i] <= 'Z') ==> Lower(value)[i] == value[i]
  {
  }

  predicate Plain(s: string) {
    forall i | 0 <= i < |s| :: s[i] != ' ' && s[i] != '\t' && s[i] != '\\'
  }

  lemma {:induction false} PlainSpellsItself(s: string)
    requires Plain(s)
    ensures Spells(s, s)
  {
    if s != "" {
      PlainSpellsItself(s[1..]);
    }
  }

  lemma PlainToken(s: string, rest: string)
    requires Plain(s)
    ensures Tokens(s + rest, "") == Tokens(rest, s)
    ensures s != "" ==> Tokens(s) == [s]
  {
    PlainSpellsItself(s);
    SpellingIsRead(s, s, rest, "");
    SpellingIsRead(s, s, "", "");
    assert "" + s == s && s + "" == s;
  }

  /** Spaces and tabs separate, nothing else does, and a backslash keeps even those. */
  lemma BlanksSeparate(a: string, b: string, c: char)
    requires a != "" && b != "" && Plain(a) && Plain(b)
    ensures c == ' ' || c == '\t' ==> Tokens(a + [c] + b) == [a, b]
    ensures c != ' ' && c != '\t' && c != '\\' ==> Tokens(a + [c] + b) == [a + [c] + b]
    ensures Tokens(a + ['\\', c] + b) == [a + [c] + b]
  {
    assert a + [c] + b == a + ([c] + b) && ([c] + b)[1..] == b;
    PlainToken(a, [c] + b);
    PlainToken(b, "");
    var escaped := ['\\', c] + b;
    assert a + ['\\', c] + b == a + escaped && escaped[2..] == b && escaped[1] == c;
    PlainToken(a, escaped);
    PlainSpellsItself(b);
    SpellingIsRead(b, b, "", a + [c]);
    assert b + "" == b && a + [c] + b != "";
    if c != ' ' && c != '\t' && c != '\\' {
      PlainToken(a + [c] + b, "");
    }
  }
}
