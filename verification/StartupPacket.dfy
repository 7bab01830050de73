/** The startup packet: the proxy parses the client's and prints its own for the backend. */
module StartupPacket {
  import opened Prelude
  import opened ProxyErrors
  import opened Packet
  import Options

  const PROTOCOL_VERSION_NUMBER: u32 := 3 * 0x1_0000

  const CANCEL_REQUEST_CODE: u32 := 1234 * 0x1_0000 + 5678

  const SSL_REQUEST_CODE: u32 := 1234 * 0x1_0000 + 5679

  const GSSENC_REQUEST_CODE: u32 := 1234 * 0x1_0000 + 5680

  type Params = map<string, string>

  /** The name-value pairs of a startup packet added to `params`; an empty name ends the list and must be the last byte. */
  function ParseParams(body: Bytes, params: Params := map[]): Result<Params, ProxyError>
    decreases |body|
  {
    if body == [] then Err(Connection(InvalidStartupLayout))
    else
      match ReadCString(body)
      case Err(error) => Err(error)
      case Ok((key, rest)) =>
        if key == "" then (if rest == [] then Ok(params) else Err(Connection(InvalidStartupLayout)))
        else
          match ReadCString(rest)
          case Err(error) => Err(error)
          case Ok((value, rest')) => ParseParams(rest', params[key := value])
  }

  /** The parse loop of `handle_startup_packet`. */
  method ReadParams(reader: MessageReader, params: Params) returns (r: Result<Params, ProxyError>)
    requires reader.Valid()
    modifies reader
    ensures reader.Valid()
    ensures r == ParseParams(old(reader.Rest()), params)
  {
    var collected := params;
    var sawTerminator := false;
    while reader.Remaining() > 0
      invariant reader.Valid() && !sawTerminator
      invariant ParseParams(reader.Rest(), collected) == ParseParams(old(reader.Rest()), params)
      decreases reader.Remaining()
    {
      var key := reader.ReadString();
      if key.Err? {
        return Err(key.error);
      }
      if key.value == "" {
        sawTerminator := true;
        break;
      }
      var value := reader.ReadString();
      if value.Err? {
        return Err(value.error);
      }
      collected := collected[key.value := value.value];
    }
    if !sawTerminator || reader.Remaining() != 0 {
      return Err(Connection(InvalidStartupLayout));
    }
    r := Ok(collected);
  }

  /** The parameters once an `options` value has been folded in: its settings win, and it can never set `replication`. */
  function MergeOptions(params: Params): Result<Params, ProxyError> {
    if "options" !in params then Ok(params)
    else
      match Options.Settings(Options.Tokens(params["options"]))
      case Err(_) => Err(Connection(InvalidData))
      case Ok(parsed) => Ok((params + (parsed - {"replication"})) - {"options"})
  }

  function PrintParam(name: string, value: string): Bytes {
    CString(name) + CString(value)
  }

  function PrintParams(pairs: seq<(string, string)>): Bytes {
    if pairs == [] then [] else PrintParam(pairs[0].0, pairs[0].1) + PrintParams(pairs[1..])
  }

  predicate Names(pairs: seq<(string, string)>, name: string) {
    exists i :: 0 <= i < |pairs| && pairs[i].0 == name
  }

  /** The parameters the proxy adds when the client named none. */
  function Defaults(pairs: seq<(string, string)>, user: string, database: string): seq<(string, string)> {
    (if Names(pairs, "user") then [] else [("user", user)])
    + (if Names(pairs, "database") then [] else [("database", database)])
    + (if Names(pairs, "application_name") then [] else [("application_name", "wirechaos")])
  }

  /** The body of the startup packet sent to the backend. */
  function StartupBody(pairs: seq<(string, string)>, user: string, database: string): Bytes {
    BigEndian(PROTOCOL_VERSION_NUMBER) + PrintParams(pairs) + PrintParams(Defaults(pairs, user, database)) + [0]
  }

  /** The map a list of pairs stands for, a later pair winning. */
  function AsMap(pairs: seq<(string, string)>): Params {
    if pairs == [] then map[] else map[pairs[0].0 := pairs[0].1] + AsMap(pairs[1..])
  }

  predicate SendablePair(pair: (string, string)) {
    pair.0 != "" && '\0' !in pair.0 && '\0' !in pair.1
  }

  lemma {:induction false} PrintParamsConcat(a: seq<(string, string)>, b: seq<(string, string)>)
    ensures PrintParams(a + b) == PrintParams(a) + PrintParams(b)
  {
    if a == [] {
      assert a + b == b;
    } else {
      assert (a + b)[1..] == a[1..] + b;
      PrintParamsConcat(a[1..], b);
    }
  }

  lemma GroupMaps(a: Params, b: Params, c: Params)
    ensures a + b + c == a + (b + c)
  {
  }

  lemma {:induction false} AsMapConcat(a: seq<(string, string)>, b: seq<(string, string)>)
    ensures AsMap(a + b) == AsMap(a) + AsMap(b)
  {
    if a == [] {
      assert a + b == b;
      assert map[] + AsMap(b) == AsMap(b);
    } else {
      assert (a + b)[1..] == a[1..] + b;
      AsMapConcat(a[1..], b);
      GroupMaps(map[a[0].0 := a[0].1], AsMap(a[1..]), AsMap(b));
    }
  }

  lemma TerminatorReads(params: Params)
    ensures ParseParams([0], params) == Ok(params)
  {
    CStringReadsBack("", []);
    assert CString("") + [] == [0];
  }

  lemma ParamReads(key: string, value: string, rest: Bytes, params: Params)
    requires SendablePair((key, value))
    ensures ParseParams(PrintParam(key, value) + rest, params) == ParseParams(rest, params[key := value])
  {
    hide ReadCString, CString;
    var body := PrintParam(key, value) + rest;
    assert body == CString(key) + (CString(value) + rest);
    CStringReadsBack(key, CString(value) + rest);
    CStringReadsBack(value, rest);
    assert body != [] by {
      assert |CString(key)| > 0 by { NotEmpty(key); }
    }
  }

  lemma NotEmpty(s: string)
    ensures |CString(s)| > 0
  {
  }

  /** Printed pairs are parsed back, up to and including the terminator. */
  lemma {:induction false} PairsReadBack(pairs: seq<(string, string)>, params: Params)
    requires forall pair <- pairs :: SendablePair(pair)
    ensures ParseParams(PrintParams(pairs) + [0], params) == Ok(params + AsMap(pairs))
    decreases |pairs|
  {
    hide ParseParams, PrintParam;
    var body := PrintParams(pairs) + [0];
    if pairs == [] {
      TerminatorReads(params);
      assert body == [0] && params + map[] == params;
    } else {
      var (key, value) := pairs[0];
      var rest := PrintParams(pairs[1..]) + [0];
      assert body == PrintParam(key, value) + rest;
      ParamReads(key, value, rest, params);
      PairsReadBack(pairs[1..], params[key := value]);
      assert params[key := value] + AsMap(pairs[1..]) == params + AsMap(pairs);
    }
  }

  /**
   * The packet printed for the backend is consumed to its last byte by the parser the proxy itself uses, and means
   * the given parameters plus the missing defaults.
   */
  lemma StartupRoundTrip(pairs: seq<(string, string)>, user: string, database: string)
    requires forall pair <- pairs :: SendablePair(pair)
    requires '\0' !in user && '\0' !in database
    ensures var body := StartupBody(pairs, user, database);
            && FromBigEndian(body[..4]) == PROTOCOL_VERSION_NUMBER
            && ParseParams(body[4..]) == Ok(AsMap(pairs) + AsMap(Defaults(pairs, user, database)))
  {
    hide ParseParams, PrintParams, AsMap, Names, BigEndian, FromBigEndian;
    var defaults := Defaults(pairs, user, database);
    var body := StartupBody(pairs, user, database);
    BigEndianRoundTrip(PROTOCOL_VERSION_NUMBER);
    assert body[..4] == BigEndian(PROTOCOL_VERSION_NUMBER);
    PrintParamsConcat(pairs, defaults);
    assert body[4..] == PrintParams(pairs + defaults) + [0];
    forall pair <- pairs + defaults
      ensures SendablePair(pair)
    {
      assert pair in pairs || pair in defaults;
    }
    PairsReadBack(pairs + defaults, map[]);
    AsMapConcat(pairs, defaults);
    assert map[] + AsMap(pairs + defaults) == AsMap(pairs + defaults);
  }

  /** Whatever the client's packet was, what is parsed from it can be sent on as C strings. */
  lemma {:induction false} ParsedIsSendable(body: Bytes, params: Params)
    requires Options.Sendable(params) && ParseParams(body, params).Ok?
    ensures Options.Sendable(ParseParams(body, params).value)
    decreases |body|
  {
    ReadCStringInverts(body);
    var (key, rest) := ReadCString(body).value;
    if key != "" {
      ReadCStringInverts(rest);
      var (value, rest') := ReadCString(rest).value;
      ParsedIsSendable(rest', params[key := value]);
    }
  }

  lemma MergedIsSendable(params: Params)
    requires Options.Sendable(params) && MergeOptions(params).Ok?
    ensures Options.Sendable(MergeOptions(params).value)
    ensures "options" !in MergeOptions(params).value
    ensures var merged := MergeOptions(params).value;
            "replication" in merged <==> "replication" in params
  {
    if "options" in params {
      Options.OptionsSendable(params["options"]);
    }
  }

  /** `pairs` enumerates a map in some order, as `HashMap::iter` does. */
  predicate Enumerates(pairs: seq<(string, string)>, m: Params) {
    if pairs == [] then m == map[]
    else pairs[0].0 in m && m[pairs[0].0] == pairs[0].1 && Enumerates(pairs[1..], m - {pairs[0].0})
  }

  lemma {:induction false} EnumerationMeans(pairs: seq<(string, string)>, m: Params)
    requires Enumerates(pairs, m)
    ensures AsMap(pairs) == m
    ensures forall pair <- pairs :: pair.0 in m && m[pair.0] == pair.1
  {
    if pairs != [] {
      EnumerationMeans(pairs[1..], m - {pairs[0].0});
      assert map[pairs[0].0 := pairs[0].1] + (m - {pairs[0].0}) == m;
    }
  }

  lemma {:induction false} NamedKeys(pairs: seq<(string, string)>, name: string)
    ensures Names(pairs, name) <==> name in AsMap(pairs)
  {
    if pairs != [] {
      var rest := pairs[1..];
      NamedKeys(rest, name);
      if Names(rest, name) {
        var i :| 0 <= i < |rest| && rest[i].0 == name;
        assert pairs[i + 1].0 == name;
      }
      if Names(pairs, name) && pairs[0].0 != name {
        var i :| 0 <= i < |pairs| && pairs[i].0 == name;
        assert rest[i - 1].0 == name;
      }
      assert pairs[0].0 == name ==> Names(pairs, name);
    }
  }

  function WithDefault(m: Params, name: string, value: string): Params {
    if name in m then m else m[name := value]
  }

  /** `m` with the defaults of the backend link filled in. */
  function WithDefaults(m: Params, user: string, database: string): Params {
    WithDefault(WithDefault(WithDefault(m, "user", user), "database", database), "application_name", "wirechaos")
  }

  /**
   * From the client's packet to the backend's: whatever a client sent, merged with its options and printed in any
   * order, the backend parses exactly the merged parameters with the defaults filled in.
   */
  lemma StartupIsForwarded(body: Bytes, pairs: seq<(string, string)>, user: string, database: string)
    requires ParseParams(body).Ok? && MergeOptions(ParseParams(body).value).Ok?
    requires Enumerates(pairs, MergeOptions(ParseParams(body).value).value)
    requires '\0' !in user && '\0' !in database
    ensures ParseParams(StartupBody(pairs, user, database)[4..])
         == Ok(WithDefaults(MergeOptions(ParseParams(body).value).value, user, database))
  {
    var merged := MergeOptions(ParseParams(body).value).value;
    ParsedIsSendable(body, map[]);
    MergedIsSendable(ParseParams(body).value);
    EnumerationMeans(pairs, merged);
    hide ParseParams, MergeOptions, AsMap, Enumerates, StartupBody, Defaults, WithDefaults, Names;
    StartupRoundTrip(pairs, user, database);
    assert AsMap(pairs) + AsMap(Defaults(pairs, user, database)) == WithDefaults(merged, user, database) by {
      DefaultsMean(pairs, merged, user, database);
    }
  }

  lemma DefaultsMean(pairs: seq<(string, string)>, m: Params, user: string, database: string)
    requires m == AsMap(pairs)
    ensures m + AsMap(Defaults(pairs, user, database)) == WithDefaults(m, user, database)
  {
    NamedKeys(pairs, "user");
    NamedKeys(pairs, "database");
    NamedKeys(pairs, "application_name");
    var userDefault := if "user" in m then [] else [("user", user)];
    var databaseDefault := if "database" in m then [] else [("database", database)];
    var nameDefault := if "application_name" in m then [] else [("application_name", "wirechaos")];
    assert Defaults(pairs, user, database) == userDefault + databaseDefault + nameDefault;
    hide Defaults, Names;
    var m1 := WithDefault(m, "user", user);
    var m2 := WithDefault(m1, "database", database);
    assert "database" in m1 <==> "database" in m;
    assert "application_name" in m2 <==> "application_name" in m;
    DefaultMeans(m, "user", user);
    DefaultMeans(m1, "database", database);
    DefaultMeans(m2, "application_name", "wirechaos");
    hide AsMap, WithDefault;
    AsMapConcat(userDefault + databaseDefault, nameDefault);
    AsMapConcat(userDefault, databaseDefault);
    GroupMaps(m, AsMap(userDefault), AsMap(databaseDefault));
    GroupMaps(m, AsMap(userDefault) + AsMap(databaseDefault), AsMap(nameDefault));
  }

  lemma DefaultMeans(m: Params, name: string, value: string)
    ensures m + AsMap(if name in m then [] else [(name, value)]) == WithDefault(m, name, value)
  {
    var pairs := [(name, value)];
    assert pairs[1..] == [];
    assert AsMap(pairs) == map[name := value];
  }
}
