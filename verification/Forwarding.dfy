/** From the parameters a client wrote to the parameters its backend reads. */
module Forwarding {
  import opened Prelude
  import opened ProxyErrors
  import opened Packet
  import opened Frames
  import opened StartupPacket
  import opened BackendLinks
  import opened PgClients
  import opened Dialogues
  import opened Trace
  import opened Verifiers
  import opened BindingPolicy
  import Conns
  import Options
  import Registry

  /** What the options of a packet do to its parameters. */
  lemma MergeMeans(params: Params)
    ensures "options" !in params ==> MergeOptions(params) == Ok(params)
    ensures "options" in params ==>
              match Options.Settings(Options.Tokens(params["options"]))
              case Err(_) => MergeOptions(params) == Err(Connection(InvalidData))
              case Ok(m) =>
                && MergeOptions(params).Ok?
                && var merged := MergeOptions(params).value;
                   && (forall name :: name in merged <==> name != "options" && (name in params || (name in m && name != "replication")))
                   && (forall name <- merged :: merged[name] == if name in m && name != "replication" then m[name] else params[name])
  {
    hide Options.Settings, Options.Tokens;
  }

  function ValueIn(m: Params, name: string): Option<string> {
    if name in m then Some(m[name]) else None
  }

  /**
   * What a backend must read under `name` when a client wrote `params` and settings `m` in its options: the setting, but
   * never `replication` nor `options`; else what the client wrote; else the default of the link.
   */
  function Expected(params: Params, m: Params, user: string, database: string, name: string): Option<string> {
    if name in m && name != "replication" && name != "options" then Some(m[name])
    else if name in params && name != "options" then Some(params[name])
    else if name == "user" then Some(user)
    else if name == "database" then Some(database)
    else if name == "application_name" then Some("wirechaos")
    else None
  }

  lemma DefaultsAreExpected(merged: Params, user: string, database: string, name: string)
    ensures ValueIn(WithDefaults(merged, user, database), name)
         == if name in merged then Some(merged[name])
            else if name == "user" then Some(user)
            else if name == "database" then Some(database)
            else if name == "application_name" then Some("wirechaos")
            else None
  {
    assert "user" != "database" && "user" != "application_name" && "database" != "application_name" by {
      assert |"user"| == 4 && |"database"| == 8 && |"application_name"| == 16;
    }
  }

  /** The settings a client writes into its options, in any spelling, reach its backend beside its other parameters. */
  lemma SettingsReachTheBackend(body: Bytes, m: Params, pairs: seq<(string, string)>, user: string, database: string, name: string)
    requires ParseParams(body).Ok?
    requires var params := ParseParams(body).value;
             if "options" in params then Options.Settings(Options.Tokens(params["options"])) == Ok(m) else m == map[]
    requires MergeOptions(ParseParams(body).value).Ok? && Enumerates(pairs, MergeOptions(ParseParams(body).value).value)
    requires '\0' !in user && '\0' !in database
    ensures ParseParams(StartupBody(pairs, user, database)[4..]).Ok?
    ensures ValueIn(ParseParams(StartupBody(pairs, user, database)[4..]).value, name)
         == Expected(ParseParams(body).value, m, user, database, name)
  {
    hide ParseParams, MergeOptions, Options.Settings, Options.Tokens, Enumerates, StartupBody, WithDefaults;
    StartupIsForwarded(body, pairs, user, database);
    MergeMeans(ParseParams(body).value);
    DefaultsAreExpected(MergeOptions(ParseParams(body).value).value, user, database, name);
  }

  /** So does every map of settings that can be written, however it is ordered, styled, escaped and spaced. */
  lemma WrittenSettingsReachTheBackend(
    body: Bytes, m: Params, settings: seq<Options.Written>, leading: string, spellings: seq<string>, gaps: seq<string>,
    pairs: seq<(string, string)>, user: string, database: string, name: string)
    requires Options.Lists(settings, m) && forall w <- settings :: w.Valid()
    requires |spellings| == |gaps| == |Options.AllTokens(settings)| && Options.IsGap(leading)
    requires forall i | 0 <= i < |gaps| :: Options.Spells(spellings[i], Options.AllTokens(settings)[i]) && Options.IsGap(gaps[i])
    requires forall i | 0 <= i < |gaps| - 1 :: gaps[i] != ""
    requires ParseParams(body).Ok? && "options" in ParseParams(body).value
    requires ParseParams(body).value["options"] == leading + Options.Joined(spellings, gaps)
    requires MergeOptions(ParseParams(body).value).Ok? ==> Enumerates(pairs, MergeOptions(ParseParams(body).value).value)
    requires '\0' !in user && '\0' !in database
    ensures ParseParams(StartupBody(pairs, user, database)[4..]).Ok?
    ensures ValueIn(ParseParams(StartupBody(pairs, user, database)[4..]).value, name)
         == Expected(ParseParams(body).value, m, user, database, name)
  {
    hide ParseParams, MergeOptions, Options.Settings, Options.Tokens, Enumerates, StartupBody, Options.Lists, Options.AllTokens, Options.Spells,
      Options.IsGap, Options.Joined;
    Options.OptionsRoundTrip(m, settings, leading, spellings, gaps);
    MergeMeans(ParseParams(body).value);
    SettingsReachTheBackend(body, m, pairs, user, database, name);
  }

  lemma BodyBegins(pairs: seq<(string, string)>, user: string, database: string)
    ensures var body := StartupBody(pairs, user, database); |body| >= 4 && body[..4] == BigEndian(PROTOCOL_VERSION_NUMBER)
  {
    hide BigEndian, PrintParams, Defaults;
  }

  lemma PacketReads(setup: Setup, body: Bytes, rest: Bytes, ssl: bool, gss: bool)
    requires |body| >= 4 && body[..4] == BigEndian(PROTOCOL_VERSION_NUMBER)
    requires |body| + 4 <= setup.maxStartupBytes && |body| <= setup.maxCapacity && |body| + 4 < U32_LIMIT
    requires setup.requiredTls ==> ssl
    ensures NextStep(setup, BigEndian(4 + |body|) + body + rest, ssl, gss) == Session(body[4..], rest)
  {
    hide BigEndian, FromBigEndian;
    var input := BigEndian(4 + |body|) + body + rest;
    BigEndianRoundTrip(4 + |body|);
    BigEndianRoundTrip(PROTOCOL_VERSION_NUMBER);
    assert input[..4] == BigEndian(4 + |body|) && input[4..|body| + 4] == body && input[|body| + 4..] == rest;
  }

  /** What the link writes first is a startup packet to the server role, too. */
  lemma StartupMessageReadsBack(setup: Setup, config: PgConfig, rest: Bytes, ssl: bool, gss: bool)
    requires var body := StartupBody(config.startupParams, config.user, config.database);
             |body| + 4 <= setup.maxStartupBytes && |body| <= setup.maxCapacity && |body| + 4 < U32_LIMIT
    requires setup.requiredTls ==> ssl
    ensures |StartupBody(config.startupParams, config.user, config.database)| >= 4
    ensures NextStep(setup, StartupMessage(config) + rest, ssl, gss)
         == Session(StartupBody(config.startupParams, config.user, config.database)[4..], rest)
  {
    hide NextStep, StartupBody, BigEndian;
    BodyBegins(config.startupParams, config.user, config.database);
    PacketReads(setup, StartupBody(config.startupParams, config.user, config.database), rest, ssl, gss);
  }

  /** Where a served client's parameters come from. */
  lemma {:induction false} ServedParameters(setup: Setup, input: Bytes, ssl: bool, gss: bool, opening: seq<Event>) returns (body: Bytes)
    requires ScriptFrom(setup, input, ssl, gss, map[], opening).verdict.Serving?
    ensures SessionParams(body, map[]) == Ok(ScriptFrom(setup, input, ssl, gss, map[], opening).verdict.params)
    decreases if ssl then 0 else 1, if gss then 0 else 1
  {
    hide NextPacket, SessionParams, Authenticate, FromBigEndian, Spoken;
    match NextStep(setup, input, ssl, gss) {
      case Reply(event, input', ssl', gss') => body := ServedParameters(setup, input', ssl', gss', opening + [event]);
      case Session(sessionBody, _) => body := sessionBody;
    }
  }

  /** The settings in the options of a packet. */
  ghost predicate Asks(params: Params, m: Params) {
    if "options" in params then Options.Settings(Options.Tokens(params["options"])) == Ok(m) else m == map[]
  }

  /** A startup message that reads, name by name, as what the client asked for in its packet and its options. */
  ghost predicate Carries(sent: Bytes, params: Params, m: Params, user: string, database: string) {
    && |sent| >= 4 && sent[..4] == BigEndian(PROTOCOL_VERSION_NUMBER) && ParseParams(sent[4..]).Ok?
    && forall name :: ValueIn(ParseParams(sent[4..]).value, name) == Expected(params, m, user, database, name)
  }

  lemma BodyCarries(body: Bytes, m: Params, pairs: seq<(string, string)>, user: string, database: string)
    requires ParseParams(body).Ok? && Asks(ParseParams(body).value, m)
    requires MergeOptions(ParseParams(body).value).Ok? && Enumerates(pairs, MergeOptions(ParseParams(body).value).value)
    requires '\0' !in user && '\0' !in database
    ensures Carries(StartupBody(pairs, user, database), ParseParams(body).value, m, user, database)
  {
    hide ParseParams, MergeOptions, Options.Settings, Options.Tokens, Enumerates, StartupBody, Expected;
    BodyBegins(pairs, user, database);
    SettingsReachTheBackend(body, m, pairs, user, database, "");
    forall name
      ensures ValueIn(ParseParams(StartupBody(pairs, user, database)[4..]).value, name)
           == Expected(ParseParams(body).value, m, user, database, name)
    {
      SettingsReachTheBackend(body, m, pairs, user, database, name);
    }
  }

  /** The parsed parameters, their settings, and that the merged names can be sent on. */
  lemma ParametersMerge(body: Bytes) returns (m: Params)
    requires SessionParams(body, map[]).Ok?
    ensures var merged := SessionParams(body, map[]).value;
            && ParseParams(body).Ok? && Asks(ParseParams(body).value, m) && MergeOptions(ParseParams(body).value) == Ok(merged)
            && Options.Sendable(merged) && '\0' !in UserOf(merged) && '\0' !in DatabaseOf(merged)
  {
    hide ParseParams, Options.ParseReplicationMode, Options.Settings, Options.Tokens;
    ParsedIsSendable(body, map[]);
    MergedIsSendable(ParseParams(body).value);
    var params := ParseParams(body).value;
    m := if "options" in params then Options.Settings(Options.Tokens(params["options"])).value else map[];
  }

  /** The first message to a backend is what its client asked for. */
  ghost predicate ToldBackend(output: Bytes, body: Bytes, user: string, database: string) {
    && ParseParams(body).Ok?
    && exists m: Params, sent: Bytes ::
         && Asks(ParseParams(body).value, m) && Carries(sent, ParseParams(body).value, m, user, database)
         && BigEndian((4 + |sent|) % U32_LIMIT) + sent <= output
  }

  /** A backend that was dialled for a session has been told so first of all. */
  lemma DialledIsTold(
    setup: Setup, clientKey: Key, body: Bytes, params: Params, backend: Backend, pairs: seq<(string, string)>, frames: seq<Frame>)
    requires SessionParams(body, map[]) == Ok(params)
    requires Conns.DialledFor(setup, clientKey, UserOf(params), DatabaseOf(params), params, backend, pairs, frames)
    ensures ToldBackend(backend.output, body, UserOf(params), DatabaseOf(params))
  {
    hide ParseParams, SessionParams, MergeOptions, StartupBody, Enumerates, Start, Became, AllShort, PrintAll, EndsReady, Relay, LastKey,
      Handled, Answers, AskedForSasl, HasSecret, Asks, Carries, BigEndian;
    var m := ParametersMerge(body);
    BodyCarries(body, m, pairs, UserOf(params), DatabaseOf(params));
  }

  /** So has the backend of every session the driver opens, by the packet its client was served for. */
  lemma SessionParametersAreSent(conn: Conns.Conn, start: Conns.Moment, script: Script, input: Bytes) returns (body: Bytes)
    requires script == ScriptFrom(conn.setup, input, false, false, map[], []) && script.verdict.Serving?
    requires start.writes >= |script.events| && conn.Ended(script, start, Ok(true))
    ensures SessionParams(body, map[]) == Ok(conn.params) && conn.backend.Some?
    ensures ToldBackend(conn.backend.value.output, body, UserOf(conn.params), DatabaseOf(conn.params))
  {
    hide ScriptFrom, SessionParams, ToldBackend, FateOf, Enumerates, Registry.Agrees, Holds, Greeting, Notes, Conns.DialledFor;
    body := ServedParameters(conn.setup, input, false, false, []);
    DialledIsTold(
      conn.setup, conn.evidence.value.key, body, conn.params, conn.backend.value, conn.order, conn.backendFrames);
  }

  /**
   * How a session's link is set up: with the key its client proved and what the store holds of its user, under the user's
   * own name and the configured policy.
   */
  lemma LinkIsConfigured(setup: Setup, clientKey: Key, verifier: Verifier, params: Params, pairs: seq<(string, string)>)
    requires "user" in params && params["user"] != ""
    ensures var config := ConfigFor(setup, clientKey, verifier, UserOf(params), DatabaseOf(params), pairs);
            && config.clientKey == Some(clientKey) && config.storedKey == Some(verifier.storedKey)
            && config.serverKey == Some(verifier.serverKey) && config.password == verifier.password
            && config.salt == verifier.salt && config.iterations == verifier.iterations
            && config.channelBinding == setup.channelBinding && config.startupParams == pairs
            && config.user == params["user"]
            && config.database == (if "database" in params && params["database"] != "" then params["database"] else params["user"])
  {
  }

  /** The configured policy is the one the link of a session keeps. */
  lemma SessionKeepsItsPolicy(
    setup: Setup, clientKey: Key, params: Params, backend: Backend, pairs: seq<(string, string)>, frames: seq<Frame>)
    requires Conns.DialledFor(setup, clientKey, UserOf(params), DatabaseOf(params), params, backend, pairs, frames)
    ensures setup.lookups(1, UserOf(params)).Found?
    ensures var config := ConfigFor(setup, clientKey, setup.lookups(1, UserOf(params)).verifier, UserOf(params), DatabaseOf(params), pairs);
            setup.dial(config).Ok?
            && var link := setup.dial(config).value;
               && (setup.channelBinding.Require? ==> forall f <- frames :: IsAuth(f, AUTH_SASL) ==> IsBound(link, config, f))
               && (setup.channelBinding.Prefer? ==>
                     forall f <- frames :: IsAuth(f, AUTH_SASL) ==>
                       (IsBound(link, config, f) <==> Offers(f.body[4..], ScramSha256Plus) && link.peerCertHash.Some?))
               && (setup.channelBinding.Disable? ==> forall f <- frames :: IsAuth(f, AUTH_SASL) ==> !IsBound(link, config, f))
  {
    hide StartedBy, Enumerates, IsAuth, IsBound, Offers, DatabaseOf, UserOf;
    var config := ConfigFor(setup, clientKey, setup.lookups(1, UserOf(params)).verifier, UserOf(params), DatabaseOf(params), pairs);
    var link := setup.dial(config).value;
    if setup.channelBinding.Require? {
      RequireBindsIffAsked(backend, link, config, frames);
    } else {
      BindsIffOffered(backend, link, config, frames);
    }
  }
}
