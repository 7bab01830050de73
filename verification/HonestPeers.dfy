/** Progress: with an honest client and an honest backend a session comes up, byte for byte on both wires. */
module HonestPeers {
  import opened Prelude
  import opened Packet
  import opened Frames
  import opened StartupPacket
  import opened Verifiers
  import opened ChannelBinding
  import opened BackendLinks
  import opened Dialogues
  import opened EndToEnd
  import C = ScramClients
  import Registry
  import S = ScramServer
  import X = ScramExchange
  import Trace
  import Utf8

  /** A startup packet: its length, the protocol version, the parameters. */
  function StartupPacketOf(body: Bytes): Bytes {
    BigEndian((|body| + 8) % U32_LIMIT) + (BigEndian(PROTOCOL_VERSION_NUMBER) + body)
  }

  lemma StartupPacketReadsBack(setup: Setup, body: Bytes, rest: Bytes, ssl: bool, gss: bool)
    requires |body| + 8 <= setup.maxStartupBytes && |body| + 4 <= setup.maxCapacity && |body| + 8 < U32_LIMIT
    requires setup.requiredTls ==> ssl
    ensures NextStep(setup, StartupPacketOf(body) + rest, ssl, gss) == Session(body, rest)
  {
    hide BigEndian, FromBigEndian;
    var packet := BigEndian(PROTOCOL_VERSION_NUMBER) + body;
    var input := StartupPacketOf(body) + rest;
    assert input[..4] == BigEndian(|body| + 8) && input[4..|body| + 8] == packet && input[|body| + 8..] == rest;
    BigEndianRoundTrip(|body| + 8);
    assert packet[..4] == BigEndian(PROTOCOL_VERSION_NUMBER) && packet[4..] == body;
    BigEndianRoundTrip(PROTOCOL_VERSION_NUMBER);
  }

  /** The client's side of an exchange with `server`: what it is challenged with and what it answers. */
  datatype Said = Said(serverFirst: string, final: string, serverFinal: string)

  ghost predicate Exchanged(c: C.Client, server: S.Server, user: string, random: Bytes, salt: Bytes, iterations: u32, said: Said) {
    var (opened', first) := S.ClientFirst(server, S.NEW_SESSION, X.MechanismName(c), c.ClientFirst(), user, random);
    && first == Ok(said.serverFirst)
    && var (c', final) := C.ClientFinal(c, said.serverFirst, salt, iterations);
       && final == Ok(said.final)
       && var (closed, last) := S.ClientFinal(server, opened', said.final, user);
          && last == Ok(said.serverFinal)
          && C.VerifyServerFinal(c', said.serverFinal).Ok?
          && X.Exchange(c, server, user, random, salt, iterations)
             == X.Finished(closed.extractedClientKey, C.VerifyServerFinal(c', said.serverFinal))
  }

  predicate Extracts(outcome: X.Outcome, key: Key) {
    outcome.Finished? && outcome.extracted == Some(key)
  }

  /** Every exchange that finishes has such messages. */
  lemma FinishedIsExchanged(c: C.Client, server: S.Server, user: string, random: Bytes, salt: Bytes, iterations: u32) returns (said: Said)
    requires X.Exchange(c, server, user, random, salt, iterations).Finished?
    requires X.Exchange(c, server, user, random, salt, iterations).signatureVerified.Ok?
    ensures Exchanged(c, server, user, random, salt, iterations, said)
  {
    hide S.ClientFirst, S.ClientFinal, C.ClientFinal, C.VerifyServerFinal, X.MechanismName;
    var (opened', first) := S.ClientFirst(server, S.NEW_SESSION, X.MechanismName(c), c.ClientFirst(), user, random);
    var final := C.ClientFinal(c, first.value, salt, iterations).1;
    said := Said(first.value, final.value, S.ClientFinal(server, opened', final.value, user).1.value);
  }

  predicate Fits(setup: Setup, body: Bytes) {
    4 <= |body| <= setup.maxCapacity && |body| + 4 < U32_LIMIT
  }

  /** What the client says in the SASL dialogue. */
  function ClientSays(c: C.Client, said: Said): (b: (Bytes, Bytes)) {
    (InitialResponse(X.MechanismName(c), c.ClientFirst()), Utf8.Encode(said.final))
  }

  /** A client whose exchange with the stored verifier finishes is accepted on the wire, in exactly those two messages. */
  lemma HonestClientIsAccepted(
    setup: Setup, user: string, certHash: Option<CertHash>, c: C.Client, salt: Bytes, iterations: u32, said: Said, rest: Bytes)
    requires user != "" && setup.lookups(0, user).Found?
    requires var server := S.Server(setup.crypto, setup.lookups(0, user).verifier, certHash);
             X.ReadyFor(c, server) && Exchanged(c, server, user, setup.serverNonce, salt, iterations, said)
    requires Fits(setup, ClientSays(c, said).0) && Fits(setup, ClientSays(c, said).1) && |Utf8.Encode(c.ClientFirst())| < I32_LIMIT
    ensures var stage := Authenticate(
                           setup, Some(user), certHash,
                           Message(TAG_PASSWORD, ClientSays(c, said).0) + (Message(TAG_PASSWORD, ClientSays(c, said).1) + rest));
            && stage.result.Ok? && stage.rest == rest
            && stage.result.value.server == S.Server(setup.crypto, setup.lookups(0, user).verifier, certHash)
            && Extracts(X.Exchange(c, stage.result.value.server, user, setup.serverNonce, salt, iterations), stage.result.value.key)
  {
    hide S.ClientFirst, S.ClientFinal, C.ClientFinal, C.VerifyServerFinal, X.MechanismName, X.Exchange, S.Mechanisms, X.ReadyFor,
      SaslResponse, InitialFields, InitialResponse, Message, Utf8.Encode, Utf8.Decode;
    var server := S.Server(setup.crypto, setup.lookups(0, user).verifier, certHash);
    var (initial, final) := ClientSays(c, said);
    var later := Message(TAG_PASSWORD, final) + rest;
    X.MechanismAccepted(c, server);
    NameHasNoNul(c);
    SaslResponseReadsBack(setup, initial, later);
    InitialResponseReadsBack(X.MechanismName(c), c.ClientFirst(), S.Mechanisms(certHash));
    SaslResponseReadsBack(setup, final, rest);
    Utf8.EncodeThenDecode(said.final);
    var session := S.ClientFirst(server, S.NEW_SESSION, X.MechanismName(c), c.ClientFirst(), user, setup.serverNonce).0;
    AcceptedHasKey(server, session, said.final, user);
  }

  lemma NameHasNoNul(c: C.Client)
    ensures '\0' !in X.MechanismName(c)
  {
  }

  /**
   * From the startup packet on: a client with acceptable parameters that says what an exchange with its stored verifier
   * calls for is served, whatever was negotiated before.
   */
  lemma HonestClientIsServed(
    setup: Setup, body: Bytes, ssl: bool, gss: bool, params: Params, opening: seq<Trace.Event>,
    c: C.Client, salt: Bytes, iterations: u32, said: Said, rest: Bytes)
    requires |body| + 8 <= setup.maxStartupBytes && |body| + 4 <= setup.maxCapacity && |body| + 8 < U32_LIMIT
    requires setup.requiredTls ==> ssl
    requires SessionParams(body, params).Ok?
    requires var user := UserOf(SessionParams(body, params).value);
             && setup.lookups(0, user).Found?
             && var server := S.Server(setup.crypto, setup.lookups(0, user).verifier, CertHashOf(setup, ssl));
                X.ReadyFor(c, server) && Exchanged(c, server, user, setup.serverNonce, salt, iterations, said)
    requires Fits(setup, ClientSays(c, said).0) && Fits(setup, ClientSays(c, said).1) && |Utf8.Encode(c.ClientFirst())| < I32_LIMIT
    ensures var says := Message(TAG_PASSWORD, ClientSays(c, said).0) + (Message(TAG_PASSWORD, ClientSays(c, said).1) + rest);
            var script := ScriptFrom(setup, StartupPacketOf(body) + says, ssl, gss, params, opening);
            && script.verdict.Serving? && script.verdict.params == SessionParams(body, params).value && script.verdict.opening == opening
            && var (e, user) := (script.verdict.evidence, UserOf(script.verdict.params));
               && e.server == S.Server(setup.crypto, setup.lookups(0, user).verifier, CertHashOf(setup, ssl))
               && Extracts(X.Exchange(c, e.server, user, setup.serverNonce, salt, iterations), e.key)
  {
    hide NextStep, SessionParams, Authenticate, Exchanged, X.ReadyFor, Fits, ClientSays, Message, StartupPacketOf, Spoken, X.Exchange, Extracts,
      S.ClientFirst, S.ClientFinal;
    SessionHasUser(body, params);
    var user := UserOf(SessionParams(body, params).value);
    HonestClientIsAccepted(setup, user, CertHashOf(setup, ssl), c, salt, iterations, said, rest);
    var says := Message(TAG_PASSWORD, ClientSays(c, said).0) + (Message(TAG_PASSWORD, ClientSays(c, said).1) + rest);
    StartupPacketReadsBack(setup, body, says, ssl, gss);
    SessionIsScripted(setup, StartupPacketOf(body) + says, body, says, ssl, gss, params, opening);
  }

  lemma SessionIsScripted(
    setup: Setup, input: Bytes, body: Bytes, rest: Bytes, ssl: bool, gss: bool, params: Params, opening: seq<Trace.Event>)
    requires NextStep(setup, input, ssl, gss) == Session(body, rest) && SessionParams(body, params).Ok?
    requires "user" in SessionParams(body, params).value
    ensures var (merged, script) := (SessionParams(body, params).value, ScriptFrom(setup, input, ssl, gss, params, opening));
            var stage := Authenticate(setup, Some(UserOf(merged)), CertHashOf(setup, ssl), rest);
            stage.result.Ok? ==> script.verdict == Serving(merged, stage.result.value, opening)
  {
    hide NextStep, SessionParams, Authenticate, Spoken;
  }

  /** A short frame for this link. */
  predicate Short(link: Link, f: Frame) {
    |f.body| <= link.maxCapacity && |f.body| + 4 < I32_LIMIT
  }

  lemma PrintAllFront(f: Frame, more: seq<Frame>)
    requires |f.body| + 4 < I32_LIMIT && AllShort(more)
    ensures AllShort([f] + more)
    ensures PrintAll([f] + more) == Print(f) + PrintAll(more)
  {
    assert [f][..0] == [];
    PrintAllConcat([f], more);
  }

  /** A handshake over messages that ask for nothing ends at their ReadyForQuery. */
  lemma {:induction false} QuietHandshake(link: Link, config: PgConfig, st: LinkState, frames: seq<Frame>, rest: Bytes)
    requires forall f <- frames :: Short(link, f) && (f.tag == TAG_AUTH ==> IsAuth(f, 0))
    requires AllShort(frames)
    requires EndsReady(frames) && st.input == PrintAll(frames) + rest
    ensures Handshake(link, config, st).Ok?
    ensures var end := Handshake(link, config, st).value;
            && end.verified == st.verified && end.notifications == st.notifications + Relay(frames)
            && end.input == rest && end.output == st.output
    decreases |frames|
  {
    hide Read, Print, PrintAll, Relay, LastKey, ParseStatus, FromBigEndian, SaslExchange, Harmless;
    var (f, more) := (frames[0], frames[1..]);
    assert frames == [f] + more && Short(link, f);
    PrintAllFront(f, more);
    RelayConcat([f], more);
    assert st.input == Print(f) + (PrintAll(more) + rest);
    PrintThenRead(f, PrintAll(more) + rest, link.maxCapacity);
    var read := st.(input := PrintAll(more) + rest);
    QuietMessage(link, config, read, f, |frames| == 1);
    if |frames| == 1 {
      assert more == [];
      NothingPrinted();
      assert PrintAll(more) + rest == rest;
    } else {
      assert EndsReady(more) by {
        assert forall i | 0 <= i < |more| - 1 :: more[i] == frames[i + 1];
      }
      QuietHandshake(link, config, OneMessage(link, config, read, f).value, more, rest);
    }
  }

  lemma QuietMessage(link: Link, config: PgConfig, st: LinkState, f: Frame, last: bool)
    requires f.tag == TAG_AUTH ==> IsAuth(f, 0)
    requires if last then f.tag == TAG_READY && f.body != [] else Harmless(f)
    ensures OneMessage(link, config, st, f).Ok? && (f.tag == TAG_READY <==> last)
    ensures var end := OneMessage(link, config, st, f).value;
            && end.input == st.input && end.output == st.output && end.verified == st.verified
            && end.notifications == st.notifications + Relay([f])
  {
    hide SaslExchange, ParseStatus, FromBigEndian;
    RelayedOne([], f, st.key);
    assert [] + [f] == [f];
  }

  /** An authentication message of the backend. */
  function AuthFrame(code: u32, data: Bytes): (f: Frame)
    ensures |f.body| == |data| + 4
  {
    Frame(TAG_AUTH, BigEndian(code) + data)
  }

  lemma IsAuthFrame(code: u32, data: Bytes)
    ensures IsAuth(AuthFrame(code, data), code) && AuthFrame(code, data).body[4..] == data
  {
    hide BigEndian, FromBigEndian;
    BigEndianRoundTrip(code);
    assert (BigEndian(code) + data)[..4] == BigEndian(code);
  }

  /** The link's backend asks for SASL, plays `server` in the exchange, then goes on with `frames`. */
  ghost predicate OpensHonestly(
    link: Link, config: PgConfig, server: S.Server, user: string, random: Bytes,
    mechanism: SaslMechanism, offers: Bytes, said: Said, frames: seq<Frame>, rest: Bytes)
  {
    && link.writes >= 3
    && SelectMechanism(config.channelBinding, link.peerCertHash.Some?, offers) == Ok(mechanism)
    && (mechanism.ScramSha256Plus? ==> link.peerCertHash.Some?)
    && Exchanged(SaslClient(link, config, link.nonces(0), mechanism), server, user, random, config.salt, config.iterations, said)
    && var (asks, challenges, signs) :=
         (AuthFrame(AUTH_SASL, offers), AuthFrame(AUTH_SASL_CONTINUE, Utf8.Encode(said.serverFirst)), AuthFrame(AUTH_SASL_FINAL, Utf8.Encode(said.serverFinal)));
       && Short(link, asks) && Short(link, challenges) && Short(link, signs)
       && (forall f <- frames :: Short(link, f) && (f.tag == TAG_AUTH ==> IsAuth(f, 0)))
       && AllShort(frames)
       && EndsReady(frames)
       && link.input == Print(asks) + (Print(challenges) + (Print(signs) + (PrintAll(frames) + rest)))
  }

  lemma AuthDataReadsBack(link: Link, code: u32, data: Bytes, rest: Bytes)
    requires Short(link, AuthFrame(code, data))
    ensures AuthData(link, Print(AuthFrame(code, data)) + rest, code) == Ok((data, rest))
  {
    hide Read, Print, IsAuth, AuthFrame;
    PrintThenRead(AuthFrame(code, data), rest, link.maxCapacity);
    IsAuthFrame(code, data);
    IsAuthTag(code, data);
  }

  lemma IsAuthTag(code: u32, data: Bytes)
    ensures AuthFrame(code, data).tag == TAG_AUTH
  {
  }

  /** The exchange itself succeeds. */
  lemma HonestExchange(
    link: Link, config: PgConfig, st: LinkState, server: S.Server, user: string, random: Bytes,
    mechanism: SaslMechanism, offers: Bytes, said: Said, rest: Bytes)
    requires SelectMechanism(config.channelBinding, link.peerCertHash.Some?, offers) == Ok(mechanism)
    requires mechanism.ScramSha256Plus? ==> link.peerCertHash.Some?
    requires Exchanged(SaslClient(link, config, link.nonces(st.exchanges), mechanism), server, user, random, config.salt, config.iterations, said)
    requires Short(link, AuthFrame(AUTH_SASL_CONTINUE, Utf8.Encode(said.serverFirst))) && Short(link, AuthFrame(AUTH_SASL_FINAL, Utf8.Encode(said.serverFinal)))
    requires st.input == Print(AuthFrame(AUTH_SASL_CONTINUE, Utf8.Encode(said.serverFirst)))
                         + (Print(AuthFrame(AUTH_SASL_FINAL, Utf8.Encode(said.serverFinal))) + rest)
    requires st.writesLeft >= 2
    ensures var r := SaslExchange(link, config, st, offers);
            && r.Ok? && r.value.input == rest && r.value.notifications == st.notifications
            && X.Exchange(SaslClient(link, config, link.nonces(st.exchanges), mechanism), server, user, random, config.salt, config.iterations)
                 .signatureVerified == Ok(r.value.verified)
  {
    hide AuthData, Message, InitialResponse, C.ClientFinal, C.VerifyServerFinal, S.ClientFirst, S.ClientFinal, SelectMechanism, Utf8.Decode,
      Utf8.Encode, SaslClient, AuthFrame, Print, X.Exchange, X.MechanismName;
    Utf8.EncodeThenDecode(said.serverFirst);
    Utf8.EncodeThenDecode(said.serverFinal);
    AuthDataReadsBack(link, AUTH_SASL_FINAL, Utf8.Encode(said.serverFinal), rest);
    AuthDataReadsBack(link, AUTH_SASL_CONTINUE, Utf8.Encode(said.serverFirst), Print(AuthFrame(AUTH_SASL_FINAL, Utf8.Encode(said.serverFinal))) + rest);
  }

  /** A link whose backend opens honestly comes up, verified as the exchange says, with its notifications. */
  lemma HonestBackendStarts(
    link: Link, config: PgConfig, server: S.Server, user: string, random: Bytes,
    mechanism: SaslMechanism, offers: Bytes, said: Said, frames: seq<Frame>, rest: Bytes)
    requires OpensHonestly(link, config, server, user, random, mechanism, offers, said, frames, rest)
    ensures var started := Start(link, config);
            && started.Ok? && started.value.notifications == Relay(frames)
            && X.Exchange(SaslClient(link, config, link.nonces(0), mechanism), server, user, random, config.salt, config.iterations)
                 .signatureVerified == Ok(started.value.verified)
  {
    hide Exchanged, X.Exchange, SaslClient, SaslExchange, SelectMechanism, EndsReady, PrintAll, Relay, IsAuth, StartupMessage, Read, Print,
      AuthFrame, OneMessage;
    var asks := AuthFrame(AUTH_SASL, offers);
    var later := Print(AuthFrame(AUTH_SASL_CONTINUE, Utf8.Encode(said.serverFirst)))
                 + (Print(AuthFrame(AUTH_SASL_FINAL, Utf8.Encode(said.serverFinal))) + (PrintAll(frames) + rest));
    var st := LinkState(link.input, StartupMessage(config), link.writes - 1, 0, [], None, None, false);
    var read := st.(input := later);
    ShortPrints(link, asks, later);
    IsAuthFrame(AUTH_SASL, offers);
    IsAuthTag(AUTH_SASL, offers);
    IsSaslRequest(link, config, read, asks);
    HonestExchange(link, config, read, server, user, random, mechanism, offers, said, PrintAll(frames) + rest);
    var next := SaslExchange(link, config, read, offers).value;
    QuietHandshake(link, config, next, frames, rest);
    assert [] + Relay(frames) == Relay(frames);
  }

  lemma ShortPrints(link: Link, f: Frame, rest: Bytes)
    requires Short(link, f)
    ensures |f.body| + 4 < I32_LIMIT && Read(Print(f) + rest, link.maxCapacity) == Ok((f, rest))
  {
    PrintThenRead(f, rest, link.maxCapacity);
  }

  /** Whatever the order of the parameters, the backend that is dialled with the credential `second` opens honestly. */
  ghost predicate DialsHonestly(
    setup: Setup, e: Evidence, second: Verifier, params: Params, server: S.Server, random: Bytes, writes: nat, pairs: seq<(string, string)>)
  {
    var config := ConfigFor(setup, e.key, second, UserOf(params), DatabaseOf(params), pairs);
    && setup.dial(config).Ok?
    && var link := setup.dial(config).value;
       exists mechanism: SaslMechanism, offers: Bytes, said: Said, frames: seq<Frame>, rest: Bytes ::
         && OpensHonestly(link, config, server, UserOf(params), random, mechanism, offers, said, frames, rest)
         && |Relay(frames)| + 2 <= writes
  }

  /**
   * An honest backend cooperates: a client that proved itself gets its session whenever the credential is still there,
   * the backend is reached and opens honestly, a cancel key is free and the client listens.
   */
  lemma HonestBackendCooperates(
    setup: Setup, e: Evidence, second: Verifier, params: Params, server: S.Server, random: Bytes, taken: set<Registry.SessionKeySecret>, writes: nat)
    requires setup.lookups(1, UserOf(params)) == Found(second) && setup.addressValid
    requires exists i: nat :: i < 64 && setup.candidates(i) !in taken
    requires forall pairs: seq<(string, string)> | Enumerates(pairs, params) :: DialsHonestly(setup, e, second, params, server, random, writes, pairs)
    ensures Cooperates(setup, e.key, params, taken, writes)
  {
    hide Enumerates, Start, OpensHonestly, Relay;
    forall pairs: seq<(string, string)> | Enumerates(pairs, params)
      ensures var started := Dialled(setup, e.key, second, params, pairs);
              started.Ok? && |started.value.notifications| + 2 <= writes
    {
      assert DialsHonestly(setup, e, second, params, server, random, writes, pairs);
      OneHonestDial(setup, e, second, params, server, random, writes, pairs);
    }
  }

  lemma OneHonestDial(
    setup: Setup, e: Evidence, second: Verifier, params: Params, server: S.Server, random: Bytes, writes: nat, pairs: seq<(string, string)>)
    requires DialsHonestly(setup, e, second, params, server, random, writes, pairs)
    ensures var started := Dialled(setup, e.key, second, params, pairs);
            started.Ok? && |started.value.notifications| + 2 <= writes
  {
    hide Start, OpensHonestly, Relay;
    var config := ConfigFor(setup, e.key, second, UserOf(params), DatabaseOf(params), pairs);
    var link := setup.dial(config).value;
    var mechanism: SaslMechanism, offers: Bytes, said: Said, frames: seq<Frame>, rest: Bytes :|
      && OpensHonestly(link, config, server, UserOf(params), random, mechanism, offers, said, frames, rest)
      && |Relay(frames)| + 2 <= writes;
    HonestBackendStarts(link, config, server, UserOf(params), random, mechanism, offers, said, frames, rest);
  }

  /** The messages such a backend needs exist: the exchange with a server that shares the credential finishes, verified. */
  lemma SharedCredentialExchanges(
    setup: Setup, user: string, e: Evidence, second: Verifier, database: string, pairs: seq<(string, string)>,
    link: Link, mechanism: SaslMechanism, server: S.Server, random: Bytes) returns (said: Said)
    requires user != "" && Holds(setup, user, e) && (second.password.Some? || setup.crypto.sha256(e.key) == second.storedKey)
    requires SharesCredential(server, setup.crypto, second, mechanism, link)
    ensures var config := ConfigFor(setup, e.key, second, user, database, pairs);
            && Exchanged(SaslClient(link, config, link.nonces(0), mechanism), server, user, random, config.salt, config.iterations, said)
            && X.Exchange(SaslClient(link, config, link.nonces(0), mechanism), server, user, random, config.salt, config.iterations)
                 .signatureVerified == Ok(true)
  {
    hide Exchanged, X.Exchange, SaslClient, FromPassword, Holds, SharesCredential;
    ProvedClientReachesItsBackend(setup, user, e, second, database, pairs, link, link.nonces(0), mechanism, server, random);
    PlusNeedsCertificate(server, setup.crypto, second, mechanism, link);
    var config := ConfigFor(setup, e.key, second, user, database, pairs);
    said := FinishedIsExchanged(SaslClient(link, config, link.nonces(0), mechanism), server, user, random, config.salt, config.iterations);
  }

  lemma HeldKeyIsStored(setup: Setup, user: string, e: Evidence)
    requires Holds(setup, user, e)
    ensures setup.crypto.sha256(e.key) == e.server.verifier.storedKey
  {
    hide Carries;
  }

  lemma PlusNeedsCertificate(server: S.Server, crypto: Crypto, verifier: Verifier, mechanism: SaslMechanism, link: Link)
    requires SharesCredential(server, crypto, verifier, mechanism, link)
    ensures mechanism.ScramSha256Plus? ==> link.peerCertHash.Some?
  {
  }

  /** A client that knows a password, under the plain or the bound mechanism. */
  function PasswordClient(server: S.Server, password: Bytes, nonce: C.Nonce, plus: bool): C.Client
    requires plus ==> server.certHash.Some?
  {
    X.Created(C.NewClient(server.crypto, None, None, None, Some(password), nonce), server, plus)
  }

  /** The store holds what the password derives, with or without the password itself. */
  predicate StoreHolds(setup: Setup, user: string, verifier: Verifier, password: Bytes) {
    && setup.lookups(0, user) == Found(verifier)
    && verifier.(password := Some(password)) == FromPassword(setup.crypto, password, verifier.salt, verifier.iterations)
  }

  /** When it is asked again it holds the password, under whatever salt, or still the same secret. */
  predicate StillHolds(setup: Setup, user: string, verifier: Verifier, second: Verifier, password: Bytes) {
    && setup.lookups(1, user) == Found(second)
    && (if second.password.Some? then second.password == Some(password) else second.storedKey == verifier.storedKey)
  }

  /** The client sends its startup packet, then what the exchange it is challenged to calls for, then `rest`. */
  ghost predicate ClientPlays(setup: Setup, body: Bytes, input: Bytes, c: C.Client, server: S.Server, user: string, rest: Bytes) {
    && |body| + 8 <= setup.maxStartupBytes && |body| + 4 <= setup.maxCapacity && |body| + 8 < U32_LIMIT
    && |Utf8.Encode(c.ClientFirst())| < I32_LIMIT
    && forall said | Exchanged(c, server, user, setup.serverNonce, [], 0, said) ::
         && Fits(setup, ClientSays(c, said).0) && Fits(setup, ClientSays(c, said).1)
         && input == StartupPacketOf(body)
                     + (Message(TAG_PASSWORD, ClientSays(c, said).0) + (Message(TAG_PASSWORD, ClientSays(c, said).1) + rest))
  }

  /** The backend shares the credential and plays `server` in the exchange its link opens. */
  ghost predicate PlaysServer(
    link: Link, config: PgConfig, crypto: Crypto, verifier: Verifier, server: S.Server, random: Bytes,
    mechanism: SaslMechanism, offers: Bytes, frames: seq<Frame>, rest: Bytes)
  {
    && SharesCredential(server, crypto, verifier, mechanism, link)
    && forall said | Exchanged(SaslClient(link, config, link.nonces(0), mechanism), server, config.user, random, config.salt, config.iterations, said) ::
         OpensHonestly(link, config, server, config.user, random, mechanism, offers, said, frames, rest)
  }

  /** Such a backend answers when it is dialled with the parameters in this order, and `writes` are enough to show it. */
  ghost predicate BackendPlays(
    setup: Setup, key: Key, verifier: Verifier, params: Params, server: S.Server, random: Bytes, writes: nat, pairs: seq<(string, string)>)
  {
    var config := ConfigFor(setup, key, verifier, UserOf(params), DatabaseOf(params), pairs);
    && setup.dial(config).Ok?
    && exists mechanism: SaslMechanism, offers: Bytes, frames: seq<Frame>, rest: Bytes ::
         && PlaysServer(setup.dial(config).value, config, setup.crypto, verifier, server, random, mechanism, offers, frames, rest)
         && |Relay(frames)| + 2 <= writes
  }

  /** It does so for every order, at a valid address, and a cancel key is free. */
  ghost predicate BackendAwaits(
    setup: Setup, key: Key, verifier: Verifier, params: Params, server: S.Server, random: Bytes, taken: set<Registry.SessionKeySecret>, writes: nat)
  {
    && setup.addressValid
    && (exists i: nat :: i < 64 && setup.candidates(i) !in taken)
    && forall pairs: seq<(string, string)> | Enumerates(pairs, params) ::
         BackendPlays(setup, key, verifier, params, server, random, writes, pairs)
  }

  /** The password's client is served from its startup packet on, with the key of its password. */
  lemma PasswordClientIsServed(
    setup: Setup, body: Bytes, input: Bytes, ssl: bool, gss: bool, opening: seq<Trace.Event>,
    verifier: Verifier, password: Bytes, nonce: C.Nonce, plus: bool, rest: Bytes)
    requires SessionParams(body, map[]).Ok? && (setup.requiredTls ==> ssl) && (plus ==> CertHashOf(setup, ssl).Some?)
    requires StoreHolds(setup, UserOf(SessionParams(body, map[]).value), verifier, password)
    requires var server := S.Server(setup.crypto, verifier, CertHashOf(setup, ssl));
             ClientPlays(setup, body, input, PasswordClient(server, password, nonce, plus), server,
                         UserOf(SessionParams(body, map[]).value), rest)
    ensures var script := ScriptFrom(setup, input, ssl, gss, map[], opening);
            && script.verdict.Serving? && script.verdict.params == SessionParams(body, map[]).value && script.verdict.opening == opening
            && script.verdict.evidence.server == S.Server(setup.crypto, verifier, CertHashOf(setup, ssl))
            && script.verdict.evidence.key == ClientKey(setup.crypto, password, verifier.salt, verifier.iterations)
  {
    hide ScriptFrom, SessionParams, Exchanged, Fits, ClientSays, Message, StartupPacketOf, X.Exchange, X.ReadyFor, FromPassword, ClientKey,
      C.NewClient, Utf8.Encode;
    SessionHasUser(body, map[]);
    var user := UserOf(SessionParams(body, map[]).value);
    var server := S.Server(setup.crypto, verifier, CertHashOf(setup, ssl));
    var c := PasswordClient(server, password, nonce, plus);
    X.CreatedIsReady(setup.crypto, None, None, None, Some(password), nonce, server, plus);
    X.PasswordCompletes(None, None, None, password, nonce, server, user, plus, setup.serverNonce, [], 0);
    var said := FinishedIsExchanged(c, server, user, setup.serverNonce, [], 0);
    HonestClientIsServed(setup, body, ssl, gss, map[], opening, c, [], 0, said, rest);
  }

  /** A backend that plays its part when dialled opens honestly. */
  lemma PlayedIsHonest(
    setup: Setup, e: Evidence, second: Verifier, params: Params, server: S.Server, random: Bytes, writes: nat,
    pairs: seq<(string, string)>, password: Bytes)
    requires UserOf(params) != "" && Holds(setup, UserOf(params), e)
    requires StillHolds(setup, UserOf(params), e.server.verifier, second, password)
    requires BackendPlays(setup, e.key, second, params, server, random, writes, pairs)
    ensures DialsHonestly(setup, e, second, params, server, random, writes, pairs)
  {
    hide Holds, OpensHonestly, Relay, SharesCredential, FromPassword, Exchanged, X.Exchange, SaslClient;
    var config := ConfigFor(setup, e.key, second, UserOf(params), DatabaseOf(params), pairs);
    var link := setup.dial(config).value;
    var mechanism: SaslMechanism, offers: Bytes, frames: seq<Frame>, rest: Bytes :|
      && PlaysServer(link, config, setup.crypto, second, server, random, mechanism, offers, frames, rest)
      && |Relay(frames)| + 2 <= writes;
    HeldKeyIsStored(setup, UserOf(params), e);
    var said := SharedCredentialExchanges(setup, UserOf(params), e, second, DatabaseOf(params), pairs, link, mechanism, server, random);
    assert OpensHonestly(link, config, server, UserOf(params), random, mechanism, offers, said, frames, rest);
  }

  /**
   * Everyone honest: a client that knows the password, a store that holds what it derives, a backend that shares the
   * credential and plays the server, whatever the order of the parameters, a free cancel key and enough writes. The
   * client is served, and all its session needs of others is there.
   */
  lemma HonestPeersMeet(
    setup: Setup, body: Bytes, input: Bytes, ssl: bool, gss: bool, opening: seq<Trace.Event>,
    verifier: Verifier, second: Verifier, password: Bytes, nonce: C.Nonce, plus: bool, rest: Bytes,
    server: S.Server, random: Bytes, taken: set<Registry.SessionKeySecret>, writes: nat)
    requires SessionParams(body, map[]).Ok? && (setup.requiredTls ==> ssl) && (plus ==> CertHashOf(setup, ssl).Some?)
    requires Replies(opening) && (Trace.SslReply(true) in opening || Trace.SslReply(false) in opening ==> ssl)
    requires StoreHolds(setup, UserOf(SessionParams(body, map[]).value), verifier, password)
    requires StillHolds(setup, UserOf(SessionParams(body, map[]).value), verifier, second, password)
    requires var front := S.Server(setup.crypto, verifier, CertHashOf(setup, ssl));
             ClientPlays(setup, body, input, PasswordClient(front, password, nonce, plus), front,
                         UserOf(SessionParams(body, map[]).value), rest)
    requires BackendAwaits(setup, ClientKey(setup.crypto, password, verifier.salt, verifier.iterations), second,
                           SessionParams(body, map[]).value, server, random, taken, writes)
    ensures var script := ScriptFrom(setup, input, ssl, gss, map[], opening);
            && script.verdict.Serving? && script.verdict.opening == opening && |script.events| == |opening| + 4
            && Cooperates(setup, script.verdict.evidence.key, script.verdict.params, taken, writes)
  {
    hide ScriptFrom, SessionParams, ClientPlays, BackendAwaits, Holds, ClientKey, StoreHolds, StillHolds, Cooperates;
    PasswordClientIsServed(setup, body, input, ssl, gss, opening, verifier, password, nonce, plus, rest);
    SessionHasUser(body, map[]);
    ServedIsProved(setup, input, ssl, gss, map[], opening);
    var script := ScriptFrom(setup, input, ssl, gss, map[], opening);
    var (params, e) := (script.verdict.params, script.verdict.evidence);
    AwaitedIsHonest(setup, e, second, params, server, random, taken, writes, password);
  }

  lemma AwaitedIsHonest(
    setup: Setup, e: Evidence, second: Verifier, params: Params, server: S.Server, random: Bytes,
    taken: set<Registry.SessionKeySecret>, writes: nat, password: Bytes)
    requires UserOf(params) != "" && Holds(setup, UserOf(params), e)
    requires StillHolds(setup, UserOf(params), e.server.verifier, second, password)
    requires BackendAwaits(setup, e.key, second, params, server, random, taken, writes)
    ensures Cooperates(setup, e.key, params, taken, writes)
  {
    hide Holds, BackendPlays, DialsHonestly, Enumerates, FromPassword, Cooperates;
    forall pairs: seq<(string, string)> | Enumerates(pairs, params)
      ensures DialsHonestly(setup, e, second, params, server, random, writes, pairs)
    {
      PlayedIsHonest(setup, e, second, params, server, random, writes, pairs, password);
    }
    HonestBackendCooperates(setup, e, second, params, server, random, taken, writes);
  }
}
