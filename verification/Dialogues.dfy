/** What a client connection does, as functions of what the client sends: negotiation, authentication, and the script of both. */
module Dialogues {
  import opened Prelude
  import opened ProxyErrors
  import opened Packet
  import opened StartupPacket
  import opened BackendLinks
  import opened ChannelBinding
  import opened Verifiers
  import opened Trace
  import BackendErrors
  import Frames
  import Options
  import Registry
  import S = ScramServer
  import Sound = ScramSoundness
  import Utf8

  datatype Lookup = Found(verifier: Verifier) | Unknown | Unavailable

  /** `decrypted` is what the client sends once the TLS handshake is done; `None` when the handshake fails. */
  datatype FrontendTls = FrontendTls(certHash: Option<CertHash>, decrypted: Option<Bytes>)

  type ServerNonce = b: Bytes | |b| == 32 witness seq(32, _ => 0)

  /** Why no link came about; no backend has said anything yet. */
  type DialError = e: BackendErrors.PgError | !e.Backend? witness BackendErrors.Io

  /** Everything a connection is given from outside: configuration, randomness, credential store, both peers. */
  datatype Setup = Setup(
    crypto: Crypto,
    clusterNonce: Bytes,
    maxStartupBytes: nat,
    maxCapacity: nat,
    requiredTls: bool,
    frontendTls: Option<FrontendTls>,
    lookups: (nat, string) -> Lookup,
    serverNonce: ServerNonce,
    candidates: nat -> Registry.SessionKeySecret,
    addressValid: bool,
    channelBinding: ChannelBindingMode,
    dial: PgConfig -> Result<Link, DialError>,
    input: Bytes,
    writes: nat)

  /** Why authentication was refused, in words the client gets to read. */
  datatype Rejection =
    | Scram(scram: S.ScramError)
    | StoreUnavailable
    | NoUser
    | InvalidMessage(text: string)
  {
    function Code(): string {
      match this
      case Scram(error) => error.Code()
      case StoreUnavailable => "08006"
      case NoUser => "28P01"
      case InvalidMessage(_) => "08P01"
    }

    function Text(): string {
      match this
      case Scram(error) => error.Message()
      case StoreUnavailable => "credential store temporarily unavailable"
      case NoUser => "password authentication failed for user"
      case InvalidMessage(text) => text
    }
  }

  function FailureEvent(error: ConnectionError): Event {
    Error(error.Code(), error.Message())
  }

  function RefusalEvent(rejection: Rejection): Event {
    Error(rejection.Code(), rejection.Text())
  }

  datatype AuthFailure = Rejected(rejection: Rejection) | InternalFailure

  /** The evidence behind an AuthenticationOk: what the client sent, the two messages in it, and what they proved. */
  datatype Evidence = Evidence(
    server: S.Server,
    input: Bytes,
    rest: Bytes,
    first: Sound.Call,
    final: Sound.Call,
    serverFirst: string,
    serverFinal: string,
    key: Key)

  /** The client's two messages are the next two password messages of `input`. */
  predicate Carries(setup: Setup, user: string, e: Evidence) {
    && e.first.First? && e.first.user == user && e.first.serverNonce == setup.serverNonce
    && e.final.Final? && e.final.user == user
    && SaslResponse(setup, e.input).Ok?
    && var (initial, middle) := SaslResponse(setup, e.input).value;
       && InitialFields(initial, S.Mechanisms(e.server.certHash)) == Ok((e.first.mechanism, e.first.message))
       && SaslResponse(setup, middle).Ok?
       && var (final, rest) := SaslResponse(setup, middle).value;
          Utf8.Decode(final) == Some(e.final.message) && e.rest == rest
  }

  /**
   * The evidence is a completed exchange over the verifier the store returned for `user` and the nonce drawn for this
   * connection, and its client messages are those the client sent.
   */
  ghost predicate Holds(setup: Setup, user: string, e: Evidence) {
    && Carries(setup, user, e)
    && setup.lookups(0, user) == Found(e.server.verifier)
    && e.server.crypto == setup.crypto
    && !e.server.verifier.dummy
    && setup.crypto.sha256(e.key) == e.server.verifier.storedKey
    && var opened' := Sound.Respond(e.server, S.NEW_SESSION, e.first);
       var closed := Sound.Respond(e.server, opened'.0, e.final);
       && opened'.1 == Ok(e.serverFirst)
       && closed.1 == Ok(e.serverFinal)
       && closed.0.extractedClientKey == Some(e.key)
  }

  /** What a client sees of a successful authentication. */
  function Greeting(certHash: Option<CertHash>, e: Evidence): seq<Event> {
    [Sasl(S.Mechanisms(certHash)), SaslContinue(e.serverFirst), SaslFinal(e.serverFinal), AuthenticationOk]
  }

  function Notes(notifications: seq<StartupNotification>): seq<Event> {
    if notifications == [] then []
    else Notes(notifications[..|notifications| - 1]) + [Notification(notifications[|notifications| - 1])]
  }

  /** The next startup packet and what follows it, or why there is none. */
  function NextPacket(setup: Setup, input: Bytes): Result<(Bytes, Bytes), ProxyError> {
    if |input| < 4 then Err(Internal)
    else
      var length := FromBigEndian(input[..4]);
      if length < 4 then Err(Connection(InvalidMessageLength))
      else if length > setup.maxStartupBytes then Err(Connection(FirstMessageTooBig))
      else if length == 4 then Err(Connection(EmptyMessageBody))
      else if length - 4 > setup.maxCapacity then Err(Connection(MessageTooLarge))
      else if |input| < length then Err(Internal)
      else Ok((input[4..length], input[length..]))
  }

  /** The body of the client's next SASL message and what follows it. */
  function SaslResponse(setup: Setup, input: Bytes): Result<(Bytes, Bytes), AuthFailure> {
    if input == [] then Err(InternalFailure)
    else if input[0] != TAG_PASSWORD then Err(Rejected(InvalidMessage("Invalid Message")))
    else if |input| < 5 then Err(InternalFailure)
    else
      var length := FromBigEndian(input[1..5]);
      if length < 4 then Err(InternalFailure)
      else if length < 8 then Err(Rejected(InvalidMessage("message length too short")))
      else if length - 4 > setup.maxCapacity || |input| < length + 1 then Err(InternalFailure)
      else Ok((input[5..length + 1], input[length + 1..]))
  }

  /** The mechanism and the client-first message of a SASLInitialResponse. */
  function InitialFields(body: Bytes, mechanisms: seq<string>): Result<(string, string), AuthFailure> {
    match ReadCString(body)
    case Err(_) => Err(InternalFailure)
    case Ok((mechanism, rest)) =>
      if mechanism !in mechanisms then Err(Rejected(InvalidMessage("invalid mechanism")))
      else if |rest| < 4 then Err(InternalFailure)
      else
        var length := FromBigEndian(rest[..4]);
        if length >= Frames.I32_LIMIT || |rest| - 4 < length then Err(Rejected(InvalidMessage("Invalid message")))
        else
          match Utf8.Decode(rest[4..][..length])
          case None => Err(Rejected(InvalidMessage("Invalid message")))
          case Some(message) => Ok((mechanism, message))
  }

  /** What the client role prints as a SASL message, the server role reads. */
  lemma SaslResponseReadsBack(setup: Setup, body: Bytes, rest: Bytes)
    requires 4 <= |body| <= setup.maxCapacity && |body| + 4 < U32_LIMIT
    ensures SaslResponse(setup, Message(TAG_PASSWORD, body) + rest) == Ok((body, rest))
  {
    hide BigEndian, FromBigEndian;
    var input := Message(TAG_PASSWORD, body) + rest;
    BigEndianRoundTrip(|body| + 4);
    assert input[1..5] == BigEndian(|body| + 4);
    assert input[5..|body| + 5] == body && input[|body| + 5..] == rest;
  }

  /** And so is the SASLInitialResponse, when its mechanism was offered. */
  lemma InitialResponseReadsBack(mechanism: string, clientFirst: string, mechanisms: seq<string>)
    requires mechanism in mechanisms && '\0' !in mechanism && |Utf8.Encode(clientFirst)| < Frames.I32_LIMIT
    ensures InitialFields(InitialResponse(mechanism, clientFirst), mechanisms) == Ok((mechanism, clientFirst))
  {
    hide BigEndian, FromBigEndian, CString, ReadCString, Utf8.Encode, Utf8.Decode;
    var first := Utf8.Encode(clientFirst);
    var rest := BigEndian(|first|) + first;
    assert InitialResponse(mechanism, clientFirst) == CString(mechanism) + rest;
    CStringReadsBack(mechanism, rest);
    BigEndianRoundTrip(|first|);
    Utf8.EncodeThenDecode(clientFirst);
    assert rest[..4] == BigEndian(|first|) && rest[4..] == first && first[..|first|] == first;
  }

  /** The parameters of a startup packet's body, or why the session is refused. */
  function SessionParams(body: Bytes, params: Params): Result<Params, ProxyError> {
    match ParseParams(body, params)
    case Err(error) => Err(error)
    case Ok(parsed) =>
      match MergeOptions(parsed)
      case Err(error) => Err(error)
      case Ok(merged) =>
        if "user" !in merged || merged["user"] == "" then Err(Connection(MissingUser))
        else if "replication" in merged && Options.ParseReplicationMode(merged["replication"]).Err? then Err(Connection(InvalidData))
        else Ok(merged)
  }

  /** How the backend is dialled for an authenticated client: its own key, the verifier's keys, its parameters. */
  function ConfigFor(setup: Setup, clientKey: Key, verifier: Verifier, user: string, database: string, pairs: seq<(string, string)>): PgConfig {
    PgConfig(
      Some(clientKey), Some(verifier.serverKey), Some(verifier.storedKey), verifier.password, user, database,
      setup.channelBinding, verifier.salt, verifier.iterations, pairs)
  }

  /** Nothing but answers to SSL and GSS requests. */
  predicate Replies(events: seq<Event>) {
    forall event <- events :: event.SslReply? || event.GssReply?
  }

  /** What one part of the dialogue says, what input it leaves, and how it ends. */
  datatype Stage<+T> = Stage(events: seq<Event>, rest: Bytes, result: Result<T, AuthFailure>)

  datatype OfferTaken = OfferTaken(first: Sound.Call, session: S.Session, serverFirst: string)

  datatype Proven = Proven(final: Sound.Call, closed: S.Session, serverFinal: string)

  /** Offer the mechanisms, read the client's first message, challenge it. */
  function Offer(setup: Setup, server: S.Server, user: string, input: Bytes): Stage<OfferTaken> {
    var mechanisms := S.Mechanisms(server.certHash);
    match SaslResponse(setup, input)
    case Err(error) => Stage([Sasl(mechanisms)], input, Err(error))
    case Ok((body, rest)) =>
      match InitialFields(body, mechanisms)
      case Err(error) => Stage([Sasl(mechanisms)], rest, Err(error))
      case Ok((mechanism, message)) =>
        var first := Sound.First(mechanism, message, user, setup.serverNonce);
        var (session, reply) := Sound.Respond(server, S.NEW_SESSION, first);
        match reply
        case Err(error) => Stage([Sasl(mechanisms)], rest, Err(Rejected(Scram(error))))
        case Ok(serverFirst) => Stage([Sasl(mechanisms), SaslContinue(serverFirst)], rest, Ok(OfferTaken(first, session, serverFirst)))
  }

  /** Read the client's proof and answer it with the server's signature. */
  function Prove(setup: Setup, server: S.Server, session: S.Session, user: string, input: Bytes): Stage<Proven> {
    match SaslResponse(setup, input)
    case Err(error) => Stage([], input, Err(error))
    case Ok((body, rest)) =>
      match Utf8.Decode(body)
      case None => Stage([], rest, Err(Rejected(InvalidMessage("malformed SCRAM message"))))
      case Some(message) =>
        var final := Sound.Final(message, user);
        var (closed, reply) := Sound.Respond(server, session, final);
        match reply
        case Err(error) => Stage([], rest, Err(Rejected(Scram(error))))
        case Ok(serverFinal) => Stage([SaslFinal(serverFinal)], rest, Ok(Proven(final, closed, serverFinal)))
  }

  /** The stored verifier of a known user, a stand-in for an unknown one. */
  function VerifierFor(setup: Setup, user: string): Result<Verifier, AuthFailure> {
    match setup.lookups(0, user)
    case Found(verifier) => Ok(verifier)
    case Unknown => Ok(Dummy(setup.crypto, user, setup.clusterNonce))
    case Unavailable => Err(Rejected(StoreUnavailable))
  }

  lemma AcceptedHasKey(server: S.Server, session: S.Session, message: string, user: string)
    ensures S.ClientFinal(server, session, message, user).1.Ok? ==> S.ClientFinal(server, session, message, user).0.extractedClientKey.Some?
  {
    hide S.CheckFinal, S.RecoveredKey, S.ServerFinal;
  }

  /** The whole SASL dialogue with a client that starts at `input`. */
  function Authenticate(setup: Setup, user: Option<string>, certHash: Option<CertHash>, input: Bytes): Stage<Evidence> {
    if user.None? || user.value == "" then Stage([], input, Err(Rejected(NoUser)))
    else
      match VerifierFor(setup, user.value)
      case Err(error) => Stage([], input, Err(error))
      case Ok(verifier) => Exchange(setup, S.Server(setup.crypto, verifier, certHash), user.value, input)
  }

  function Exchange(setup: Setup, server: S.Server, user: string, input: Bytes): Stage<Evidence> {
    var offered := Offer(setup, server, user, input);
    match offered.result
    case Err(error) => Stage(offered.events, offered.rest, Err(error))
    case Ok(OfferTaken(first, session, serverFirst)) =>
      var proved := Prove(setup, server, session, user, offered.rest);
      match proved.result
      case Err(error) => Stage(offered.events + proved.events, proved.rest, Err(error))
      case Ok(Proven(final, closed, serverFinal)) =>
        match closed.extractedClientKey
        case None => Stage(offered.events + proved.events, proved.rest, Err(InternalFailure))
        case Some(key) =>
          Stage(offered.events + proved.events + [AuthenticationOk], proved.rest,
                Ok(Evidence(server, input, proved.rest, first, final, serverFirst, serverFinal, key)))
  }

  /** All the client hears of a dialogue: a refusal is reported, an internal failure is not. */
  function Spoken<T>(stage: Stage<T>): seq<Event> {
    if stage.result.Err? && stage.result.error.Rejected? then stage.events + [RefusalEvent(stage.result.error.rejection)] else stage.events
  }

  /** A proof the server accepted always comes with its key. */
  lemma ProofHasKey(setup: Setup, server: S.Server, session: S.Session, user: string, input: Bytes)
    ensures var proved := Prove(setup, server, session, user, input);
            proved.result.Ok? ==> proved.result.value.closed.extractedClientKey.Some?
  {
    hide SaslResponse, S.ClientFinal, Utf8.Decode;
    if Prove(setup, server, session, user, input).result.Ok? {
      AcceptedHasKey(server, session, Prove(setup, server, session, user, input).result.value.final.message, user);
    }
  }

  /** An accepted dialogue is evidence, in the client's own words, and could not have been one over a stand-in verifier. */
  lemma AcceptedIsEvidence(setup: Setup, user: string, certHash: Option<CertHash>, input: Bytes)
    requires Authenticate(setup, Some(user), certHash, input).result.Ok?
    ensures var stage := Authenticate(setup, Some(user), certHash, input);
            var e := stage.result.value;
            && Holds(setup, user, e)
            && e.input == input && e.rest == stage.rest && e.server.certHash == certHash
            && stage.events == Greeting(certHash, e)
  {
    hide SaslResponse, InitialFields, Utf8.Decode, S.ClientFirst, S.ClientFinal, S.Mechanisms, Dummy;
    var e := Authenticate(setup, Some(user), certHash, input).result.value;
    var session := Sound.Respond(e.server, S.NEW_SESSION, e.first).0;
    AcceptedIsProof(e.server, session, e.final.message, user);
    DummyIsDummy(setup.crypto, user, setup.clusterNonce);
  }

  lemma DummyIsDummy(crypto: Crypto, user: string, nonce: Bytes)
    ensures Dummy(crypto, user, nonce).dummy
  {
  }

  lemma AcceptedIsProof(server: S.Server, session: S.Session, message: string, user: string)
    requires S.ClientFinal(server, session, message, user).1.Ok?
    ensures !server.verifier.dummy
    ensures var closed := S.ClientFinal(server, session, message, user).0;
            closed.extractedClientKey.Some? && server.crypto.sha256(closed.extractedClientKey.value) == server.verifier.storedKey
  {
    hide S.CheckFinal, S.RecoveredKey, S.ServerFinal;
  }

  function CertHashOf(setup: Setup, ssl: bool): Option<CertHash> {
    if ssl && setup.frontendTls.Some? then setup.frontendTls.value.certHash else None
  }

  /** The body of a CancelRequest. */
  type CancelBody = b: Bytes | |b| == 8 witness seq(8, _ => 0)

  /** The secret a CancelRequest body names. */
  function Requested(request: CancelBody): Registry.SessionKeySecret {
    Registry.SessionKeySecret(FromBigEndian(request[..4]), FromBigEndian(request[4..]))
  }

  /** Binding is offered over TLS alone, and then as the certificate allows. */
  lemma BindingNeedsTls(setup: Setup, ssl: bool, user: string, input: Bytes)
    requires user != "" && !setup.lookups(0, user).Unavailable?
    ensures var bindable := ssl && setup.frontendTls.Some? && setup.frontendTls.value.certHash.Some?;
            var stage := Authenticate(setup, Some(user), CertHashOf(setup, ssl), input);
            stage.events != []
            && stage.events[0] == Sasl(if bindable then ["-PLUS", "SCRAM-SHA-256"] else ["SCRAM-SHA-256"])
  {
    hide SaslResponse, InitialFields, Sound.Respond, Prove, Dummy;
    var offered := Offer(setup, S.Server(setup.crypto, VerifierFor(setup, user).value, CertHashOf(setup, ssl)), user, input);
    assert offered.events != [] && offered.events[0] == Sasl(S.Mechanisms(CertHashOf(setup, ssl)));
  }

  /** What one packet of the negotiation leads to. */
  datatype Step =
    | Failure(error: ProxyError)
    | Closed(request: CancelBody)
    | Reply(event: Event, input: Bytes, ssl: bool, gss: bool)
    | Broken(event: Event)
    | Session(body: Bytes, input: Bytes)

  function NextStep(setup: Setup, input: Bytes, ssl: bool, gss: bool): Step {
    match NextPacket(setup, input)
    case Err(error) => Failure(error)
    case Ok((packet, rest)) =>
      if |packet| < 4 then Failure(Connection(InvalidMessageLength))
      else StepOf(setup, FromBigEndian(packet[..4]), packet[4..], rest, ssl, gss)
  }

  /** The step a packet calls for by its code; `body` is what follows the code, `rest` what follows the packet. */
  function StepOf(setup: Setup, code: u32, body: Bytes, rest: Bytes, ssl: bool, gss: bool): Step {
    if code == SSL_REQUEST_CODE then
      if ssl then Failure(Connection(TlsAlreadyDone))
      else if setup.frontendTls.None? then Reply(SslReply(false), rest, true, gss)
      else if setup.frontendTls.value.decrypted.None? then Broken(SslReply(true))
      else Reply(SslReply(true), setup.frontendTls.value.decrypted.value, true, gss)
    else if code == GSSENC_REQUEST_CODE then
      if gss then Failure(Connection(GssAlreadyDone)) else Reply(GssReply, rest, ssl, true)
    else if code == CANCEL_REQUEST_CODE then
      if |body| == 8 then Closed(body) else Failure(Connection(InvalidMessageLength))
    else if code != PROTOCOL_VERSION_NUMBER then Failure(Connection(UnsupportedProtocol(code)))
    else if setup.requiredTls && !ssl then Failure(Connection(TlsRequired))
    else Session(body, rest)
  }

  /** How a script ends: with the driver's result, with a session to cancel, or with a client to open a session for. */
  datatype Verdict =
    | Stopped(result: Result<bool, ()>)
    | Cancelling(request: CancelBody)
    | Serving(params: Params, evidence: Evidence, opening: seq<Event>)

  /** Everything a client hears before its session is opened, when every write succeeds. */
  datatype Script = Script(events: seq<Event>, verdict: Verdict)

  /** A failure the client may hear of is told; any other ends the connection without a word. */
  function Told(before: seq<Event>, error: ProxyError): Script {
    match error
    case Internal => Script(before, Stopped(Err(())))
    case Connection(e) => Script(before + [FailureEvent(e)], Stopped(Ok(false)))
  }

  /** What a startup packet leads to. */
  function SessionScript(setup: Setup, body: Bytes, params: Params, input: Bytes, ssl: bool, opening: seq<Event>): Script {
    match SessionParams(body, params)
    case Err(error) => Told(opening, error)
    case Ok(merged) =>
      var stage := Authenticate(setup, if "user" in merged then Some(merged["user"]) else None, CertHashOf(setup, ssl), input);
      Script(opening + Spoken(stage),
             match stage.result
             case Ok(e) => Serving(merged, e, opening)
             case Err(Rejected(_)) => Stopped(Ok(false))
             case Err(InternalFailure) => Stopped(Err(())))
  }

  /** What everything the client sends leads to, at most three packets of it. */
  function ScriptFrom(setup: Setup, input: Bytes, ssl: bool, gss: bool, params: Params, opening: seq<Event>): Script
    decreases if ssl then 0 else 1, if gss then 0 else 1
  {
    match NextStep(setup, input, ssl, gss)
    case Failure(error) => Told(opening, error)
    case Closed(request) => Script(opening, Cancelling(request))
    case Reply(event, input', ssl', gss') => ScriptFrom(setup, input', ssl', gss', params, opening + [event])
    case Broken(event) => Script(opening + [event], Stopped(Err(())))
    case Session(body, input') => SessionScript(setup, body, params, input', ssl, opening)
  }

  /** A script says everything it has said so far, and more. */
  lemma {:induction false} ScriptExtends(setup: Setup, input: Bytes, ssl: bool, gss: bool, params: Params, opening: seq<Event>)
    ensures opening <= ScriptFrom(setup, input, ssl, gss, params, opening).events
    decreases if ssl then 0 else 1, if gss then 0 else 1
  {
    hide NextPacket, SessionParams, Authenticate, FromBigEndian, Spoken;
    match NextStep(setup, input, ssl, gss) {
      case Reply(event, input', ssl', gss') => ScriptExtends(setup, input', ssl', gss', params, opening + [event]);
      case _ =>
    }
  }

  /** Whoever is served has been authenticated in their own words, over the connection as it was negotiated. */
  lemma {:induction false} ServedIsProved(setup: Setup, input: Bytes, ssl: bool, gss: bool, params: Params, opening: seq<Event>)
    requires ScriptFrom(setup, input, ssl, gss, params, opening).verdict.Serving?
    requires Replies(opening) && (SslReply(true) in opening || SslReply(false) in opening ==> ssl)
    ensures var script := ScriptFrom(setup, input, ssl, gss, params, opening);
            var (merged, e, before) := (script.verdict.params, script.verdict.evidence, script.verdict.opening);
            && "user" in merged && merged["user"] != "" && Holds(setup, merged["user"], e)
            && Replies(before) && opening <= before
            && script.events == before + Greeting(e.server.certHash, e)
            && (setup.requiredTls && !ssl ==> SslReply(setup.frontendTls.Some?) in before)
            && e.server.certHash == CertHashOf(setup, ssl || SslReply(true) in before || SslReply(false) in before)
            && (setup.frontendTls.None? || !(ssl || SslReply(true) in before || SslReply(false) in before) ==> e.server.certHash == None)
            && (setup.frontendTls.Some? && (ssl || SslReply(true) in before) ==> e.server.certHash == setup.frontendTls.value.certHash)
    decreases if ssl then 0 else 1, if gss then 0 else 1
  {
    hide NextPacket, SessionParams, Authenticate, FromBigEndian, Holds, Greeting, Spoken;
    match NextStep(setup, input, ssl, gss) {
      case Reply(event, input', ssl', gss') =>
        ServedIsProved(setup, input', ssl', gss', params, opening + [event]);
        assert event in opening + [event];
      case Session(body, input') =>
        SessionHasUser(body, params);
        var merged := SessionParams(body, params).value;
        AcceptedIsEvidence(setup, merged["user"], CertHashOf(setup, ssl), input');
        SpokenWhenAccepted(Authenticate(setup, Some(merged["user"]), CertHashOf(setup, ssl), input'));
    }
  }

  lemma SpokenWhenAccepted<T>(stage: Stage<T>)
    requires stage.result.Ok?
    ensures Spoken(stage) == stage.events
  {
  }

  lemma SessionHasUser(body: Bytes, params: Params)
    ensures SessionParams(body, params).Ok? ==> "user" in SessionParams(body, params).value && SessionParams(body, params).value["user"] != ""
  {
    hide ParseParams, MergeOptions, Options.ParseReplicationMode;
  }

  /**
   * Where TLS is required, a served client speaks through TLS exactly when TLS is configured: without it the request is
   * declined, counts as answered, and the session goes on in plain text.
   */
  lemma RequiredTlsNeedsTls(setup: Setup, input: Bytes)
    requires setup.requiredTls && ScriptFrom(setup, input, false, false, map[], []).verdict.Serving?
    ensures SslReply(true) in ScriptFrom(setup, input, false, false, map[], []).verdict.opening <==> setup.frontendTls.Some?
  {
    hide ScriptFrom, Holds, Greeting;
    ServedIsProved(setup, input, false, false, map[], []);
    RepliesMatch(setup, input, false, false, map[], []);
  }

  lemma {:induction false} RepliesMatch(setup: Setup, input: Bytes, ssl: bool, gss: bool, params: Params, opening: seq<Event>)
    requires ScriptFrom(setup, input, ssl, gss, params, opening).verdict.Serving?
    requires SslReply(!setup.frontendTls.Some?) !in opening
    ensures SslReply(!setup.frontendTls.Some?) !in ScriptFrom(setup, input, ssl, gss, params, opening).verdict.opening
    decreases if ssl then 0 else 1, if gss then 0 else 1
  {
    hide NextPacket, SessionParams, Authenticate, FromBigEndian, Spoken;
    match NextStep(setup, input, ssl, gss) {
      case Reply(event, input', ssl', gss') => RepliesMatch(setup, input', ssl', gss', params, opening + [event]);
      case Session(body, input') =>
    }
  }

  /** `events` were written one by one until the writes ran out. */
  predicate Written(before: seq<Event>, writes: nat, events: seq<Event>, after: seq<Event>, left: nat) {
    if writes >= |events| then after == before + events && left == writes - |events|
    else after == before + events[..writes] && left == 0
  }

  lemma WrittenOn(
    before: seq<Event>, writes: nat, events: seq<Event>, middle: seq<Event>, left: nat, more: seq<Event>, after: seq<Event>, end: nat)
    requires Written(before, writes, events, middle, left) && writes >= |events| && Written(middle, left, more, after, end)
    ensures Written(before, writes, events + more, after, end)
  {
    if left < |more| {
      assert (events + more)[..writes] == events + more[..left];
    }
  }

  lemma WrittenShort(before: seq<Event>, writes: nat, events: seq<Event>, after: seq<Event>, left: nat, more: seq<Event>)
    requires Written(before, writes, events, after, left) && writes < |events|
    ensures Written(before, writes, events + more, after, left)
  {
    assert (events + more)[..writes] == events[..writes];
  }

  lemma SpokenCutShort<T>(stage: Stage<T>, before: seq<Event>, writes: nat, after: seq<Event>, left: nat)
    requires Written(before, writes, stage.events, after, left) && writes < |stage.events|
    ensures Written(before, writes, Spoken(stage), after, left) && writes < |Spoken(stage)|
  {
    if stage.result.Err? && stage.result.error.Rejected? {
      WrittenShort(before, writes, stage.events, after, left, [RefusalEvent(stage.result.error.rejection)]);
    }
  }

  lemma NoNotes(before: seq<Event>)
    ensures before + Notes([]) == before
  {
  }

  lemma NotesOneMore(before: seq<Event>, notifications: seq<StartupNotification>, i: nat)
    requires i < |notifications|
    ensures before + Notes(notifications[..i]) + [Notification(notifications[i])] == before + Notes(notifications[..i + 1])
  {
    assert notifications[..i + 1][..i] == notifications[..i];
  }

  lemma NothingWritten(sent: seq<Event>, left: nat)
    ensures Written(sent, left, [], sent, left)
  {
  }

  lemma OneWritten(before: seq<Event>, writes: nat, event: Event, after: seq<Event>, left: nat)
    requires if writes > 0 then after == before + [event] && left == writes - 1 else after == before && left == 0
    ensures Written(before, writes, [event], after, left)
  {
  }

  lemma LeftOver(before: seq<Event>, writes: nat, events: seq<Event>, after: seq<Event>, left: nat)
    requires Written(before, writes, events, after, left) && writes >= |events|
    ensures after == before + events && left == writes - |events|
  {
  }

  /** What was written since `before` was written after it. */
  lemma WrittenSince(before: seq<Event>, writes: nat, events: seq<Event>, after: seq<Event>, left: nat)
    requires Written(before, writes, events, after, left)
    ensures Written([], |before| + writes, before + events, after, left)
  {
    if writes < |events| {
      assert (before + events)[..|before| + writes] == before + events[..writes];
    }
  }

  function UserOf(params: Params): string {
    if "user" in params then params["user"] else ""
  }

  /** The name of the database a session is for. */
  function DatabaseOf(params: Params): string {
    if "database" in params && params["database"] != "" then params["database"] else UserOf(params)
  }

  /** What comes of dialling the backend with the parameters in the order `pairs`. */
  function Dialled(setup: Setup, clientKey: Key, verifier: Verifier, params: Params, pairs: seq<(string, string)>): Turn {
    var config := ConfigFor(setup, clientKey, verifier, UserOf(params), DatabaseOf(params), pairs);
    match setup.dial(config)
    case Err(error) => Err(error)
    case Ok(link) => Start(link, config)
  }

  /** The first free one of the 64 candidates for a cancel key, from candidate `i` on. */
  function FirstFree(candidates: nat -> Registry.SessionKeySecret, taken: set<Registry.SessionKeySecret>, i: nat): Option<Registry.SessionKeySecret>
    decreases 64 - i
  {
    if i >= 64 then None
    else if candidates(i) !in taken then Some(candidates(i))
    else FirstFree(candidates, taken, i + 1)
  }

  lemma {:induction false} FirstFreeMeans(candidates: nat -> Registry.SessionKeySecret, taken: set<Registry.SessionKeySecret>, i: nat)
    ensures match FirstFree(candidates, taken, i)
            case None => forall j: nat | i <= j < 64 :: candidates(j) in taken
            case Some(key) =>
              exists j: nat :: i <= j < 64 && key == candidates(j) && key !in taken && forall k: nat | i <= k < j :: candidates(k) in taken
    decreases 64 - i
  {
    if i < 64 && candidates(i) in taken {
      FirstFreeMeans(candidates, taken, i + 1);
    }
  }

  /** What becomes of the session of an authenticated client: nobody says why not, the client is told why not, or it opens. */
  datatype Fate = Silence | Refused(error: ConnectionError) | Opened(end: LinkState, key: Registry.SessionKeySecret)

  /** The fate of a session whose parameters are listed to the backend in the order `pairs`. */
  function FateOf(setup: Setup, clientKey: Key, params: Params, pairs: seq<(string, string)>, taken: set<Registry.SessionKeySecret>): Fate {
    match setup.lookups(1, UserOf(params))
    case Unknown => Refused(InvalidState)
    case Unavailable => Silence
    case Found(verifier) =>
      if !setup.addressValid then Silence
      else
        match Dialled(setup, clientKey, verifier, params, pairs)
        case Err(error) => Refused(BackendFailed(error))
        case Ok(end) =>
          match FirstFree(setup.candidates, taken, 0)
          case None => Refused(InvalidState)
          case Some(key) => Opened(end, key)
  }

  function StatusOf(end: LinkState): byte {
    if end.status.Some? then end.status.value else IDLE
  }

  /** What a client is shown of an open session. */
  function Shown(fate: Fate): seq<Event> {
    if fate.Opened? then Notes(fate.end.notifications) + [KeyData(fate.key), Event.Ready(StatusOf(fate.end))] else []
  }

  /** Everything a client hears after it was authenticated. */
  function Finale(fate: Fate): seq<Event> {
    if fate.Refused? then [FailureEvent(fate.error)] else Shown(fate)
  }

  /** The driver's result, when every write succeeds. */
  function ResultOf(fate: Fate): Result<bool, ()> {
    match fate
    case Silence => Err(())
    case Refused(_) => Ok(false)
    case Opened(_, _) => Ok(true)
  }

  /**
   * Why a session does not open. An invalid state is a credential that is gone or 64 keys in use; a backend's failure is
   * the failure of that very dial; nothing is said when the store does not answer or the backend has no valid address.
   */
  lemma WhyNotOpened(setup: Setup, clientKey: Key, params: Params, pairs: seq<(string, string)>, taken: set<Registry.SessionKeySecret>)
    ensures var fate := FateOf(setup, clientKey, params, pairs, taken);
            var found := setup.lookups(1, UserOf(params));
            var started := found.Found? && setup.addressValid && Dialled(setup, clientKey, found.verifier, params, pairs).Ok?;
            && (fate == Refused(InvalidState) <==> found.Unknown? || (started && forall i: nat | i < 64 :: setup.candidates(i) in taken))
            && (fate.Silence? <==> found.Unavailable? || (found.Found? && !setup.addressValid))
            && (fate.Opened? <==> started && exists i: nat :: i < 64 && setup.candidates(i) !in taken)
            && (fate.Opened? ==> fate.key !in taken)
            && forall error ::
                 fate == Refused(BackendFailed(error)) <==>
                 found.Found? && setup.addressValid && Dialled(setup, clientKey, found.verifier, params, pairs) == Err(error)
  {
    hide Dialled;
    FirstFreeMeans(setup.candidates, taken, 0);
  }

  /**
   * Everything a session needs of others: the credential is still there, the backend can be reached and brings its link
   * to ReadyForQuery, one of the 64 candidate keys is free, and the client still takes what it must be told.
   */
  ghost predicate Cooperates(setup: Setup, clientKey: Key, params: Params, taken: set<Registry.SessionKeySecret>, writes: nat) {
    && setup.lookups(1, UserOf(params)).Found?
    && setup.addressValid
    && (exists i: nat :: i < 64 && setup.candidates(i) !in taken)
    && forall pairs: seq<(string, string)> | Enumerates(pairs, params) ::
         var started := Dialled(setup, clientKey, setup.lookups(1, UserOf(params)).verifier, params, pairs);
         started.Ok? && |started.value.notifications| + 2 <= writes
  }

  /** When everyone cooperates, the session opens and is shown in full. */
  lemma CooperationOpens(
    setup: Setup, clientKey: Key, params: Params, pairs: seq<(string, string)>, taken: set<Registry.SessionKeySecret>, writes: nat)
    requires Enumerates(pairs, params) && Cooperates(setup, clientKey, params, taken, writes)
    ensures var fate := FateOf(setup, clientKey, params, pairs, taken);
            fate.Opened? && |Finale(fate)| <= writes
  {
    hide Dialled, Enumerates;
    FirstFreeMeans(setup.candidates, taken, 0);
    NotesAt(FateOf(setup, clientKey, params, pairs, taken).end.notifications, 0);
  }

  /** There is one event for each notification, in order. */
  lemma {:induction false} NotesAt(notifications: seq<StartupNotification>, n: nat)
    requires n <= |notifications|
    ensures |Notes(notifications)| == |notifications| && Notes(notifications)[..n] == Notes(notifications[..n])
    decreases |notifications|
  {
    if n < |notifications| {
      NotesAt(notifications[..|notifications| - 1], n);
      assert notifications[..|notifications| - 1][..n] == notifications[..n];
    } else if n > 0 {
      NotesAt(notifications[..n - 1], n - 1);
      assert notifications[..n] == notifications;
    }
  }

  lemma {:induction false} NotesNotify(notifications: seq<StartupNotification>)
    ensures forall event <- Notes(notifications) :: event.Notification?
  {
    if notifications != [] {
      NotesNotify(notifications[..|notifications| - 1]);
    }
  }
}
