/** One client connection as an object: it reads the client's bytes, writes its own, and owns its session. */
module Conns {
  import opened Prelude
  import opened ProxyErrors
  import opened Packet
  import opened StartupPacket
  import opened BackendLinks
  import opened PgClients
  import opened Dialogues
  import opened ChannelBinding
  import opened Verifiers
  import opened Trace
  import Frames
  import Options
  import Registry
  import S = ScramServer
  import Utf8

  datatype Outcome = Continued | Ready | Close

  /** What a connection and the registry it shares hold at one moment. */
  datatype Moment = Moment(
    sent: seq<Event>,
    writes: nat,
    live: Registry.Live<Backend>,
    taken: set<Registry.SessionKeySecret>,
    guard: Option<Registry.SessionGuard>,
    forwarded: Option<(Backend, BackendKeyData)>)

  /**
   * The backend was dialled with the key the client proved and with the stored keys, parameters and names of its user,
   * and `frames` are the messages it opened with.
   */
  ghost predicate DialledFor(
    setup: Setup, clientKey: Key, user: string, database: string, params: Params,
    backend: Backend, pairs: seq<(string, string)>, frames: seq<Frames.Frame>)
  {
    && Enumerates(pairs, params)
    && setup.lookups(1, user).Found?
    && var config := ConfigFor(setup, clientKey, setup.lookups(1, user).verifier, user, database, pairs);
       && setup.dial(config).Ok?
       && StartedBy(backend, setup.dial(config).value, config, frames)
  }

  /** A cancel request went to the live session that holds its key, under that backend's own key, or nowhere. */
  ghost predicate Forwards(
    live: Registry.Live<Backend>, key: Registry.SessionKeySecret,
    before: Option<(Backend, BackendKeyData)>, after: Option<(Backend, BackendKeyData)>)
  {
    && (forall g <- live :: g.key == key && live[g].backendKey.Some? ==> after == Some((live[g], live[g].backendKey.value)))
    && ((forall g <- live :: g.key == key ==> live[g].backendKey.None?) ==> after == before)
  }

  /** How opening a session turns out. */
  function TurnsOut(fate: Fate, writes: nat): Result<(), ProxyError> {
    match fate
    case Silence => Err(Internal)
    case Refused(error) => Err(Connection(error))
    case Opened(_, _) => if writes < |Shown(fate)| then Err(Internal) else Ok(())
  }

  /** An error may be reported in this phase. */
  predicate Reportable(phase: Phase) {
    phase.Negotiating? || phase.Offered? || phase.Challenged? || phase.Authenticated?
  }

  /** `params.iter().collect()`, in whatever order the map yields its entries. */
  method ListParams(params: Params) returns (pairs: seq<(string, string)>)
    ensures Enumerates(pairs, params)
    decreases |params|
  {
    if params == map[] {
      return [];
    }
    var name :| name in params;
    var value := params[name];
    var rest := ListParams(params - {name});
    pairs := [(name, value)] + rest;
    assert pairs[1..] == rest;
  }

  class Conn {
    const connId: int
    const setup: Setup
    const registry: Registry.Registry<Backend>
    var input: Bytes
    var output: Bytes
    var writesLeft: nat
    ghost var sent: seq<Event>
    var sslDone: bool
    var gssDone: bool
    var protocolVersion: Option<u32>
    var params: Params
    var user: Option<string>
    var database: Option<string>
    var replicationMode: Options.ReplicationMode
    var backend: Option<Backend>
    var serverSignatureVerified: bool
    var sessionKeySecret: Option<Registry.SessionKeySecret>
    var sessionGuard: Option<Registry.SessionGuard>
    /** The session a cancel request was forwarded to, and the key it was forwarded under. */
    var cancelForwarded: Option<(Backend, BackendKeyData)>
    ghost var evidence: Option<Evidence>
    ghost var backendFrames: seq<Frames.Frame>
    /** The order in which the parameters were listed to the backend. */
    ghost var order: seq<(string, string)>

    constructor (connId: int, setup: Setup, registry: Registry.Registry<Backend>)
      ensures this.connId == connId && this.setup == setup && this.registry == registry
      ensures At(Negotiating(false, false)) && sent == [] && !sslDone && !gssDone
      ensures backend.None? && sessionKeySecret.None? && sessionGuard.None? && cancelForwarded.None? && params == map[]
      ensures input == setup.input && writesLeft == setup.writes && !serverSignatureVerified
    {
      this.connId, this.setup, this.registry := connId, setup, registry;
      input, output, writesLeft, sent := setup.input, [], setup.writes, [];
      sslDone, gssDone, protocolVersion := false, false, None;
      params, user, database, replicationMode := map[], None, None, Options.Off;
      backend, serverSignatureVerified, sessionKeySecret, sessionGuard := None, false, None, None;
      cancelForwarded, evidence, backendFrames, order := None, None, [], [];
    }

    ghost function Now(): Moment
      reads this`sent, this`writesLeft, this`sessionGuard, this`cancelForwarded, registry
    {
      Moment(sent, writesLeft, registry.live, registry.keyBackend.Keys, sessionGuard, cancelForwarded)
    }

    /** The bytes written are the events sent, and they have led to `phase`. */
    ghost predicate At(phase: Phase)
      reads this`output, this`sent
    {
      output == WireAll(sent) && PhaseOf(sent) == Some(phase)
    }

    ghost predicate Accepted()
      reads this`output, this`sent
    {
      output == WireAll(sent) && PhaseOf(sent).Some?
    }

    ghost predicate CanReport()
      reads this`output, this`sent
    {
      Accepted() && Reportable(PhaseOf(sent).value)
    }

    /** Everything of one message is written and flushed, or the connection has failed. */
    method WriteRaw(bytes: Bytes, ghost event: Event, ghost phase: Phase) returns (ok: bool)
      requires At(phase) && Next(phase, event).Some? && bytes == Wire(event)
      modifies this`output, this`writesLeft, this`sent
      ensures ok <==> old(writesLeft) > 0
      ensures ok ==> sent == old(sent) + [event] && writesLeft == old(writesLeft) - 1 && At(Next(phase, event).value)
      ensures !ok ==> sent == old(sent) && writesLeft == 0 && At(phase)
    {
      hide WireAll, Wire, PhaseOf, Next;
      if writesLeft == 0 {
        return false;
      }
      writesLeft := writesLeft - 1;
      Extend(sent, event);
      output := output + bytes;
      sent := sent + [event];
      ok := true;
    }

    method WriteMessage(tag: byte, body: Bytes, ghost event: Event, ghost phase: Phase) returns (ok: bool)
      requires At(phase) && Next(phase, event).Some? && Message(tag, body) == Wire(event)
      modifies this`output, this`writesLeft, this`sent
      ensures ok <==> old(writesLeft) > 0
      ensures ok ==> sent == old(sent) + [event] && writesLeft == old(writesLeft) - 1 && At(Next(phase, event).value)
      ensures !ok ==> sent == old(sent) && writesLeft == 0 && At(phase)
    {
      hide WireAll, Wire, PhaseOf, Next;
      var length := (|body| + 4) % U32_LIMIT;
      ok := WriteRaw([tag] + BigEndian(length) + body, event, phase);
    }

    method SendErrorMessage(code: string, message: string) returns (ok: bool)
      requires CanReport()
      modifies this`output, this`writesLeft, this`sent
      ensures Accepted()
      ensures ok <==> old(writesLeft) > 0
      ensures Written(old(sent), old(writesLeft), [Error(code, message)], sent, writesLeft)
    {
      hide WireAll, PhaseOf, Frames.ErrorBody;
      ok := WriteMessage(TAG_ERROR, Frames.ErrorBody("FATAL", code, message), Error(code, message), PhaseOf(sent).value);
    }

    method SendAuthMessage(code: u32, data: Bytes, ghost event: Event, ghost phase: Phase) returns (ok: bool)
      requires At(phase) && Next(phase, event).Some? && Message(TAG_AUTH, AuthBody(code, data)) == Wire(event)
      modifies this`output, this`writesLeft, this`sent
      ensures ok <==> old(writesLeft) > 0
      ensures ok ==> sent == old(sent) + [event] && writesLeft == old(writesLeft) - 1 && At(Next(phase, event).value)
      ensures !ok ==> sent == old(sent) && writesLeft == 0 && At(phase)
    {
      ok := WriteMessage(TAG_AUTH, AuthBody(code, data), event, phase);
    }

    method SendAuthSasl(mechanisms: seq<string>, ghost phase: Phase) returns (ok: bool)
      requires At(phase) && phase.Negotiating?
      modifies this`output, this`writesLeft, this`sent
      ensures ok <==> old(writesLeft) > 0
      ensures ok ==> sent == old(sent) + [Sasl(mechanisms)] && writesLeft == old(writesLeft) - 1 && At(Offered)
      ensures !ok ==> sent == old(sent) && writesLeft == 0 && At(phase)
    {
      hide WireAll, PhaseOf, BigEndian, CString;
      var data := [];
      for i := 0 to |mechanisms|
        invariant data == CStrings(mechanisms[..i])
      {
        assert mechanisms[..i + 1][..i] == mechanisms[..i];
        data := data + CString(mechanisms[i]);
      }
      assert mechanisms[..|mechanisms|] == mechanisms;
      ok := SendAuthMessage(10, data + [0], Sasl(mechanisms), phase);
    }

    method ReadExact(n: nat) returns (r: Option<Bytes>)
      modifies this`input
      ensures if |old(input)| < n then r.None? else r == Some(old(input)[..n]) && input == old(input)[n..]
    {
      if |input| < n {
        input := [];
        return None;
      }
      r := Some(input[..n]);
      input := input[n..];
    }

    method ReadMessageLength() returns (r: Result<nat, ProxyError>)
      modifies this`input
      ensures if |old(input)| < 4 then r == Err(Internal)
              else
                var length := FromBigEndian(old(input)[..4]);
                && input == old(input)[4..]
                && r == if length < 4 then Err(Connection(InvalidMessageLength)) else Ok(length - 4)
    {
      var header := ReadExact(4);
      if header.None? {
        return Err(Internal);
      }
      var length := FromBigEndian(header.value);
      if length < 4 {
        return Err(Connection(InvalidMessageLength));
      }
      r := Ok(length - 4);
    }

    method ReadMessageBody(length: nat) returns (r: Result<Option<Bytes>, ProxyError>)
      modifies this`input
      ensures if length == 0 then r == Ok(None) && input == old(input)
              else if length > setup.maxCapacity then r == Err(Connection(MessageTooLarge)) && input == old(input)
              else if |old(input)| < length then r == Err(Internal)
              else r == Ok(Some(old(input)[..length])) && input == old(input)[length..]
    {
      if length == 0 {
        return Ok(None);
      }
      if length > setup.maxCapacity {
        return Err(Connection(MessageTooLarge));
      }
      var body := ReadExact(length);
      if body.None? {
        return Err(Internal);
      }
      r := Ok(body);
    }

    method ReadStartupPacket() returns (r: Result<Bytes, ProxyError>)
      modifies this`input
      ensures match NextPacket(setup, old(input))
              case Err(error) => r == Err(error)
              case Ok((packet, rest)) => r == Ok(packet) && input == rest
    {
      var length := ReadMessageLength();
      if length.Err? {
        return Err(length.error);
      }
      if length.value + 4 > setup.maxStartupBytes {
        return Err(Connection(FirstMessageTooBig));
      }
      var body := ReadMessageBody(length.value);
      match body {
        case Err(error) => r := Err(error);
        case Ok(None) => r := Err(Connection(EmptyMessageBody));
        case Ok(Some(message)) =>
          assert old(input)[4..][..length.value] == old(input)[4..length.value + 4];
          assert old(input)[4..][length.value..] == old(input)[length.value + 4..];
          r := Ok(message);
      }
    }

    /** Neither authenticated nor given a cancel key yet. */
    ghost predicate Anonymous()
      reads this`sent
    {
      forall event <- sent :: !event.AuthenticationOk? && !event.KeyData?
    }

    /** Still before authentication, each reply sent at most for the request that asked for it. */
    ghost predicate InNegotiation()
      reads this
    {
      && Accepted()
      && Anonymous()
      && PhaseOf(sent).value.Negotiating?
      && (PhaseOf(sent).value.ssl ==> sslDone)
      && (PhaseOf(sent).value.gss ==> gssDone)
    }

    /** An AuthenticationOk is backed by a completed exchange of the user it was sent to. */
    ghost predicate Proved()
      reads this`sent, this`user, this`evidence
    {
      (exists event <- sent :: event.AuthenticationOk?) ==> user.Some? && evidence.Some? && Holds(setup, user.value, evidence.value)
    }

    /** `key` is the cancel key of this session, and the registry resolves it to this session's backend. */
    ghost predicate Resolves(key: Registry.SessionKeySecret)
      reads this`sessionKeySecret, this`backend, registry
    {
      && sessionKeySecret == Some(key)
      && backend.Some?
      && registry.Valid()
      && registry.LookupByKey(key) == backend
    }

    ghost predicate KeysResolve()
      reads this`sent, this`sessionKeySecret, this`backend, registry
    {
      forall event <- sent :: event.KeyData? ==> Resolves(event.key)
    }

    /** One reply, and only one per connection; after a yes the input is what comes out of the TLS stream. */
    method HandleSslRequest() returns (r: Result<(), ProxyError>)
      requires InNegotiation()
      modifies this`sslDone, this`input, this`output, this`writesLeft, this`sent
      ensures InNegotiation()
      ensures if old(sslDone) then r == Err(Connection(TlsAlreadyDone)) && sent == old(sent) && writesLeft == old(writesLeft)
              else
                && sslDone && Written(old(sent), old(writesLeft), [SslReply(setup.frontendTls.Some?)], sent, writesLeft)
                && (if old(writesLeft) == 0 || (setup.frontendTls.Some? && setup.frontendTls.value.decrypted.None?) then r == Err(Internal)
                    else r.Ok? && input == if setup.frontendTls.Some? then setup.frontendTls.value.decrypted.value else old(input))
    {
      hide WireAll, PhaseOf;
      if sslDone {
        return Err(Connection(TlsAlreadyDone));
      }
      sslDone := true;
      var accepted := setup.frontendTls.Some?;
      var ok := WriteRaw([if accepted then TAG_STATUS else TAG_NOTICE], SslReply(accepted), PhaseOf(sent).value);
      if !ok {
        return Err(Internal);
      }
      if accepted {
        if setup.frontendTls.value.decrypted.None? {
          return Err(Internal);
        }
        input := setup.frontendTls.value.decrypted.value;
      }
      r := Ok(());
    }

    method HandleGssencRequest() returns (r: Result<(), ProxyError>)
      requires InNegotiation()
      modifies this`gssDone, this`output, this`writesLeft, this`sent
      ensures InNegotiation()
      ensures if old(gssDone) then r == Err(Connection(GssAlreadyDone)) && sent == old(sent) && writesLeft == old(writesLeft)
              else
                && gssDone && Written(old(sent), old(writesLeft), [GssReply], sent, writesLeft)
                && r == if old(writesLeft) == 0 then Err(Internal) else Ok(())
    {
      hide WireAll, PhaseOf;
      if gssDone {
        return Err(Connection(GssAlreadyDone));
      }
      gssDone := true;
      var ok := WriteRaw([TAG_NOTICE], GssReply, PhaseOf(sent).value);
      r := if ok then Ok(()) else Err(Internal);
    }

    /** A cancel request reaches the backend its key was issued for, under that backend's own key, or nobody. */
    method HandleCancelRequest(reader: MessageReader) returns (r: Result<(), ProxyError>)
      requires reader.Valid() && registry.Valid()
      modifies this`cancelForwarded, reader
      ensures if |old(reader.Rest())| != 8 then r == Err(Connection(InvalidMessageLength)) && cancelForwarded == old(cancelForwarded)
              else
                var key := Requested(old(reader.Rest()));
                var target := registry.LookupByKey(key);
                && r == Ok(())
                && cancelForwarded == (if target.Some? && target.value.backendKey.Some? then Some((target.value, target.value.backendKey.value))
                                       else old(cancelForwarded))
                && Forwards(registry.live, key, old(cancelForwarded), cancelForwarded)
    {
      hide FromBigEndian, Registry.Agrees;
      if reader.Remaining() != 8 {
        return Err(Connection(InvalidMessageLength));
      }
      ghost var request := reader.Rest();
      var pid := reader.ReadU32();
      var secret := reader.ReadU32();
      assert request[4..][..4] == request[4..];
      var target := registry.LookupByKey(Registry.SessionKeySecret(pid.value, secret.value));
      if target.Some? && target.value.backendKey.Some? {
        cancelForwarded := Some((target.value, target.value.backendKey.value));
      }
      r := Ok(());
    }

    method ReadSaslResponse() returns (r: Result<Bytes, AuthFailure>)
      modifies this`input
      ensures match SaslResponse(setup, old(input))
              case Err(error) => r == Err(error)
              case Ok((body, rest)) => r == Ok(body) && input == rest
    {
      var tag := ReadExact(1);
      if tag.None? {
        return Err(InternalFailure);
      }
      assert |old(input)| >= 5 ==> old(input)[1..][..4] == old(input)[1..5];
      if tag.value[0] != TAG_PASSWORD {
        return Err(Rejected(InvalidMessage("Invalid Message")));
      }
      var length := ReadMessageLength();
      if length.Err? {
        return Err(InternalFailure);
      }
      if length.value < 4 {
        return Err(Rejected(InvalidMessage("message length too short")));
      }
      var body := ReadMessageBody(length.value);
      match body {
        case Err(_) => r := Err(InternalFailure);
        case Ok(None) => r := Err(Rejected(InvalidMessage("message body empty")));
        case Ok(Some(bytes)) =>
          assert old(input)[1..][4..][..length.value] == old(input)[5..length.value + 5];
          assert old(input)[1..][4..][length.value..] == old(input)[length.value + 5..];
          r := Ok(bytes);
      }
    }

    /** The mechanism and the client-first message; the mechanism is always one that was offered. */
    method ReadSaslInitialResponse(mechanisms: seq<string>) returns (r: Result<(string, string), AuthFailure>)
      modifies this`input
      ensures r == match SaslResponse(setup, old(input))
                   case Err(error) => Err(error)
                   case Ok((body, _)) => InitialFields(body, mechanisms)
      ensures SaslResponse(setup, old(input)).Ok? ==> input == SaslResponse(setup, old(input)).value.1
    {
      hide FromBigEndian, ReadCString, Utf8.Decode, SaslResponse;
      var body := ReadSaslResponse();
      if body.Err? {
        return Err(body.error);
      }
      var reader := new MessageReader(body.value);
      var mechanism := reader.ReadString();
      if mechanism.Err? {
        return Err(InternalFailure);
      }
      if mechanism.value !in mechanisms {
        return Err(Rejected(InvalidMessage("invalid mechanism")));
      }
      var length := reader.ReadU32();
      if length.Err? {
        return Err(InternalFailure);
      }
      if length.value >= Frames.I32_LIMIT {
        return Err(Rejected(InvalidMessage("Invalid message")));
      }
      var message := reader.ReadStringFixedSize(length.value);
      if message.Err? {
        return Err(Rejected(InvalidMessage("Invalid message")));
      }
      r := Ok((mechanism.value, message.value));
    }

    method ReadSaslFinalResponse() returns (r: Result<string, AuthFailure>)
      modifies this`input
      ensures r == match SaslResponse(setup, old(input))
                   case Err(error) => Err(error)
                   case Ok((body, _)) =>
                     (match Utf8.Decode(body)
                      case None => Err(Rejected(InvalidMessage("malformed SCRAM message")))
                      case Some(message) => Ok(message))
      ensures SaslResponse(setup, old(input)).Ok? ==> input == SaslResponse(setup, old(input)).value.1
    {
      hide SaslResponse, Utf8.Decode;
      var body := ReadSaslResponse();
      if body.Err? {
        return Err(body.error);
      }
      match Utf8.Decode(body.value) {
        case None => r := Err(Rejected(InvalidMessage("malformed SCRAM message")));
        case Some(message) => r := Ok(message);
      }
    }

    /** Offer the mechanisms, read the client's first message, challenge it. */
    method Challenge(scram: S.ScramAuthenticator, user: string) returns (r: Result<string, AuthFailure>)
      requires InNegotiation() && scram.Recorded() == S.NEW_SESSION
      modifies this`input, this`output, this`writesLeft, this`sent, scram
      ensures Accepted() && Anonymous()
      ensures r.Err? && r.error.Rejected? ==> CanReport()
      ensures var stage := Offer(setup, scram.server, user, old(input));
              && Written(old(sent), old(writesLeft), stage.events, sent, writesLeft)
              && if old(writesLeft) < |stage.events| then r == Err(InternalFailure)
                 else
                   match stage.result
                   case Err(error) => r == Err(error)
                   case Ok(taken) => r == Ok(taken.serverFirst) && input == stage.rest && scram.Recorded() == taken.session && At(Challenged)
    {
      hide WireAll, PhaseOf, S.ClientFirst, S.Mechanisms, Utf8.Encode, SaslResponse, InitialFields;
      var mechanisms := S.Mechanisms(scram.server.certHash);
      var ok := SendAuthSasl(mechanisms, PhaseOf(sent).value);
      if !ok {
        return Err(InternalFailure);
      }
      var initial := ReadSaslInitialResponse(mechanisms);
      if initial.Err? {
        return Err(initial.error);
      }
      var (chosen, clientFirst) := initial.value;
      var serverFirst := scram.HandleClientFirst(chosen, clientFirst, user, setup.serverNonce);
      if serverFirst.Err? {
        return Err(Rejected(Scram(serverFirst.error)));
      }
      ok := SendAuthMessage(11, Utf8.Encode(serverFirst.value), SaslContinue(serverFirst.value), Offered);
      if !ok {
        return Err(InternalFailure);
      }
      r := Ok(serverFirst.value);
    }

    /** Read the client's proof and answer it with the server's signature. */
    method VerifyProof(scram: S.ScramAuthenticator, user: string) returns (r: Result<string, AuthFailure>)
      requires At(Challenged) && Anonymous()
      modifies this`input, this`output, this`writesLeft, this`sent, scram
      ensures Accepted() && Anonymous()
      ensures r.Err? && r.error.Rejected? ==> CanReport()
      ensures var stage := Prove(setup, scram.server, old(scram.Recorded()), user, old(input));
              && Written(old(sent), old(writesLeft), stage.events, sent, writesLeft)
              && if old(writesLeft) < |stage.events| then r == Err(InternalFailure)
                 else
                   match stage.result
                   case Err(error) => r == Err(error)
                   case Ok(proven) => r == Ok(proven.serverFinal) && input == stage.rest && scram.Recorded() == proven.closed && At(Verified)
    {
      hide WireAll, PhaseOf, S.ClientFinal, Utf8.Encode, Utf8.Decode, SaslResponse;
      var clientFinal := ReadSaslFinalResponse();
      if clientFinal.Err? {
        return Err(clientFinal.error);
      }
      var serverFinal := scram.HandleClientFinal(clientFinal.value, user);
      if serverFinal.Err? {
        return Err(Rejected(Scram(serverFinal.error)));
      }
      var ok := SendAuthMessage(12, Utf8.Encode(serverFinal.value), SaslFinal(serverFinal.value), Challenged);
      if !ok {
        return Err(InternalFailure);
      }
      r := Ok(serverFinal.value);
    }

    /** The stored verifier of a known user, the stable stand-in for an unknown one. */
    method FindVerifier(user: string) returns (r: Result<Verifier, AuthFailure>)
      ensures match setup.lookups(0, user)
              case Found(verifier) => r == Ok(verifier)
              case Unknown => r == Ok(Dummy(setup.crypto, user, setup.clusterNonce))
              case Unavailable => r == Err(Rejected(StoreUnavailable))
    {
      match setup.lookups(0, user) {
        case Found(verifier) => r := Ok(verifier);
        case Unknown => r := Ok(Dummy(setup.crypto, user, setup.clusterNonce));
        case Unavailable => r := Err(Rejected(StoreUnavailable));
      }
    }

    function CertHashInUse(): Option<CertHash>
      reads this`sslDone
    {
      CertHashOf(setup, sslDone)
    }

    /** The whole SASL dialogue with the client. */
    method HandleScramAuth() returns (r: Result<Option<Key>, AuthFailure>)
      requires InNegotiation()
      modifies this`input, this`output, this`writesLeft, this`sent, this`evidence
      ensures Accepted()
      ensures r.Err? ==> Anonymous() && (r.error.Rejected? ==> CanReport())
      ensures var stage := Authenticate(setup, user, CertHashInUse(), old(input));
              && Written(old(sent), old(writesLeft), stage.events, sent, writesLeft)
              && if old(writesLeft) < |stage.events| then r == Err(InternalFailure)
                 else
                   match stage.result
                   case Err(error) => r == Err(error)
                   case Ok(e) => r == Ok(Some(e.key)) && evidence == Some(e) && input == stage.rest && At(Authenticated)
    {
      hide WireAll, PhaseOf, Offer, Prove, Written, Dummy, Holds;
      if user.None? || user.value == "" {
        NothingWritten(sent, writesLeft);
        return Err(Rejected(NoUser));
      }
      var verifier := FindVerifier(user.value);
      if verifier.Err? {
        NothingWritten(sent, writesLeft);
        return Err(verifier.error);
      }
      var scram := new S.ScramAuthenticator(setup.crypto, verifier.value, CertHashInUse());
      r := RunExchange(scram, user.value);
    }

    /** The exchange once it is known whose verifier it is about. */
    method RunExchange(scram: S.ScramAuthenticator, user: string) returns (r: Result<Option<Key>, AuthFailure>)
      requires InNegotiation() && scram.Recorded() == S.NEW_SESSION
      modifies this`input, this`output, this`writesLeft, this`sent, this`evidence, scram
      ensures Accepted()
      ensures r.Err? ==> Anonymous() && (r.error.Rejected? ==> CanReport())
      ensures var stage := Exchange(setup, scram.server, user, old(input));
              && Written(old(sent), old(writesLeft), stage.events, sent, writesLeft)
              && if old(writesLeft) < |stage.events| then r == Err(InternalFailure)
                 else
                   match stage.result
                   case Err(error) => r == Err(error)
                   case Ok(e) => r == Ok(Some(e.key)) && evidence == Some(e) && input == stage.rest && At(Authenticated)
    {
      hide WireAll, PhaseOf, Offer, Prove, Written;
      ghost var (in0, sent0, w0) := (input, sent, writesLeft);
      ghost var offered := Offer(setup, scram.server, user, input);
      var serverFirst := Challenge(scram, user);
      ghost var (in1, sent1, w1) := (input, sent, writesLeft);
      if w0 < |offered.events| {
        if offered.result.Ok? {
          ghost var proved := Prove(setup, scram.server, offered.result.value.session, user, offered.rest);
          WrittenShort(sent0, w0, offered.events, sent1, w1, proved.events);
          WrittenShort(sent0, w0, offered.events + proved.events, sent1, w1, [AuthenticationOk]);
        }
      }
      if serverFirst.Err? {
        return Err(serverFirst.error);
      }
      ghost var proved := Prove(setup, scram.server, scram.Recorded(), user, input);
      ProofHasKey(setup, scram.server, scram.Recorded(), user, input);
      var serverFinal := VerifyProof(scram, user);
      ghost var (sent2, w2) := (sent, writesLeft);
      LeftOver(sent0, w0, offered.events, sent1, w1);
      WrittenOn(sent0, w0, offered.events, sent1, w1, proved.events, sent2, w2);
      if w1 < |proved.events| {
        WrittenShort(sent0, w0, offered.events + proved.events, sent2, w2, [AuthenticationOk]);
      }
      if serverFinal.Err? {
        return Err(serverFinal.error);
      }
      LeftOver(sent1, w1, proved.events, sent2, w2);
      var ok := SendAuthMessage(0, [], AuthenticationOk, Verified);
      OneWritten(sent2, w2, AuthenticationOk, sent, writesLeft);
      WrittenOn(sent0, w0, offered.events + proved.events, sent2, w2, [AuthenticationOk], sent, writesLeft);
      if !ok {
        return Err(InternalFailure);
      }
      var taken := offered.result.value;
      var proven := proved.result.value;
      evidence := Some(Evidence(scram.server, in0, input, taken.first, proven.final, taken.serverFirst, proven.serverFinal, scram.extractedClientKey.value));
      r := Ok(scram.extractedClientKey);
    }

    /** Authentication as the driver sees it: a refusal is reported in its own words, an internal failure is not. */
    method HandleAuthentication() returns (r: Result<Option<Key>, ProxyError>)
      requires InNegotiation()
      modifies this`input, this`output, this`writesLeft, this`sent, this`evidence
      ensures Accepted()
      ensures r.Err? || r.value.None? ==> Anonymous() && (r.Err? ==> r.error == Internal)
      ensures var stage := Authenticate(setup, user, CertHashInUse(), old(input));
              && Written(old(sent), old(writesLeft), Spoken(stage), sent, writesLeft)
              && if old(writesLeft) < |Spoken(stage)| then r == Err(Internal)
                 else
                   match stage.result
                   case Err(Rejected(_)) => r == Ok(None)
                   case Err(InternalFailure) => r == Err(Internal)
                   case Ok(e) => r == Ok(Some(e.key)) && evidence == Some(e) && input == stage.rest && At(Authenticated)
    {
      hide WireAll, PhaseOf, Authenticate, Written;
      ghost var (sent0, w0) := (sent, writesLeft);
      ghost var stage := Authenticate(setup, user, CertHashInUse(), input);
      var done := HandleScramAuth();
      ghost var (sent1, w1) := (sent, writesLeft);
      if w0 < |stage.events| {
        SpokenCutShort(stage, sent0, w0, sent1, w1);
      } else {
        LeftOver(sent0, w0, stage.events, sent1, w1);
      }
      match done {
        case Ok(key) =>
          r := Ok(key);
        case Err(Rejected(rejection)) =>
          var ok := SendErrorMessage(rejection.Code(), rejection.Text());
          WrittenOn(sent0, w0, stage.events, sent1, w1, [RefusalEvent(rejection)], sent, writesLeft);
          r := if ok then Ok(None) else Err(Internal);
        case Err(InternalFailure) =>
          r := Err(Internal);
      }
    }

    /** Parameters, user, database and replication mode of a startup packet. */
    method PrepareSession(version: u32, reader: MessageReader) returns (r: Result<(), ProxyError>)
      requires reader.Valid()
      modifies this`protocolVersion, this`params, this`user, this`database, this`replicationMode, reader
      ensures match SessionParams(old(reader.Rest()), old(params))
              case Err(error) => r == Err(error)
              case Ok(merged) =>
                && r.Ok? && params == merged && "user" in merged && user == Some(merged["user"])
                && database == Some(DatabaseOf(merged)) && protocolVersion == Some(version)
                && ("replication" in merged ==> Options.ParseReplicationMode(merged["replication"]) == Result.Ok(replicationMode))
    {
      hide ParseParams, MergeOptions, Options.ParseReplicationMode;
      protocolVersion := Some(version);
      var parsed := ReadParams(reader, params);
      if parsed.Err? {
        return Err(parsed.error);
      }
      var merged := MergeOptions(parsed.value);
      if merged.Err? {
        return Err(merged.error);
      }
      params := merged.value;
      if "user" !in params || params["user"] == "" {
        return Err(Connection(MissingUser));
      }
      user := Some(params["user"]);
      database := Some(if "database" in params && params["database"] != "" then params["database"] else params["user"]);
      if "replication" in params {
        match Options.ParseReplicationMode(params["replication"]) {
          case Err(_) => return Err(Connection(InvalidData));
          case Ok(mode) => replicationMode := mode;
        }
      }
      r := Ok(());
    }

    /** Up to 64 random cancel keys are tried; a taken one changes nothing, and the first free one is taken. */
    method RegisterSession(backend: Backend) returns (r: Option<Registry.SessionGuard>)
      requires registry.Valid() && !Registry.ConnIsLive(registry.live, connId)
      modifies registry
      ensures registry.Valid()
      ensures match FirstFree(setup.candidates, old(registry.keyBackend.Keys), 0)
              case None => r.None? && registry.live == old(registry.live)
              case Some(key) =>
                var guard := Registry.SessionGuard(connId, key);
                r == Some(guard) && registry.LookupByKey(key) == Some(backend) && registry.live == old(registry.live)[guard := backend]
    {
      hide Registry.Agrees, Registry.ConnIsLive, Registry.KeyIsLive;
      ghost var taken := registry.keyBackend.Keys;
      r := None;
      var i := 0;
      while i < 64
        invariant registry.Valid() && registry.live == old(registry.live) && registry.keyBackend == old(registry.keyBackend)
        invariant FirstFree(setup.candidates, taken, i) == FirstFree(setup.candidates, taken, 0)
      {
        var candidate := setup.candidates(i);
        var registered := registry.Register(backend, connId, candidate);
        if registered.Ok? {
          assert registered.value in registry.live;
          return Some(registered.value);
        }
        i := i + 1;
      }
    }

    /** The session's backend is its user's. */
    ghost predicate Backed(clientKey: Key)
      reads this`backend, this`backendFrames, this`order, this`user, this`database, this`params
    {
      && backend.Some? && user.Some? && database.Some?
      && DialledFor(setup, clientKey, user.value, database.value, params, backend.value, order, backendFrames)
    }

    /** The parameters, user and database of a prepared session. */
    ghost predicate Prepared()
      reads this`params, this`user, this`database
    {
      "user" in params && params["user"] != "" && user == Some(UserOf(params)) && database == Some(DatabaseOf(params))
    }

    /** Nothing was registered or forwarded since. */
    ghost predicate Kept(before: Moment)
      reads this`sessionGuard, this`cancelForwarded, registry
    {
      registry.live == before.live && sessionGuard == before.guard && cancelForwarded == before.forwarded
    }

    /** An open session is in the registry, beside all others, for as long as this connection keeps its guard. */
    ghost predicate Registered(fate: Fate, before: Moment)
      reads this`backend, this`sessionKeySecret, this`sessionGuard, this`cancelForwarded, registry
    {
      if !fate.Opened? then Kept(before)
      else
        var guard := Registry.SessionGuard(connId, fate.key);
        && backend.Some? && Became(backend.value, fate.end)
        && sessionKeySecret == Some(fate.key) && sessionGuard == Some(guard)
        && registry.live == before.live[guard := backend.value]
        && cancelForwarded == before.forwarded
    }

    /** Dial the backend of the session's user and bring it to its first ReadyForQuery. */
    method StartBackend(clientKey: Key, verifier: Verifier)
      returns (r: Result<Backend, ProxyError>, ghost pairs: seq<(string, string)>, ghost frames: seq<Frames.Frame>)
      requires Prepared() && setup.lookups(1, user.value) == Found(verifier)
      ensures Enumerates(pairs, params)
      ensures match Dialled(setup, clientKey, verifier, params, pairs)
              case Err(error) => r == Err(Connection(BackendFailed(error)))
              case Ok(end) => r.Ok? && Became(r.value, end)
      ensures r.Ok? ==> fresh(r.value) && DialledFor(setup, clientKey, user.value, database.value, params, r.value, pairs, frames)
    {
      hide Start, StartedBy, Enumerates;
      var listed := ListParams(params);
      var config := ConfigFor(setup, clientKey, verifier, user.value, database.value, listed);
      pairs, frames := listed, [];
      var link := setup.dial(config);
      if link.Err? {
        return Err(Connection(BackendFailed(link.error))), pairs, frames;
      }
      var connected := Connect(link.value, config);
      if connected.Err? {
        return Err(Connection(BackendFailed(connected.error))), pairs, frames;
      }
      frames := StartedMeans(connected.value, link.value, config);
      r := Ok(connected.value);
    }

    /** The verifier of the authenticated user, looked up a second time. */
    method FindVerifierAgain() returns (r: Result<Verifier, ProxyError>)
      requires user.Some?
      ensures match setup.lookups(1, user.value)
              case Found(verifier) => r == Ok(verifier)
              case Unknown => r == Err(Connection(InvalidState))
              case Unavailable => r == Err(Internal)
    {
      match setup.lookups(1, user.value) {
        case Found(verifier) => r := Ok(verifier);
        case Unknown => r := Err(Connection(InvalidState));
        case Unavailable => r := Err(Internal);
      }
    }

    /** Connect to the backend with the keys of the session's user, and register the session. */
    method OpenSession(clientKey: Key) returns (r: Result<(), ProxyError>)
      requires Prepared()
      requires registry.Valid() && !Registry.ConnIsLive(registry.live, connId)
      modifies this`backend, this`serverSignatureVerified, this`sessionKeySecret, this`sessionGuard, this`backendFrames, this`order, registry
      ensures registry.Valid() && Enumerates(order, params)
      ensures r.Ok? ==>
                && backend.Some? && sessionKeySecret.Some? && serverSignatureVerified == backend.value.serverSignatureVerified
                && Resolves(sessionKeySecret.value) && Backed(clientKey)
      ensures var fate := FateOf(setup, clientKey, params, order, old(registry.keyBackend.Keys));
              && Registered(fate, old(Now()))
              && match fate
                 case Silence => r == Err(Internal)
                 case Refused(error) => r == Err(Connection(error))
                 case Opened(_, _) => r.Ok?
    {
      hide DialledFor, Dialled, Backed, Became, FirstFree, FateOf, Registered, Registry.Agrees, Registry.ConnIsLive, Registry.KeyIsLive, Enumerates;
      ghost var before := Now();
      order := AnyOrder(params);
      var verifier := FindVerifierAgain();
      if verifier.Err? {
        NothingRegistered(clientKey, before);
        return Err(verifier.error);
      }
      if !setup.addressValid {
        NothingRegistered(clientKey, before);
        return Err(Internal);
      }
      var started, pairs, frames := StartBackend(clientKey, verifier.value);
      order := pairs;
      if started.Err? {
        NothingRegistered(clientKey, before);
        return Err(started.error);
      }
      var guard := RegisterSession(started.value);
      if guard.None? {
        NothingRegistered(clientKey, before);
        return Err(Connection(InvalidState));
      }
      Adopt(started.value, guard.value, frames);
      IsBacked(clientKey, user.value, database.value, params, started.value, pairs, frames);
      Opens(clientKey, verifier.value, before);
      r := Ok(());
    }

    lemma IsBacked(
      clientKey: Key, u: string, d: string, ps: Params, started: Backend, pairs: seq<(string, string)>, frames: seq<Frames.Frame>)
      requires DialledFor(setup, clientKey, u, d, ps, started, pairs, frames)
      requires user == Some(u) && database == Some(d) && params == ps && backend == Some(started) && order == pairs && backendFrames == frames
      ensures Backed(clientKey)
    {
      hide DialledFor;
    }

    lemma NothingRegistered(clientKey: Key, before: Moment)
      requires Kept(before)
      ensures var fate := FateOf(setup, clientKey, params, order, before.taken);
              !fate.Opened? ==> Registered(fate, before)
      ensures match setup.lookups(1, UserOf(params))
              case Unknown => FateOf(setup, clientKey, params, order, before.taken) == Refused(InvalidState)
              case Unavailable => FateOf(setup, clientKey, params, order, before.taken).Silence?
              case Found(verifier) =>
                var fate := FateOf(setup, clientKey, params, order, before.taken);
                if !setup.addressValid then fate.Silence?
                else
                  match Dialled(setup, clientKey, verifier, params, order)
                  case Err(error) => fate == Refused(BackendFailed(error))
                  case Ok(end) => FirstFree(setup.candidates, before.taken, 0).None? ==> fate == Refused(InvalidState)
    {
      hide Dialled, FirstFree;
    }

    lemma Opens(clientKey: Key, verifier: Verifier, before: Moment)
      requires setup.lookups(1, UserOf(params)) == Found(verifier) && setup.addressValid
      requires var end := Dialled(setup, clientKey, verifier, params, order);
               end.Ok? && backend.Some? && Became(backend.value, end.value)
      requires var key := FirstFree(setup.candidates, before.taken, 0);
               && key.Some? && sessionKeySecret == key && sessionGuard == Some(Registry.SessionGuard(connId, key.value))
               && registry.live == before.live[Registry.SessionGuard(connId, key.value) := backend.value]
      requires cancelForwarded == before.forwarded
      ensures var fate := FateOf(setup, clientKey, params, order, before.taken);
              fate.Opened? && Registered(fate, before)
    {
      hide Dialled, FirstFree, Became;
    }

    /** The session now owns its backend and its cancel key. */
    method Adopt(started: Backend, guard: Registry.SessionGuard, ghost frames: seq<Frames.Frame>)
      modifies this`backend, this`serverSignatureVerified, this`sessionKeySecret, this`sessionGuard, this`backendFrames
      ensures backend == Some(started) && serverSignatureVerified == started.serverSignatureVerified
      ensures sessionKeySecret == Some(guard.key) && sessionGuard == Some(guard)
      ensures backendFrames == frames
    {
      serverSignatureVerified := started.serverSignatureVerified;
      backend := Some(started);
      backendFrames := frames;
      sessionKeySecret := Some(guard.key);
      sessionGuard := Some(guard);
    }

    /** Replay the backend's notifications, in order. */
    method SendStartupNotifications(backend: Backend) returns (ok: bool)
      requires At(Authenticated)
      modifies this`output, this`writesLeft, this`sent
      ensures Accepted()
      ensures ok <==> old(writesLeft) >= |backend.startupNotifications|
      ensures Written(old(sent), old(writesLeft), Notes(backend.startupNotifications), sent, writesLeft)
      ensures ok ==> At(Authenticated) || At(Replaying)
    {
      hide WireAll, PhaseOf, CString, BigEndian, Notes;
      var notifications := backend.startupNotifications;
      NoNotes(old(sent));
      for i := 0 to |notifications|
        invariant sent == old(sent) + Notes(notifications[..i])
        invariant writesLeft == old(writesLeft) - i
        invariant At(if i == 0 then Authenticated else Replaying)
      {
        NotesOneMore(old(sent), notifications, i);
        NotesAt(notifications, i);
        ghost var phase := if i == 0 then Authenticated else Replaying;
        ghost var event := Notification(notifications[i]);
        match notifications[i] {
          case ParameterStatus(name, value) =>
            ok := WriteMessage(TAG_STATUS, CString(name) + CString(value), event, phase);
          case Notice(body) =>
            ok := WriteMessage(TAG_NOTICE, body, event, phase);
        }
        if !ok {
          return;
        }
      }
      NotesAt(notifications, |notifications|);
      assert notifications[..|notifications|] == notifications;
      ok := true;
    }

    method SendKeySecret(key: Registry.SessionKeySecret, ghost phase: Phase) returns (ok: bool)
      requires At(phase) && (phase.Authenticated? || phase.Replaying?)
      modifies this`output, this`writesLeft, this`sent
      ensures ok <==> old(writesLeft) > 0
      ensures ok ==> sent == old(sent) + [KeyData(key)] && writesLeft == old(writesLeft) - 1 && At(KeySent)
      ensures !ok ==> sent == old(sent) && writesLeft == 0 && At(phase)
    {
      hide WireAll, PhaseOf, BigEndian;
      ok := WriteMessage(TAG_KEY, BigEndian(key.key) + BigEndian(key.secret), KeyData(key), phase);
    }

    method SendReadySignal(status: byte) returns (ok: bool)
      requires At(KeySent)
      modifies this`output, this`writesLeft, this`sent
      ensures Accepted()
      ensures ok <==> old(writesLeft) > 0
      ensures if ok then sent == old(sent) + [Event.Ready(status)] && writesLeft == old(writesLeft) - 1
              else sent == old(sent) && writesLeft == 0
    {
      hide WireAll, PhaseOf;
      ok := WriteMessage(TAG_READY, [status], Event.Ready(status), KeySent);
    }

    /** Everything a client sees once its backend session is open, as far as it still takes it. */
    method Announce() returns (ok: bool)
      requires At(Authenticated) && backend.Some? && sessionKeySecret.Some?
      modifies this`output, this`writesLeft, this`sent
      ensures Accepted()
      ensures ok <==> old(writesLeft) >= |backend.value.startupNotifications| + 2
      ensures Written(old(sent), old(writesLeft),
                      Notes(backend.value.startupNotifications) + [KeyData(sessionKeySecret.value), Event.Ready(backend.value.readyStatus)],
                      sent, writesLeft)
    {
      hide WireAll, PhaseOf, Notes, Written;
      ghost var (sent0, w0) := (sent, writesLeft);
      ghost var notes := Notes(backend.value.startupNotifications);
      ghost var (key, ready) := (KeyData(sessionKeySecret.value), Event.Ready(backend.value.readyStatus));
      NotesAt(backend.value.startupNotifications, 0);
      assert notes + [key] + [ready] == notes + [key, ready];
      ok := SendStartupNotifications(backend.value);
      ghost var (sent1, w1) := (sent, writesLeft);
      if !ok {
        WrittenShort(sent0, w0, notes, sent1, w1, [key, ready]);
        return;
      }
      LeftOver(sent0, w0, notes, sent1, w1);
      ok := SendKeySecret(sessionKeySecret.value, PhaseOf(sent).value);
      ghost var (sent2, w2) := (sent, writesLeft);
      OneWritten(sent1, w1, key, sent2, w2);
      WrittenOn(sent0, w0, notes, sent1, w1, [key], sent2, w2);
      if !ok {
        WrittenShort(sent0, w0, notes + [key], sent2, w2, [ready]);
        return;
      }
      ok := SendReadySignal(backend.value.readyStatus);
      OneWritten(sent2, w2, ready, sent, writesLeft);
      WrittenOn(sent0, w0, notes + [key], sent2, w2, [ready], sent, writesLeft);
    }

    /** The safety of the whole startup phase, at every point of it. */
    ghost predicate Safe()
      reads this`sent, this`output, this`user, this`evidence, this`sessionKeySecret, this`backend, registry
    {
      Accepted() && Proved() && KeysResolve() && registry.Valid()
    }

    /**
     * The session is up, for the client that proved itself, this is all the client has seen of it since `before`, and
     * what the client has sent since is still to be read.
     */
    ghost predicate IsReady(before: seq<Event>)
      reads this, registry
    {
      && backend.Some? && sessionKeySecret.Some? && evidence.Some? && user.Some?
      && Prepared()
      && input == evidence.value.rest
      && serverSignatureVerified == backend.value.serverSignatureVerified
      && sent == before + Greeting(CertHashInUse(), evidence.value) + Notes(backend.value.startupNotifications)
                 + [KeyData(sessionKeySecret.value), Event.Ready(backend.value.readyStatus)]
      && Resolves(sessionKeySecret.value)
      && Backed(evidence.value.key)
      && Holds(setup, user.value, evidence.value)
    }

    /** How the session of an authenticated client turned out, given what was possible when it was opened. */
    ghost predicate Served(e: Evidence, spoken: seq<Event>, before: Moment, r: Result<Outcome, ProxyError>)
      reads this, registry
      requires before.writes >= |spoken|
    {
      && evidence == Some(e) && Enumerates(order, params)
      && var (fate, left) := (FateOf(setup, e.key, params, order, before.taken), before.writes - |spoken|);
         && Registered(fate, before)
         && Written(before.sent + spoken, left, Shown(fate), sent, writesLeft)
         && r == (match TurnsOut(fate, left) case Ok(_) => Ok(Outcome.Ready) case Err(error) => Err(error))
         && (r.Ok? ==> IsReady(before.sent))
    }

    /** Open the session of an authenticated client and tell the client about it. */
    method RunSession(clientKey: Key) returns (r: Result<(), ProxyError>)
      requires At(Authenticated) && Proved() && Prepared() && evidence.Some?
      requires forall event <- sent :: !event.KeyData?
      requires registry.Valid() && !Registry.ConnIsLive(registry.live, connId)
      modifies this`output, this`writesLeft, this`sent, this`backend, this`serverSignatureVerified, this`sessionKeySecret,
        this`sessionGuard, this`backendFrames, this`order, registry
      ensures Enumerates(order, params) && Safe()
      ensures r.Err? && r.error.Connection? ==> CanReport()
      ensures var fate := FateOf(setup, clientKey, params, order, old(registry.keyBackend.Keys));
              && Registered(fate, old(Now()))
              && Written(old(sent), old(writesLeft), Shown(fate), sent, writesLeft)
              && r == TurnsOut(fate, old(writesLeft))
      ensures r.Ok? ==>
                && backend.Some? && sessionKeySecret.Some? && Resolves(sessionKeySecret.value)
                && Backed(clientKey) && serverSignatureVerified == backend.value.serverSignatureVerified
    {
      hide WireAll, PhaseOf, Holds, Notes, Registry.Agrees, Registry.ConnIsLive, Registry.KeyIsLive, Resolves, Backed, FateOf, Enumerates, Written;
      ghost var (before, taken) := (Now(), registry.keyBackend.Keys);
      var session := OpenSession(clientKey);
      ghost var fate := FateOf(setup, clientKey, params, order, taken);
      if session.Err? {
        NothingWritten(sent, writesLeft);
        return Err(session.error);
      }
      ghost var shown := Shown(fate);
      ShownIs(fate, backend.value);
      var ok := Announce();
      ShownHasOneKey(before.sent, before.writes, fate, sent, writesLeft);
      StillProved(before.sent);
      r := if ok then Ok(()) else Err(Internal);
    }

    /** Authenticate the client, then open its session and tell it so. */
    method ServeSession() returns (r: Result<Outcome, ProxyError>)
      requires InNegotiation() && Prepared()
      requires registry.Valid() && !Registry.ConnIsLive(registry.live, connId)
      modifies this`input, this`output, this`writesLeft, this`sent, this`evidence, this`backend, this`serverSignatureVerified,
        this`sessionKeySecret, this`sessionGuard, this`backendFrames, this`order, registry
      ensures Safe()
      ensures r.Err? && r.error.Connection? ==> CanReport()
      ensures AuthenticationLedTo(Authenticate(setup, user, CertHashInUse(), old(input)), old(Now()), r)
    {
      hide WireAll, PhaseOf, Holds, Greeting, Notes, Registry.Agrees, Registry.ConnIsLive, Registry.KeyIsLive, Resolves, Backed,
        CertHashInUse, KeysResolve, Authenticate, Written, FateOf, Enumerates, Shown, AuthenticationLedTo, Registered,
        TurnsOut, Kept, DialledFor, At, CanReport, Safe, IsReady, Served, Spoken;
      ghost var (before, in0, certHash) := (Now(), input, CertHashInUse());
      ghost var stage := Authenticate(setup, user, certHash, in0);
      var authenticated := HandleAuthentication();
      if authenticated.Err? || authenticated.value.None? {
        AnonymousIsSafe();
        r := if authenticated.Err? then Err(authenticated.error) else Ok(Close);
        NotAuthenticated(stage, before, r);
        return;
      }
      AcceptedIsEvidence(setup, user.value, certHash, in0);
      SpokenWhenAccepted(stage);
      LeftOver(before.sent, before.writes, stage.events, sent, writesLeft);
      GreetingHasNoKey(certHash, evidence.value);
      assert forall event <- sent :: !event.KeyData?;
      var done := RunSession(authenticated.value.value);
      r := if done.Err? then Err(done.error) else Ok(Outcome.Ready);
      SessionRan(stage, before, done, r);
    }

    lemma NotAuthenticated(stage: Stage<Evidence>, before: Moment, r: Result<Outcome, ProxyError>)
      requires before.writes < |Spoken(stage)| || stage.result.Err?
      requires Written(before.sent, before.writes, Spoken(stage), sent, writesLeft) && Kept(before)
      requires r == if before.writes < |Spoken(stage)| || stage.result.error.InternalFailure? then Err(Internal) else Ok(Close)
      ensures AuthenticationLedTo(stage, before, r)
    {
    }

    /** The session of an authenticated client, from its beginning; once shown in full it is ready. */
    lemma SessionRan(stage: Stage<Evidence>, before: Moment, done: Result<(), ProxyError>, r: Result<Outcome, ProxyError>)
      requires evidence.Some? && stage.result == Ok(evidence.value) && before.writes >= |stage.events|
      requires Prepared() && input == evidence.value.rest && stage.events == Greeting(CertHashInUse(), evidence.value) && Enumerates(order, params)
      requires r == if done.Err? then Err(done.error) else Ok(Outcome.Ready)
      requires var (fate, left) := (FateOf(setup, evidence.value.key, params, order, before.taken), before.writes - |stage.events|);
               && Registered(fate, before.(sent := before.sent + stage.events, writes := left))
               && Written(before.sent + stage.events, left, Shown(fate), sent, writesLeft)
               && done == TurnsOut(fate, left)
      requires done.Ok? ==>
                 && backend.Some? && sessionKeySecret.Some? && serverSignatureVerified == backend.value.serverSignatureVerified
                 && Resolves(sessionKeySecret.value) && Backed(evidence.value.key)
      requires user.Some? && Holds(setup, user.value, evidence.value)
      ensures AuthenticationLedTo(stage, before, r)
    {
      hide Holds, Greeting, Resolves, Backed, FateOf, Notes, CertHashInUse, Enumerates;
      if done.Ok? {
        ShownIs(FateOf(setup, evidence.value.key, params, order, before.taken), backend.value);
      }
    }

    /** What authentication and all that follows it led to. */
    ghost predicate AuthenticationLedTo(stage: Stage<Evidence>, before: Moment, r: Result<Outcome, ProxyError>)
      reads this, registry
    {
      var spoken := Spoken(stage);
      if before.writes >= |spoken| && stage.result.Ok? then Served(stage.result.value, spoken, before, r)
      else
        && Written(before.sent, before.writes, spoken, sent, writesLeft) && Kept(before)
        && r == if before.writes < |spoken| || stage.result.error.InternalFailure? then Err(Internal) else Ok(Close)
    }

    /** A startup packet of the protocol version spoken here. */
    method HandleStartupPacket(version: u32, reader: MessageReader) returns (r: Result<Outcome, ProxyError>)
      requires reader.Valid() && InNegotiation()
      requires registry.Valid() && !Registry.ConnIsLive(registry.live, connId)
      modifies this, registry, reader
      ensures Safe()
      ensures r.Err? && r.error.Connection? ==> CanReport()
      ensures SessionLedTo(old(reader.Rest()), old(params), old(input), old(sslDone), old(Now()), r)
    {
      hide WireAll, PhaseOf, Holds, Registry.Agrees, Registry.ConnIsLive, SessionParams, Options.ParseReplicationMode, KeysResolve,
        Authenticate, AuthenticationLedTo;
      SessionHasUser(reader.Rest(), params);
      var prepared := PrepareSession(version, reader);
      if prepared.Err? {
        AnonymousIsSafe();
        return Err(prepared.error);
      }
      r := ServeSession();
    }

    /** What a startup packet led to. */
    ghost predicate SessionLedTo(
      body: Bytes, params0: Params, input0: Bytes, ssl: bool, before: Moment, r: Result<Outcome, ProxyError>)
      reads this, registry
    {
      match SessionParams(body, params0)
      case Err(error) => r == Err(error) && sent == before.sent && writesLeft == before.writes && Kept(before)
      case Ok(merged) =>
        && params == merged && "user" in merged && user == Some(merged["user"])
        && AuthenticationLedTo(Authenticate(setup, Some(merged["user"]), CertHashOf(setup, ssl), input0), before, r)
    }

    /** What one packet led to. */
    ghost predicate LedTo(step: Step, params0: Params, ssl: bool, before: Moment, r: Result<Outcome, ProxyError>)
      reads this, registry
    {
      match step
      case Failure(error) => r == Err(error) && sent == before.sent && writesLeft == before.writes && Kept(before)
      case Closed(request) =>
        && r == Ok(Close) && sent == before.sent && writesLeft == before.writes
        && registry.live == before.live && sessionGuard == before.guard
        && Forwards(before.live, Requested(request), before.forwarded, cancelForwarded)
      case Reply(event, input', ssl', gss') =>
        && Written(before.sent, before.writes, [event], sent, writesLeft) && Kept(before)
        && if before.writes == 0 then r == Err(Internal)
           else
             && r == Ok(Continued) && InNegotiation() && registry.Valid() && registry.keyBackend.Keys == before.taken
             && input == input' && sslDone == ssl' && gssDone == gss' && params == params0
      case Broken(event) => r == Err(Internal) && Written(before.sent, before.writes, [event], sent, writesLeft) && Kept(before)
      case Session(body, input') => SessionLedTo(body, params0, input', ssl, before, r)
    }

    /** What is shown of a session names the backend it was opened to. */
    lemma ShownIs(fate: Fate, backend: Backend)
      requires fate.Opened? && Became(backend, fate.end)
      ensures Shown(fate) == Notes(backend.startupNotifications) + [KeyData(fate.key), Event.Ready(backend.readyStatus)]
      ensures |Shown(fate)| == |backend.startupNotifications| + 2
    {
      NotesAt(backend.startupNotifications, 0);
    }

    lemma ShownHasOneKey(before: seq<Event>, writes: nat, fate: Fate, after: seq<Event>, left: nat)
      requires fate.Opened? && Written(before, writes, Shown(fate), after, left)
      ensures forall event <- after :: event in before || event.Notification? || event == KeyData(fate.key) || event.Ready?
    {
      hide Notes;
      NotesNotify(fate.end.notifications);
      assert forall event <- Shown(fate) :: event.Notification? || event == KeyData(fate.key) || event.Ready?;
      if writes < |Shown(fate)| {
        assert forall event <- Shown(fate)[..writes] :: event in Shown(fate);
      }
    }

    lemma {:induction false} AnyOrder(params: Params) returns (pairs: seq<(string, string)>)
      ensures Enumerates(pairs, params)
      decreases |params|
    {
      if params == map[] {
        return [];
      }
      var name :| name in params;
      var rest := AnyOrder(params - {name});
      pairs := [(name, params[name])] + rest;
      assert pairs[1..] == rest;
    }

    lemma StillProved(before: seq<Event>)
      requires (exists event <- before :: event.AuthenticationOk?) ==> user.Some? && evidence.Some? && Holds(setup, user.value, evidence.value)
      requires forall event <- sent :: event.AuthenticationOk? ==> event in before
      ensures Proved()
    {
      hide Holds;
    }

    lemma AnonymousIsSafe()
      requires Accepted() && Anonymous() && registry.Valid()
      ensures Safe()
    {
      hide WireAll, PhaseOf, Holds, Resolves;
    }

    lemma GreetingHasNoKey(certHash: Option<CertHash>, e: Evidence)
      ensures forall event <- Greeting(certHash, e) :: !event.KeyData?
    {
      hide S.Mechanisms;
    }

    /** One packet of the startup phase. */
    method HandleStartup() returns (r: Result<Outcome, ProxyError>)
      requires InNegotiation()
      requires registry.Valid() && !Registry.ConnIsLive(registry.live, connId)
      modifies this, registry
      ensures Safe()
      ensures r.Err? && r.error.Connection? ==> CanReport()
      ensures LedTo(NextStep(setup, old(input), old(sslDone), old(gssDone)), old(params), old(sslDone), old(Now()), r)
    {
      hide WireAll, PhaseOf, Holds, FromBigEndian, Registry.Agrees, Registry.ConnIsLive, Registry.KeyIsLive, NextPacket,
        SessionLedTo, Written, Forwards, Requested;
      var packet := ReadStartupPacket();
      if packet.Err? {
        AnonymousIsSafe();
        return Err(packet.error);
      }
      var reader := new MessageReader(packet.value);
      var code := reader.ReadU32();
      if code.Err? {
        AnonymousIsSafe();
        return Err(code.error);
      }
      r := Dispatch(code.value, reader);
    }

    /** The packet by its code; `reader` stands behind it. */
    method Dispatch(code: u32, reader: MessageReader) returns (r: Result<Outcome, ProxyError>)
      requires InNegotiation() && reader.Valid()
      requires registry.Valid() && !Registry.ConnIsLive(registry.live, connId)
      modifies this, registry, reader
      ensures Safe()
      ensures r.Err? && r.error.Connection? ==> CanReport()
      ensures LedTo(StepOf(setup, code, old(reader.Rest()), old(input), old(sslDone), old(gssDone)), old(params), old(sslDone), old(Now()), r)
    {
      hide WireAll, PhaseOf, Holds, FromBigEndian, Registry.Agrees, Registry.ConnIsLive, Registry.KeyIsLive, SessionLedTo, Written,
        Forwards, Requested;
      if code == SSL_REQUEST_CODE {
        var done := HandleSslRequest();
        AnonymousIsSafe();
        r := if done.Err? then Err(done.error) else Ok(Continued);
      } else if code == GSSENC_REQUEST_CODE {
        var done := HandleGssencRequest();
        AnonymousIsSafe();
        r := if done.Err? then Err(done.error) else Ok(Continued);
      } else if code == CANCEL_REQUEST_CODE {
        var done := HandleCancelRequest(reader);
        AnonymousIsSafe();
        r := if done.Err? then Err(done.error) else Ok(Close);
      } else if code == PROTOCOL_VERSION_NUMBER {
        if setup.requiredTls && !sslDone {
          AnonymousIsSafe();
          return Err(Connection(TlsRequired));
        }
        r := HandleStartupPacket(code, reader);
      } else {
        AnonymousIsSafe();
        r := Err(Connection(UnsupportedProtocol(code)));
      }
    }

    /**
     * How the driver leaves the connection and the registry, when the script of the input it started with is `script`:
     * what was written, the result, the session that was registered, the cancel request that was forwarded.
     */
    ghost predicate Ended(script: Script, start: Moment, r: Result<bool, ()>)
      reads this, registry
    {
      if start.writes < |script.events| then r == Err(()) && Written([], start.writes, script.events, sent, writesLeft) && Kept(start)
      else
        match script.verdict
        case Stopped(result) => r == result && Written([], start.writes, script.events, sent, writesLeft) && Kept(start)
        case Cancelling(request) =>
          && r == Ok(false) && Written([], start.writes, script.events, sent, writesLeft)
          && registry.live == start.live && sessionGuard == start.guard
          && Forwards(start.live, Requested(request), start.forwarded, cancelForwarded)
        case Serving(merged, e, opening) =>
          && evidence == Some(e) && params == merged && "user" in merged && user == Some(merged["user"]) && Enumerates(order, merged)
          && (r == Ok(true) ==> IsReady(opening))
          && var fate := FateOf(setup, e.key, merged, order, start.taken);
             Finished(fate, script.events + Finale(fate), start, r)
    }

    /** All that was to be said, as far as the client took it. */
    ghost predicate Finished(fate: Fate, events: seq<Event>, start: Moment, r: Result<bool, ()>)
      reads this, registry
    {
      && Registered(fate, start)
      && Written([], start.writes, events, sent, writesLeft)
      && r == if start.writes < |events| then Err(()) else ResultOf(fate)
    }

    /** When everyone cooperates, the client the script serves gets its session. */
    lemma CooperationServes(script: Script, start: Moment, r: Result<bool, ()>)
      requires Ended(script, start, r) && script.verdict.Serving? && start.writes >= |script.events|
      requires Cooperates(setup, script.verdict.evidence.key, script.verdict.params, start.taken, start.writes - |script.events|)
      ensures r == Ok(true) && IsReady(script.verdict.opening)
    {
      hide IsReady, FateOf, Cooperates, Finale, Written, Enumerates, Registered;
      CooperationOpens(setup, script.verdict.evidence.key, script.verdict.params, order, start.taken, start.writes - |script.events|);
    }

    /** However a connection ends, the sessions of all others stay registered, and their keys keep resolving to them. */
    lemma OthersStay(script: Script, start: Moment, r: Result<bool, ()>, other: Registry.SessionGuard)
      requires Ended(script, start, r) && registry.Valid()
      requires other in start.live && other.connId != connId
      ensures other in registry.live && registry.live[other] == start.live[other]
      ensures registry.LookupByKey(other.key) == Some(start.live[other])
    {
      hide IsReady, FateOf, Written, Enumerates, Registry.Agrees, Forwards, Requested, Finale, Became;
    }

    /** As at the start, but for what was written. */
    ghost predicate Since(before: Moment, start: Moment) {
      && before.live == start.live && before.taken == start.taken && before.guard == start.guard && before.forwarded == start.forwarded
      && |before.sent| + before.writes == start.writes
    }

    /** An answered request: the rest of the script is still to come. */
    lemma StepContinues(in0: Bytes, ssl: bool, gss: bool, before: Moment)
      requires LedTo(NextStep(setup, in0, ssl, gss), map[], ssl, before, Ok(Continued))
      ensures InNegotiation() && registry.Valid() && params == map[] && Since(Now(), before.(writes := before.writes + |before.sent|))
      ensures (sslDone && !ssl && gssDone == gss) || (gssDone && !gss && sslDone == ssl)
      ensures ScriptFrom(setup, input, sslDone, gssDone, map[], sent) == ScriptFrom(setup, in0, ssl, gss, map[], before.sent)
    {
      hide WireAll, PhaseOf, NextPacket, FromBigEndian, SessionParams, Authenticate, IsReady, FateOf, Registry.Agrees, Forwards;
    }

    /** A step after which there is nothing more to say. */
    lemma StepEnds(
      in0: Bytes, ssl: bool, gss: bool, before: Moment, start: Moment, outcome: Result<Outcome, ProxyError>, r: Result<bool, ()>)
      requires Since(before, start) && LedTo(NextStep(setup, in0, ssl, gss), map[], ssl, before, outcome)
      requires (outcome == Ok(Outcome.Ready) && r == Ok(true)) || (outcome == Ok(Close) && r == Ok(false)) || (outcome == Err(Internal) && r == Err(()))
      ensures Ended(ScriptFrom(setup, in0, ssl, gss, map[], before.sent), start, r)
    {
      hide WireAll, PhaseOf, NextStep, SessionParams, Authenticate, IsReady, FateOf, Written, SessionLedTo, Spoken, Forwards, Requested,
        Finished, Enumerates, InNegotiation, Ended, Kept, SessionScript;
      var script := ScriptFrom(setup, in0, ssl, gss, map[], before.sent);
      match NextStep(setup, in0, ssl, gss) {
        case Failure(_) =>
          AllWritten(before.sent, before.writes);
          StopsHere(script, before, start, r);
        case Closed(request) =>
          AllWritten(before.sent, before.writes);
          CancelsHere(script, request, start);
        case Reply(event, input', ssl', gss') =>
          ScriptExtends(setup, input', ssl', gss', map[], before.sent + [event]);
          CutShort(before.sent, event, script.events);
          StopsHere(script, before, start, r);
        case Broken(event) =>
          WrittenSince(before.sent, before.writes, [event], sent, writesLeft);
          StopsHere(script, before, start, r);
        case Session(body, input') => SessionEnds(body, input', ssl, before, start, outcome, r);
      }
    }

    lemma StopsHere(script: Script, before: Moment, start: Moment, r: Result<bool, ()>)
      requires Since(before, start) && Kept(before) && Written([], start.writes, script.events, sent, writesLeft)
      requires if start.writes < |script.events| then r == Err(()) else script.verdict == Stopped(r)
      ensures Ended(script, start, r)
    {
    }

    lemma CancelsHere(script: Script, request: CancelBody, start: Moment)
      requires start.writes >= |script.events| && script.verdict == Cancelling(request)
      requires Written([], start.writes, script.events, sent, writesLeft)
      requires registry.live == start.live && sessionGuard == start.guard
      requires Forwards(start.live, Requested(request), start.forwarded, cancelForwarded)
      ensures Ended(script, start, Ok(false))
    {
      hide Forwards, Requested;
    }

    lemma AllWritten(before: seq<Event>, left: nat)
      ensures Written([], |before| + left, before, before, left)
    {
      assert [] + before == before;
    }

    lemma CutShort(before: seq<Event>, event: Event, events: seq<Event>)
      requires before + [event] <= events && Written(before, 0, [event], sent, writesLeft)
      ensures |before| < |events| && Written([], |before|, events, sent, writesLeft)
    {
      assert events[..|before|] == (before + [event])[..|before|];
      assert [event][..0] == [];
    }

    lemma SessionEnds(
      body: Bytes, in0: Bytes, ssl: bool, before: Moment, start: Moment, outcome: Result<Outcome, ProxyError>, r: Result<bool, ()>)
      requires Since(before, start) && SessionLedTo(body, map[], in0, ssl, before, outcome)
      requires (outcome == Ok(Outcome.Ready) && r == Ok(true)) || (outcome == Ok(Close) && r == Ok(false)) || (outcome == Err(Internal) && r == Err(()))
      ensures Ended(SessionScript(setup, body, map[], in0, ssl, before.sent), start, r)
    {
      hide SessionParams, Authenticate, IsReady, FateOf, Written, Spoken, Finished, Enumerates, Forwards, Requested, Served;
      match SessionParams(body, map[]) {
        case Err(_) => AllWritten(before.sent, before.writes);
        case Ok(merged) =>
          var stage := Authenticate(setup, Some(merged["user"]), CertHashOf(setup, ssl), in0);
          if before.writes >= |Spoken(stage)| && stage.result.Ok? {
            ServedEnds(stage.result.value, Spoken(stage), before, start, outcome, r);
          } else {
            WrittenSince(before.sent, before.writes, Spoken(stage), sent, writesLeft);
          }
      }
    }

    lemma ServedEnds(
      e: Evidence, spoken: seq<Event>, before: Moment, start: Moment, outcome: Result<Outcome, ProxyError>, r: Result<bool, ()>)
      requires Since(before, start) && before.writes >= |spoken| && Served(e, spoken, before, outcome)
      requires (outcome == Ok(Outcome.Ready) && r == Ok(true)) || (outcome == Ok(Close) && r == Ok(false)) || (outcome == Err(Internal) && r == Err(()))
      ensures evidence == Some(e) && Enumerates(order, params)
      ensures var fate := FateOf(setup, e.key, params, order, start.taken);
              Finished(fate, before.sent + spoken + Finale(fate), start, r)
      ensures r == Ok(true) ==> IsReady(before.sent)
    {
      hide IsReady, FateOf, Written, Shown, Enumerates;
      var (fate, left) := (FateOf(setup, e.key, params, order, before.taken), before.writes - |spoken|);
      WrittenSince(before.sent + spoken, left, Shown(fate), sent, writesLeft);
    }

    /** A failure to be reported: either the script says so, or the session of a served client was refused. */
    lemma StepFails(in0: Bytes, ssl: bool, gss: bool, before: Moment, start: Moment, error: ConnectionError)
      requires Since(before, start) && LedTo(NextStep(setup, in0, ssl, gss), map[], ssl, before, Err(Connection(error)))
      ensures |sent| + writesLeft == start.writes && Failing(ScriptFrom(setup, in0, ssl, gss, map[], before.sent), start, sent, error)
    {
      hide WireAll, PhaseOf, NextStep, SessionLedTo, SessionScript, Written, Forwards, Requested, FateOf, Enumerates, InNegotiation;
      match NextStep(setup, in0, ssl, gss) {
        case Session(body, input') => SessionFails(body, input', ssl, before, start, error);
        case _ =>
      }
    }

    lemma SessionFails(body: Bytes, in0: Bytes, ssl: bool, before: Moment, start: Moment, error: ConnectionError)
      requires Since(before, start) && SessionLedTo(body, map[], in0, ssl, before, Err(Connection(error)))
      ensures |sent| + writesLeft == start.writes && Failing(SessionScript(setup, body, map[], in0, ssl, before.sent), start, sent, error)
    {
      hide SessionParams, Authenticate, FateOf, Spoken, Enumerates, Served, Written;
      match SessionParams(body, map[]) {
        case Err(_) =>
        case Ok(merged) =>
          var stage := Authenticate(setup, Some(merged["user"]), CertHashOf(setup, ssl), in0);
          if before.writes >= |Spoken(stage)| && stage.result.Ok? {
            ServedFails(stage.result.value, Spoken(stage), before, error);
          }
      }
    }

    lemma ServedFails(e: Evidence, spoken: seq<Event>, before: Moment, error: ConnectionError)
      requires before.writes >= |spoken| && Served(e, spoken, before, Err(Connection(error)))
      ensures evidence == Some(e) && Enumerates(order, params) && FateOf(setup, e.key, params, order, before.taken) == Refused(error)
      ensures Kept(before) && sent == before.sent + spoken && writesLeft == before.writes - |spoken|
    {
      hide FateOf, Enumerates, IsReady;
    }

    /** `error` is all that is left to say. */
    ghost predicate Failing(script: Script, start: Moment, said: seq<Event>, error: ConnectionError)
      reads this`evidence, this`params, this`user, this`order, this`sessionGuard, this`cancelForwarded, registry
    {
      && Kept(start)
      && match script.verdict
         case Stopped(result) => script.events == said + [FailureEvent(error)] && result == Ok(false)
         case Cancelling(_) => false
         case Serving(merged, e, _) =>
           && script.events == said && evidence == Some(e) && params == merged && "user" in merged && user == Some(merged["user"])
           && Enumerates(order, merged) && FateOf(setup, e.key, merged, order, start.taken) == Refused(error)
    }

    /** The one error that ends a failed startup. */
    method ReportFailure(error: ConnectionError, ghost script: Script, ghost start: Moment) returns (r: Result<bool, ()>)
      requires CanReport() && Safe() && |sent| + writesLeft == start.writes && Failing(script, start, sent, error)
      modifies this`output, this`writesLeft, this`sent
      ensures Safe() && Ended(script, start, r)
    {
      hide WireAll, PhaseOf, Holds, Resolves, Written, Failing, Ended, Kept;
      ghost var (reported, left) := (sent, writesLeft);
      var ok := SendErrorMessage(error.Code(), error.Message());
      r := if ok then Ok(false) else Err(());
      FailureEnds(script, start, reported, left, error, r);
      OnlyAnError(reported, left, error);
      StillProved(reported);
    }

    lemma FailureEnds(script: Script, start: Moment, said: seq<Event>, left: nat, error: ConnectionError, r: Result<bool, ()>)
      requires |said| + left == start.writes && Failing(script, start, said, error)
      requires Written(said, left, [FailureEvent(error)], sent, writesLeft) && r == if left > 0 then Ok(false) else Err(())
      ensures Ended(script, start, r)
    {
      hide IsReady, FateOf, FailureEvent, Enumerates;
      WrittenSince(said, left, [FailureEvent(error)], sent, writesLeft);
    }

    lemma OnlyAnError(reported: seq<Event>, left: nat, error: ConnectionError)
      requires Written(reported, left, [FailureEvent(error)], sent, writesLeft)
      ensures forall event <- sent :: event in reported || event.Error?
    {
    }

    /**
     * The startup driver. It handles at most three packets. What the client hears and how the connection ends is the
     * script of its input, cut short only when writes run out; a client the script serves hears of its session, or the one
     * reason why it was refused.
     */
    method DriveStartupUntilReady() returns (r: Result<bool, ()>, turns: nat)
      requires sent == [] && At(Negotiating(false, false)) && !sslDone && !gssDone && params == map[]
      requires registry.Valid() && !Registry.ConnIsLive(registry.live, connId)
      modifies this, registry
      ensures Safe()
      ensures 1 <= turns <= 3
      ensures Ended(ScriptFrom(setup, old(input), false, false, map[], []), old(Now()), r)
    {
      hide WireAll, PhaseOf, Holds, Registry.Agrees, Registry.ConnIsLive, Registry.KeyIsLive, Resolves, IsReady, ScriptFrom, NextStep,
        Ended, LedTo, Failing, FailureEvent;
      turns := 0;
      ghost var script := ScriptFrom(setup, input, false, false, map[], []);
      ghost var start := Now();
      while true
        invariant InNegotiation() && registry.Valid() && Since(Now(), start)
        invariant turns + (if sslDone then 0 else 1) + (if gssDone then 0 else 1) == 2
        invariant params == map[] && ScriptFrom(setup, input, sslDone, gssDone, map[], sent) == script
        decreases if sslDone then 0 else 1, if gssDone then 0 else 1
      {
        ghost var (before, in0, ssl, gss) := (Now(), input, sslDone, gssDone);
        var outcome := HandleStartup();
        turns := turns + 1;
        match outcome {
          case Ok(Continued) =>
            StepContinues(in0, ssl, gss, before);
          case Ok(Ready) =>
            StepEnds(in0, ssl, gss, before, start, outcome, Ok(true));
            return Ok(true), turns;
          case Ok(Close) =>
            StepEnds(in0, ssl, gss, before, start, outcome, Ok(false));
            return Ok(false), turns;
          case Err(Internal) =>
            StepEnds(in0, ssl, gss, before, start, outcome, Err(()));
            return Err(()), turns;
          case Err(Connection(error)) =>
            StepFails(in0, ssl, gss, before, start, error);
            r := ReportFailure(error, script, start);
            return;
        }
      }
    }
  }
}
