/** Every error a client is told contains no NUL, whoever its words come from, and so reads back. */
module Reports {
  import opened Prelude
  import opened ProxyErrors
  import opened Packet
  import opened StartupPacket
  import opened BackendErrors
  import opened BackendLinks
  import opened Dialogues
  import opened ChannelBinding
  import opened Verifiers
  import opened Trace
  import opened FixedTexts
  import Decimal
  import Frames
  import Options
  import Registry
  import S = ScramServer
  import Utf8

  predicate ToldCleanly(event: Event) {
    event.Error? ==> Clean(event.code) && Clean(event.message)
  }

  predicate CleanFields(fields: seq<(byte, Bytes)>) {
    forall field <- fields :: 0 !in field.1
  }

  /** Fields end at a NUL, so none contains one. */
  lemma {:induction false} FieldsAreClean(body: Bytes)
    ensures CleanFields(Frames.Fields(body))
    decreases |body|
  {
    if body != [] && body[0] != 0 && FindNul(body, 1).Some? {
      FieldsAreClean(body[FindNul(body, 1).value + 1..]);
    }
  }

  lemma {:induction false} LastIsClean(fields: seq<(byte, Bytes)>, types: set<byte>, default: Bytes)
    requires CleanFields(fields) && 0 !in default
    ensures 0 !in Frames.LastField(fields, types, default)
  {
    if fields != [] {
      LastIsClean(fields[..|fields| - 1], types, default);
    }
  }

  lemma LossyIsClean(b: Bytes)
    requires 0 !in b
    ensures Clean(Frames.Lossy(b))
  {
    if Utf8.Decode(b).Some? {
      Utf8.DecodeThenEncode(b);
      Utf8.EncodeNul(Utf8.Decode(b).value);
    }
  }

  lemma ErrorTextIsClean(fields: seq<(byte, Bytes)>)
    requires CleanFields(fields)
    ensures 0 !in Frames.ErrorOf(fields).code && 0 !in Frames.ErrorOf(fields).message
  {
    hide Frames.LastField, Utf8.Encode, CleanFields;
    Utf8.EncodeNul("XX000");
    LastIsClean(fields, {Frames.C_FIELD}, Utf8.Encode("XX000"));
    LastIsClean(fields, {Frames.M_FIELD}, []);
  }

  /** What a backend reports reaches the proxy without NULs. */
  lemma BackendFailureIsClean(body: Bytes)
    ensures Clean(BackendFailure(body).code) && Clean(BackendFailure(body).message)
  {
    hide Frames.Fields, Frames.ErrorOf, Frames.Lossy, Clean;
    FieldsAreClean(body);
    ErrorTextIsClean(Frames.Fields(body));
    LossyIsClean(Frames.ErrorOf(Frames.Fields(body)).code);
    LossyIsClean(Frames.ErrorOf(Frames.Fields(body)).message);
  }

  /** A failure that is told, when the backend's words in it are clean. */
  lemma FailureIsToldCleanly(error: ConnectionError)
    requires error.BackendFailed? && error.pgError.Backend? ==> Clean(error.pgError.code) && Clean(error.pgError.message)
    ensures ToldCleanly(FailureEvent(error))
  {
    hide ConnectionError.Message, ConnectionError.Code, PgError.Message, PgError.Code, Clean;
    match error {
      case UnsupportedProtocol(version) =>
        VersionIsToldCleanly(version);
      case BackendFailed(pgError) =>
        BackendErrorIsClean(pgError);
        Passed(pgError);
      case _ => FailureIsClean(error);
    }
  }

  lemma VersionIsToldCleanly(version: u32)
    ensures ToldCleanly(FailureEvent(UnsupportedProtocol(version)))
  {
    hide ConnectionError.Message, Clean;
    CodesAreClean();
    VersionIsClean(version);
  }

  lemma Passed(error: PgError)
    ensures BackendFailed(error).Message() == error.Message() && BackendFailed(error).Code() == error.Code()
  {
    hide PgError.Message, PgError.Code;
  }

  /** Why a backend could not be dialled: a backend's own words are those of its last ErrorResponse. */
  lemma DialledIsClean(setup: Setup, clientKey: Key, verifier: Verifier, params: Params, pairs: seq<(string, string)>)
    ensures var dialled := Dialled(setup, clientKey, verifier, params, pairs);
            dialled.Err? && dialled.error.Backend? ==> Clean(dialled.error.code) && Clean(dialled.error.message)
  {
    hide Handshake, BackendFailure, StartupMessage, Clean, Consumed;
    var dialled := Dialled(setup, clientKey, verifier, params, pairs);
    if dialled.Err? && dialled.error.Backend? {
      var config := ConfigFor(setup, clientKey, verifier, UserOf(params), DatabaseOf(params), pairs);
      var link := setup.dial(config).value;
      var frames, _ := HandshakeFails(link, config, LinkState(link.input, StartupMessage(config), link.writes - 1, 0, [], None, None, false));
      BackendFailureIsClean(frames[|frames| - 1].body);
    }
  }

  /** What a client hears after it was authenticated. */
  lemma FinaleIsToldCleanly(setup: Setup, clientKey: Key, params: Params, pairs: seq<(string, string)>, taken: set<Registry.SessionKeySecret>)
    ensures forall event <- Finale(FateOf(setup, clientKey, params, pairs, taken)) :: ToldCleanly(event)
  {
    hide Dialled, FailureEvent, Clean, Notes, FirstFree;
    var fate := FateOf(setup, clientKey, params, pairs, taken);
    match fate {
      case Refused(error) =>
        if error.BackendFailed? {
          DialledIsClean(setup, clientKey, setup.lookups(1, UserOf(params)).verifier, params, pairs);
        }
        FailureIsToldCleanly(error);
      case Opened(end, _) => NotesNotify(end.notifications);
      case Silence =>
    }
  }

  lemma UserIsClean(body: Bytes)
    requires SessionParams(body, map[]).Ok?
    ensures "user" in SessionParams(body, map[]).value && Clean(SessionParams(body, map[]).value["user"])
  {
    hide ParseParams, MergeOptions, Options.ParseReplicationMode;
    ParsedIsSendable(body, map[]);
    MergedIsSendable(ParseParams(body, map[]).value);
  }

  lemma UserIsQuotedCleanly(user: string)
    requires Clean(user)
    ensures Clean(S.AuthenticationFailed(user).Message()) && Clean(S.AuthenticationFailed(user).Code())
  {
    assert Clean("password authentication failed for user \"");
    assert Clean("\"") && Clean("28P01");
    hide Clean;
    Joined("password authentication failed for user \"", user);
    Joined("password authentication failed for user \"" + user, "\"");
  }

  /** Of what the client sent, a refusal quotes at most the name of the user. */
  predicate QuotesOnly(error: S.ScramError, user: string) {
    && (error.AuthenticationFailed? ==> error.user == user)
    && !(error.Protocol? && error.reason.UnsupportedMechanism?)
  }

  predicate Refers(rejection: Rejection, user: string) {
    && (rejection.Scram? ==> QuotesOnly(rejection.scram, user))
    && (rejection.InvalidMessage? ==> Clean(rejection.text))
  }

  lemma RefusalIsToldCleanly(rejection: Rejection, user: string)
    requires Clean(user) && Refers(rejection, user)
    ensures ToldCleanly(RefusalEvent(rejection))
  {
    hide S.ScramError.Message, S.ScramError.Code, Clean;
    OwnRefusalsAreClean();
    if rejection.Scram? {
      if QuotesClient(rejection.scram) {
        UserIsQuotedCleanly(user);
      } else {
        RefusalIsClean(rejection.scram);
      }
    }
  }

  lemma ClientFirstQuotes(server: S.Server, s: S.Session, mechanism: string, message: string, user: string, nonce: Bytes)
    requires mechanism in S.Mechanisms(server.certHash)
    ensures var reply := S.ClientFirst(server, s, mechanism, message, user, nonce).1;
            reply.Err? ==> QuotesOnly(reply.error, user)
  {
    hide S.SplitClientFirst, S.ClientNonce, S.Opened, S.Mechanisms;
  }

  lemma ClientFinalQuotes(server: S.Server, s: S.Session, message: string, user: string)
    ensures var reply := S.ClientFinal(server, s, message, user).1;
            reply.Err? ==> QuotesOnly(reply.error, user)
  {
    hide S.RecoveredKey, S.ServerFinal;
  }

  lemma OfferQuotes(setup: Setup, server: S.Server, user: string, input: Bytes)
    ensures var result := Offer(setup, server, user, input).result;
            result.Err? && result.error.Rejected? ==> Refers(result.error.rejection, user)
  {
    hide S.ClientFirst, S.Mechanisms, SaslResponse, QuotesOnly, ReadCString, Utf8.Decode, FromBigEndian, Clean;
    var mechanisms := S.Mechanisms(server.certHash);
    if SaslResponse(setup, input).Ok? && InitialFields(SaslResponse(setup, input).value.0, mechanisms).Ok? {
      var (mechanism, message) := InitialFields(SaslResponse(setup, input).value.0, mechanisms).value;
      ClientFirstQuotes(server, S.NEW_SESSION, mechanism, message, user, setup.serverNonce);
    } else {
      FramingQuotes(setup, input, if SaslResponse(setup, input).Ok? then SaslResponse(setup, input).value.0 else [], mechanisms, user);
    }
  }

  /** Framing errors quote nothing. */
  lemma FramingQuotes(setup: Setup, input: Bytes, body: Bytes, mechanisms: seq<string>, user: string)
    ensures var response := SaslResponse(setup, input);
            response.Err? && response.error.Rejected? ==> Refers(response.error.rejection, user)
    ensures var fields := InitialFields(body, mechanisms);
            fields.Err? && fields.error.Rejected? ==> Refers(fields.error.rejection, user)
    ensures Clean("malformed SCRAM message")
  {
    hide ReadCString, Utf8.Decode, FromBigEndian, Clean;
    FramingTexts();
  }

  lemma ProveQuotes(setup: Setup, server: S.Server, session: S.Session, user: string, input: Bytes)
    ensures var result := Prove(setup, server, session, user, input).result;
            result.Err? && result.error.Rejected? ==> Refers(result.error.rejection, user)
  {
    hide S.ClientFinal, SaslResponse, QuotesOnly, Utf8.Decode, InitialFields, Clean;
    FramingQuotes(setup, input, [], [], user);
    if SaslResponse(setup, input).Ok? && Utf8.Decode(SaslResponse(setup, input).value.0).Some? {
      ClientFinalQuotes(server, session, Utf8.Decode(SaslResponse(setup, input).value.0).value, user);
    }
  }

  /** What a client hears of its authentication. */
  lemma DialogueIsToldCleanly(setup: Setup, user: string, certHash: Option<CertHash>, input: Bytes)
    requires Clean(user)
    ensures forall event <- Spoken(Authenticate(setup, Some(user), certHash, input)) :: ToldCleanly(event)
  {
    hide Offer, Prove, Refers, RefusalEvent, Clean, Dummy;
    var stage := Authenticate(setup, Some(user), certHash, input);
    if user != "" && VerifierFor(setup, user).Ok? {
      var server := S.Server(setup.crypto, VerifierFor(setup, user).value, certHash);
      OfferQuotes(setup, server, user, input);
      var offered := Offer(setup, server, user, input);
      SaysNoError(setup, server, user, input);
      if offered.result.Ok? {
        ProveQuotes(setup, server, offered.result.value.session, user, offered.rest);
      }
    }
    OtherwiseRefers(user);
    if stage.result.Err? && stage.result.error.Rejected? {
      RefusalIsToldCleanly(stage.result.error.rejection, user);
    }
  }

  lemma OtherwiseRefers(user: string)
    ensures Refers(NoUser, user) && Refers(StoreUnavailable, user)
  {
  }

  lemma SaysNoError(setup: Setup, server: S.Server, user: string, input: Bytes)
    ensures forall event <- Offer(setup, server, user, input).events :: !event.Error?
    ensures forall session, rest :: forall event <- Prove(setup, server, session, user, rest).events :: !event.Error?
  {
    hide S.ClientFirst, S.ClientFinal, SaslResponse, InitialFields, Utf8.Decode;
  }

  predicate NotOfBackend(error: ProxyError) {
    error.Connection? ==> !error.error.BackendFailed?
  }

  lemma {:induction false} ParseSaysWhy(body: Bytes, params: Params)
    ensures ParseParams(body, params).Err? ==> NotOfBackend(ParseParams(body, params).error)
    decreases |body|
  {
    hide Utf8.Decode;
    if ReadCString(body).Ok? {
      var (key, rest) := ReadCString(body).value;
      if ReadCString(rest).Ok? {
        ParseSaysWhy(ReadCString(rest).value.1, params[key := ReadCString(rest).value.0]);
      }
    }
  }

  /** Before a session is opened no failure is a backend's. */
  lemma NegotiationSaysWhy(setup: Setup, input: Bytes, body: Bytes)
    ensures NextPacket(setup, input).Err? ==> NotOfBackend(NextPacket(setup, input).error)
    ensures SessionParams(body, map[]).Err? ==> NotOfBackend(SessionParams(body, map[]).error)
  {
    hide ParseParams, Options.ParseReplicationMode, FromBigEndian;
    ParseSaysWhy(body, map[]);
  }

  /** What a client hears before its session is opened. */
  lemma {:induction false} ScriptIsToldCleanly(setup: Setup, input: Bytes, ssl: bool, gss: bool, opening: seq<Event>)
    requires Replies(opening)
    ensures forall event <- ScriptFrom(setup, input, ssl, gss, map[], opening).events :: ToldCleanly(event)
    decreases if ssl then 0 else 1, if gss then 0 else 1
  {
    hide NextPacket, SessionParams, Authenticate, FromBigEndian, Spoken, FailureEvent, Clean;
    match NextStep(setup, input, ssl, gss) {
      case Failure(Connection(error)) =>
        NegotiationSaysWhy(setup, input, []);
        FailureIsToldCleanly(error);
      case Reply(event, input', ssl', gss') => ScriptIsToldCleanly(setup, input', ssl', gss', opening + [event]);
      case Session(body, input') =>
        NegotiationSaysWhy(setup, input, body);
        match SessionParams(body, map[]) {
          case Err(Connection(error)) => FailureIsToldCleanly(error);
          case Err(Internal) =>
          case Ok(merged) =>
            UserIsClean(body);
            DialogueIsToldCleanly(setup, merged["user"], CertHashOf(setup, ssl), input');
        }
      case _ =>
    }
  }

  /**
   * Everything the proxy tells a client, in the script of its input and in what follows: its own texts, the name of a
   * user, a version, an authentication method, a backend's own code and message. Every ErrorResponse reads back as it
   * was meant.
   */
  lemma ToldReadsBack(
    setup: Setup, input: Bytes, clientKey: Key, params: Params, pairs: seq<(string, string)>, taken: set<Registry.SessionKeySecret>, event: Event)
    requires event.Error?
    requires event in ScriptFrom(setup, input, false, false, map[], []).events || event in Finale(FateOf(setup, clientKey, params, pairs, taken))
    ensures Frames.ErrorOf(Frames.Fields(Frames.ErrorBody("FATAL", event.code, event.message)))
         == Frames.ErrorText(Utf8.Encode("FATAL"), Utf8.Encode(event.code), Utf8.Encode(event.message))
  {
    hide ScriptFrom, FateOf, Finale, Frames.ErrorOf, Frames.Fields, Frames.ErrorBody, Utf8.Encode;
    ScriptIsToldCleanly(setup, input, false, false, []);
    FinaleIsToldCleanly(setup, clientKey, params, pairs, taken);
    assert ToldCleanly(event);
    Frames.ErrorRoundTrip("FATAL", event.code, event.message);
  }

  /** A link whose backend refuses at once with an ErrorResponse fails in exactly its words. */
  lemma RefusalIsRead(link: Link, config: PgConfig, severity: string, code: string, message: string, rest: Bytes)
    requires '\0' !in severity && '\0' !in code && '\0' !in message && link.writes > 0
    requires var body := Frames.ErrorBody(severity, code, message);
             |body| <= link.maxCapacity && |body| + 4 < Frames.I32_LIMIT
             && link.input == Frames.Print(Frames.Frame(69, body)) + rest
    ensures Start(link, config) == Err(Backend(severity, code, message))
  {
    hide Frames.Fields, Frames.ErrorBody, Frames.Print, Frames.Read, Utf8.Encode, Frames.ErrorOf, StartupMessage;
    var body := Frames.ErrorBody(severity, code, message);
    Frames.PrintThenRead(Frames.Frame(69, body), rest, link.maxCapacity);
    Frames.ErrorRoundTrip(severity, code, message);
    LossyIsExact(severity);
    LossyIsExact(code);
    LossyIsExact(message);
  }

  lemma LossyIsExact(s: string)
    ensures Frames.Lossy(Utf8.Encode(s)) == s
  {
    Utf8.EncodeThenDecode(s);
  }

  /**
   * What a client is told when its backend refuses it: always the backend's SQLSTATE, its words for a database that does
   * not exist, too many connections and a server still starting, and otherwise one of three fixed texts.
   */
  lemma BackendRefusalIsTold(severity: string, code: string, message: string)
    ensures var error := BackendFailed(Backend(severity, code, message));
            FailureEvent(error)
            == Event.Error(
              code,
              if code in ["3D000", "53300", "57P03"] then message
              else if |code| >= 2 && code[..2] == "28" then "backend authentication failed"
              else if |code| >= 2 && code[..2] == "08" then "could not connect to the backend database"
              else "backend failed during startup")
  {
  }

  /** The SQLSTATEs of the proxy's own failures. */
  lemma SqlStates(error: ConnectionError)
    ensures !error.BackendFailed? ==>
              FailureEvent(error).code
              == match error
                 case TooManyRequest => "53300"
                 case AuthTimeout => "57014"
                 case MissingUser => "28000"
                 case UnsupportedProtocol(_) => "0A000"
                 case _ => "08P01"
    ensures error.BackendFailed? && !error.pgError.Backend? ==>
              FailureEvent(error).code
              == if error.pgError.Protocol? then "08P01"
                 else if error.pgError.Auth? || error.pgError.UnsupportedAuth? || error.pgError.SaltMismatch? || error.pgError.ChannelBindingRequired?
                 then "28P01" else "08006"
  {
  }

  /** The SQLSTATEs of a refused authentication. */
  lemma RefusalStates(rejection: Rejection)
    ensures RefusalEvent(rejection).code
         == match rejection
            case StoreUnavailable => "08006"
            case NoUser => "28P01"
            case InvalidMessage(_) => "08P01"
            case Scram(error) => if error.AuthenticationFailed? || error.ChannelBindingMismatch? then "28P01" else "08P01"
  {
  }
}
