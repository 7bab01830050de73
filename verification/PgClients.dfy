/** The backend link as objects that read one byte stream and write another. */
module PgClients {
  import opened Prelude
  import opened BackendErrors
  import opened BackendLinks
  import opened Packet
  import opened Frames
  import opened StartupPacket
  import C = ScramClients
  import Utf8

  method BuildStartupBody(config: PgConfig) returns (message: Bytes)
    ensures message == StartupBody(config.startupParams, config.user, config.database)
  {
    hide PrintParam, PrintParams, Names, Defaults, BigEndian, Utf8.Encode;
    var params := config.startupParams;
    message := BigEndian(PROTOCOL_VERSION_NUMBER);
    var sawUser, sawDatabase, sawApplicationName := false, false, false;
    NothingNamed();
    for i := 0 to |params|
      invariant message == BigEndian(PROTOCOL_VERSION_NUMBER) + PrintParams(params[..i])
      invariant sawUser == Names(params[..i], "user")
      invariant sawDatabase == Names(params[..i], "database")
      invariant sawApplicationName == Names(params[..i], "application_name")
    {
      var (name, value) := params[i];
      assert params[..i + 1] == params[..i] + [params[i]];
      NamesOneMore(params[..i], params[i]);
      sawUser := sawUser || name == "user";
      sawDatabase := sawDatabase || name == "database";
      sawApplicationName := sawApplicationName || name == "application_name";
      message := message + PrintParam(name, value);
    }
    assert params[..|params|] == params;
    DefaultsPrinted(message, params, config.user, config.database);
    if !sawUser {
      message := message + PrintParam("user", config.user);
    }
    if !sawDatabase {
      message := message + PrintParam("database", config.database);
    }
    if !sawApplicationName {
      message := message + PrintParam("application_name", "wirechaos");
    }
    message := message + [0];
  }

  lemma NothingNamed()
    ensures PrintParams([]) == [] && forall name :: !Names([], name)
  {
  }

  class PgClient {
    const link: Link
    var input: Bytes
    var output: Bytes
    var writesLeft: nat
    var exchanges: nat
    var startupNotifications: seq<StartupNotification>
    var backendKey: Option<BackendKeyData>
    var readyStatus: Option<byte>
    var serverSignatureVerified: bool

    constructor (link: Link)
      ensures this.link == link && input == link.input && output == [] && writesLeft == link.writes
      ensures startupNotifications == [] && backendKey.None? && readyStatus.None? && !serverSignatureVerified && exchanges == 0
    {
      this.link := link;
      input, output, writesLeft, exchanges := link.input, [], link.writes, 0;
      startupNotifications, backendKey, readyStatus, serverSignatureVerified := [], None, None, false;
    }

    /** Either everything is written and flushed, or the link has failed. */
    method WriteRaw(bytes: Bytes) returns (r: Result<(), PgError>)
      modifies this`output, this`writesLeft
      ensures r == (if old(writesLeft) == 0 then Err(Io) else Ok(()))
      ensures output == if r.Ok? then old(output) + bytes else old(output)
      ensures r.Ok? ==> writesLeft == old(writesLeft) - 1
    {
      if writesLeft == 0 {
        return Err(Io);
      }
      writesLeft := writesLeft - 1;
      output := output + bytes;
      r := Ok(());
    }

    method WriteMessage(tag: byte, body: Bytes) returns (r: Result<(), PgError>)
      modifies this`output, this`writesLeft
      ensures r == (if old(writesLeft) == 0 then Err(Io) else Ok(()))
      ensures output == if r.Ok? then old(output) + Message(tag, body) else old(output)
      ensures r.Ok? ==> writesLeft == old(writesLeft) - 1
    {
      var packet := [tag];
      packet := packet + BigEndian((4 + |body|) % U32_LIMIT);
      packet := packet + body;
      r := WriteRaw(packet);
    }

    method WriteStartupMessage(config: PgConfig) returns (r: Result<(), PgError>)
      modifies this`output, this`writesLeft
      ensures r == (if old(writesLeft) == 0 then Err(Io) else Ok(()))
      ensures output == if r.Ok? then old(output) + StartupMessage(config) else old(output)
      ensures r.Ok? ==> writesLeft == old(writesLeft) - 1
    {
      var message := BuildStartupBody(config);
      r := WriteRaw(BigEndian((4 + |message|) % U32_LIMIT) + message);
    }

    method ReadExact(n: nat) returns (r: Result<Bytes, PgError>)
      modifies this`input
      ensures if |old(input)| < n then r == Err(Io) else r == Ok(old(input)[..n]) && input == old(input)[n..]
    {
      if |input| < n {
        input := [];
        return Err(Io);
      }
      r := Ok(input[..n]);
      input := input[n..];
    }

    method ReadMessageHeader() returns (r: Result<(byte, nat), PgError>)
      modifies this`input
      ensures if |old(input)| < 5 then r == Err(Io)
              else
                var length := FromBigEndian(old(input)[1..5]);
                && input == old(input)[5..]
                && r == if length < 4 || length >= I32_LIMIT then Err(Protocol) else Ok((old(input)[0], length - 4))
    {
      var header := ReadExact(5);
      if header.Err? {
        return Err(header.error);
      }
      assert header.value[1..] == old(input)[1..5];
      var length := FromBigEndian(header.value[1..]);
      if length < 4 || length >= I32_LIMIT {
        return Err(Protocol);
      }
      r := Ok((header.value[0], length - 4));
    }

    method ReadMessageBody(length: nat) returns (r: Result<Bytes, PgError>)
      modifies this`input
      ensures if length > link.maxCapacity then r == Err(Protocol)
              else if |old(input)| < length then r == Err(Io)
              else r == Ok(old(input)[..length]) && input == old(input)[length..]
    {
      if length > link.maxCapacity {
        return Err(Protocol);
      }
      r := ReadExact(length);
    }

    method ReadFrame() returns (r: Result<Frame, PgError>)
      modifies this`input
      ensures match Read(old(input), link.maxCapacity)
              case Err(error) => r == Err(error)
              case Ok((f, rest)) => r == Ok(f) && input == rest && |input| < |old(input)|
    {
      var header := ReadMessageHeader();
      if header.Err? {
        return Err(header.error);
      }
      var (tag, length) := header.value;
      var body := ReadMessageBody(length);
      if body.Err? {
        return Err(body.error);
      }
      assert old(input)[5..][..length] == old(input)[5..length + 5];
      assert old(input)[5..][length..] == old(input)[length + 5..];
      r := Ok(Frame(tag, body.value));
    }

    /** The link as a value. */
    function State(): LinkState
      reads this
    {
      LinkState(input, output, writesLeft, exchanges, startupNotifications, backendKey, readyStatus, serverSignatureVerified)
    }

    /** The data of the authentication message the exchange is waiting for. */
    method ReadAuthenticationData(expected: u32) returns (r: Result<Bytes, PgError>)
      modifies this`input
      ensures match AuthData(link, old(input), expected)
              case Err(error) => r == Err(error)
              case Ok((data, rest)) => r == Ok(data) && input == rest
    {
      hide Read, FromBigEndian, Lossy, Fields;
      var read := ReadFrame();
      if read.Err? {
        return Err(read.error);
      }
      var f := read.value;
      if f.tag == TAG_ERROR {
        var text := ParseErrorResponse(f.body);
        return Err(Backend(Lossy(text.severity), Lossy(text.code), Lossy(text.message)));
      }
      if f.tag != TAG_AUTH || |f.body| < 4 || FromBigEndian(f.body[..4]) != expected {
        return Err(Protocol);
      }
      r := Ok(f.body[4..]);
    }

    method HandleCleartext(config: PgConfig) returns (r: Result<(), PgError>)
      modifies this`output, this`writesLeft
      ensures if config.password.None? then r == Err(UnsupportedAuth(CleartextNeedsPassword))
              else
                match Sent(old(State()), TAG_PASSWORD, config.password.value + [0])
                case Err(error) => r == Err(error)
                case Ok(next) => r.Ok? && State() == next
    {
      hide Message;
      if config.password.None? {
        return Err(UnsupportedAuth(CleartextNeedsPassword));
      }
      r := WriteMessage(TAG_PASSWORD, config.password.value + [0]);
    }

    method HandleMd5(config: PgConfig, body: Bytes) returns (r: Result<(), PgError>)
      modifies this`output, this`writesLeft
      ensures if |body| != 4 then r == Err(Protocol)
              else if config.password.None? then r == Err(UnsupportedAuth(Md5NeedsPassword))
              else
                match Sent(old(State()), TAG_PASSWORD, link.md5Response(config.user, config.password.value, body) + [0])
                case Err(error) => r == Err(error)
                case Ok(next) => r.Ok? && State() == next
    {
      hide Message;
      if |body| != 4 {
        return Err(Protocol);
      }
      if config.password.None? {
        return Err(UnsupportedAuth(Md5NeedsPassword));
      }
      r := WriteMessage(TAG_PASSWORD, link.md5Response(config.user, config.password.value, body) + [0]);
    }

    method NewScram(config: PgConfig, nonce: C.Nonce, mechanism: SaslMechanism) returns (scram: C.ScramClient)
      requires mechanism.ScramSha256Plus? ==> link.peerCertHash.Some?
      ensures fresh(scram) && scram.Value() == SaslClient(link, config, nonce, mechanism)
    {
      hide *;
      scram := new C.ScramClient(link.crypto, config.clientKey, config.serverKey, config.storedKey, config.password, nonce);
      if mechanism.ScramSha256Plus? {
        scram.UseChannelBinding(link.peerCertHash.value.CbindInput());
      }
      IsSaslClient(link, config, nonce, mechanism);
    }

    /** One SCRAM exchange with the backend, played by a fresh `ScramClient`. */
    method HandleSasl(config: PgConfig, body: Bytes) returns (r: Result<(), PgError>)
      modifies this`input, this`output, this`writesLeft, this`exchanges, this`serverSignatureVerified
      ensures match SaslExchange(link, config, old(State()), body)
              case Err(error) => r == Err(error)
              case Ok(next) => r.Ok? && State() == next
    {
      hide SelectMechanism, SaslWith;
      var chosen := SelectMechanism(config.channelBinding, link.peerCertHash.Some?, body);
      SelectionIsSound(config.channelBinding, link.peerCertHash.Some?, body);
      if chosen.Err? {
        return Err(chosen.error);
      }
      r := RunSasl(config, chosen.value);
    }

    /** The exchange under the selected mechanism. */
    method RunSasl(config: PgConfig, mechanism: SaslMechanism) returns (r: Result<(), PgError>)
      requires mechanism.ScramSha256Plus? ==> link.peerCertHash.Some?
      modifies this`input, this`output, this`writesLeft, this`exchanges, this`serverSignatureVerified
      ensures match SaslWith(link, config, old(State()), mechanism)
              case Err(error) => r == Err(error)
              case Ok(next) => r.Ok? && State() == next
    {
      hide Message, InitialResponse, SaslClient, SaslAnswered;
      var nonce := link.nonces(exchanges);
      exchanges := exchanges + 1;
      var scram := NewScram(config, nonce, mechanism);
      var sent := WriteMessage(TAG_PASSWORD, InitialResponse(mechanism.Name(), scram.Value().ClientFirst()));
      if sent.Err? {
        return Err(sent.error);
      }
      r := AnswerChallenge(config, scram);
    }

    /** The exchange from the server's challenge on. */
    method AnswerChallenge(config: PgConfig, scram: C.ScramClient) returns (r: Result<(), PgError>)
      modifies this`input, this`output, this`writesLeft, this`serverSignatureVerified, scram
      ensures match SaslAnswered(link, config, old(State()), old(scram.Value()))
              case Err(error) => r == Err(error)
              case Ok(next) => r.Ok? && State() == next
    {
      hide Message, AuthData, C.ClientFinal, C.VerifyServerFinal, Utf8.Decode, Utf8.Encode;
      var reply := ReadAuthenticationData(AUTH_SASL_CONTINUE);
      if reply.Err? {
        return Err(reply.error);
      }
      var serverFirst := Utf8.Decode(reply.value);
      if serverFirst.None? {
        return Err(Protocol);
      }
      var final := scram.ClientFinalMessage(serverFirst.value, config.salt, config.iterations);
      if final.Err? {
        return Err(final.error);
      }
      var sent := WriteMessage(TAG_PASSWORD, Utf8.Encode(final.value));
      if sent.Err? {
        return Err(sent.error);
      }
      var last := ReadAuthenticationData(AUTH_SASL_FINAL);
      if last.Err? {
        return Err(last.error);
      }
      var serverFinal := Utf8.Decode(last.value);
      if serverFinal.None? {
        return Err(Protocol);
      }
      var verified := C.VerifyServerFinal(scram.Value(), serverFinal.value);
      if verified.Err? {
        return Err(verified.error);
      }
      serverSignatureVerified := verified.value;
      r := Ok(());
    }

    method HandleAuthRequest(config: PgConfig, body: Bytes) returns (r: Result<(), PgError>)
      modifies this`input, this`output, this`writesLeft, this`exchanges, this`serverSignatureVerified
      ensures match AuthRequest(link, config, old(State()), body)
              case Err(error) => r == Err(error)
              case Ok(next) => r.Ok? && State() == next
    {
      hide SaslExchange, FromBigEndian, Message;
      if |body| < 4 {
        return Err(Protocol);
      }
      var code := FromBigEndian(body[..4]);
      if code == 0 {
        // AuthenticationOk: the client had its own.
        r := Ok(());
      } else if code == 3 {
        r := HandleCleartext(config);
      } else if code == 5 {
        r := HandleMd5(config, body[4..]);
      } else if code == 10 {
        r := HandleSasl(config, body[4..]);
      } else if code == 11 || code == 12 {
        r := Err(Protocol);
      } else {
        r := Err(UnsupportedAuth(UnsupportedMethod(code)));
      }
    }

    /** Everything up to the backend's first ReadyForQuery. */
    method HandleStartupHandshake(config: PgConfig) returns (r: Result<(), PgError>)
      modifies this
      ensures match Handshake(link, config, old(State()))
              case Err(error) => r == Err(error)
              case Ok(end) => r.Ok? && State() == end
    {
      hide Read, AuthRequest, FromBigEndian, ParseStatus, Lossy, Fields;
      while true
        invariant Handshake(link, config, State()) == Handshake(link, config, old(State()))
        decreases |input|
      {
        ghost var before := State();
        var read := ReadFrame();
        if read.Err? {
          return Err(read.error);
        }
        var f := read.value;
        ghost var handled := OneMessage(link, config, State(), f);
        if f.tag == TAG_AUTH {
          var done := HandleAuthRequest(config, f.body);
          if done.Err? {
            return Err(done.error);
          }
        } else if f.tag == TAG_STATUS {
          var status := ParseStatus(f.body);
          if status.None? {
            return Err(Protocol);
          }
          startupNotifications := startupNotifications + [ParameterStatus(status.value.0, status.value.1)];
        } else if f.tag == TAG_NOTICE {
          startupNotifications := startupNotifications + [Notice(f.body)];
        } else if f.tag == TAG_KEY {
          if |f.body| != 8 {
            return Err(Protocol);
          }
          backendKey := Some(BackendKeyData(FromBigEndian(f.body[..4]), FromBigEndian(f.body[4..])));
        } else if f.tag == TAG_READY {
          if f.body == [] {
            return Err(Protocol);
          }
          readyStatus := Some(f.body[0]);
          assert handled == Ok(State());
          break;
        } else if f.tag == TAG_ERROR {
          var text := ParseErrorResponse(f.body);
          return Err(Backend(Lossy(text.severity), Lossy(text.code), Lossy(text.message)));
        } else {
          return Err(Protocol);
        }
        assert handled == Ok(State());
      }
      r := Ok(());
    }
  }

  /** A fully started backend session. Sessions are told apart by identity, as the shared references of the source are. */
  class Backend {
    const startupNotifications: seq<StartupNotification>
    const backendKey: Option<BackendKeyData>
    const readyStatus: byte
    const serverSignatureVerified: bool
    /** Everything written to the backend so far. */
    const output: Bytes

    constructor (client: PgClient)
      ensures startupNotifications == client.startupNotifications && backendKey == client.backendKey
      ensures readyStatus == if client.readyStatus.Some? then client.readyStatus.value else IDLE
      ensures serverSignatureVerified == client.serverSignatureVerified && output == client.output
    {
      startupNotifications := client.startupNotifications;
      backendKey := client.backendKey;
      readyStatus := if client.readyStatus.Some? then client.readyStatus.value else IDLE;
      serverSignatureVerified := client.serverSignatureVerified;
      output := client.output;
    }
  }

  /** The session a link is started to. */
  predicate Became(backend: Backend, end: LinkState) {
    && backend.startupNotifications == end.notifications
    && backend.backendKey == end.key
    && Some(backend.readyStatus) == end.status
    && backend.serverSignatureVerified == end.verified
    && backend.output == end.output
  }

  /**
   * What a started session is: the frames its backend opened with, up to the first ReadyForQuery, relayed, answered and
   * verified. The startup message was the first thing written, every SASL request was answered by a completed exchange,
   * and with a secret at hand the signature was verified exactly when SASL was requested.
   */
  ghost predicate StartedBy(backend: Backend, link: Link, config: PgConfig, frames: seq<Frame>) {
    && Start(link, config).Ok? && Became(backend, Start(link, config).value)
    && AllShort(frames) && PrintAll(frames) <= link.input
    && EndsReady(frames)
    && backend.startupNotifications == Relay(frames)
    && backend.backendKey == LastKey(frames, None)
    && backend.readyStatus == frames[|frames| - 1].body[0]
    && Handled(link, config, frames, 0)
    && backend.output == StartupMessage(config) + Answers(link, config, frames, 0)
    && (HasSecret(config) ==> (backend.serverSignatureVerified <==> AskedForSasl(frames)))
  }

  lemma StartedMeans(backend: Backend, link: Link, config: PgConfig) returns (frames: seq<Frame>)
    requires Start(link, config).Ok? && Became(backend, Start(link, config).value)
    ensures StartedBy(backend, link, config, frames)
  {
    hide Handshake, StartupMessage, PrintAll, Relay, LastKey, EndsReady, Handled, Answers, AskedForSasl, HasSecret;
    var st := LinkState(link.input, StartupMessage(config), link.writes - 1, 0, [], None, None, false);
    frames := HandshakeReads(link, config, st);
    assert [] + Relay(frames) == Relay(frames);
  }

  /** `Backend::new` once the connection is up: startup message, then the handshake. */
  method Connect(link: Link, config: PgConfig) returns (r: Result<Backend, PgError>)
    ensures match Start(link, config)
            case Err(error) => r == Err(error)
            case Ok(end) => r.Ok? && fresh(r.value) && Became(r.value, end)
  {
    hide Handshake, StartupMessage;
    var client := new PgClient(link);
    var begun := client.WriteStartupMessage(config);
    if begun.Err? {
      return Err(begun.error);
    }
    assert [] + StartupMessage(config) == StartupMessage(config);
    var started := client.HandleStartupHandshake(config);
    if started.Err? {
      return Err(started.error);
    }
    ReadyHasStatus(link, config);
    var backend := new Backend(client);
    r := Ok(backend);
  }

  lemma ReadyHasStatus(link: Link, config: PgConfig)
    ensures Start(link, config).Ok? ==> Start(link, config).value.status.Some?
  {
    hide Handshake, StartupMessage, Consumed, Relay, LastKey, EndsReady, Handled, Answers, AskedForSasl, HasSecret;
    if Start(link, config).Ok? {
      var _ := HandshakeReads(link, config, LinkState(link.input, StartupMessage(config), link.writes - 1, 0, [], None, None, false));
    }
  }

  lemma NamesOneMore(pairs: seq<(string, string)>, pair: (string, string))
    ensures forall name :: Names(pairs + [pair], name) <==> Names(pairs, name) || pair.0 == name
    ensures PrintParams(pairs + [pair]) == PrintParams(pairs) + PrintParam(pair.0, pair.1)
  {
    var all := pairs + [pair];
    forall name
      ensures Names(all, name) <==> Names(pairs, name) || pair.0 == name
    {
      if Names(pairs, name) {
        var i :| 0 <= i < |pairs| && pairs[i].0 == name;
        assert all[i].0 == name;
      }
      assert all[|pairs|].0 == pair.0;
    }
    PrintParamsConcat(pairs, [pair]);
    assert [pair][1..] == [];
  }

  lemma DefaultsPrinted(printed: Bytes, pairs: seq<(string, string)>, user: string, database: string)
    ensures printed + PrintParams(Defaults(pairs, user, database))
         == printed + (if Names(pairs, "user") then [] else PrintParam("user", user))
            + (if Names(pairs, "database") then [] else PrintParam("database", database))
            + (if Names(pairs, "application_name") then [] else PrintParam("application_name", "wirechaos"))
  {
    hide PrintParam, PrintParams, Names;
    var a := if Names(pairs, "user") then [] else [("user", user)];
    var b := if Names(pairs, "database") then [] else [("database", database)];
    var c := if Names(pairs, "application_name") then [] else [("application_name", "wirechaos")];
    PrintParamsConcat(a + b, c);
    PrintParamsConcat(a, b);
    PrintedUnlessNamed(Names(pairs, "user"), "user", user);
    PrintedUnlessNamed(Names(pairs, "database"), "database", database);
    PrintedUnlessNamed(Names(pairs, "application_name"), "application_name", "wirechaos");
  }

  lemma PrintedUnlessNamed(named: bool, name: string, value: string)
    ensures PrintParams(if named then [] else [(name, value)]) == if named then [] else PrintParam(name, value)
  {
    hide PrintParam;
    assert [(name, value)][1..] == [];
  }
}
