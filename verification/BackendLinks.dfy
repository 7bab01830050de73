/** The protocol of the backend link, as functions of what has been read and written: startup, authentication, handshake. */
module BackendLinks {
  import opened Prelude
  import opened BackendErrors
  import opened Packet
  import opened Frames
  import opened ChannelBinding
  import opened Verifiers
  import opened StartupPacket
  import C = ScramClients
  import Utf8

  datatype ChannelBindingMode = Disable | Prefer | Require

  datatype SaslMechanism = ScramSha256 | ScramSha256Plus {
    function Name(): string {
      if ScramSha256? then "SCRAM-SHA-256" else "SCRAM-SHA-256-PLUS"
    }
  }

  /** The cancel key of a backend session, both halves as the 32 bits they travel in. */
  datatype BackendKeyData = BackendKeyData(pid: u32, secret: u32)

  datatype StartupNotification = ParameterStatus(name: string, value: string) | Notice(body: Bytes)

  datatype PgConfig = PgConfig(
    clientKey: Option<Bytes>,
    serverKey: Option<Bytes>,
    storedKey: Option<Bytes>,
    password: Option<Bytes>,
    user: string,
    database: string,
    channelBinding: ChannelBindingMode,
    salt: Bytes,
    iterations: u32,
    startupParams: seq<(string, string)>)

  /** The backend's side of the wire and what the link was set up with. */
  datatype Link = Link(
    crypto: Crypto,
    md5Response: (string, Bytes, Bytes) -> Bytes,
    maxCapacity: nat,
    peerCertHash: Option<CertHash>,
    nonces: nat -> C.Nonce,
    input: Bytes,
    writes: nat)

  const AUTH_SASL: u32 := 10
  const AUTH_SASL_CONTINUE: u32 := 11
  const AUTH_SASL_FINAL: u32 := 12

  const IDLE: byte := 'I' as int

  const TAG_AUTH: byte := 'R' as int
  const TAG_STATUS: byte := 'S' as int
  const TAG_NOTICE: byte := 'N' as int
  const TAG_KEY: byte := 'K' as int
  const TAG_READY: byte := 'Z' as int
  const TAG_ERROR: byte := 'E' as int
  const TAG_PASSWORD: byte := 'p' as int

  function SplitNul(b: Bytes): (parts: seq<Bytes>)
    ensures parts != []
  {
    if b == [] then [[]]
    else
      var rest := SplitNul(b[1..]);
      if b[0] == 0 then [[]] + rest else [[b[0]] + rest[0]] + rest[1..]
  }

  predicate Offers(body: Bytes, mechanism: SaslMechanism) {
    Utf8.Encode(mechanism.Name()) in SplitNul(body)
  }

  /** The mechanism the client role selects from what the backend offers. */
  function SelectMechanism(mode: ChannelBindingMode, bindable: bool, body: Bytes): Result<SaslMechanism, PgError> {
    var (plus, plain) := (Offers(body, ScramSha256Plus), Offers(body, ScramSha256));
    if !plus && !plain then Err(UnsupportedAuth(NoSaslMechanism))
    else
      match mode
      case Disable => if plain then Ok(ScramSha256) else Err(UnsupportedAuth(BindingDisabled))
      case Prefer =>
        if plus && bindable then Ok(ScramSha256Plus)
        else if plain then Ok(ScramSha256)
        else Err(UnsupportedAuth(NoUsableMechanism))
      case Require =>
        if !bindable then Err(ChannelBindingRequired(NoCertificateHash))
        else if plus then Ok(ScramSha256Plus)
        else Err(ChannelBindingRequired(PlusNotOffered))
  }

  /** The name and value of a ParameterStatus body; anything after the second C string is ignored. */
  function ParseStatus(body: Bytes): Option<(string, string)> {
    match ReadCString(body)
    case Err(_) => None
    case Ok((name, rest)) =>
      match ReadCString(rest)
      case Err(_) => None
      case Ok((value, _)) => Some((name, value))
  }

  /** What one backend message adds to the notifications a client must see. */
  function Relayed(f: Frame): seq<StartupNotification> {
    if f.tag == TAG_STATUS && ParseStatus(f.body).Some? then
      [ParameterStatus(ParseStatus(f.body).value.0, ParseStatus(f.body).value.1)]
    else if f.tag == TAG_NOTICE then [Notice(f.body)]
    else []
  }

  function Relay(frames: seq<Frame>): seq<StartupNotification> {
    if frames == [] then [] else Relay(frames[..|frames| - 1]) + Relayed(frames[|frames| - 1])
  }

  function KeyOf(body: Bytes): BackendKeyData
    requires |body| == 8
  {
    BackendKeyData(FromBigEndian(body[..4]), FromBigEndian(body[4..]))
  }

  /** The key of the last BackendKeyData among the frames. */
  function LastKey(frames: seq<Frame>, default: Option<BackendKeyData>): Option<BackendKeyData> {
    if frames == [] then default
    else
      var last := frames[|frames| - 1];
      if last.tag == TAG_KEY && |last.body| == 8 then Some(KeyOf(last.body)) else LastKey(frames[..|frames| - 1], default)
  }

  predicate AllShort(frames: seq<Frame>) {
    forall f <- frames :: |f.body| + 4 < I32_LIMIT
  }

  function PrintAll(frames: seq<Frame>): Bytes
    requires AllShort(frames)
  {
    if frames == [] then [] else PrintAll(frames[..|frames| - 1]) + Print(frames[|frames| - 1])
  }

  /** `consumed` is exactly the frames, none of which ended the startup phase. */
  predicate Consumed(before: Bytes, frames: seq<Frame>, after: Bytes) {
    AllShort(frames) && before == PrintAll(frames) + after
  }

  lemma ConsumedOne(before: Bytes, frames: seq<Frame>, middle: Bytes, f: Frame, after: Bytes)
    requires Consumed(before, frames, middle)
    requires |f.body| + 4 < I32_LIMIT && middle == Print(f) + after
    ensures Consumed(before, frames + [f], after)
  {
    hide *;
    ConsumedMeans(before, frames, middle);
    PrintAllOneMore(frames, f);
    Grouped(PrintAll(frames), Print(f), after);
    ConsumedWhen(before, frames + [f], after);
  }

  /** The untagged first message to the backend. */
  function StartupMessage(config: PgConfig): Bytes {
    var body := StartupBody(config.startupParams, config.user, config.database);
    BigEndian((4 + |body|) % U32_LIMIT) + body
  }

  /** The body of a SASLInitialResponse. */
  function InitialResponse(mechanism: string, clientFirst: string): Bytes {
    var first := Utf8.Encode(clientFirst);
    CString(mechanism) + BigEndian(|first| % U32_LIMIT) + first
  }

  predicate IsAuth(f: Frame, code: u32) {
    f.tag == TAG_AUTH && |f.body| >= 4 && FromBigEndian(f.body[..4]) == code
  }

  /** A message the startup phase goes on after. */
  predicate Harmless(f: Frame) {
    && f.tag in {TAG_AUTH, TAG_STATUS, TAG_NOTICE, TAG_KEY}
    && (f.tag == TAG_STATUS ==> ParseStatus(f.body).Some?)
    && (f.tag == TAG_KEY ==> |f.body| == 8)
  }

  /** The frames are everything up to and including the first ReadyForQuery. */
  predicate EndsReady(frames: seq<Frame>) {
    && frames != []
    && frames[|frames| - 1].tag == TAG_READY
    && frames[|frames| - 1].body != []
    && forall i | 0 <= i < |frames| - 1 :: Harmless(frames[i])
  }

  function BackendFailure(body: Bytes): PgError {
    var text := ErrorOf(Fields(body));
    Backend(Lossy(text.severity), Lossy(text.code), Lossy(text.message))
  }

  /** The client of one exchange; the bound mechanism is selected only with a certificate at hand. */
  function SaslClient(link: Link, config: PgConfig, nonce: C.Nonce, mechanism: SaslMechanism): C.Client {
    var client := C.NewClient(link.crypto, config.clientKey, config.serverKey, config.storedKey, config.password, nonce);
    if mechanism.ScramSha256Plus? && link.peerCertHash.Some? then client.UseChannelBinding(link.peerCertHash.value.CbindInput()) else client
  }

  lemma IsSaslClient(link: Link, config: PgConfig, nonce: C.Nonce, mechanism: SaslMechanism)
    requires mechanism.ScramSha256Plus? ==> link.peerCertHash.Some?
    ensures var client := C.NewClient(link.crypto, config.clientKey, config.serverKey, config.storedKey, config.password, nonce);
            SaslClient(link, config, nonce, mechanism)
            == if mechanism.ScramSha256Plus? then client.UseChannelBinding(link.peerCertHash.value.CbindInput()) else client
    ensures SaslClient(link, config, nonce, mechanism).serverKey == config.serverKey
    ensures SaslClient(link, config, nonce, mechanism).password == config.password
  {
  }

  lemma SelectionIsSound(mode: ChannelBindingMode, bindable: bool, body: Bytes)
    ensures match SelectMechanism(mode, bindable, body)
            case Ok(mechanism) =>
              && Offers(body, mechanism)
              && (mechanism.ScramSha256Plus? ==> bindable)
              && (mode.Require? ==> mechanism.ScramSha256Plus?)
              && (mode.Disable? ==> mechanism.ScramSha256?)
            case Err(error) => !error.Backend?
  {
    hide Offers;
  }

  /** Which mechanism is selected, and why none is, for every mode. */
  lemma SelectionIsExact(mode: ChannelBindingMode, bindable: bool, body: Bytes)
    ensures var (plus, plain) := (Offers(body, ScramSha256Plus), Offers(body, ScramSha256));
            var chosen := SelectMechanism(mode, bindable, body);
            && (chosen == Ok(ScramSha256Plus) <==> plus && bindable && !mode.Disable?)
            && (chosen == Ok(ScramSha256) <==> plain && !mode.Require? && !(mode.Prefer? && plus && bindable))
            && (chosen == Err(UnsupportedAuth(NoSaslMechanism)) <==> !plus && !plain)
            && (chosen == Err(UnsupportedAuth(BindingDisabled)) <==> mode.Disable? && plus && !plain)
            && (chosen == Err(UnsupportedAuth(NoUsableMechanism)) <==> mode.Prefer? && plus && !plain && !bindable)
            && (chosen == Err(ChannelBindingRequired(NoCertificateHash)) <==> mode.Require? && (plus || plain) && !bindable)
            && (chosen == Err(ChannelBindingRequired(PlusNotOffered)) <==> mode.Require? && plain && !plus && bindable)
  {
    hide Offers;
  }

  lemma ClientErrors(client: C.Client, serverFirst: string, salt: Bytes, iterations: u32)
    ensures var r := C.ClientFinal(client, serverFirst, salt, iterations).1;
            r.Err? ==> !r.error.Backend?
  {
    hide C.ParseKv;
  }

  lemma VerifyErrors(client: C.Client, serverFinal: string)
    ensures var r := C.VerifyServerFinal(client, serverFinal);
            r.Err? ==> !r.error.Backend?
  {
    hide C.ParseKv;
  }

  /** With a password or a ServerKey at hand, an exchange that completes has verified the backend. */
  lemma KeysMeanVerified(client: C.Client, serverFirst: string, salt: Bytes, iterations: u32, serverFinal: string)
    ensures var (client', r) := C.ClientFinal(client, serverFirst, salt, iterations);
            r.Ok? && (client.serverKey.Some? || client.password.Some?) ==> C.VerifyServerFinal(client', serverFinal) != Ok(false)
  {
    hide C.ReadServerFirst, C.ParseKv, C.WithoutProof, C.AuthMessage, Xor, Utf8.Encode, ClientKey, ServerKey;
  }

  lemma NothingConsumed(input: Bytes)
    ensures Consumed(input, [], input)
  {
    assert PrintAll([]) + input == input;
  }

  lemma AllShortConcat(a: seq<Frame>, b: seq<Frame>)
    ensures AllShort(a + b) <==> AllShort(a) && AllShort(b)
  {
    if AllShort(a + b) {
      assert forall f <- a :: f in a + b;
      assert forall f <- b :: f in a + b;
    }
  }

  lemma PrintAllOneMore(frames: seq<Frame>, f: Frame)
    requires AllShort(frames) && |f.body| + 4 < I32_LIMIT
    ensures AllShort(frames + [f]) && PrintAll(frames + [f]) == PrintAll(frames) + Print(f)
  {
    AllShortConcat(frames, [f]);
    assert (frames + [f])[..|frames|] == frames;
    hide Print;
  }

  lemma {:induction false} PrintAllConcat(a: seq<Frame>, b: seq<Frame>)
    requires AllShort(a) && AllShort(b)
    ensures AllShort(a + b) && PrintAll(a + b) == PrintAll(a) + PrintAll(b)
  {
    hide *;
    AllShortConcat(a, b);
    if b == [] {
      NothingPrinted();
      assert a + b == a && PrintAll(a) + [] == PrintAll(a);
    } else {
      var (b', f) := (b[..|b| - 1], b[|b| - 1]);
      LastOf(a, b);
      PrintAllConcat(a, b');
      PrintAllOneMore(a + b', f);
      PrintAllOneMore(b', f);
      Grouped(PrintAll(a), PrintAll(b'), Print(f));
    }
  }

  lemma NothingPrinted()
    ensures AllShort([]) && PrintAll([]) == [] && Relay([]) == []
  {
  }

  lemma LastOf(a: seq<Frame>, b: seq<Frame>)
    requires b != [] && AllShort(b)
    ensures var (b', f) := (b[..|b| - 1], b[|b| - 1]);
            && b == b' + [f] && a + b == (a + b') + [f]
            && AllShort(b') && |f.body| + 4 < I32_LIMIT
  {
  }

  lemma Grouped(x: Bytes, y: Bytes, z: Bytes)
    ensures x + y + z == x + (y + z)
  {
  }

  lemma ConsumedMeans(before: Bytes, frames: seq<Frame>, after: Bytes)
    requires Consumed(before, frames, after)
    ensures AllShort(frames) && before == PrintAll(frames) + after
  {
  }

  lemma ConsumedWhen(before: Bytes, frames: seq<Frame>, after: Bytes)
    requires AllShort(frames) && before == PrintAll(frames) + after
    ensures Consumed(before, frames, after)
  {
  }

  lemma ConsumedTwo(before: Bytes, a: seq<Frame>, middle: Bytes, b: seq<Frame>, after: Bytes)
    requires Consumed(before, a, middle) && Consumed(middle, b, after)
    ensures Consumed(before, a + b, after)
  {
    hide *;
    ConsumedMeans(before, a, middle);
    ConsumedMeans(middle, b, after);
    PrintAllConcat(a, b);
    Grouped(PrintAll(a), PrintAll(b), after);
    ConsumedWhen(before, a + b, after);
  }

  lemma RelayedOne(earlier: seq<Frame>, f: Frame, default: Option<BackendKeyData>)
    ensures Relay(earlier + [f]) == Relay(earlier) + Relayed(f)
    ensures LastKey(earlier + [f], default) == if f.tag == TAG_KEY && |f.body| == 8 then Some(KeyOf(f.body)) else LastKey(earlier, default)
  {
    var all := earlier + [f];
    assert all[..|all| - 1] == earlier;
  }

  lemma {:induction false} RelayConcat(a: seq<Frame>, b: seq<Frame>)
    ensures Relay(a + b) == Relay(a) + Relay(b)
  {
    if b == [] {
      assert a + b == a;
    } else {
      assert (a + b)[..|a + b| - 1] == a + b[..|b| - 1];
      RelayConcat(a, b[..|b| - 1]);
    }
  }

  lemma {:induction false} LastKeyConcat(a: seq<Frame>, b: seq<Frame>, default: Option<BackendKeyData>)
    ensures LastKey(a + b, default) == LastKey(b, LastKey(a, default))
  {
    if b == [] {
      assert a + b == a;
    } else {
      assert (a + b)[..|a + b| - 1] == a + b[..|b| - 1];
      LastKeyConcat(a, b[..|b| - 1], default);
    }
  }

  /** How far a link has come: what is left to read, what was written, and what the opening messages said. */
  datatype LinkState = LinkState(
    input: Bytes,
    output: Bytes,
    writesLeft: nat,
    exchanges: nat,
    notifications: seq<StartupNotification>,
    key: Option<BackendKeyData>,
    status: Option<byte>,
    verified: bool)

  type Turn = Result<LinkState, PgError>

  /** One message written whole, or the link has failed. */
  function Sent(st: LinkState, tag: byte, body: Bytes): (r: Turn)
    ensures r.Ok? ==> r.value.input == st.input
  {
    if st.writesLeft == 0 then Err(Io)
    else Ok(st.(output := st.output + Message(tag, body), writesLeft := st.writesLeft - 1))
  }

  /** The data of the one authentication message an exchange is waiting for, and what follows it. */
  function AuthData(link: Link, input: Bytes, expected: u32): (r: Result<(Bytes, Bytes), PgError>)
    ensures r.Ok? ==> |r.value.1| < |input|
  {
    match Read(input, link.maxCapacity)
    case Err(error) => Err(error)
    case Ok((f, rest)) =>
      if f.tag == TAG_ERROR then Err(BackendFailure(f.body))
      else if !IsAuth(f, expected) then Err(Protocol)
      else Ok((f.body[4..], rest))
  }

  /** One SCRAM exchange with the backend, played by a fresh client under the selected mechanism. */
  function SaslExchange(link: Link, config: PgConfig, st: LinkState, body: Bytes): (r: Turn)
    ensures r.Ok? ==> |r.value.input| <= |st.input|
  {
    match SelectMechanism(config.channelBinding, link.peerCertHash.Some?, body)
    case Err(error) => Err(error)
    case Ok(mechanism) => SaslWith(link, config, st, mechanism)
  }

  function SaslWith(link: Link, config: PgConfig, st: LinkState, mechanism: SaslMechanism): (r: Turn)
    ensures r.Ok? ==> |r.value.input| <= |st.input|
  {
    var client := SaslClient(link, config, link.nonces(st.exchanges), mechanism);
    match Sent(st.(exchanges := st.exchanges + 1), TAG_PASSWORD, InitialResponse(mechanism.Name(), client.ClientFirst()))
    case Err(error) => Err(error)
    case Ok(offered) => SaslAnswered(link, config, offered, client)
  }

  /** The exchange from the server's challenge on. */
  function SaslAnswered(link: Link, config: PgConfig, st: LinkState, client: C.Client): (r: Turn)
    ensures r.Ok? ==> |r.value.input| <= |st.input|
  {
    match AuthData(link, st.input, AUTH_SASL_CONTINUE)
    case Err(error) => Err(error)
    case Ok((challenge, rest)) =>
      match Utf8.Decode(challenge)
      case None => Err(Protocol)
      case Some(serverFirst) =>
        var (client', final) := C.ClientFinal(client, serverFirst, config.salt, config.iterations);
        match final
        case Err(error) => Err(error)
        case Ok(message) =>
          match Sent(st.(input := rest), TAG_PASSWORD, Utf8.Encode(message))
          case Err(error) => Err(error)
          case Ok(proved) => SaslVerified(link, proved, client')
  }

  /** The exchange from the server's signature on. */
  function SaslVerified(link: Link, st: LinkState, client: C.Client): (r: Turn)
    ensures r.Ok? ==> |r.value.input| <= |st.input|
  {
    match AuthData(link, st.input, AUTH_SASL_FINAL)
    case Err(error) => Err(error)
    case Ok((outcome, rest)) =>
      match Utf8.Decode(outcome)
      case None => Err(Protocol)
      case Some(serverFinal) =>
        match C.VerifyServerFinal(client, serverFinal)
        case Err(error) => Err(error)
        case Ok(verified) => Ok(st.(input := rest, verified := verified))
  }

  /** What an authentication request is answered with. */
  function AuthRequest(link: Link, config: PgConfig, st: LinkState, body: Bytes): (r: Turn)
    ensures r.Ok? ==> |r.value.input| <= |st.input|
  {
    if |body| < 4 then Err(Protocol)
    else
      var code := FromBigEndian(body[..4]);
      if code == 0 then Ok(st)
      else if code == 3 then
        if config.password.None? then Err(UnsupportedAuth(CleartextNeedsPassword))
        else Sent(st, TAG_PASSWORD, config.password.value + [0])
      else if code == 5 then
        if |body| != 8 then Err(Protocol)
        else if config.password.None? then Err(UnsupportedAuth(Md5NeedsPassword))
        else Sent(st, TAG_PASSWORD, link.md5Response(config.user, config.password.value, body[4..]) + [0])
      else if code == 10 then SaslExchange(link, config, st, body[4..])
      else if code == 11 || code == 12 then Err(Protocol)
      else Err(UnsupportedAuth(UnsupportedMethod(code)))
  }

  /** The effect of one backend message. */
  function OneMessage(link: Link, config: PgConfig, st: LinkState, f: Frame): (r: Turn)
    ensures r.Ok? ==> |r.value.input| <= |st.input|
  {
    if f.tag == TAG_AUTH then AuthRequest(link, config, st, f.body)
    else if f.tag == TAG_STATUS then
      match ParseStatus(f.body)
      case None => Err(Protocol)
      case Some((name, value)) => Ok(st.(notifications := st.notifications + [ParameterStatus(name, value)]))
    else if f.tag == TAG_NOTICE then Ok(st.(notifications := st.notifications + [Notice(f.body)]))
    else if f.tag == TAG_KEY then if |f.body| != 8 then Err(Protocol) else Ok(st.(key := Some(KeyOf(f.body))))
    else if f.tag == TAG_READY then if f.body == [] then Err(Protocol) else Ok(st.(status := Some(f.body[0])))
    else if f.tag == TAG_ERROR then Err(BackendFailure(f.body))
    else Err(Protocol)
  }

  /** Everything up to the backend's first ReadyForQuery. */
  function Handshake(link: Link, config: PgConfig, st: LinkState): Turn
    decreases |st.input|
  {
    match Read(st.input, link.maxCapacity)
    case Err(error) => Err(error)
    case Ok((f, rest)) =>
      match OneMessage(link, config, st.(input := rest), f)
      case Err(error) => Err(error)
      case Ok(next) => if f.tag == TAG_READY then Ok(next) else Handshake(link, config, next)
  }

  /** A link from its startup message to its first ReadyForQuery. */
  function Start(link: Link, config: PgConfig): Turn {
    if link.writes == 0 then Err(Io)
    else Handshake(link, config, LinkState(link.input, StartupMessage(config), link.writes - 1, 0, [], None, None, false))
  }

  predicate HasSecret(config: PgConfig) {
    config.serverKey.Some? || config.password.Some?
  }

  /**
   * The two messages are the server's side of a completed exchange with `SaslClient`; with a ServerKey or a password at
   * hand the server was verified.
   */
  predicate SaslRun(link: Link, config: PgConfig, nonce: C.Nonce, body: Bytes, frames: seq<Frame>) {
    var chosen := SelectMechanism(config.channelBinding, link.peerCertHash.Some?, body);
    && chosen.Ok?
    && (chosen.value.ScramSha256Plus? ==> link.peerCertHash.Some?)
    && |frames| == 2
    && IsAuth(frames[0], AUTH_SASL_CONTINUE)
    && IsAuth(frames[1], AUTH_SASL_FINAL)
    && Utf8.Decode(frames[0].body[4..]).Some?
    && Utf8.Decode(frames[1].body[4..]).Some?
    && var client := SaslClient(link, config, nonce, chosen.value);
       var (client', final) := C.ClientFinal(client, Utf8.Decode(frames[0].body[4..]).value, config.salt, config.iterations);
       var verdict := C.VerifyServerFinal(client', Utf8.Decode(frames[1].body[4..]).value);
       final.Ok? && verdict.Ok? && (HasSecret(config) ==> verdict == Ok(true))
  }

  /** What the client role writes in a completed exchange. */
  function SaslAnswer(link: Link, config: PgConfig, nonce: C.Nonce, body: Bytes, frames: seq<Frame>): Bytes
    requires SaslRun(link, config, nonce, body, frames)
  {
    var chosen := SelectMechanism(config.channelBinding, link.peerCertHash.Some?, body).value;
    var client := SaslClient(link, config, nonce, chosen);
    var final := C.ClientFinal(client, Utf8.Decode(frames[0].body[4..]).value, config.salt, config.iterations).1;
    Message(TAG_PASSWORD, InitialResponse(chosen.Name(), client.ClientFirst())) + Message(TAG_PASSWORD, Utf8.Encode(final.value))
  }

  /** What any other message is answered with. */
  function PlainAnswer(link: Link, config: PgConfig, f: Frame): Bytes {
    if config.password.None? then []
    else if IsAuth(f, 3) then Message(TAG_PASSWORD, config.password.value + [0])
    else if IsAuth(f, 5) then Message(TAG_PASSWORD, link.md5Response(config.user, config.password.value, f.body[4..]) + [0])
    else []
  }

  /** Every SASL request is followed by the two messages of a completed exchange. */
  predicate Handled(link: Link, config: PgConfig, frames: seq<Frame>, exchanges: nat)
    decreases |frames|
  {
    frames == []
    || (if IsAuth(frames[0], AUTH_SASL) then
          && |frames| >= 3
          && SaslRun(link, config, link.nonces(exchanges), frames[0].body[4..], frames[1..3])
          && Handled(link, config, frames[3..], exchanges + 1)
        else Handled(link, config, frames[1..], exchanges))
  }

  /** All that is written in answer to the frames. */
  function Answers(link: Link, config: PgConfig, frames: seq<Frame>, exchanges: nat): Bytes
    requires Handled(link, config, frames, exchanges)
    decreases |frames|
  {
    if frames == [] then []
    else if IsAuth(frames[0], AUTH_SASL) then
      SaslAnswer(link, config, link.nonces(exchanges), frames[0].body[4..], frames[1..3])
      + Answers(link, config, frames[3..], exchanges + 1)
    else PlainAnswer(link, config, frames[0]) + Answers(link, config, frames[1..], exchanges)
  }

  predicate AskedForSasl(frames: seq<Frame>) {
    exists f <- frames :: IsAuth(f, AUTH_SASL)
  }

  /** The frames up to the first ReadyForQuery are exactly what took the link from `st` to `end`. */
  ghost predicate Opening(link: Link, config: PgConfig, st: LinkState, frames: seq<Frame>, end: LinkState) {
    && Consumed(st.input, frames, end.input)
    && EndsReady(frames)
    && end.notifications == st.notifications + Relay(frames)
    && end.key == LastKey(frames, st.key)
    && end.status == Some(frames[|frames| - 1].body[0])
    && Handled(link, config, frames, st.exchanges)
    && end.output == st.output + Answers(link, config, frames, st.exchanges)
    && (HasSecret(config) ==> (end.verified <==> st.verified || AskedForSasl(frames)))
  }

  lemma AuthDataReads(link: Link, input: Bytes, expected: u32) returns (f: Frame)
    requires AuthData(link, input, expected).Ok?
    ensures var (data, rest) := AuthData(link, input, expected).value;
            IsAuth(f, expected) && |f.body| >= 4 && data == f.body[4..] && Consumed(input, [f], rest)
  {
    hide BigEndian, FromBigEndian, Print, Read;
    ReadInverts(input, link.maxCapacity);
    var rest: Bytes;
    f, rest := Read(input, link.maxCapacity).value.0, Read(input, link.maxCapacity).value.1;
    NothingConsumed(input);
    ConsumedOne(input, [], input, f, rest);
    assert [] + [f] == [f];
  }

  /** What the exchange reads and writes from the server's challenge on. */
  lemma AnsweredReads(link: Link, config: PgConfig, st: LinkState, client: C.Client) returns (first: Frame, last: Frame)
    requires SaslAnswered(link, config, st, client).Ok?
    ensures IsAuth(first, AUTH_SASL_CONTINUE) && |first.body| >= 4 && IsAuth(last, AUTH_SASL_FINAL) && |last.body| >= 4
    ensures Utf8.Decode(first.body[4..]).Some? && Utf8.Decode(last.body[4..]).Some?
    ensures var end := SaslAnswered(link, config, st, client).value;
            var (client', final) := C.ClientFinal(client, Utf8.Decode(first.body[4..]).value, config.salt, config.iterations);
            && Consumed(st.input, [first, last], end.input)
            && final.Ok? && C.VerifyServerFinal(client', Utf8.Decode(last.body[4..]).value) == Ok(end.verified)
            && end == st.(input := end.input, writesLeft := end.writesLeft, verified := end.verified,
                          output := st.output + Message(TAG_PASSWORD, Utf8.Encode(final.value)))
  {
    hide AuthData, Consumed, IsAuth, Message, C.ClientFinal, C.VerifyServerFinal, Utf8.Decode, Utf8.Encode;
    first := AuthDataReads(link, st.input, AUTH_SASL_CONTINUE);
    var middle := AuthData(link, st.input, AUTH_SASL_CONTINUE).value.1;
    last := AuthDataReads(link, middle, AUTH_SASL_FINAL);
    var rest := AuthData(link, middle, AUTH_SASL_FINAL).value.1;
    ConsumedTwo(st.input, [first], middle, [last], rest);
    assert [first] + [last] == [first, last];
  }

  lemma SaslReads(link: Link, config: PgConfig, st: LinkState, body: Bytes) returns (frames: seq<Frame>)
    requires SaslExchange(link, config, st, body).Ok?
    ensures var end := SaslExchange(link, config, st, body).value;
            && Consumed(st.input, frames, end.input)
            && SaslRun(link, config, link.nonces(st.exchanges), body, frames)
            && end == st.(input := end.input, writesLeft := end.writesLeft, exchanges := st.exchanges + 1, verified := end.verified,
                          output := st.output + SaslAnswer(link, config, link.nonces(st.exchanges), body, frames))
            && (HasSecret(config) ==> end.verified)
  {
    hide SaslAnswered, Consumed, IsAuth, Message, InitialResponse, C.ClientFinal, C.VerifyServerFinal, SelectMechanism, Utf8.Decode, Utf8.Encode;
    var nonce := link.nonces(st.exchanges);
    SelectionIsSound(config.channelBinding, link.peerCertHash.Some?, body);
    var mechanism := SelectMechanism(config.channelBinding, link.peerCertHash.Some?, body).value;
    IsSaslClient(link, config, nonce, mechanism);
    var client := SaslClient(link, config, nonce, mechanism);
    hide SaslClient;
    var offered := Sent(st.(exchanges := st.exchanges + 1), TAG_PASSWORD, InitialResponse(mechanism.Name(), client.ClientFirst())).value;
    var first, last := AnsweredReads(link, config, offered, client);
    KeysMeanVerified(client, Utf8.Decode(first.body[4..]).value, config.salt, config.iterations, Utf8.Decode(last.body[4..]).value);
    frames := [first, last];
  }

  lemma SaslFramesAreQuiet(link: Link, config: PgConfig, nonce: C.Nonce, body: Bytes, frames: seq<Frame>, default: Option<BackendKeyData>)
    requires SaslRun(link, config, nonce, body, frames)
    ensures |frames| == 2 && forall f <- frames :: Harmless(f) && !IsAuth(f, AUTH_SASL)
    ensures Relay(frames) == [] && LastKey(frames, default) == default
  {
    hide SaslClient, SelectMechanism, C.ClientFinal, C.VerifyServerFinal, ParseStatus, Utf8.Decode;
    assert frames == [frames[0]] + [frames[1]];
    RelayedOne([], frames[0], default);
    RelayedOne([frames[0]], frames[1], default);
    assert [] + [frames[0]] == [frames[0]];
  }

  /** What any message but a SASL request adds. */
  lemma PlainMessage(link: Link, config: PgConfig, st: LinkState, f: Frame)
    requires OneMessage(link, config, st, f).Ok? && !IsAuth(f, AUTH_SASL)
    ensures var end := OneMessage(link, config, st, f).value;
            && end.input == st.input && end.exchanges == st.exchanges && end.verified == st.verified
            && end.output == st.output + PlainAnswer(link, config, f)
            && end.notifications == st.notifications + Relay([f])
            && end.key == LastKey([f], st.key)
    ensures if f.tag == TAG_READY then f.body != [] && OneMessage(link, config, st, f).value.status == Some(f.body[0]) else Harmless(f)
  {
    hide SaslExchange, ParseStatus, FromBigEndian;
    RelayedOne([], f, st.key);
    assert [] + [f] == [f];
  }

  /** What the whole handshake reads, stores, writes and verifies. */
  lemma {:induction false} HandshakeReads(link: Link, config: PgConfig, st: LinkState) returns (frames: seq<Frame>)
    requires Handshake(link, config, st).Ok?
    ensures Opening(link, config, st, frames, Handshake(link, config, st).value)
    decreases |st.input|
  {
    hide Opening, OneMessage, Read, IsAuth, Consumed, SaslExchange;
    ReadInverts(st.input, link.maxCapacity);
    var (f, rest) := Read(st.input, link.maxCapacity).value;
    var read := st.(input := rest);
    var next := OneMessage(link, config, read, f).value;
    FirstFrame(st, f, rest);
    if f.tag == TAG_READY {
      NotSasl(f);
      PlainMessage(link, config, read, f);
      frames := [f];
      ReadyAlone(link, config, st, f, next);
    } else {
      var end := Handshake(link, config, st).value;
      var more := HandshakeReads(link, config, next);
      if IsAuth(f, AUTH_SASL) {
        IsSaslRequest(link, config, read, f);
        var sasl := SaslReads(link, config, read, f.body[4..]);
        frames := [f] + sasl + more;
        SaslPrepended(link, config, st, f, rest, sasl, next, more, end);
      } else {
        PlainMessage(link, config, read, f);
        frames := [f] + more;
        PlainPrepended(link, config, st, f, next, more, end);
      }
    }
  }

  lemma FirstFrame(st: LinkState, f: Frame, rest: Bytes)
    requires |f.body| + 4 < I32_LIMIT && st.input == Print(f) + rest
    ensures Consumed(st.input, [f], rest)
  {
    NothingConsumed(st.input);
    ConsumedOne(st.input, [], st.input, f, rest);
    assert [] + [f] == [f];
  }

  lemma NotSasl(f: Frame)
    requires f.tag == TAG_READY
    ensures !IsAuth(f, AUTH_SASL)
  {
  }

  lemma IsSaslRequest(link: Link, config: PgConfig, st: LinkState, f: Frame)
    requires IsAuth(f, AUTH_SASL)
    ensures |f.body| >= 4 && OneMessage(link, config, st, f) == SaslExchange(link, config, st, f.body[4..])
  {
    hide SaslExchange, FromBigEndian;
  }

  lemma ReadyAlone(link: Link, config: PgConfig, st: LinkState, f: Frame, end: LinkState)
    requires f.tag == TAG_READY && f.body != [] && Consumed(st.input, [f], end.input)
    requires end.verified == st.verified && end.status == Some(f.body[0])
    requires end.output == st.output + PlainAnswer(link, config, f)
    requires end.notifications == st.notifications + Relay([f]) && end.key == LastKey([f], st.key)
    ensures Opening(link, config, st, [f], end)
  {
    hide Consumed, Relay, LastKey, IsAuth, PlainAnswer;
    NotSasl(f);
    assert [f][1..] == [];
    assert forall g <- [f] :: g == f;
    assert Handled(link, config, [f], st.exchanges);
    assert Answers(link, config, [f], st.exchanges) == PlainAnswer(link, config, f) + [];
    assert EndsReady([f]);
    assert !AskedForSasl([f]);
  }

  lemma PlainPrepended(link: Link, config: PgConfig, st: LinkState, f: Frame, next: LinkState, more: seq<Frame>, end: LinkState)
    requires Consumed(st.input, [f], next.input) && Harmless(f) && !IsAuth(f, AUTH_SASL)
    requires next.exchanges == st.exchanges && next.verified == st.verified
    requires next.output == st.output + PlainAnswer(link, config, f)
    requires next.notifications == st.notifications + Relay([f]) && next.key == LastKey([f], st.key)
    requires Opening(link, config, next, more, end)
    ensures Opening(link, config, st, [f] + more, end)
  {
    hide Consumed, Relay, LastKey, IsAuth, Harmless, PlainAnswer;
    var frames := [f] + more;
    assert frames[0] == f && frames[1..] == more;
    ConsumedTwo(st.input, [f], next.input, more, end.input);
    RelayConcat([f], more);
    LastKeyConcat([f], more, st.key);
    StillEndsReady([f], more);
  }

  lemma SaslPrepended(
    link: Link, config: PgConfig, st: LinkState, f: Frame, rest: Bytes, sasl: seq<Frame>, next: LinkState, more: seq<Frame>, end: LinkState)
    requires Consumed(st.input, [f], rest) && Consumed(rest, sasl, next.input)
    requires IsAuth(f, AUTH_SASL) && |f.body| >= 4 && SaslRun(link, config, link.nonces(st.exchanges), f.body[4..], sasl)
    requires next.exchanges == st.exchanges + 1 && next.notifications == st.notifications && next.key == st.key
    requires next.output == st.output + SaslAnswer(link, config, link.nonces(st.exchanges), f.body[4..], sasl)
    requires HasSecret(config) ==> next.verified
    requires Opening(link, config, next, more, end)
    ensures Opening(link, config, st, [f] + sasl + more, end)
  {
    hide Consumed, Relay, LastKey, IsAuth, Harmless, SaslRun, SaslAnswer, Handled, Answers, AskedForSasl, EndsReady, HasSecret;
    SaslFramesAreQuiet(link, config, link.nonces(st.exchanges), f.body[4..], sasl, st.key);
    RequestIsQuiet(f, st.key);
    var asked := [f] + sasl;
    ConsumedTwo(st.input, [f], rest, sasl, next.input);
    ConsumedTwo(st.input, asked, next.input, more, end.input);
    RelayConcat([f], sasl);
    RelayConcat(asked, more);
    LastKeyConcat([f], sasl, st.key);
    LastKeyConcat(asked, more, st.key);
    StillEndsReady(asked, more);
    AnswersFirst(link, config, f, sasl, more, st.exchanges);
    Asked(f, sasl, more);
    var (s, a) := (SaslAnswer(link, config, link.nonces(st.exchanges), f.body[4..], sasl), Answers(link, config, more, next.exchanges));
    assert st.output + s + a == st.output + (s + a);
  }

  lemma Asked(f: Frame, sasl: seq<Frame>, more: seq<Frame>)
    requires IsAuth(f, AUTH_SASL)
    ensures AskedForSasl([f] + sasl + more)
  {
    hide IsAuth;
    assert f in [f] + sasl + more;
  }

  lemma AnswersFirst(link: Link, config: PgConfig, f: Frame, sasl: seq<Frame>, more: seq<Frame>, exchanges: nat)
    requires IsAuth(f, AUTH_SASL) && |f.body| >= 4 && SaslRun(link, config, link.nonces(exchanges), f.body[4..], sasl) && |sasl| == 2
    requires Handled(link, config, more, exchanges + 1)
    ensures Handled(link, config, [f] + sasl + more, exchanges)
    ensures Answers(link, config, [f] + sasl + more, exchanges)
         == SaslAnswer(link, config, link.nonces(exchanges), f.body[4..], sasl) + Answers(link, config, more, exchanges + 1)
  {
    hide IsAuth, SaslRun, SaslAnswer;
    var frames := [f] + sasl + more;
    assert frames[0] == f && frames[1..3] == sasl && frames[3..] == more;
  }

  lemma RequestIsQuiet(f: Frame, default: Option<BackendKeyData>)
    requires IsAuth(f, AUTH_SASL)
    ensures Harmless(f) && Relay([f]) == [] && LastKey([f], default) == default
  {
    hide ParseStatus;
    RelayedOne([], f, default);
    assert [] + [f] == [f];
  }

  lemma StillEndsReady(before: seq<Frame>, more: seq<Frame>)
    requires EndsReady(more) && forall f <- before :: Harmless(f)
    ensures EndsReady(before + more) && more != [] && (before + more)[|before + more| - 1] == more[|more| - 1]
  {
    hide Harmless;
    var all := before + more;
    forall i | 0 <= i < |all| - 1
      ensures Harmless(all[i])
    {
      if i < |before| {
        assert all[i] == before[i];
      } else {
        assert all[i] == more[i - |before|];
      }
    }
  }

  /** The last message read is an ErrorResponse, and says `error`. */
  predicate Reported(frames: seq<Frame>, error: PgError) {
    frames != [] && frames[|frames| - 1].tag == TAG_ERROR && error == BackendFailure(frames[|frames| - 1].body)
  }

  /** Why an authentication message was not the one waited for: only a backend's own report looks like one. */
  lemma AuthDataFails(link: Link, input: Bytes, expected: u32) returns (frames: seq<Frame>, rest: Bytes)
    requires AuthData(link, input, expected).Err? && AuthData(link, input, expected).error.Backend?
    ensures Consumed(input, frames, rest) && Reported(frames, AuthData(link, input, expected).error)
  {
    ReadInverts(input, link.maxCapacity);
    hide BigEndian, FromBigEndian, Print, BackendFailure;
    NothingConsumed(input);
    var (f, after) := Read(input, link.maxCapacity).value;
    ConsumedOne(input, [], input, f, after);
    frames, rest := [] + [f], after;
  }

  lemma SaslFails(link: Link, config: PgConfig, st: LinkState, body: Bytes) returns (frames: seq<Frame>, rest: Bytes)
    requires SaslExchange(link, config, st, body).Err? && SaslExchange(link, config, st, body).error.Backend?
    ensures Consumed(st.input, frames, rest) && Reported(frames, SaslExchange(link, config, st, body).error)
  {
    hide AuthData, Consumed, Message, InitialResponse, C.ClientFinal, C.VerifyServerFinal, SelectMechanism, Utf8.Decode, Utf8.Encode, Reported;
    SelectionIsSound(config.channelBinding, link.peerCertHash.Some?, body);
    var mechanism := SelectMechanism(config.channelBinding, link.peerCertHash.Some?, body).value;
    var client := SaslClient(link, config, link.nonces(st.exchanges), mechanism);
    hide SaslClient;
    if AuthData(link, st.input, AUTH_SASL_CONTINUE).Err? {
      frames, rest := AuthDataFails(link, st.input, AUTH_SASL_CONTINUE);
    } else {
      var (challenge, middle) := AuthData(link, st.input, AUTH_SASL_CONTINUE).value;
      var serverFirst := Utf8.Decode(challenge).value;
      ClientErrors(client, serverFirst, config.salt, config.iterations);
      var (client', final) := C.ClientFinal(client, serverFirst, config.salt, config.iterations);
      if AuthData(link, middle, AUTH_SASL_FINAL).Ok? {
        VerifyErrors(client', Utf8.Decode(AuthData(link, middle, AUTH_SASL_FINAL).value.0).value);
        assert false;
      } else {
        var first := AuthDataReads(link, st.input, AUTH_SASL_CONTINUE);
        var later, after := AuthDataFails(link, middle, AUTH_SASL_FINAL);
        ConsumedTwo(st.input, [first], middle, later, after);
        ReportedLater([first], later, AuthData(link, middle, AUTH_SASL_FINAL).error);
        frames, rest := [first] + later, after;
      }
    }
  }

  lemma ReportedLater(a: seq<Frame>, b: seq<Frame>, error: PgError)
    ensures Reported(b, error) ==> Reported(a + b, error)
  {
    hide BackendFailure;
  }

  /** A failure that carries a backend's own words is the ErrorResponse that backend sent last. */
  lemma {:induction false} HandshakeFails(link: Link, config: PgConfig, st: LinkState) returns (frames: seq<Frame>, rest: Bytes)
    requires Handshake(link, config, st).Err? && Handshake(link, config, st).error.Backend?
    ensures Consumed(st.input, frames, rest) && Reported(frames, Handshake(link, config, st).error)
    decreases |st.input|
  {
    hide OneMessage, Consumed, SaslExchange, Reported, BackendFailure, FromBigEndian;
    ReadInverts(st.input, link.maxCapacity);
    var (f, after) := Read(st.input, link.maxCapacity).value;
    hide Read;
    var read := st.(input := after);
    FirstFrame(st, f, after);
    if OneMessage(link, config, read, f).Ok? {
      var next := OneMessage(link, config, read, f).value;
      var more, later := HandshakeFails(link, config, next);
      if IsAuth(f, AUTH_SASL) {
        IsSaslRequest(link, config, read, f);
        var sasl := SaslReads(link, config, read, f.body[4..]);
        ConsumedTwo(after, sasl, next.input, more, later);
        ReportedLater(sasl, more, Handshake(link, config, next).error);
        more := sasl + more;
      } else {
        PlainMessage(link, config, read, f);
      }
      ConsumedTwo(st.input, [f], after, more, later);
      ReportedLater([f], more, Handshake(link, config, st).error);
      frames, rest := [f] + more, later;
    } else if IsAuth(f, AUTH_SASL) {
      IsSaslRequest(link, config, read, f);
      var more, later := SaslFails(link, config, read, f.body[4..]);
      ConsumedTwo(st.input, [f], after, more, later);
      ReportedLater([f], more, Handshake(link, config, st).error);
      frames, rest := [f] + more, later;
    } else {
      PlainFails(link, config, read, f);
      frames, rest := [f], after;
    }
  }

  lemma PlainFails(link: Link, config: PgConfig, st: LinkState, f: Frame)
    requires OneMessage(link, config, st, f).Err? && OneMessage(link, config, st, f).error.Backend? && !IsAuth(f, AUTH_SASL)
    ensures Reported([f], OneMessage(link, config, st, f).error)
  {
    hide SaslExchange, ParseStatus, FromBigEndian, BackendFailure;
  }
}
