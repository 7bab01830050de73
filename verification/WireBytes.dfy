/** The protocol's messages as the very bytes that travel, and integers in the order of their bytes. */
module WireBytes {
  import opened Prelude
  import opened ProxyErrors
  import opened BackendErrors
  import opened Packet
  import opened Frames
  import opened StartupPacket
  import opened BackendLinks
  import opened Dialogues
  import opened Trace
  import Registry
  import Utf8

  /** `a` comes before `b` at their first difference. */
  predicate Before(a: Bytes, b: Bytes) {
    exists k :: 0 <= k < |a| && k < |b| && a[..k] == b[..k] && a[k] < b[k]
  }

  lemma ValueOf(n: u32)
    ensures var b := BigEndian(n);
            n == b[0] as int * 0x100_0000 + b[1] as int * 0x1_0000 + b[2] as int * 0x100 + b[3] as int
  {
    BigEndianRoundTrip(n);
  }

  /** The most significant byte comes first: numbers are ordered as their bytes are. */
  lemma BigEndianKeepsOrder(m: u32, n: u32)
    ensures m < n <==> Before(BigEndian(m), BigEndian(n))
  {
    hide BigEndian;
    var (a, b) := (BigEndian(m), BigEndian(n));
    ValueOf(m);
    ValueOf(n);
    if Before(a, b) {
      var k :| 0 <= k < 4 && a[..k] == b[..k] && a[k] < b[k];
      assert forall j | 0 <= j < k :: a[j] == a[..k][j] == b[..k][j] == b[j];
    }
    if m < n {
      var k := if a[0] != b[0] then 0 else if a[1] != b[1] then 1 else if a[2] != b[2] then 2 else 3;
      assert a[..k] == b[..k] && a[k] < b[k];
    }
  }

  /** Room for a packet of `n` bytes. */
  predicate Takes(setup: Setup, n: nat) {
    setup.maxStartupBytes >= n && setup.maxCapacity + 4 >= n
  }

  /** A packet of `n` bytes that begins with its length and the given code. */
  lemma PacketIs(setup: Setup, n: byte, code: Bytes, body: Bytes, rest: Bytes, ssl: bool, gss: bool)
    requires |code| == 4 && |body| + 8 == n && Takes(setup, n)
    ensures NextStep(setup, [0, 0, 0, n] + code + body + rest, ssl, gss) == StepOf(setup, FromBigEndian(code), body, rest, ssl, gss)
  {
    hide StepOf;
    var input := [0, 0, 0, n] + code + body + rest;
    assert input[..4] == [0, 0, 0, n] && input[4..n] == code + body && input[n..] == rest;
    LengthIs(n);
    hide FromBigEndian;
    assert (code + body)[..4] == code && (code + body)[4..] == body;
  }

  lemma LengthIs(n: byte)
    ensures FromBigEndian([0, 0, 0, n]) == n
  {
  }

  /** The bytes of an SSLRequest, answered once according to the configuration. */
  lemma SslRequestBytes(setup: Setup, rest: Bytes, gss: bool)
    requires Takes(setup, 8)
    ensures var input := [0, 0, 0, 8, 4, 210, 22, 47] + rest;
            && NextStep(setup, input, false, gss)
               == (match setup.frontendTls
                   case None => Reply(SslReply(false), rest, true, gss)
                   case Some(FrontendTls(_, None)) => Broken(SslReply(true))
                   case Some(FrontendTls(_, Some(decrypted))) => Reply(SslReply(true), decrypted, true, gss))
            && NextStep(setup, input, true, gss) == Failure(Connection(TlsAlreadyDone))
  {
    assert [0, 0, 0, 8, 4, 210, 22, 47] + rest == [0, 0, 0, 8] + [4, 210, 22, 47] + [] + rest;
    assert FromBigEndian([4, 210, 22, 47]) == 80877103;
    hide FromBigEndian, NextStep;
    PacketIs(setup, 8, [4, 210, 22, 47], [], rest, false, gss);
    PacketIs(setup, 8, [4, 210, 22, 47], [], rest, true, gss);
  }

  /** The bytes of a GSSENCRequest, declined once. */
  lemma GssencRequestBytes(setup: Setup, rest: Bytes, ssl: bool)
    requires Takes(setup, 8)
    ensures var input := [0, 0, 0, 8, 4, 210, 22, 48] + rest;
            && NextStep(setup, input, ssl, false) == Reply(GssReply, rest, ssl, true)
            && NextStep(setup, input, ssl, true) == Failure(Connection(GssAlreadyDone))
  {
    assert [0, 0, 0, 8, 4, 210, 22, 48] + rest == [0, 0, 0, 8] + [4, 210, 22, 48] + [] + rest;
    assert FromBigEndian([4, 210, 22, 48]) == 80877104;
    hide FromBigEndian, NextStep;
    PacketIs(setup, 8, [4, 210, 22, 48], [], rest, ssl, false);
    PacketIs(setup, 8, [4, 210, 22, 48], [], rest, ssl, true);
  }

  /** The bytes of a CancelRequest: process id, then secret, most significant byte first. */
  lemma CancelRequestBytes(setup: Setup, pid: Bytes, secret: Bytes, rest: Bytes, ssl: bool, gss: bool)
    requires Takes(setup, 16) && |pid| == 4 && |secret| == 4
    ensures NextStep(setup, [0, 0, 0, 16, 4, 210, 22, 46] + pid + secret + rest, ssl, gss) == Closed(pid + secret)
    ensures Requested(pid + secret) == Registry.SessionKeySecret(
              pid[0] as int * 0x100_0000 + pid[1] as int * 0x1_0000 + pid[2] as int * 0x100 + pid[3] as int,
              secret[0] as int * 0x100_0000 + secret[1] as int * 0x1_0000 + secret[2] as int * 0x100 + secret[3] as int)
  {
    assert [0, 0, 0, 16, 4, 210, 22, 46] + pid + secret + rest == [0, 0, 0, 16] + [4, 210, 22, 46] + (pid + secret) + rest;
    assert FromBigEndian([4, 210, 22, 46]) == 80877102;
    assert (pid + secret)[..4] == pid && (pid + secret)[4..] == secret;
    assert Requested(pid + secret) == Registry.SessionKeySecret(FromBigEndian(pid), FromBigEndian(secret));
    hide NextStep;
    PacketIs(setup, 16, [4, 210, 22, 46], pid + secret, rest, ssl, gss);
  }

  /** The bytes of a startup packet of version 3.0. */
  lemma StartupPacketBytes(setup: Setup, body: Bytes, rest: Bytes, ssl: bool, gss: bool)
    requires |body| + 8 < 256 && Takes(setup, |body| + 8)
    ensures var input := [0, 0, 0, |body| + 8, 0, 3, 0, 0] + body + rest;
            NextStep(setup, input, ssl, gss) == if setup.requiredTls && !ssl then Failure(Connection(TlsRequired)) else Session(body, rest)
  {
    assert [0, 0, 0, |body| + 8, 0, 3, 0, 0] + body + rest == [0, 0, 0, |body| + 8] + [0, 3, 0, 0] + body + rest;
    assert FromBigEndian([0, 3, 0, 0]) == 196608;
    hide FromBigEndian, NextStep;
    PacketIs(setup, |body| + 8, [0, 3, 0, 0], body, rest, ssl, gss);
  }

  /** What the proxy writes to a client, short messages as their very bytes. */
  lemma ServerMessageBytes(key: Registry.SessionKeySecret, status: byte)
    ensures Wire(SslReply(true)) == [83] && Wire(SslReply(false)) == [78] && Wire(GssReply) == [78]
    ensures Wire(AuthenticationOk) == [82, 0, 0, 0, 8, 0, 0, 0, 0]
    ensures Wire(KeyData(key)) == [75, 0, 0, 0, 12] + BigEndian(key.key) + BigEndian(key.secret)
    ensures Wire(Event.Ready(status)) == [90, 0, 0, 0, 5, status]
  {
  }

  lemma SubCodes()
    ensures BigEndian(10) == [0, 0, 0, 10] && BigEndian(11) == [0, 0, 0, 11] && BigEndian(12) == [0, 0, 0, 12]
  {
  }

  /** The SASL messages: their tag, their length, their sub-code. */
  lemma SaslMessageBytes(text: string)
    requires |Utf8.Encode(text)| < 0x1_0000
    ensures Wire(SaslContinue(text)) == [82] + BigEndian(|Utf8.Encode(text)| + 8) + ([0, 0, 0, 11] + Utf8.Encode(text))
    ensures Wire(SaslFinal(text)) == [82] + BigEndian(|Utf8.Encode(text)| + 8) + ([0, 0, 0, 12] + Utf8.Encode(text))
  {
    hide Utf8.Encode, BigEndian;
    SubCodes();
  }

  /** The offer of mechanisms: their names, each before a NUL, and a NUL at the end. */
  lemma SaslOfferBytes(names: seq<string>)
    ensures Wire(Sasl(names)) == [82] + BigEndian((|CStrings(names)| + 9) % U32_LIMIT) + ([0, 0, 0, 10] + (CStrings(names) + [0]))
    ensures CStrings([]) == []
    ensures forall name :: CStrings(names + [name]) == CStrings(names) + Utf8.Encode(name) + [0]
  {
    hide Utf8.Encode, BigEndian;
    SubCodes();
    forall name
      ensures CStrings(names + [name]) == CStrings(names) + Utf8.Encode(name) + [0]
    {
      assert (names + [name])[..|names|] == names;
    }
  }

  lemma ErrorBodyIs(severity: string, code: string, message: string)
    ensures var (s, c, m) := (Utf8.Encode(severity), Utf8.Encode(code), Utf8.Encode(message));
            ErrorBody(severity, code, message) == [83] + s + [0] + [86] + s + [0] + [67] + c + [0] + [77] + m + [0] + [0]
  {
    hide Utf8.Encode;
  }

  lemma ErrorIs(code: string, message: string)
    ensures Wire(Event.Error(code, message)) == Message(69, ErrorBody("FATAL", code, message))
  {
    hide ErrorBody, Message;
  }

  /** An ErrorResponse: severity twice, code, message, each behind its letter and before a NUL, and a NUL at the end. */
  lemma ErrorMessageBytes(code: string, message: string)
    ensures var (s, c, m) := (Utf8.Encode("FATAL"), Utf8.Encode(code), Utf8.Encode(message));
            var body := [83] + s + [0] + [86] + s + [0] + [67] + c + [0] + [77] + m + [0] + [0];
            Wire(Event.Error(code, message)) == [69] + BigEndian((|body| + 4) % U32_LIMIT) + body
  {
    hide Wire, ErrorBody, BigEndian, Utf8.Encode;
    ErrorBodyIs("FATAL", code, message);
    ErrorIs(code, message);
  }

  /** The messages of a backend by their letters: each is taken for what the protocol says it is. */
  lemma BackendMessageBytes(link: Link, config: PgConfig, st: LinkState, pid: Bytes, secret: Bytes, status: byte, body: Bytes)
    requires |pid| == 4 && |secret| == 4
    ensures OneMessage(link, config, st, Frame(82, [0, 0, 0, 0])) == Ok(st)
    ensures OneMessage(link, config, st, Frame(78, body)) == Ok(st.(notifications := st.notifications + [Notice(body)]))
    ensures OneMessage(link, config, st, Frame(75, pid + secret)) == Ok(st.(key := Some(BackendKeyData(FromBigEndian(pid), FromBigEndian(secret)))))
    ensures OneMessage(link, config, st, Frame(90, [status])) == Ok(st.(status := Some(status)))
    ensures OneMessage(link, config, st, Frame(69, body)) == Err(BackendFailure(body))
  {
    hide SaslExchange, BackendFailure;
    assert (pid + secret)[..4] == pid && (pid + secret)[4..] == secret;
  }

  /** A ParameterStatus is two strings, name before value. */
  lemma ParameterStatusBytes(link: Link, config: PgConfig, st: LinkState, name: string, value: string)
    requires '\0' !in name && '\0' !in value
    ensures OneMessage(link, config, st, Frame(83, Utf8.Encode(name) + [0] + Utf8.Encode(value) + [0]))
         == Ok(st.(notifications := st.notifications + [ParameterStatus(name, value)]))
  {
    hide SaslExchange, BackendFailure, ReadCString, Utf8.Encode;
    var body := Utf8.Encode(name) + [0] + Utf8.Encode(value) + [0];
    assert body == CString(name) + (CString(value) + []);
    CStringReadsBack(name, CString(value) + []);
    CStringReadsBack(value, []);
  }

  /** The SASL messages of a backend by their sub-codes: the request, the challenge and the outcome. */
  lemma BackendSaslBytes(link: Link, data: Bytes, rest: Bytes)
    requires |data| + 4 <= link.maxCapacity && |data| + 8 < I32_LIMIT
    ensures AuthData(link, Print(Frame(82, [0, 0, 0, 11] + data)) + rest, AUTH_SASL_CONTINUE) == Ok((data, rest))
    ensures AuthData(link, Print(Frame(82, [0, 0, 0, 12] + data)) + rest, AUTH_SASL_FINAL) == Ok((data, rest))
    ensures AuthData(link, Print(Frame(82, [0, 0, 0, 12] + data)) + rest, AUTH_SASL_CONTINUE) == Err(Protocol)
    ensures IsAuth(Frame(82, [0, 0, 0, 10] + data), AUTH_SASL)
  {
    hide Read, Print, BackendFailure;
    SubCodeReads(10, data);
    SubCodeReads(11, data);
    SubCodeReads(12, data);
    PrintThenRead(Frame(82, [0, 0, 0, 11] + data), rest, link.maxCapacity);
    PrintThenRead(Frame(82, [0, 0, 0, 12] + data), rest, link.maxCapacity);
  }

  lemma SubCodeReads(code: byte, data: Bytes)
    ensures var body := [0, 0, 0, code] + data; FromBigEndian(body[..4]) == code && body[4..] == data
  {
    assert ([0, 0, 0, code] + data)[..4] == [0, 0, 0, code];
  }
}
