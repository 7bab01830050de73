/** Progress of the whole startup phase: with honest peers the driver ends with a session, whatever was negotiated first. */
module HonestSessions {
  import opened Prelude
  import opened Packet
  import opened StartupPacket
  import opened Verifiers
  import opened Dialogues
  import opened HonestPeers
  import C = ScramClients
  import Conns
  import Registry
  import S = ScramServer
  import Trace

  /** The negotiation that begins with `input` has come to `later`, and `opening` was said in it. */
  ghost predicate Negotiated(setup: Setup, input: Bytes, later: Bytes, ssl: bool, gss: bool, opening: seq<Trace.Event>) {
    && ScriptFrom(setup, input, false, false, map[], []) == ScriptFrom(setup, later, ssl, gss, map[], opening)
    && Replies(opening) && (Trace.SslReply(true) in opening || Trace.SslReply(false) in opening ==> ssl)
  }

  /**
   * Everyone honest: whatever was negotiated first, the driver brings up the session of a client that knows its password.
   * Of the writes, the replies take `|opening|`, the authentication four, and the session `shown`.
   */
  lemma DriverServesHonestPeers(
    conn: Conns.Conn, start: Conns.Moment, input: Bytes, r: Result<bool, ()>,
    body: Bytes, later: Bytes, ssl: bool, gss: bool, opening: seq<Trace.Event>,
    verifier: Verifier, second: Verifier, password: Bytes, nonce: C.Nonce, plus: bool, rest: Bytes,
    server: S.Server, random: Bytes, shown: nat)
    requires conn.Ended(ScriptFrom(conn.setup, input, false, false, map[], []), start, r)
    requires Negotiated(conn.setup, input, later, ssl, gss, opening) && start.writes >= |opening| + 4 + shown
    requires SessionParams(body, map[]).Ok? && (conn.setup.requiredTls ==> ssl) && (plus ==> CertHashOf(conn.setup, ssl).Some?)
    requires StoreHolds(conn.setup, UserOf(SessionParams(body, map[]).value), verifier, password)
    requires StillHolds(conn.setup, UserOf(SessionParams(body, map[]).value), verifier, second, password)
    requires var front := S.Server(conn.setup.crypto, verifier, CertHashOf(conn.setup, ssl));
             ClientPlays(conn.setup, body, later, PasswordClient(front, password, nonce, plus), front,
                         UserOf(SessionParams(body, map[]).value), rest)
    requires BackendAwaits(conn.setup, ClientKey(conn.setup.crypto, password, verifier.salt, verifier.iterations), second,
                           SessionParams(body, map[]).value, server, random, start.taken, shown)
    ensures r == Ok(true) && conn.IsReady(opening)
  {
    hide ScriptFrom, SessionParams, ClientPlays, BackendAwaits, ClientKey, StoreHolds, StillHolds, Cooperates, conn.Ended, conn.IsReady, PasswordClient;
    HonestPeersMeet(conn.setup, body, later, ssl, gss, opening, verifier, second, password, nonce, plus, rest, server, random, start.taken, shown);
    var script := ScriptFrom(conn.setup, later, ssl, gss, map[], opening);
    MoreWritesCooperate(conn.setup, script.verdict.evidence.key, script.verdict.params, start.taken, shown, start.writes - |script.events|);
    conn.CooperationServes(script, start, r);
  }

  lemma MoreWritesCooperate(
    setup: Setup, key: Key, params: Params, taken: set<Registry.SessionKeySecret>, writes: nat, more: nat)
    requires Cooperates(setup, key, params, taken, writes) && writes <= more
    ensures Cooperates(setup, key, params, taken, more)
  {
    hide Dialled, Enumerates;
  }

  const SSL_REQUEST_PACKET: Bytes := BigEndian(8) + BigEndian(SSL_REQUEST_CODE)

  /** A first SSL request is answered according to the configuration alone. */
  lemma SslRequestIsAnswered(setup: Setup, rest: Bytes, gss: bool)
    requires setup.maxStartupBytes >= 8 && setup.maxCapacity >= 4
    ensures NextStep(setup, SSL_REQUEST_PACKET + rest, false, gss)
         == match setup.frontendTls
            case None => Reply(Trace.SslReply(false), rest, true, gss)
            case Some(FrontendTls(_, None)) => Broken(Trace.SslReply(true))
            case Some(FrontendTls(_, Some(decrypted))) => Reply(Trace.SslReply(true), decrypted, true, gss)
  {
    hide BigEndian, FromBigEndian;
    var packet := BigEndian(SSL_REQUEST_CODE);
    var input := SSL_REQUEST_PACKET + rest;
    assert input[..4] == BigEndian(8) && input[4..8] == packet && input[8..] == rest;
    BigEndianRoundTrip(8);
    assert packet[..4] == packet && packet[4..] == [];
    BigEndianRoundTrip(SSL_REQUEST_CODE);
  }

  /** A client may start right away, or after an SSL request, through TLS exactly when TLS is configured. */
  lemma TwoNegotiations(setup: Setup, later: Bytes, rest: Bytes)
    requires setup.maxStartupBytes >= 8 && setup.maxCapacity >= 4
    ensures Negotiated(setup, later, later, false, false, [])
    ensures setup.frontendTls.None? ==> Negotiated(setup, SSL_REQUEST_PACKET + later, later, true, false, [Trace.SslReply(false)])
    ensures setup.frontendTls.Some? && setup.frontendTls.value.decrypted == Some(later) ==>
              Negotiated(setup, SSL_REQUEST_PACKET + rest, later, true, false, [Trace.SslReply(true)])
  {
    hide NextStep, SessionScript;
    SslRequestIsAnswered(setup, later, false);
    SslRequestIsAnswered(setup, rest, false);
    assert [] + [Trace.SslReply(false)] == [Trace.SslReply(false)] && [] + [Trace.SslReply(true)] == [Trace.SslReply(true)];
  }

  /**
   * Where TLS is required but not configured, an honest client that asks for it, and is told no, is served in plain text.
   */
  lemma DeclinedTlsIsServed(
    setup: Setup, body: Bytes, later: Bytes, verifier: Verifier, password: Bytes, nonce: C.Nonce, rest: Bytes)
    requires setup.requiredTls && setup.frontendTls.None? && setup.maxStartupBytes >= 8 && setup.maxCapacity >= 4
    requires SessionParams(body, map[]).Ok? && StoreHolds(setup, UserOf(SessionParams(body, map[]).value), verifier, password)
    requires var front := S.Server(setup.crypto, verifier, None);
             ClientPlays(setup, body, later, PasswordClient(front, password, nonce, false), front,
                         UserOf(SessionParams(body, map[]).value), rest)
    ensures var script := ScriptFrom(setup, SSL_REQUEST_PACKET + later, false, false, map[], []);
            script.verdict.Serving? && script.verdict.opening == [Trace.SslReply(false)]
  {
    hide ScriptFrom, SessionParams, ClientPlays, StoreHolds, PasswordClient;
    TwoNegotiations(setup, later, []);
    PasswordClientIsServed(setup, body, later, true, false, [Trace.SslReply(false)], verifier, password, nonce, false, rest);
  }
}
