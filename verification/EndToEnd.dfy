/** From the client's proof to the backend's: what the first exchange yields opens the second. */
module EndToEnd {
  import opened Prelude
  import opened Packet
  import opened Verifiers
  import opened ChannelBinding
  import opened BackendLinks
  import C = ScramClients
  import Dialogues
  import S = ScramServer
  import Sound = ScramSoundness
  import Text
  import Trace
  import Utf8
  import X = ScramExchange

  /**
   * Soundness on the wire: the evidence behind an AuthenticationOk is in the bytes the client sent, and its proof covers
   * the whole exchange with the verifier stored for this user and the nonce drawn for this connection.
   */
  lemma AuthenticatedClientProvedItself(setup: Dialogues.Setup, user: string, e: Dialogues.Evidence)
    requires Dialogues.Holds(setup, user, e)
    ensures Dialogues.Carries(setup, user, e)
    ensures setup.lookups(0, user) == Dialogues.Found(e.server.verifier) && e.first.serverNonce == setup.serverNonce
    ensures Sound.ExchangeProves(e.server, e.key, e.first, e.serverFirst, e.final)
  {
    hide *;
    var calls := [e.first, e.final];
    EvidenceIsRun(setup, user, e);
    EvidenceIsCarried(setup, user, e);
    var i, j := Sound.ExtractedKeyIsProved(e.server, calls);
    assert i == 0 && j == 1;
  }

  lemma EvidenceIsCarried(setup: Dialogues.Setup, user: string, e: Dialogues.Evidence)
    requires Dialogues.Holds(setup, user, e)
    ensures Dialogues.Carries(setup, user, e) && e.first.First? && e.final.Final?
    ensures setup.lookups(0, user) == Dialogues.Found(e.server.verifier) && e.first.serverNonce == setup.serverNonce
  {
    hide Sound.Respond, Dialogues.SaslResponse, Dialogues.InitialFields;
  }

  lemma EvidenceIsRun(setup: Dialogues.Setup, user: string, e: Dialogues.Evidence)
    requires Dialogues.Holds(setup, user, e)
    ensures e.first.First? && e.final.Final?
    ensures var calls := [e.first, e.final];
            Sound.Run(e.server, calls).extractedClientKey == Some(e.key) && Sound.Reply(e.server, calls, 0) == Ok(e.serverFirst)
  {
    hide Sound.Respond, Dialogues.SaslResponse, Dialogues.InitialFields;
    var calls := [e.first, e.final];
    assert calls[..0] == [] && calls[..1] == [e.first] && calls[..2] == calls;
    Sound.EmptyRun(e.server, calls);
    Sound.RunStep(e.server, calls, 0);
    Sound.RunStep(e.server, calls, 1);
  }

  /**
   * No downgrade on the wire: over a connection whose certificate could be bound, the authenticated client said it cannot
   * bind (`n`) or sent the binding of that certificate.
   */
  lemma AuthenticatedClientIsNotDowngraded(setup: Dialogues.Setup, user: string, e: Dialogues.Evidence)
    requires Dialogues.Holds(setup, user, e) && e.server.certHash.Some?
    ensures e.first.First? && e.final.Final?
    ensures S.SplitClientFirst(e.first.message).Some? && S.FinalAttributes(Text.Split(e.final.message, ',')).Some?
    ensures || (e.first.mechanism == S.SCRAM_SHA_256 && S.SplitClientFirst(e.first.message).value.0 == "n")
            || (e.first.mechanism == S.PLUS
                && S.FinalAttributes(Text.Split(e.final.message, ',')).value.0 == e.server.certHash.value.ExpectedC())
  {
    hide *;
    var calls := [e.first, e.final];
    EvidenceIsRun(setup, user, e);
    EvidenceIsCarried(setup, user, e);
    var i, j := Sound.NoDowngrade(e.server, calls);
    assert i == 0 && j == 1;
  }

  /**
   * The proxy's own client role can never bind to its own server role: the mechanism it names is not the one on offer,
   * whatever the certificate and whoever the user.
   */
  lemma OwnBindingIsRefused(setup: Dialogues.Setup, user: string, certHash: Option<CertHash>, clientFirst: string, rest: Bytes)
    requires user != "" && !setup.lookups(0, user).Unavailable?
    requires var body := InitialResponse(ScramSha256Plus.Name(), clientFirst);
             4 <= |body| <= setup.maxCapacity && |body| + 4 < U32_LIMIT
    ensures var initial := Message(TAG_PASSWORD, InitialResponse(ScramSha256Plus.Name(), clientFirst));
            var stage := Dialogues.Authenticate(setup, Some(user), certHash, initial + rest);
            && stage.events == [Trace.Sasl(S.Mechanisms(certHash))] && stage.rest == rest
            && stage.result == Err(Dialogues.Rejected(Dialogues.InvalidMessage("invalid mechanism")))
  {
    hide Message, Dialogues.SaslResponse, CString, ReadCString, BigEndian, Utf8.Encode, Dummy;
    var name := ScramSha256Plus.Name();
    var first := Utf8.Encode(clientFirst);
    var body := InitialResponse(name, clientFirst);
    var length := BigEndian(|first| % U32_LIMIT);
    Dialogues.SaslResponseReadsBack(setup, body, rest);
    assert body == CString(name) + (length + first);
    CStringReadsBack(name, length + first);
    NotOffered(certHash);
  }

  lemma NotOffered(certHash: Option<CertHash>)
    ensures ScramSha256Plus.Name() !in S.Mechanisms(certHash)
  {
    assert |ScramSha256Plus.Name()| == 18 && |S.PLUS| == 5 && |S.SCRAM_SHA_256| == 13;
  }

  /**
   * A backend that knows the same credential, and shows the certificate the link has seen. Of a password it holds what
   * that derives under its own salt and iteration count; of a stored secret it holds the very salt, count and keys.
   */
  ghost predicate SharesCredential(server: S.Server, crypto: Crypto, verifier: Verifier, mechanism: SaslMechanism, link: Link) {
    && server.crypto == crypto && link.crypto == crypto
    && (mechanism.ScramSha256Plus? ==> link.peerCertHash.Some? && server.certHash == link.peerCertHash)
    && match verifier.password
       case Some(password) =>
         server.verifier.(password := Some(password))
         == FromPassword(crypto, password, server.verifier.salt, server.verifier.iterations)
       case None =>
         && !server.verifier.dummy
         && server.verifier.salt == verifier.salt && server.verifier.iterations == verifier.iterations
         && server.verifier.storedKey == verifier.storedKey && server.verifier.serverKey == verifier.serverKey
  }

  /**
   * A client that authenticated to the proxy is let in by the backend that shares the credential `second`, which the
   * later lookup finds, and the proxy verifies that backend: with a password always, whatever salt the backend has
   * chosen; with a stored secret exactly when the key the client proved still hashes to its StoredKey, as it does when
   * the credential has not changed since the first lookup.
   */
  lemma ProvedClientReachesItsBackend(
    setup: Dialogues.Setup, user: string, e: Dialogues.Evidence, second: Verifier, database: string, pairs: seq<(string, string)>,
    link: Link, nonce: C.Nonce, mechanism: SaslMechanism, server: S.Server, random: Bytes)
    requires user != "" && Dialogues.Holds(setup, user, e)
    requires SharesCredential(server, setup.crypto, second, mechanism, link)
    ensures var config := Dialogues.ConfigFor(setup, e.key, second, user, database, pairs);
            var outcome := X.Exchange(SaslClient(link, config, nonce, mechanism), server, user, random, config.salt, config.iterations);
            if second.password.Some? || setup.crypto.sha256(e.key) == second.storedKey then
              && outcome.Finished? && outcome.signatureVerified == Ok(true)
              && (second.password.None? ==> outcome.extracted == Some(e.key))
            else outcome == X.FinalRefused(S.AuthenticationFailed(user))
    ensures setup.lookups(0, user) == Dialogues.Found(second) ==> setup.crypto.sha256(e.key) == second.storedKey
  {
    hide X.Exchange, S.CheckFinal, S.RecoveredKey, S.ServerFinal, S.ClientFirst, FromPassword, Dialogues.Carries, Sound.Respond;
    var config := Dialogues.ConfigFor(setup, e.key, second, user, database, pairs);
    var plus := mechanism.ScramSha256Plus?;
    IsSaslClient(link, config, nonce, mechanism);
    match second.password {
      case Some(password) =>
        X.PasswordCompletes(config.clientKey, config.serverKey, config.storedKey, password, nonce, server, user, plus, random,
                            config.salt, config.iterations);
      case None => X.CapturedKeyDecides(e.key, second, server, user, plus, nonce, random);
    }
  }
}
