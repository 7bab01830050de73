/** Exactly which SCRAM messages are accepted by either role, and what each other one is refused with. */
module ScramRules {
  import opened Prelude
  import opened Text
  import opened Verifiers
  import opened BackendErrors
  import opened ChannelBinding
  import Base64
  import Decimal
  import Utf8
  import C = ScramClients
  import S = ScramServer

  /** The GS2 flag each mechanism demands: no binding wanted, or none possible on this connection; or exactly this binding. */
  predicate FlagFits(certHash: Option<CertHash>, mechanism: string, flag: string) {
    || (mechanism == "SCRAM-SHA-256" && (flag == "n" || (flag == "y" && certHash.None?)))
    || (mechanism == "-PLUS" && certHash.Some? && flag == "p=tls-server-end-point")
  }

  predicate IsOffered(certHash: Option<CertHash>, mechanism: string) {
    mechanism == "SCRAM-SHA-256" || (mechanism == "-PLUS" && certHash.Some?)
  }

  lemma MechanismsAre(certHash: Option<CertHash>, mechanism: string)
    ensures mechanism in S.Mechanisms(certHash) <==> IsOffered(certHash, mechanism)
    ensures S.Mechanisms(certHash) == if certHash.Some? then ["-PLUS", "SCRAM-SHA-256"] else ["SCRAM-SHA-256"]
  {
  }

  /** A client-first is three parts, cut at its first two commas. */
  lemma PartsAre(message: string, flag: string, authzid: string, bare: string)
    requires ',' !in flag && ',' !in authzid
    ensures S.SplitClientFirst(flag + [','] + (authzid + [','] + bare)) == Some((flag, authzid, bare))
    ensures S.SplitClientFirst(message).Some? ==>
              var (f, a, b) := S.SplitClientFirst(message).value;
              message == f + [','] + (a + [','] + b) && ',' !in f && ',' !in a
  {
    SplitOnceAt(flag, ',', authzid + [','] + bare);
    SplitOnceAt(authzid, ',', bare);
  }

  /** Exactly which client-first messages open an exchange. */
  lemma FirstAcceptedIff(server: S.Server, mechanism: string, message: string, user: string, nonce: Bytes)
    ensures var (accepted, parts) := (S.ClientFirst(server, S.NEW_SESSION, mechanism, message, user, nonce).1.Ok?, S.SplitClientFirst(message));
            accepted <==>
              && user != "" && parts.Some?
              && FlagFits(server.certHash, mechanism, parts.value.0)
              && (parts.value.1 == "" || parts.value.1 == "a=")
              && S.ClientNonce(parts.value.2) != ""
  {
    hide S.SplitClientFirst, S.ClientNonce, S.Opened, S.Mechanisms;
    MechanismsAre(server.certHash, mechanism);
    assert "SCRAM-SHA-256" != "-PLUS" by {
      assert |"SCRAM-SHA-256"| == 13 && |"-PLUS"| == 5;
    }
    if S.SplitClientFirst(message).Some? {
      AuthzidRule(S.SplitClientFirst(message).value.1);
      if IsOffered(server.certHash, mechanism) {
        FlagRule(server, mechanism, S.SplitClientFirst(message).value.0);
      }
    }
    hide S.Gs2FlagError, S.AuthzidError, FlagFits;
  }

  lemma AuthzidRule(authzid: string)
    ensures S.AuthzidError(authzid).None? <==> authzid == "" || authzid == "a="
    ensures S.AuthzidError(authzid) == Some(S.Protocol(S.AuthzidNotSupported)) <==> "a=" < authzid
  {
  }

  lemma FlagRule(server: S.Server, mechanism: string, flag: string)
    requires IsOffered(server.certHash, mechanism)
    ensures S.Gs2FlagError(server, mechanism, flag).None? <==> FlagFits(server.certHash, mechanism, flag)
    ensures S.Gs2FlagError(server, mechanism, flag) == Some(S.ChannelBindingDowngrade)
            <==> mechanism == "SCRAM-SHA-256" && flag == "y" && server.certHash.Some?
    ensures S.Gs2FlagError(server, mechanism, flag) == Some(S.Protocol(S.BindingNotOffered))
            <==> mechanism == "SCRAM-SHA-256" && "p=" <= flag
    ensures S.Gs2FlagError(server, mechanism, flag) == Some(S.Protocol(S.BindingMissing))
            <==> mechanism == "-PLUS" && (flag == "n" || flag == "y")
    ensures S.Gs2FlagError(server, mechanism, flag) == Some(S.Protocol(S.BindingTypeNotSupported))
            <==> mechanism == "-PLUS" && "p=" <= flag && flag != "p=tls-server-end-point"
  {
    assert |"SCRAM-SHA-256"| == 13 && |"-PLUS"| == 5;
  }

  /** The binding an exchange must carry. */
  function BindingOf(server: S.Server, s: S.Session): Bytes {
    if s.mechanism == "-PLUS" && server.certHash.Some? then Utf8.Encode("p=tls-server-end-point,,") + server.certHash.value.digest
    else Utf8.Encode(s.gs2Header)
  }

  lemma BindingIs(server: S.Server, s: S.Session)
    ensures S.ExpectedCbind(server, s) == Base64.Encode(Base64.Standard, true, BindingOf(server, s))
  {
    hide Utf8.Encode, Base64.Encode;
  }

  /** A proof of a key that hashes to StoredKey, by the signature over `text`. */
  predicate ProofFits(server: S.Server, proof64: string, text: string) {
    var proof := Base64.Decode(true, proof64);
    && proof.Some? && |proof.value| == 32
    && server.crypto.sha256(Xor(proof.value, server.crypto.hmac(server.verifier.storedKey, Utf8.Encode(text)))) == server.verifier.storedKey
  }

  /** The attributes that bind the message to the connection and to the exchange. */
  predicate AttributesFit(server: S.Server, s: S.Session, binding: string, nonce: string) {
    && binding == Base64.Encode(Base64.Standard, true, BindingOf(server, s))
    && nonce == s.combinedNonce && s.clientNonce <= nonce
  }

  /** Exactly which client-final messages of an open exchange are accepted. */
  lemma FinalAcceptedIff(server: S.Server, s: S.Session, message: string, user: string)
    requires s.state == S.ClientFirstReceived
    ensures var (attributes, at) := (S.FinalAttributes(Split(message, ',')), RFind(message, ",p="));
            S.ClientFinal(server, s, message, user).1.Ok? <==>
              && !server.verifier.dummy && attributes.Some? && at.Some?
              && AttributesFit(server, s, attributes.value.0, attributes.value.1)
              && ProofFits(server, attributes.value.2, s.clientFirstBare + "," + s.serverFirst + "," + message[..at.value])
  {
    hide S.FinalAttributes, Split, RFind, Base64.Decode, Base64.Encode, Utf8.Encode, BindingOf, S.ExpectedCbind, Xor;
    var done := s.(state := S.Done);
    BindingIs(server, s);
    S.BindingIgnoresState(server, s, S.Done);
  }

  /** What the others are refused with. */
  lemma FinalRefusedWith(server: S.Server, s: S.Session, message: string, user: string)
    requires s.state == S.ClientFirstReceived && S.ClientFinal(server, s, message, user).1.Err?
    ensures var (attributes, error) := (S.FinalAttributes(Split(message, ',')), S.ClientFinal(server, s, message, user).1.error);
            && (error == S.ChannelBindingMismatch
                <==> attributes.Some? && s.mechanism == "-PLUS"
                     && attributes.value.0 != Base64.Encode(Base64.Standard, true, BindingOf(server, s)))
            && (error == S.AuthenticationFailed(user) <==> S.CheckFinal(server, s.(state := S.Done), message).Ok?)
            && (error in [S.ChannelBindingMismatch, S.AuthenticationFailed(user), S.Protocol(S.Malformed)])
  {
    hide S.FinalAttributes, Split, RFind, Base64.Decode, Base64.Encode, Utf8.Encode, BindingOf, S.ExpectedCbind, Xor;
    BindingIs(server, s);
    S.BindingIgnoresState(server, s, S.Done);
  }

  /** An attribute counts under the first character of its name; one without `=`, or without a name, counts for nothing. */
  lemma AttributeIs(name: string, value: string)
    requires '=' !in name
    ensures C.KvEntry(name + ['='] + value) == if name == "" then None else Some((name[0], value))
    ensures C.KvEntry(name) == None
  {
    SplitOnceAt(name, '=', value);
  }

  /** Of several attributes of one name the last counts. */
  lemma {:induction false} LastAttributeCounts(attributes: seq<string>, key: char)
    ensures var kv := C.CollectKv(attributes);
            if exists i :: 0 <= i < |attributes| && Has(attributes[i], key) then
              key in kv && exists i :: 0 <= i < |attributes| && C.KvEntry(attributes[i]) == Some((key, kv[key]))
                                       && forall j :: i < j < |attributes| ==> !Has(attributes[j], key)
            else key !in kv
    decreases |attributes|
  {
    hide C.KvEntry;
    if attributes != [] {
      var (before, last) := (attributes[..|attributes| - 1], attributes[|attributes| - 1]);
      LastAttributeCounts(before, key);
      if Has(last, key) {
        assert attributes[|attributes| - 1] == last;
      } else if exists i :: 0 <= i < |before| && Has(before[i], key) {
        var kv := C.CollectKv(before);
        var i :| 0 <= i < |before| && C.KvEntry(before[i]) == Some((key, kv[key])) && forall j :: i < j < |before| ==> !Has(before[j], key);
        assert attributes[i] == before[i] && Has(before[i], key);
        assert forall j :: i < j < |attributes| ==> attributes[j] == if j < |before| then before[j] else last;
      } else {
        assert forall i :: 0 <= i < |attributes| ==> attributes[i] == if i < |before| then before[i] else last;
      }
    }
  }

  predicate Has(attribute: string, key: char) {
    C.KvEntry(attribute).Some? && C.KvEntry(attribute).value.0 == key
  }

  /** What the client role makes of a server-first message: its first fault, or its three fields. */
  lemma ServerFirstIsChecked(c: C.Client, message: string)
    ensures var (kv, r) := (C.ParseKv(message), C.ReadServerFirst(c, message));
            if 'r' !in kv then r == Err(Auth(MissingNonce))
            else if 's' !in kv then r == Err(Auth(MissingSalt))
            else if 'i' !in kv then r == Err(Auth(MissingIterations))
            else if Decimal.Parse(kv['i']).None? then r == Err(Auth(InvalidIterations))
            else if !(c.clientNonce < kv['r']) then r == Err(Auth(NonceMismatch))
            else if Base64.Decode(true, kv['s']).None? then r == Err(Auth(InvalidSalt))
            else r == Ok((kv['r'], Base64.Decode(true, kv['s']).value, Decimal.Parse(kv['i']).value))
  {
    hide C.ParseKv, Decimal.Parse, Base64.Decode;
  }

  /** What a captured key is good for: its own salt and its own count, with a StoredKey beside it. */
  lemma CapturedKeysAreBound(c: C.Client, salt: Bytes, iterations: u32, storedSalt: Bytes, storedIterations: u32)
    requires c.password.None?
    ensures var r := C.SelectKeys(c, salt, iterations, storedSalt, storedIterations);
            && (r == Err(SaltMismatch) <==> salt != storedSalt)
            && (r == Err(Auth(IterationMismatch)) <==> salt == storedSalt && iterations != storedIterations)
            && (r == Err(UnsupportedAuth(NoClientKey)) <==> salt == storedSalt && iterations == storedIterations && c.clientKey.None?)
            && (r == Err(Auth(NoStoredSecret))
                <==> salt == storedSalt && iterations == storedIterations && c.clientKey.Some? && c.storedKey.None?)
            && (r.Ok? <==> salt == storedSalt && iterations == storedIterations && c.clientKey.Some? && c.storedKey.Some?)
            && (r.Ok? ==> r.value == C.Keys(c.clientKey.value, c.storedKey.value, c.serverKey))
  {
  }

  /** What the client role makes of a server-final message: the server's own error, no key to check with, or a verdict. */
  lemma ServerFinalIsChecked(c: C.Client, message: string)
    ensures var (kv, r) := (C.ParseKv(message), C.VerifyServerFinal(c, message));
            && ('e' in kv ==> r == Err(Auth(ServerReported(kv['e']))))
            && ('e' !in kv && c.serverKey.None? ==> r == Ok(false))
            && ('e' !in kv && c.serverKey.Some? ==>
                  if 'v' in kv && Base64.Decode(true, kv['v']) == Some(c.crypto.hmac(c.serverKey.value, Utf8.Encode(c.authMessage))) then r == Ok(true)
                  else r == Err(Auth(InvalidServerSignature)))
  {
    hide C.ParseKv, Base64.Decode, Utf8.Encode;
  }
}
