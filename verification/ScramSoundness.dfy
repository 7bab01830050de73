/** What holds of a SCRAM server over every sequence of calls, whatever strings a client sends. */
module ScramSoundness {
  import opened Prelude
  import opened Verifiers
  import opened ScramServer
  import Text
  import Base64
  import Utf8

  datatype Call =
    | First(mechanism: string, message: string, user: string, serverNonce: Bytes)
    | Final(message: string, user: string)

  function Respond(server: Server, s: Session, call: Call): (Session, Result<string, ScramError>) {
    match call
    case First(mechanism, message, user, serverNonce) => ClientFirst(server, s, mechanism, message, user, serverNonce)
    case Final(message, user) => ClientFinal(server, s, message, user)
  }

  /** The session after the calls, from a new authenticator. */
  function Run(server: Server, calls: seq<Call>): Session {
    if calls == [] then NEW_SESSION
    else Respond(server, Run(server, calls[..|calls| - 1]), calls[|calls| - 1]).0
  }

  /** The reply to call `i`. */
  function Reply(server: Server, calls: seq<Call>, i: nat): Result<string, ScramError>
    requires i < |calls|
  {
    Respond(server, Run(server, calls[..i]), calls[i]).1
  }

  lemma RunStep(server: Server, calls: seq<Call>, i: nat)
    requires i < |calls|
    ensures Run(server, calls[..i + 1]) == Respond(server, Run(server, calls[..i]), calls[i]).0
  {
    assert calls[..i + 1][..i] == calls[..i];
  }

  /** What one call can do to the state. */
  lemma StateStep(server: Server, s: Session, call: Call)
    ensures var (s', r) := Respond(server, s, call);
            && (s.state == Done ==> s' == s && r.Err?)
            && (s.state == ClientFirstReceived && call.First? ==> s' == s && r.Err?)
            && (s.state == ClientFirstReceived && call.Final? ==> s'.state == Done)
            && (s.state == Started ==> s'.state != Done && s'.extractedClientKey == s.extractedClientKey)
            && (s.state == Started && s'.state == Started ==> r.Err?)
            && (s'.state == ClientFirstReceived && s.state == Started ==> call.First? && r == Ok(s'.serverFirst))
  {
    hide SplitClientFirst, Gs2FlagError, AuthzidError, ClientNonce, CheckFinal, ServerFirst, Mechanisms;
  }

  /**
   * What a refused call leaves behind: usually nothing; before the exchange is opened a client-first without a nonce
   * leaves its GS2 header, which the opening call overwrites; and a client-final spends an open exchange.
   */
  lemma RefusalLeaves(server: Server, s: Session, call: Call)
    requires Respond(server, s, call).1.Err?
    ensures var s' := Respond(server, s, call).0;
            if call.First? && s.state == Started then s' == s.(gs2Header := s'.gs2Header)
            else if call.Final? && s.state == ClientFirstReceived then s' == s.(state := Done)
            else s' == s
  {
    hide SplitClientFirst, Gs2FlagError, AuthzidError, ClientNonce, CheckFinal, ServerFirst, Mechanisms, RecoveredKey, ServerFinal;
  }

  predicate AllRefused(server: Server, calls: seq<Call>, n: nat, i: int, j: int)
    requires n <= |calls|
  {
    forall k | 0 <= k < n && k != i && k != j :: Reply(server, calls, k).Err?
  }

  /** Call `i` opened the exchange. */
  predicate OpenedBy(server: Server, calls: seq<Call>, i: nat)
    requires i < |calls|
  {
    var opened' := Run(server, calls[..i + 1]);
    && calls[i].First?
    && Run(server, calls[..i]).state == Started
    && opened'.state == ClientFirstReceived
    && opened'.extractedClientKey.None?
    && Reply(server, calls, i) == Ok(opened'.serverFirst)
  }

  /**
   * The history behind a session: nothing succeeded before the one client-first that opened it, nothing changed
   * until the one client-final that closed it, and nothing succeeded after.
   */
  lemma {:induction false} Explain(server: Server, calls: seq<Call>, n: nat) returns (i: int, j: int)
    requires n <= |calls|
    ensures var s := Run(server, calls[..n]);
            match s.state
            case Started => s == NEW_SESSION.(gs2Header := s.gs2Header) && AllRefused(server, calls, n, -1, -1)
            case ClientFirstReceived =>
              0 <= i < n && OpenedBy(server, calls, i) && s == Run(server, calls[..i + 1]) && AllRefused(server, calls, n, i, -1)
            case Done =>
              && 0 <= i < j < n && OpenedBy(server, calls, i) && calls[j].Final?
              && Run(server, calls[..j]) == Run(server, calls[..i + 1])
              && s == Run(server, calls[..j + 1])
              && AllRefused(server, calls, n, i, j)
  {
    hide ClientFirst, ClientFinal, Respond, Run;
    i, j := -1, -1;
    if n == 0 {
      assert Run(server, calls[..0]) == NEW_SESSION by {
        EmptyRun(server, calls);
      }
    } else {
      i, j := Explain(server, calls, n - 1);
      var s := Run(server, calls[..n - 1]);
      StateStep(server, s, calls[n - 1]);
      if Reply(server, calls, n - 1).Err? {
        RefusalLeaves(server, s, calls[n - 1]);
      }
      RunStep(server, calls, n - 1);
      var s' := Run(server, calls[..n]);
      if s.state == Started && s'.state != Started {
        i := n - 1;
      } else if s.state == ClientFirstReceived && s'.state == Done {
        j := n - 1;
      }
    }
  }

  lemma EmptyRun(server: Server, calls: seq<Call>)
    ensures Run(server, calls[..0]) == NEW_SESSION
  {
  }

  /** Nothing but one client-final ever gets past the state check, and no call succeeds after it. */
  lemma OneFinalPastStateCheck(server: Server, calls: seq<Call>, j: nat, k: nat)
    requires j < k < |calls|
    requires calls[j].Final? && Run(server, calls[..j]).state == ClientFirstReceived
    ensures Run(server, calls[..k]).state == Done
    ensures Reply(server, calls, k).Err? && Run(server, calls[..k + 1]) == Run(server, calls[..j + 1])
    decreases k
  {
    hide ClientFirst, ClientFinal;
    StateStep(server, Run(server, calls[..j]), calls[j]);
    RunStep(server, calls, j);
    if j + 1 < k {
      OneFinalPastStateCheck(server, calls, j, k - 1);
    }
    StateStep(server, Run(server, calls[..k]), calls[k]);
    RunStep(server, calls, k);
  }

  /** What an accepted client-first looked like. */
  lemma AcceptedFirst(server: Server, s: Session, call: Call)
    requires call.First? && Respond(server, s, call).1.Ok?
    ensures var s' := Respond(server, s, call).0;
            && s.state == Started && call.user != "" && call.mechanism in Mechanisms(server.certHash) && s'.mechanism == call.mechanism
            && SplitClientFirst(call.message).Some?
            && var (flag, authzid, bare) := SplitClientFirst(call.message).value;
               && Gs2FlagError(server, call.mechanism, flag).None?
               && s'.gs2Header == flag + "," + authzid + "," && s'.clientFirstBare == bare
               && s'.clientNonce == ClientNonce(bare) && s'.clientNonce != ""
               && s'.combinedNonce == s'.clientNonce + "-" + Base64.Standard64(call.serverNonce)
  {
    hide SplitClientFirst, Gs2FlagError, AuthzidError, ClientNonce, ServerFirst, Mechanisms;
  }

  /** `proof64` is the proof of `key` over `text`: it decodes to `key XOR HMAC(StoredKey, text)`. */
  predicate IsProofOf(server: Server, key: Key, proof64: string, text: string) {
    var proof := Base64.Decode(true, proof64);
    && proof.Some?
    && |proof.value| == 32
    && key == Xor(proof.value, server.crypto.hmac(server.verifier.storedKey, Utf8.Encode(text)))
  }

  /** A final message with the given binding and nonce whose proof covers `prefix` and all of the message before it. */
  predicate FinalProves(server: Server, key: Key, message: string, binding: string, nonce: string, prefix: string) {
    var attributes := FinalAttributes(Text.Split(message, ','));
    var proofAt := Text.RFind(message, ",p=");
    && attributes.Some?
    && proofAt.Some?
    && attributes.value.0 == binding
    && attributes.value.1 == nonce
    && IsProofOf(server, key, attributes.value.2, prefix + "," + message[..proofAt.value])
  }

  /** What a well-formed client-final holds. */
  lemma AcceptedFields(server: Server, s: Session, message: string)
    requires CheckFinal(server, s, message).Ok?
    ensures var fields := CheckFinal(server, s, message).value;
            var attributes := FinalAttributes(Text.Split(message, ','));
            && attributes.Some? && attributes.value.0 == ExpectedCbind(server, s) && attributes.value.1 == s.combinedNonce
            && Base64.Decode(true, attributes.value.2) == Some(fields.proof)
            && Text.RFind(message, ",p=").Some? && fields.withoutProof == message[..Text.RFind(message, ",p=").value]
  {
    hide FinalAttributes, ExpectedCbind, Text.Split, Text.RFind, Base64.Decode;
  }

  /** What an accepted client-final contained. */
  lemma AcceptedFinal(server: Server, s: Session, call: Call)
    requires call.Final? && s.extractedClientKey.None? && Respond(server, s, call).0.extractedClientKey.Some?
    ensures s.state == ClientFirstReceived && !server.verifier.dummy && Respond(server, s, call).1.Ok?
    ensures var key := Respond(server, s, call).0.extractedClientKey.value;
            && server.crypto.sha256(key) == server.verifier.storedKey
            && FinalProves(server, key, call.message, ExpectedCbind(server, s), s.combinedNonce, s.clientFirstBare + "," + s.serverFirst)
  {
    hide FinalAttributes, ServerFinal, ExpectedCbind, Text.Split, Text.RFind, Base64.Decode, Utf8.Encode, Xor;
    BindingIgnoresState(server, s, Done);
    AcceptedFields(server, s.(state := Done), call.message);
  }

  /** The `c=` value of an exchange opened with `mechanism`, `flag` and `authzid`. */
  function Binding(server: Server, mechanism: string, flag: string, authzid: string): string {
    if mechanism == PLUS && server.certHash.Some? then server.certHash.value.ExpectedC()
    else Base64.Standard64(Utf8.Encode(flag + "," + authzid + ","))
  }

  /** `key` is proved by the two messages of one exchange, over everything both sides said in it. */
  predicate ExchangeProves(server: Server, key: Key, first: Call, serverFirst: string, final: Call)
    requires first.First? && final.Final?
  {
    var parsed := SplitClientFirst(first.message);
    && parsed.Some?
    && var (flag, authzid, bare) := parsed.value;
       FinalProves(
         server, key, final.message, Binding(server, first.mechanism, flag, authzid),
         ClientNonce(bare) + "-" + Base64.Standard64(first.serverNonce), bare + "," + serverFirst)
  }

  /** The two calls of the exchange a key was extracted from. */
  lemma FindExchange(server: Server, calls: seq<Call>) returns (i: nat, j: nat)
    requires Run(server, calls).extractedClientKey.Some?
    ensures i < j < |calls| && OpenedBy(server, calls, i) && calls[j].Final?
    ensures Run(server, calls[..j]) == Run(server, calls[..i + 1]) && Run(server, calls) == Run(server, calls[..j + 1])
    ensures AllRefused(server, calls, |calls|, i, j)
  {
    hide ClientFirst, ClientFinal, Respond, Run;
    assert calls[..|calls|] == calls;
    i, j := Explain(server, calls, |calls|);
  }

  /**
   * Soundness: a ClientKey comes out of an authenticator only for a real verifier, only if it hashes to the StoredKey,
   * and only from one client-first and one later client-final whose proof covers exactly the recorded exchange,
   * including the nonce this server drew and the channel binding it expects.
   */
  lemma ExtractedKeyIsProved(server: Server, calls: seq<Call>) returns (i: nat, j: nat)
    requires Run(server, calls).extractedClientKey.Some?
    ensures i < j < |calls| && calls[i].First? && calls[j].Final?
    ensures Reply(server, calls, i).Ok? && Reply(server, calls, j).Ok?
    ensures forall k | 0 <= k < |calls| && k != i && k != j :: Reply(server, calls, k).Err?
    ensures !server.verifier.dummy
    ensures server.crypto.sha256(Run(server, calls).extractedClientKey.value) == server.verifier.storedKey
    ensures ExchangeProves(server, Run(server, calls).extractedClientKey.value, calls[i], Reply(server, calls, i).value, calls[j])
  {
    hide ClientFirst, ClientFinal, SplitClientFirst, Gs2FlagError, ClientNonce, Mechanisms, FinalProves, Respond, Run;
    i, j := FindExchange(server, calls);
    RunStep(server, calls, i);
    RunStep(server, calls, j);
    AcceptedFirst(server, Run(server, calls[..i]), calls[i]);
    AcceptedFinal(server, Run(server, calls[..j]), calls[j]);
  }

  /**
   * No downgrade: when the server could have bound the channel, a client that got in either said it cannot bind
   * (`n`) or sent the binding of this server's certificate.
   */
  lemma NoDowngrade(server: Server, calls: seq<Call>) returns (i: nat, j: nat)
    requires Run(server, calls).extractedClientKey.Some? && server.certHash.Some?
    ensures i < j < |calls| && calls[i].First? && calls[j].Final?
    ensures SplitClientFirst(calls[i].message).Some? && FinalAttributes(Text.Split(calls[j].message, ',')).Some?
    ensures || (calls[i].mechanism == SCRAM_SHA_256 && SplitClientFirst(calls[i].message).value.0 == "n")
            || (calls[i].mechanism == PLUS
                && FinalAttributes(Text.Split(calls[j].message, ',')).value.0 == server.certHash.value.ExpectedC())
  {
    hide ClientFirst, ClientFinal, SplitClientFirst, ClientNonce, FinalAttributes, Respond, Run;
    i, j := ExtractedKeyIsProved(server, calls);
    AcceptedFirst(server, Run(server, calls[..i]), calls[i]);
  }

  /** The user never learns whether the name or the password was wrong: every refused proof reads the same. */
  lemma RefusedProofsReadTheSame(server: Server, s: Session, message: string, user: string)
    requires s.state == ClientFirstReceived && CheckFinal(server, s.(state := Done), message).Ok?
    ensures var r := ClientFinal(server, s, message, user).1;
            r.Err? ==> r.error == AuthenticationFailed(user)
    ensures server.verifier.dummy ==> ClientFinal(server, s, message, user) == (s.(state := Done), Err(AuthenticationFailed(user)))
  {
    hide CheckFinal;
  }
}
