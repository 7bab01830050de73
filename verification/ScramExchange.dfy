/**
 * The two halves of SCRAM run against each other: every message one side prints is read back by the other as it
 * was meant, and the key the proxy recovers from its client carries a second exchange with the backend.
 */
module ScramExchange {
  import opened Prelude
  import opened Text
  import opened Verifiers
  import opened ChannelBinding
  import opened BackendErrors
  import Base64
  import Decimal
  import Utf8
  import S = ScramServer
  import C = ScramClients

  /** The wire name of the mechanism a client has selected, as the server of this proxy spells it. */
  function MechanismName(c: C.Client): string {
    if c.mechanism.Sha256? then S.SCRAM_SHA_256 else S.PLUS
  }

  /** A client that has just been created, bound to the server's certificate when it selected `-PLUS`. */
  predicate ReadyFor(c: C.Client, server: S.Server) {
    && ',' !in c.clientNonce
    && c.clientNonce != ""
    && c.channelBinding == (if c.mechanism.Sha256? then None else Some(c.CbindInput()))
    && (c.mechanism.Sha256Plus? ==> server.certHash.Some? && c.CbindInput() == server.certHash.value.CbindInput())
  }

  function Bare(c: C.Client): string {
    "n=,r=" + c.clientNonce
  }

  function Flag(c: C.Client): string {
    if c.mechanism.Sha256? then "n" else "p=tls-server-end-point"
  }

  lemma HeaderIs(c: C.Client)
    ensures c.mechanism.Gs2Header() == Flag(c) + "," + "" + "," == Flag(c) + [','] + ("" + [','] + "") && ',' !in Flag(c)
  {
  }

  lemma FirstSplits(flag: string, bare: string)
    requires ',' !in flag
    ensures S.SplitClientFirst(flag + [','] + ("" + [','] + bare)) == Some((flag, "", bare))
  {
    hide SplitOnce;
    SplitOnceAt(flag, ',', "" + [','] + bare);
    SplitOnceAt("", ',', bare);
  }

  lemma ClientFirstSplits(c: C.Client)
    ensures S.SplitClientFirst(c.ClientFirst()) == Some((Flag(c), "", Bare(c)))
    ensures Flag(c) + "," + "" + "," == c.mechanism.Gs2Header()
  {
    hide Flag, Bare, S.SplitClientFirst;
    HeaderIs(c);
    FirstSplits(Flag(c), Bare(c));
    FirstIs(c);
  }

  lemma FirstIs(c: C.Client)
    ensures c.ClientFirst() == Flag(c) + [','] + ("" + [','] + Bare(c))
  {
    HeaderIs(c);
    hide Flag;
    var (flag, nonce) := (Flag(c), c.clientNonce);
    assert flag + [','] + ("" + [','] + "") + "n=,r=" + nonce == flag + [','] + ("" + [','] + ("n=,r=" + nonce));
  }

  lemma NonceIsFound(c: C.Client)
    requires ',' !in c.clientNonce
    ensures S.ClientNonce(Bare(c)) == c.clientNonce
  {
    var nonce := "r=" + c.clientNonce;
    assert Bare(c) == "n=" + "," + nonce;
    SplitCons("n=", ',', nonce);
    SplitPlain(nonce, ',');
    assert Split(Bare(c), ',') == ["n=", nonce];
    assert ["n=", nonce][..1] == ["n="];
    assert nonce[|"r="|..] == c.clientNonce;
    assert S.Values(["n="], "r=") == [];
  }

  lemma MechanismAccepted(c: C.Client, server: S.Server)
    requires ReadyFor(c, server)
    ensures MechanismName(c) in S.Mechanisms(server.certHash)
    ensures S.Gs2FlagError(server, MechanismName(c), Flag(c)).None?
  {
    var m := S.Mechanisms(server.certHash);
    assert m[|m| - 1] == S.SCRAM_SHA_256;
    if c.mechanism.Sha256Plus? {
      assert m[0] == S.PLUS;
      assert S.PLUS != S.SCRAM_SHA_256;
    }
  }

  lemma FirstIsOpened(
    server: S.Server, mechanism: string, message: string, flag: string, bare: string, user: string, random: Bytes)
    requires mechanism in S.Mechanisms(server.certHash) && S.Gs2FlagError(server, mechanism, flag).None?
    requires S.SplitClientFirst(message) == Some((flag, "", bare))
    requires S.ClientNonce(bare) != "" && user != ""
    ensures var next := S.Opened(server, mechanism, flag + "," + "" + ",", bare, random);
            S.ClientFirst(server, S.NEW_SESSION, mechanism, message, user, random) == (next, Ok(next.serverFirst))
  {
    hide S.SplitClientFirst, S.ClientNonce, S.ServerFirst, S.Mechanisms, S.Gs2FlagError;
  }

  /** The server opens the exchange with exactly what the client sent. */
  lemma ServerAcceptsFirst(c: C.Client, server: S.Server, user: string, random: Bytes)
    requires ReadyFor(c, server) && user != ""
    ensures var next := S.Opened(server, MechanismName(c), c.mechanism.Gs2Header(), Bare(c), random);
            S.ClientFirst(server, S.NEW_SESSION, MechanismName(c), c.ClientFirst(), user, random) == (next, Ok(next.serverFirst))
  {
    hide S.ClientFirst, S.Opened, S.SplitClientFirst, S.ClientNonce, S.Mechanisms, S.Gs2FlagError, MechanismName, Flag, Bare;
    ClientFirstSplits(c);
    MechanismAccepted(c, server);
    NonceIsFound(c);
    FirstIsOpened(server, MechanismName(c), c.ClientFirst(), Flag(c), Bare(c), user, random);
  }

  lemma {:induction false} CollectKvConcat(a: seq<string>, b: seq<string>)
    ensures C.CollectKv(a + b) == C.CollectKv(a) + C.CollectKv(b)
  {
    if b == [] {
      assert a + b == a;
    } else {
      assert (a + b)[..|a + b| - 1] == a + b[..|b| - 1];
      CollectKvConcat(a, b[..|b| - 1]);
    }
  }

  /** One printed attribute is read back as one entry. */
  lemma EntryReadsBack(key: char, value: string)
    requires key != '='
    ensures C.KvEntry([key] + "=" + value) == Some((key, value))
    ensures C.CollectKv([[key] + "=" + value]) == map[key := value]
  {
    SplitOnceAt([key], '=', value);
    assert [[key] + "=" + value][..0] == [];
  }

  /** The server-first message reads back as the nonce, salt and iteration count it was printed from. */
  lemma ServerFirstReadsBack(c: C.Client, verifier: Verifier, combined: string)
    requires ',' !in combined && c.clientNonce <= combined && |c.clientNonce| < |combined|
    ensures C.ReadServerFirst(c, S.ServerFirst(verifier, combined)) == Ok((combined, verifier.salt, verifier.iterations))
  {
    var salt, iterations := Base64.Standard64(verifier.salt), Decimal.Print(verifier.iterations);
    var (r, s, i) := (['r'] + "=" + combined, ['s'] + "=" + salt, ['i'] + "=" + iterations);
    ServerFirstSplits(verifier, combined);
    EntryReadsBack('r', combined);
    EntryReadsBack('s', salt);
    EntryReadsBack('i', iterations);
    CollectKvConcat([r], [s]);
    CollectKvConcat([r] + [s], [i]);
    assert [r] + [s] + [i] == [r, s, i];
    Decimal.PrintThenParse(verifier.iterations);
    Base64.EncodeThenDecode(true, verifier.salt);
  }

  lemma ServerFirstSplits(verifier: Verifier, combined: string)
    requires ',' !in combined
    ensures Split(S.ServerFirst(verifier, combined), ',')
         == [['r'] + "=" + combined, ['s'] + "=" + Base64.Standard64(verifier.salt), ['i'] + "=" + Decimal.Print(verifier.iterations)]
  {
    var salt, iterations := Base64.Standard64(verifier.salt), Decimal.Print(verifier.iterations);
    var (r, s, i) := (['r'] + "=" + combined, ['s'] + "=" + salt, ['i'] + "=" + iterations);
    FieldsHaveNoDelimiters(verifier.salt, verifier.iterations);
    assert S.ServerFirst(verifier, combined) == r + [','] + (s + [','] + i);
    SplitCons(r, ',', s + [','] + i);
    SplitCons(s, ',', i);
    SplitPlain(i, ',');
  }

  lemma CombinedNonce(c: C.Client, server: S.Server, random: Bytes)
    requires ReadyFor(c, server)
    ensures var s := S.Opened(server, MechanismName(c), c.mechanism.Gs2Header(), Bare(c), random);
            && s.clientNonce == c.clientNonce && s.clientFirstBare == Bare(c)
            && s.serverFirst == S.ServerFirst(server.verifier, s.combinedNonce)
            && c.clientNonce <= s.combinedNonce && |c.clientNonce| < |s.combinedNonce| && ',' !in s.combinedNonce
  {
    hide S.ClientNonce, S.ServerFirst, Bare, MechanismName;
    NonceIsFound(c);
    FieldsHaveNoDelimiters(random, 0);
  }

  /** The server expects the binding the client was given. */
  lemma SameBinding(c: C.Client, server: S.Server, s: S.Session)
    requires ReadyFor(c, server) && s.mechanism == MechanismName(c) && s.gs2Header == c.mechanism.Gs2Header()
    ensures S.ExpectedCbind(server, s) == Base64.Standard64(c.CbindInput())
  {
    if c.mechanism.Sha256? {
      assert S.SCRAM_SHA_256[0] != S.PLUS[0];
    }
  }

  /** The three attributes of a printed client-final are found again, each once. */
  lemma FinalReadsBack(cbind: Bytes, combined: string, proof: Bytes)
    requires ',' !in combined
    ensures var withoutProof := "c=" + Base64.Standard64(cbind) + ",r=" + combined;
            var message := withoutProof + ",p=" + Base64.Standard64(proof);
            && S.FinalAttributes(Split(message, ',')) == Some((Base64.Standard64(cbind), combined, Base64.Standard64(proof)))
            && RFind(message, ",p=") == Some(|withoutProof|) && message[..|withoutProof|] == withoutProof
  {
    hide *;
    FieldsHaveNoDelimiters(cbind, 0);
    FieldsHaveNoDelimiters(proof, 0);
    Undelimited(Base64.Standard64(cbind), Base64.Standard64(proof));
    AttributesReadBack(Base64.Standard64(cbind), combined, Base64.Standard64(proof));
    ProofIsFound("c=" + Base64.Standard64(cbind) + ",r=" + combined, Base64.Standard64(proof));
  }

  lemma Undelimited(cb: string, pr: string)
    requires NoDelimiters(cb) && NoDelimiters(pr)
    ensures ',' !in cb && ',' !in pr
  {
  }

  lemma AttributesReadBack(cb: string, combined: string, pr: string)
    requires ',' !in cb && ',' !in combined && ',' !in pr
    ensures S.FinalAttributes(Split("c=" + cb + ",r=" + combined + ",p=" + pr, ',')) == Some((cb, combined, pr))
  {
    var (a, b, c) := ("c=" + cb, "r=" + combined, "p=" + pr);
    Joins(cb, combined, pr);
    assert ',' !in a && ',' !in b && ',' !in c;
    hide Split, S.FinalAttributes;
    SplitThree(a, b, c);
    ThreeValues(cb, combined, pr);
  }

  lemma Joins(cb: string, combined: string, pr: string)
    ensures "c=" + cb + ",r=" + combined + ",p=" + pr == ("c=" + cb) + [','] + (("r=" + combined) + [','] + ("p=" + pr))
  {
  }

  lemma ProofIsFound(withoutProof: string, pr: string)
    requires ',' !in pr
    ensures var message := withoutProof + ",p=" + pr;
            RFind(message, ",p=") == Some(|withoutProof|) && message[..|withoutProof|] == withoutProof
  {
    hide RFind;
    RFindAt(withoutProof, ",p=", pr);
  }

  lemma ThreeValues(cb: string, combined: string, pr: string)
    ensures S.FinalAttributes(["c=" + cb, "r=" + combined, "p=" + pr]) == Some((cb, combined, pr))
  {
    var (a, b, c) := ("c=" + cb, "r=" + combined, "p=" + pr);
    ValuesOfThree(a, b, c, "c=");
    ValuesOfThree(a, b, c, "r=");
    ValuesOfThree(a, b, c, "p=");
    hide S.Values;
    OneValue("c=", cb);
    OneValue("r=", combined);
    OneValue("p=", pr);
  }

  lemma SplitThree(a: string, b: string, c: string)
    requires ',' !in a && ',' !in b && ',' !in c
    ensures Split(a + [','] + (b + [','] + c), ',') == [a, b, c]
  {
    SplitCons(a, ',', b + [','] + c);
    SplitCons(b, ',', c);
    SplitPlain(c, ',');
  }

  lemma ValuesOfThree(a: string, b: string, c: string, prefix: string)
    ensures S.Values([a, b, c], prefix) == S.Values([a], prefix) + S.Values([b], prefix) + S.Values([c], prefix)
  {
    hide S.Values;
    assert [a, b, c] == [a] + [b] + [c];
    S.ValuesConcat([a] + [b], [c], prefix);
    S.ValuesConcat([a], [b], prefix);
  }

  lemma OneValue(prefix: string, value: string)
    ensures S.Values([prefix + value], prefix) == [value]
    ensures forall other: string | |other| == |prefix| && other != prefix :: S.Values([prefix + value], other) == []
  {
    var parts := [prefix + value];
    assert parts[..0] == [];
    assert parts[0][..|prefix|] == prefix && parts[0][|prefix|..] == value;
  }

  /** The server reads the proof and the covered text out of the client's final message. */
  lemma ServerReadsFinal(c: C.Client, server: S.Server, random: Bytes, proof: Key)
    requires ReadyFor(c, server)
    ensures var s := S.Opened(server, MechanismName(c), c.mechanism.Gs2Header(), Bare(c), random);
            var withoutProof := C.WithoutProof(c, s.combinedNonce);
            S.CheckFinal(server, s.(state := S.Done), withoutProof + ",p=" + Base64.Standard64(proof))
            == Ok(S.FinalFields(withoutProof, proof))
  {
    var s := S.Opened(server, MechanismName(c), c.mechanism.Gs2Header(), Bare(c), random);
    hide S.ExpectedCbind, S.FinalAttributes, S.ClientNonce, S.ServerFirst, MechanismName, Bare, ReadyFor;
    CombinedNonce(c, server, random);
    SameBinding(c, server, s.(state := S.Done));
    FinalReadsBack(c.CbindInput(), s.combinedNonce, proof);
    Base64.EncodeThenDecode(true, proof);
  }

  /** Both sides sign the same text. */
  lemma SameAuthMessage(c: C.Client, server: S.Server, random: Bytes)
    requires ReadyFor(c, server)
    ensures var s := S.Opened(server, MechanismName(c), c.mechanism.Gs2Header(), Bare(c), random);
            C.AuthMessage(c, s.serverFirst, s.combinedNonce)
            == S.AuthMessage(s.(state := S.Done), C.WithoutProof(c, s.combinedNonce))
  {
    var s := S.Opened(server, MechanismName(c), c.mechanism.Gs2Header(), Bare(c), random);
    hide S.Opened, C.WithoutProof, S.ServerFirst, MechanismName;
    CombinedNonce(c, server, random);
  }

  /** The signature attribute reads back as the signature. */
  lemma ServerFinalReadsBack(signature: Bytes)
    ensures C.ParseKv("v=" + Base64.Standard64(signature)) == map['v' := Base64.Standard64(signature)]
  {
    var value := Base64.Standard64(signature);
    FieldsHaveNoDelimiters(signature, 0);
    SplitPlain("v=" + value, ',');
    EntryReadsBack('v', value);
    assert ['v'] + "=" + value == "v=" + value;
  }

  /** How an exchange ends. */
  datatype Outcome =
    | FirstRefused(scramError: S.ScramError)
    | ClientGaveUp(pgError: PgError)
    | FinalRefused(scramError: S.ScramError)
    | Finished(extracted: Option<Key>, signatureVerified: Result<bool, PgError>)

  /** One whole exchange: first, server-first, final, server-final, signature check. */
  function Exchange(c: C.Client, server: S.Server, user: string, random: Bytes, storedSalt: Bytes, storedIterations: u32): Outcome {
    var (opened', first) := S.ClientFirst(server, S.NEW_SESSION, MechanismName(c), c.ClientFirst(), user, random);
    match first
    case Err(error) => FirstRefused(error)
    case Ok(serverFirst) =>
      var (c', final) := C.ClientFinal(c, serverFirst, storedSalt, storedIterations);
      match final
      case Err(error) => ClientGaveUp(error)
      case Ok(message) =>
        var (closed, last) := S.ClientFinal(server, opened', message, user);
        match last
        case Err(error) => FinalRefused(error)
        case Ok(serverFinal) => Finished(closed.extractedClientKey, C.VerifyServerFinal(c', serverFinal))
  }

  /** The text both sides sign, in terms of the two nonces. */
  function Transcript(c: C.Client, server: S.Server, random: Bytes): Bytes {
    var s := S.Opened(server, MechanismName(c), c.mechanism.Gs2Header(), Bare(c), random);
    Utf8.Encode(C.AuthMessage(c, s.serverFirst, s.combinedNonce))
  }

  /** The ClientKey the server recovers when the client proves `keys` over `transcript`. */
  function KeyRecovered(server: S.Server, keys: C.Keys, transcript: Bytes): Key
    requires |keys.clientKey| == 32
  {
    Xor(Xor(keys.clientKey, server.crypto.hmac(keys.storedKey, transcript)), server.crypto.hmac(server.verifier.storedKey, transcript))
  }

  function SignatureVerdict(server: S.Server, keys: C.Keys, transcript: Bytes): Result<bool, PgError> {
    match keys.serverKey
    case None => Ok(false)
    case Some(key) =>
      if server.crypto.hmac(key, transcript) == server.crypto.hmac(server.verifier.serverKey, transcript) then Ok(true)
      else Err(Auth(InvalidServerSignature))
  }

  /**
   * How every exchange between a fresh client and a fresh server ends: no message is ever misread, so only the keys
   * decide.
   */
  lemma ExchangeOutcome(c: C.Client, server: S.Server, user: string, random: Bytes, storedSalt: Bytes, storedIterations: u32)
    requires ReadyFor(c, server) && user != "" && c.crypto == server.crypto
    ensures Exchange(c, server, user, random, storedSalt, storedIterations)
         == match C.SelectKeys(c, server.verifier.salt, server.verifier.iterations, storedSalt, storedIterations)
            case Err(error) => ClientGaveUp(error)
            case Ok(keys) =>
              if |keys.clientKey| != 32 then ClientGaveUp(Auth(InvalidClientKeyLength))
              else
                var transcript := Transcript(c, server, random);
                var key := KeyRecovered(server, keys, transcript);
                if server.crypto.sha256(key) == server.verifier.storedKey && !server.verifier.dummy then
                  Finished(Some(key), SignatureVerdict(server, keys, transcript))
                else FinalRefused(S.AuthenticationFailed(user))
  {
    hide S.ClientFirst, S.ServerFirst, S.CheckFinal, C.ReadServerFirst, C.SelectKeys, C.WithoutProof, C.AuthMessage, S.AuthMessage,
      MechanismName, Bare, C.ParseKv, S.Opened, ReadyFor, C.ClientFinal, S.ClientFinal, C.VerifyServerFinal, KeyRecovered, SignatureVerdict;
    var s := S.Opened(server, MechanismName(c), c.mechanism.Gs2Header(), Bare(c), random);
    ServerAcceptsFirst(c, server, user, random);
    ClientAnswers(c, server, random, storedSalt, storedIterations);
    match C.SelectKeys(c, server.verifier.salt, server.verifier.iterations, storedSalt, storedIterations) {
      case Err(_) =>
      case Ok(keys) =>
        if |keys.clientKey| == 32 {
          var transcript := Transcript(c, server, random);
          ServerDecides(c, server, user, random, keys);
          ClientVerifies(c, server, keys, transcript, C.AuthMessage(c, s.serverFirst, s.combinedNonce));
        }
    }
  }

  function Answered(c: C.Client, s: S.Session, keys: C.Keys): C.Client {
    c.(authMessage := C.AuthMessage(c, s.serverFirst, s.combinedNonce), serverKey := keys.serverKey)
  }

  function FinalMessage(c: C.Client, s: S.Session, keys: C.Keys, transcript: Bytes): string
    requires |keys.clientKey| == 32
  {
    C.WithoutProof(c, s.combinedNonce) + ",p=" + Base64.Standard64(Xor(keys.clientKey, c.crypto.hmac(keys.storedKey, transcript)))
  }

  /** What the client answers the server's first message with. */
  lemma ClientAnswers(c: C.Client, server: S.Server, random: Bytes, storedSalt: Bytes, storedIterations: u32)
    requires ReadyFor(c, server)
    ensures var s := S.Opened(server, MechanismName(c), c.mechanism.Gs2Header(), Bare(c), random);
            var answer := C.ClientFinal(c, s.serverFirst, storedSalt, storedIterations);
            match C.SelectKeys(c, server.verifier.salt, server.verifier.iterations, storedSalt, storedIterations)
            case Err(error) => answer.1 == Err(error)
            case Ok(keys) =>
              if |keys.clientKey| != 32 then answer.1 == Err(Auth(InvalidClientKeyLength))
              else answer == (Answered(c, s, keys), Ok(FinalMessage(c, s, keys, Transcript(c, server, random))))
  {
    hide S.Opened, S.ServerFirst, C.ReadServerFirst, C.SelectKeys, C.WithoutProof, C.AuthMessage, MechanismName, Bare, ReadyFor;
    var s := S.Opened(server, MechanismName(c), c.mechanism.Gs2Header(), Bare(c), random);
    CombinedNonce(c, server, random);
    ServerFirstReadsBack(c, server.verifier, s.combinedNonce);
  }

  /** Whether the server accepts that answer. */
  lemma ServerDecides(c: C.Client, server: S.Server, user: string, random: Bytes, keys: C.Keys)
    requires ReadyFor(c, server) && c.crypto == server.crypto && |keys.clientKey| == 32
    ensures var s := S.Opened(server, MechanismName(c), c.mechanism.Gs2Header(), Bare(c), random);
            var transcript := Transcript(c, server, random);
            var key := KeyRecovered(server, keys, transcript);
            var done := s.(state := S.Done);
            S.ClientFinal(server, s, FinalMessage(c, s, keys, transcript), user)
            == if server.crypto.sha256(key) == server.verifier.storedKey && !server.verifier.dummy then
                 (done.(extractedClientKey := Some(key)),
                  Ok("v=" + Base64.Standard64(server.crypto.hmac(server.verifier.serverKey, transcript))))
               else (done, Err(S.AuthenticationFailed(user)))
  {
    hide S.CheckFinal, S.ClientNonce, S.ServerFirst, S.AuthMessage, C.WithoutProof, C.AuthMessage, MechanismName, Bare, ReadyFor;
    var s := S.Opened(server, MechanismName(c), c.mechanism.Gs2Header(), Bare(c), random);
    var transcript := Transcript(c, server, random);
    ServerReadsFinal(c, server, random, Xor(keys.clientKey, c.crypto.hmac(keys.storedKey, transcript)));
    SameAuthMessage(c, server, random);
  }

  /** What the client makes of the server's signature. */
  lemma ClientVerifies(c: C.Client, server: S.Server, keys: C.Keys, transcript: Bytes, authMessage: string)
    requires transcript == Utf8.Encode(authMessage) && c.crypto == server.crypto
    ensures C.VerifyServerFinal(
              c.(authMessage := authMessage, serverKey := keys.serverKey),
              "v=" + Base64.Standard64(server.crypto.hmac(server.verifier.serverKey, transcript)))
         == SignatureVerdict(server, keys, transcript)
  {
    hide C.ParseKv;
    var signature := server.crypto.hmac(server.verifier.serverKey, transcript);
    ServerFinalReadsBack(signature);
    Base64.EncodeThenDecode(true, signature);
  }

  /** A client created by `ScramClient::new`, bound to the server's certificate when `plus` is set. */
  function Created(client: C.Client, server: S.Server, plus: bool): C.Client
    requires plus ==> server.certHash.Some?
  {
    if plus then client.UseChannelBinding(server.certHash.value.CbindInput()) else client
  }

  lemma CreatedIsReady(
    crypto: Crypto, clientKey: Option<Bytes>, serverKey: Option<Bytes>, storedKey: Option<Bytes>, password: Option<Bytes>,
    nonce: C.Nonce, server: S.Server, plus: bool)
    requires (plus ==> server.certHash.Some?)
    ensures ReadyFor(Created(C.NewClient(crypto, clientKey, serverKey, storedKey, password, nonce), server, plus), server)
  {
    hide CertHash.CbindInput;
    Base64.EncodeSymbols(Base64.UrlSafe, false, nonce);
  }

  /**
   * Completeness: the right password always gets in, on any salt and iteration count and whatever other keys the client
   * holds, and what the server extracts is exactly the ClientKey of RFC 5802. The server needs only what the password
   * derives, not the password.
   */
  lemma PasswordCompletes(
    clientKey: Option<Bytes>, serverKey: Option<Bytes>, storedKey: Option<Bytes>, password: Bytes, nonce: C.Nonce,
    server: S.Server, user: string, plus: bool, random: Bytes, storedSalt: Bytes, storedIterations: u32)
    requires user != "" && (plus ==> server.certHash.Some?)
    requires var v := server.verifier;
             v.(password := Some(password)) == FromPassword(server.crypto, password, v.salt, v.iterations)
    ensures var client := Created(C.NewClient(server.crypto, clientKey, serverKey, storedKey, Some(password), nonce), server, plus);
            Exchange(client, server, user, random, storedSalt, storedIterations)
            == Finished(Some(ClientKey(server.crypto, password, server.verifier.salt, server.verifier.iterations)), Ok(true))
  {
    hide Exchange, Transcript, ReadyFor, C.Client.CbindInput, CertHash.CbindInput, ClientKey, ServerKey;
    var crypto := server.crypto;
    var client := Created(C.NewClient(crypto, clientKey, serverKey, storedKey, Some(password), nonce), server, plus);
    CreatedIsReady(crypto, clientKey, serverKey, storedKey, Some(password), nonce, server, plus);
    ExchangeOutcome(client, server, user, random, storedSalt, storedIterations);
    var transcript := Transcript(client, server, random);
    XorCancels(ClientKey(crypto, password, server.verifier.salt, server.verifier.iterations), crypto.hmac(server.verifier.storedKey, transcript));
  }

  /**
   * Salt reuse: whatever message a client authenticated with, the key extracted from it opens a fresh exchange with
   * any server that holds the same salt, iteration count and keys, and the proxy verifies that server in turn.
   */
  lemma SaltReuse(
    front: S.Server, session: S.Session, message: string, frontUser: string,
    backend: S.Server, user: string, plus: bool, nonce: C.Nonce, random: Bytes)
    requires S.ClientFinal(front, session, message, frontUser).1.Ok?
    requires backend.crypto == front.crypto && !backend.verifier.dummy
    requires backend.verifier.salt == front.verifier.salt && backend.verifier.iterations == front.verifier.iterations
    requires backend.verifier.storedKey == front.verifier.storedKey && backend.verifier.serverKey == front.verifier.serverKey
    requires user != "" && (plus ==> backend.certHash.Some?)
    ensures var extracted := S.ClientFinal(front, session, message, frontUser).0.extractedClientKey;
            && extracted.Some?
            && var client := Created(
                   C.NewClient(front.crypto, extracted, Some(front.verifier.serverKey), Some(front.verifier.storedKey), None, nonce),
                   backend, plus);
               Exchange(client, backend, user, random, front.verifier.salt, front.verifier.iterations)
               == Finished(extracted, Ok(true))
  {
    hide Exchange, S.CheckFinal, S.RecoveredKey;
    var key := S.ClientFinal(front, session, message, frontUser).0.extractedClientKey.value;
    CapturedKeyDecides(key, front.verifier, backend, user, plus, nonce, random);
  }

  /**
   * What becomes of a captured key at a backend that holds the stored credential it is used with: it opens the exchange,
   * and the backend is verified, exactly when it hashes to the StoredKey.
   */
  lemma CapturedKeyDecides(key: Key, stored: Verifier, backend: S.Server, user: string, plus: bool, nonce: C.Nonce, random: Bytes)
    requires !backend.verifier.dummy
    requires backend.verifier.salt == stored.salt && backend.verifier.iterations == stored.iterations
    requires backend.verifier.storedKey == stored.storedKey && backend.verifier.serverKey == stored.serverKey
    requires user != "" && (plus ==> backend.certHash.Some?)
    ensures var client := Created(
              C.NewClient(backend.crypto, Some(key), Some(stored.serverKey), Some(stored.storedKey), None, nonce), backend, plus);
            Exchange(client, backend, user, random, stored.salt, stored.iterations)
            == if backend.crypto.sha256(key) == stored.storedKey then Finished(Some(key), Ok(true))
               else FinalRefused(S.AuthenticationFailed(user))
  {
    hide Exchange, Transcript, ReadyFor, C.Client.CbindInput;
    var (serverKey, storedKey) := (Some(stored.serverKey), Some(stored.storedKey));
    var client := Created(C.NewClient(backend.crypto, Some(key), serverKey, storedKey, None, nonce), backend, plus);
    CreatedIsReady(backend.crypto, Some(key), serverKey, storedKey, None, nonce, backend, plus);
    ExchangeOutcome(client, backend, user, random, stored.salt, stored.iterations);
    XorCancels(key, backend.crypto.hmac(stored.storedKey, Transcript(client, backend, random)));
  }

  /** With captured keys, a backend that uses another salt is detected before any proof is sent. */
  lemma OtherSaltIsDetected(c: C.Client, server: S.Server, user: string, random: Bytes, storedSalt: Bytes, storedIterations: u32)
    requires ReadyFor(c, server) && user != "" && c.crypto == server.crypto && c.password.None?
    ensures Exchange(c, server, user, random, storedSalt, storedIterations) == ClientGaveUp(SaltMismatch)
            <==> server.verifier.salt != storedSalt
  {
    hide Exchange, Transcript, ReadyFor;
    ExchangeOutcome(c, server, user, random, storedSalt, storedIterations);
  }
}
