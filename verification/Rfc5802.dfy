/** The messages of an exchange written out, as section 3 of RFC 5802 defines them. */
module Rfc5802 {
  import opened Prelude
  import opened Verifiers
  import opened ChannelBinding
  import Base64
  import Decimal
  import Utf8
  import C = ScramClients
  import S = ScramServer
  import X = ScramExchange

  function Header(bound: Option<CertHash>): string {
    if bound.None? then "n,," else "p=tls-server-end-point,,"
  }

  function Binding(bound: Option<CertHash>): Bytes {
    Utf8.Encode(Header(bound)) + if bound.None? then [] else bound.value.digest
  }

  function Bare(clientNonce: string): string {
    "n=,r=" + clientNonce
  }

  function ServerFirst(nonce: string, salt: Bytes, iterations: u32): string {
    "r=" + nonce + ",s=" + Base64.Encode(Base64.Standard, true, salt) + ",i=" + Decimal.Print(iterations)
  }

  function WithoutProof(bound: Option<CertHash>, nonce: string): string {
    "c=" + Base64.Encode(Base64.Standard, true, Binding(bound)) + ",r=" + nonce
  }

  function AuthMessage(bare: string, serverFirst: string, withoutProof: string): Bytes {
    Utf8.Encode(bare + "," + serverFirst + "," + withoutProof)
  }

  /** SaltedPassword, and the keys it derives. */
  datatype Keys = Keys(client: Key, stored: Key, server: Key)

  function Derived(crypto: Crypto, password: Bytes, salt: Bytes, iterations: u32): Keys {
    var salted := crypto.pbkdf2(password, salt, iterations);
    var client := crypto.hmac(salted, Utf8.Encode("Client Key"));
    Keys(client, crypto.sha256(client), crypto.hmac(salted, Utf8.Encode("Server Key")))
  }

  /** ClientProof := ClientKey XOR HMAC(StoredKey, AuthMessage). */
  function ClientFinal(crypto: Crypto, keys: Keys, authMessage: Bytes, withoutProof: string): string {
    withoutProof + ",p=" + Base64.Encode(Base64.Standard, true, Xor(keys.client, crypto.hmac(keys.stored, authMessage)))
  }

  /** ServerSignature := HMAC(ServerKey, AuthMessage). */
  function ServerFinal(crypto: Crypto, keys: Keys, authMessage: Bytes): string {
    "v=" + Base64.Encode(Base64.Standard, true, crypto.hmac(keys.server, authMessage))
  }

  /** A stored password is the keys it derives. */
  lemma DerivedIsStored(crypto: Crypto, password: Bytes, salt: Bytes, iterations: u32)
    ensures var (v, keys) := (FromPassword(crypto, password, salt, iterations), Derived(crypto, password, salt, iterations));
            && v.salt == salt && v.iterations == iterations && v.storedKey == keys.stored && v.serverKey == keys.server && !v.dummy
            && v.password == Some(password) && ClientKey(crypto, password, salt, iterations) == keys.client
            && ServerKey(crypto, password, salt, iterations) == keys.server && keys.stored == crypto.sha256(keys.client)
  {
    hide Utf8.Encode;
  }

  lemma CreatedIs(c: C.Client, server: S.Server, plus: bool, nonce: C.Nonce)
    requires plus ==> server.certHash.Some?
    requires c == X.Created(C.NewClient(server.crypto, None, None, None, c.password, nonce), server, plus)
    ensures var bound := if plus then server.certHash else None;
            && c.clientNonce == Base64.Encode(Base64.UrlSafe, false, nonce)
            && c.mechanism.Gs2Header() == Header(bound) && c.CbindInput() == Binding(bound)
            && X.MechanismName(c) == (if plus then "-PLUS" else "SCRAM-SHA-256")
            && X.Bare(c) == Bare(c.clientNonce) && c.ClientFirst() == Header(bound) + Bare(c.clientNonce)
            && c.crypto == server.crypto
  {
    hide Utf8.Encode, Base64.Encode;
    assert Utf8.Encode("n,,") + [] == Utf8.Encode("n,,");
  }

  /** What the server has recorded of the client's first message, and what it answers. */
  lemma OpenedIs(c: C.Client, server: S.Server, random: Bytes)
    requires X.ReadyFor(c, server)
    ensures var s := S.Opened(server, X.MechanismName(c), c.mechanism.Gs2Header(), X.Bare(c), random);
            && s.combinedNonce == c.clientNonce + "-" + Base64.Encode(Base64.Standard, true, random)
            && s.serverFirst == ServerFirst(s.combinedNonce, server.verifier.salt, server.verifier.iterations)
            && s.clientFirstBare == X.Bare(c)
  {
    hide S.ClientNonce, X.Bare, X.MechanismName, Base64.Encode, Decimal.Print;
    X.NonceIsFound(c);
  }

  /** The text that is signed, and the attributes before the proof. */
  lemma SignedIs(c: C.Client, server: S.Server, random: Bytes, bound: Option<CertHash>)
    requires X.ReadyFor(c, server) && X.Bare(c) == Bare(c.clientNonce) && c.CbindInput() == Binding(bound)
    ensures var s := S.Opened(server, X.MechanismName(c), c.mechanism.Gs2Header(), X.Bare(c), random);
            && C.WithoutProof(c, s.combinedNonce) == WithoutProof(bound, s.combinedNonce)
            && X.Transcript(c, server, random) == AuthMessage(Bare(c.clientNonce), s.serverFirst, WithoutProof(bound, s.combinedNonce))
  {
    hide S.Opened, Binding, Base64.Encode, Utf8.Encode, C.Client.CbindInput, X.MechanismName, X.ReadyFor;
    BareIs(c);
  }

  lemma BareIs(c: C.Client)
    ensures X.Bare(c) == "n=,r=" + c.clientNonce == Bare(c.clientNonce)
  {
  }

  /**
   * The client role and the server role say to each other, character by character, what RFC 5802 prescribes for this
   * password, salt, iteration count and pair of nonces, plain and bound to the certificate.
   */
  lemma ExchangeIsAsWritten(
    crypto: Crypto, password: Bytes, salt: Bytes, iterations: u32, cert: Option<CertHash>, plus: bool,
    nonce: C.Nonce, random: Bytes, user: string, storedSalt: Bytes, storedIterations: u32)
    requires user != "" && (plus ==> cert.Some?)
    ensures var server := S.Server(crypto, FromPassword(crypto, password, salt, iterations), cert);
            var c := X.Created(C.NewClient(crypto, None, None, None, Some(password), nonce), server, plus);
            var (mechanism, bound) := (if plus then "-PLUS" else "SCRAM-SHA-256", if plus then cert else None);
            var clientNonce := Base64.Encode(Base64.UrlSafe, false, nonce);
            var serverNonce := clientNonce + "-" + Base64.Encode(Base64.Standard, true, random);
            var keys := Derived(crypto, password, salt, iterations);
            var serverFirst := ServerFirst(serverNonce, salt, iterations);
            var withoutProof := WithoutProof(bound, serverNonce);
            var authMessage := AuthMessage(Bare(clientNonce), serverFirst, withoutProof);
            var clientFinal := ClientFinal(crypto, keys, authMessage, withoutProof);
            var (opened', first) := S.ClientFirst(server, S.NEW_SESSION, mechanism, Header(bound) + Bare(clientNonce), user, random);
            && c.ClientFirst() == Header(bound) + Bare(clientNonce)
            && first == Ok(serverFirst)
            && C.ClientFinal(c, serverFirst, storedSalt, storedIterations).1 == Ok(clientFinal)
            && S.ClientFinal(server, opened', clientFinal, user).1 == Ok(ServerFinal(crypto, keys, authMessage))
            && S.ClientFinal(server, opened', clientFinal, user).0.extractedClientKey == Some(keys.client)
  {
    hide *;
    var server := S.Server(crypto, FromPassword(crypto, password, salt, iterations), cert);
    var c := X.Created(C.NewClient(crypto, None, None, None, Some(password), nonce), server, plus);
    var (mechanism, bound) := (if plus then "-PLUS" else "SCRAM-SHA-256", if plus then cert else None);
    PasswordIs(crypto, password, nonce, server, plus);
    X.CreatedIsReady(crypto, None, None, None, Some(password), nonce, server, plus);
    CreatedIs(c, server, plus, nonce);
    DerivedIsStored(crypto, password, salt, iterations);
    OpenedIs(c, server, random);
    SignedIs(c, server, random, bound);
    Selected(c, password, salt, iterations, storedSalt, storedIterations);
    X.ServerAcceptsFirst(c, server, user, random);
    X.ClientAnswers(c, server, random, storedSalt, storedIterations);
    var keys := C.Keys(
      ClientKey(crypto, password, salt, iterations), crypto.sha256(ClientKey(crypto, password, salt, iterations)),
      Some(ServerKey(crypto, password, salt, iterations)));
    X.ServerDecides(c, server, user, random, keys);
    var s := S.Opened(server, mechanism, c.mechanism.Gs2Header(), X.Bare(c), random);
    Messages(c, s, server, keys, X.Transcript(c, server, random), Derived(crypto, password, salt, iterations), bound);
  }

  lemma PasswordIs(crypto: Crypto, password: Bytes, nonce: C.Nonce, server: S.Server, plus: bool)
    requires (plus ==> server.certHash.Some?) && server.crypto == crypto
    ensures X.Created(C.NewClient(crypto, None, None, None, Some(password), nonce), server, plus).password == Some(password)
  {
  }

  lemma Selected(c: C.Client, password: Bytes, salt: Bytes, iterations: u32, storedSalt: Bytes, storedIterations: u32)
    requires c.password == Some(password)
    ensures var clientKey := ClientKey(c.crypto, password, salt, iterations);
            C.SelectKeys(c, salt, iterations, storedSalt, storedIterations)
            == Ok(C.Keys(clientKey, c.crypto.sha256(clientKey), Some(ServerKey(c.crypto, password, salt, iterations))))
  {
    hide ClientKey, ServerKey;
  }

  lemma Messages(c: C.Client, s: S.Session, server: S.Server, keys: C.Keys, transcript: Bytes, derived: Keys, bound: Option<CertHash>)
    requires keys == C.Keys(derived.client, derived.stored, Some(derived.server)) && c.crypto == server.crypto
    requires derived.stored == c.crypto.sha256(derived.client)
    requires C.WithoutProof(c, s.combinedNonce) == WithoutProof(bound, s.combinedNonce)
    requires server.verifier.storedKey == derived.stored && server.verifier.serverKey == derived.server
    ensures X.FinalMessage(c, s, keys, transcript) == ClientFinal(c.crypto, derived, transcript, WithoutProof(bound, s.combinedNonce))
    ensures X.KeyRecovered(server, keys, transcript) == derived.client
    ensures "v=" + Base64.Standard64(c.crypto.hmac(derived.server, transcript)) == ServerFinal(c.crypto, derived, transcript)
  {
    hide C.WithoutProof, WithoutProof, Base64.Encode, Xor;
    XorCancels(derived.client, c.crypto.hmac(derived.stored, transcript));
  }

  /** Without binding, the binding attribute is `biws`. */
  lemma NoBindingIsBiws()
    ensures Base64.Encode(Base64.Standard, true, Utf8.Encode("n,,")) == "biws"
  {
    Utf8.AsciiIsItself("n,,");
    assert Utf8.Encode("n,,") == [110, 44, 44];
  }
}
