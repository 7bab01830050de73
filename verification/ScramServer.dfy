/** The server half of SCRAM-SHA-256(-PLUS): what the proxy plays towards its clients. */
module ScramServer {
  import opened Prelude
  import opened Text
  import opened Verifiers
  import opened ChannelBinding
  import Base64
  import Decimal
  import Utf8

  const SCRAM_SHA_256 := "SCRAM-SHA-256"

  const PLUS := "-PLUS"

  const SERVER_NONCE_LENGTH := 32

  /** Why a message was refused as a protocol violation. */
  datatype Reason =
    | Malformed
    | EmptyUser
    | UnsupportedMechanism(name: string)
    | AuthzidNotSupported
    | BindingNotOffered
    | BindingMissing
    | BindingTypeNotSupported

  datatype ScramError =
    | AuthenticationFailed(user: string)
    | Protocol(reason: Reason)
    | ChannelBindingMismatch
    | ChannelBindingDowngrade
  {
    /** The SQLSTATE the client sees. */
    function Code(): string {
      if AuthenticationFailed? || ChannelBindingMismatch? then "28P01" else "08P01"
    }

    /** The text the client sees: a malformed message never says which check failed. */
    function Message(): string {
      match this
      case AuthenticationFailed(user) => "password authentication failed for user \"" + user + "\""
      case ChannelBindingMismatch => "SCRAM channel binding check failed"
      case ChannelBindingDowngrade =>
        "client supports SCRAM channel binding " + "but thinks the server does not. "
        + "However, this server does support channel binding."
      case Protocol(Malformed) => "malformed SCRAM message"
      case Protocol(EmptyUser) => "startup user must not be empty"
      case Protocol(UnsupportedMechanism(name)) => "unsupported SASL mechanism: " + name
      case Protocol(AuthzidNotSupported) => "client uses authorization identity, but it is not supported "
      case Protocol(BindingNotOffered) => "client requested channel binding, " + "but SCRAM-SHA-256-PLUS was not offered"
      case Protocol(BindingMissing) => "SCRAM-SHA-256-PLUS selected without channel binding data"
      case Protocol(BindingTypeNotSupported) => "unsupported channel binding type"
    }
  }

  datatype State = Started | ClientFirstReceived | Done

  /** What never changes during an exchange. */
  datatype Server = Server(crypto: Crypto, verifier: Verifier, certHash: Option<CertHash>)

  /** What one exchange has recorded so far. */
  datatype Session = Session(
    state: State,
    clientNonce: string,
    combinedNonce: string,
    clientFirstBare: string,
    serverFirst: string,
    gs2Header: string,
    extractedClientKey: Option<Key>,
    mechanism: string)

  const NEW_SESSION := Session(Started, "", "", "", "", "", None, "")

  /** The values of all attributes that start with `prefix`, in order. */
  function Values(parts: seq<string>, prefix: string): seq<string> {
    if parts == [] then []
    else
      var last := StripPrefix(parts[|parts| - 1], prefix);
      Values(parts[..|parts| - 1], prefix) + if last.Some? then [last.value] else []
  }

  lemma {:induction false} ValuesConcat(a: seq<string>, b: seq<string>, prefix: string)
    ensures Values(a + b, prefix) == Values(a, prefix) + Values(b, prefix)
  {
    if b == [] {
      assert a + b == a;
    } else {
      assert (a + b)[..|a + b| - 1] == a + b[..|b| - 1];
      ValuesConcat(a, b[..|b| - 1], prefix);
    }
  }

  function Mechanisms(certHash: Option<CertHash>): seq<string> {
    if certHash.Some? then [PLUS, SCRAM_SHA_256] else [SCRAM_SHA_256]
  }

  /** The GS2 flag rules (section 7 of RFC 5802): `None` accepts. */
  function Gs2FlagError(server: Server, mechanism: string, flag: string): Option<ScramError> {
    if mechanism == SCRAM_SHA_256 then
      if flag == "n" then None
      else if flag == "y" then (if server.certHash.Some? then Some(ChannelBindingDowngrade) else None)
      else if "p=" <= flag then
        Some(Protocol(BindingNotOffered))
      else Some(Protocol(Malformed))
    else if mechanism == PLUS then
      if flag == "p=tls-server-end-point" then None
      else if flag == "n" || flag == "y" then
        Some(Protocol(BindingMissing))
      else if "p=" <= flag then Some(Protocol(BindingTypeNotSupported))
      else Some(Protocol(Malformed))
    else Some(Protocol(Malformed))
  }

  function AuthzidError(authzid: string): Option<ScramError> {
    if "a=" <= authzid && |authzid| > 2 then
      Some(Protocol(AuthzidNotSupported))
    else if authzid != "" && !("a=" <= authzid) then Some(Protocol(Malformed))
    else None
  }

  /** `splitn(3, ',')`: GS2 flag, authorization identity and the bare message. */
  function SplitClientFirst(message: string): Option<(string, string, string)> {
    match SplitOnce(message, ',')
    case None => None
    case Some((flag, rest)) =>
      match SplitOnce(rest, ',')
      case None => None
      case Some((authzid, bare)) => Some((flag, authzid, bare))
  }

  /** The nonce a client-first carries: the value of its last `r=` attribute, "" when there is none. */
  function ClientNonce(bare: string): string {
    var nonces := Values(Split(bare, ','), "r=");
    if nonces == [] then "" else nonces[|nonces| - 1]
  }

  function ServerFirst(verifier: Verifier, combinedNonce: string): string {
    "r=" + combinedNonce + ",s=" + Base64.Standard64(verifier.salt) + ",i=" + Decimal.Print(verifier.iterations)
  }

  function Opened(server: Server, mechanism: string, gs2Header: string, bare: string, serverNonce: Bytes): Session {
    var combined := ClientNonce(bare) + "-" + Base64.Standard64(serverNonce);
    Session(ClientFirstReceived, ClientNonce(bare), combined, bare, ServerFirst(server.verifier, combined), gs2Header, None, mechanism)
  }

  /** The effect and the reply of a client-first message. */
  function ClientFirst(
    server: Server, s: Session, mechanism: string, message: string, user: string, serverNonce: Bytes): (Session, Result<string, ScramError>)
  {
    if s.state != Started then (s, Err(Protocol(Malformed)))
    else if user == "" then (s, Err(Protocol(EmptyUser)))
    else if mechanism !in Mechanisms(server.certHash) then (s, Err(Protocol(UnsupportedMechanism(mechanism))))
    else
      match SplitClientFirst(message)
      case None => (s, Err(Protocol(Malformed)))
      case Some((flag, authzid, bare)) =>
        var gs2Header := flag + "," + authzid + ",";
        if Gs2FlagError(server, mechanism, flag).Some? then (s, Err(Gs2FlagError(server, mechanism, flag).value))
        else if AuthzidError(authzid).Some? then (s, Err(AuthzidError(authzid).value))
        else if ClientNonce(bare) == "" then (s.(gs2Header := gs2Header), Err(Protocol(Malformed)))
        else
          var next := Opened(server, mechanism, gs2Header, bare, serverNonce).(extractedClientKey := s.extractedClientKey);
          (next, Ok(next.serverFirst))
  }

  /** The `c=` value the exchange must carry. */
  function ExpectedCbind(server: Server, s: Session): string {
    if s.mechanism == PLUS && server.certHash.Some? then server.certHash.value.ExpectedC()
    else Base64.Standard64(Utf8.Encode(s.gs2Header))
  }

  lemma BindingIgnoresState(server: Server, s: Session, state: State)
    ensures ExpectedCbind(server, s.(state := state)) == ExpectedCbind(server, s)
  {
  }

  function AuthMessage(s: Session, withoutProof: string): string {
    s.clientFirstBare + "," + s.serverFirst + "," + withoutProof
  }

  /** The values of `c=`, `r=` and `p=`, each of which must occur exactly once. */
  function FinalAttributes(parts: seq<string>): Option<(string, string, string)> {
    var (cbinds, nonces, proofs) := (Values(parts, "c="), Values(parts, "r="), Values(parts, "p="));
    if |cbinds| == |nonces| == |proofs| == 1 then Some((cbinds[0], nonces[0], proofs[0])) else None
  }

  /** The fields of a well-formed client-final: what precedes the last `,p=`, and the decoded 32-byte proof. */
  datatype FinalFields = FinalFields(withoutProof: string, proof: Key)

  /** Everything a client-final is checked for before its proof is looked at. */
  function CheckFinal(server: Server, s: Session, message: string): Result<FinalFields, ScramError> {
    match FinalAttributes(Split(message, ','))
    case None => Err(Protocol(Malformed))
    case Some((cbind, nonce, proof64)) =>
      if cbind != ExpectedCbind(server, s) then
        Err(if s.mechanism == PLUS then ChannelBindingMismatch else Protocol(Malformed))
      else if nonce != s.combinedNonce || !(s.clientNonce <= nonce) then Err(Protocol(Malformed))
      else
        match (RFind(message, ",p="), Base64.Decode(true, proof64))
        case (Some(at), Some(proof)) => if |proof| == 32 then Ok(FinalFields(message[..at], proof)) else Err(Protocol(Malformed))
        case _ => Err(Protocol(Malformed))
  }

  /** `ClientProof XOR ClientSignature`. */
  function RecoveredKey(server: Server, s: Session, fields: FinalFields): Key {
    Xor(fields.proof, server.crypto.hmac(server.verifier.storedKey, Utf8.Encode(AuthMessage(s, fields.withoutProof))))
  }

  function ServerFinal(server: Server, s: Session, fields: FinalFields): string {
    "v=" + Base64.Standard64(server.crypto.hmac(server.verifier.serverKey, Utf8.Encode(AuthMessage(s, fields.withoutProof))))
  }

  /** The effect and the reply of a client-final message. */
  function ClientFinal(server: Server, s: Session, message: string, user: string): (Session, Result<string, ScramError>) {
    if s.state != ClientFirstReceived then (s, Err(Protocol(Malformed)))
    else
      var done := s.(state := Done);
      match CheckFinal(server, done, message)
      case Err(error) => (done, Err(error))
      case Ok(fields) =>
        var key := RecoveredKey(server, done, fields);
        if server.crypto.sha256(key) != server.verifier.storedKey || server.verifier.dummy then
          (done, Err(AuthenticationFailed(user)))
        else (done.(extractedClientKey := Some(key)), Ok(ServerFinal(server, done, fields)))
  }

  /** The attribute loop of a client-first message: a later `r=` replaces an earlier one. */
  method FindNonce(bare: string) returns (nonce: string)
    ensures nonce == ClientNonce(bare)
  {
    nonce := "";
    var attributes := Split(bare, ',');
    for i := 0 to |attributes|
      invariant var nonces := Values(attributes[..i], "r="); nonce == if nonces == [] then "" else nonces[|nonces| - 1]
    {
      assert attributes[..i + 1][..i] == attributes[..i];
      var value := StripPrefix(attributes[i], "r=");
      if value.Some? {
        nonce := value.value;
      }
    }
    assert attributes[..|attributes|] == attributes;
  }

  lemma ValuesPrefix(parts: seq<string>, i: nat, prefix: string)
    requires i < |parts|
    ensures var value := StripPrefix(parts[i], prefix);
            Values(parts[..i + 1], prefix) == Values(parts[..i], prefix) + if value.Some? then [value.value] else []
    ensures |Values(parts[..i + 1], prefix)| <= |Values(parts, prefix)|
  {
    assert parts[..i + 1][..i] == parts[..i];
    assert parts == parts[..i + 1] + parts[i + 1..];
    ValuesConcat(parts[..i + 1], parts[i + 1..], prefix);
  }

  /** The attribute loop of a client-final message: a repeated `c=`, `r=` or `p=` is refused at once. */
  method FindFinalAttributes(message: string) returns (r: Option<(string, string, string)>)
    ensures r == FinalAttributes(Split(message, ','))
  {
    var cbind: Option<string>, nonce: Option<string>, proof64: Option<string> := None, None, None;
    var parts := Split(message, ',');
    for i := 0 to |parts|
      invariant Values(parts[..i], "c=") == if cbind.Some? then [cbind.value] else []
      invariant Values(parts[..i], "r=") == if nonce.Some? then [nonce.value] else []
      invariant Values(parts[..i], "p=") == if proof64.Some? then [proof64.value] else []
    {
      ValuesPrefix(parts, i, "c=");
      ValuesPrefix(parts, i, "r=");
      ValuesPrefix(parts, i, "p=");
      var c := StripPrefix(parts[i], "c=");
      if c.Some? {
        if cbind.Some? {
          return None;
        }
        cbind := c;
      }
      var n := StripPrefix(parts[i], "r=");
      if n.Some? {
        if nonce.Some? {
          return None;
        }
        nonce := n;
      }
      var p := StripPrefix(parts[i], "p=");
      if p.Some? {
        if proof64.Some? {
          return None;
        }
        proof64 := p;
      }
    }
    assert parts[..|parts|] == parts;
    if cbind.None? || nonce.None? || proof64.None? {
      return None;
    }
    r := Some((cbind.value, nonce.value, proof64.value));
  }

  /** One SCRAM exchange with a client. */
  class ScramAuthenticator {
    const server: Server
    var state: State
    var clientNonce: string
    var combinedNonce: string
    var clientFirstBare: string
    var serverFirst: string
    var gs2Header: string
    var extractedClientKey: Option<Key>
    var chosenMechanism: string

    function Recorded(): Session
      reads this
    {
      Session(state, clientNonce, combinedNonce, clientFirstBare, serverFirst, gs2Header, extractedClientKey, chosenMechanism)
    }

    constructor (crypto: Crypto, verifier: Verifier, certHash: Option<CertHash>)
      ensures server == Server(crypto, verifier, certHash)
      ensures Recorded() == NEW_SESSION
    {
      server := Server(crypto, verifier, certHash);
      state := Started;
      clientNonce, combinedNonce, clientFirstBare, serverFirst, gs2Header, chosenMechanism := "", "", "", "", "", "";
      extractedClientKey := None;
    }

    /** `serverNonce` is the random material of the exchange. */
    method HandleClientFirst(mechanism: string, message: string, user: string, serverNonce: Bytes)
      returns (r: Result<string, ScramError>)
      requires |serverNonce| == SERVER_NONCE_LENGTH
      modifies this
      ensures (Recorded(), r) == ClientFirst(server, old(Recorded()), mechanism, message, user, serverNonce)
    {
      hide Gs2FlagError, AuthzidError, SplitClientFirst, ClientNonce, ServerFirst, Mechanisms;
      if state != Started {
        return Err(Protocol(Malformed));
      }
      if user == "" {
        return Err(Protocol(EmptyUser));
      }
      if mechanism !in Mechanisms(server.certHash) {
        return Err(Protocol(UnsupportedMechanism(mechanism)));
      }
      var parts := SplitClientFirst(message);
      if parts.None? {
        return Err(Protocol(Malformed));
      }
      var (flag, authzid, bare) := parts.value;
      var flagError := Gs2FlagError(server, mechanism, flag);
      if flagError.Some? {
        return Err(flagError.value);
      }
      var authzidError := AuthzidError(authzid);
      if authzidError.Some? {
        return Err(authzidError.value);
      }
      gs2Header := flag + "," + authzid + ",";

      var nonce := FindNonce(bare);
      if nonce == "" {
        return Err(Protocol(Malformed));
      }

      clientNonce := nonce;
      combinedNonce := nonce + "-" + Base64.Standard64(serverNonce);
      clientFirstBare := bare;
      serverFirst := ServerFirst(server.verifier, combinedNonce);
      state := ClientFirstReceived;
      chosenMechanism := mechanism;
      r := Ok(serverFirst);
      ghost var next := Opened(server, mechanism, flag + "," + authzid + ",", bare, serverNonce)
                        .(extractedClientKey := old(extractedClientKey));
      assert Recorded() == next;
      assert ClientFirst(server, old(Recorded()), mechanism, message, user, serverNonce) == (next, r);
    }

    method CheckClientFinal(message: string) returns (r: Result<FinalFields, ScramError>)
      ensures r == CheckFinal(server, Recorded(), message)
    {
      var attributes := FindFinalAttributes(message);
      if attributes.None? {
        return Err(Protocol(Malformed));
      }
      var (cbind, nonce, proof64) := attributes.value;
      if cbind != ExpectedCbind(server, Recorded()) {
        return Err(if chosenMechanism == PLUS then ChannelBindingMismatch else Protocol(Malformed));
      }
      if nonce != combinedNonce {
        return Err(Protocol(Malformed));
      }
      if !(clientNonce <= nonce) {
        return Err(Protocol(Malformed));
      }
      var proofStart := RFind(message, ",p=");
      var proof := Base64.Decode(true, proof64);
      if proofStart.None? || proof.None? || |proof.value| != 32 {
        return Err(Protocol(Malformed));
      }
      r := Ok(FinalFields(message[..proofStart.value], proof.value));
    }

    method HandleClientFinal(message: string, user: string) returns (r: Result<string, ScramError>)
      modifies this
      ensures (Recorded(), r) == ClientFinal(server, old(Recorded()), message, user)
    {
      hide CheckFinal;
      if state != ClientFirstReceived {
        return Err(Protocol(Malformed));
      }
      state := Done;
      ghost var done := Recorded();
      assert done == old(Recorded()).(state := Done);

      var checked := CheckClientFinal(message);
      if checked.Err? {
        return Err(checked.error);
      }
      var withoutProof, proof := checked.value.withoutProof, checked.value.proof;
      var authMessage := Utf8.Encode(clientFirstBare + "," + serverFirst + "," + withoutProof);
      assert authMessage == Utf8.Encode(AuthMessage(done, withoutProof));
      var key := Xor(proof, server.crypto.hmac(server.verifier.storedKey, authMessage));
      assert key == RecoveredKey(server, done, checked.value);
      if server.crypto.sha256(key) != server.verifier.storedKey {
        r := Err(AuthenticationFailed(user));
      } else if server.verifier.dummy {
        r := Err(AuthenticationFailed(user));
      } else {
        extractedClientKey := Some(key);
        r := Ok("v=" + Base64.Standard64(server.crypto.hmac(server.verifier.serverKey, authMessage)));
        assert r.value == ServerFinal(server, done, checked.value);
        assert Recorded() == done.(extractedClientKey := Some(key));
      }
    }
  }
}
