/** The client half of SCRAM-SHA-256(-PLUS): what the proxy plays towards the backend. */
module ScramClients {
  import opened Prelude
  import opened Text
  import opened Verifiers
  import opened BackendErrors
  import opened ChannelBinding
  import Base64
  import Decimal
  import Utf8

  datatype ScramMechanism = Sha256 | Sha256Plus {
    function Gs2Header(): string {
      if Sha256? then "n,," else TLS_SERVER_END_POINT_HEADER
    }
  }

  /** The random material of a client nonce. */
  type Nonce = b: Bytes | |b| == 18 witness seq(18, _ => 0)

  /** One `key=value` attribute; the key is the first character, and an attribute without `=` is skipped. */
  function KvEntry(attribute: string): Option<(char, string)> {
    match SplitOnce(attribute, '=')
    case None => None
    case Some((name, value)) => if name == "" then None else Some((name[0], value))
  }

  /** `parse_scram_kv` on the split message: a later attribute replaces an earlier one. */
  function CollectKv(attributes: seq<string>): map<char, string> {
    if attributes == [] then map[]
    else
      var earlier := CollectKv(attributes[..|attributes| - 1]);
      match KvEntry(attributes[|attributes| - 1])
      case None => earlier
      case Some((key, value)) => earlier[key := value]
  }

  function ParseKv(message: string): map<char, string> {
    CollectKv(Split(message, ','))
  }

  /** The state of one exchange with the backend. */
  datatype Client = Client(
    crypto: Crypto,
    clientNonce: string,
    authMessage: string,
    clientKey: Option<Bytes>,
    serverKey: Option<Bytes>,
    storedKey: Option<Bytes>,
    password: Option<Bytes>,
    mechanism: ScramMechanism,
    channelBinding: Option<Bytes>)
  {
    function ClientFirst(): string {
      mechanism.Gs2Header() + "n=,r=" + clientNonce
    }

    function CbindInput(): Bytes {
      if channelBinding.Some? then channelBinding.value else Utf8.Encode(mechanism.Gs2Header())
    }

    function UseChannelBinding(cbindInput: Bytes): Client {
      this.(mechanism := ScramMechanism.Sha256Plus, channelBinding := Some(cbindInput))
    }
  }

  function NewClient(
    crypto: Crypto, clientKey: Option<Bytes>, serverKey: Option<Bytes>, storedKey: Option<Bytes>, password: Option<Bytes>,
    random: Nonce): Client
  {
    Client(crypto, Base64.Encode(Base64.UrlSafe, false, random), "", clientKey, serverKey, storedKey, password, ScramMechanism.Sha256, None)
  }

  /** What a server-first message says: combined nonce, salt text and iteration count. */
  function ReadServerFirst(c: Client, serverFirst: string): Result<(string, Bytes, u32), PgError> {
    var fields := ParseKv(serverFirst);
    if 'r' !in fields then Err(Auth(MissingNonce))
    else if 's' !in fields then Err(Auth(MissingSalt))
    else if 'i' !in fields then Err(Auth(MissingIterations))
    else
      match Decimal.Parse(fields['i'])
      case None => Err(Auth(InvalidIterations))
      case Some(iterations) =>
        if !(c.clientNonce <= fields['r']) || |fields['r']| <= |c.clientNonce| then Err(Auth(NonceMismatch))
        else
          match Base64.Decode(true, fields['s'])
          case None => Err(Auth(InvalidSalt))
          case Some(salt) => Ok((fields['r'], salt, iterations))
  }

  datatype Keys = Keys(clientKey: Bytes, storedKey: Bytes, serverKey: Option<Bytes>)

  /** The keys to answer with: derived for any salt from a password, or the captured ones for exactly their own salt. */
  function SelectKeys(c: Client, salt: Bytes, iterations: u32, storedSalt: Bytes, storedIterations: u32): Result<Keys, PgError> {
    match c.password
    case Some(password) =>
      var clientKey := ClientKey(c.crypto, password, salt, iterations);
      Ok(Keys(clientKey, c.crypto.sha256(clientKey), Some(ServerKey(c.crypto, password, salt, iterations))))
    case None =>
      if salt != storedSalt then Err(SaltMismatch)
      else if storedIterations != iterations then Err(Auth(IterationMismatch))
      else if c.clientKey.None? then Err(UnsupportedAuth(NoClientKey))
      else if c.storedKey.None? then Err(Auth(NoStoredSecret))
      else Ok(Keys(c.clientKey.value, c.storedKey.value, c.serverKey))
  }

  function WithoutProof(c: Client, combinedNonce: string): string {
    "c=" + Base64.Standard64(c.CbindInput()) + ",r=" + combinedNonce
  }

  function AuthMessage(c: Client, serverFirst: string, combinedNonce: string): string {
    "n=,r=" + c.clientNonce + "," + serverFirst + "," + WithoutProof(c, combinedNonce)
  }

  /** The effect of a server-first message and the client-final it is answered with. */
  function ClientFinal(c: Client, serverFirst: string, storedSalt: Bytes, storedIterations: u32): (Client, Result<string, PgError>) {
    match ReadServerFirst(c, serverFirst)
    case Err(error) => (c, Err(error))
    case Ok((combinedNonce, salt, iterations)) =>
      match SelectKeys(c, salt, iterations, storedSalt, storedIterations)
      case Err(error) => (c, Err(error))
      case Ok(keys) =>
        var c' := c.(authMessage := AuthMessage(c, serverFirst, combinedNonce));
        var signature := c.crypto.hmac(keys.storedKey, Utf8.Encode(c'.authMessage));
        if |keys.clientKey| != |signature| then (c', Err(Auth(InvalidClientKeyLength)))
        else
          (c'.(serverKey := keys.serverKey),
           Ok(WithoutProof(c, combinedNonce) + ",p=" + Base64.Standard64(Xor(keys.clientKey, signature))))
  }

  /** `Ok(false)` means no ServerKey was available to check the signature with. */
  function VerifyServerFinal(c: Client, serverFinal: string): Result<bool, PgError> {
    var fields := ParseKv(serverFinal);
    if 'e' in fields then Err(Auth(ServerReported(fields['e'])))
    else if c.serverKey.None? then Ok(false)
    else if 'v' !in fields then Err(Auth(InvalidServerSignature))
    else
      match Base64.Decode(true, fields['v'])
      case None => Err(Auth(InvalidServerSignature))
      case Some(signature) =>
        if c.crypto.hmac(c.serverKey.value, Utf8.Encode(c.authMessage)) != signature then Err(Auth(InvalidServerSignature))
        else Ok(true)
  }

  class ScramClient {
    const crypto: Crypto
    const clientNonce: string
    var authMessage: string
    const clientKey: Option<Bytes>
    var serverKey: Option<Bytes>
    const storedKey: Option<Bytes>
    const password: Option<Bytes>
    var mechanism: ScramMechanism
    var channelBinding: Option<Bytes>

    function Value(): Client
      reads this
    {
      Client(crypto, clientNonce, authMessage, clientKey, serverKey, storedKey, password, mechanism, channelBinding)
    }

    constructor (
      crypto: Crypto, clientKey: Option<Bytes>, serverKey: Option<Bytes>, storedKey: Option<Bytes>, password: Option<Bytes>,
      random: Nonce)
      ensures Value() == NewClient(crypto, clientKey, serverKey, storedKey, password, random)
    {
      this.crypto := crypto;
      clientNonce := Base64.Encode(Base64.UrlSafe, false, random);
      authMessage := "";
      this.clientKey, this.serverKey, this.storedKey, this.password := clientKey, serverKey, storedKey, password;
      mechanism, channelBinding := ScramMechanism.Sha256, None;
    }

    method UseChannelBinding(cbindInput: Bytes)
      modifies this
      ensures Value() == old(Value()).UseChannelBinding(cbindInput)
    {
      mechanism := ScramMechanism.Sha256Plus;
      channelBinding := Some(cbindInput);
    }

    method ClientFinalMessage(serverFirst: string, storedSalt: Bytes, storedIterations: u32) returns (r: Result<string, PgError>)
      modifies this
      ensures (Value(), r) == ClientFinal(old(Value()), serverFirst, storedSalt, storedIterations)
    {
      hide ReadServerFirst, SelectKeys, WithoutProof, AuthMessage;
      var first := ReadServerFirst(Value(), serverFirst);
      if first.Err? {
        return Err(first.error);
      }
      var (combinedNonce, salt, iterations) := first.value;
      var selected := SelectKeys(Value(), salt, iterations, storedSalt, storedIterations);
      if selected.Err? {
        return Err(selected.error);
      }
      var keys := selected.value;
      var withoutProof := WithoutProof(Value(), combinedNonce);
      authMessage := AuthMessage(Value(), serverFirst, combinedNonce);
      var signature := crypto.hmac(keys.storedKey, Utf8.Encode(authMessage));
      if |keys.clientKey| != |signature| {
        return Err(Auth(InvalidClientKeyLength));
      }
      serverKey := keys.serverKey;
      r := Ok(withoutProof + ",p=" + Base64.Standard64(Xor(keys.clientKey, signature)));
    }
  }
}
