/** Stored SCRAM credentials: derivation from a password, and PostgreSQL's textual secret format. */
module Verifiers {
  import opened Prelude
  import opened Text
  import Base64
  import Decimal
  import Utf8

  /**
   * The hash primitives, as arbitrary functions of the right shape. Every result below holds for all of them,
   * so none depends on how a digest is computed.
   */
  datatype Crypto = Crypto(
    hmac: (Bytes, Bytes) -> Key,
    sha256: Bytes -> Key,
    pbkdf2: (Bytes, Bytes, u32) -> Key,
    saslprep: string -> string)

  const MIN_ITERATIONS := 4096

  const SECRET_SCHEME := "SCRAM-SHA-256$"

  datatype SecretFormatError =
    | UnsupportedScheme
    | Md5
    | Syntax
    | Iterations
    | IterationsTooLow
    | InvalidBase64(field: string)
    | KeyLength(field: string)
    | SaltTooShort

  datatype Verifier = Verifier(
    iterations: u32,
    salt: Bytes,
    storedKey: Key,
    serverKey: Key,
    password: Option<Bytes>,
    dummy: bool)
  {
    function ToPgSecret(): string {
      SECRET_SCHEME + Decimal.Print(iterations) + ":" + Base64.Standard64(salt)
      + "$" + Base64.Standard64(storedKey) + ":" + Base64.Standard64(serverKey)
    }
  }

  /** SCRAM's key schedule (section 3 of RFC 5802). */
  function ClientKey(crypto: Crypto, password: Bytes, salt: Bytes, iterations: u32): Key {
    crypto.hmac(crypto.pbkdf2(password, salt, iterations), Utf8.Encode("Client Key"))
  }

  function ServerKey(crypto: Crypto, password: Bytes, salt: Bytes, iterations: u32): Key {
    crypto.hmac(crypto.pbkdf2(password, salt, iterations), Utf8.Encode("Server Key"))
  }

  function FromPassword(crypto: Crypto, password: Bytes, salt: Bytes, iterations: u32): Verifier {
    Verifier(
      iterations,
      salt,
      crypto.sha256(ClientKey(crypto, password, salt, iterations)),
      ServerKey(crypto, password, salt, iterations),
      Some(password),
      false)
  }

  /** The stand-in for an unknown user: a stable salt, no usable keys. */
  function Dummy(crypto: Crypto, username: string, clusterNonce: Bytes): Verifier {
    var zeros := seq(32, _ => 0);
    Verifier(4096, crypto.sha256(Utf8.Encode(username) + clusterNonce)[..16], zeros, zeros, None, true)
  }

  /** `derive_verifier`: SASLprep, then `FromPassword`. */
  function DeriveVerifier(crypto: Crypto, password: string, salt: Bytes, iterations: u32): Verifier {
    FromPassword(crypto, Utf8.Encode(crypto.saslprep(password)), salt, iterations)
  }

  /** Padded base64 first, then the unpadded spelling. */
  function DecodeBase64(s: string): Option<Bytes> {
    var padded := Base64.Decode(true, s);
    if padded.Some? then padded else Base64.Decode(false, s)
  }

  function DecodeKey(s: string, field: string): Result<Key, SecretFormatError> {
    match DecodeBase64(s)
    case None => Err(InvalidBase64(field))
    case Some(bytes) => if |bytes| == 32 then Ok(bytes) else Err(KeyLength(field))
  }

  function FromPgSecret(secret: string): (r: Result<Verifier, SecretFormatError>)
    ensures r.Ok? ==> r.value.iterations >= MIN_ITERATIONS && |r.value.salt| >= 8
    ensures r.Ok? ==> !r.value.dummy && r.value.password == None
  {
    if "md5" <= secret then Err(Md5)
    else
      match StripPrefix(secret, SECRET_SCHEME)
      case None => Err(UnsupportedScheme)
      case Some(rest) =>
        match SplitOnce(rest, '$')
        case None => Err(Syntax)
        case Some((itersAndSalt, keys)) =>
          match (SplitOnce(itersAndSalt, ':'), SplitOnce(keys, ':'))
          case (Some((iterations, salt)), Some((storedKey, serverKey))) =>
            FromFields(Decimal.Parse(iterations), DecodeBase64(salt), DecodeKey(storedKey, "StoredKey"), DecodeKey(serverKey, "ServerKey"))
          case _ => Err(Syntax)
  }

  function FromFields(
    iterations: Option<u32>, salt: Option<Bytes>,
    storedKey: Result<Key, SecretFormatError>, serverKey: Result<Key, SecretFormatError>): Result<Verifier, SecretFormatError>
  {
    if iterations.None? then Err(Iterations)
    else if iterations.value < MIN_ITERATIONS then Err(IterationsTooLow)
    else if salt.None? then Err(InvalidBase64("salt"))
    else if storedKey.Err? then Err(storedKey.error)
    else if serverKey.Err? then Err(serverKey.error)
    else if |salt.value| < 8 then Err(SaltTooShort)
    else Ok(Verifier(iterations.value, salt.value, storedKey.value, serverKey.value, None, false))
  }

  lemma DecodeOwnBase64(b: Bytes)
    ensures DecodeBase64(Base64.Standard64(b)) == Some(b)
  {
    Base64.EncodeThenDecode(true, b);
  }

  /** None of the separators used by the formats that embed base64 and decimal fields. */
  predicate NoDelimiters(s: string) {
    '$' !in s && ':' !in s && ',' !in s
  }

  lemma FieldsHaveNoDelimiters(b: Bytes, n: nat)
    ensures NoDelimiters(Base64.Standard64(b)) && NoDelimiters(Decimal.Print(n))
  {
    Base64.EncodeSymbols(Base64.Standard, true, b);
  }

  /** The `$` and `:` of a secret are found where they were put. */
  lemma SplitSecret(iterations: string, salt: string, storedKey: string, serverKey: string)
    requires NoDelimiters(iterations) && NoDelimiters(salt) && NoDelimiters(storedKey)
    ensures FromPgSecret(SECRET_SCHEME + iterations + ":" + salt + "$" + storedKey + ":" + serverKey)
         == FromFields(Decimal.Parse(iterations), DecodeBase64(salt), DecodeKey(storedKey, "StoredKey"), DecodeKey(serverKey, "ServerKey"))
  {
    var itersAndSalt, keys := iterations + ":" + salt, storedKey + ":" + serverKey;
    var rest := itersAndSalt + "$" + keys;
    var secret := SECRET_SCHEME + iterations + ":" + salt + "$" + storedKey + ":" + serverKey;
    assert secret == SECRET_SCHEME + rest;
    assert secret[0] == 'S';
    SplitOnceAt(itersAndSalt, '$', keys);
    SplitOnceAt(iterations, ':', salt);
    SplitOnceAt(storedKey, ':', serverKey);
  }

  /** A printed secret parses to the fields it was printed from. */
  lemma PrintedFields(v: Verifier)
    ensures FromPgSecret(v.ToPgSecret())
         == FromFields(Some(v.iterations), Some(v.salt), Ok(v.storedKey), Ok(v.serverKey))
  {
    FieldsHaveNoDelimiters(v.salt, v.iterations);
    FieldsHaveNoDelimiters(v.storedKey, 0);
    SplitSecret(Decimal.Print(v.iterations), Base64.Standard64(v.salt), Base64.Standard64(v.storedKey), Base64.Standard64(v.serverKey));
    Decimal.PrintThenParse(v.iterations);
    DecodeOwnBase64(v.salt);
    DecodeOwnBase64(v.storedKey);
    DecodeOwnBase64(v.serverKey);
  }

  /** Printing and re-reading restores the keys exactly when the verifier meets the two minimum sizes. */
  lemma SecretRoundTrip(v: Verifier)
    ensures FromPgSecret(v.ToPgSecret()).Ok? <==> v.iterations >= MIN_ITERATIONS && |v.salt| >= 8
    ensures FromPgSecret(v.ToPgSecret()).Ok? ==> FromPgSecret(v.ToPgSecret()).value == v.(password := None, dummy := false)
  {
    PrintedFields(v);
  }

  /** Whatever spelling was accepted, printing it gives an equivalent secret. */
  lemma AcceptedSecretsReprint(secret: string)
    requires FromPgSecret(secret).Ok?
    ensures FromPgSecret(FromPgSecret(secret).value.ToPgSecret()) == FromPgSecret(secret)
  {
    SecretRoundTrip(FromPgSecret(secret).value);
  }

  /** A password verifier survives the trip through the secret format as far as authentication is concerned. */
  lemma PasswordSecretRoundTrip(crypto: Crypto, password: Bytes, salt: Bytes, iterations: u32)
    requires iterations >= MIN_ITERATIONS && |salt| >= 8
    ensures FromPgSecret(FromPassword(crypto, password, salt, iterations).ToPgSecret())
         == Ok(FromPassword(crypto, password, salt, iterations).(password := None))
  {
    SecretRoundTrip(FromPassword(crypto, password, salt, iterations));
  }

  /** A secret with each field in either spelling of base64. */
  function Spelled(v: Verifier, padSalt: bool, padStored: bool, padServer: bool): string {
    "SCRAM-SHA-256$" + Decimal.Print(v.iterations) + ":" + Base64.Encode(Base64.Standard, padSalt, v.salt)
    + "$" + Base64.Encode(Base64.Standard, padStored, v.storedKey) + ":" + Base64.Encode(Base64.Standard, padServer, v.serverKey)
  }

  lemma DecodeEither(pad: bool, b: Bytes)
    ensures DecodeBase64(Base64.Encode(Base64.Standard, pad, b)) == Some(b)
  {
    hide Base64.Decode, Base64.Encode;
    Base64.EncodeThenDecode(pad, b);
    var s := Base64.Encode(Base64.Standard, pad, b);
    if !pad && Base64.Decode(true, s).Some? {
      Base64.DecodeThenEncode(true, s);
      Base64.SameEncoding(Base64.Decode(true, s).value, b);
    }
  }

  /** Padded or not, every field of a secret that is strong enough is read for what it says. */
  lemma EitherSpellingIsRead(v: Verifier, padSalt: bool, padStored: bool, padServer: bool)
    requires v.iterations >= 4096 && |v.salt| >= 8
    ensures FromPgSecret(Spelled(v, padSalt, padStored, padServer)) == Ok(v.(password := None, dummy := false))
  {
    hide DecodeBase64, Base64.Encode, Decimal.Print, Decimal.Parse;
    var (salt, stored, server) := (Base64.Encode(Base64.Standard, padSalt, v.salt), Base64.Encode(Base64.Standard, padStored, v.storedKey),
                                   Base64.Encode(Base64.Standard, padServer, v.serverKey));
    PlainSymbols(padSalt, v.salt);
    PlainSymbols(padStored, v.storedKey);
    FieldsHaveNoDelimiters(v.salt, v.iterations);
    SplitSecret(Decimal.Print(v.iterations), salt, stored, server);
    Decimal.PrintThenParse(v.iterations);
    DecodeEither(padSalt, v.salt);
    DecodeEither(padStored, v.storedKey);
    DecodeEither(padServer, v.serverKey);
  }

  lemma PlainSymbols(pad: bool, b: Bytes)
    ensures NoDelimiters(Base64.Encode(Base64.Standard, pad, b))
  {
    Base64.EncodeSymbols(Base64.Standard, pad, b);
  }

  /** Why a secret is refused, in this order: its scheme, its layout, its count, its encodings, its lengths. */
  lemma SecretFaults(secret: string)
    ensures FromPgSecret(secret) == Err(Md5) <==> "md5" <= secret
    ensures FromPgSecret(secret) == Err(UnsupportedScheme) <==> !("md5" <= secret) && !("SCRAM-SHA-256$" <= secret)
  {
    hide DecodeBase64, Decimal.Parse;
  }

  /** The same for a secret of four fields, whatever they are. */
  lemma FieldsAreChecked(iterations: string, salt: string, storedKey: string, serverKey: string)
    requires NoDelimiters(iterations) && NoDelimiters(salt) && NoDelimiters(storedKey)
    ensures var r := FromPgSecret("SCRAM-SHA-256$" + iterations + ":" + salt + "$" + storedKey + ":" + serverKey);
            var (count, s, a, b) := (Decimal.Parse(iterations), DecodeBase64(salt), DecodeBase64(storedKey), DecodeBase64(serverKey));
            if count.None? then r == Err(Iterations)
            else if count.value < 4096 then r == Err(IterationsTooLow)
            else if s.None? then r == Err(InvalidBase64("salt"))
            else if a.None? then r == Err(InvalidBase64("StoredKey"))
            else if |a.value| != 32 then r == Err(KeyLength("StoredKey"))
            else if b.None? then r == Err(InvalidBase64("ServerKey"))
            else if |b.value| != 32 then r == Err(KeyLength("ServerKey"))
            else if |s.value| < 8 then r == Err(SaltTooShort)
            else r == Ok(Verifier(count.value, s.value, a.value, b.value, None, false))
  {
    hide DecodeBase64, Decimal.Parse;
    SplitSecret(iterations, salt, storedKey, serverKey);
  }

  /** The stand-in: the default count, a salt of the name and the cluster's nonce, and no key that any client could prove. */
  lemma DummyIs(crypto: Crypto, username: string, clusterNonce: Bytes)
    ensures var v := Dummy(crypto, username, clusterNonce);
            && v.iterations == 4096 && v.salt == crypto.sha256(Utf8.Encode(username) + clusterNonce)[..16] && |v.salt| == 16
            && v.dummy && v.password == None && (forall i | 0 <= i < 32 :: v.storedKey[i] == 0 && v.serverKey[i] == 0)
  {
  }
}
