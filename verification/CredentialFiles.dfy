/** Validation of a parsed list of users: all of it is loaded, or none and every fault is reported. */
module CredentialFiles {
  import opened Prelude
  import opened Verifiers
  import Utf8

  const DEFAULT_ITERATIONS: u32 := 4096

  datatype RawUser = RawUser(name: string, password: Option<string>, scramSecret: Option<string>)

  datatype EntryError = EntryError(user: Option<string>, field: string, reason: string)

  type ConfigError = seq<EntryError>

  type Users = map<string, Verifier>

  /** The random salts drawn for password entries, by position in the list. */
  type Salts = nat -> Bytes

  function SecretReason(error: SecretFormatError): string {
    match error
    case Md5 => "MD5 secrets are not supported; re-hash the role with scram-sha-256"
    case UnsupportedScheme => "expected a SCRAM-SHA-256 secret"
    case Syntax => "malformed secret"
    case Iterations => "invalid iteration count"
    case IterationsTooLow => "iteration count must be at least 4096"
    case InvalidBase64(_) => "invalid base64"
    case KeyLength(_) => "each key must be exactly 32 bytes"
    case SaltTooShort => "salt must be at least 8 bytes"
  }

  predicate SeenBefore(users: seq<RawUser>, i: nat)
    requires i < |users|
  {
    exists j :: 0 <= j < i && users[j].name == users[i].name
  }

  predicate ValidName(users: seq<RawUser>, i: nat)
    requires i < |users|
  {
    users[i].name != "" && '\0' !in users[i].name && !SeenBefore(users, i)
  }

  /** Exactly one credential, and a usable one. */
  predicate ValidCredential(user: RawUser) {
    match (user.password, user.scramSecret)
    case (Some(password), None) => password != ""
    case (None, Some(secret)) => FromPgSecret(secret).Ok?
    case _ => false
  }

  predicate ValidList(users: seq<RawUser>) {
    users != [] && forall i | 0 <= i < |users| :: ValidName(users, i) && ValidCredential(users[i])
  }

  /** The verifier an entry stands for. */
  function VerifierOf(crypto: Crypto, user: RawUser, salt: Bytes): Verifier
    requires ValidCredential(user)
  {
    if user.password.Some? then DeriveVerifier(crypto, user.password.value, salt, DEFAULT_ITERATIONS)
    else FromPgSecret(user.scramSecret.value).value
  }

  function NameErrors(users: seq<RawUser>, i: nat): seq<EntryError>
    requires i < |users|
  {
    var name := users[i].name;
    (if name == "" then [EntryError(None, "name", "must not be empty")] else [])
    + (if '\0' in name then [EntryError(Some(name), "name", "must not contain NUL")] else [])
    + (if SeenBefore(users, i) then [EntryError(Some(name), "name", "duplicate user name")] else [])
  }

  function CredentialErrors(user: RawUser): seq<EntryError> {
    match (user.password, user.scramSecret)
    case (Some(password), None) => if password == "" then [EntryError(Some(user.name), "password", "must not be empty")] else []
    case (None, Some(secret)) =>
      (match FromPgSecret(secret)
       case Ok(_) => []
       case Err(error) => [EntryError(Some(user.name), "scram_secret", SecretReason(error))])
    case _ => [EntryError(Some(user.name), "password", "exactly one of `password` or `scram_secret` is required")]
  }

  /** The faults of the first `n` entries, in order. */
  function ErrorsUpTo(users: seq<RawUser>, n: nat): seq<EntryError>
    requires n <= |users|
  {
    if n == 0 then [] else ErrorsUpTo(users, n - 1) + NameErrors(users, n - 1) + CredentialErrors(users[n - 1])
  }

  function Errors(users: seq<RawUser>): ConfigError {
    (if users == [] then [EntryError(None, "users", "at least one user is required")] else []) + ErrorsUpTo(users, |users|)
  }

  lemma OwnErrors(users: seq<RawUser>, i: nat)
    requires i < |users|
    ensures NameErrors(users, i) == [] <==> ValidName(users, i)
    ensures CredentialErrors(users[i]) == [] <==> ValidCredential(users[i])
  {
    hide SecretReason;
  }

  lemma {:induction false} NoErrorsMeans(users: seq<RawUser>, n: nat)
    requires n <= |users|
    ensures ErrorsUpTo(users, n) == [] <==> forall i | 0 <= i < n :: ValidName(users, i) && ValidCredential(users[i])
  {
    hide ValidName, ValidCredential, NameErrors, CredentialErrors;
    if n > 0 {
      NoErrorsMeans(users, n - 1);
      OwnErrors(users, n - 1);
    }
  }

  /** A list is free of faults exactly when it is valid. */
  lemma NoErrorsIffValid(users: seq<RawUser>)
    ensures Errors(users) == [] <==> ValidList(users)
  {
    hide ErrorsUpTo, ValidName, ValidCredential;
    NoErrorsMeans(users, |users|);
  }

  /** Every fault of every entry is reported, not just the first. */
  lemma {:induction false} EveryFaultIsReported(users: seq<RawUser>, n: nat, i: nat)
    requires i < n <= |users|
    ensures forall e <- NameErrors(users, i) + CredentialErrors(users[i]) :: e in ErrorsUpTo(users, n)
  {
    hide NameErrors, CredentialErrors;
    if i < n - 1 {
      EveryFaultIsReported(users, n - 1, i);
    }
  }

  /** Every one of the first `n` entries has its verifier. */
  ghost predicate AllHeld(crypto: Crypto, users: seq<RawUser>, salts: Salts, loaded: Users, n: nat)
    requires n <= |users|
  {
    forall i | 0 <= i < n ::
      && ValidCredential(users[i])
      && users[i].name in loaded
      && loaded[users[i].name] == VerifierOf(crypto, users[i], salts(i))
  }

  /** Every verifier belongs to one of the first `n` entries. */
  ghost predicate NothingElse(users: seq<RawUser>, loaded: Users, n: nat)
    requires n <= |users|
  {
    forall name <- loaded :: exists i :: 0 <= i < n && users[i].name == name
  }

  ghost predicate LoadedUpTo(crypto: Crypto, users: seq<RawUser>, salts: Salts, loaded: Users, n: nat)
    requires n <= |users|
  {
    |loaded| == n && AllHeld(crypto, users, salts, loaded, n) && NothingElse(users, loaded, n)
  }

  /** Exactly one verifier for every entry, the entry's own, and none for anyone else. */
  ghost predicate Loaded(crypto: Crypto, users: seq<RawUser>, salts: Salts, loaded: Users) {
    LoadedUpTo(crypto, users, salts, loaded, |users|)
  }

  lemma NewName(users: seq<RawUser>, loaded: Users, n: nat, verifier: Verifier)
    requires n < |users| && NothingElse(users, loaded, n) && ValidName(users, n)
    ensures users[n].name !in loaded && NothingElse(users, loaded[users[n].name := verifier], n + 1)
  {
    var loaded' := loaded[users[n].name := verifier];
    forall name <- loaded'
      ensures exists i :: 0 <= i < n + 1 && users[i].name == name
    {
      if name in loaded {
        var i :| 0 <= i < n && users[i].name == name;
        assert 0 <= i < n + 1;
      } else {
        assert users[n].name == name;
      }
    }
  }

  lemma LoadOne(crypto: Crypto, users: seq<RawUser>, salts: Salts, loaded: Users, n: nat)
    requires n < |users| && LoadedUpTo(crypto, users, salts, loaded, n)
    requires ValidName(users, n) && ValidCredential(users[n])
    ensures LoadedUpTo(crypto, users, salts, loaded[users[n].name := VerifierOf(crypto, users[n], salts(n))], n + 1)
  {
    hide VerifierOf, ValidCredential, NothingElse, ValidName;
    NewName(users, loaded, n, VerifierOf(crypto, users[n], salts(n)));
  }

  /** One entry of the loop: the name checks. */
  method CheckName(user: RawUser, seen: set<string>, ghost users: seq<RawUser>, ghost i: nat) returns (errors: seq<EntryError>, ok: bool)
    requires i < |users| && user == users[i] && seen == set j | 0 <= j < i :: users[j].name
    ensures errors == NameErrors(users, i) && (ok <==> ValidName(users, i))
  {
    errors, ok := [], true;
    if user.name == "" {
      errors, ok := errors + [EntryError(None, "name", "must not be empty")], false;
    }
    if '\0' in user.name {
      errors, ok := errors + [EntryError(Some(user.name), "name", "must not contain NUL")], false;
    }
    assert user.name in seen <==> SeenBefore(users, i);
    if user.name in seen {
      errors, ok := errors + [EntryError(Some(user.name), "name", "duplicate user name")], false;
    }
  }

  /** One entry of the loop: its credential. */
  method ReadCredential(crypto: Crypto, user: RawUser, salt: Bytes) returns (errors: seq<EntryError>, verifier: Option<Verifier>)
    ensures errors == CredentialErrors(user)
    ensures verifier == if ValidCredential(user) then Some(VerifierOf(crypto, user, salt)) else None
  {
    hide FromPgSecret, DeriveVerifier, SecretReason;
    errors, verifier := [], None;
    match (user.password, user.scramSecret) {
      case (Some(password), None) =>
        if password == "" {
          errors := [EntryError(Some(user.name), "password", "must not be empty")];
        } else {
          verifier := Some(DeriveVerifier(crypto, password, salt, DEFAULT_ITERATIONS));
        }
      case (None, Some(secret)) =>
        match FromPgSecret(secret) {
          case Ok(v) => verifier := Some(v);
          case Err(error) => errors := [EntryError(Some(user.name), "scram_secret", SecretReason(error))];
        }
      case _ =>
        errors := [EntryError(Some(user.name), "password", "exactly one of `password` or `scram_secret` is required")];
    }
  }

  method SnapshotFromUsers(crypto: Crypto, users: seq<RawUser>, salts: Salts) returns (r: Result<Users, ConfigError>)
    ensures r.Ok? <==> ValidList(users)
    ensures r.Ok? ==> Loaded(crypto, users, salts, r.value)
    ensures r.Err? ==> r.error == Errors(users)
  {
    hide NameErrors, CredentialErrors, ValidName, ValidCredential, VerifierOf, LoadedUpTo, ErrorsUpTo;
    var errors: ConfigError := [];
    var loaded: Users := map[];
    var seen: set<string> := {};
    if users == [] {
      errors := errors + [EntryError(None, "users", "at least one user is required")];
    }
    ghost var none := errors;
    NothingLoaded(crypto, users, salts);
    for i := 0 to |users|
      invariant seen == set j | 0 <= j < i :: users[j].name
      invariant errors == none + ErrorsUpTo(users, i)
      invariant ErrorsUpTo(users, i) == [] ==> LoadedUpTo(crypto, users, salts, loaded, i)
    {
      var user := users[i];
      var nameErrors, nameOk := CheckName(user, seen, users, i);
      seen := seen + {user.name};
      var credentialErrors, verifier := ReadCredential(crypto, user, salts(i));
      ErrorsOfOne(users, i);
      OwnErrors(users, i);
      errors := errors + nameErrors + credentialErrors;
      if nameOk && verifier.Some? {
        if ErrorsUpTo(users, i) == [] {
          LoadOne(crypto, users, salts, loaded, i);
        }
        loaded := loaded[user.name := verifier.value];
      }
    }
    NoErrorsIffValid(users);
    r := if errors == [] then Ok(loaded) else Err(errors);
  }

  lemma NothingLoaded(crypto: Crypto, users: seq<RawUser>, salts: Salts)
    ensures ErrorsUpTo(users, 0) == [] && LoadedUpTo(crypto, users, salts, map[], 0)
  {
  }

  lemma ErrorsOfOne(users: seq<RawUser>, i: nat)
    requires i < |users|
    ensures ErrorsUpTo(users, i + 1) == ErrorsUpTo(users, i) + NameErrors(users, i) + CredentialErrors(users[i])
  {
  }

  /**
   * What a loaded entry holds: of a password what RFC 5802 derives from its prepared form under its own salt and 4096
   * iterations, and the prepared form itself; of a secret what is written in it.
   */
  lemma LoadedMeans(crypto: Crypto, user: RawUser, salt: Bytes)
    requires ValidCredential(user)
    ensures var v := VerifierOf(crypto, user, salt);
            if user.password.Some? then
              var prepared := Utf8.Encode(crypto.saslprep(user.password.value));
              var salted := crypto.pbkdf2(prepared, salt, 4096);
              && v.password == Some(prepared) && v.salt == salt && v.iterations == 4096 && !v.dummy
              && v.storedKey == crypto.sha256(crypto.hmac(salted, Utf8.Encode("Client Key")))
              && v.serverKey == crypto.hmac(salted, Utf8.Encode("Server Key"))
            else FromPgSecret(user.scramSecret.value) == Ok(v)
  {
    hide Utf8.Encode, FromPgSecret;
  }
}
