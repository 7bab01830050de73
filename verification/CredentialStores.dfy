/** The credential store: one immutable snapshot at a time, replaced whole by a reload or not at all. */
module CredentialStores {
  import opened Prelude
  import opened Verifiers
  import opened CredentialFiles
  import AuthQuery
  import Cache

  datatype Source = File | Memory | Failing | AuthQuery(queries: AuthQuery.AuthQuerySource)

  datatype Snapshot = Snapshot(generation: nat, users: Users)

  /** What is at the store's path when it is read, and the salts drawn while loading it. */
  datatype Attempt = Unreadable | Malformed | UserList(users: seq<RawUser>, salts: Salts)

  ghost predicate Good(attempt: Attempt) {
    attempt.UserList? && ValidList(attempt.users)
  }

  ghost function CountGood(attempts: seq<Attempt>): nat {
    if attempts == [] then 0
    else CountGood(attempts[..|attempts| - 1]) + if Good(attempts[|attempts| - 1]) then 1 else 0
  }

  /** The latest attempt that could be loaded. */
  ghost function LastGood(attempts: seq<Attempt>): Option<Attempt> {
    if attempts == [] then None
    else if Good(attempts[|attempts| - 1]) then Some(attempts[|attempts| - 1])
    else LastGood(attempts[..|attempts| - 1])
  }

  /** The error a failed attempt is reported with. */
  function ErrorOf(attempt: Attempt): ConfigError {
    match attempt
    case Unreadable => [EntryError(None, "path", "unable to read the credentials file")]
    case Malformed => [EntryError(None, "file", "invalid YAML user list")]
    case UserList(users, _) => Errors(users)
  }

  datatype ReloadReport = ReloadReport(userCount: nat, previousGeneration: nat)

  datatype Metrics = Metrics(hit: nat, miss: nat, unavailable: nat, reloadOk: nat, reloadError: nat, generation: nat)

  /** Serves `users` exactly as the latest good attempt says, or as the store was built when there is none. */
  ghost predicate Serves(crypto: Crypto, initial: Users, attempts: seq<Attempt>, users: Users) {
    match LastGood(attempts)
    case None => users == initial
    case Some(attempt) => attempt.UserList? && Loaded(crypto, attempt.users, attempt.salts, users)
  }

  lemma OneMore(attempts: seq<Attempt>, attempt: Attempt)
    ensures CountGood(attempts + [attempt]) == CountGood(attempts) + if Good(attempt) then 1 else 0
    ensures LastGood(attempts + [attempt]) == if Good(attempt) then Some(attempt) else LastGood(attempts)
  {
    assert (attempts + [attempt])[..|attempts|] == attempts;
  }

  class CredentialStore {
    const crypto: Crypto
    const clusterNonce: Bytes
    const source: Source
    var snapshot: Snapshot
    var lastLoadingError: Option<ConfigError>
    var metrics: Metrics
    ghost const initial: Snapshot
    ghost var attempts: seq<Attempt>

    ghost function Repr(): set<object>
      reads this
    {
      if source.AuthQuery? then {source.queries, source.queries.cache} else {}
    }

    /**
     * After any reloads: the generation has grown by one for each that succeeded, the users served are those of the
     * last that did, the error on display is that of the last attempt, and the gauge shows the generation.
     */
    ghost predicate Valid()
      reads this, Repr()
    {
      && this !in Repr()
      && (source.AuthQuery? ==> source.queries.Valid())
      && snapshot.generation == initial.generation + CountGood(attempts)
      && Serves(crypto, initial.users, attempts, snapshot.users)
      && lastLoadingError == (if attempts == [] || Good(attempts[|attempts| - 1]) then None else Some(ErrorOf(attempts[|attempts| - 1])))
      && metrics.generation == snapshot.generation
      && metrics.reloadOk == CountGood(attempts)
      && (attempts != [] ==> source.File?)
    }

    /** A store is never at generation zero. */
    constructor FromSource(crypto: Crypto, clusterNonce: Bytes, source: Source, snapshot: Snapshot)
      requires source.AuthQuery? ==> source.queries.Valid()
      ensures Valid() && attempts == [] && this.crypto == crypto && this.clusterNonce == clusterNonce && this.source == source
      ensures this.snapshot == (if snapshot.generation == 0 then snapshot.(generation := 1) else snapshot)
      ensures metrics == Metrics(0, 0, 0, 0, 0, this.snapshot.generation)
    {
      this.crypto, this.clusterNonce, this.source := crypto, clusterNonce, source;
      var started := if snapshot.generation == 0 then snapshot.(generation := 1) else snapshot;
      this.snapshot, initial := started, started;
      lastLoadingError, metrics, attempts := None, Metrics(0, 0, 0, 0, 0, started.generation), [];
    }

    /** What loading an attempt yields. */
    method Load(attempt: Attempt) returns (r: Result<Users, ConfigError>)
      ensures r.Ok? <==> Good(attempt)
      ensures r.Ok? ==> attempt.UserList? && Loaded(crypto, attempt.users, attempt.salts, r.value)
      ensures r.Err? ==> r.error == ErrorOf(attempt)
    {
      hide Loaded, Errors, ValidList;
      match attempt {
        case Unreadable => r := Err([EntryError(None, "path", "unable to read the credentials file")]);
        case Malformed => r := Err([EntryError(None, "file", "invalid YAML user list")]);
        case UserList(users, salts) => r := SnapshotFromUsers(crypto, users, salts);
      }
    }

    method ReloadFile(attempt: Attempt) returns (r: Result<ReloadReport, ConfigError>)
      requires source.File?
      modifies this`snapshot, this`lastLoadingError
      ensures r.Ok? <==> Good(attempt)
      ensures r.Err? ==> r.error == ErrorOf(attempt) && snapshot == old(snapshot) && lastLoadingError == Some(r.error)
      ensures r.Ok? ==>
                && snapshot.generation == old(snapshot.generation) + 1
                && attempt.UserList? && Loaded(crypto, attempt.users, attempt.salts, snapshot.users)
                && lastLoadingError == None
                && r.value == ReloadReport(|attempt.users|, old(snapshot.generation))
    {
      hide AllHeld, NothingElse, ErrorOf, Good;
      var loaded := Load(attempt);
      match loaded {
        case Err(error) =>
          lastLoadingError := Some(error);
          r := Err(error);
        case Ok(users) =>
          var previous := snapshot;
          snapshot := Snapshot(previous.generation + 1, users);
          lastLoadingError := None;
          r := Ok(ReloadReport(|snapshot.users|, previous.generation));
      }
    }

    /** One reload after another; a source without a file fails and changes nothing but the count of failures. */
    method Reload(attempt: Attempt) returns (r: Result<ReloadReport, ConfigError>)
      requires Valid()
      modifies this
      ensures Valid() && attempts == if source.File? then old(attempts) + [attempt] else old(attempts)
      ensures r.Ok? <==> source.File? && Good(attempt)
      ensures r.Ok? ==> snapshot.generation == old(snapshot.generation) + 1 && r.value == ReloadReport(|attempt.users|, old(snapshot.generation))
      ensures r.Err? ==> snapshot == old(snapshot) && |r.error| > 0
      ensures !source.File? ==> lastLoadingError == old(lastLoadingError)
      ensures source.Memory? ==> r == Err([EntryError(None, "memory", "in-memory store cannot reload")])
      ensures source.Failing? ==> r == Err([EntryError(None, "source", "failing store cannot reload")])
      ensures source.AuthQuery? ==> r == Err([EntryError(None, "auth_query", "auth_query store has no on-disk snapshot to reload")])
      ensures metrics.reloadError == old(metrics.reloadError) + if r.Ok? then 0 else 1
    {
      hide Good, ErrorOf, Loaded, CountGood, LastGood, Cache.Run;
      match source {
        case File =>
          r := ReloadFile(attempt);
          FailureIsExplained(attempt);
          OneMore(attempts, attempt);
          attempts := attempts + [attempt];
        case Memory => r := Err([EntryError(None, "memory", "in-memory store cannot reload")]);
        case Failing => r := Err([EntryError(None, "source", "failing store cannot reload")]);
        case AuthQuery(_) => r := Err([EntryError(None, "auth_query", "auth_query store has no on-disk snapshot to reload")]);
      }
      if r.Ok? {
        metrics := metrics.(reloadOk := metrics.reloadOk + 1, generation := r.value.previousGeneration + 1);
      } else {
        metrics := metrics.(reloadError := metrics.reloadError + 1);
      }
    }

    /** The users known are exactly those the latest good file listed, each with the verifier of its own entry. */
    lemma KnownUsers(attempt: Attempt, user: string)
      requires Valid() && LastGood(attempts) == Some(attempt)
      ensures attempt.UserList?
      ensures user in snapshot.users <==> exists i :: 0 <= i < |attempt.users| && attempt.users[i].name == user
      ensures forall i | 0 <= i < |attempt.users| && attempt.users[i].name == user ::
                ValidCredential(attempt.users[i])
                && user in snapshot.users && snapshot.users[user] == VerifierOf(crypto, attempt.users[i], attempt.salts(i))
    {
      hide ValidCredential, VerifierOf, ErrorOf, CountGood, LastGood;
    }

    lemma FailureIsExplained(attempt: Attempt)
      ensures !Good(attempt) ==> ErrorOf(attempt) != []
    {
      hide ValidList, Errors;
      if attempt.UserList? {
        NoErrorsIffValid(attempt.users);
      }
    }

    /** `Err` is the unavailable error; each lookup is counted once, by its outcome. */
    method Lookup(user: string, now: int, connects: bool, reply: AuthQuery.Reply) returns (r: Result<Cache.Answer, ()>)
      requires Valid()
      modifies this`metrics, Repr()
      ensures Valid()
      ensures source.File? || source.Memory? ==> r == Ok(if user in snapshot.users then Some(snapshot.users[user]) else None)
      ensures source.Failing? ==> r.Err?
      ensures source.AuthQuery? ==>
                var hit := Cache.Lookup(source.queries.cache.limits, old(source.queries.cache.entries), user, now);
                var answer := if hit.Some? then hit
                              else if (old(source.queries.connected) || connects) && reply.Answered? then AuthQuery.AnswerOf(reply.row)
                              else None;
                && r == (if answer.Some? then Ok(answer.value) else Err(()))
                && (hit.Some? ==> hit == Cache.Recalled(source.queries.cache.limits, old(source.queries.cache.history), user, now))
      ensures metrics == match r
                         case Ok(Some(_)) => old(metrics).(hit := old(metrics.hit) + 1)
                         case Ok(None) => old(metrics).(miss := old(metrics.miss) + 1)
                         case Err(_) => old(metrics).(unavailable := old(metrics.unavailable) + 1)
    {
      hide Good, Serves, CountGood, ErrorOf, AuthQuery.AnswerOf, AuthQuery.EntryOf, Cache.Run, Cache.Recalled, Cache.Lookup;
      match source {
        case File => r := Ok(if user in snapshot.users then Some(snapshot.users[user]) else None);
        case Memory => r := Ok(if user in snapshot.users then Some(snapshot.users[user]) else None);
        case Failing => r := Err(());
        case AuthQuery(queries) =>
          var answer := queries.Lookup(user, now, connects, reply);
          r := if answer.Some? then Ok(answer.value) else Err(());
      }
      match r {
        case Ok(Some(_)) => metrics := metrics.(hit := metrics.hit + 1);
        case Ok(None) => metrics := metrics.(miss := metrics.miss + 1);
        case Err(_) => metrics := metrics.(unavailable := metrics.unavailable + 1);
      }
    }
  }
}
