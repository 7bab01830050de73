/** The bounded TTL cache in front of the `auth_query` source. */
module Cache {
  import opened Prelude
  import opened Verifiers

  /** What the source knows of a user: a verifier, or that there is none. */
  type Answer = Option<Verifier>

  datatype Entry = Positive(verifier: Verifier, at: int) | Negative(at: int) {
    function Answer(): Answer {
      if Positive? then Some(verifier) else None
    }
  }

  type Entries = map<string, Entry>

  /** `saturating_duration_since`: a clock that went backwards makes nothing older. */
  function Age(now: int, at: int): nat {
    if now >= at then now - at else 0
  }

  datatype Limits = Limits(positiveTtl: nat, negativeTtl: nat, maxEntries: nat) {
    function Ttl(entry: Entry): nat {
      if entry.Positive? then positiveTtl else negativeTtl
    }

    predicate Live(entry: Entry, now: int) {
      Age(now, entry.at) <= Ttl(entry)
    }

    /** What `retain` keeps; an entry exactly as old as its lifetime still answers but is not kept. */
    predicate Fresh(entry: Entry, now: int) {
      Age(now, entry.at) < Ttl(entry)
    }
  }

  datatype Event = Got(user: string, now: int) | Inserted(user: string, entry: Entry) | Forgotten(user: string)

  /** What `retain` keeps of the map. */
  function Retained(limits: Limits, entries: Entries, now: int): Entries {
    map user | user in entries && limits.Fresh(entries[user], now) :: entries[user]
  }

  function Evicted(limits: Limits, entries: Entries, now: int): Entries {
    if |entries| < limits.maxEntries then entries
    else
      var kept := Retained(limits, entries, now);
      if |kept| >= limits.maxEntries then map[] else kept
  }

  /** What the map holds after one more operation. */
  function Step(limits: Limits, entries: Entries, event: Event): Entries {
    match event
    case Got(user, now) => if user in entries && !limits.Live(entries[user], now) then entries - {user} else entries
    case Inserted(user, entry) => Evicted(limits, entries, entry.at)[user := entry]
    case Forgotten(user) => entries - {user}
  }

  function Run(limits: Limits, events: seq<Event>): Entries {
    if events == [] then map[] else Step(limits, Run(limits, events[..|events| - 1]), events[|events| - 1])
  }

  /** The unbounded history: the latest insert of a user, unless the user was forgotten since. */
  function Remembered(events: seq<Event>, user: string): Option<Entry> {
    if events == [] then None
    else
      match events[|events| - 1]
      case Inserted(u, entry) => if u == user then Some(entry) else Remembered(events[..|events| - 1], user)
      case Forgotten(u) => if u == user then None else Remembered(events[..|events| - 1], user)
      case Got(_, _) => Remembered(events[..|events| - 1], user)
  }

  /** What a cache without a size limit would answer. */
  function Recalled(limits: Limits, events: seq<Event>, user: string, now: int): Option<Answer> {
    match Remembered(events, user)
    case None => None
    case Some(entry) => if limits.Live(entry, now) then Some(entry.Answer()) else None
  }

  function Lookup(limits: Limits, entries: Entries, user: string, now: int): Option<Answer> {
    if user in entries && limits.Live(entries[user], now) then Some(entries[user].Answer()) else None
  }

  lemma EvictedShrinks(limits: Limits, entries: Entries, now: int)
    requires limits.maxEntries >= 1
    ensures var kept := Evicted(limits, entries, now);
            && |kept| < limits.maxEntries
            && forall user <- kept :: user in entries && kept[user] == entries[user]
  {
  }

  /** The size limit holds after every operation, and whatever is held is the latest insert not forgotten since. */
  lemma {:induction false} RunIsBounded(limits: Limits, events: seq<Event>)
    requires limits.maxEntries >= 1
    ensures |Run(limits, events)| <= limits.maxEntries
    ensures forall user <- Run(limits, events) :: Remembered(events, user) == Some(Run(limits, events)[user])
  {
    if events != [] {
      var (before, last) := (events[..|events| - 1], events[|events| - 1]);
      RunIsBounded(limits, before);
      var entries := Run(limits, before);
      match last {
        case Got(user, now) =>
          RemovedShrinks(entries, user);
        case Inserted(user, entry) =>
          EvictedShrinks(limits, entries, entry.at);
          hide Evicted;
        case Forgotten(user) =>
          RemovedShrinks(entries, user);
      }
    }
  }

  lemma RemovedShrinks(entries: Entries, user: string)
    ensures |entries - {user}| <= |entries|
  {
    SubsetSize((entries - {user}).Keys, entries.Keys);
  }

  lemma {:induction false} SubsetSize<T>(a: set<T>, b: set<T>)
    requires a <= b
    ensures |a| <= |b|
    decreases a
  {
    if a != {} {
      var x :| x in a;
      SubsetSize(a - {x}, b - {x});
    }
  }

  /** Eviction can lose an answer, never change one. */
  lemma AnswersAreRecalled(limits: Limits, events: seq<Event>, user: string, now: int)
    requires limits.maxEntries >= 1
    ensures var answer := Lookup(limits, Run(limits, events), user, now);
            answer.Some? ==> answer == Recalled(limits, events, user, now)
  {
    RunIsBounded(limits, events);
  }

  function Users(events: seq<Event>): set<string> {
    if events == [] then {}
    else
      var last := events[|events| - 1];
      Users(events[..|events| - 1]) + if last.Inserted? then {last.user} else {}
  }

  /** The clock readings of the operations never go back, and none is past `now`. */
  predicate Ordered(events: seq<Event>, now: int) {
    events == []
    || (match events[|events| - 1]
        case Got(_, at) => at <= now && Ordered(events[..|events| - 1], at)
        case Inserted(_, entry) => entry.at <= now && Ordered(events[..|events| - 1], entry.at)
        case Forgotten(_) => Ordered(events[..|events| - 1], now))
  }

  lemma {:induction false} HeldUsersWereInserted(limits: Limits, events: seq<Event>)
    requires limits.maxEntries >= 1
    ensures Run(limits, events).Keys <= Users(events)
  {
    if events != [] {
      var (before, last) := (events[..|events| - 1], events[|events| - 1]);
      HeldUsersWereInserted(limits, before);
      if last.Inserted? {
        EvictedShrinks(limits, Run(limits, before), last.entry.at);
        hide Evicted;
      }
    }
  }

  lemma {:induction false} LiveEntriesAreHeld(limits: Limits, events: seq<Event>, user: string, now: int)
    requires limits.maxEntries >= 1 && Ordered(events, now) && |Users(events)| < limits.maxEntries
    requires Remembered(events, user).Some? && limits.Live(Remembered(events, user).value, now)
    ensures user in Run(limits, events)
  {
    var (before, last) := (events[..|events| - 1], events[|events| - 1]);
    SubsetSize(Users(before), Users(events));
    match last {
      case Got(_, at) =>
        LiveEntriesAreHeld(limits, before, user, at);
        RunIsBounded(limits, before);
      case Inserted(u, entry) =>
        if u != user {
          LiveEntriesAreHeld(limits, before, user, entry.at);
          HeldUsersWereInserted(limits, before);
          SubsetSize(Run(limits, before).Keys, Users(before));
        }
      case Forgotten(_) =>
        LiveEntriesAreHeld(limits, before, user, now);
    }
  }

  /** Below the size limit and under a clock that never goes back, the cache answers exactly as an unbounded one. */
  lemma NothingLostBelowTheLimit(limits: Limits, events: seq<Event>, user: string, now: int)
    requires limits.maxEntries >= 1 && Ordered(events, now) && |Users(events)| < limits.maxEntries
    ensures Lookup(limits, Run(limits, events), user, now) == Recalled(limits, events, user, now)
  {
    RunIsBounded(limits, events);
    if Recalled(limits, events, user, now).Some? {
      LiveEntriesAreHeld(limits, events, user, now);
    }
  }

  /** What is remembered of a user is the last insert that nothing later concerned. */
  lemma {:induction false} LatestInsertIsRemembered(before: seq<Event>, user: string, entry: Entry, later: seq<Event>)
    requires forall e <- later :: e.Got? || e.user != user
    ensures Remembered(before + [Inserted(user, entry)] + later, user) == Some(entry)
    decreases |later|
  {
    var events := before + [Inserted(user, entry)] + later;
    if later == [] {
      assert events == before + [Inserted(user, entry)];
    } else {
      assert events[..|events| - 1] == before + [Inserted(user, entry)] + later[..|later| - 1];
      LatestInsertIsRemembered(before, user, entry, later[..|later| - 1]);
    }
  }

  /** A clock that never goes back, and fewer users than the limit. */
  predicate Roomy(limits: Limits, events: seq<Event>, now: int) {
    limits.maxEntries >= 1 && Ordered(events, now) && |Users(events)| < limits.maxEntries
  }

  /**
   * A verifier stored at `at`, with nothing later about its user, is the answer for exactly `positiveTtl` time units,
   * the last one included, and no answer after that.
   */
  lemma VerifierAnswersForItsLifetime(
    limits: Limits, before: seq<Event>, user: string, verifier: Verifier, at: int, later: seq<Event>, now: int)
    requires forall e <- later :: e.Got? || e.user != user
    requires var events := before + [Inserted(user, Positive(verifier, at))] + later; Roomy(limits, events, now)
    requires at <= now
    ensures var entries := Run(limits, before + [Inserted(user, Positive(verifier, at))] + later);
            Lookup(limits, entries, user, now) == if now - at <= limits.positiveTtl then Some(Some(verifier)) else None
  {
    LatestInsertIsRemembered(before, user, Positive(verifier, at), later);
    NothingLostBelowTheLimit(limits, before + [Inserted(user, Positive(verifier, at))] + later, user, now);
  }

  /** That a user is absent is the answer for exactly `negativeTtl` time units. */
  lemma AbsenceAnswersForItsLifetime(limits: Limits, before: seq<Event>, user: string, at: int, later: seq<Event>, now: int)
    requires forall e <- later :: e.Got? || e.user != user
    requires var events := before + [Inserted(user, Negative(at))] + later; Roomy(limits, events, now)
    requires at <= now
    ensures var entries := Run(limits, before + [Inserted(user, Negative(at))] + later);
            Lookup(limits, entries, user, now) == if now - at <= limits.negativeTtl then Some(None) else None
  {
    LatestInsertIsRemembered(before, user, Negative(at), later);
    NothingLostBelowTheLimit(limits, before + [Inserted(user, Negative(at))] + later, user, now);
  }

  /** A user nobody inserted, or who was forgotten since, has no answer. */
  lemma {:induction false} NoAnswerWithoutInsert(limits: Limits, before: seq<Event>, user: string, later: seq<Event>, now: int)
    requires limits.maxEntries >= 1 && forall e <- later :: e.Got? || e.user != user
    ensures Lookup(limits, Run(limits, before + [Forgotten(user)] + later), user, now) == None
    ensures Lookup(limits, Run(limits, later), user, now) == None
  {
    NothingRemembered(before, user, later);
    RunIsBounded(limits, before + [Forgotten(user)] + later);
    RunIsBounded(limits, later);
  }

  lemma {:induction false} NothingRemembered(before: seq<Event>, user: string, later: seq<Event>)
    requires forall e <- later :: e.Got? || e.user != user
    ensures Remembered(before + [Forgotten(user)] + later, user) == None && Remembered(later, user) == None
    decreases |later|
  {
    var events := before + [Forgotten(user)] + later;
    if later == [] {
      assert events == before + [Forgotten(user)];
    } else {
      assert events[..|events| - 1] == before + [Forgotten(user)] + later[..|later| - 1];
      NothingRemembered(before, user, later[..|later| - 1]);
    }
  }

  /**
   * Exactly when an insert costs another user a live answer: the map is full, and that entry is as old as it may get, or
   * too many entries are younger. It does not matter whether the inserted user was already held.
   */
  lemma InsertCosts(limits: Limits, entries: Entries, user: string, entry: Entry, other: string)
    requires other in entries && other != user && limits.Live(entries[other], entry.at)
    ensures var lifetime := if entries[other].Positive? then limits.positiveTtl else limits.negativeTtl;
            other !in Step(limits, entries, Inserted(user, entry))
            <==> && |entries| >= limits.maxEntries
                 && ((if entry.at >= entries[other].at then entry.at - entries[other].at else 0) == lifetime
                     || |Retained(limits, entries, entry.at)| >= limits.maxEntries)
    ensures forall u :: u in Retained(limits, entries, entry.at) <==>
              && u in entries
              && (if entry.at >= entries[u].at then entry.at - entries[u].at else 0)
                 < (if entries[u].Positive? then limits.positiveTtl else limits.negativeTtl)
  {
    var kept := Retained(limits, entries, entry.at);
    assert other in kept <==> limits.Fresh(entries[other], entry.at);
  }

  /** Any number of distinct names. */
  function Name(i: nat): string {
    seq(i, _ => 'x')
  }

  function Filling(n: nat): seq<Event> {
    if n == 0 then [] else Filling(n - 1) + [Inserted(Name(n - 1), Negative(0))]
  }

  /** The map holds the first `n` names, each as absent since time 0. */
  ghost predicate HoldsNames(entries: Entries, n: nat) {
    && |entries| == n
    && (forall user <- entries :: entries[user] == Negative(0) && |user| < n)
    && forall i: nat | i < n :: Name(i) in entries
  }

  lemma OneMoreName(limits: Limits, entries: Entries, n: nat)
    requires n < limits.maxEntries && HoldsNames(entries, n)
    ensures HoldsNames(Step(limits, entries, Inserted(Name(n), Negative(0))), n + 1)
  {
    hide Retained;
    assert |Name(n)| == n;
    var more := entries[Name(n) := Negative(0)];
    forall i: nat | i < n + 1
      ensures Name(i) in more
    {
    }
  }

  /** One more insert, at the time of the last. */
  lemma Appended(limits: Limits, before: seq<Event>, user: string, entry: Entry)
    ensures var events := before + [Inserted(user, entry)];
            && Run(limits, events) == Step(limits, Run(limits, before), Inserted(user, entry))
            && Users(events) == Users(before) + {user}
            && (Ordered(before, entry.at) ==> Ordered(events, entry.at))
            && forall other | other != user :: Remembered(events, other) == Remembered(before, other)
  {
    var events := before + [Inserted(user, entry)];
    assert events[..|events| - 1] == before;
    hide Step;
  }

  lemma FillingOneMore(n: nat)
    requires n > 0
    ensures Filling(n) == Filling(n - 1) + [Inserted(Name(n - 1), Negative(0))]
  {
  }

  lemma FilledOneMore(limits: Limits, before: seq<Event>, n: nat)
    requires n < limits.maxEntries && HoldsNames(Run(limits, before), n)
    requires Ordered(before, 0) && Users(before) == Run(limits, before).Keys
    ensures var events := before + [Inserted(Name(n), Negative(0))];
            HoldsNames(Run(limits, events), n + 1) && Ordered(events, 0) && Users(events) == Run(limits, events).Keys
  {
    hide *;
    Appended(limits, before, Name(n), Negative(0));
    OneMoreName(limits, Run(limits, before), n);
    NotYetFull(limits, Run(limits, before), n);
  }

  lemma NothingFilled(limits: Limits)
    ensures HoldsNames(Run(limits, Filling(0)), 0)
    ensures Ordered(Filling(0), 0) && Users(Filling(0)) == Run(limits, Filling(0)).Keys
  {
  }

  lemma {:induction false} Filled(limits: Limits, n: nat)
    requires n <= limits.maxEntries
    ensures HoldsNames(Run(limits, Filling(n)), n)
    ensures Ordered(Filling(n), 0) && Users(Filling(n)) == Run(limits, Filling(n)).Keys
  {
    hide *;
    if n == 0 {
      NothingFilled(limits);
    } else {
      Filled(limits, n - 1);
      FillingOneMore(n);
      FilledOneMore(limits, Filling(n - 1), n - 1);
    }
  }

  lemma NotYetFull(limits: Limits, entries: Entries, n: nat)
    requires HoldsNames(entries, n) && n < limits.maxEntries
    ensures Step(limits, entries, Inserted(Name(n), Negative(0))) == entries[Name(n) := Negative(0)]
  {
    hide Retained, Name;
  }

  /** With exactly as many users as the limit answers can be lost, for every limit of two or more: the bound is tight. */
  lemma TheLimitIsTight(limits: Limits)
    requires limits.maxEntries >= 2 && limits.negativeTtl >= 1
    ensures var events := Filling(limits.maxEntries) + [Inserted(Name(0), Negative(0))];
            && Ordered(events, 0) && |Users(events)| == limits.maxEntries
            && Recalled(limits, events, Name(1), 0) == Some(None)
            && Lookup(limits, Run(limits, events), Name(1), 0) == None
  {
    var n := limits.maxEntries;
    var (before, last) := (Filling(n), Inserted(Name(0), Negative(0)));
    var events := before + [last];
    hide Run, Evicted, Retained, Filling, HoldsNames, Ordered, Users, Remembered, Name, Step;
    Filled(limits, n);
    var entries := Run(limits, before);
    RunIsBounded(limits, before);
    FullMapSheds(limits, entries);
    Appended(limits, before, Name(0), Negative(0));
    assert Users(events) == Users(before) == entries.Keys;
  }

  lemma FullMapSheds(limits: Limits, entries: Entries)
    requires limits.maxEntries >= 2 && limits.negativeTtl >= 1 && HoldsNames(entries, limits.maxEntries)
    ensures Name(0) in entries && Name(1) in entries && entries[Name(1)] == Negative(0)
    ensures Name(1) !in Step(limits, entries, Inserted(Name(0), Negative(0)))
    ensures |entries.Keys| == limits.maxEntries && Name(0) != Name(1)
  {
    assert |Name(0)| != |Name(1)|;
    assert Retained(limits, entries, 0) == entries;
    InsertCosts(limits, entries, Name(0), Negative(0), Name(1));
  }

  class LookupCache {
    const limits: Limits
    var entries: Entries
    ghost var history: seq<Event>

    /** What is held is what the operations so far leave. */
    ghost predicate Valid()
      reads this
    {
      limits.maxEntries >= 1 && entries == Run(limits, history)
    }

    constructor (positiveTtl: nat, negativeTtl: nat, maxEntries: nat)
      ensures Valid() && history == []
      ensures limits == Limits(positiveTtl, negativeTtl, if maxEntries == 0 then 1 else maxEntries)
    {
      limits := Limits(positiveTtl, negativeTtl, if maxEntries > 1 then maxEntries else 1);
      entries, history := map[], [];
    }

    /** `Some(Some(v))`: a live verifier; `Some(None)`: known to be absent; `None`: ask the source. */
    method Get(user: string, now: int) returns (r: Option<Answer>)
      requires Valid()
      modifies this
      ensures Valid() && history == old(history) + [Got(user, now)]
      ensures r == Lookup(limits, old(entries), user, now) && entries == Step(limits, old(entries), Got(user, now))
      ensures r.Some? ==> r == Recalled(limits, old(history), user, now)
      ensures user in entries ==> limits.Live(entries[user], now)
    {
      hide Evicted, Remembered, Run;
      AnswersAreRecalled(limits, history, user, now);
      r := None;
      if user in entries {
        if limits.Live(entries[user], now) {
          r := Some(entries[user].Answer());
        } else {
          entries := entries - {user};
        }
      }
      Record(history, Got(user, now));
      history := history + [Got(user, now)];
    }

    /** When the live negative entry of a user was recorded. */
    method GetNegative(user: string, now: int) returns (r: Option<int>)
      requires Valid()
      modifies this
      ensures Valid() && history == old(history) + [Got(user, now)]
      ensures r.Some? ==> Remembered(old(history), user) == Some(Negative(r.value)) && limits.Live(Negative(r.value), now)
      ensures r.None? <==> Lookup(limits, old(entries), user, now) != Some(None)
    {
      hide Evicted, Run;
      RunIsBounded(limits, history);
      var answer := Get(user, now);
      r := if answer == Some(None) && user in entries && entries[user].Negative? then Some(entries[user].at) else None;
    }

    method InsertPositive(user: string, verifier: Verifier, now: int)
      requires Valid()
      modifies this
      ensures Valid() && history == old(history) + [Inserted(user, Positive(verifier, now))]
      ensures |entries| <= limits.maxEntries && user in entries && entries[user] == Positive(verifier, now)
    {
      Insert(user, Positive(verifier, now));
    }

    method InsertNegative(user: string, now: int)
      requires Valid()
      modifies this
      ensures Valid() && history == old(history) + [Inserted(user, Negative(now))]
      ensures |entries| <= limits.maxEntries && user in entries && entries[user] == Negative(now)
    {
      Insert(user, Negative(now));
    }

    method Insert(user: string, entry: Entry)
      requires Valid()
      modifies this
      ensures Valid() && history == old(history) + [Inserted(user, entry)]
      ensures |entries| <= limits.maxEntries && user in entries && entries[user] == entry
    {
      hide Evicted, Run, Remembered;
      EvictIfNeeded(entry.at);
      entries := entries[user := entry];
      Record(history, Inserted(user, entry));
      history := history + [Inserted(user, entry)];
      RunIsBounded(limits, history);
    }

    method Forget(user: string)
      requires Valid()
      modifies this
      ensures Valid() && history == old(history) + [Forgotten(user)]
      ensures user !in entries
    {
      hide Run;
      entries := entries - {user};
      Record(history, Forgotten(user));
      history := history + [Forgotten(user)];
    }

    method EvictIfNeeded(now: int)
      modifies this`entries
      ensures entries == Evicted(limits, old(entries), now)
    {
      if |entries| < limits.maxEntries {
        return;
      }
      entries := map user | user in entries && limits.Fresh(entries[user], now) :: entries[user];
      if |entries| >= limits.maxEntries {
        entries := map[];
      }
    }

    lemma Record(before: seq<Event>, event: Event)
      ensures Run(limits, before + [event]) == Step(limits, Run(limits, before), event)
    {
      assert (before + [event])[..|before|] == before;
    }
  }
}
