/** Credential lookups through the cache, alone and interleaved with each other and with a changing database. */
module AuthQuery {
  import opened Prelude
  import opened Verifiers
  import Cache

  type Answer = Cache.Answer

  /** A user's row: `None` when there is none, or when its secret is NULL. */
  type Row = Option<string>

  type Database = map<string, Row>

  function RowOf(db: Database, user: string): Row {
    if user in db then db[user] else None
  }

  /** What a row says; a secret that cannot be parsed says nothing. */
  function AnswerOf(row: Row): Option<Answer> {
    match row
    case None => Some(None)
    case Some(secret) =>
      match FromPgSecret(secret)
      case Ok(verifier) => Some(Some(verifier))
      case Err(_) => None
  }

  function EntryOf(answer: Answer, at: int): Cache.Entry {
    match answer
    case Some(verifier) => Cache.Positive(verifier, at)
    case None => Cache.Negative(at)
  }

  datatype Progress =
    | Started
    | Missed
    | Fetched(row: Row)
    | Returned(answer: Option<Answer>)

  /** A lookup and the one reading of the clock it works with; `Returned(None)` is the unavailable error. */
  datatype Task = Task(user: string, start: int, progress: Progress)

  datatype World = World(now: int, db: Database, entries: Cache.Entries, tasks: map<nat, Task>)

  datatype Event =
    | Tick(ticks: nat)
    | Change(db: Database)
    | Start(id: nat, user: string)
    | CheckCache(id: nat)
    | Query(id: nat)
    | FailQuery(id: nat)
    | Finish(id: nat)
    | Forget(user: string)

  predicate Enabled(w: World, e: Event) {
    match e
    case Tick(_) => true
    case Change(_) => true
    case Forget(_) => true
    case Start(id, _) => id !in w.tasks
    case CheckCache(id) => id in w.tasks && w.tasks[id].progress.Started?
    case Query(id) => id in w.tasks && w.tasks[id].progress.Missed?
    case FailQuery(id) => id in w.tasks && w.tasks[id].progress.Missed?
    case Finish(id) => id in w.tasks && w.tasks[id].progress.Fetched?
  }

  function Moved(w: World, id: nat, progress: Progress): map<nat, Task>
    requires id in w.tasks
  {
    w.tasks[id := w.tasks[id].(progress := progress)]
  }

  /** One step of one lookup, or of the world around them. A step that is not enabled changes nothing. */
  function Step(limits: Cache.Limits, w: World, e: Event): World {
    if !Enabled(w, e) then w
    else
      match e
      case Tick(ticks) => w.(now := w.now + ticks)
      case Change(db) => w.(db := db)
      case Forget(user) => w.(entries := w.entries - {user})
      case Start(id, user) => w.(tasks := w.tasks[id := Task(user, w.now, Started)])
      case CheckCache(id) =>
        var task := w.tasks[id];
        var answer := Cache.Lookup(limits, w.entries, task.user, task.start);
        w.(entries := Cache.Step(limits, w.entries, Cache.Got(task.user, task.start)),
           tasks := Moved(w, id, if answer.Some? then Returned(answer) else Missed))
      case Query(id) => w.(tasks := Moved(w, id, Fetched(RowOf(w.db, w.tasks[id].user))))
      case FailQuery(id) => w.(tasks := Moved(w, id, Returned(None)))
      case Finish(id) =>
        var task := w.tasks[id];
        var answer := AnswerOf(task.progress.row);
        w.(entries := if answer.Some? then Cache.Step(limits, w.entries, Cache.Inserted(task.user, EntryOf(answer.value, task.start))) else w.entries,
           tasks := Moved(w, id, Returned(answer)))
  }

  function Run(limits: Cache.Limits, w: World, events: seq<Event>): World {
    if events == [] then w else Step(limits, Run(limits, w, events[..|events| - 1]), events[|events| - 1])
  }

  /** Nothing cached, nobody asking. */
  predicate Idle(w: World) {
    w.entries == map[] && w.tasks == map[]
  }

  function Ttl(limits: Cache.Limits, answer: Answer): nat {
    if answer.Some? then limits.positiveTtl else limits.negativeTtl
  }

  /** At the moment after `k` events, the clock read at least `since` and the database gave `answer` for the user. */
  predicate TrueAt(limits: Cache.Limits, w: World, events: seq<Event>, k: nat, user: string, answer: Option<Answer>, since: int)
    requires k <= |events|
  {
    var past := Run(limits, w, events[..k]);
    past.now >= since && AnswerOf(RowOf(past.db, user)) == answer
  }

  /** There was such a moment, not before the first `from` events. */
  ghost predicate Held(limits: Cache.Limits, w: World, events: seq<Event>, from: nat, user: string, answer: Option<Answer>, since: int) {
    exists k: nat :: from <= k <= |events| && TrueAt(limits, w, events, k, user, answer, since)
  }

  /** What is known after some events about one task of `user`, unless it had returned when the first `from` were over. */
  ghost predicate TaskSound(limits: Cache.Limits, w: World, events: seq<Event>, from: nat, task: Task, over: bool)
  {
    && task.start <= Run(limits, w, events).now
    && (task.progress.Fetched? && AnswerOf(task.progress.row).Some? ==> Held(limits, w, events, from, task.user, AnswerOf(task.progress.row), task.start))
    && (task.progress.Returned? && task.progress.answer.Some? && !over ==>
          Held(limits, w, events, from, task.user, task.progress.answer, task.start - Ttl(limits, task.progress.answer.value)))
  }

  predicate Over(limits: Cache.Limits, w: World, events: seq<Event>, from: nat, id: nat)
    requires from <= |events|
  {
    var past := Run(limits, w, events[..from]);
    id in past.tasks && past.tasks[id].progress.Returned?
  }

  ghost predicate EntrySound(limits: Cache.Limits, w: World, events: seq<Event>, from: nat, user: string, entry: Cache.Entry) {
    entry.at <= Run(limits, w, events).now && Held(limits, w, events, from, user, Some(entry.Answer()), entry.at)
  }

  /** Everything cached or fetched for `user`, or returned since, was the database's answer at some moment since. */
  ghost predicate Sound(limits: Cache.Limits, w: World, events: seq<Event>, from: nat, user: string)
    requires from <= |events|
  {
    var end := Run(limits, w, events);
    && (user in end.entries ==> EntrySound(limits, w, events, from, user, end.entries[user]))
    && forall id <- end.tasks | end.tasks[id].user == user ::
         TaskSound(limits, w, events, from, end.tasks[id], Over(limits, w, events, from, id))
  }

  lemma HeldLonger(limits: Cache.Limits, w: World, events: seq<Event>, e: Event, from: nat, user: string, answer: Option<Answer>, since: int)
    requires Held(limits, w, events, from, user, answer, since)
    ensures Held(limits, w, events + [e], from, user, answer, since)
  {
    var k: nat :| from <= k <= |events| && TrueAt(limits, w, events, k, user, answer, since);
    assert (events + [e])[..k] == events[..k];
    assert TrueAt(limits, w, events + [e], k, user, answer, since);
  }

  lemma HeldNow(limits: Cache.Limits, w: World, events: seq<Event>, from: nat, user: string, since: int)
    requires from <= |events| && since <= Run(limits, w, events).now
    ensures Held(limits, w, events, from, user, AnswerOf(RowOf(Run(limits, w, events).db, user)), since)
  {
    assert events[..|events|] == events;
    assert TrueAt(limits, w, events, |events|, user, AnswerOf(RowOf(Run(limits, w, events).db, user)), since);
  }

  lemma HeldSince(limits: Cache.Limits, w: World, events: seq<Event>, from: nat, user: string, answer: Option<Answer>, since: int, earlier: int)
    requires Held(limits, w, events, from, user, answer, since) && earlier <= since
    ensures Held(limits, w, events, from, user, answer, earlier)
  {
    hide Run, AnswerOf;
    var k: nat :| from <= k <= |events| && TrueAt(limits, w, events, k, user, answer, since);
    assert TrueAt(limits, w, events, k, user, answer, earlier);
  }

  lemma OneStep(limits: Cache.Limits, w: World, events: seq<Event>, e: Event)
    ensures Run(limits, w, events + [e]) == Step(limits, Run(limits, w, events), e)
    ensures Run(limits, w, events).now <= Run(limits, w, events + [e]).now
    ensures Run(limits, w, events + [e]).db == if e.Change? then e.db else Run(limits, w, events).db
  {
    assert (events + [e])[..|events|] == events;
    hide Run, AnswerOf, EntryOf, Cache.Step, Cache.Lookup;
  }

  /** A task the step leaves alone, or only starts, stays sound. */
  lemma TaskStaysSound(limits: Cache.Limits, w: World, events: seq<Event>, e: Event, from: nat, task: Task, over: bool)
    requires TaskSound(limits, w, events, from, task, over)
    ensures TaskSound(limits, w, events + [e], from, task, over)
  {
    hide Run, AnswerOf, Held, Step;
    OneStep(limits, w, events, e);
    if task.progress.Fetched? && AnswerOf(task.progress.row).Some? {
      HeldLonger(limits, w, events, e, from, task.user, AnswerOf(task.progress.row), task.start);
    }
    if task.progress.Returned? && task.progress.answer.Some? && !over {
      HeldLonger(limits, w, events, e, from, task.user, task.progress.answer, task.start - Ttl(limits, task.progress.answer.value));
    }
  }

  lemma EntryStaysSound(limits: Cache.Limits, w: World, events: seq<Event>, e: Event, from: nat, user: string, entry: Cache.Entry)
    requires EntrySound(limits, w, events, from, user, entry)
    ensures EntrySound(limits, w, events + [e], from, user, entry)
  {
    hide Run, AnswerOf, Held, Step;
    OneStep(limits, w, events, e);
    HeldLonger(limits, w, events, e, from, user, Some(entry.Answer()), entry.at);
  }

  /** What a step does to one task. */
  lemma TaskStep(limits: Cache.Limits, w: World, events: seq<Event>, e: Event, from: nat, id: nat)
    requires from <= |events| && limits.maxEntries >= 1
    requires var before := Run(limits, w, events);
             id in before.tasks ==> Sound(limits, w, events, from, before.tasks[id].user)
    requires id in Run(limits, w, events + [e]).tasks
    ensures TaskSound(limits, w, events + [e], from, Run(limits, w, events + [e]).tasks[id], Over(limits, w, events, from, id))
  {
    hide Run, AnswerOf, EntryOf, Held, Cache.Step, Over;
    OneStep(limits, w, events, e);
    var (before, after) := (Run(limits, w, events), Run(limits, w, events + [e]));
    var (task, over) := (after.tasks[id], Over(limits, w, events, from, id));
    if id !in before.tasks {
    } else if before.tasks[id] == task {
      TaskStaysSound(limits, w, events, e, from, task, over);
    } else if e.CheckCache? && task.progress.Returned? {
      EntryStaysSound(limits, w, events, e, from, task.user, before.entries[task.user]);
      HeldSince(limits, w, events + [e], from, task.user, task.progress.answer, before.entries[task.user].at,
                task.start - Ttl(limits, task.progress.answer.value));
    } else if e.Query? {
      HeldNow(limits, w, events, from, task.user, task.start);
      HeldLonger(limits, w, events, e, from, task.user, AnswerOf(task.progress.row), task.start);
    } else if e.Finish? && task.progress.answer.Some? {
      TaskStaysSound(limits, w, events, e, from, before.tasks[id], over);
      HeldSince(limits, w, events + [e], from, task.user, task.progress.answer, task.start,
                task.start - Ttl(limits, task.progress.answer.value));
    }
  }

  /** What a step leaves cached was cached before, or is the answer of the lookup that just finished. */
  lemma EntryStep(limits: Cache.Limits, w: World, events: seq<Event>, e: Event, from: nat, user: string)
    requires from <= |events| && limits.maxEntries >= 1 && Sound(limits, w, events, from, user)
    requires user in Run(limits, w, events + [e]).entries
    ensures EntrySound(limits, w, events + [e], from, user, Run(limits, w, events + [e]).entries[user])
  {
    hide Run, AnswerOf, Held, Over, Cache.Evicted, Cache.Lookup;
    OneStep(limits, w, events, e);
    var (before, after) := (Run(limits, w, events), Run(limits, w, events + [e]));
    if e.Finish? && Enabled(before, e) {
      var task := before.tasks[e.id];
      Cache.EvictedShrinks(limits, before.entries, task.start);
      if task.user == user && AnswerOf(task.progress.row).Some? {
        TaskStaysSound(limits, w, events, e, from, task, Over(limits, w, events, from, e.id));
        return;
      }
    }
    assert user in before.entries && before.entries[user] == after.entries[user];
    EntryStaysSound(limits, w, events, e, from, user, before.entries[user]);
  }

  lemma StepIsSound(limits: Cache.Limits, w: World, events: seq<Event>, e: Event, from: nat, user: string)
    requires from <= |events| && limits.maxEntries >= 1 && Sound(limits, w, events, from, user)
    ensures Sound(limits, w, events + [e], from, user)
  {
    hide Run, AnswerOf, EntryOf, Held, Cache.Step, Cache.Lookup, TaskSound, EntrySound;
    OneStep(limits, w, events, e);
    assert (events + [e])[..from] == events[..from];
    var (before, after) := (Run(limits, w, events), Run(limits, w, events + [e]));
    forall id <- after.tasks | after.tasks[id].user == user
      ensures TaskSound(limits, w, events + [e], from, after.tasks[id], Over(limits, w, events + [e], from, id))
    {
      TaskStep(limits, w, events, e, from, id);
    }
    if user in after.entries {
      EntryStep(limits, w, events, e, from, user);
    }
  }

  lemma {:induction false} RunIsSound(limits: Cache.Limits, w: World, events: seq<Event>, from: nat, user: string)
    requires from <= |events| && limits.maxEntries >= 1 && Sound(limits, w, events[..from], from, user)
    ensures Sound(limits, w, events, from, user)
    decreases |events|
  {
    hide Run, Sound;
    if |events| == from {
      assert events[..from] == events;
    } else {
      var before := events[..|events| - 1];
      assert before[..from] == events[..from];
      RunIsSound(limits, w, before, from, user);
      StepIsSound(limits, w, before, events[|events| - 1], from, user);
      assert before + [events[|events| - 1]] == events;
    }
  }

  /**
   * Staleness. However lookups, cache reads, queries, inserts, `forget` and changes of the database interleave, an
   * answer a lookup returns was the database's answer at some moment no earlier than the lookup's clock reading minus
   * the lifetime of that kind of answer.
   */
  lemma AnswersAreRecent(limits: Cache.Limits, w: World, events: seq<Event>, id: nat)
    requires limits.maxEntries >= 1 && Idle(w)
    requires var tasks := Run(limits, w, events).tasks;
             id in tasks && tasks[id].progress.Returned? && tasks[id].progress.answer.Some?
    ensures var task := Run(limits, w, events).tasks[id];
            Held(limits, w, events, 0, task.user, task.progress.answer, task.start - Ttl(limits, task.progress.answer.value))
  {
    hide Held, Run, EntrySound;
    var user := Run(limits, w, events).tasks[id].user;
    IdleIsSound(limits, w, events, user);
    RunIsSound(limits, w, events, 0, user);
    NothingOver(limits, w, events, id);
  }

  lemma IdleIsSound(limits: Cache.Limits, w: World, events: seq<Event>, user: string)
    requires Idle(w)
    ensures Sound(limits, w, events[..0], 0, user)
  {
    hide Held;
    assert events[..0] == [];
    NoSteps(limits, w);
    hide Run;
  }

  lemma NothingOver(limits: Cache.Limits, w: World, events: seq<Event>, id: nat)
    requires Idle(w)
    ensures !Over(limits, w, events, 0, id)
  {
    NoSteps(limits, w);
    assert events[..0] == [];
    hide Run;
  }

  /** No lookup holds a usable row of the user that it has not cached yet. */
  ghost predicate NothingInFlight(w: World, user: string) {
    forall id <- w.tasks | w.tasks[id].user == user && w.tasks[id].progress.Fetched? :: AnswerOf(w.tasks[id].progress.row).None?
  }

  /**
   * `forget` takes effect when no fetched row of the user is in flight: whatever a lookup returns from then on was the
   * database's answer at some moment after the `forget`.
   */
  lemma ForgetTakesEffect(limits: Cache.Limits, w: World, before: seq<Event>, user: string, later: seq<Event>, id: nat)
    requires limits.maxEntries >= 1 && Idle(w) && NothingInFlight(Run(limits, w, before), user)
    requires var tasks := Run(limits, w, before + [Forget(user)] + later).tasks;
             && id in tasks && tasks[id].user == user && tasks[id].progress.Returned? && tasks[id].progress.answer.Some?
             && !Over(limits, w, before + [Forget(user)] + later, |before| + 1, id)
    ensures var task := Run(limits, w, before + [Forget(user)] + later).tasks[id];
            Held(limits, w, before + [Forget(user)] + later, |before| + 1, user, task.progress.answer,
                 task.start - Ttl(limits, task.progress.answer.value))
  {
    ForgetIsSound(limits, w, before, user);
    var (n, events) := (|before| + 1, before + [Forget(user)] + later);
    assert events[..n] == before + [Forget(user)];
    RunIsSound(limits, w, events, n, user);
    hide Held, Run, Over;
  }

  lemma ForgetIsSound(limits: Cache.Limits, w: World, before: seq<Event>, user: string)
    requires limits.maxEntries >= 1 && Idle(w) && NothingInFlight(Run(limits, w, before), user)
    ensures var events := before + [Forget(user)];
            events[..|before| + 1] == events && Sound(limits, w, events, |before| + 1, user)
  {
    hide AnswerOf, Run, Held;
    StartsInThePast(limits, w, before, user);
    OneStep(limits, w, before, Forget(user));
    var events := before + [Forget(user)];
    assert events[..|before| + 1] == events;
  }

  lemma StartsInThePast(limits: Cache.Limits, w: World, events: seq<Event>, user: string)
    requires limits.maxEntries >= 1 && Idle(w)
    ensures forall id <- Run(limits, w, events).tasks | Run(limits, w, events).tasks[id].user == user ::
              Run(limits, w, events).tasks[id].start <= Run(limits, w, events).now
  {
    hide Held, Run, EntrySound;
    IdleIsSound(limits, w, events, user);
    RunIsSound(limits, w, events, 0, user);
  }

  /** A database in which the user's answer is another. */
  function Elsewhere(user: string, answer: Answer): Database {
    if answer.Some? then map[] else map[user := Some("")]
  }

  lemma ElsewhereDiffers(user: string, answer: Answer)
    ensures AnswerOf(RowOf(Elsewhere(user, answer), user)) != Some(answer)
  {
  }

  /**
   * And only then: a usable row in flight can be returned, and cached, after a `forget`, although the database has not
   * given that answer at any moment since.
   */
  lemma InFlightOutlivesForget(limits: Cache.Limits, w: World, before: seq<Event>, id: nat)
    requires limits.maxEntries >= 1
    requires var tasks := Run(limits, w, before).tasks;
             id in tasks && tasks[id].progress.Fetched? && AnswerOf(tasks[id].progress.row).Some?
    ensures var task := Run(limits, w, before).tasks[id];
            var answer := AnswerOf(task.progress.row);
            var events := before + [Change(Elsewhere(task.user, answer.value)), Forget(task.user), Finish(id)];
            var end := Run(limits, w, events);
            && id in end.tasks && end.tasks[id] == task.(progress := Returned(answer))
            && task.user in end.entries && end.entries[task.user] == EntryOf(answer.value, task.start)
            && !Held(limits, w, events, |before| + 2, task.user, answer, task.start - Ttl(limits, answer.value))
  {
    hide AnswerOf, Run, Elsewhere, Cache.Evicted;
    var task := Run(limits, w, before).tasks[id];
    var answer := AnswerOf(task.progress.row).value;
    var db := Elsewhere(task.user, answer);
    var changed := before + [Change(db)];
    var forgotten := changed + [Forget(task.user)];
    var events := forgotten + [Finish(id)];
    OneStep(limits, w, before, Change(db));
    OneStep(limits, w, changed, Forget(task.user));
    OneStep(limits, w, forgotten, Finish(id));
    assert events == before + [Change(db), Forget(task.user), Finish(id)];
    ElsewhereDiffers(task.user, answer);
    assert forall k: nat | |before| + 2 <= k <= |events| :: events[..k] == if k == |events| then events else forgotten;
    NeverHeld(limits, w, events, |before| + 2, db, task.user, Some(answer), task.start - Ttl(limits, answer));
  }

  lemma NeverHeld(limits: Cache.Limits, w: World, events: seq<Event>, from: nat, db: Database, user: string, answer: Option<Answer>, since: int)
    requires forall k: nat | from <= k <= |events| :: Run(limits, w, events[..k]).db == db
    requires AnswerOf(RowOf(db, user)) != answer
    ensures !Held(limits, w, events, from, user, answer, since)
  {
    hide Run, AnswerOf;
  }

  /** A lookup nobody interrupts is the four steps in a row: what `Lookup` of a source does in one go. */
  lemma UninterruptedLookup(limits: Cache.Limits, w: World, id: nat, user: string)
    requires id !in w.tasks
    ensures var hit := Cache.Lookup(limits, w.entries, user, w.now);
            var end := Run(limits, w, [Start(id, user), CheckCache(id), Query(id), Finish(id)]);
            var answer := if hit.Some? then hit else AnswerOf(RowOf(w.db, user));
            var checked := Cache.Step(limits, w.entries, Cache.Got(user, w.now));
            && end.tasks == w.tasks[id := Task(user, w.now, Returned(answer))]
            && end.entries == if hit.None? && answer.Some?
                                then Cache.Step(limits, checked, Cache.Inserted(user, EntryOf(answer.value, w.now)))
                                else checked
  {
    hide Run, AnswerOf, EntryOf, RowOf, Cache.Step, Cache.Lookup;
    var steps := [Start(id, user), CheckCache(id), Query(id), Finish(id)];
    assert steps[..1] == [] + [Start(id, user)] && steps[..2] == steps[..1] + [CheckCache(id)];
    assert steps[..3] == steps[..2] + [Query(id)] && steps == steps[..3] + [Finish(id)];
    NoSteps(limits, w);
    OneStep(limits, w, [], Start(id, user));
    var started := Run(limits, w, steps[..1]);
    assert started == w.(tasks := w.tasks[id := Task(user, w.now, Started)]);
    OneStep(limits, w, steps[..1], CheckCache(id));
    var checked := Run(limits, w, steps[..2]);
    var hit := Cache.Lookup(limits, w.entries, user, w.now);
    assert checked.tasks == w.tasks[id := Task(user, w.now, if hit.Some? then Returned(hit) else Missed)];
    assert checked.db == w.db;
    OneStep(limits, w, steps[..2], Query(id));
    OneStep(limits, w, steps[..3], Finish(id));
  }

  lemma NoSteps(limits: Cache.Limits, w: World)
    ensures Run(limits, w, []) == w
  {
  }

  /** How the lookup connection answers a query. */
  datatype Reply = Answered(row: Row) | BadColumn | Broken

  /** A credential source of its own: one cache, one lookup connection, one lookup at a time. */
  class AuthQuerySource {
    const cache: Cache.LookupCache
    var connected: bool
    /** How often a connection was attempted. */
    var dials: nat

    ghost predicate Valid()
      reads cache
    {
      cache.Valid()
    }

    constructor (positiveTtl: nat, negativeTtl: nat, maxEntries: nat)
      ensures Valid() && fresh(cache) && !connected && dials == 0 && cache.history == []
      ensures cache.limits == Cache.Limits(positiveTtl, negativeTtl, if maxEntries == 0 then 1 else maxEntries)
    {
      cache := new Cache.LookupCache(positiveTtl, negativeTtl, maxEntries);
      connected, dials := false, 0;
    }

    method EnsureConnected(connects: bool) returns (ok: bool)
      modifies this
      ensures ok == (old(connected) || connects) && connected == ok
      ensures dials == old(dials) + if old(connected) then 0 else 1
    {
      if !connected {
        dials := dials + 1;
        connected := connects;
      }
      ok := connected;
    }

    /** A broken query drops the connection, so the next lookup makes a new one. */
    method QueryBackend(connects: bool, reply: Reply) returns (r: Option<Row>)
      modifies this
      ensures r == if (old(connected) || connects) && reply.Answered? then Some(reply.row) else None
      ensures connected == ((old(connected) || connects) && !reply.Broken?)
      ensures dials == old(dials) + if old(connected) then 0 else 1
    {
      var ok := EnsureConnected(connects);
      if !ok {
        return None;
      }
      match reply {
        case Answered(row) => r := Some(row);
        case BadColumn => r := None;
        case Broken =>
          connected := false;
          r := None;
      }
    }

    lemma Remembers(user: string, now: int)
      requires Valid()
      ensures Cache.Roomy(cache.limits, cache.history, now) ==>
                Cache.Lookup(cache.limits, cache.entries, user, now) == Cache.Recalled(cache.limits, cache.history, user, now)
    {
      hide Cache.Run, Cache.Lookup, Cache.Recalled, Cache.Ordered;
      if Cache.Roomy(cache.limits, cache.history, now) {
        Cache.NothingLostBelowTheLimit(cache.limits, cache.history, user, now);
      }
    }

    /** `None` is the unavailable error: it is never cached, and never taken for an unknown user. */
    method Lookup(user: string, now: int, connects: bool, reply: Reply) returns (r: Option<Answer>)
      requires Valid()
      modifies this, cache
      ensures Valid()
      ensures var hit := Cache.Lookup(cache.limits, old(cache.entries), user, now);
              if hit.Some? then
                && r == hit && r == Cache.Recalled(cache.limits, old(cache.history), user, now)
                && connected == old(connected) && dials == old(dials)
                && cache.history == old(cache.history) + [Cache.Got(user, now)]
              else
                && r == (if (old(connected) || connects) && reply.Answered? then AnswerOf(reply.row) else None)
                && connected == ((old(connected) || connects) && !reply.Broken?)
                && dials == old(dials) + (if old(connected) then 0 else 1)
                && cache.history == old(cache.history) + [Cache.Got(user, now)]
                                    + (if r.Some? then [Cache.Inserted(user, EntryOf(r.value, now))] else [])
      ensures forall verifier, at ::
                Cache.Roomy(cache.limits, old(cache.history), now) && at <= now
                && Cache.Remembered(old(cache.history), user) == Some(Cache.Positive(verifier, at)) ==>
                  r == (if now - at <= cache.limits.positiveTtl then Some(Some(verifier))
                        else if (old(connected) || connects) && reply.Answered? then AnswerOf(reply.row)
                        else None)
      ensures forall at ::
                Cache.Roomy(cache.limits, old(cache.history), now) && at <= now
                && Cache.Remembered(old(cache.history), user) == Some(Cache.Negative(at)) ==>
                  r == (if now - at <= cache.limits.negativeTtl then Some(None)
                        else if (old(connected) || connects) && reply.Answered? then AnswerOf(reply.row)
                        else None)
    {
      hide Cache.Run, Cache.Evicted, Cache.Remembered, FromPgSecret;
      Remembers(user, now);
      var cached := cache.Get(user, now);
      if cached.Some? {
        return cached;
      }
      var row := QueryBackend(connects, reply);
      match row {
        case None => r := None;
        case Some(Some(secret)) =>
          match FromPgSecret(secret) {
            case Err(_) => r := None;
            case Ok(verifier) =>
              cache.InsertPositive(user, verifier, now);
              r := Some(Some(verifier));
          }
        case Some(None) =>
          cache.InsertNegative(user, now);
          r := Some(None);
      }
    }

    method Forget(user: string)
      requires Valid()
      modifies cache
      ensures Valid() && cache.history == old(cache.history) + [Cache.Forgotten(user)] && user !in cache.entries
    {
      cache.Forget(user);
    }
  }
}
