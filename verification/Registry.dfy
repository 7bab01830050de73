/** The session registry: which cancel key belongs to which live backend session. */
module Registry {
  import opened Prelude

  /** A proxy-minted cancel key, both halves as the 32 bits they travel in. */
  datatype SessionKeySecret = SessionKeySecret(key: u32, secret: u32)

  /** The handle whose drop ends a registration. */
  datatype SessionGuard = SessionGuard(connId: int, key: SessionKeySecret)

  datatype Tables<B> = Tables(connBackend: map<int, B>, keyBackend: map<SessionKeySecret, B>)

  /** A key that is already taken changes nothing. */
  function Registered<B>(t: Tables<B>, backend: B, guard: SessionGuard): Tables<B> {
    if guard.key in t.keyBackend then t
    else Tables(t.connBackend[guard.connId := backend], t.keyBackend[guard.key := backend])
  }

  /** The key goes only if the connection is still on record. */
  function Dropped<B>(t: Tables<B>, guard: SessionGuard): Tables<B> {
    if guard.connId in t.connBackend then Tables(t.connBackend - {guard.connId}, t.keyBackend - {guard.key}) else t
  }

  /** The guards that have not been dropped, with the backend each was issued for. */
  type Live<B> = map<SessionGuard, B>

  predicate DistinctConns<B>(live: Live<B>) {
    forall g, h | g in live && h in live && g.connId == h.connId :: g == h
  }

  predicate DistinctKeys<B>(live: Live<B>) {
    forall g, h | g in live && h in live && g.key == h.key :: g == h
  }

  predicate ConnIsLive<B>(live: Live<B>, connId: int) {
    exists g :: g in live && g.connId == connId
  }

  predicate KeyIsLive<B>(live: Live<B>, key: SessionKeySecret) {
    exists g :: g in live && g.key == key
  }

  predicate ConnsAgree<B(==)>(connBackend: map<int, B>, live: Live<B>) {
    && (forall g <- live :: g.connId in connBackend && connBackend[g.connId] == live[g])
    && (forall connId <- connBackend :: ConnIsLive(live, connId))
    && DistinctConns(live)
  }

  predicate KeysAgree<B(==)>(keyBackend: map<SessionKeySecret, B>, live: Live<B>) {
    && (forall g <- live :: g.key in keyBackend && keyBackend[g.key] == live[g])
    && (forall key <- keyBackend :: KeyIsLive(live, key))
    && DistinctKeys(live)
  }

  /** Both tables list exactly the live guards, each under its own backend. */
  predicate Agrees<B(==)>(t: Tables<B>, live: Live<B>) {
    ConnsAgree(t.connBackend, live) && KeysAgree(t.keyBackend, live)
  }

  lemma LiveAfterAdding<B>(live: Live<B>, guard: SessionGuard, backend: B)
    ensures ConnIsLive(live[guard := backend], guard.connId) && forall connId | ConnIsLive(live, connId) :: ConnIsLive(live[guard := backend], connId)
    ensures KeyIsLive(live[guard := backend], guard.key) && forall key | KeyIsLive(live, key) :: KeyIsLive(live[guard := backend], key)
  {
    var live' := live[guard := backend];
    assert guard in live';
    forall connId | ConnIsLive(live, connId)
      ensures ConnIsLive(live', connId)
    {
      var g :| g in live && g.connId == connId;
      assert g in live';
    }
    forall key | KeyIsLive(live, key)
      ensures KeyIsLive(live', key)
    {
      var g :| g in live && g.key == key;
      assert g in live';
    }
  }

  lemma LiveAfterDropping<B>(live: Live<B>, guard: SessionGuard)
    ensures forall connId | ConnIsLive(live, connId) && connId != guard.connId :: ConnIsLive(live - {guard}, connId)
    ensures forall key | KeyIsLive(live, key) && key != guard.key :: KeyIsLive(live - {guard}, key)
  {
    var live' := live - {guard};
    forall connId | ConnIsLive(live, connId) && connId != guard.connId
      ensures ConnIsLive(live', connId)
    {
      var g :| g in live && g.connId == connId;
      assert g in live';
    }
    forall key | KeyIsLive(live, key) && key != guard.key
      ensures KeyIsLive(live', key)
    {
      var g :| g in live && g.key == key;
      assert g in live';
    }
  }

  lemma RegisteredAgrees<B>(t: Tables<B>, live: Live<B>, backend: B, guard: SessionGuard)
    requires Agrees(t, live) && !ConnIsLive(live, guard.connId)
    ensures guard.key in t.keyBackend ==> Registered(t, backend, guard) == t
    ensures guard.key !in t.keyBackend ==> Agrees(Registered(t, backend, guard), live[guard := backend])
  {
    if guard.key !in t.keyBackend {
      LiveAfterAdding(live, guard, backend);
      ConnAdded(t.connBackend, live, guard, backend);
      KeyAdded(t.keyBackend, live, guard, backend);
      hide ConnsAgree, KeysAgree, ConnIsLive, KeyIsLive;
    }
  }

  lemma DroppedAgrees<B>(t: Tables<B>, live: Live<B>, guard: SessionGuard)
    requires Agrees(t, live) && guard in live
    ensures Agrees(Dropped(t, guard), live - {guard})
    ensures guard.key !in Dropped(t, guard).keyBackend
  {
    LiveAfterDropping(live, guard);
    ConnDropped(t.connBackend, live, guard);
    KeyDropped(t.keyBackend, live, guard);
  }

  lemma ConnAdded<B>(connBackend: map<int, B>, live: Live<B>, guard: SessionGuard, backend: B)
    requires ConnsAgree(connBackend, live) && !ConnIsLive(live, guard.connId)
    requires ConnIsLive(live[guard := backend], guard.connId) && forall connId | ConnIsLive(live, connId) :: ConnIsLive(live[guard := backend], connId)
    ensures ConnsAgree(connBackend[guard.connId := backend], live[guard := backend])
  {
    assert forall g <- live :: g.connId != guard.connId;
    hide ConnIsLive;
  }

  lemma KeyAdded<B>(keyBackend: map<SessionKeySecret, B>, live: Live<B>, guard: SessionGuard, backend: B)
    requires KeysAgree(keyBackend, live) && guard.key !in keyBackend
    requires KeyIsLive(live[guard := backend], guard.key) && forall key | KeyIsLive(live, key) :: KeyIsLive(live[guard := backend], key)
    ensures KeysAgree(keyBackend[guard.key := backend], live[guard := backend])
  {
    assert forall g <- live :: g.key != guard.key;
    hide KeyIsLive;
  }

  lemma ConnDropped<B>(connBackend: map<int, B>, live: Live<B>, guard: SessionGuard)
    requires ConnsAgree(connBackend, live) && guard in live
    requires forall connId | ConnIsLive(live, connId) && connId != guard.connId :: ConnIsLive(live - {guard}, connId)
    ensures ConnsAgree(connBackend - {guard.connId}, live - {guard})
  {
    hide ConnIsLive;
  }

  lemma KeyDropped<B>(keyBackend: map<SessionKeySecret, B>, live: Live<B>, guard: SessionGuard)
    requires KeysAgree(keyBackend, live) && guard in live
    requires forall key | KeyIsLive(live, key) && key != guard.key :: KeyIsLive(live - {guard}, key)
    ensures KeysAgree(keyBackend - {guard.key}, live - {guard})
  {
    hide KeyIsLive;
  }

  datatype Event<B> = Register(backend: B, guard: SessionGuard) | Drop(guard: SessionGuard)

  /** The tables and the live guards after some events. */
  datatype History<B> = History(tables: Tables<B>, live: Live<B>)

  function Step<B>(h: History<B>, event: Event<B>): History<B> {
    match event
    case Register(backend, guard) =>
      History(Registered(h.tables, backend, guard), if guard.key in h.tables.keyBackend then h.live else h.live[guard := backend])
    case Drop(guard) => History(Dropped(h.tables, guard), h.live - {guard})
  }

  function Run<B>(events: seq<Event<B>>): History<B> {
    if events == [] then History(Tables(map[], map[]), map[])
    else Step(Run(events[..|events| - 1]), events[|events| - 1])
  }

  /** A connection never registers twice while its guard lives, and only live guards are dropped, once each. */
  predicate Orderly<B>(events: seq<Event<B>>) {
    events == []
    || (Orderly(events[..|events| - 1])
        && var h := Run(events[..|events| - 1]);
           match events[|events| - 1]
           case Register(_, guard) => !ConnIsLive(h.live, guard.connId)
           case Drop(guard) => guard in h.live)
  }

  /** After any orderly history the tables and the live guards agree. */
  lemma {:induction false} OrderlyRunsAgree<B>(events: seq<Event<B>>)
    requires Orderly(events)
    ensures Agrees(Run(events).tables, Run(events).live)
  {
    hide Agrees, ConnIsLive, Registered, Dropped;
    if events == [] {
      EmptyAgrees<B>();
    } else {
      var before := events[..|events| - 1];
      OrderlyRunsAgree(before);
      var h := Run(before);
      match events[|events| - 1] {
        case Register(backend, guard) => RegisteredAgrees(h.tables, h.live, backend, guard);
        case Drop(guard) => DroppedAgrees(h.tables, h.live, guard);
      }
    }
  }

  lemma EmptyAgrees<B>()
    ensures Agrees<B>(Tables(map[], map[]), map[])
  {
  }

  /** A cancel key resolves exactly when its session is live, and then to that session's backend. */
  lemma KeyResolvesIffLive<B>(events: seq<Event<B>>, key: SessionKeySecret)
    requires Orderly(events)
    ensures var h := Run(events);
            && (key in h.tables.keyBackend <==> KeyIsLive(h.live, key))
            && (forall g <- h.live :: g.key == key ==> h.tables.keyBackend[key] == h.live[g])
  {
    hide Run;
    OrderlyRunsAgree(events);
  }

  /** Only live guards are dropped, as ownership of the guard ensures; connection ids may be anything. */
  predicate DropsLiveGuards<B>(events: seq<Event<B>>) {
    forall n: nat | n < |events| && events[n].Drop? :: events[n].guard in Run(events[..n]).live
  }

  /** After every event a key resolves exactly while its session lives, to its own backend. */
  predicate KeysAlwaysAgree<B(==)>(events: seq<Event<B>>) {
    forall n: nat | n <= |events| :: KeysAgree(Run(events[..n]).tables.keyBackend, Run(events[..n]).live)
  }

  /** Every drop still finds its connection on record. */
  predicate DropsFindTheirConnection<B>(events: seq<Event<B>>) {
    forall n: nat | n < |events| && events[n].Drop? :: events[n].guard.connId in Run(events[..n]).tables.connBackend
  }

  /** One event keeps the keys in agreement unless it is a drop whose connection is no longer on record. */
  lemma KeysStep<B>(h: History<B>, event: Event<B>)
    requires KeysAgree(h.tables.keyBackend, h.live) && (event.Drop? ==> event.guard in h.live)
    ensures KeysAgree(Step(h, event).tables.keyBackend, Step(h, event).live) <==> (event.Drop? ==> event.guard.connId in h.tables.connBackend)
  {
    match event {
      case Register(backend, guard) =>
        if guard.key !in h.tables.keyBackend {
          LiveAfterAdding(h.live, guard, backend);
          KeyAdded(h.tables.keyBackend, h.live, guard, backend);
        }
      case Drop(guard) =>
        LiveAfterDropping(h.live, guard);
        if guard.connId in h.tables.connBackend {
          KeyDropped(h.tables.keyBackend, h.live, guard);
        } else {
          assert guard.key in h.tables.keyBackend && !KeyIsLive(h.live - {guard}, guard.key);
        }
    }
  }

  lemma OneEvent<B>(events: seq<Event<B>>, n: nat)
    requires n < |events|
    ensures Run(events[..n + 1]) == Step(Run(events[..n]), events[n])
  {
    assert events[..n + 1][..n] == events[..n];
  }

  lemma {:induction false} KeysAgreeUpTo<B>(events: seq<Event<B>>, n: nat)
    requires n <= |events| && DropsLiveGuards(events) && DropsFindTheirConnection(events)
    ensures KeysAgree(Run(events[..n]).tables.keyBackend, Run(events[..n]).live)
  {
    hide Run, KeysAgree, Step;
    if n == 0 {
      NoKeys<B>();
      assert events[..0] == [];
    } else {
      KeysAgreeUpTo(events, n - 1);
      OneEvent(events, n - 1);
      KeysStep(Run(events[..n - 1]), events[n - 1]);
    }
  }

  lemma NoKeys<B>()
    ensures KeysAgree(Run<B>([]).tables.keyBackend, Run<B>([]).live)
  {
  }

  /**
   * Whatever connection ids sessions registered under, keys resolve exactly to their own live sessions, at every moment
   * of a history, if and only if every drop in it finds its connection on record.
   */
  lemma KeysAgreeIffDropsFindTheirConnection<B>(events: seq<Event<B>>)
    requires DropsLiveGuards(events)
    ensures KeysAlwaysAgree(events) <==> DropsFindTheirConnection(events)
  {
    hide Run, KeysAgree, Step;
    if DropsFindTheirConnection(events) {
      forall n: nat | n <= |events|
        ensures KeysAgree(Run(events[..n]).tables.keyBackend, Run(events[..n]).live)
      {
        KeysAgreeUpTo(events, n);
      }
    }
    if KeysAlwaysAgree(events) {
      forall n: nat | n < |events| && events[n].Drop?
        ensures events[n].guard.connId in Run(events[..n]).tables.connBackend
      {
        OneEvent(events, n);
        KeysStep(Run(events[..n]), events[n]);
      }
    }
  }

  /** Two guards on one connection id: dropping both leaves the second key resolving to a session that is gone. */
  lemma SharedConnIdLeavesAKeyBehind(a: SessionKeySecret, b: SessionKeySecret)
    requires a != b
    ensures var (g, h) := (SessionGuard(7, a), SessionGuard(7, b));
            var end := Run([Register(1, g), Register(2, h), Drop(g), Drop(h)]);
            end.live == map[] && end.tables.keyBackend == map[b := 2]
  {
    var (g, h) := (SessionGuard(7, a), SessionGuard(7, b));
    var events := [Register(1, g), Register(2, h), Drop(g), Drop(h)];
    assert events[..3][..2][..1][..0] == [];
    assert events[..3][..2][..1] == [Register(1, g)] && events[..3][..2] == [Register(1, g), Register(2, h)];
    assert events[..3] == [Register(1, g), Register(2, h), Drop(g)];
    var h1 := Run(events[..3][..2][..1]);
    assert h1 == Step(Run(events[..3][..2][..1][..0]), Register(1, g));
    assert h1 == History(Tables(map[7 := 1], map[a := 1]), map[g := 1]);
    var h2 := Run(events[..3][..2]);
    assert h2 == Step(h1, Register(2, h));
    assert h2.tables == Tables(map[7 := 2], map[a := 1, b := 2]);
    var h3 := Run(events[..3]);
    assert h3 == Step(h2, Drop(g));
    assert h3.tables.connBackend == map[] && h3.tables.keyBackend == map[b := 2];
    assert Run(events) == Step(h3, Drop(h));
  }

  /** The registry object every connection shares. */
  class Registry<B> {
    var connBackend: map<int, B>
    var keyBackend: map<SessionKeySecret, B>
    ghost var live: Live<B>

    ghost predicate Valid()
      reads this
    {
      Agrees(Tables(connBackend, keyBackend), live)
    }

    constructor ()
      ensures Valid() && live == map[]
    {
      connBackend, keyBackend, live := map[], map[], map[];
    }

    method Register(backend: B, connId: int, key: SessionKeySecret) returns (r: Result<SessionGuard, SessionKeySecret>)
      requires Valid() && !ConnIsLive(live, connId)
      modifies this
      ensures Valid()
      ensures Tables(connBackend, keyBackend) == Registered(old(Tables(connBackend, keyBackend)), backend, SessionGuard(connId, key))
      ensures if key in old(keyBackend) then r == Err(key) && live == old(live)
              else r == Ok(SessionGuard(connId, key)) && live == old(live)[SessionGuard(connId, key) := backend]
    {
      hide Agrees, ConnIsLive;
      RegisteredAgrees(Tables(connBackend, keyBackend), live, backend, SessionGuard(connId, key));
      if key in keyBackend {
        return Err(key);
      }
      connBackend := connBackend[connId := backend];
      keyBackend := keyBackend[key := backend];
      live := live[SessionGuard(connId, key) := backend];
      r := Ok(SessionGuard(connId, key));
    }

    function LookupByKey(key: SessionKeySecret): (r: Option<B>)
      requires Valid()
      reads this
      ensures r.Some? <==> KeyIsLive(live, key)
      ensures forall g <- live :: g.key == key ==> r == Some(live[g])
    {
      if key in keyBackend then Some(keyBackend[key]) else None
    }

    /** `SessionGuard::drop`. */
    method Release(guard: SessionGuard)
      requires Valid() && guard in live
      modifies this
      ensures Valid() && live == old(live) - {guard}
      ensures Tables(connBackend, keyBackend) == Dropped(old(Tables(connBackend, keyBackend)), guard)
    {
      hide Agrees;
      DroppedAgrees(Tables(connBackend, keyBackend), live, guard);
      if guard.connId in connBackend {
        connBackend := connBackend - {guard.connId};
        keyBackend := keyBackend - {guard.key};
      }
      live := live - {guard};
    }
  }
}
