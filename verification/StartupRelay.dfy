/** What a client receives of its backend, and where the key it was given leads. */
module StartupRelay {
  import opened Prelude
  import opened Packet
  import opened StartupPacket
  import opened Frames
  import opened BackendLinks
  import opened PgClients
  import opened Relaying
  import opened Trace
  import Conns
  import Dialogues
  import Registry

  lemma ReplayedOnTheWire(n: StartupNotification)
    requires |Replayed(n).body| + 4 < I32_LIMIT
    ensures Wire(Notification(n)) == Print(Replayed(n))
  {
    hide CString, BigEndian;
  }

  lemma {:induction false} NotesOnTheWire(notifications: seq<StartupNotification>)
    requires forall f <- ReplayAll(notifications) :: |f.body| + 4 < I32_LIMIT
    ensures WireAll(Dialogues.Notes(notifications)) == PrintAll(ReplayAll(notifications))
  {
    hide Wire, Print, Replayed;
    if notifications != [] {
      var (before, last) := (notifications[..|notifications| - 1], notifications[|notifications| - 1]);
      var replayed := ReplayAll(notifications);
      assert replayed == ReplayAll(before) + [Replayed(last)];
      assert forall f <- ReplayAll(before) :: f in replayed;
      assert Replayed(last) in replayed;
      NotesOnTheWire(before);
      ReplayedOnTheWire(last);
      assert Dialogues.Notes(notifications)[..|Dialogues.Notes(notifications)| - 1] == Dialogues.Notes(before);
      assert replayed[..|replayed| - 1] == ReplayAll(before);
    }
  }

  lemma {:induction false} VisibleAreFrames(frames: seq<Frame>)
    ensures forall f <- Visible(frames) :: f in frames
  {
    if frames != [] {
      VisibleAreFrames(frames[..|frames| - 1]);
    }
  }

  /**
   * The notification bytes a client receives are, byte for byte and in order, the ParameterStatus and NoticeResponse
   * messages its backend opened with, whenever each ParameterStatus was two C strings and nothing more.
   */
  lemma ClientReceivesWhatTheBackendSent(backend: Backend, link: Link, config: PgConfig, frames: seq<Frame>)
    requires StartedBy(backend, link, config, frames)
    requires forall f <- Visible(frames) :: f.tag == TAG_STATUS ==> ExactStatus(f.body)
    ensures forall f <- Visible(frames) :: |f.body| + 4 < I32_LIMIT
    ensures WireAll(Dialogues.Notes(backend.startupNotifications)) == PrintAll(Visible(frames))
  {
    hide WireAll, PrintAll, Print, ExactStatus, Relay, ReplayAll, Visible, LastKey, EndsReady, Start, Handled, Answers, AskedForSasl, Became;
    VisibleAreFrames(frames);
    ReplayIsExact(frames);
    NotesOnTheWire(backend.startupNotifications);
  }

  /** The body of the BackendKeyData message, echoed by a CancelRequest. */
  function KeyBody(key: Registry.SessionKeySecret): Dialogues.CancelBody
  {
    BigEndian(key.key) + BigEndian(key.secret)
  }

  /** A client that echoes the body of its BackendKeyData in a CancelRequest names the key it was given. */
  lemma KeyDataNamesItsKey(key: Registry.SessionKeySecret)
    ensures Wire(KeyData(key)) == Message(TAG_KEY, KeyBody(key)) && Dialogues.Requested(KeyBody(key)) == key
  {
    hide BigEndian, FromBigEndian;
    var body := BigEndian(key.key) + BigEndian(key.secret);
    assert body[..4] == BigEndian(key.key) && body[4..] == BigEndian(key.secret);
    BigEndianRoundTrip(key.key);
    BigEndianRoundTrip(key.secret);
  }

  /** Two live sessions never hold the same BackendKeyData bytes, and each one's bytes name its own backend. */
  lemma CancelReachesItsSession(registry: Registry.Registry<Backend>, mine: Registry.SessionGuard, other: Registry.SessionGuard)
    requires registry.Valid() && mine in registry.live && other in registry.live
    ensures registry.LookupByKey(Dialogues.Requested(KeyBody(mine.key))) == Some(registry.live[mine])
    ensures KeyBody(mine.key) == KeyBody(other.key) ==> mine == other
  {
    hide Dialogues.Requested, KeyBody, Message, Wire, Registry.Agrees;
    KeyDataNamesItsKey(mine.key);
    KeyDataNamesItsKey(other.key);
    LiveKeysDiffer(registry, mine, other);
  }

  lemma LiveKeysDiffer(registry: Registry.Registry<Backend>, mine: Registry.SessionGuard, other: Registry.SessionGuard)
    requires registry.Valid() && mine in registry.live && other in registry.live
    ensures mine.key == other.key ==> mine == other
  {
    hide Registry.ConnsAgree;
  }

  /** The CancelRequest of a client that was given `key`: length, code, and the body of its BackendKeyData. */
  function CancelPacketOf(key: Registry.SessionKeySecret): Bytes {
    BigEndian(16) + (BigEndian(CANCEL_REQUEST_CODE) + KeyBody(key))
  }

  lemma CancelPacketReadsBack(setup: Dialogues.Setup, key: Registry.SessionKeySecret, rest: Bytes, ssl: bool, gss: bool)
    requires setup.maxStartupBytes >= 16 && setup.maxCapacity >= 12
    ensures Dialogues.NextStep(setup, CancelPacketOf(key) + rest, ssl, gss) == Dialogues.Closed(KeyBody(key))
  {
    hide BigEndian, FromBigEndian, KeyBody;
    var packet := BigEndian(CANCEL_REQUEST_CODE) + KeyBody(key);
    var input := CancelPacketOf(key) + rest;
    assert input[..4] == BigEndian(16) && input[4..16] == packet && input[16..] == rest;
    BigEndianRoundTrip(16);
    assert packet[..4] == BigEndian(CANCEL_REQUEST_CODE) && packet[4..] == KeyBody(key);
    BigEndianRoundTrip(CANCEL_REQUEST_CODE);
  }

  /**
   * A connection that does nothing but echo the key data of a live session has its request forwarded to that session's
   * backend, under the backend's own key, and is closed without a word.
   */
  lemma EchoedKeyIsForwarded(
    conn: Conns.Conn, start: Conns.Moment, mine: Registry.SessionGuard, rest: Bytes, r: Result<bool, ()>)
    requires conn.setup.maxStartupBytes >= 16 && conn.setup.maxCapacity >= 12
    requires conn.Ended(Dialogues.ScriptFrom(conn.setup, CancelPacketOf(mine.key) + rest, false, false, map[], []), start, r)
    requires mine in start.live && start.live[mine].backendKey.Some?
    ensures r == Ok(false) && conn.sent == []
    ensures conn.cancelForwarded == Some((start.live[mine], start.live[mine].backendKey.value))
    ensures conn.registry.live == start.live
  {
    hide Dialogues.NextStep, Dialogues.Requested, KeyBody, CancelPacketOf;
    CancelPacketReadsBack(conn.setup, mine.key, rest, false, false);
    KeyDataNamesItsKey(mine.key);
  }
}
