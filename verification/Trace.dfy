/** What a client can see on its connection during startup, and in which order. */
module Trace {
  import opened Prelude
  import opened Packet
  import opened BackendLinks
  import Frames
  import Registry
  import Utf8

  /** One reply or message to the client. */
  datatype Event =
    | SslReply(accepted: bool)
    | GssReply
    | Sasl(mechanisms: seq<string>)
    | SaslContinue(text: string)
    | SaslFinal(text: string)
    | AuthenticationOk
    | Notification(notification: StartupNotification)
    | KeyData(key: Registry.SessionKeySecret)
    | Ready(status: byte)
    | Error(code: string, message: string)

  function CStrings(strings: seq<string>): Bytes {
    if strings == [] then [] else CStrings(strings[..|strings| - 1]) + CString(strings[|strings| - 1])
  }

  function AuthBody(code: u32, data: Bytes): Bytes {
    BigEndian(code) + data
  }

  /** The bytes of an event. */
  function Wire(event: Event): Bytes {
    match event
    case SslReply(accepted) => [if accepted then TAG_STATUS else TAG_NOTICE]
    case GssReply => [TAG_NOTICE]
    case Sasl(mechanisms) => Message(TAG_AUTH, AuthBody(10, CStrings(mechanisms) + [0]))
    case SaslContinue(text) => Message(TAG_AUTH, AuthBody(11, Utf8.Encode(text)))
    case SaslFinal(text) => Message(TAG_AUTH, AuthBody(12, Utf8.Encode(text)))
    case AuthenticationOk => Message(TAG_AUTH, AuthBody(0, []))
    case Notification(ParameterStatus(name, value)) => Message(TAG_STATUS, CString(name) + CString(value))
    case Notification(Notice(body)) => Message(TAG_NOTICE, body)
    case KeyData(key) => Message(TAG_KEY, BigEndian(key.key) + BigEndian(key.secret))
    case Ready(status) => Message(TAG_READY, [status])
    case Error(code, message) => Message(TAG_ERROR, Frames.ErrorBody("FATAL", code, message))
  }

  function WireAll(events: seq<Event>): Bytes {
    if events == [] then [] else WireAll(events[..|events| - 1]) + Wire(events[|events| - 1])
  }

  /** Where in the startup dialogue a client stands. */
  datatype Phase =
    | Negotiating(ssl: bool, gss: bool)
    | Offered
    | Challenged
    | Verified
    | Authenticated
    | Replaying
    | KeySent
    | Ended

  /** The event grammar: `None` when the event may not follow. */
  function Next(phase: Phase, event: Event): Option<Phase> {
    match (phase, event)
    case (Negotiating(ssl, gss), SslReply(_)) => if ssl then None else Some(Negotiating(true, gss))
    case (Negotiating(ssl, gss), GssReply) => if gss then None else Some(Negotiating(ssl, true))
    case (Negotiating(_, _), Sasl(_)) => Some(Offered)
    case (Negotiating(_, _), Error(_, _)) => Some(Ended)
    case (Offered, SaslContinue(_)) => Some(Challenged)
    case (Offered, Error(_, _)) => Some(Ended)
    case (Challenged, SaslFinal(_)) => Some(Verified)
    case (Challenged, Error(_, _)) => Some(Ended)
    case (Verified, AuthenticationOk) => Some(Authenticated)
    case (Authenticated, Notification(_)) => Some(Replaying)
    case (Authenticated, KeyData(_)) => Some(KeySent)
    case (Authenticated, Error(_, _)) => Some(Ended)
    case (Replaying, Notification(_)) => Some(Replaying)
    case (Replaying, KeyData(_)) => Some(KeySent)
    case (KeySent, Ready(_)) => Some(Ended)
    case _ => None
  }

  /** The phase a sequence of events leads to, when every event may follow the ones before it. */
  function PhaseOf(events: seq<Event>): Option<Phase> {
    if events == [] then Some(Negotiating(false, false))
    else
      match PhaseOf(events[..|events| - 1])
      case None => None
      case Some(phase) => Next(phase, events[|events| - 1])
  }

  lemma Extend(events: seq<Event>, event: Event)
    ensures WireAll(events + [event]) == WireAll(events) + Wire(event)
    ensures PhaseOf(events).Some? ==> PhaseOf(events + [event]) == Next(PhaseOf(events).value, event)
  {
    assert (events + [event])[..|events|] == events;
  }

  lemma {:induction false} PrefixAccepted(events: seq<Event>, n: nat)
    requires PhaseOf(events).Some? && n <= |events|
    ensures PhaseOf(events[..n]).Some?
    decreases |events|
  {
    if n == |events| {
      assert events[..n] == events;
    } else {
      PrefixAccepted(events[..|events| - 1], n);
      assert events[..|events| - 1][..n] == events[..n];
    }
  }

  /** No reply yet, one SSL or GSS reply, or one of each in either order. */
  predicate Opening(events: seq<Event>) {
    || events == []
    || (|events| == 1 && (events[0].SslReply? || events[0].GssReply?))
    || (|events| == 2 && events[0].SslReply? && events[1].GssReply?)
    || (|events| == 2 && events[0].GssReply? && events[1].SslReply?)
  }

  /** Event number `i` of a dialogue that relays `k` notifications. */
  predicate Expected(event: Event, i: nat, k: nat) {
    if i == 0 then event.Sasl?
    else if i == 1 then event.SaslContinue?
    else if i == 2 then event.SaslFinal?
    else if i == 3 then event.AuthenticationOk?
    else if i < 4 + k then event.Notification?
    else if i == 4 + k then event.KeyData?
    else i == 5 + k && event.Ready?
  }

  /** A prefix of SASL, SASLContinue, SASLFinal, AuthenticationOk, `k` notifications, BackendKeyData, ReadyForQuery. */
  predicate Dialogue(events: seq<Event>, k: nat) {
    (k > 0 ==> |events| >= 4 + k) && forall i | 0 <= i < |events| :: Expected(events[i], i, k)
  }

  /** A dialogue cut short by an error: only before SASL, after SASL or SASLContinue, or right after AuthenticationOk. */
  predicate Refused(events: seq<Event>) {
    && events != []
    && events[|events| - 1].Error?
    && Dialogue(events[..|events| - 1], 0)
    && |events| - 1 in {0, 1, 2, 4}
  }

  /** How far a dialogue of `k` notifications has come in each phase. */
  predicate Reached(phase: Phase, dialogue: seq<Event>, k: nat) {
    match phase
    case Negotiating(_, _) => dialogue == []
    case Offered => |dialogue| == 1 && k == 0
    case Challenged => |dialogue| == 2 && k == 0
    case Verified => |dialogue| == 3 && k == 0
    case Authenticated => |dialogue| == 4 && k == 0
    case Replaying => |dialogue| == 4 + k
    case KeySent => |dialogue| == 5 + k
    case Ended => |dialogue| == 6 + k
  }

  /** Whether SSL or GSS has been answered in an opening. */
  predicate Answered(opening: seq<Event>, ssl: bool, gss: bool) {
    && (ssl <==> |opening| == 2 || (|opening| == 1 && opening[0].SslReply?))
    && (gss <==> |opening| == 2 || (|opening| == 1 && opening[0].GssReply?))
  }

  /** The events of a phase: an opening, then a dialogue, possibly cut short. */
  predicate Shaped(opening: seq<Event>, rest: seq<Event>, phase: Phase, k: nat) {
    && Opening(opening)
    && (phase.Negotiating? ==> Answered(opening, phase.ssl, phase.gss))
    && ((Dialogue(rest, k) && Reached(phase, rest, k)) || (phase.Ended? && Refused(rest)))
  }

  lemma ReplyShaped(opening: seq<Event>, phase: Phase, k: nat, last: Event)
    requires Shaped(opening, [], phase, k) && phase.Negotiating? && Next(phase, last).Some? && (last.SslReply? || last.GssReply?)
    ensures Shaped(opening + [last], [], Next(phase, last).value, k)
  {
  }

  lemma DialogueShaped(opening: seq<Event>, rest: seq<Event>, phase: Phase, k: nat, last: Event)
    requires Shaped(opening, rest, phase, k) && Next(phase, last).Some?
    requires !last.SslReply? && !last.GssReply?
    ensures Shaped(opening, rest + [last], Next(phase, last).value, if last.Notification? then k + 1 else if rest == [] then 0 else k)
  {
    assert Dialogue(rest, k) && Reached(phase, rest, k);
    if last.Error? {
      assert (rest + [last])[..|rest|] == rest;
    }
  }

  /**
   * Every accepted sequence is an opening followed by a dialogue, or by a dialogue cut short by one final error that
   * never follows a notification.
   */
  lemma {:induction false} Shape(events: seq<Event>) returns (n: nat, k: nat)
    requires PhaseOf(events).Some?
    ensures n <= |events| && Shaped(events[..n], events[n..], PhaseOf(events).value, k)
  {
    hide Wire, Shaped;
    n, k := 0, 0;
    if events == [] {
      NothingShaped();
    } else {
      var m := |events| - 1;
      var before, last := events[..m], events[m];
      n, k := Shape(before);
      var phase := PhaseOf(before).value;
      if last.SslReply? || last.GssReply? {
        RepliesComeFirst(before, n, phase, k);
        ReplyShaped(before, phase, k, last);
        n := m + 1;
        assert events[..n] == before + [last] && events[n..] == [];
      } else {
        DialogueShaped(before[..n], before[n..], phase, k, last);
        assert events[..n] == before[..n] && events[n..] == before[n..] + [last];
        k := if last.Notification? then k + 1 else if before[n..] == [] then 0 else k;
      }
    }
  }

  lemma NothingShaped()
    ensures Shaped([], [], Negotiating(false, false), 0)
  {
  }

  lemma RepliesComeFirst(before: seq<Event>, n: nat, phase: Phase, k: nat)
    requires n <= |before| && Shaped(before[..n], before[n..], phase, k)
    ensures phase.Negotiating? ==> before[n..] == [] && before[..n] == before
  {
  }

  /** At most one SSL and one GSS reply, and an error only as the last event, never after a notification. */
  lemma AtMostOnce(events: seq<Event>, i: nat, j: nat)
    requires PhaseOf(events).Some? && i < j < |events|
    ensures !(events[i].SslReply? && events[j].SslReply?) && !(events[i].GssReply? && events[j].GssReply?)
    ensures !events[i].Error?
    ensures !(events[i].Notification? && events[j].Error?)
  {
    hide PhaseOf, Wire;
    var n, k := Shape(events);
    Position(events[..n], events[n..], PhaseOf(events).value, k, i, j);
    assert events == events[..n] + events[n..];
  }

  lemma Position(opening: seq<Event>, rest: seq<Event>, phase: Phase, k: nat, i: nat, j: nat)
    requires Shaped(opening, rest, phase, k) && i < j < |opening| + |rest|
    ensures var events := opening + rest;
            && !(events[i].SslReply? && events[j].SslReply?) && !(events[i].GssReply? && events[j].GssReply?)
            && !events[i].Error? && !(events[i].Notification? && events[j].Error?)
  {
    var n := |opening|;
    if Refused(rest) {
      var dialogue := rest[..|rest| - 1];
      assert forall x | 0 <= x < |dialogue| :: rest[x] == dialogue[x] && Expected(dialogue[x], x, 0);
    } else {
      assert forall x | 0 <= x < |rest| :: Expected(rest[x], x, k);
    }
  }
}
