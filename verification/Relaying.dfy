/** What of the backend's startup messages reaches the client, and how faithfully. */
module Relaying {
  import opened Prelude
  import opened Packet
  import opened Frames
  import opened BackendLinks

  /** The message a stored notification is replayed as. */
  function Replayed(n: StartupNotification): Frame {
    match n
    case ParameterStatus(name, value) => Frame(TAG_STATUS, CString(name) + CString(value))
    case Notice(body) => Frame(TAG_NOTICE, body)
  }

  function ReplayAll(notifications: seq<StartupNotification>): seq<Frame> {
    if notifications == [] then []
    else ReplayAll(notifications[..|notifications| - 1]) + [Replayed(notifications[|notifications| - 1])]
  }

  /** The messages of the backend a client is meant to see. */
  function Visible(frames: seq<Frame>): seq<Frame> {
    if frames == [] then []
    else
      var last := frames[|frames| - 1];
      Visible(frames[..|frames| - 1]) + if last.tag == TAG_STATUS || last.tag == TAG_NOTICE then [last] else []
  }

  /** A ParameterStatus body that is two C strings and nothing more. */
  predicate ExactStatus(body: Bytes) {
    && ReadCString(body).Ok?
    && ReadCString(ReadCString(body).value.1).Ok?
    && ReadCString(ReadCString(body).value.1).value.1 == []
  }

  lemma {:induction false} ReplayAllConcat(a: seq<StartupNotification>, b: seq<StartupNotification>)
    ensures ReplayAll(a + b) == ReplayAll(a) + ReplayAll(b)
  {
    if b == [] {
      assert a + b == a;
    } else {
      assert (a + b)[..|a + b| - 1] == a + b[..|b| - 1];
      ReplayAllConcat(a, b[..|b| - 1]);
    }
  }

  /** A replayed ParameterStatus is what the backend sent, cut after its second C string. */
  lemma ReplayedStatus(body: Bytes)
    requires ParseStatus(body).Some?
    ensures var (name, value) := ParseStatus(body).value;
            && CString(name) + CString(value) <= body
            && (CString(name) + CString(value) == body <==> ExactStatus(body))
  {
    hide CString, ReadCString;
    ReadCStringInverts(body);
    var (name, rest) := ReadCString(body).value;
    ReadCStringInverts(rest);
    var (value, rest') := ReadCString(rest).value;
    assert body == CString(name) + CString(value) + rest';
  }

  /** Replaying never drops, reorders or retags a message, and only ever shortens a ParameterStatus. */
  lemma {:induction false} ReplayKeepsOrder(frames: seq<Frame>)
    requires forall f <- frames :: f.tag == TAG_STATUS ==> ParseStatus(f.body).Some?
    ensures var (replayed, visible) := (ReplayAll(Relay(frames)), Visible(frames));
            && |replayed| == |visible|
            && forall i | 0 <= i < |visible| ::
                 && replayed[i].tag == visible[i].tag
                 && replayed[i].body <= visible[i].body
                 && (replayed[i].body == visible[i].body <==> visible[i].tag == TAG_NOTICE || ExactStatus(visible[i].body))
  {
    hide ParseStatus, ExactStatus, CString;
    if frames != [] {
      var last := frames[|frames| - 1];
      var before := frames[..|frames| - 1];
      ReplayKeepsOrder(before);
      ReplayAllConcat(Relay(before), Relayed(last));
      ReplayedOne(last);
    }
  }

  lemma ReplayedOne(f: Frame)
    requires f.tag == TAG_STATUS ==> ParseStatus(f.body).Some?
    ensures var replayed := ReplayAll(Relayed(f));
            if f.tag == TAG_STATUS || f.tag == TAG_NOTICE then
              && |replayed| == 1
              && replayed[0].tag == f.tag
              && replayed[0].body <= f.body
              && (replayed[0].body == f.body <==> f.tag == TAG_NOTICE || ExactStatus(f.body))
            else replayed == []
  {
    hide ParseStatus, ExactStatus, CString;
    if f.tag == TAG_STATUS {
      ReplayedStatus(f.body);
    }
    var notifications := Relayed(f);
    if notifications != [] {
      assert notifications[..0] == [];
      assert ReplayAll(notifications) == [] + [Replayed(notifications[0])];
    }
  }

  /**
   * The client sees exactly the backend's ParameterStatus and Notice messages, in order and byte for byte, if and only
   * if each ParameterStatus was two C strings and nothing more.
   */
  lemma ReplayIsExact(frames: seq<Frame>)
    requires EndsReady(frames)
    ensures ReplayAll(Relay(frames)) == Visible(frames)
            <==> forall f <- Visible(frames) :: f.tag == TAG_STATUS ==> ExactStatus(f.body)
  {
    hide ParseStatus, ExactStatus, Relay, ReplayAll, Visible;
    forall f <- frames
      ensures f.tag == TAG_STATUS ==> ParseStatus(f.body).Some?
    {
      var i :| 0 <= i < |frames| && frames[i] == f;
      if i < |frames| - 1 {
        assert Harmless(frames[i]);
      }
    }
    ReplayKeepsOrder(frames);
    VisibleTags(frames);
    var (replayed, visible) := (ReplayAll(Relay(frames)), Visible(frames));
    if forall f <- visible :: f.tag == TAG_STATUS ==> ExactStatus(f.body) {
      forall i | 0 <= i < |visible|
        ensures replayed[i] == visible[i]
      {
        assert visible[i] in visible;
      }
    }
  }

  lemma {:induction false} VisibleTags(frames: seq<Frame>)
    ensures forall f <- Visible(frames) :: f.tag == TAG_STATUS || f.tag == TAG_NOTICE
  {
    if frames != [] {
      VisibleTags(frames[..|frames| - 1]);
    }
  }
}
