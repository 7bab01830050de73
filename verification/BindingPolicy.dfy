/** What the channel-binding policy of the backend link guarantees, and where it stops. */
module BindingPolicy {
  import opened Prelude
  import opened Packet
  import opened Frames
  import opened BackendLinks
  import opened PgClients
  import opened HonestPeers
  import C = ScramClients
  import Utf8

  /** A request that is answered under `-PLUS`, with the certificate the link has seen. */
  ghost predicate IsBound(link: Link, config: PgConfig, f: Frame) {
    && IsAuth(f, AUTH_SASL)
    && SelectMechanism(config.channelBinding, link.peerCertHash.Some?, f.body[4..]) == Ok(ScramSha256Plus)
    && link.peerCertHash.Some?
    && forall nonce ::
         var client := SaslClient(link, config, nonce, ScramSha256Plus);
         client.mechanism.Sha256Plus? && client.channelBinding == Some(link.peerCertHash.value.CbindInput())
  }

  lemma RequiredIsBound(link: Link, config: PgConfig, f: Frame)
    requires config.channelBinding.Require? && IsAuth(f, AUTH_SASL)
    requires SelectMechanism(config.channelBinding, link.peerCertHash.Some?, f.body[4..]).Ok?
    ensures IsBound(link, config, f)
  {
    hide IsAuth, Offers;
  }

  /** Under `Require` every exchange of a handshake ran under `-PLUS` with the link's certificate. */
  lemma {:induction false} HandledIsBound(link: Link, config: PgConfig, frames: seq<Frame>, exchanges: nat)
    requires config.channelBinding.Require? && Handled(link, config, frames, exchanges)
    ensures forall f <- frames :: IsAuth(f, AUTH_SASL) ==> IsBound(link, config, f)
    decreases |frames|
  {
    hide FromBigEndian, IsBound, SaslClient, SelectMechanism, SaslRun;
    if frames != [] {
      var f := frames[0];
      if IsAuth(f, AUTH_SASL) {
        var (sasl, more) := (frames[1..3], frames[3..]);
        assert frames == [f] + sasl + more;
        SelectsSomething(link, config, link.nonces(exchanges), f.body[4..], sasl);
        RequiredIsBound(link, config, f);
        SaslFramesAreQuiet(link, config, link.nonces(exchanges), f.body[4..], sasl, None);
        HandledIsBound(link, config, more, exchanges + 1);
      } else {
        assert frames == [f] + frames[1..];
        HandledIsBound(link, config, frames[1..], exchanges);
      }
    }
  }

  /** Every request of a handshake was answered under a mechanism that was selected for it. */
  lemma {:induction false} HandledIsSelected(link: Link, config: PgConfig, frames: seq<Frame>, exchanges: nat)
    requires Handled(link, config, frames, exchanges)
    ensures forall f <- frames :: IsAuth(f, AUTH_SASL) ==>
              SelectMechanism(config.channelBinding, link.peerCertHash.Some?, f.body[4..]).Ok?
    decreases |frames|
  {
    hide FromBigEndian, SaslClient, SelectMechanism, SaslRun;
    if frames != [] {
      var f := frames[0];
      if IsAuth(f, AUTH_SASL) {
        var (sasl, more) := (frames[1..3], frames[3..]);
        assert frames == [f] + sasl + more;
        SelectsSomething(link, config, link.nonces(exchanges), f.body[4..], sasl);
        SaslFramesAreQuiet(link, config, link.nonces(exchanges), f.body[4..], sasl, None);
        HandledIsSelected(link, config, more, exchanges + 1);
      } else {
        assert frames == [f] + frames[1..];
        HandledIsSelected(link, config, frames[1..], exchanges);
      }
    }
  }

  lemma BoundIffPossible(link: Link, config: PgConfig, f: Frame)
    requires IsAuth(f, AUTH_SASL) && SelectMechanism(config.channelBinding, link.peerCertHash.Some?, f.body[4..]).Ok?
    ensures IsBound(link, config, f)
            <==> Offers(f.body[4..], ScramSha256Plus) && link.peerCertHash.Some? && !config.channelBinding.Disable?
  {
    hide Offers, SelectMechanism, FromBigEndian;
    SelectionIsExact(config.channelBinding, link.peerCertHash.Some?, f.body[4..]);
  }

  /**
   * Under the default mode every exchange of a started session is bound to the certificate its link has seen exactly when
   * the backend offered `-PLUS` in that request and the link has seen one; otherwise it is plain. Disabled, none is bound.
   */
  lemma PreferBindsIffOffered(backend: Backend, link: Link, config: PgConfig, frames: seq<Frame>)
    requires StartedBy(backend, link, config, frames) && !config.channelBinding.Require?
    ensures forall f <- frames :: IsAuth(f, AUTH_SASL) ==>
              if config.channelBinding.Prefer? && Offers(f.body[4..], ScramSha256Plus) && link.peerCertHash.Some? then IsBound(link, config, f)
              else SelectMechanism(config.channelBinding, link.peerCertHash.Some?, f.body[4..]) == Ok(ScramSha256)
  {
    hide Start, Became, AllShort, PrintAll, EndsReady, Relay, LastKey, Handled, Answers, StartupMessage, SaslClient, SelectMechanism, Offers,
      FromBigEndian, IsBound, AskedForSasl, HasSecret;
    HandledIsSelected(link, config, frames, 0);
    forall f <- frames | IsAuth(f, AUTH_SASL)
      ensures if config.channelBinding.Prefer? && Offers(f.body[4..], ScramSha256Plus) && link.peerCertHash.Some? then IsBound(link, config, f)
              else SelectMechanism(config.channelBinding, link.peerCertHash.Some?, f.body[4..]) == Ok(ScramSha256)
    {
      BoundIffPossible(link, config, f);
      SelectionIsExact(config.channelBinding, link.peerCertHash.Some?, f.body[4..]);
    }
  }

  /** The same as an equivalence. */
  lemma BindsIffOffered(backend: Backend, link: Link, config: PgConfig, frames: seq<Frame>)
    requires StartedBy(backend, link, config, frames)
    ensures forall f <- frames :: IsAuth(f, AUTH_SASL) ==>
              (IsBound(link, config, f)
               <==> Offers(f.body[4..], ScramSha256Plus) && link.peerCertHash.Some? && !config.channelBinding.Disable?)
  {
    hide Start, Became, AllShort, PrintAll, EndsReady, Relay, LastKey, Handled, Answers, StartupMessage, SaslClient, SelectMechanism, Offers,
      FromBigEndian, IsBound, AskedForSasl, HasSecret;
    HandledIsSelected(link, config, frames, 0);
    forall f <- frames | IsAuth(f, AUTH_SASL)
      ensures IsBound(link, config, f)
              <==> Offers(f.body[4..], ScramSha256Plus) && link.peerCertHash.Some? && !config.channelBinding.Disable?
    {
      BoundIffPossible(link, config, f);
    }
  }

  /** What a list of names, each before a NUL, with a NUL at the end, offers: the mechanisms named in it. */
  lemma {:induction false} OffersMeans(names: seq<string>, mechanism: SaslMechanism)
    requires forall name <- names :: '\0' !in name
    ensures Offers(Listed(names) + [0], mechanism) <==> mechanism.Name() in names
  {
    hide Utf8.Encode, SplitNul;
    NamesSplit(names);
    if mechanism.Name() in names {
      var i :| 0 <= i < |names| && names[i] == mechanism.Name();
      assert SplitNul(Listed(names) + [0])[i] == Utf8.Encode(names[i]);
    }
    if Offers(Listed(names) + [0], mechanism) {
      NotEmpty(mechanism);
      var i :| 0 <= i < |names| + 2 && SplitNul(Listed(names) + [0])[i] == Utf8.Encode(mechanism.Name());
      assert i < |names|;
      Utf8.EncodeThenDecode(names[i]);
      Utf8.EncodeThenDecode(mechanism.Name());
    }
  }

  lemma NotEmpty(mechanism: SaslMechanism)
    ensures Utf8.Encode(mechanism.Name()) != []
  {
    Utf8.EncodeThenDecode(mechanism.Name());
    hide Utf8.Encode;
  }

  function Listed(names: seq<string>): Bytes {
    if names == [] then [] else Utf8.Encode(names[0]) + [0] + Listed(names[1..])
  }

  lemma {:induction false} PartSplits(part: Bytes, rest: Bytes)
    requires 0 !in part
    ensures SplitNul(part + [0] + rest) == [part] + SplitNul(rest)
  {
    var b := part + [0] + rest;
    if part == [] {
      assert b[1..] == rest;
    } else {
      assert b[1..] == part[1..] + [0] + rest;
      PartSplits(part[1..], rest);
      assert part == [part[0]] + part[1..];
    }
  }

  lemma {:induction false} NamesSplit(names: seq<string>)
    requires forall name <- names :: '\0' !in name
    ensures var parts := SplitNul(Listed(names) + [0]);
            && |parts| == |names| + 2 && parts[|names|] == [] && parts[|names| + 1] == []
            && forall i | 0 <= i < |names| :: parts[i] == Utf8.Encode(names[i])
    decreases |names|
  {
    hide Utf8.Encode;
    if names == [] {
      assert [0][1..] == [] && Listed(names) + [0] == [0];
    } else {
      var rest := Listed(names[1..]) + [0];
      assert Listed(names) + [0] == Utf8.Encode(names[0]) + [0] + rest;
      Utf8.EncodeNul(names[0]);
      hide SplitNul;
      PartSplits(Utf8.Encode(names[0]), rest);
      NamesSplit(names[1..]);
    }
  }

  lemma SelectsSomething(link: Link, config: PgConfig, nonce: C.Nonce, body: Bytes, frames: seq<Frame>)
    requires SaslRun(link, config, nonce, body, frames)
    ensures SelectMechanism(config.channelBinding, link.peerCertHash.Some?, body).Ok?
  {
    hide SelectMechanism, SaslClient;
  }

  /**
   * A session under `Require` is bound to the certificate its link has seen exactly when its backend asked for SASL at
   * all, and with a key or password at hand exactly then its backend was verified.
   */
  lemma RequireBindsIffAsked(backend: Backend, link: Link, config: PgConfig, frames: seq<Frame>)
    requires StartedBy(backend, link, config, frames) && config.channelBinding.Require?
    ensures forall f <- frames :: IsAuth(f, AUTH_SASL) ==> IsBound(link, config, f)
    ensures (exists f <- frames :: IsBound(link, config, f)) <==> AskedForSasl(frames)
    ensures HasSecret(config) ==> (backend.serverSignatureVerified <==> exists f <- frames :: IsBound(link, config, f))
  {
    hide Start, Became, AllShort, PrintAll, EndsReady, Relay, LastKey, Handled, Answers, StartupMessage, IsAuth, SaslClient, SelectMechanism;
    HandledIsBound(link, config, frames, 0);
  }

  /**
   * A backend that never asks: AuthenticationOk and ReadyForQuery bring any link up, unverified and with nothing said but
   * the startup message, whatever the policy and whatever keys are at hand.
   */
  lemma NobodyAsked(link: Link, config: PgConfig)
    requires link.writes > 0 && link.maxCapacity >= 4
    requires link.input == PrintAll([AuthFrame(0, []), Frame(TAG_READY, [IDLE])])
    ensures Start(link, config).Ok? && !Start(link, config).value.verified
    ensures Start(link, config).value.output == StartupMessage(config)
  {
    hide Handshake, StartupMessage, PrintAll;
    OkThenReady(link, config, LinkState(link.input, StartupMessage(config), link.writes - 1, 0, [], None, None, false));
  }

  lemma OkThenReady(link: Link, config: PgConfig, st: LinkState)
    requires link.maxCapacity >= 4 && st.input == PrintAll([AuthFrame(0, []), Frame(TAG_READY, [IDLE])])
    ensures Handshake(link, config, st).Ok?
    ensures Handshake(link, config, st).value.verified == st.verified && Handshake(link, config, st).value.output == st.output
  {
    hide PrintAll, Relay, IsAuth, AuthFrame, Handshake;
    var frames := [AuthFrame(0, []), Frame(TAG_READY, [IDLE])];
    IsAuthFrame(0, []);
    IsAuthTag(0, []);
    assert Harmless(frames[0]);
    assert st.input == PrintAll(frames) + [];
    QuietHandshake(link, config, st, frames, []);
  }

  /** A message that asks for the password itself, or for its salted digest. */
  predicate AsksForPassword(f: Frame) {
    IsAuth(f, 3) || IsAuth(f, 5)
  }

  predicate PasswordAsked(frames: seq<Frame>) {
    exists f <- frames :: AsksForPassword(f)
  }

  /** What the client role writes for the SASL requests alone. */
  function SaslAnswers(link: Link, config: PgConfig, frames: seq<Frame>, exchanges: nat): Bytes
    requires Handled(link, config, frames, exchanges)
    decreases |frames|
  {
    if frames == [] then []
    else if IsAuth(frames[0], AUTH_SASL) then
      SaslAnswer(link, config, link.nonces(exchanges), frames[0].body[4..], frames[1..3])
      + SaslAnswers(link, config, frames[3..], exchanges + 1)
    else SaslAnswers(link, config, frames[1..], exchanges)
  }

  lemma SaslAsksForNoPassword(link: Link, config: PgConfig, nonce: C.Nonce, body: Bytes, f: Frame, frames: seq<Frame>)
    requires IsAuth(f, AUTH_SASL) && SaslRun(link, config, nonce, body, frames)
    ensures !AsksForPassword(f) && |frames| == 2 && !PasswordAsked(frames)
  {
    hide SaslClient, SelectMechanism, C.ClientFinal, C.VerifyServerFinal;
  }

  lemma PlainAnswersPassword(link: Link, config: PgConfig, f: Frame)
    ensures PlainAnswer(link, config, f) == [] <==> config.password.None? || !AsksForPassword(f)
  {
    hide FromBigEndian, BigEndian;
  }

  lemma AskedFirst(f: Frame, asked: seq<Frame>, more: seq<Frame>)
    ensures PasswordAsked([f] + asked + more) <==> AsksForPassword(f) || PasswordAsked(asked) || PasswordAsked(more)
  {
    hide AsksForPassword;
    var frames := [f] + asked + more;
    assert f in frames;
    assert forall g <- asked :: g in frames;
    assert forall g <- more :: g in frames;
    assert forall g <- frames :: g == f || g in asked || g in more;
  }

  /** Beyond its SASL answers the client role writes something exactly when it is asked for a password that it holds. */
  lemma {:induction false} AnswersBeyondSasl(link: Link, config: PgConfig, frames: seq<Frame>, exchanges: nat)
    requires Handled(link, config, frames, exchanges)
    ensures var (all, sasl) := (Answers(link, config, frames, exchanges), SaslAnswers(link, config, frames, exchanges));
            && |all| >= |sasl|
            && (if config.password.Some? && PasswordAsked(frames) then |all| > |sasl| else all == sasl)
    decreases |frames|
  {
    hide IsAuth, SaslRun, SaslAnswer, PlainAnswer, AsksForPassword, PasswordAsked;
    if frames == [] {
      NothingAsked();
    } else {
      var f := frames[0];
      if IsAuth(f, AUTH_SASL) {
        var (asked, more) := (frames[1..3], frames[3..]);
        assert frames == [f] + asked + more;
        AskedFirst(f, asked, more);
        AsksForSasl(link, config, f, asked, exchanges);
        AnswersBeyondSasl(link, config, more, exchanges + 1);
      } else {
        assert frames == [f] + [] + frames[1..];
        AskedFirst(f, [], frames[1..]);
        NothingAsked();
        PlainAnswersPassword(link, config, f);
        AnswersBeyondSasl(link, config, frames[1..], exchanges);
      }
    }
  }

  lemma NothingAsked()
    ensures !PasswordAsked([])
  {
  }

  /** The cleartext answer stands in what was written, wherever it was asked for. */
  lemma {:induction false} CleartextIsWritten(link: Link, config: PgConfig, frames: seq<Frame>, exchanges: nat, i: nat)
    returns (before: Bytes, after: Bytes)
    requires Handled(link, config, frames, exchanges) && config.password.Some?
    requires i < |frames| && IsAuth(frames[i], 3)
    ensures Answers(link, config, frames, exchanges) == before + Message(TAG_PASSWORD, config.password.value + [0]) + after
    decreases |frames|
  {
    hide SaslRun, SaslAnswer, Message, FromBigEndian;
    var f := frames[0];
    if i == 0 {
      before, after := [], Answers(link, config, frames[1..], exchanges);
    } else if IsAuth(f, AUTH_SASL) {
      AsksForSasl(link, config, f, frames[1..3], exchanges);
      assert frames[1] in frames[1..3] && frames[2] in frames[1..3];
      var sasl := SaslAnswer(link, config, link.nonces(exchanges), f.body[4..], frames[1..3]);
      before, after := CleartextIsWritten(link, config, frames[3..], exchanges + 1, i - 3);
      before := sasl + before;
    } else {
      before, after := CleartextIsWritten(link, config, frames[1..], exchanges, i - 1);
      before := PlainAnswer(link, config, f) + before;
    }
  }

  lemma AsksForSasl(link: Link, config: PgConfig, f: Frame, asked: seq<Frame>, exchanges: nat)
    requires IsAuth(f, AUTH_SASL) && SaslRun(link, config, link.nonces(exchanges), f.body[4..], asked)
    ensures !AsksForPassword(f) && !PasswordAsked(asked)
  {
    SaslAsksForNoPassword(link, config, link.nonces(exchanges), f.body[4..], f, asked);
  }

  /**
   * When a password leaves, whatever the mode of channel binding: a started link has written more than its startup message
   * and its SASL answers exactly when it holds a password and its backend asked for it, in clear text or as a digest; and
   * the password itself is in what was written wherever clear text was asked for.
   */
  lemma PasswordLeavesIffAsked(backend: Backend, link: Link, config: PgConfig, frames: seq<Frame>)
    requires StartedBy(backend, link, config, frames)
    ensures Handled(link, config, frames, 0)
    ensures backend.output == StartupMessage(config) + SaslAnswers(link, config, frames, 0)
            <==> config.password.None? || !PasswordAsked(frames)
    ensures config.password.Some? && (exists f <- frames :: IsAuth(f, 3)) ==>
              exists before, after ::
                backend.output == StartupMessage(config) + before + Message(TAG_PASSWORD, config.password.value + [0]) + after
  {
    hide Start, Became, AllShort, PrintAll, EndsReady, Relay, LastKey, Handled, Answers, SaslAnswers, StartupMessage, IsAuth, AskedForSasl,
      PasswordAsked, Message;
    AnswersBeyondSasl(link, config, frames, 0);
    if config.password.Some? && exists f <- frames :: IsAuth(f, 3) {
      var i: nat :| i < |frames| && IsAuth(frames[i], 3);
      var before, after := CleartextIsWritten(link, config, frames, 0, i);
      var start, sent := StartupMessage(config), Message(TAG_PASSWORD, config.password.value + [0]);
      assert start + (before + sent + after) == start + before + sent + after;
    }
  }

  /** So under `Require` too: a backend that asks for clear text is told the password over a link that is not bound. */
  lemma CleartextIsTold(link: Link, config: PgConfig)
    requires link.writes >= 2 && link.maxCapacity >= 4 && config.password.Some?
    requires link.input == Print(AuthFrame(3, [])) + PrintAll([AuthFrame(0, []), Frame(TAG_READY, [IDLE])])
    ensures Start(link, config).Ok? && !Start(link, config).value.verified
    ensures Start(link, config).value.output == StartupMessage(config) + Message(TAG_PASSWORD, config.password.value + [0])
  {
    hide PrintAll, Print, AuthFrame, StartupMessage, Message, Read, IsAuth, OneMessage;
    var rest := PrintAll([AuthFrame(0, []), Frame(TAG_READY, [IDLE])]);
    var st := LinkState(link.input, StartupMessage(config), link.writes - 1, 0, [], None, None, false);
    var read := st.(input := rest);
    ShortPrints(link, AuthFrame(3, []), rest);
    IsAuthFrame(3, []);
    IsAuthTag(3, []);
    ClearTextIsSent(link, config, read, AuthFrame(3, []));
    OkThenReady(link, config, OneMessage(link, config, read, AuthFrame(3, [])).value);
  }

  lemma ClearTextIsSent(link: Link, config: PgConfig, st: LinkState, f: Frame)
    requires IsAuth(f, 3) && config.password.Some? && st.writesLeft > 0
    ensures OneMessage(link, config, st, f)
         == Ok(st.(output := st.output + Message(TAG_PASSWORD, config.password.value + [0]), writesLeft := st.writesLeft - 1))
  {
    hide SaslExchange, FromBigEndian, Message;
  }
}
