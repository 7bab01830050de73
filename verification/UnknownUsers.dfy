/** What a failed login tells about whether its user exists. */
module UnknownUsers {
  import opened Prelude
  import opened Verifiers
  import opened ChannelBinding
  import opened Dialogues
  import Base64
  import Decimal
  import S = ScramServer
  import Text
  import Trace
  import Utf8

  /** The same proxy beside two stores. */
  ghost predicate SameButForStore(a: Setup, b: Setup) {
    b == a.(lookups := b.lookups)
  }

  /** The same role with two credentials that are challenged alike. */
  ghost predicate ChallengesAlike(a: S.Server, b: S.Server) {
    b == a.(verifier := b.verifier) && a.verifier.salt == b.verifier.salt && a.verifier.iterations == b.verifier.iterations
  }

  lemma SameFirst(a: S.Server, b: S.Server, s: S.Session, mechanism: string, message: string, user: string, nonce: Bytes)
    requires ChallengesAlike(a, b)
    ensures S.ClientFirst(a, s, mechanism, message, user, nonce) == S.ClientFirst(b, s, mechanism, message, user, nonce)
  {
    hide S.SplitClientFirst, S.ClientNonce, S.Mechanisms;
  }

  lemma SameCheck(a: S.Server, b: S.Server, s: S.Session, message: string)
    requires a.certHash == b.certHash
    ensures S.CheckFinal(a, s, message) == S.CheckFinal(b, s, message)
  {
    hide S.FinalAttributes, Text.RFind;
  }

  lemma SameRefusal(a: S.Server, b: S.Server, s: S.Session, message: string, user: string)
    requires a.certHash == b.certHash && b.verifier.dummy
    requires S.ClientFinal(a, s, message, user).1.Err?
    ensures S.ClientFinal(a, s, message, user) == S.ClientFinal(b, s, message, user)
  {
    hide S.RecoveredKey, S.ServerFinal, S.CheckFinal;
    SameCheck(a, b, s.(state := S.Done), message);
  }

  lemma SameOffer(known: Setup, unknown: Setup, a: S.Server, b: S.Server, user: string, input: Bytes)
    requires SameButForStore(known, unknown) && ChallengesAlike(a, b)
    ensures Offer(known, a, user, input) == Offer(unknown, b, user, input)
  {
    hide S.ClientFirst, S.Mechanisms, SaslResponse, InitialFields;
    SameResponse(known, unknown, input);
    if SaslResponse(known, input).Ok? && InitialFields(SaslResponse(known, input).value.0, S.Mechanisms(a.certHash)).Ok? {
      var (mechanism, message) := InitialFields(SaslResponse(known, input).value.0, S.Mechanisms(a.certHash)).value;
      SameFirst(a, b, S.NEW_SESSION, mechanism, message, user, known.serverNonce);
    }
  }

  lemma SameResponse(known: Setup, unknown: Setup, input: Bytes)
    requires SameButForStore(known, unknown)
    ensures SaslResponse(known, input) == SaslResponse(unknown, input)
  {
  }

  lemma SameProof(known: Setup, unknown: Setup, a: S.Server, b: S.Server, session: S.Session, user: string, input: Bytes)
    requires SameButForStore(known, unknown) && a.certHash == b.certHash && b.verifier.dummy
    requires Prove(known, a, session, user, input).result.Err?
    ensures Prove(known, a, session, user, input) == Prove(unknown, b, session, user, input)
  {
    hide S.ClientFinal, SaslResponse, Utf8.Decode;
    SameResponse(known, unknown, input);
    if SaslResponse(known, input).Ok? && Utf8.Decode(SaslResponse(known, input).value.0).Some? {
      SameRefusal(a, b, session, Utf8.Decode(SaslResponse(known, input).value.0).value, user);
    }
  }

  lemma SameExchange(known: Setup, unknown: Setup, a: S.Server, b: S.Server, user: string, input: Bytes)
    requires SameButForStore(known, unknown) && ChallengesAlike(a, b) && b.verifier.dummy
    requires Exchange(known, a, user, input).result.Err?
    ensures Exchange(known, a, user, input) == Exchange(unknown, b, user, input)
  {
    hide Offer, Prove, SameButForStore;
    SameOffer(known, unknown, a, b, user, input);
    var offered := Offer(known, a, user, input);
    if offered.result.Ok? {
      ProofHasKey(known, a, offered.result.value.session, user, offered.rest);
      SameProof(known, unknown, a, b, offered.result.value.session, user, offered.rest);
    }
  }

  lemma FieldsTell(sa: string, ia: string, sb: string, ib: string)
    requires ',' !in sa && ',' !in ia && ',' !in sb && ',' !in ib
    requires sa + [','] + ia == sb + [','] + ib
    ensures sa == sb && ia == ib
  {
    Text.SplitCons(sa, ',', ia);
    Text.SplitCons(sb, ',', ib);
    Text.SplitPlain(ia, ',');
    Text.SplitPlain(ib, ',');
    hide Text.Split;
    assert [sa] + [ia] == [sb] + [ib];
    assert ([sa] + [ia])[0] == sa && ([sa] + [ia])[1] == ia && ([sb] + [ib])[0] == sb && ([sb] + [ib])[1] == ib;
  }

  lemma TextsTell(a: Verifier, b: Verifier)
    requires Base64.Standard64(a.salt) == Base64.Standard64(b.salt) && Decimal.Print(a.iterations) == Decimal.Print(b.iterations)
    ensures a.salt == b.salt && a.iterations == b.iterations
  {
    hide Base64.Decode, Base64.Encode, Decimal.Parse, Decimal.Print;
    Base64.EncodeThenDecode(true, a.salt);
    Base64.EncodeThenDecode(true, b.salt);
    Decimal.PrintThenParse(a.iterations);
    Decimal.PrintThenParse(b.iterations);
  }

  lemma ChallengeIs(v: Verifier, combined: string)
    ensures S.ServerFirst(v, combined)
         == ("r=" + combined + ",s=") + (Base64.Standard64(v.salt) + [','] + ("i=" + Decimal.Print(v.iterations)))
    ensures ',' !in Base64.Standard64(v.salt) && ',' !in "i=" + Decimal.Print(v.iterations)
  {
    hide Base64.Standard64, Decimal.Print;
    FieldsHaveNoDelimiters(v.salt, v.iterations);
    var (salt, count) := (Base64.Standard64(v.salt), Decimal.Print(v.iterations));
    assert ",i=" == [','] + "i=";
  }

  /** The challenge of an accepted client-first message gives away salt and iteration count, and nothing else does. */
  lemma ChallengeTells(a: Verifier, b: Verifier, combined: string)
    ensures S.ServerFirst(a, combined) == S.ServerFirst(b, combined) <==> a.salt == b.salt && a.iterations == b.iterations
  {
    if S.ServerFirst(a, combined) == S.ServerFirst(b, combined) {
      hide *;
      ChallengeIs(a, combined);
      ChallengeIs(b, combined);
      var (sa, ia) := (Base64.Standard64(a.salt), "i=" + Decimal.Print(a.iterations));
      var (sb, ib) := (Base64.Standard64(b.salt), "i=" + Decimal.Print(b.iterations));
      SamePrefix("r=" + combined + ",s=", sa + [','] + ia, sb + [','] + ib);
      FieldsTell(sa, ia, sb, ib);
      SamePrefix("i=", Decimal.Print(a.iterations), Decimal.Print(b.iterations));
      TextsTell(a, b);
    }
  }

  lemma SamePrefix(prefix: string, a: string, b: string)
    requires prefix + a == prefix + b
    ensures a == b
  {
    assert a == (prefix + a)[|prefix|..] && b == (prefix + b)[|prefix|..];
  }

  /** Until it is challenged a client sees nothing of the credential; the challenge shows salt and iteration count. */
  lemma FirstTells(a: S.Server, b: S.Server, s: S.Session, mechanism: string, message: string, user: string, nonce: Bytes)
    requires b == a.(verifier := b.verifier)
    ensures var (x, y) := (S.ClientFirst(a, s, mechanism, message, user, nonce), S.ClientFirst(b, s, mechanism, message, user, nonce));
            if x.1.Err? then x == y else y.1.Ok? && (x.1 == y.1 <==> ChallengesAlike(a, b))
  {
    hide S.SplitClientFirst, S.ClientNonce, S.Mechanisms, S.ServerFirst;
    if S.ClientFirst(a, s, mechanism, message, user, nonce).1.Ok? {
      var bare := S.SplitClientFirst(message).value.2;
      ChallengeTells(a.verifier, b.verifier, S.ClientNonce(bare) + "-" + Base64.Standard64(nonce));
    }
  }

  lemma OfferTells(known: Setup, unknown: Setup, a: S.Server, b: S.Server, user: string, input: Bytes)
    requires SameButForStore(known, unknown) && b == a.(verifier := b.verifier)
    ensures var (x, y) := (Offer(known, a, user, input), Offer(unknown, b, user, input));
            if x.result.Err? then x == y
            else y.result.Ok? && |x.events| == |y.events| == 2 && (x.events == y.events <==> ChallengesAlike(a, b))
  {
    hide S.ClientFirst, S.Mechanisms, SaslResponse, InitialFields, ChallengesAlike;
    SameResponse(known, unknown, input);
    if SaslResponse(known, input).Ok? && InitialFields(SaslResponse(known, input).value.0, S.Mechanisms(a.certHash)).Ok? {
      var (mechanism, message) := InitialFields(SaslResponse(known, input).value.0, S.Mechanisms(a.certHash)).value;
      FirstTells(a, b, S.NEW_SESSION, mechanism, message, user, known.serverNonce);
      if Offer(known, a, user, input).result.Ok? {
        var (x, y) := (Offer(known, a, user, input), Offer(unknown, b, user, input));
        assert x.events[1] == Trace.SaslContinue(x.result.value.serverFirst) && y.events[1] == Trace.SaslContinue(y.result.value.serverFirst);
        assert x.events[0] == y.events[0];
      }
    }
  }

  /** A challenged dialogue begins with its challenge. */
  lemma BeginsWithOffer(setup: Setup, server: S.Server, user: string, input: Bytes)
    ensures Offer(setup, server, user, input).events <= Exchange(setup, server, user, input).events
  {
    hide Offer, Prove;
  }

  lemma OtherChallenge(known: Setup, unknown: Setup, a: S.Server, b: S.Server, user: string, input: Bytes)
    requires SameButForStore(known, unknown) && b == a.(verifier := b.verifier) && !ChallengesAlike(a, b)
    ensures Exchange(known, a, user, input) == Exchange(unknown, b, user, input) <==> Offer(known, a, user, input).result.Err?
  {
    hide Prove, ChallengesAlike, SameButForStore;
    OfferTells(known, unknown, a, b, user, input);
    BeginsWithOffer(known, a, user, input);
    BeginsWithOffer(unknown, b, user, input);
    hide Offer;
    var (x, y) := (Offer(known, a, user, input), Offer(unknown, b, user, input));
    if x.result.Ok? {
      assert Exchange(known, a, user, input).events[..2] == x.events && Exchange(unknown, b, user, input).events[..2] == y.events;
    }
  }

  /**
   * When a client fails to log in, the whole dialogue is the same for a known and for an unknown user, on every input, if
   * the known user's verifier has the salt and iteration count of the stand-in; and once the client is challenged, only if.
   */
  lemma UnknownUserReadsTheSame(
    known: Setup, unknown: Setup, user: string, certHash: Option<CertHash>, input: Bytes, verifier: Verifier)
    requires user != "" && SameButForStore(known, unknown)
    requires known.lookups(0, user) == Found(verifier) && unknown.lookups(0, user).Unknown?
    requires Authenticate(known, Some(user), certHash, input).result.Err?
    ensures var standIn := Dummy(known.crypto, user, known.clusterNonce);
            var same := Authenticate(known, Some(user), certHash, input) == Authenticate(unknown, Some(user), certHash, input);
            var alike := verifier.salt == standIn.salt && verifier.iterations == standIn.iterations;
            var challenged := Offer(known, S.Server(known.crypto, verifier, certHash), user, input).result.Ok?;
            same <==> alike || !challenged
  {
    hide Exchange, Dummy;
    var standIn := Dummy(known.crypto, user, known.clusterNonce);
    DummyIsDummy(known.crypto, user, known.clusterNonce);
    var (a, b) := (S.Server(known.crypto, verifier, certHash), S.Server(known.crypto, standIn, certHash));
    if ChallengesAlike(a, b) {
      SameExchange(known, unknown, a, b, user, input);
    } else {
      OtherChallenge(known, unknown, a, b, user, input);
    }
  }
}
