/** Where the proof stands in a client-final message, and how much of the message it covers. */
module ProofPosition {
  import opened Prelude
  import opened Text
  import opened Verifiers
  import Base64
  import Utf8
  import S = ScramServer
  import X = ScramExchange

  lemma {:induction false} ValuesComeFromParts(parts: seq<string>, prefix: string)
    ensures forall value <- S.Values(parts, prefix) :: prefix + value in parts
  {
    if parts != [] {
      ValuesComeFromParts(parts[..|parts| - 1], prefix);
    }
  }

  /** A well-formed client-final has more than one attribute, and its proof holds no comma. */
  lemma ProofHoldsNoComma(message: string)
    requires S.FinalAttributes(Split(message, ',')).Some?
    ensures ',' !in S.FinalAttributes(Split(message, ',')).value.2
    ensures "p=" <= Split(message, ',')[|Split(message, ',')| - 1] ==> |Split(message, ',')| > 1
  {
    var parts := Split(message, ',');
    var proof64 := S.FinalAttributes(parts).value.2;
    PartsHoldNoSeparator(message, ',');
    ValuesComeFromParts(parts, "p=");
    assert proof64 in S.Values(parts, "p=");
    assert ',' !in "p=" + proof64;
    assert ("p=" + proof64)[2..] == proof64;
    if "p=" <= parts[|parts| - 1] && |parts| == 1 {
      var value := parts[0][2..];
      assert parts == ["p=" + value];
      X.OneValue("p=", value);
      assert false;
    }
  }

  lemma LastIsTheProof(message: string)
    requires S.FinalAttributes(Split(message, ',')).Some?
    requires var parts := Split(message, ','); "p=" <= parts[|parts| - 1]
    ensures var parts := Split(message, ','); parts[|parts| - 1] == "p=" + S.FinalAttributes(parts).value.2
  {
    var parts := Split(message, ',');
    var last := parts[|parts| - 1];
    assert last == "p=" + last[2..];
    assert S.Values(parts, "p=") == S.Values(parts[..|parts| - 1], "p=") + [last[2..]];
  }

  /**
   * The text an accepted client-final is signed over is all of it but the proof exactly when the proof is the last
   * attribute; otherwise what follows the proof is not covered.
   */
  lemma AllIsCoveredIffProofIsLast(server: S.Server, s: S.Session, message: string)
    requires S.CheckFinal(server, s, message).Ok?
    ensures S.FinalAttributes(Split(message, ',')).Some?
    ensures var parts := Split(message, ',');
            message == S.CheckFinal(server, s, message).value.withoutProof + ",p=" + S.FinalAttributes(parts).value.2
            <==> "p=" <= parts[|parts| - 1]
  {
    hide S.FinalAttributes, S.CheckFinal, Split, RFind;
    var parts := Split(message, ',');
    CoveredUpToTheCut(server, s, message);
    var (last, covered) := (parts[|parts| - 1], S.CheckFinal(server, s, message).value.withoutProof);
    var proof64 := S.FinalAttributes(parts).value.2;
    ProofHoldsNoComma(message);
    SplitLast(message, ',');
    if "p=" <= last {
      LastIsTheProof(message);
      CutAtLast(message, last, proof64);
    }
    if message == covered + ",p=" + proof64 {
      LastAfterComma(message, covered, "p=" + proof64, last);
    }
  }

  lemma CoveredUpToTheCut(server: S.Server, s: S.Session, message: string)
    requires S.CheckFinal(server, s, message).Ok?
    ensures S.FinalAttributes(Split(message, ',')).Some?
    ensures RFind(message, ",p=").Some?
    ensures S.CheckFinal(server, s, message).value.withoutProof == message[..RFind(message, ",p=").value]
  {
    hide S.FinalAttributes, S.ExpectedCbind, Split, RFind;
  }

  /** When the last attribute is the proof, the cut is right before it. */
  lemma CutAtLast(message: string, last: string, proof64: string)
    requires last == "p=" + proof64 && ',' !in proof64
    requires |last| < |message| && message[|message| - |last|..] == last && message[|message| - |last| - 1] == ','
    ensures RFind(message, ",p=").Some?
    ensures message == message[..RFind(message, ",p=").value] + ",p=" + proof64
  {
    hide *;
    var before := message[..|message| - |last| - 1];
    BeforeLast(message, last, proof64);
    RFindAt(before, ",p=", proof64);
  }

  lemma BeforeLast(message: string, last: string, proof64: string)
    requires last == "p=" + proof64
    requires |last| < |message| && message[|message| - |last|..] == last && message[|message| - |last| - 1] == ','
    ensures message == message[..|message| - |last| - 1] + ",p=" + proof64
  {
    var k := |message| - |last|;
    var before := message[..k - 1];
    assert message[..k] == before + [','];
    assert message == message[..k] + last;
    Glue(before, proof64);
  }

  lemma Glue(before: string, proof64: string)
    ensures before + [','] + ("p=" + proof64) == before + ",p=" + proof64
  {
  }

  lemma LastAfterComma(message: string, before: string, after: string, last: string)
    requires message == before + "," + after && ',' !in after
    requires ',' !in last && |last| <= |message| && message[|message| - |last|..] == last
    requires |last| < |message| ==> message[|message| - |last| - 1] == ','
    ensures last == after
  {
    assert message[|before|] == ',';
    assert forall i | |before| < i < |message| :: message[i] == after[i - |before| - 1];
    assert forall i | |message| - |last| <= i < |message| :: message[i] == last[i - (|message| - |last|)];
    assert message[|message| - |after|..] == after;
  }

  /** With the nonce moved behind the proof a client-final is still accepted for checking, and the nonce is not covered. */
  lemma ProofNeedNotBeLast(server: S.Server, s: S.Session, proof: Key)
    requires s.clientNonce <= s.combinedNonce && ',' !in s.combinedNonce
    ensures var covered := "c=" + S.ExpectedCbind(server, s);
            S.CheckFinal(server, s, covered + ",p=" + Base64.Standard64(proof) + ",r=" + s.combinedNonce)
            == Ok(S.FinalFields(covered, proof))
  {
    var (cb, pr, combined) := (S.ExpectedCbind(server, s), Base64.Standard64(proof), s.combinedNonce);
    assert ',' !in cb && ',' !in pr by {
      BindingHasNoDelimiters(server, s);
      FieldsHaveNoDelimiters(proof, 0);
    }
    hide S.ExpectedCbind, S.FinalAttributes, S.CheckFinal, Split, RFind, Base64.Decode, Base64.Encode, NoDelimiters;
    Reordered(cb, pr, combined);
    CutBeforeProof("c=" + cb, pr, combined);
    Base64.EncodeThenDecode(true, proof);
    WellFormed(server, s, "c=" + cb + ",p=" + pr + ",r=" + combined, |"c=" + cb|, pr, proof);
  }

  /**
   * And accepted: over a real verifier, any key that hashes to StoredKey gets in with the nonce behind its proof, and is
   * the key extracted.
   */
  lemma ReorderedIsAccepted(server: S.Server, s: S.Session, key: Key, user: string)
    requires s.state == S.ClientFirstReceived && s.clientNonce <= s.combinedNonce && ',' !in s.combinedNonce
    requires !server.verifier.dummy && server.crypto.sha256(key) == server.verifier.storedKey
    ensures var covered := "c=" + S.ExpectedCbind(server, s);
            var signature := server.crypto.hmac(server.verifier.storedKey, Utf8.Encode(S.AuthMessage(s, covered)));
            var message := covered + ",p=" + Base64.Standard64(Xor(key, signature)) + ",r=" + s.combinedNonce;
            var (closed, r) := S.ClientFinal(server, s, message, user);
            r.Ok? && closed == s.(state := S.Done, extractedClientKey := Some(key))
  {
    hide S.ExpectedCbind, S.CheckFinal, Utf8.Encode, Base64.Encode, Xor;
    var covered := "c=" + S.ExpectedCbind(server, s);
    var signature := server.crypto.hmac(server.verifier.storedKey, Utf8.Encode(S.AuthMessage(s, covered)));
    var done := s.(state := S.Done);
    S.BindingIgnoresState(server, s, S.Done);
    ProofNeedNotBeLast(server, done, Xor(key, signature));
    XorCancels(key, signature);
  }

  lemma CutBeforeProof(covered: string, pr: string, combined: string)
    requires ',' !in pr && ',' !in combined
    ensures var message := covered + ",p=" + pr + ",r=" + combined;
            RFind(message, ",p=") == Some(|covered|) && message[..|covered|] == covered
  {
    hide RFind;
    var tail := pr + ",r=" + combined;
    TailHasOneComma(pr, combined);
    CutAt(covered, tail);
    assert covered + ",p=" + pr + ",r=" + combined == covered + ",p=" + tail;
  }

  lemma TailHasOneComma(pr: string, combined: string)
    requires ',' !in pr && ',' !in combined
    ensures var tail := pr + ",r=" + combined;
            forall i | 0 <= i < |tail| && tail[i] == ',' :: i + 1 < |tail| && tail[i + 1] != 'p'
  {
  }

  lemma WellFormed(server: S.Server, s: S.Session, message: string, at: nat, proof64: string, proof: Key)
    requires S.FinalAttributes(Split(message, ',')) == Some((S.ExpectedCbind(server, s), s.combinedNonce, proof64))
    requires s.clientNonce <= s.combinedNonce && RFind(message, ",p=") == Some(at) && Base64.Decode(true, proof64) == Some(proof)
    ensures S.CheckFinal(server, s, message) == Ok(S.FinalFields(message[..at], proof))
  {
    hide S.ExpectedCbind, S.FinalAttributes, Split, RFind, Base64.Decode;
  }

  lemma BindingHasNoDelimiters(server: S.Server, s: S.Session)
    ensures NoDelimiters(S.ExpectedCbind(server, s))
  {
    forall b: Bytes
      ensures NoDelimiters(Base64.Standard64(b))
    {
      FieldsHaveNoDelimiters(b, 0);
    }
  }

  /** Three attributes out of order are still three attributes. */
  lemma Reordered(cb: string, pr: string, combined: string)
    requires ',' !in cb && ',' !in pr && ',' !in combined
    ensures S.FinalAttributes(Split("c=" + cb + ",p=" + pr + ",r=" + combined, ',')) == Some((cb, combined, pr))
  {
    hide Split, S.FinalAttributes;
    var (a, b, c) := ("c=" + cb, "p=" + pr, "r=" + combined);
    X.SplitThree(a, b, c);
    assert "c=" + cb + ",p=" + pr + ",r=" + combined == a + [','] + (b + [','] + c);
    ThreeReordered(cb, pr, combined);
  }

  lemma ThreeReordered(cb: string, pr: string, combined: string)
    ensures S.FinalAttributes(["c=" + cb, "p=" + pr, "r=" + combined]) == Some((cb, combined, pr))
  {
    var (a, b, c) := ("c=" + cb, "p=" + pr, "r=" + combined);
    X.ValuesOfThree(a, b, c, "c=");
    X.ValuesOfThree(a, b, c, "r=");
    X.ValuesOfThree(a, b, c, "p=");
    hide S.Values;
    X.OneValue("c=", cb);
    X.OneValue("p=", pr);
    X.OneValue("r=", combined);
  }

  /** No `,p=` follows the one the proof stands behind when no attribute after it begins with `p=`. */
  lemma CutAt(covered: string, tail: string)
    requires forall i | 0 <= i < |tail| && tail[i] == ',' :: i + 1 < |tail| && tail[i + 1] != 'p'
    ensures RFind(covered + ",p=" + tail, ",p=") == Some(|covered|)
  {
    var s := covered + ",p=" + tail;
    assert OccursAt(s, ",p=", |covered|);
    var at := RFind(s, ",p=").value;
    assert s[at..at + 3] == ",p=";
    assert s[at] == s[at..at + 3][0] && s[at + 1] == s[at..at + 3][1];
    assert forall i | |covered| + 3 <= i < |s| :: s[i] == tail[i - |covered| - 3];
    assert s[|covered| + 1] == 'p' && s[|covered| + 2] == '=';
    assert forall i | |covered| < i < |s| && s[i] == ',' :: i + 1 < |s| && s[i + 1] != 'p';
  }
}
