/** How the frontend's badge classification treats the backend's fixed feedback messages. */
module MessageClasses {

  import opened Wrappers
  import opened Rules
  import opened Replies
  import opened JsText
  import opened FeedbackBadges

  /** A message that starts with "Good" is classified good. */
  lemma StartsWithGoodIsGood(msg: string)
    requires |msg| >= 4 && msg[..4] == "Good"
    ensures IsGood(msg)
  {
    IsGoodIff(msg);
    assert GoodAt(msg, 0);
  }

  /** Every route's fallback message is classified good. */
  lemma FallbackIsGood(route: Route)
    ensures IsGood(Text(Table(route).fallback))
  {
    StartsWithGoodIsGood(Text(Table(route).fallback));
  }

  /** "g", "o", "o" in some letter case start at index `k` of `msg`. */
  predicate GooAt(msg: string, k: int)
    requires 0 <= k < |msg| - 2
  {
    LowerChar(msg[k]) == 'g' && LowerChar(msg[k + 1]) == 'o' && LowerChar(msg[k + 2]) == 'o'
  }

  /** Nowhere in `msg` is a "g" followed by two "o"s, in any letter case. */
  predicate NoGoo(msg: string)
  {
    forall k :: 0 <= k < |msg| - 2 ==> !GooAt(msg, k)
  }

  /** A message without "g", "o", "o" in it is not classified good. */
  lemma NoGooIsBad(msg: string)
    requires NoGoo(msg)
    ensures !IsGood(msg)
  {
    GoodNeedsGoo(msg);
    if IsGood(msg) {
      var k :| 0 <= k < |msg| - 2 && LowerChar(msg[k]) == 'g' && LowerChar(msg[k + 1]) == 'o' && LowerChar(msg[k + 2]) == 'o';
      assert GooAt(msg, k);
    }
  }

  /** A message without a "g" in either case has no "g", "o", "o" in it. */
  lemma NoGooWithoutG(msg: string)
    requires 'g' !in msg && 'G' !in msg
    ensures NoGoo(msg)
  {
    forall k | 0 <= k < |msg| - 2 ensures !GooAt(msg, k) {
      assert msg[k] in msg;
    }
  }

  /** Joining two pieces at a space creates no "g", "o", "o" across the join. */
  lemma NoGooJoin(a: string, b: string)
    requires NoGoo(a) && NoGoo(b) && |a| > 0 && a[|a| - 1] == ' '
    ensures NoGoo(a + b)
  {
    forall k | 0 <= k < |a + b| - 2 ensures !GooAt(a + b, k) {
      if k + 2 < |a| {
        assert GooAt(a + b, k) == GooAt(a, k);
      } else if k >= |a| {
        assert GooAt(a + b, k) == GooAt(b, k - |a|);
      }
    }
  }

  /**
   * A message made of a word without "g", a word whose "g"s are not followed by "oo", and a
   * remainder without "g", joined at spaces, is classified bad.
   */
  lemma ThreePiecesAreBad(a: string, b: string, c: string)
    requires 'g' !in a && 'G' !in a && |a| > 0 && a[|a| - 1] == ' '
    requires NoGoo(b) && |b| > 0 && b[|b| - 1] == ' '
    requires 'g' !in c && 'G' !in c
    ensures !IsGood(a + (b + c))
  {
    NoGooWithoutG(a);
    NoGooWithoutG(c);
    NoGooJoin(b, c);
    NoGooJoin(a, b + c);
    NoGooIsBad(a + (b + c));
  }

  /** The squat image route's knee message is classified bad. */
  lemma KneeBeyondToeImageIsBad()
    ensures !IsGood(Text(KneeBeyondToeImage))
  {
    ThreePiecesAreBad("Knee ", "goes ", "beyond toe (bad squat posture)");
  }

  /** The squat image route's back message is classified bad. */
  lemma BackAngleImageIsBad()
    ensures !IsGood(Text(BackAngleImage))
  {
    ThreePiecesAreBad("Back ", "angle ", "< 150° (bad squat posture)");
  }

  /** The squat video route's knee message is classified bad. */
  lemma KneeBeyondToeIsBad()
    ensures !IsGood(Text(KneeBeyondToe))
  {
    ThreePiecesAreBad("Knee ", "goes ", "beyond toe");
  }

  /** The squat video route's back message is classified bad. */
  lemma BackAngleLowIsBad()
    ensures !IsGood(Text(BackAngleLow))
  {
    ThreePiecesAreBad("Back ", "angle ", "< 150°");
  }

  /** The desk routes' neck message is classified bad: it has no "g" at all. */
  lemma NeckBendsIsBad()
    ensures !IsGood(Text(NeckBends))
  {
    NoGooWithoutG(Text(NeckBends));
    NoGooIsBad(Text(NeckBends));
  }

  /** The desk routes' straight-back message is classified bad. */
  lemma BackNotStraightIsBad()
    ensures !IsGood(Text(BackNotStraight))
  {
    ThreePiecesAreBad("Back isn’t ", "straight ", "(bad desk posture)");
  }

  /** Every route's rule messages are classified bad. */
  lemma RuleMessagesAreBad(route: Route)
    ensures !IsGood(Text(Table(route).first)) && !IsGood(Text(Table(route).second))
  {
    match route {
      case SquatImage => KneeBeyondToeImageIsBad(); BackAngleImageIsBad();
      case SquatVideo => KneeBeyondToeIsBad(); BackAngleLowIsBad();
      case _ => NeckBendsIsBad(); BackNotStraightIsBad();
    }
  }

  /**
   * Badges are all green when the list is a good fallback alone, and all red when every
   * message is one of two bad rule messages.
   */
  lemma BadgesOfFeedback(feedback: seq<string>, first: string, second: string, fallback: string, noneFired: bool)
    requires IsGood(fallback) && !IsGood(first) && !IsGood(second)
    requires noneFired ==> feedback == [fallback]
    requires !noneFired ==> forall m :: m in feedback ==> m == first || m == second
    ensures var badges := BadgeList(feedback);
      forall i :: 0 <= i < |badges| ==> (badges[i].good <==> noneFired)
  {
    var badges := BadgeList(feedback);
    forall i | 0 <= i < |badges| ensures badges[i].good <==> noneFired {
      assert feedback[i] in feedback;
    }
  }

  /** Under a table whose fallback is good and whose rule messages are bad, the badges follow the rules. */
  lemma BadgesOfTable(t: RuleTable, firstFires: bool, secondFires: bool)
    requires IsGood(Text(t.fallback)) && !IsGood(Text(t.first)) && !IsGood(Text(t.second))
    ensures var badges := Badges(Some(Texts(Respond(t, firstFires, secondFires))));
      forall i :: 0 <= i < |badges| ==> (badges[i].good <==> !firstFires && !secondFires)
  {
    var feedback := Respond(t, firstFires, secondFires);
    var texts := Texts(feedback);
    if !(!firstFires && !secondFires) {
      forall m | m in texts ensures m == Text(t.first) || m == Text(t.second) {
        var i :| 0 <= i < |texts| && texts[i] == m;
        assert feedback[i] in feedback;
      }
    }
    BadgesOfFeedback(texts, Text(t.first), Text(t.second), Text(t.fallback), !firstFires && !secondFires);
  }

  /** The badges of a feedback list are all green exactly when no rule fired, and all red otherwise. */
  lemma BadgesAgreeWithRules(route: Route, firstFires: bool, secondFires: bool)
    ensures var badges := Badges(Some(Texts(Feedback(route, firstFires, secondFires))));
      forall i :: 0 <= i < |badges| ==> (badges[i].good <==> !firstFires && !secondFires)
  {
    FallbackIsGood(route);
    RuleMessagesAreBad(route);
    BadgesOfTable(Table(route), firstFires, secondFires);
    assert Feedback(route, firstFires, secondFires) == Respond(Table(route), firstFires, secondFires);
  }
}
