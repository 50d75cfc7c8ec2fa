/** The frontend's `FeedbackBadge`: one good or bad badge per feedback message. */
module FeedbackBadges {

  import opened Wrappers
  import opened JsText

  /** The word whose presence, in any letter case, marks a message as good. */
  const GoodWord := "good"

  /** A message is good when its lower-cased text contains "good". */
  predicate IsGood(msg: string)
  {
    Includes(ToLowerCase(msg), GoodWord)
  }

  /** "good" occurs at `k` in `msg` in some mix of upper and lower case. */
  predicate GoodAt(msg: string, k: int)
  {
    0 <= k && k + |GoodWord| <= |msg| && forall j :: 0 <= j < |GoodWord| ==> LowerChar(msg[k + j]) == GoodWord[j]
  }

  /** The classification in terms of the message itself: it contains "good", ignoring ASCII case. */
  lemma IsGoodIff(msg: string)
    ensures IsGood(msg) <==> exists k :: GoodAt(msg, k)
  {
    var lower := ToLowerCase(msg);
    if IsGood(msg) {
      var k :| OccursAt(lower, GoodWord, k);
      forall j | 0 <= j < |GoodWord| ensures LowerChar(msg[k + j]) == GoodWord[j] {
        assert lower[k..k + |GoodWord|][j] == lower[k + j];
      }
      assert GoodAt(msg, k);
    }
    if k :| GoodAt(msg, k) {
      assert lower[k..k + |GoodWord|] == GoodWord;
      assert OccursAt(lower, GoodWord, k);
    }
  }

  /** Wherever "good" occurs, ignoring case, its first three letters read "g", "o", "o". */
  lemma GoodAtSpells(msg: string)
    ensures forall k :: GoodAt(msg, k) ==>
      LowerChar(msg[k]) == 'g' && LowerChar(msg[k + 1]) == 'o' && LowerChar(msg[k + 2]) == 'o'
  {
    forall k | GoodAt(msg, k)
      ensures LowerChar(msg[k]) == 'g' && LowerChar(msg[k + 1]) == 'o' && LowerChar(msg[k + 2]) == 'o'
    {
      assert LowerChar(msg[k + 0]) == GoodWord[0];
      assert LowerChar(msg[k + 1]) == GoodWord[1];
      assert LowerChar(msg[k + 2]) == GoodWord[2];
    }
  }

  /** A good message has a "g" followed by two "o"s somewhere, in any case. */
  lemma GoodNeedsGoo(msg: string)
    ensures IsGood(msg) ==>
      exists k :: 0 <= k < |msg| - 2 && LowerChar(msg[k]) == 'g' && LowerChar(msg[k + 1]) == 'o' && LowerChar(msg[k + 2]) == 'o'
  {
    IsGoodIff(msg);
    GoodAtSpells(msg);
    if IsGood(msg) {
      var k :| GoodAt(msg, k);
      assert LowerChar(msg[k]) == 'g' && LowerChar(msg[k + 1]) == 'o' && LowerChar(msg[k + 2]) == 'o';
    }
  }

  /** One rendered badge: its text and whether it is styled as good (green, check mark) or bad (red, cross). */
  datatype Badge = Badge(text: string, good: bool)

  /** The badges of a list of messages, in list order. */
  function BadgeList(msgs: seq<string>): (badges: seq<Badge>)
    ensures |badges| == |msgs|
    ensures forall i :: 0 <= i < |msgs| ==> badges[i].text == msgs[i] && (badges[i].good <==> IsGood(msgs[i]))
  {
    if msgs == [] then [] else [Badge(msgs[0], IsGood(msgs[0]))] + BadgeList(msgs[1..])
  }

  /** `FeedbackBadge`: no badges for an absent list, otherwise one badge per message. */
  function Badges(feedback: Option<seq<string>>): (badges: seq<Badge>)
    ensures feedback.None? ==> badges == []
    ensures feedback.Some? ==> badges == BadgeList(feedback.value)
  {
    match feedback
    case None => []
    case Some(msgs) => BadgeList(msgs)
  }
}
