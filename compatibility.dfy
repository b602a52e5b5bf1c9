/** The compatibility score shown between two users: a weighted sum of three parts of
    their questionnaires (intent and life stage 50, personality and communication 30,
    hobbies 20), rounded half to even and clamped to 19..99. The arithmetic is exact
    (`real`), where the application uses binary floating point. */
module Compatibility {
  import opened Wrappers
  import opened Text
  import opened AccountsModels

  /** `_calculate_jaccard_similarity`: 1 for two empty sets, 0 when only one is empty,
      otherwise the size of the intersection over the size of the union. */
  function Jaccard(a: set<string>, b: set<string>): (r: real)
    ensures 0.0 <= r <= 1.0
  {
    if a == {} && b == {} then 1.0
    else if a == {} || b == {} then 0.0
    else
      assert a * b <= a + b;
      SubsetCardinality(a * b, a + b);
      (|a * b| as real) / (|a + b| as real)
  }

  lemma {:induction false} SubsetCardinality<T>(x: set<T>, y: set<T>)
    requires x <= y
    ensures |x| <= |y|
    ensures |x| == |y| ==> x == y
    decreases |y|
  {
    if y != {} {
      var e :| e in y;
      SubsetCardinality(x - {e}, y - {e});
      if e in x {
        assert |x - {e}| == |x| - 1;
        assert x == (x - {e}) + {e} && y == (y - {e}) + {e};
      } else {
        assert x - {e} == x;
      }
    }
  }

  lemma JaccardSymmetric(a: set<string>, b: set<string>)
    ensures Jaccard(a, b) == Jaccard(b, a)
  {
    assert a * b == b * a && a + b == b + a;
  }

  /** The similarity is 1 exactly for equal sets. */
  lemma {:induction false} JaccardOneIffEqual(a: set<string>, b: set<string>)
    ensures Jaccard(a, b) == 1.0 <==> a == b
  {
    if a != {} && b != {} {
      if Jaccard(a, b) == 1.0 {
        assert |a * b| == |a + b|;
        SubsetCardinality(a * b, a + b);
        assert a <= a + b && a + b == a * b && a * b <= b;
        assert b <= a + b && a * b <= a;
      } else {
        assert a * b == a + b ==> Jaccard(a, b) == 1.0;
      }
    } else if a == {} && b != {} {
      assert Jaccard(a, b) == 0.0;
    }
  }

  /** The hobby set of an answer: empty for a blank answer, otherwise the pieces of
      splitting it on ','. */
  function HobbySet(answer: string): (h: set<string>)
    ensures answer != "" ==> h != {}
  {
    if answer == "" then {}
    else
      var pieces := Split(answer, ',');
      var h := set p | p in pieces;
      assert pieces[0] in h;
      h
  }

  /** The stored hobbies answer (the chosen hobbies joined by ',') reads back as the set
      of chosen hobbies, whenever at least one hobby without a ',' was chosen. */
  lemma {:induction false} HobbySetOfSavedAnswer(hobbies: seq<string>)
    requires hobbies != [] && Join(hobbies, ',') != ""
    requires forall k :: 0 <= k < |hobbies| ==> ',' !in hobbies[k]
    ensures HobbySet(Join(hobbies, ',')) == set h | h in hobbies
  {
    SplitJoin(hobbies, ',');
  }

  // ---------------------------------------------------------------------------
  // Sub-scores
  // ---------------------------------------------------------------------------

  /** Both answers are among "Single" and "Focusing on me" (the subset test
      `{a, b} <= {'Single', 'Focusing on me'}`). */
  predicate BothUnattached(a: string, b: string) {
    (a == "Single" || a == "Focusing on me") && (b == "Single" || b == "Focusing on me")
  }

  /** One answer is "New friends" and the other "Not sure yet" (evaluated after the two
      were found different). */
  predicate FriendsOrUnsure(a: string, b: string) {
    (a == "New friends" || b == "New friends") && (a == "Not sure yet" || b == "Not sure yet")
  }

  /** `{a, b} == {'Introvert', 'Extrovert'}`. */
  predicate IntrovertAndExtrovert(a: string, b: string) {
    (a == "Introvert" && b == "Extrovert") || (a == "Extrovert" && b == "Introvert")
  }

  /** Intent and life stage, out of 4. */
  function IntentPoints(q1: Questionnaire, q2: Questionnaire): (p: real)
    ensures 0.0 <= p <= 4.0
  {
    var status := if q1.relationshipStatus == q2.relationshipStatus then 2.0
                  else if BothUnattached(q1.relationshipStatus, q2.relationshipStatus) then 1.0
                  else 0.0;
    var looking := if q1.lookingFor == q2.lookingFor then 1.0
                   else if FriendsOrUnsure(q1.lookingFor, q2.lookingFor) then 0.5
                   else 0.0;
    var year := if q1.year == q2.year then 1.0 else 0.0;
    status + looking + year
  }

  /** Personality and communication, out of 4. */
  function PersonalityPoints(q1: Questionnaire, q2: Questionnaire): (p: real)
    ensures 0.0 <= p <= 4.0
  {
    var personality := if q1.personality == q2.personality then 2.0
                       else if q1.personality == "A mix of both" || q2.personality == "A mix of both" then 1.5
                       else if IntrovertAndExtrovert(q1.personality, q2.personality) then 0.5
                       else 0.0;
    var communication := if q1.communicationStyle == q2.communicationStyle then 2.0
                         else if q1.communicationStyle == "A bit of everything"
                                 || q2.communicationStyle == "A bit of everything" then 1.5
                         else 0.0;
    personality + communication
  }

  lemma SubScoresSymmetric(q1: Questionnaire, q2: Questionnaire)
    ensures IntentPoints(q1, q2) == IntentPoints(q2, q1)
    ensures PersonalityPoints(q1, q2) == PersonalityPoints(q2, q1)
  {
  }

  /** The unrounded total, between 0 and 100. */
  function RawScore(q1: Questionnaire, q2: Questionnaire): (r: real)
    ensures 0.0 <= r <= 100.0
  {
    IntentPoints(q1, q2) / 4.0 * 50.0 + PersonalityPoints(q1, q2) / 4.0 * 30.0
    + Jaccard(HobbySet(q1.hobbiesInterests), HobbySet(q2.hobbiesInterests)) * 20.0
  }

  /** Python's `round` on a number: the nearest integer, ties to the even one. */
  function RoundHalfEven(x: real): (n: int)
    ensures -0.5 <= x - n as real <= 0.5
    ensures x - n as real == 0.5 || n as real - x == 0.5 ==> n % 2 == 0
  {
    var f := x.Floor;
    var d := x - f as real;
    if d < 0.5 then f
    else if d > 0.5 then f + 1
    else if f % 2 == 0 then f
    else f + 1
  }

  /** `max(19, min(99, n))`. */
  function Clamp(n: int): (c: int)
    ensures 19 <= c <= 99
    ensures 19 <= n <= 99 ==> c == n
    ensures n < 19 ==> c == 19
    ensures n > 99 ==> c == 99
  {
    if n < 19 then 19 else if n > 99 then 99 else n
  }

  /** The score of two questionnaires. */
  function Score(q1: Questionnaire, q2: Questionnaire): (s: int)
    ensures 19 <= s <= 99
  {
    Clamp(RoundHalfEven(RawScore(q1, q2)))
  }

  /** `calculate_compatibility`: no score unless both users have a questionnaire. */
  function CalculateCompatibility(answers: map<UserId, Questionnaire>, u1: UserId, u2: UserId): (r: Option<int>)
    ensures r.Some? <==> u1 in answers && u2 in answers
    ensures r.Some? ==> 19 <= r.value <= 99
  {
    if u1 in answers && u2 in answers then Some(Score(answers[u1], answers[u2])) else None
  }

  // ---------------------------------------------------------------------------
  // Properties
  // ---------------------------------------------------------------------------

  /** The score does not depend on who looks at whom. */
  lemma {:induction false} CompatibilitySymmetric(answers: map<UserId, Questionnaire>, u1: UserId, u2: UserId)
    ensures CalculateCompatibility(answers, u1, u2) == CalculateCompatibility(answers, u2, u1)
  {
    if u1 in answers && u2 in answers {
      var q1, q2 := answers[u1], answers[u2];
      SubScoresSymmetric(q1, q2);
      JaccardSymmetric(HobbySet(q1.hobbiesInterests), HobbySet(q2.hobbiesInterests));
    }
  }

  /** Identical answers score full marks, which the clamp shows as 99. */
  lemma IdenticalAnswersScore99(q: Questionnaire)
    ensures RawScore(q, q) == 100.0
    ensures Score(q, q) == 99
  {
    JaccardOneIffEqual(HobbySet(q.hobbiesInterests), HobbySet(q.hobbiesInterests));
  }

  /** The score is 99 exactly when the raw total rounds to 99 or more, and 19 whenever
      it rounds to 19 or less: every score in between is the rounded total itself. */
  lemma ScoreIsRoundedTotal(q1: Questionnaire, q2: Questionnaire)
    ensures var n := RoundHalfEven(RawScore(q1, q2));
      (19 <= n <= 99 ==> Score(q1, q2) == n)
      && (Score(q1, q2) == 99 <==> n >= 99)
      && (n <= 19 ==> Score(q1, q2) == 19)
  {
  }

  /** Two users who agree on nothing, match none of the partial-credit pairs and share
      no hobby get the floor score 19. */
  lemma NoCommonGroundScore19(q1: Questionnaire, q2: Questionnaire)
    requires q1.relationshipStatus != q2.relationshipStatus
    requires !BothUnattached(q1.relationshipStatus, q2.relationshipStatus)
    requires q1.lookingFor != q2.lookingFor && !FriendsOrUnsure(q1.lookingFor, q2.lookingFor)
    requires q1.year != q2.year
    requires q1.personality != q2.personality && !IntrovertAndExtrovert(q1.personality, q2.personality)
    requires q1.personality != "A mix of both" && q2.personality != "A mix of both"
    requires q1.communicationStyle != q2.communicationStyle
    requires q1.communicationStyle != "A bit of everything" && q2.communicationStyle != "A bit of everything"
    requires q1.hobbiesInterests != "" || q2.hobbiesInterests != ""
    requires HobbySet(q1.hobbiesInterests) !! HobbySet(q2.hobbiesInterests)
    ensures RawScore(q1, q2) == 0.0 && Score(q1, q2) == 19
  {
    var h1, h2 := HobbySet(q1.hobbiesInterests), HobbySet(q2.hobbiesInterests);
    assert h1 * h2 == {};
    assert Jaccard(h1, h2) == 0.0;
    assert IntentPoints(q1, q2) == 0.0 && PersonalityPoints(q1, q2) == 0.0;
    assert RawScore(q1, q2) == 0.0;
    assert RoundHalfEven(0.0) == 0;
  }
}
