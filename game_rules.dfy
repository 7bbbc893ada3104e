// Rules the games share: the affricate cut that decides whether a part of tʃ
// or dʒ counts as a sound of its own, the round score "correct minus wrong,
// never negative", the choice of a list element from a Math.random() draw,
// the rounded percentage of the game-over screen, and the corrected
// percentage that counts the score against the points the rounds offered.
module GameRules {
  import opened Text
  import opened Dictionary
  import opened Collections
  import opened PhoneticSearch

  /** The affricate a part of tʃ or dʒ belongs to. */
  function AffricateOf(sound: string): string
  {
    if sound == "t" || sound == "ʃ" then "tʃ" else "dʒ"
  }

  /**
   * The games' version of the affricate rule: when the transcription holds
   * the affricate, the part only counts if it is still present after the
   * FIRST occurrence of the affricate has been cut out (`replace` with a
   * string pattern).
   */
  predicate SurvivesAffricateCut(ph: string, sound: string)
  {
    IsSpecialCase(ph, sound) ==> Includes(ReplaceFirst(ph, AffricateOf(sound), ""), sound)
  }

  /** A transcription without the affricate, or a sound that is no affricate part, passes. */
  lemma CutOnlyForAffricates(ph: string, sound: string)
    requires !IsAffricatePart(sound) || !Includes(ph, AffricateOf(sound))
    ensures SurvivesAffricateCut(ph, sound)
  {
  }

  /** A part that is only ever inside the affricate is rejected: “cheese” for t. */
  lemma {:induction false} CheeseRejectedForT()
    ensures !SurvivesAffricateCut("tʃiːz", "t")
  {
    assert OccursAt("tʃiːz", "tʃ", 0);
    assert ReplaceFirst("tʃiːz", "tʃ", "") == "iːz";
    forall i | 0 <= i <= 3
      ensures !OccursAt("iːz", "t", i)
    {
      if i < 3 {
        assert "iːz"[i..i + 1] == ["iːz"[i]];
      }
    }
  }

  /**
   * Only the first affricate is cut: “church” has no t outside its two tʃ,
   * yet passes for t because the second tʃ survives the cut. The search box
   * rule rejects it.
   */
  lemma {:induction false} ChurchPassesForT()
    ensures SurvivesAffricateCut("tʃɜːtʃ", "t")
    ensures !MatchesSound(Entry("church", "tʃɜːtʃ", "tʃɜːrtʃ", "", ""), "t")
  {
    assert OccursAt("tʃɜːtʃ", "tʃ", 0);
    assert OccursAt("tʃɜːrtʃ", "tʃ", 0);
    assert ReplaceFirst("tʃɜːtʃ", "tʃ", "") == "ɜːtʃ";
    assert OccursAt("ɜːtʃ", "t", 2);
  }

  /** A free-standing t next to a tʃ passes the cut but not the search box: “teacher”. */
  lemma {:induction false} TeacherPassesCutForT()
    ensures SurvivesAffricateCut("ˈtiːtʃə(r)", "t")
  {
    var ph := "ˈtiːtʃə(r)";
    assert OccursAt(ph, "tʃ", 4);
    forall j | 0 <= j < 4
      ensures !OccursAt(ph, "tʃ", j)
    {
      assert ph[j..j + 2] == [ph[j], ph[j + 1]];
    }
    ReplaceFirstRemovesFirst(ph, "tʃ");
    assert ReplaceFirst("ˈtiːtʃə(r)", "tʃ", "") == "ˈtiːə(r)";
    assert OccursAt("ˈtiːə(r)", "t", 1);
  }

  /** `Math.max(0, correct - incorrect)`. */
  function RoundScore(correct: nat, incorrect: nat): (r: nat)
    ensures r <= correct
    ensures r >= correct - incorrect
    ensures r > 0 ==> r == correct - incorrect
    ensures incorrect == 0 ==> r == correct
  {
    if correct > incorrect then correct - incorrect else 0
  }

  /** `Math.floor(draw * n)` for a draw of Math.random(): a valid index. */
  function Pick(draw: real, n: nat): (i: nat)
    requires 0.0 <= draw < 1.0 && n > 0
    ensures i < n
  {
    var scaled := draw * n as real;
    assert n as real - scaled == (1.0 - draw) * n as real;
    assert 0.0 <= scaled < n as real;
    scaled.Floor
  }

  /** The index picked is the whole part of `draw * n`. */
  lemma PickIsFloor(draw: real, n: nat)
    requires 0.0 <= draw < 1.0 && n > 0
    ensures Pick(draw, n) as real <= draw * n as real < Pick(draw, n) as real + 1.0
  {
  }

  /** `Math.round((score / total) * 100)`: halves round up. */
  function RoundedPercent(score: nat, total: nat): (p: int)
    requires total > 0
    ensures p as real - 0.5 <= (score as real / total as real) * 100.0 < p as real + 0.5
  {
    ((score as real / total as real) * 100.0 + 0.5).Floor
  }

  /** A score no larger than its total shows at most 100%. */
  lemma PercentAtMostHundred(score: nat, total: nat)
    requires total > 0 && score <= total
    ensures 0 <= RoundedPercent(score, total) <= 100
  {
    assert score as real / total as real <= 1.0;
  }

  /** Out of ten rounds a score of s shows 10 * s percent. */
  lemma {:induction false} PercentOfTen(score: nat)
    ensures RoundedPercent(score, 10) == 10 * score
  {
    assert (score as real / 10.0) * 100.0 == (10 * score) as real;
  }

  /** The corrected game-over percentage: the score out of the points the rounds offered. */
  function Accuracy(score: nat, attainable: nat): (p: int)
  {
    if attainable == 0 then 0 else RoundedPercent(score, attainable)
  }

  /** A score within what was attainable never shows more than 100%. */
  lemma AccuracyInRange(score: nat, attainable: nat)
    requires score <= attainable
    ensures 0 <= Accuracy(score, attainable) <= 100
  {
    if attainable > 0 {
      PercentAtMostHundred(score, attainable);
    }
  }
}
