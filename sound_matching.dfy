// The sound matching game: a word is shown with its transcription hidden,
// and the player selects, among a dozen phonetic symbols, the ones whose
// sounds occur in it. The symbols are the game's own string constants, kept
// exactly as the source writes them (their IPA characters arrive in the
// source mis-encoded, for instance ʃ as a no-break space followed by É), so
// the model compares the strings the game compares.
module SoundMatching {
  import opened Wrappers
  import opened Text
  import opened Collections
  import opened Dictionary
  import opened GameRules

  const MaxRounds: nat := 10

  /** `allPhoneticSounds`, character for character, as the three lines of its literal: vowels, consonants, the rest. */
  const Vowels: seq<string> := [
    "\U{221A}\U{00B6}", "\U{2026}\U{00F4}", "\U{2026}\U{00EB}", "\U{2026}\U{00EE}", "\U{2026}\U{00F5}",
    "\U{2026}\U{2122}", "i", "\U{00A0}\U{00E4}", "u", "\U{00A0}\U{00E5}", "e", "\U{2026}\U{00ED}"
  ]
  const Consonants: seq<string> := [
    "p", "b", "t", "d", "k", "g", "f", "v", "\U{0152}\U{220F}", "\U{221A}\U{221E}", "s", "z",
    "\U{00A0}\U{00C9}", "\U{00A0}\U{00ED}"
  ]
  const Others: seq<string> := ["t\U{00A0}\U{00C9}", "d\U{00A0}\U{00ED}", "h", "l", "r", "j", "w", "m", "n", "\U{2248}\U{00E3}"]
  const AllPhoneticSounds: seq<string> := Vowels + Consonants + Others

  /** The game's spelling of ʃ and ʒ, and of the affricates tʃ and dʒ built on them. */
  const Esh: string := "\U{00A0}\U{00C9}"
  const Ezh: string := "\U{00A0}\U{00ED}"
  const TEsh: string := "t\U{00A0}\U{00C9}"
  const DEzh: string := "d\U{00A0}\U{00ED}"

  // ---- the correct sounds of a transcription ----

  /**
   * The early return of the `forEach` callback: `sound` is `part1` or
   * `part2`, the transcription holds the affricate, and the sound occurs
   * neither doubled nor once the first affricate has been cut out.
   */
  predicate HiddenInAffricate(ph: string, sound: string, part1: string, part2: string, affricate: string)
  {
    (sound == part1 || sound == part2) && Includes(ph, affricate)
    && !Includes(ph, sound + sound) && !Includes(ReplaceFirst(ph, affricate, ""), sound)
  }

  /** The callback pushes `sound`. */
  predicate Kept(ph: string, sound: string)
  {
    !HiddenInAffricate(ph, sound, "t", Esh, TEsh) && !HiddenInAffricate(ph, sound, "d", Ezh, DEzh)
    && Includes(ph, sound)
  }

  /** `determineCorrectSounds` over the inventory `sounds`, followed by the two affricate top-ups. */
  function CorrectSounds(sounds: seq<string>, ph: string): seq<string>
  {
    var listed := Filter(sounds, (s: string) => Kept(ph, s));
    var withTEsh := if Includes(ph, TEsh) && TEsh !in listed then listed + [TEsh] else listed;
    if Includes(ph, DEzh) && DEzh !in withTEsh then withTEsh + [DEzh] else withTEsh
  }

  /** The loop of `determineCorrectSounds`, pushing onto a fresh list. */
  method DetermineCorrectSounds(sounds: seq<string>, ph: string) returns (r: seq<string>)
    ensures r == CorrectSounds(sounds, ph)
  {
    r := [];
    for i := 0 to |sounds|
      invariant r == Filter(sounds[..i], (s: string) => Kept(ph, s))
    {
      assert sounds[..i + 1][..i] == sounds[..i];
      var sound := sounds[i];
      var skip := false;
      if (sound == "t" || sound == Esh) && Includes(ph, TEsh) {
        if !Includes(ph, sound + sound) && !Includes(ReplaceFirst(ph, TEsh, ""), sound) {
          skip := true;
        }
      }
      if !skip && (sound == "d" || sound == Ezh) && Includes(ph, DEzh) {
        if !Includes(ph, sound + sound) && !Includes(ReplaceFirst(ph, DEzh, ""), sound) {
          skip := true;
        }
      }
      if !skip && Includes(ph, sound) {
        r := r + [sound];
      }
    }
    assert sounds[..|sounds|] == sounds;
    if Includes(ph, TEsh) && TEsh !in r {
      r := r + [TEsh];
    }
    if Includes(ph, DEzh) && DEzh !in r {
      r := r + [DEzh];
    }
  }

  /** A transcription holding an affricate holds both of its parts. */
  lemma {:induction false} AffricateHoldsParts(ph: string, first: string, second: string)
    requires |first| == 1 && Includes(ph, first + second)
    ensures Includes(ph, first) && Includes(ph, second)
  {
    var i :| 0 <= i <= |ph| && OccursAt(ph, first + second, i);
    assert ph[i..i + 1] == (first + second)[..1] == first;
    assert ph[i + 1..i + 1 + |second|] == (first + second)[1..] == second;
    assert OccursAt(ph, first, i);
    assert OccursAt(ph, second, i + 1);
  }

  /** Away from the affricates, a symbol is a correct sound exactly when the transcription contains it. */
  lemma KeptOutsideAffricates(ph: string, sound: string)
    requires !((sound == "t" || sound == Esh) && Includes(ph, TEsh))
    requires !((sound == "d" || sound == Ezh) && Includes(ph, DEzh))
    ensures Kept(ph, sound) <==> Includes(ph, sound)
  {
  }

  /**
   * A part of an affricate the transcription holds (t or ʃ of tʃ, d or ʒ of
   * dʒ) is a correct sound exactly when it also occurs doubled, or outside
   * the first affricate.
   */
  lemma KeptPartOfAffricate(ph: string, sound: string, affricate: string)
    requires (affricate == TEsh && (sound == "t" || sound == Esh)) || (affricate == DEzh && (sound == "d" || sound == Ezh))
    requires Includes(ph, affricate)
    ensures Kept(ph, sound) <==> Includes(ph, sound + sound) || Includes(ReplaceFirst(ph, affricate, ""), sound)
  {
    if affricate == TEsh {
      assert TEsh == "t" + Esh;
      AffricateHoldsParts(ph, "t", Esh);
    } else {
      assert DEzh == "d" + Ezh;
      AffricateHoldsParts(ph, "d", Ezh);
    }
  }

  /** Over an inventory without repeats, no correct sound is listed twice: the top-ups check first. */
  lemma {:induction false} CorrectSoundsDistinct(sounds: seq<string>, ph: string)
    requires Distinct(sounds)
    ensures Distinct(CorrectSounds(sounds, ph))
  {
    var listed := Filter(sounds, (s: string) => Kept(ph, s));
    FilterDistinct(sounds, (s: string) => Kept(ph, s));
    var withTEsh := if Includes(ph, TEsh) && TEsh !in listed then listed + [TEsh] else listed;
    if Includes(ph, TEsh) && TEsh !in listed {
      DistinctSnoc(listed, TEsh);
    }
    if Includes(ph, DEzh) && DEzh !in withTEsh {
      DistinctSnoc(withTEsh, DEzh);
    }
  }

  /** The correct sounds are the kept symbols of the inventory and the affricates the transcription holds. */
  lemma CorrectSoundsMembers(sounds: seq<string>, ph: string, x: string)
    ensures x in CorrectSounds(sounds, ph) <==>
              (x in sounds && Kept(ph, x)) || ((x == TEsh || x == DEzh) && Includes(ph, x))
  {
  }

  /** The game's inventory lists tʃ and dʒ itself, so the two top-ups never add anything. */
  lemma {:induction false} TopUpsNeverFire(ph: string)
    ensures CorrectSounds(AllPhoneticSounds, ph) == Filter(AllPhoneticSounds, (s: string) => Kept(ph, s))
  {
    var listed := Filter(AllPhoneticSounds, (s: string) => Kept(ph, s));
    assert AllPhoneticSounds[26] == Others[0] == TEsh && AllPhoneticSounds[27] == Others[1] == DEzh;
    if Includes(ph, TEsh) {
      assert !HiddenInAffricate(ph, TEsh, "t", Esh, TEsh);
      assert !HiddenInAffricate(ph, TEsh, "d", Ezh, DEzh);
      assert TEsh in listed;
    }
    if Includes(ph, DEzh) {
      assert !HiddenInAffricate(ph, DEzh, "t", Esh, TEsh);
      assert !HiddenInAffricate(ph, DEzh, "d", Ezh, DEzh);
      assert DEzh in listed;
    }
  }

  lemma VowelsDistinct() ensures Distinct(Vowels) { }
  lemma ConsonantsDistinct() ensures Distinct(Consonants) { }
  lemma OthersDistinct() ensures Distinct(Others) { }
  lemma VowelsNotConsonants() ensures forall x :: x in Vowels ==> x !in Consonants { }
  lemma EarlierNotOthers() ensures forall x :: x in Vowels + Consonants ==> x !in Others { }

  /** The inventory repeats no symbol. */
  lemma InventoryDistinct()
    ensures Distinct(AllPhoneticSounds)
  {
    VowelsDistinct();
    ConsonantsDistinct();
    OthersDistinct();
    VowelsNotConsonants();
    DistinctConcat(Vowels, Consonants);
    EarlierNotOthers();
    DistinctConcat(Vowels + Consonants, Others);
  }

  // ---- the option buttons ----

  /** `Math.min(12, this.allPhoneticSounds.length)`. */
  function OptionCount(sounds: seq<string>): (n: nat)
    ensures n <= 12 && n <= |sounds| && (n == 12 || n == |sounds|)
  {
    if 12 < |sounds| then 12 else |sounds|
  }

  /** The symbols the draws point at. */
  function DrawnSet(sounds: seq<string>, draws: seq<nat>): set<string>
  {
    set k | 0 <= k < |draws| && draws[k] < |sounds| :: sounds[draws[k]]
  }

  /**
   * The `while` loop of `generateSoundOptions` from the set `current`: one
   * draw of `Math.floor(Math.random() * length)` per iteration, until the set
   * has `target` members or the supplied draws run out.
   */
  function OptionsLoop(sounds: seq<string>, target: nat, current: set<string>, draws: seq<nat>): set<string>
    requires forall k :: 0 <= k < |draws| ==> draws[k] < |sounds|
    decreases |draws|
  {
    if |current| >= target || draws == [] then current
    else OptionsLoop(sounds, target, current + {sounds[draws[0]]}, draws[1..])
  }

  /** The displayed options: `new Set(this.correctSounds)` filled up by the loop. */
  function Options(sounds: seq<string>, correct: seq<string>, draws: seq<nat>): set<string>
    requires forall k :: 0 <= k < |draws| ==> draws[k] < |sounds|
  {
    OptionsLoop(sounds, OptionCount(sounds), Elements(correct), draws)
  }

  function Max(a: nat, b: nat): nat { if a < b then b else a }

  /**
   * The loop only adds inventory symbols, one at a time and only while the
   * set is short of `target`, and when it stops short of `target` every
   * drawn symbol is in.
   */
  lemma {:induction false} OptionsLoopBounds(sounds: seq<string>, target: nat, current: set<string>, draws: seq<nat>)
    requires forall k :: 0 <= k < |draws| ==> draws[k] < |sounds|
    decreases |draws|
    ensures var r := OptionsLoop(sounds, target, current, draws);
            current <= r && r <= current + Elements(sounds) && |r| <= Max(|current|, target)
            && (|r| < target ==> r == current + DrawnSet(sounds, draws))
  {
    if draws == [] {
      assert DrawnSet(sounds, draws) == {};
    } else if |current| < target {
      var x := sounds[draws[0]];
      OptionsLoopBounds(sounds, target, current + {x}, draws[1..]);
      var r := OptionsLoop(sounds, target, current, draws);
      if |r| < target {
        forall y | y in DrawnSet(sounds, draws)
          ensures y in {x} + DrawnSet(sounds, draws[1..])
        {
          var k :| 0 <= k < |draws| && draws[k] < |sounds| && y == sounds[draws[k]];
          if k > 0 {
            assert draws[1..][k - 1] == draws[k];
          }
        }
        forall y | y in DrawnSet(sounds, draws[1..])
          ensures y in DrawnSet(sounds, draws)
        {
          var k :| 0 <= k < |draws[1..]| && draws[1..][k] < |sounds| && y == sounds[draws[1..][k]];
          assert draws[k + 1] == draws[1..][k];
        }
      }
    }
  }

  /**
   * The options hold every correct sound plus inventory symbols only, number
   * at most `min(12, |inventory|)` unless the correct sounds alone are more,
   * and fall short of that number only when the draws ran out.
   */
  lemma OptionsBounds(sounds: seq<string>, correct: seq<string>, draws: seq<nat>)
    requires forall k :: 0 <= k < |draws| ==> draws[k] < |sounds|
    ensures var r := Options(sounds, correct, draws);
            Elements(correct) <= r && r <= Elements(correct) + Elements(sounds)
            && |r| <= Max(|Elements(correct)|, OptionCount(sounds))
            && (|r| < OptionCount(sounds) ==> r == Elements(correct) + DrawnSet(sounds, draws))
  {
    OptionsLoopBounds(sounds, OptionCount(sounds), Elements(correct), draws);
  }

  /** The loop of `generateSoundOptions`. */
  method GenerateSoundOptions(sounds: seq<string>, correct: seq<string>, draws: seq<nat>) returns (options: set<string>)
    requires forall k :: 0 <= k < |draws| ==> draws[k] < |sounds|
    ensures options == Options(sounds, correct, draws)
  {
    var target := if 12 < |sounds| then 12 else |sounds|;
    options := Elements(correct);
    var used := 0;
    while |options| < target && used < |draws|
      invariant used <= |draws|
      invariant OptionsLoop(sounds, target, options, draws[used..]) == Options(sounds, correct, draws)
      decreases |draws| - used
    {
      assert draws[used..][1..] == draws[used + 1..];
      options := options + {sounds[draws[used]]};
      used := used + 1;
    }
  }

  // ---- the check ----

  /** `correctSelections`: the selected symbols that are correct sounds. */
  function Hits(selected: set<string>, correct: seq<string>): (r: set<string>)
    ensures r <= selected && r <= Elements(correct)
  {
    set s | s in selected && s in correct
  }

  /** `incorrectSelections`: the selected symbols that are not. */
  function Wrong(selected: set<string>, correct: seq<string>): (r: set<string>)
    ensures r <= selected && r !! Elements(correct)
  {
    set s | s in selected && s !in correct
  }

  /** `missedSounds`: the correct sounds left unselected, in order. */
  function Missed(correct: seq<string>, selected: set<string>): (r: seq<string>)
    ensures |r| <= |correct|
    ensures forall s :: s in r <==> s in correct && s !in selected
  {
    Filter(correct, (s: string) => s !in selected)
  }

  /** Every selected symbol is either a correct or an incorrect selection, never both. */
  lemma SelectionSplits(selected: set<string>, correct: seq<string>)
    ensures Hits(selected, correct) + Wrong(selected, correct) == selected
    ensures Hits(selected, correct) * Wrong(selected, correct) == {}
    ensures |Hits(selected, correct)| + |Wrong(selected, correct)| == |selected|
  {
    assert Hits(selected, correct) + Wrong(selected, correct) == selected;
  }

  /**
   * Every correct sound is either among the correct selections or among the
   * missed sounds, never both; without repeats the two counts add up to the
   * number of correct sounds.
   */
  lemma {:induction false} CorrectSplits(selected: set<string>, correct: seq<string>)
    ensures forall s :: s in correct ==> (s in Hits(selected, correct) <==> s !in Missed(correct, selected))
    ensures Distinct(correct) ==> |Hits(selected, correct)| + |Missed(correct, selected)| == |correct|
  {
    if Distinct(correct) {
      var p := (s: string) => s in selected;
      var q := (s: string) => s !in selected;
      assert Hits(selected, correct) == Members(correct, p);
      DistinctCount(correct, p);
      CountIsFilterLength(correct, q);
      CountComplement(correct, p, q);
    }
  }

  /** Perfect feedback is given exactly when the selection is the set of correct sounds. */
  lemma PerfectIffExact(selected: set<string>, correct: seq<string>)
    requires Distinct(correct)
    ensures (|Hits(selected, correct)| == |correct| && |Wrong(selected, correct)| == 0)
            <==> selected == Elements(correct)
  {
    var hits := Hits(selected, correct);
    DistinctElements(correct);
    assert hits <= Elements(correct);
    SelectionSplits(selected, correct);
    if |hits| == |correct| && |Wrong(selected, correct)| == 0 {
      SubsetSameSize(hits, Elements(correct));
    }
    if selected == Elements(correct) {
      assert hits == Elements(correct);
      assert Wrong(selected, correct) == {};
    }
  }

  /** A round scores no more than the correct sounds it offered. */
  lemma {:induction false} RoundScoreAtMostCorrect(selected: set<string>, correct: seq<string>)
    requires Distinct(correct)
    ensures RoundScore(|Hits(selected, correct)|, |Wrong(selected, correct)|) <= |correct|
  {
    DistinctElements(correct);
    SubsetCardinality(Hits(selected, correct), Elements(correct));
  }

  // ---- the word ----

  /** The filter of `getRandomWord`: a transcription longer than three characters. */
  predicate IsPlayable(e: Entry)
  {
    HasPhonetics(e) && (|e.uk| > 3 || |e.us| > 3)
  }

  function PlayableWords(dict: seq<Entry>): (r: seq<Entry>)
    ensures forall e :: e in r <==> e in dict && IsPlayable(e)
  {
    Filter(dict, IsPlayable)
  }

  /** `getRandomWord`'s choice, with `Math.floor(Math.random() * n)` as the index `draw`; none without playable words. */
  function RandomWord(dict: seq<Entry>, draw: nat): (r: Option<Entry>)
    requires PlayableWords(dict) != [] ==> draw < |PlayableWords(dict)|
    ensures r.None? <==> forall e :: e in dict ==> !IsPlayable(e)
    ensures r.Some? ==> r.value in dict && IsPlayable(r.value) && Preferred(r.value) != []
  {
    var words := PlayableWords(dict);
    if words == [] then None
    else
      assert words[draw] in words;
      Some(words[draw])
  }

  /**
   * Ten perfect rounds on a word with two correct sounds score 20, which the
   * game-over screen shows as 200%; out of the 20 points offered it is 100%.
   */
  lemma {:induction false} MatchingAccuracyOverflows()
    ensures RoundedPercent(MaxRounds * RoundScore(2, 0), MaxRounds) == 200
    ensures Accuracy(MaxRounds * RoundScore(2, 0), MaxRounds * 2) == 100
  {
    PercentOfTen(20);
    assert (20 as real / 20 as real) * 100.0 == 100.0;
  }

  /** The tallies of `checkAnswer` and its Perfect test. */
  method Tally(selected: set<string>, correct: seq<string>) returns (hits: nat, wrong: nat, perfect: bool)
    requires Distinct(correct)
    ensures hits == |Hits(selected, correct)| && wrong == |Wrong(selected, correct)|
    ensures perfect <==> hits == |correct| && wrong == 0
    ensures perfect <==> selected == Elements(correct)
    ensures RoundScore(hits, wrong) <= |correct|
  {
    hits := |set s | s in selected && s in correct|;
    wrong := |set s | s in selected && s !in correct|;
    perfect := hits == |correct| && wrong == 0;
    PerfectIffExact(selected, correct);
    RoundScoreAtMostCorrect(selected, correct);
  }

  /** `determineCorrectSounds` and `generateSoundOptions` for a new word. */
  method DealWord(sounds: seq<string>, word: Entry, optionDraws: seq<nat>) returns (correct: seq<string>, options: set<string>)
    requires Distinct(sounds)
    requires forall k :: 0 <= k < |optionDraws| ==> optionDraws[k] < |sounds|
    ensures correct == CorrectSounds(sounds, Preferred(word)) && Distinct(correct)
    ensures options == Options(sounds, correct, optionDraws) && Elements(correct) <= options
  {
    correct := DetermineCorrectSounds(sounds, Preferred(word));
    CorrectSoundsDistinct(sounds, Preferred(word));
    options := GenerateSoundOptions(sounds, correct, optionDraws);
    OptionsBounds(sounds, correct, optionDraws);
  }

  /** `getRandomWord`: the word, its correct sounds and its options; nothing when no word is playable. */
  method DealRound(sounds: seq<string>, dict: seq<Entry>, wordDraw: nat, optionDraws: seq<nat>)
    returns (word: Option<Entry>, correct: seq<string>, options: set<string>)
    requires Distinct(sounds)
    requires PlayableWords(dict) != [] ==> wordDraw < |PlayableWords(dict)|
    requires forall k :: 0 <= k < |optionDraws| ==> optionDraws[k] < |sounds|
    ensures word == RandomWord(dict, wordDraw) && Distinct(correct) && Elements(correct) <= options
    ensures word.Some? ==> correct == CorrectSounds(sounds, Preferred(word.value))
                           && options == Options(sounds, correct, optionDraws)
  {
    word := RandomWord(dict, wordDraw);
    if word.None? {
      return word, [], {};
    }
    correct, options := DealWord(sounds, word.value, optionDraws);
  }

  // ---- the game ----

  class SoundMatchingGame {
    var score: nat
    var round: nat
    /** The points the checked rounds offered, one per correct sound: the corrected accuracy's total. */
    var attainable: nat
    const allPhoneticSounds: seq<string>
    var currentWord: Option<Entry>
    var correctSounds: seq<string>
    var options: set<string>
    var selectedSounds: set<string>
    var checkDisabled: bool
    var nextDisabled: bool
    var gameOver: bool

    ghost predicate Valid()
      reads this
    {
      round <= MaxRounds && score <= attainable && Distinct(allPhoneticSounds) && Distinct(correctSounds)
      && (currentWord.Some? ==> correctSounds == CorrectSounds(allPhoneticSounds, Preferred(currentWord.value)))
      && Elements(correctSounds) <= options && selectedSounds <= options
    }

    /**
     * `constructor` followed by `render`: no word yet. Check Answer is
     * enabled (only Next Word is rendered disabled); pressing it throws, as
     * `CheckAnswer` states for the case without a word.
     */
    constructor ()
      ensures Valid()
      ensures allPhoneticSounds == AllPhoneticSounds
      ensures score == 0 && round == 0 && attainable == 0 && currentWord.None?
      ensures correctSounds == [] && options == {} && selectedSounds == {}
      ensures !checkDisabled && nextDisabled && !gameOver
    {
      score, round, attainable := 0, 0, 0;
      allPhoneticSounds := AllPhoneticSounds;
      currentWord := None;
      correctSounds := [];
      options, selectedSounds := {}, {};
      checkDisabled, nextDisabled, gameOver := false, true, false;
      InventoryDistinct();
    }

    /** The click handler of an option button: toggles the symbol's selection. */
    method Click(sound: string)
      requires Valid() && !gameOver && sound in options
      modifies this`selectedSounds
      ensures Valid()
      ensures selectedSounds == Toggle(old(selectedSounds), sound)
    {
      selectedSounds := Toggle(selectedSounds, sound);
    }

    /**
     * `checkAnswer`. Without a word (no playable word was found) reading the
     * transcription throws before anything changes.
     */
    method CheckAnswer() returns (thrown: bool, correct: nat, incorrect: nat, perfect: bool)
      requires Valid() && !checkDisabled
      modifies this`score, this`attainable, this`checkDisabled, this`nextDisabled
      ensures Valid()
      ensures thrown <==> currentWord.None?
      ensures thrown ==> score == old(score) && attainable == old(attainable)
                         && checkDisabled == old(checkDisabled) && nextDisabled == old(nextDisabled)
      ensures !thrown ==> correct == |Hits(selectedSounds, correctSounds)| && incorrect == |Wrong(selectedSounds, correctSounds)|
      ensures !thrown ==> score == old(score) + RoundScore(correct, incorrect)
                          && attainable == old(attainable) + |correctSounds|
      ensures !thrown ==> (perfect <==> correct == |correctSounds| && incorrect == 0)
      ensures !thrown ==> (perfect <==> selectedSounds == Elements(correctSounds))
      ensures !thrown ==> checkDisabled && !nextDisabled
    {
      if currentWord.None? {
        thrown, correct, incorrect, perfect := true, 0, 0, false;
        return;
      }
      thrown := false;
      correct, incorrect, perfect := Tally(selectedSounds, correctSounds);
      var gained, offered := RoundScore(correct, incorrect), |correctSounds|;
      assert gained <= offered;
      score, attainable, checkDisabled, nextDisabled := score + gained, attainable + offered, true, false;
    }

    /** `endGame`, with the percentage taken over the points offered. */
    method EndGame() returns (percentage: int)
      requires Valid()
      modifies this`gameOver
      ensures gameOver
      ensures percentage == Accuracy(score, attainable)
      ensures 0 <= percentage <= 100
    {
      gameOver := true;
      percentage := if attainable == 0 then 0 else RoundedPercent(score, attainable);
      AccuracyInRange(score, attainable);
    }

    /**
     * `nextRound`: the game ends after ten rounds; otherwise the round number
     * advances, the selection is cleared and a new word is dealt with its
     * options (the previous ones stay when no word is playable).
     */
    method NextRound(dict: seq<Entry>, wordDraw: nat, optionDraws: seq<nat>) returns (final: Option<int>)
      requires Valid()
      requires PlayableWords(dict) != [] ==> wordDraw < |PlayableWords(dict)|
      requires forall k :: 0 <= k < |optionDraws| ==> optionDraws[k] < |allPhoneticSounds|
      modifies this
      ensures Valid()
      ensures old(round) >= MaxRounds ==> gameOver && final == Some(Accuracy(score, attainable))
      ensures old(round) >= MaxRounds ==> round == old(round) && score == old(score) && attainable == old(attainable)
      ensures old(round) >= MaxRounds ==>
        currentWord == old(currentWord) && correctSounds == old(correctSounds) && options == old(options)
        && selectedSounds == old(selectedSounds) && checkDisabled == old(checkDisabled) && nextDisabled == old(nextDisabled)
      ensures old(round) < MaxRounds ==> final.None? && round == old(round) + 1 && gameOver == old(gameOver)
                                         && score == old(score) && attainable == old(attainable)
      ensures old(round) < MaxRounds ==> selectedSounds == {} && !checkDisabled && nextDisabled
      ensures old(round) < MaxRounds && RandomWord(dict, wordDraw).None? ==>
                currentWord == old(currentWord) && correctSounds == old(correctSounds) && options == old(options)
      ensures old(round) < MaxRounds && RandomWord(dict, wordDraw).Some? ==>
                currentWord == RandomWord(dict, wordDraw)
                && correctSounds == CorrectSounds(allPhoneticSounds, Preferred(currentWord.value))
                && options == Options(allPhoneticSounds, correctSounds, optionDraws)
    {
      if round >= MaxRounds {
        var percentage := EndGame();
        final := Some(percentage);
        return;
      }
      final := None;
      var word, correct, offered := DealRound(allPhoneticSounds, dict, wordDraw, optionDraws);
      BeginRound(word, correct, offered);
    }

    /** The part of `nextRound` after the round-count test, with the word and its options already drawn. */
    method BeginRound(word: Option<Entry>, correct: seq<string>, offered: set<string>)
      requires Valid() && round < MaxRounds
      requires word.Some? ==> correct == CorrectSounds(allPhoneticSounds, Preferred(word.value))
      requires Distinct(correct) && Elements(correct) <= offered
      modifies this`round, this`selectedSounds, this`currentWord, this`correctSounds, this`options,
               this`checkDisabled, this`nextDisabled
      ensures Valid()
      ensures round == old(round) + 1 && selectedSounds == {} && !checkDisabled && nextDisabled
      ensures word.None? ==> currentWord == old(currentWord) && correctSounds == old(correctSounds) && options == old(options)
      ensures word.Some? ==> currentWord == word && correctSounds == correct && options == offered
    {
      round := round + 1;
      selectedSounds := {};
      if word.Some? {
        currentWord, correctSounds, options := word, correct, offered;
      }
      checkDisabled, nextDisabled := false, true;
    }

    /** `startGame`, also behind the Play Again button. */
    method StartGame(dict: seq<Entry>, wordDraw: nat, optionDraws: seq<nat>)
      requires Valid()
      requires PlayableWords(dict) != [] ==> wordDraw < |PlayableWords(dict)|
      requires forall k :: 0 <= k < |optionDraws| ==> optionDraws[k] < |allPhoneticSounds|
      modifies this
      ensures Valid()
      ensures score == 0 && attainable == 0 && round == 1 && !gameOver
      ensures selectedSounds == {} && !checkDisabled && nextDisabled
      ensures RandomWord(dict, wordDraw).None? ==>
                currentWord == old(currentWord) && correctSounds == old(correctSounds) && options == old(options)
      ensures RandomWord(dict, wordDraw).Some? ==>
                currentWord == RandomWord(dict, wordDraw)
                && correctSounds == CorrectSounds(allPhoneticSounds, Preferred(currentWord.value))
                && options == Options(allPhoneticSounds, correctSounds, optionDraws)
    {
      score, round, attainable, gameOver := 0, 0, 0, false;
      var _ := NextRound(dict, wordDraw, optionDraws);
    }
  }
}
