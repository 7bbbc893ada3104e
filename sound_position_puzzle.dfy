// The sound position puzzle: each round draws a sound and a part of the word
// (first, middle, last), finds the dictionary words whose transcription has
// the sound in that part, shows up to five of them among up to ten words, and
// scores the player's selection as correct picks minus wrong picks.
module SoundPositionPuzzleGame {
  import opened Wrappers
  import opened Text
  import opened PhoneticSearch
  import opened Collections
  import opened Dictionary
  import opened SymbolLocator
  import opened PositionClassifier
  import opened GameRules

  const MaxRounds: nat := 10
  /** The most correct words a round shows, and the most words it shows. */
  const MaxCorrectShown: nat := 5
  const MaxShown: nat := 10

  const PuzzleSounds: seq<string> := [
    "æ", "ə", "ɑ", "ɔ", "ɛ", "ɪ", "i", "ʊ", "u", "ʌ", "e", "ɒ",
    "p", "b", "t", "d", "k", "g", "f", "v", "θ", "ð", "s", "z", "ʃ", "ʒ",
    "tʃ", "dʒ", "h", "l", "r", "j", "w", "m", "n", "ŋ"
  ]
  const Positions: seq<PositionType> := [First, Middle, Last]

  /** `allPhoneticSounds[Math.floor(Math.random() * length)]`. */
  function DrawnSound(draw: real): (sound: string)
    requires 0.0 <= draw < 1.0
    ensures sound != []
  {
    PuzzleSounds[Pick(draw, |PuzzleSounds|)]
  }

  /** `positions[Math.floor(Math.random() * 3)]`. */
  function DrawnPosition(draw: real): PositionType
    requires 0.0 <= draw < 1.0
  {
    Positions[Pick(draw, |Positions|)]
  }

  /** A word the round accepts: located in its shown transcription, past the affricate cut, in the part asked for. */
  predicate PuzzleMatch(e: Entry, sound: string, pos: PositionType)
  {
    var l := LocateSpec(e, sound);
    l.phonetic != [] && l.positions != [] && SurvivesAffricateCut(l.phonetic, sound) && InBucket(l, pos)
  }

  /** The correct words of a round, in dictionary order. */
  function MatchingWords(dict: seq<Entry>, sound: string, pos: PositionType): (r: seq<Entry>)
    ensures |r| <= |dict|
  {
    if dict == [] then []
    else
      var e := dict[|dict| - 1];
      MatchingWords(dict[..|dict| - 1], sound, pos) + (if PuzzleMatch(e, sound, pos) then [e] else [])
  }

  lemma {:induction false} MatchingWordsMembers(dict: seq<Entry>, sound: string, pos: PositionType)
    ensures forall e :: e in MatchingWords(dict, sound, pos) <==> e in dict && PuzzleMatch(e, sound, pos)
  {
    if dict != [] {
      var init := dict[..|dict| - 1];
      assert dict == init + [dict[|dict| - 1]];
      MatchingWordsMembers(init, sound, pos);
    }
  }

  /** Only words with a transcription can match, so the pre-filter of the source changes nothing. */
  lemma {:induction false} MatchingWordsOfTranscribed(dict: seq<Entry>, sound: string, pos: PositionType)
    ensures MatchingWords(Filter(dict, HasPhonetics), sound, pos) == MatchingWords(dict, sound, pos)
  {
    if dict != [] {
      var init, e := dict[..|dict| - 1], dict[|dict| - 1];
      MatchingWordsOfTranscribed(init, sound, pos);
      var f := Filter(init, HasPhonetics);
      if HasPhonetics(e) {
        assert Filter(dict, HasPhonetics) == f + [e];
        assert (f + [e])[..|f + [e]| - 1] == f;
      } else {
        assert Filter(dict, HasPhonetics) == f;
        assert !PuzzleMatch(e, sound, pos);
      }
    }
  }

  lemma MatchingWordsSnoc(ws: seq<Entry>, i: nat, sound: string, pos: PositionType)
    requires i < |ws|
    ensures MatchingWords(ws[..i + 1], sound, pos)
         == MatchingWords(ws[..i], sound, pos) + (if PuzzleMatch(ws[i], sound, pos) then [ws[i]] else [])
  {
    assert ws[..i + 1][..i] == ws[..i];
  }

  /** The part of a transcription of length `len` that offset `p` lies in, with `len * 0.2` and `len * 0.8` over the integers. */
  predicate InPart(p: nat, len: nat, pos: PositionType)
  {
    match pos
    case First => 5 * p <= len
    case Middle => len < 5 * p < 4 * len
    case Last => 5 * p >= 4 * len
  }

  /**
   * The correct words are exactly the dictionary words that have a
   * transcription, pass the affricate cut, and hold the sound at some offset
   * of the part asked for.
   */
  lemma {:induction false} MatchingWordsMeaning(dict: seq<Entry>, sound: string, pos: PositionType, e: Entry)
    ensures e in MatchingWords(dict, sound, pos) <==>
      e in dict && HasPhonetics(e) && SurvivesAffricateCut(Preferred(e), sound)
      && exists p :: OccursAt(Preferred(e), sound, p) && InPart(p, |Preferred(e)|, pos)
  {
    MatchingWordsMembers(dict, sound, pos);
    var l := LocateSpec(e, sound);
    OccurrencesExact(l.phonetic, sound, 0);
    if InBucket(l, pos) {
      var i :| 0 <= i < |l.positions| && InPart(l.positions[i], |l.phonetic|, pos);
      assert l.positions[i] in l.positions;
    }
    if exists p :: OccursAt(Preferred(e), sound, p) && InPart(p, |Preferred(e)|, pos) {
      var p :| OccursAt(Preferred(e), sound, p) && InPart(p, |Preferred(e)|, pos);
      assert p in l.positions;
      var i :| 0 <= i < |l.positions| && l.positions[i] == p;
      assert InBucket(l, pos);
    }
  }

  /** The words offered as wrong answers: every other word with a transcription. */
  function Fillers(dict: seq<Entry>, correct: seq<Entry>): seq<Entry>
  {
    Filter(dict, e => e !in correct && HasPhonetics(e))
  }

  /** Up to five correct words, then wrong ones up to ten words in all, before the final shuffle. */
  function Offered(correctOrder: seq<Entry>, fillerOrder: seq<Entry>): seq<Entry>
  {
    var k := if |correctOrder| < MaxCorrectShown then |correctOrder| else MaxCorrectShown;
    var m := if |fillerOrder| < MaxShown - k then |fillerOrder| else MaxShown - k;
    correctOrder[..k] + fillerOrder[..m]
  }

  /** `word => correct.includes(word)`. */
  function IsIn(correct: seq<Entry>): Entry -> bool
  {
    w => w in correct
  }

  /** How many shown words are correct: `correctWordsInDisplay`. */
  function CorrectShown(displayed: seq<Entry>, correct: seq<Entry>): (n: nat)
    ensures n <= |displayed|
  {
    Count(displayed, IsIn(correct))
  }

  /** The wrong answers offered are other words with a transcription. */
  lemma FillersQualify(dict: seq<Entry>, correct: seq<Entry>, fillerOrder: seq<Entry>, w: Entry)
    requires multiset(fillerOrder) == multiset(Fillers(dict, correct))
    requires w in fillerOrder
    ensures w !in correct && w in dict && HasPhonetics(w)
  {
    assert w in multiset(fillerOrder);
    assert w in Fillers(dict, correct);
  }

  /** Before the final shuffle: at most ten words, the first min(5, #correct) of them correct, no later one. */
  lemma {:induction false} OfferedCount(dict: seq<Entry>, correct: seq<Entry>, correctOrder: seq<Entry>, fillerOrder: seq<Entry>)
    requires multiset(correctOrder) == multiset(correct)
    requires multiset(fillerOrder) == multiset(Fillers(dict, correct))
    ensures |Offered(correctOrder, fillerOrder)| <= MaxShown
    ensures CorrectShown(Offered(correctOrder, fillerOrder), correctOrder)
            == if |correct| < MaxCorrectShown then |correct| else MaxCorrectShown
  {
    var k := if |correctOrder| < MaxCorrectShown then |correctOrder| else MaxCorrectShown;
    var m := if |fillerOrder| < MaxShown - k then |fillerOrder| else MaxShown - k;
    var shown, others := correctOrder[..k], fillerOrder[..m];
    assert Offered(correctOrder, fillerOrder) == shown + others;
    var isCorrect := IsIn(correctOrder);
    assert |correctOrder| == |multiset(correctOrder)| == |multiset(correct)| == |correct|;
    assert CorrectShown(Offered(correctOrder, fillerOrder), correctOrder) == Count(shown + others, isCorrect);
    CountAppend(shown, others, isCorrect);
    FilterAll(shown, isCorrect);
    CountIsFilterLength(shown, isCorrect);
    assert Count(shown, isCorrect) == k;
    forall w | w in others
      ensures !isCorrect(w)
    {
      FillersQualify(dict, correct, fillerOrder, w);
      assert w !in multiset(correct);
    }
    CountNone(others, isCorrect);
    assert |shown + others| == k + m;
  }

  /**
   * Whatever the shuffles, a round shows at most ten words, exactly
   * min(5, #correct) of them correct, the rest being other words with a
   * transcription.
   */
  lemma OfferedBounds(dict: seq<Entry>, correct: seq<Entry>, correctOrder: seq<Entry>,
                      fillerOrder: seq<Entry>, display: seq<Entry>)
    requires multiset(correctOrder) == multiset(correct)
    requires multiset(fillerOrder) == multiset(Fillers(dict, correct))
    requires multiset(display) == multiset(Offered(correctOrder, fillerOrder))
    ensures |display| <= MaxShown
    ensures CorrectShown(display, correctOrder) == if |correct| < MaxCorrectShown then |correct| else MaxCorrectShown
    ensures forall w :: w in display ==> w in correct || (w in dict && HasPhonetics(w))
  {
    var offered := Offered(correctOrder, fillerOrder);
    OfferedCount(dict, correct, correctOrder, fillerOrder);
    assert |display| == |multiset(display)| == |multiset(offered)| == |offered|;
    CountPermutation(display, offered, IsIn(correctOrder));
    forall w | w in display
      ensures w in correct || (w in dict && HasPhonetics(w))
    {
      assert w in multiset(offered);
      var k := if |correctOrder| < MaxCorrectShown then |correctOrder| else MaxCorrectShown;
      var m := if |fillerOrder| < MaxShown - k then |fillerOrder| else MaxShown - k;
      if w in correctOrder[..k] {
        assert w in multiset(correct);
      } else {
        assert w in fillerOrder[..m];
        FillersQualify(dict, correct, fillerOrder, w);
      }
    }
  }

  /** The game-over percentage as the source computes it: the score out of the number of rounds. */
  function AccuracyAsWritten(score: nat): (p: int)
    ensures score <= MaxRounds ==> 0 <= p <= 100
  {
    if score <= MaxRounds then PercentAtMostHundred(score, MaxRounds); RoundedPercent(score, MaxRounds)
    else RoundedPercent(score, MaxRounds)
  }

  /**
   * Three rounds with five correct words shown, each answered by selecting
   * just those five, score 15 and show 150% on the game-over screen, while
   * the corrected percentage is 100.
   */
  lemma {:induction false} AccuracyAsWrittenOverflows()
    ensures AccuracyAsWritten(3 * RoundScore(5, 0)) == 150
    ensures Accuracy(3 * RoundScore(5, 0), 3 * 5) == 100
  {
    PercentOfTen(15);
  }

  /**
   * A player who selected only shown words, in a round that shows no word
   * twice, gets the Perfect feedback exactly when the selection is the set
   * of correct words shown.
   */
  lemma PerfectIffExactSelection(displayed: seq<Entry>, correct: seq<Entry>, selected: set<Entry>)
    requires Distinct(displayed) && forall w :: w in selected ==> w in displayed
    ensures var hits := set w | w in selected && w in correct;
            var misses := set w | w in selected && w !in correct;
            (|hits| == CorrectShown(displayed, correct) && misses == {})
              <==> selected == set w | w in displayed && w in correct
  {
    var target := set w | w in displayed && w in correct;
    var hits := set w | w in selected && w in correct;
    var misses := set w | w in selected && w !in correct;
    var isCorrect := IsIn(correct);
    DistinctCount(displayed, isCorrect);
    assert target == Members(displayed, isCorrect);
    assert |target| == CorrectShown(displayed, correct);
    assert hits <= target;
    if selected == target {
      assert hits == target;
      assert misses == {};
    }
    if misses == {} {
      forall w | w in selected
        ensures w in hits
      {
        assert w !in misses;
      }
      assert selected == hits;
    }
    if |hits| == |target| {
      SubsetSameSize(hits, target);
    }
  }

  /** The `forEach` callback of `findMatchingWords`: whether one word goes into the correct words. */
  method MatchesRound(word: Entry, sound: string, pos: PositionType) returns (isInPosition: bool)
    requires sound != []
    ensures isInPosition == PuzzleMatch(word, sound, pos)
  {
    var l := Locate(word, sound);
    var phonetic := l.phonetic;
    if phonetic == [] || |l.positions| == 0 {
      return false;
    }
    if IsSpecialCase(phonetic, sound) && !Includes(ReplaceFirst(phonetic, AffricateOf(sound), ""), sound) {
      return false;
    }
    isInPosition := InBucket(l, pos);
  }

  /**
   * The three `sort(() => Math.random() - 0.5)` calls of `generateWordOptions`:
   * the correct words, the wrong ones and the words shown, each shuffled by
   * its own permutation.
   */
  datatype Shuffles = Shuffles(correct: seq<Entry> -> seq<Entry>, fillers: seq<Entry> -> seq<Entry>,
                               shown: seq<Entry> -> seq<Entry>)

  ghost predicate AreShuffles(shuffles: Shuffles)
  {
    IsShuffle(shuffles.correct) && IsShuffle(shuffles.fillers) && IsShuffle(shuffles.shown)
  }

  class SoundPositionPuzzle {
    var score: nat
    var round: nat
    /** The number of correct words shown in the rounds checked so far. */
    var attainable: nat
    var currentSound: string
    var currentPosition: PositionType
    var correctWords: seq<Entry>
    var selectedWords: set<Entry>
    var displayedWords: seq<Entry>
    var checkDisabled: bool
    var nextDisabled: bool
    var gameOver: bool

    ghost predicate Valid()
      reads this
    {
      round <= MaxRounds
      && score <= attainable
      && |displayedWords| <= MaxShown
      && CorrectShown(displayedWords, correctWords) <= MaxCorrectShown
      && (forall w :: w in selectedWords ==> w in displayedWords)
    }

    /** The fields as the constructor and the first render leave them. */
    constructor()
      ensures Valid()
      ensures score == 0 && round == 0 && attainable == 0 && currentSound == []
      ensures correctWords == [] && selectedWords == {} && displayedWords == []
      ensures !checkDisabled && nextDisabled && !gameOver
    {
      score, round, attainable := 0, 0, 0;
      currentSound, currentPosition := [], First;
      correctWords, selectedWords, displayedWords := [], {}, [];
      checkDisabled, nextDisabled, gameOver := false, true, false;
    }

    /** `findMatchingWords`: the indexOf scan, the affricate cut and the part test, word by word. */
    method FindMatchingWords(dict: seq<Entry>)
      requires currentSound != []
      modifies this`correctWords
      ensures correctWords == MatchingWords(dict, currentSound, currentPosition)
    {
      var sound, pos := currentSound, currentPosition;
      var wordsWithPhonetics := Filter(dict, HasPhonetics);
      correctWords := [];
      for i := 0 to |wordsWithPhonetics|
        invariant correctWords == MatchingWords(wordsWithPhonetics[..i], sound, pos)
      {
        var word := wordsWithPhonetics[i];
        MatchingWordsSnoc(wordsWithPhonetics, i, sound, pos);
        var isInPosition := MatchesRound(word, sound, pos);
        if isInPosition {
          correctWords := correctWords + [word];
        }
      }
      assert wordsWithPhonetics[..|wordsWithPhonetics|] == wordsWithPhonetics;
      MatchingWordsOfTranscribed(dict, sound, pos);
    }

    /** `generateWordOptions`: the correct words are shuffled in place, five of them shown with shuffled fillers, the lot shuffled. */
    method GenerateWordOptions(dict: seq<Entry>, shuffles: Shuffles)
      requires AreShuffles(shuffles)
      modifies this`correctWords, this`displayedWords
      ensures correctWords == shuffles.correct(old(correctWords))
      ensures displayedWords == shuffles.shown(Offered(correctWords, shuffles.fillers(Fillers(dict, correctWords))))
      ensures |displayedWords| <= MaxShown
      ensures CorrectShown(displayedWords, correctWords)
              == if |correctWords| < MaxCorrectShown then |correctWords| else MaxCorrectShown
    {
      correctWords := Shuffled(shuffles.correct, correctWords);
      var k := if |correctWords| < MaxCorrectShown then |correctWords| else MaxCorrectShown;
      displayedWords := correctWords[..k];
      var incorrectWords := Shuffled(shuffles.fillers, Fillers(dict, correctWords));
      var m := if |incorrectWords| < MaxShown - k then |incorrectWords| else MaxShown - k;
      displayedWords := displayedWords + incorrectWords[..m];
      assert displayedWords == Offered(correctWords, incorrectWords);
      displayedWords := Shuffled(shuffles.shown, displayedWords);
      OfferedBounds(dict, correctWords, correctWords, incorrectWords, displayedWords);
    }

    /** A click on a shown word toggles its selection. */
    method ToggleWord(word: Entry)
      requires Valid() && word in displayedWords
      modifies this`selectedWords
      ensures Valid()
      ensures selectedWords == Toggle(old(selectedWords), word)
    {
      selectedWords := Toggle(selectedWords, word);
    }

    /** `checkAnswer`: score the selection, report the misses, swap the buttons. */
    method CheckAnswer() returns (correctSelections: set<Entry>, incorrectSelections: set<Entry>, missed: seq<Entry>, perfect: bool)
      requires Valid() && !checkDisabled
      modifies this`score, this`attainable, this`checkDisabled, this`nextDisabled
      ensures Valid()
      ensures correctSelections == set w | w in selectedWords && w in correctWords
      ensures incorrectSelections == set w | w in selectedWords && w !in correctWords
      ensures score == old(score) + RoundScore(|correctSelections|, |incorrectSelections|)
      ensures score <= old(score) + MaxCorrectShown
      ensures attainable == old(attainable) + CorrectShown(displayedWords, correctWords)
      ensures perfect <==> |correctSelections| == CorrectShown(displayedWords, correctWords) && incorrectSelections == {}
      ensures forall w :: w in missed <==> w in correctWords && w in displayedWords && w !in selectedWords
      ensures checkDisabled && !nextDisabled
    {
      var correct, shown, selected := correctWords, displayedWords, selectedWords;
      correctSelections := set w | w in selected && w in correct;
      incorrectSelections := set w | w in selected && w !in correct;
      missed := Filter(correct, w => w in shown && w !in selected);
      var correctWordsInDisplay := CorrectShown(shown, correct);
      SetAtMostCount(correctSelections, shown, IsIn(correct));
      score := score + RoundScore(|correctSelections|, |incorrectSelections|);
      attainable := attainable + correctWordsInDisplay;
      perfect := |correctSelections| == correctWordsInDisplay && |incorrectSelections| == 0;
      checkDisabled, nextDisabled := true, false;
    }

    /** `getRandomSoundAndPosition`: draw the sound and the part, then find the correct words. */
    method GetRandomSoundAndPosition(dict: seq<Entry>, soundDraw: real, positionDraw: real)
      requires 0.0 <= soundDraw < 1.0 && 0.0 <= positionDraw < 1.0
      modifies this`currentSound, this`currentPosition, this`correctWords
      ensures currentSound == DrawnSound(soundDraw) && currentPosition == DrawnPosition(positionDraw)
      ensures correctWords == MatchingWords(dict, currentSound, currentPosition)
    {
      currentSound := DrawnSound(soundDraw);
      currentPosition := DrawnPosition(positionDraw);
      FindMatchingWords(dict);
    }

    /**
     * The round on screen is the one the draws deal: the drawn sound and
     * position, their matching words shuffled, and the words offered from
     * them and the fillers.
     */
    ghost predicate Dealt(dict: seq<Entry>, soundDraw: real, positionDraw: real, shuffles: Shuffles)
      requires 0.0 <= soundDraw < 1.0 && 0.0 <= positionDraw < 1.0
      reads this
    {
      currentSound == DrawnSound(soundDraw) && currentPosition == DrawnPosition(positionDraw)
      && correctWords == shuffles.correct(MatchingWords(dict, currentSound, currentPosition))
      && displayedWords == shuffles.shown(Offered(correctWords, shuffles.fillers(Fillers(dict, correctWords))))
    }

    /** The body of `nextRound` once the round count allows another round. */
    method BeginRound(dict: seq<Entry>, soundDraw: real, positionDraw: real,
                      shuffles: Shuffles)
      requires Valid() && round < MaxRounds
      requires 0.0 <= soundDraw < 1.0 && 0.0 <= positionDraw < 1.0
      requires AreShuffles(shuffles)
      modifies this`round, this`selectedWords, this`currentSound, this`currentPosition, this`correctWords,
               this`displayedWords, this`checkDisabled, this`nextDisabled
      ensures Valid()
      ensures round == old(round) + 1 && selectedWords == {}
      ensures Dealt(dict, soundDraw, positionDraw, shuffles)
      ensures !checkDisabled && nextDisabled
    {
      round := round + 1;
      selectedWords := {};
      Deal(dict, soundDraw, positionDraw, shuffles);
      checkDisabled, nextDisabled := false, true;
    }

    /** The draws and the word options of a new round. */
    method Deal(dict: seq<Entry>, soundDraw: real, positionDraw: real, shuffles: Shuffles)
      requires 0.0 <= soundDraw < 1.0 && 0.0 <= positionDraw < 1.0
      requires AreShuffles(shuffles)
      modifies this`currentSound, this`currentPosition, this`correctWords, this`displayedWords
      ensures Dealt(dict, soundDraw, positionDraw, shuffles)
      ensures |displayedWords| <= MaxShown && CorrectShown(displayedWords, correctWords) <= MaxCorrectShown
    {
      GetRandomSoundAndPosition(dict, soundDraw, positionDraw);
      GenerateWordOptions(dict, shuffles);
    }

    /** `nextRound`, behind the Next Puzzle button: after the last round the game ends with its percentage. */
    method NextRound(dict: seq<Entry>, soundDraw: real, positionDraw: real,
                     shuffles: Shuffles)
      returns (final: Option<int>)
      requires Valid() && !nextDisabled
      requires 0.0 <= soundDraw < 1.0 && 0.0 <= positionDraw < 1.0
      requires AreShuffles(shuffles)
      modifies this
      ensures Valid()
      ensures old(round) >= MaxRounds ==> gameOver && final == Some(Accuracy(score, attainable))
      ensures old(round) >= MaxRounds ==> round == old(round) && score == old(score) && attainable == old(attainable)
      ensures old(round) >= MaxRounds ==>
        currentSound == old(currentSound) && currentPosition == old(currentPosition)
        && correctWords == old(correctWords) && displayedWords == old(displayedWords) && selectedWords == old(selectedWords)
        && checkDisabled == old(checkDisabled) && nextDisabled == old(nextDisabled)
      ensures old(round) < MaxRounds ==> final.None? && round == old(round) + 1 && score == old(score)
                                         && attainable == old(attainable) && gameOver == old(gameOver)
      ensures old(round) < MaxRounds ==> Dealt(dict, soundDraw, positionDraw, shuffles) && selectedWords == {}
                                         && !checkDisabled && nextDisabled
    {
      if round >= MaxRounds {
        var percentage := EndGame();
        final := Some(percentage);
        return;
      }
      BeginRound(dict, soundDraw, positionDraw, shuffles);
      final := None;
    }

    /** `startGame`, also behind the Play Again button. */
    method StartGame(dict: seq<Entry>, soundDraw: real, positionDraw: real,
                     shuffles: Shuffles)
      requires Valid()
      requires 0.0 <= soundDraw < 1.0 && 0.0 <= positionDraw < 1.0
      requires AreShuffles(shuffles)
      modifies this
      ensures Valid()
      ensures round == 1 && score == 0 && attainable == 0 && !gameOver
      ensures Dealt(dict, soundDraw, positionDraw, shuffles) && selectedWords == {}
      ensures !checkDisabled && nextDisabled
    {
      score, round, attainable, gameOver := 0, 0, 0, false;
      BeginRound(dict, soundDraw, positionDraw, shuffles);
    }

    /** `endGame` with the corrected percentage. */
    method EndGame() returns (percentage: int)
      requires Valid()
      modifies this`gameOver
      ensures gameOver
      ensures percentage == Accuracy(score, attainable)
      ensures 0 <= percentage <= 100
    {
      gameOver := true;
      percentage := if attainable == 0 then 0 else RoundedPercent(score, attainable);
      AccuracyInRange(score, attainable);
    }
  }
}
