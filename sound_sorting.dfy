// Sound Sorting (the game whose class is declared in js/games/sound-sorting.js):
// three sounds of a group, up to five words for each, shuffled into one pool
// of cards; the player drags each card into the category of its sound and
// checks. The category lists are kept parallel to the three sounds, which is
// the order in which the application creates their keys. A sorted entry is
// the index of its card in the pool: the application pushes the card object
// itself, and the index is that object's identity.
module SoundSorting {
  import opened Wrappers
  import opened Text
  import opened Collections
  import opened Dictionary
  import opened PhoneticSearch
  import opened GameRules
  import opened Categories

  const MaxRounds := 5
  const WordsPerSound := 5

  /** The ten `soundPairs` groups (each of three sounds). */
  const SoundGroups: seq<seq<string>> := [
    ["æ", "ʌ", "ɑ"], ["iː", "ɪ", "e"], ["uː", "ʊ", "ɔ"], ["eɪ", "aɪ", "ɔɪ"], ["p", "t", "k"],
    ["b", "d", "g"], ["f", "θ", "s"], ["v", "ð", "z"], ["m", "n", "ŋ"], ["tʃ", "dʒ", "ʃ"]
  ]

  /**
   * `soundPairs[Math.floor(Math.random() * soundPairs.length)]`: three
   * different sounds, so the three category keys never collide.
   */
  function DrawnGroup(draw: real): (r: seq<string>)
    requires 0.0 <= draw < 1.0
    ensures |r| == 3 && Distinct(r)
  {
    SoundGroups[Pick(draw, |SoundGroups|)]
  }

  /** A card of the pool: the word, the transcription shown, and the sound it was found for. */
  datatype WordCard = WordCard(word: string, phonetic: string, correctSound: string)

  // ---- dealing ----

  /** The test `findWordsWithSound` applies to a transcribed word: the sound is there, outside the first affricate. */
  predicate SortingMatch(e: Entry, sound: string)
  {
    var ph := Preferred(e);
    SurvivesAffricateCut(ph, sound) && Includes(ph, sound)
  }

  function MatchFor(sound: string): Entry -> bool
  {
    e => SortingMatch(e, sound)
  }

  /** The `map` that turns the found words into cards. */
  function CardsOf(es: seq<Entry>, sound: string): (r: seq<WordCard>)
    ensures |r| == |es|
    ensures forall i :: 0 <= i < |es| ==> r[i] == WordCard(es[i].word, Preferred(es[i]), sound)
  {
    seq(|es|, i requires 0 <= i < |es| => WordCard(es[i].word, Preferred(es[i]), sound))
  }

  /** `findWordsWithSound(sound, count)`: the matching words in shuffled order, the first `count`, as cards. */
  function FindWordsWithSound(dict: seq<Entry>, sound: string, count: nat, shuffle: seq<Entry> -> seq<Entry>): seq<WordCard>
  {
    CardsOf(Take(Shuffled(shuffle, Filter(Filter(dict, HasPhonetics), MatchFor(sound))), count), sound)
  }

  /**
   * At most `count` cards, each for a dictionary word whose transcription is
   * non-empty and holds the sound outside the first affricate, tagged with
   * that sound.
   */
  lemma FoundCardsQualify(dict: seq<Entry>, sound: string, count: nat, shuffle: seq<Entry> -> seq<Entry>)
    requires IsShuffle(shuffle)
    ensures var r := FindWordsWithSound(dict, sound, count, shuffle);
      |r| <= count
      && forall c :: c in r ==>
           c.correctSound == sound && c.phonetic != [] && Includes(c.phonetic, sound)
           && SurvivesAffricateCut(c.phonetic, sound)
           && exists e :: e in dict && e.word == c.word && Preferred(e) == c.phonetic
  {
    var found := Filter(Filter(dict, HasPhonetics), MatchFor(sound));
    var shuffled := Shuffled(shuffle, found);
    assert multiset(shuffled) == multiset(found);
    var taken := Take(shuffled, count);
    var r := CardsOf(taken, sound);
    forall c | c in r
      ensures c.correctSound == sound && c.phonetic != [] && Includes(c.phonetic, sound)
      ensures SurvivesAffricateCut(c.phonetic, sound)
      ensures exists e :: e in dict && e.word == c.word && Preferred(e) == c.phonetic
    {
      var i :| 0 <= i < |r| && r[i] == c;
      var e := taken[i];
      assert e in shuffled;
      assert e in multiset(found);
      assert e in found;
      PreferredPresent(e);
    }
  }

  /** The pool `getRandomSoundsAndWords` collects before the shuffle: each sound's cards in turn. */
  function Pool(dict: seq<Entry>, sounds: seq<string>, shuffle: seq<Entry> -> seq<Entry>): seq<WordCard>
  {
    if sounds == [] then []
    else Pool(dict, sounds[..|sounds| - 1], shuffle) + FindWordsWithSound(dict, sounds[|sounds| - 1], WordsPerSound, shuffle)
  }

  /** At most five cards a sound, each tagged with one of the sounds, whose transcription holds it. */
  lemma {:induction false} PoolQualifies(dict: seq<Entry>, sounds: seq<string>, shuffle: seq<Entry> -> seq<Entry>)
    requires IsShuffle(shuffle)
    ensures |Pool(dict, sounds, shuffle)| <= WordsPerSound * |sounds|
    ensures forall c :: c in Pool(dict, sounds, shuffle) ==>
      c.correctSound in sounds && Includes(c.phonetic, c.correctSound)
  {
    if sounds != [] {
      var init, last := sounds[..|sounds| - 1], sounds[|sounds| - 1];
      PoolQualifies(dict, init, shuffle);
      FoundCardsQualify(dict, last, WordsPerSound, shuffle);
      forall c | c in Pool(dict, sounds, shuffle)
        ensures c.correctSound in sounds && Includes(c.phonetic, c.correctSound)
      {
        if c in Pool(dict, init, shuffle) {
          assert c.correctSound in init;
          var k :| 0 <= k < |init| && init[k] == c.correctSound;
          assert sounds[k] == c.correctSound;
        }
      }
    }
  }

  /** The dealt pool, shuffled, holds the same cards. */
  lemma DealtCardsQualify(dict: seq<Entry>, sounds: seq<string>, shuffleWords: seq<Entry> -> seq<Entry>,
                          shuffleCards: seq<WordCard> -> seq<WordCard>)
    requires IsShuffle(shuffleWords) && IsShuffle(shuffleCards)
    ensures var cards := Shuffled(shuffleCards, Pool(dict, sounds, shuffleWords));
      |cards| <= WordsPerSound * |sounds|
      && forall c :: c in cards ==> c.correctSound in sounds && Includes(c.phonetic, c.correctSound)
  {
    var pool := Pool(dict, sounds, shuffleWords);
    var cards := Shuffled(shuffleCards, pool);
    PoolQualifies(dict, sounds, shuffleWords);
    assert multiset(cards) == multiset(pool);
    assert |cards| == |multiset(cards)| == |multiset(pool)| == |pool|;
    forall c | c in cards
      ensures c.correctSound in sounds && Includes(c.phonetic, c.correctSound)
    {
      assert c in multiset(pool);
    }
  }

  // ---- the categories ----

  /** `wordsToSort.find(w => w.word === word)`: the first card showing the text. */
  function FindCard(cards: seq<WordCard>, word: string): (r: Option<nat>)
    ensures r.None? <==> forall j :: 0 <= j < |cards| ==> cards[j].word != word
    ensures r.Some? ==>
      r.value < |cards| && cards[r.value].word == word && forall j :: 0 <= j < r.value ==> cards[j].word != word
  {
    if cards == [] then None
    else if cards[0].word == word then Some(0)
    else match FindCard(cards[1..], word)
      case None => None
      case Some(j) => Some(j + 1)
  }

  /** The card at index j shows the text. */
  predicate Shows(cards: seq<WordCard>, j: nat, word: string)
  {
    j < |cards| && cards[j].word == word
  }

  /** `w => w.word !== word` on card indices. */
  function OtherText(cards: seq<WordCard>, word: string): nat -> bool
  {
    (j: nat) => !Shows(cards, j, word)
  }

  /** What moving cards by their text keeps: each sorted card is the first card showing its text. */
  ghost predicate FirstCardsOnly(cards: seq<WordCard>, lists: seq<seq<nat>>)
  {
    WellSorted(|cards|, lists)
    && forall x: nat :: x in Flatten(lists) ==> x < |cards| && FindCard(cards, cards[x].word) == Some(x)
  }

  /** Clicking a sorted card: its text leaves that one category, and the lists stay well sorted. */
  lemma ReturnKeepsSorted(cards: seq<WordCard>, lists: seq<seq<nat>>, category: nat, word: string)
    requires WellSorted(|cards|, lists) && category < |lists|
    ensures var back := lists[category := Filter(lists[category], OtherText(cards, word))];
      WellSorted(|cards|, back)
      && (forall k :: 0 <= k < |back| && k != category ==> back[k] == lists[k])
      && forall m :: 0 <= m < |back[category]| ==> !Shows(cards, back[category][m], word)
  {
    var keep := OtherText(cards, word);
    var part := Filter(lists[category], keep);
    Around(lists, category, part);
    DistinctConcat(Flatten(lists[..category]) + lists[category], Flatten(lists[category + 1..]));
    DistinctConcat(Flatten(lists[..category]), lists[category]);
    FilterDistinct(lists[category], keep);
    forall x: nat | x in part ensures x < |cards| && x in lists[category] {
      FlattenMembers(lists, x);
    }
    ReplaceCategory(|cards|, lists, category, part);
    forall m | 0 <= m < |part| ensures !Shows(cards, part[m], word) {
      assert part[m] in part;
    }
  }

  /** Clicking a card back only removes cards, so the lists keep holding first cards only. */
  lemma ReturnKeepsFirstCards(cards: seq<WordCard>, lists: seq<seq<nat>>, category: nat, word: string)
    requires FirstCardsOnly(cards, lists) && category < |lists|
    ensures FirstCardsOnly(cards, lists[category := Filter(lists[category], OtherText(cards, word))])
  {
    var back := lists[category := Filter(lists[category], OtherText(cards, word))];
    ReturnKeepsSorted(cards, lists, category, word);
    forall x: nat | x in Flatten(back) ensures x in Flatten(lists) {
      FlattenMembers(back, x);
      var k :| 0 <= k < |back| && x in back[k];
      assert x in lists[k];
      FlattenMembers(lists, x);
    }
  }

  /**
   * `moveWordToCategory` by text: the first card with the text ends up, once,
   * at the end of the target category; every entry with that text leaves
   * the categories; the others keep their order. The lists stay well sorted
   * and keep holding first cards only.
   */
  lemma MoveByTextKeepsSorted(cards: seq<WordCard>, lists: seq<seq<nat>>, word: string, category: nat)
    requires WellSorted(|cards|, lists) && category < |lists| && FindCard(cards, word).Some?
    ensures var i := FindCard(cards, word).value;
      var moved := Placed(Removed(lists, OtherText(cards, word)), category, i);
      WellSorted(|cards|, moved)
      && moved[category][|moved[category]| - 1] == i
      && (forall k, m :: 0 <= k < |moved| && 0 <= m < |moved[k]| && Shows(cards, moved[k][m], word)
            ==> k == category && m == |moved[category]| - 1)
      && (forall k :: 0 <= k < |lists| && k != category ==> IsSubsequence(moved[k], lists[k]))
      && (FirstCardsOnly(cards, lists) ==> FirstCardsOnly(cards, moved))
  {
    var i := FindCard(cards, word).value;
    var keep := OtherText(cards, word);
    var removed := Removed(lists, keep);
    var moved := Placed(removed, category, i);
    RemovedKeepsSorted(|cards|, lists, keep);
    PlacedKeepsSorted(|cards|, removed, category, i);
    forall k, m | 0 <= k < |moved| && 0 <= m < |moved[k]| && (k != category || m < |moved[category]| - 1)
      ensures !Shows(cards, moved[k][m], word)
    {
      assert moved[k][m] in removed[k];
    }
    forall k | 0 <= k < |lists| && k != category
      ensures IsSubsequence(moved[k], lists[k])
    {
      FilterIsSubsequence(lists[k], keep);
    }
  }

  /**
   * Moving by text can never sort a pool in which two cards show the same
   * text (a word found for two of the sounds): fewer entries are sorted than
   * there are cards, so the check refuses for ever.
   */
  lemma StuckOnDuplicateText(cards: seq<WordCard>, lists: seq<seq<nat>>, i: nat, j: nat)
    requires FirstCardsOnly(cards, lists)
    requires i < j < |cards| && cards[i].word == cards[j].word
    ensures |Flatten(lists)| < |cards|
  {
    var flat := Flatten(lists);
    DistinctElements(flat);
    forall x: nat | x in Elements(flat)
      ensures x in Below(|cards|) - {j}
    {
      assert x in flat;
      assert FindCard(cards, cards[x].word) == Some(x);
      if x == j {
        assert false;
      }
    }
    SubsetCardinality(Elements(flat), Below(|cards|) - {j});
  }

  // ---- checking ----

  /** A sorted entry is right when its card was found for the category's sound. */
  function RightFor(cards: seq<WordCard>, sound: string): nat -> bool
  {
    (i: nat) => i < |cards| && cards[i].correctSound == sound
  }

  function WrongFor(cards: seq<WordCard>, sound: string): nat -> bool
  {
    (i: nat) => !(i < |cards| && cards[i].correctSound == sound)
  }

  /** The correct sorts of the first k categories. */
  function CorrectSorts(cards: seq<WordCard>, lists: seq<seq<nat>>, sounds: seq<string>, k: nat): nat
    requires k <= |lists| == |sounds|
  {
    if k == 0 then 0
    else CorrectSorts(cards, lists, sounds, k - 1) + Count(lists[k - 1], RightFor(cards, sounds[k - 1]))
  }

  /** The incorrect sorts of the first k categories. */
  function IncorrectSorts(cards: seq<WordCard>, lists: seq<seq<nat>>, sounds: seq<string>, k: nat): nat
    requires k <= |lists| == |sounds|
  {
    if k == 0 then 0
    else IncorrectSorts(cards, lists, sounds, k - 1) + Count(lists[k - 1], WrongFor(cards, sounds[k - 1]))
  }

  /** Every entry of a category is right or wrong. */
  lemma {:induction false} RightWrongSplit(s: seq<nat>, cards: seq<WordCard>, sound: string)
    ensures Count(s, RightFor(cards, sound)) + Count(s, WrongFor(cards, sound)) == |s|
  {
    if s != [] {
      RightWrongSplit(s[..|s| - 1], cards, sound);
    }
  }

  /** Correct and incorrect sorts together count every sorted entry. */
  lemma {:induction false} SortsAddUp(cards: seq<WordCard>, lists: seq<seq<nat>>, sounds: seq<string>, k: nat)
    requires k <= |lists| == |sounds|
    ensures CorrectSorts(cards, lists, sounds, k) + IncorrectSorts(cards, lists, sounds, k) == |Flatten(lists[..k])|
  {
    if k > 0 {
      SortsAddUp(cards, lists, sounds, k - 1);
      RightWrongSplit(lists[k - 1], cards, sounds[k - 1]);
      assert lists[..k] == lists[..k - 1] + [lists[k - 1]];
      FlattenAppend(lists[..k - 1], [lists[k - 1]]);
      assert Flatten([lists[k - 1]]) == lists[k - 1] + Flatten([]);
    }
  }

  /** Over all the categories, correct and incorrect sorts count the sorted entries. */
  lemma AllSortsAddUp(cards: seq<WordCard>, lists: seq<seq<nat>>, sounds: seq<string>)
    requires |lists| == |sounds|
    ensures CorrectSorts(cards, lists, sounds, |sounds|) + IncorrectSorts(cards, lists, sounds, |sounds|) == |Flatten(lists)|
  {
    SortsAddUp(cards, lists, sounds, |sounds|);
    assert lists[..|sounds|] == lists;
  }

  /**
   * When the check goes ahead (every card sorted), it is perfect, every card
   * in its own sound's category, exactly when no sort is incorrect.
   */
  lemma PerfectIffNoneMisplaced(cards: seq<WordCard>, lists: seq<seq<nat>>, sounds: seq<string>)
    requires |lists| == |sounds| && WellSorted(|cards|, lists) && |Flatten(lists)| >= |cards|
    ensures CorrectSorts(cards, lists, sounds, |sounds|) == |cards|
      <==> IncorrectSorts(cards, lists, sounds, |sounds|) == 0
  {
    AllSortsAddUp(cards, lists, sounds);
    PlacedCount(|cards|, lists);
  }

  /** The two nested `forEach` loops of `checkAnswer`: each sorted entry is right or wrong for its category. */
  method CountSorts(cards: seq<WordCard>, lists: seq<seq<nat>>, sounds: seq<string>) returns (correct: nat, incorrect: nat)
    requires |lists| == |sounds| && WellSorted(|cards|, lists)
    ensures correct == CorrectSorts(cards, lists, sounds, |sounds|)
    ensures incorrect == IncorrectSorts(cards, lists, sounds, |sounds|)
    ensures correct + incorrect == |Flatten(lists)|
  {
    correct, incorrect := 0, 0;
    for k := 0 to |sounds|
      invariant correct == CorrectSorts(cards, lists, sounds, k)
      invariant incorrect == IncorrectSorts(cards, lists, sounds, k)
    {
      var sound, list := sounds[k], lists[k];
      for j := 0 to |list|
        invariant correct == CorrectSorts(cards, lists, sounds, k) + Count(list[..j], RightFor(cards, sound))
        invariant incorrect == IncorrectSorts(cards, lists, sounds, k) + Count(list[..j], WrongFor(cards, sound))
      {
        assert list[..j + 1][..j] == list[..j];
        FlattenMembers(lists, list[j]);
        if cards[list[j]].correctSound == sound {
          correct := correct + 1;
        } else {
          incorrect := incorrect + 1;
        }
      }
      assert list[..|list|] == list;
    }
    AllSortsAddUp(cards, lists, sounds);
  }

  /** The loop of `getRandomSoundsAndWords` that collects each sound's cards. */
  method CollectPool(dict: seq<Entry>, sounds: seq<string>, shuffle: seq<Entry> -> seq<Entry>) returns (pool: seq<WordCard>)
    ensures pool == Pool(dict, sounds, shuffle)
  {
    pool := [];
    for k := 0 to |sounds|
      invariant pool == Pool(dict, sounds[..k], shuffle)
    {
      assert sounds[..k + 1][..k] == sounds[..k];
      pool := pool + FindWordsWithSound(dict, sounds[k], WordsPerSound, shuffle);
    }
    assert sounds[..|sounds|] == sounds;
  }

  class SoundSortingGame {
    var score: nat
    var round: nat
    var currentSounds: seq<string>
    var wordsToSort: seq<WordCard>
    /** One list per current sound, in the order of `currentSounds`. */
    var sortedWords: seq<seq<nat>>
    var checkDisabled: bool
    var nextDisabled: bool
    var gameOver: bool

    /** One category per sound, and well sorted. */
    ghost predicate Valid()
      reads this
    {
      round <= MaxRounds && |sortedWords| == |currentSounds| && WellSorted(|wordsToSort|, sortedWords)
    }

    constructor()
      ensures Valid() && score == 0 && round == 0
    {
      score, round := 0, 0;
      currentSounds, wordsToSort, sortedWords := [], [], [];
      checkDisabled, nextDisabled, gameOver := false, true, false;
    }

    /** The `forEach` that filters every category. */
    method RemoveEverywhere(keep: nat -> bool)
      modifies this`sortedWords
      ensures sortedWords == Removed(old(sortedWords), keep)
    {
      for k := 0 to |sortedWords|
        invariant |sortedWords| == |old(sortedWords)|
        invariant forall m :: 0 <= m < k ==> sortedWords[m] == Filter(old(sortedWords)[m], keep)
        invariant forall m :: k <= m < |sortedWords| ==> sortedWords[m] == old(sortedWords)[m]
      {
        sortedWords := sortedWords[k := Filter(sortedWords[k], keep)];
      }
    }

    /**
     * `moveWordToCategory` as written, on a drop of the dragged card's text:
     * an unknown text changes nothing; otherwise every entry with the text
     * leaves the categories and the first card with it joins the target.
     */
    method MoveWordToCategory(word: string, category: nat)
      requires Valid() && category < |currentSounds|
      modifies this`sortedWords
      ensures Valid()
      ensures FindCard(wordsToSort, word).None? ==> sortedWords == old(sortedWords)
      ensures FindCard(wordsToSort, word).Some? ==>
        sortedWords == Placed(Removed(old(sortedWords), OtherText(wordsToSort, word)), category,
                              FindCard(wordsToSort, word).value)
      ensures old(FirstCardsOnly(wordsToSort, sortedWords)) ==> FirstCardsOnly(wordsToSort, sortedWords)
    {
      var wordObj := FindCard(wordsToSort, word);
      if wordObj.None? {
        return;
      }
      MoveByTextKeepsSorted(wordsToSort, sortedWords, word, category);
      RemoveEverywhere(OtherText(wordsToSort, word));
      sortedWords := sortedWords[category := sortedWords[category] + [wordObj.value]];
    }

    /** The click on a sorted card, which sends its text back to the pool from that category. */
    method ReturnToPool(word: string, category: nat)
      requires Valid() && category < |currentSounds|
      modifies this`sortedWords
      ensures Valid()
      ensures sortedWords == old(sortedWords)[category := Filter(old(sortedWords)[category], OtherText(wordsToSort, word))]
      ensures old(FirstCardsOnly(wordsToSort, sortedWords)) ==> FirstCardsOnly(wordsToSort, sortedWords)
    {
      ReturnKeepsSorted(wordsToSort, sortedWords, category, word);
      if FirstCardsOnly(wordsToSort, sortedWords) {
        ReturnKeepsFirstCards(wordsToSort, sortedWords, category, word);
      }
      sortedWords := sortedWords[category := Filter(sortedWords[category], OtherText(wordsToSort, word))];
    }

    /** The move as intended: the dropped card itself, named by its place in the pool. */
    method MoveCard(card: nat, category: nat)
      requires Valid() && card < |wordsToSort| && category < |currentSounds|
      modifies this`sortedWords
      ensures Valid()
      ensures sortedWords == Placed(Removed(old(sortedWords), OtherCard(card)), category, card)
      ensures forall x: nat :: x in Flatten(sortedWords) <==> x in Flatten(old(sortedWords)) || x == card
    {
      MoveCardKeepsSorted(|wordsToSort|, sortedWords, card, category);
      RemoveEverywhere(OtherCard(card));
      sortedWords := sortedWords[category := sortedWords[category] + [card]];
    }

    /**
     * `checkAnswer`: refused, with nothing changed, while fewer entries are
     * sorted than there are cards; otherwise the sorts are counted category
     * by category, the round scores correct minus incorrect (never below
     * zero), and Check gives way to Next.
     */
    method CheckAnswer() returns (refused: bool, correct: nat, incorrect: nat, perfect: bool)
      requires Valid() && !checkDisabled
      modifies this`score, this`checkDisabled, this`nextDisabled
      ensures refused <==> |Flatten(sortedWords)| < |wordsToSort|
      ensures refused ==> score == old(score) && !checkDisabled && nextDisabled == old(nextDisabled)
      ensures !refused ==>
        correct == CorrectSorts(wordsToSort, sortedWords, currentSounds, |currentSounds|)
        && incorrect == IncorrectSorts(wordsToSort, sortedWords, currentSounds, |currentSounds|)
        && score == old(score) + RoundScore(correct, incorrect)
        && (perfect <==> correct == |wordsToSort|) && (perfect <==> incorrect == 0)
        && checkDisabled && !nextDisabled
    {
      var totalSortedWords := |Flatten(sortedWords)|;
      if totalSortedWords < |wordsToSort| {
        refused, correct, incorrect, perfect := true, 0, 0, false;
        return;
      }
      refused := false;
      correct, incorrect := CountSorts(wordsToSort, sortedWords, currentSounds);
      score := score + RoundScore(correct, incorrect);
      PerfectIffNoneMisplaced(wordsToSort, sortedWords, currentSounds);
      perfect := correct == |wordsToSort|;
      checkDisabled, nextDisabled := true, false;
    }

    /** `getRandomSoundsAndWords`: a drawn group, an empty category per sound, and the shuffled pool. */
    method GetRandomSoundsAndWords(dict: seq<Entry>, groupDraw: real, shuffleWords: seq<Entry> -> seq<Entry>,
                                   shuffleCards: seq<WordCard> -> seq<WordCard>)
      requires 0.0 <= groupDraw < 1.0
      modifies this`currentSounds, this`sortedWords, this`wordsToSort
      ensures currentSounds == DrawnGroup(groupDraw)
      ensures sortedWords == NoneSorted(|currentSounds|)
      ensures wordsToSort == Shuffled(shuffleCards, Pool(dict, currentSounds, shuffleWords))
      ensures WellSorted(|wordsToSort|, sortedWords)
    {
      var sounds := DrawnGroup(groupDraw);
      var pool := CollectPool(dict, sounds, shuffleWords);
      currentSounds, sortedWords := sounds, NoneSorted(|sounds|);
      wordsToSort := Shuffled(shuffleCards, pool);
      EmptyCategories(|wordsToSort|, |currentSounds|);
    }

    /** `nextRound`: the game ends after five rounds; otherwise a new round is dealt. */
    method NextRound(dict: seq<Entry>, groupDraw: real, shuffleWords: seq<Entry> -> seq<Entry>,
                     shuffleCards: seq<WordCard> -> seq<WordCard>)
      requires Valid() && 0.0 <= groupDraw < 1.0
      modifies this`round, this`currentSounds, this`sortedWords, this`wordsToSort, this`checkDisabled,
               this`nextDisabled, this`gameOver
      ensures Valid()
      ensures old(round) >= MaxRounds ==> gameOver && round == old(round)
      ensures old(round) >= MaxRounds ==>
        currentSounds == old(currentSounds) && sortedWords == old(sortedWords) && wordsToSort == old(wordsToSort)
        && checkDisabled == old(checkDisabled) && nextDisabled == old(nextDisabled)
      ensures old(round) < MaxRounds ==>
        round == old(round) + 1 && gameOver == old(gameOver) && !checkDisabled && nextDisabled
        && currentSounds == DrawnGroup(groupDraw) && sortedWords == NoneSorted(|currentSounds|)
        && wordsToSort == Shuffled(shuffleCards, Pool(dict, currentSounds, shuffleWords))
    {
      if round >= MaxRounds {
        gameOver := true;
        return;
      }
      round := round + 1;
      GetRandomSoundsAndWords(dict, groupDraw, shuffleWords, shuffleCards);
      checkDisabled, nextDisabled := false, true;
    }

    /**
     * `startGame`: score and round back to zero, then the first round. Play
     * Again calls `init`, whose `render` replaces the game-over screen first.
     */
    method StartGame(dict: seq<Entry>, groupDraw: real, shuffleWords: seq<Entry> -> seq<Entry>,
                     shuffleCards: seq<WordCard> -> seq<WordCard>)
      requires Valid() && 0.0 <= groupDraw < 1.0
      modifies this`score, this`round, this`currentSounds, this`sortedWords, this`wordsToSort,
               this`checkDisabled, this`nextDisabled, this`gameOver
      ensures Valid() && score == 0 && round == 1 && !gameOver && !checkDisabled && nextDisabled
      ensures currentSounds == DrawnGroup(groupDraw) && sortedWords == NoneSorted(|currentSounds|)
      ensures wordsToSort == Shuffled(shuffleCards, Pool(dict, currentSounds, shuffleWords))
    {
      score, round, gameOver := 0, 0, false;
      NextRound(dict, groupDraw, shuffleWords, shuffleCards);
    }
  }
}
