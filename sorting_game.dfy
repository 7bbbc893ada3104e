// The drag-and-drop Sound Sorting Game of js/games/sound-sorting-game.js:
// three sounds drawn from the available ones by a Fisher-Yates shuffle, up to
// three words of a fixed word pool for each, and a check that every word put
// into a category belongs there. Its class has the same name as the one in
// js/games/sound-sorting.js; the two are separate games.
module SortingGame {
  import opened Wrappers
  import opened Text
  import opened Collections
  import opened GameRules
  import opened Categories

  const MaxRounds := 5
  const SoundsPerRound := 3
  const WordsPerSound := 3

  /** The sounds used when the game is given none. */
  const DefaultSounds: seq<string> := [
    "æ", "ə", "ɑ", "ɔ", "ɛ", "ɪ", "i", "ʊ", "u", "ʌ", "e", "ɒ",
    "p", "b", "t", "d", "k", "g", "f", "v", "θ", "ð", "s", "z", "ʃ", "ʒ",
    "tʃ", "dʒ", "h", "l", "r", "j", "w", "m", "n", "ŋ"
  ]

  /** The sounds used when fewer than three are available. */
  const FallbackSounds: seq<string> := ["æ", "ɪ", "ʃ", "ə", "ɒ", "p", "k", "t"]

  /** An entry of `mockWordPool`. */
  datatype MockWord = MockWord(word: string, phonetic: string)

  const MockWordPool: seq<MockWord> := [
    MockWord("apple", "ˈæpl"),
    MockWord("banana", "bəˈnɑːnə"),
    MockWord("cat", "kæt"),
    MockWord("dog", "dɒɡ"),
    MockWord("elephant", "ˈelɪfənt"),
    MockWord("fish", "fɪʃ"),
    MockWord("grape", "ɡreɪp"),
    MockWord("house", "haʊs"),
    MockWord("igloo", "ˈɪɡluː"),
    MockWord("jacket", "ˈdʒækɪt"),
    MockWord("kite", "kaɪt"),
    MockWord("lemon", "ˈlemən"),
    MockWord("mouse", "maʊs"),
    MockWord("nose", "nəʊz"),
    MockWord("orange", "ˈɒrɪndʒ"),
    MockWord("pencil", "ˈpensl"),
    MockWord("queen", "kwiːn"),
    MockWord("rabbit", "ˈræbɪt"),
    MockWord("snake", "sneɪk"),
    MockWord("table", "ˈteɪbl"),
    MockWord("umbrella", "ʌmˈbrelə"),
    MockWord("violin", "ˌvaɪəˈlɪn"),
    MockWord("window", "ˈwɪndəʊ"),
    MockWord("xylophone", "ˈzaɪləfəʊn"),
    MockWord("yellow", "ˈjeləʊ"),
    MockWord("zebra", "ˈzebrə")
  ]

  /** A word dealt into the pool, tagged with the sound it was chosen for. */
  datatype SortableWord = SortableWord(word: string, phonetic: string, containsSound: string)

  /** What `updateSortedWords` records of a word found in a category. */
  datatype SortedWord = SortedWord(word: string, correctSound: string)

  /** Where a dragged word is dropped: back on the pool or into a category. */
  datatype DropTarget = ToPool | ToCategory(category: nat)

  // ---- the Fisher-Yates shuffle ----

  /**
   * The indices a shuffle draws: at index i, `Math.floor(Math.random() * (i + 1))`,
   * which is some index from 0 to i. Any such choice is allowed.
   */
  type Draws = nat -> nat

  ghost predicate IsRandom(draws: Draws)
  {
    forall i :: draws(i) <= i
  }

  ghost predicate AllRandom(draws: seq<Draws>)
  {
    forall k :: 0 <= k < |draws| ==> IsRandom(draws[k])
  }

  /** `[array[i], array[j]] = [array[j], array[i]]`. */
  function Swap<T>(s: seq<T>, i: nat, j: nat): (r: seq<T>)
    requires i < |s| && j < |s|
    ensures |r| == |s| && r[i] == s[j] && r[j] == s[i]
    ensures forall k :: 0 <= k < |s| && k != i && k != j ==> r[k] == s[k]
  {
    s[i := s[j]][j := s[i]]
  }

  /** The swaps `shuffleArray` still has to make, at index i and on down to index 1. */
  function ShuffleFrom<T>(s: seq<T>, draws: Draws, i: nat): (r: seq<T>)
    requires IsRandom(draws) && i < |s|
    ensures |r| == |s|
    decreases i
  {
    if i == 0 then s else ShuffleFrom(Swap(s, i, draws(i)), draws, i - 1)
  }

  /** `shuffleArray` on the values of an array. */
  function FisherYates<T>(s: seq<T>, draws: Draws): (r: seq<T>)
    requires IsRandom(draws)
    ensures |r| == |s|
  {
    if |s| == 0 then s else ShuffleFrom(s, draws, |s| - 1)
  }

  /** A swap moves elements and loses none. */
  lemma SwapPermutes<T>(s: seq<T>, i: nat, j: nat)
    requires i < |s| && j < |s|
    ensures multiset(Swap(s, i, j)) == multiset(s)
  {
    var t := s[i := s[j]];
    assert multiset(t) == multiset(s) - multiset{s[i]} + multiset{s[j]};
  }

  /** The shuffle is a permutation, whatever indices are drawn. */
  lemma {:induction false} ShufflePermutes<T>(s: seq<T>, draws: Draws, i: nat)
    requires IsRandom(draws) && i < |s|
    ensures multiset(ShuffleFrom(s, draws, i)) == multiset(s)
    decreases i
  {
    if i > 0 {
      SwapPermutes(s, i, draws(i));
      ShufflePermutes(Swap(s, i, draws(i)), draws, i - 1);
    }
  }

  lemma FisherYatesPermutes<T>(s: seq<T>, draws: Draws)
    requires IsRandom(draws)
    ensures multiset(FisherYates(s, draws)) == multiset(s)
  {
    if |s| > 0 {
      ShufflePermutes(s, draws, |s| - 1);
    }
  }

  /** The swaps from index i down leave every element above index i where it is. */
  lemma {:induction false} ShuffleKeepsAbove<T>(s: seq<T>, draws: Draws, i: nat)
    requires IsRandom(draws) && i < |s|
    ensures forall k :: i < k < |s| ==> ShuffleFrom(s, draws, i)[k] == s[k]
    decreases i
  {
    if i > 0 {
      var t := Swap(s, i, draws(i));
      ShuffleKeepsAbove(t, draws, i - 1);
    }
  }

  /** The last place receives the element at the index drawn first, from anywhere in the array. */
  lemma FisherYatesLast<T>(s: seq<T>, draws: Draws)
    requires IsRandom(draws) && |s| >= 2
    ensures FisherYates(s, draws)[|s| - 1] == s[draws(|s| - 1)]
  {
    var n := |s|;
    var t := Swap(s, n - 1, draws(n - 1));
    ShuffleKeepsAbove(t, draws, n - 2);
  }

  /** `shuffleArray`: swaps in place from the last index down to 1, each with a drawn index at or below it. */
  method ShuffleArray<T>(a: array<T>, draws: Draws)
    requires IsRandom(draws)
    modifies a
    ensures a[..] == FisherYates(old(a[..]), draws)
    ensures multiset(a[..]) == multiset(old(a[..]))
  {
    var i := a.Length - 1;
    while i > 0
      invariant -1 <= i < a.Length
      invariant a.Length > 0 ==> 0 <= i && ShuffleFrom(a[..], draws, i) == FisherYates(old(a[..]), draws)
      invariant a.Length == 0 ==> a[..] == old(a[..])
      decreases i
    {
      var j := draws(i);
      ghost var before := a[..];
      a[i], a[j] := a[j], a[i];
      assert a[..] == Swap(before, i, j);
      i := i - 1;
    }
    FisherYatesPermutes(old(a[..]), draws);
  }

  /** `shuffleArray([...s])`: a copy of the values, shuffled. */
  method ShuffleCopy<T>(s: seq<T>, draws: Draws) returns (r: seq<T>)
    requires IsRandom(draws)
    ensures r == FisherYates(s, draws)
  {
    var a := new T[|s|](i requires 0 <= i < |s| => s[i]);
    assert a[..] == s;
    ShuffleArray(a, draws);
    r := a[..];
  }

  // ---- dealing ----

  /** `availableSounds`: the given sounds, or the default list when none are given. */
  function AvailableSounds(selected: seq<string>): seq<string>
  {
    if |selected| > 0 then selected else DefaultSounds
  }

  /** `soundsToUse`: the available sounds, or the fixed eight when fewer than three are available. */
  function SoundsToUse(available: seq<string>): (r: seq<string>)
    ensures |r| >= SoundsPerRound
  {
    if |available| < 3 then FallbackSounds else available
  }

  /** `shuffledSounds.slice(0, 3)`. */
  function DrawnSounds(available: seq<string>, draws: Draws): seq<string>
    requires IsRandom(draws)
  {
    Take(FisherYates(SoundsToUse(available), draws), SoundsPerRound)
  }

  /** Exactly three sounds, drawn without replacement from the sounds to use. */
  lemma DrawnSoundsFromAvailable(available: seq<string>, draws: Draws)
    requires IsRandom(draws)
    ensures |DrawnSounds(available, draws)| == SoundsPerRound
    ensures multiset(DrawnSounds(available, draws)) <= multiset(SoundsToUse(available))
  {
    var src := SoundsToUse(available);
    var all := FisherYates(src, draws);
    FisherYatesPermutes(src, draws);
    assert |all| == |src|;
    TakeSubMultiset(all, SoundsPerRound);
  }

  function WithSound(sound: string): MockWord -> bool
  {
    (w: MockWord) => Includes(w.phonetic, sound)
  }

  /** `{ ...word, containsSound: sound }` for each selected word. */
  function Tagged(ws: seq<MockWord>, sound: string): (r: seq<SortableWord>)
    ensures |r| == |ws|
    ensures forall i :: 0 <= i < |ws| ==> r[i] == SortableWord(ws[i].word, ws[i].phonetic, sound)
  {
    seq(|ws|, i requires 0 <= i < |ws| => SortableWord(ws[i].word, ws[i].phonetic, sound))
  }

  /** The words one sound contributes: the pool words holding it, shuffled, the first three, tagged. */
  function WordsFor(sound: string, draws: Draws): seq<SortableWord>
    requires IsRandom(draws)
  {
    Tagged(Take(FisherYates(Filter(MockWordPool, WithSound(sound)), draws), WordsPerSound), sound)
  }

  /** At most three words, each from the word pool, holding the sound and tagged with it. */
  lemma WordsForQualify(sound: string, draws: Draws)
    requires IsRandom(draws)
    ensures |WordsFor(sound, draws)| <= WordsPerSound
    ensures forall w :: w in WordsFor(sound, draws) ==>
      w.containsSound == sound && Includes(w.phonetic, sound) && MockWord(w.word, w.phonetic) in MockWordPool
  {
    var found := Filter(MockWordPool, WithSound(sound));
    var shuffled := FisherYates(found, draws);
    var taken := Take(shuffled, WordsPerSound);
    FisherYatesPermutes(found, draws);
    forall w | w in WordsFor(sound, draws)
      ensures w.containsSound == sound && Includes(w.phonetic, sound) && MockWord(w.word, w.phonetic) in MockWordPool
    {
      var i :| 0 <= i < |taken| && WordsFor(sound, draws)[i] == w;
      assert taken[i] in multiset(shuffled);
      assert taken[i] in found;
    }
  }

  /** The words of the first sounds, sound by sound, before the final shuffle. */
  function Gathered(sounds: seq<string>, draws: seq<Draws>): seq<SortableWord>
    requires |sounds| <= |draws| && AllRandom(draws)
  {
    if sounds == [] then []
    else Gathered(sounds[..|sounds| - 1], draws) + WordsFor(sounds[|sounds| - 1], draws[|sounds| - 1])
  }

  /** Every gathered word comes from the word pool and holds the sound it is tagged with, one of the round's. */
  lemma {:induction false} GatheredQualify(sounds: seq<string>, draws: seq<Draws>)
    requires |sounds| <= |draws| && AllRandom(draws)
    ensures |Gathered(sounds, draws)| <= WordsPerSound * |sounds|
    ensures forall w :: w in Gathered(sounds, draws) ==>
      w.containsSound in sounds && Includes(w.phonetic, w.containsSound) && MockWord(w.word, w.phonetic) in MockWordPool
  {
    if sounds != [] {
      var init := sounds[..|sounds| - 1];
      GatheredQualify(init, draws);
      WordsForQualify(sounds[|sounds| - 1], draws[|sounds| - 1]);
      forall w | w in Gathered(sounds, draws)
        ensures w.containsSound in sounds
      {
        if w in Gathered(init, draws) {
          var k :| 0 <= k < |init| && init[k] == w.containsSound;
          assert sounds[k] == w.containsSound;
        }
      }
    }
  }

  /** The dealt words, after the final shuffle: the same words, so the same guarantees. */
  lemma DealtWordsQualify(sounds: seq<string>, draws: seq<Draws>, finalDraws: Draws)
    requires |sounds| <= |draws| && AllRandom(draws) && IsRandom(finalDraws)
    ensures |FisherYates(Gathered(sounds, draws), finalDraws)| <= WordsPerSound * |sounds|
    ensures forall w :: w in FisherYates(Gathered(sounds, draws), finalDraws) ==>
      w.containsSound in sounds && Includes(w.phonetic, w.containsSound) && MockWord(w.word, w.phonetic) in MockWordPool
  {
    GatheredQualify(sounds, draws);
    FisherYatesPermutes(Gathered(sounds, draws), finalDraws);
    forall w | w in FisherYates(Gathered(sounds, draws), finalDraws)
      ensures w in Gathered(sounds, draws)
    {
      assert w in multiset(FisherYates(Gathered(sounds, draws), finalDraws));
    }
  }

  /** The pool words holding the sound, shuffled, the first three of them. */
  method SelectWords(sound: string, draws: Draws) returns (selectedWords: seq<MockWord>)
    requires IsRandom(draws)
    ensures selectedWords == Take(FisherYates(Filter(MockWordPool, WithSound(sound)), draws), WordsPerSound)
  {
    var wordsWithSound := Filter(MockWordPool, WithSound(sound));
    var shuffled := ShuffleCopy(wordsWithSound, draws);
    selectedWords := Take(shuffled, WordsPerSound);
  }

  /** The inner loop that pushes each selected word, tagged with the sound. */
  method PushTagged(words: seq<SortableWord>, selectedWords: seq<MockWord>, sound: string) returns (r: seq<SortableWord>)
    ensures r == words + Tagged(selectedWords, sound)
  {
    r := words;
    for m := 0 to |selectedWords|
      invariant r == words + Tagged(selectedWords[..m], sound)
    {
      assert Tagged(selectedWords[..m + 1], sound) == Tagged(selectedWords[..m], sound)
        + [SortableWord(selectedWords[m].word, selectedWords[m].phonetic, sound)];
      r := r + [SortableWord(selectedWords[m].word, selectedWords[m].phonetic, sound)];
    }
    assert selectedWords[..|selectedWords|] == selectedWords;
  }

  /** The loop of `getRandomSoundsAndWords` over the current sounds. */
  method GatherWords(sounds: seq<string>, draws: seq<Draws>) returns (words: seq<SortableWord>)
    requires |sounds| <= |draws| && AllRandom(draws)
    ensures words == Gathered(sounds, draws)
  {
    words := [];
    for k := 0 to |sounds|
      invariant words == Gathered(sounds[..k], draws)
    {
      assert sounds[..k + 1][..k] == sounds[..k];
      var selectedWords := SelectWords(sounds[k], draws[k]);
      words := PushTagged(words, selectedWords, sounds[k]);
    }
    assert sounds[..|sounds|] == sounds;
  }

  /** The round these draws deal from the available sounds. */
  ghost predicate IsDeal(available: seq<string>, soundDraws: Draws, wordDraws: seq<Draws>, finalDraws: Draws,
                         sounds: seq<string>, words: seq<SortableWord>)
    requires IsRandom(soundDraws) && |wordDraws| == SoundsPerRound && AllRandom(wordDraws) && IsRandom(finalDraws)
  {
    sounds == DrawnSounds(available, soundDraws)
    && |sounds| == SoundsPerRound
    && words == FisherYates(Gathered(sounds, wordDraws), finalDraws)
  }

  /**
   * `getRandomSoundsAndWords`, on the available sounds: three sounds of a
   * shuffled copy, the words each contributes, shuffled once more.
   */
  method GetRandomSoundsAndWords(available: seq<string>, soundDraws: Draws, wordDraws: seq<Draws>, finalDraws: Draws)
    returns (sounds: seq<string>, words: seq<SortableWord>)
    requires IsRandom(soundDraws) && |wordDraws| == SoundsPerRound && AllRandom(wordDraws) && IsRandom(finalDraws)
    ensures |sounds| == SoundsPerRound
    ensures IsDeal(available, soundDraws, wordDraws, finalDraws, sounds, words)
  {
    var shuffledSounds := ShuffleCopy(SoundsToUse(available), soundDraws);
    sounds := Take(shuffledSounds, SoundsPerRound);
    DrawnSoundsFromAvailable(available, soundDraws);
    var gathered := GatherWords(sounds, wordDraws);
    words := ShuffleCopy(gathered, finalDraws);
  }

  // ---- the categories ----

  /** Every entry of the categories is an index below n. */
  predicate InRange(lists: seq<seq<nat>>, n: nat)
  {
    forall k, m :: 0 <= k < |lists| && 0 <= m < |lists[k]| ==> lists[k][m] < n
  }

  lemma WellSortedInRange(n: nat, lists: seq<seq<nat>>)
    requires WellSorted(n, lists)
    ensures InRange(lists, n)
  {
    forall k, m | 0 <= k < |lists| && 0 <= m < |lists[k]|
      ensures lists[k][m] < n
    {
      FlattenMembers(lists, lists[k][m]);
    }
  }

  /** What `updateSortedWords` reads from one category container. */
  function ReadCategory(words: seq<SortableWord>, ids: seq<nat>): (r: seq<SortedWord>)
    requires forall m :: 0 <= m < |ids| ==> ids[m] < |words|
    ensures |r| == |ids|
    ensures forall m :: 0 <= m < |ids| ==> r[m] == SortedWord(words[ids[m]].word, words[ids[m]].containsSound)
  {
    seq(|ids|, m requires 0 <= m < |ids| => SortedWord(words[ids[m]].word, words[ids[m]].containsSound))
  }

  /** What `updateSortedWords` reads from every category container. */
  function ReadOut(words: seq<SortableWord>, lists: seq<seq<nat>>): (r: seq<seq<SortedWord>>)
    requires InRange(lists, |words|)
    ensures |r| == |lists| && forall k :: 0 <= k < |lists| ==> r[k] == ReadCategory(words, lists[k])
  {
    seq(|lists|, k requires 0 <= k < |lists| => ReadCategory(words, lists[k]))
  }

  /** The test of `checkSorting`, over the first k categories. */
  predicate CorrectUpTo(sounds: seq<string>, sorted: seq<seq<SortedWord>>, k: nat)
    requires k <= |sorted| == |sounds|
  {
    forall c, m :: 0 <= c < k && 0 <= m < |sorted[c]| ==> sorted[c][m].correctSound == sounds[c]
  }

  /** A round is correct when every word in every category carries that category's sound. */
  predicate RoundCorrect(sounds: seq<string>, sorted: seq<seq<SortedWord>>)
    requires |sorted| == |sounds|
  {
    CorrectUpTo(sounds, sorted, |sounds|)
  }

  /** The nested `forEach` loops of `checkSorting`. */
  method AllInPlace(sounds: seq<string>, sorted: seq<seq<SortedWord>>) returns (correct: bool)
    requires |sorted| == |sounds|
    ensures correct <==> RoundCorrect(sounds, sorted)
  {
    correct := true;
    for k := 0 to |sounds|
      invariant correct <==> CorrectUpTo(sounds, sorted, k)
    {
      var wordsInCategory := sorted[k];
      for m := 0 to |wordsInCategory|
        invariant correct <==>
          CorrectUpTo(sounds, sorted, k) && forall j :: 0 <= j < m ==> wordsInCategory[j].correctSound == sounds[k]
      {
        if wordsInCategory[m].correctSound != sounds[k] {
          correct := false;
        }
      }
    }
  }

  /** A round checked before any word has left the pool passes: the pool is not looked at. */
  lemma NothingSortedPasses(words: seq<SortableWord>, sounds: seq<string>)
    ensures InRange(NoneSorted(|sounds|), |words|)
    ensures RoundCorrect(sounds, ReadOut(words, NoneSorted(|sounds|)))
  {
    var none := NoneSorted(|sounds|);
    forall k | 0 <= k < |sounds| ensures none[k] == [] {
    }
  }

  // ---- the word pool and the drag by text ----

  /** The cards 0 to n - 1, in order: the pool as `renderSortingArea` fills it. */
  function AllCards(n: nat): (r: seq<nat>)
    ensures |r| == n && forall k :: 0 <= k < n ==> r[k] == k
    ensures forall x: nat :: x in r <==> x < n
  {
    if n == 0 then [] else AllCards(n - 1) + [n - 1]
  }

  /** The pool holds exactly the cards that no category holds. */
  ghost predicate PoolHolds(pool: seq<nat>, n: nat, lists: seq<seq<nat>>)
  {
    forall x: nat :: x in pool <==> x < n && x !in Flatten(lists)
  }

  /** Card x is a dealt word whose `data-word` attribute is the text. */
  predicate Shows(words: seq<SortableWord>, x: nat, text: string)
  {
    x < |words| && words[x].word == text
  }

  /**
   * What `document.querySelector` finds for a `data-word` text: the place,
   * in the document order of the cards, of the first one showing it.
   */
  function FirstWithText(words: seq<SortableWord>, order: seq<nat>, text: string): (r: Option<nat>)
    ensures r.Some? ==> r.value < |order| && Shows(words, order[r.value], text)
    ensures r.Some? ==> forall q :: 0 <= q < r.value ==> !Shows(words, order[q], text)
    ensures r.None? ==> forall q :: 0 <= q < |order| ==> !Shows(words, order[q], text)
  {
    if order == [] then None
    else if Shows(words, order[0], text) then Some(0)
    else match FirstWithText(words, order[1..], text)
      case None => None
      case Some(p) => Some(p + 1)
  }

  /** A card that shares its text with no other card is the one its text finds. */
  lemma UniqueTextFindsCard(words: seq<SortableWord>, order: seq<nat>, p: nat)
    requires p < |order| && order[p] < |words|
    requires forall q :: 0 <= q < |order| && Shows(words, order[q], words[order[p]].word) ==> order[q] == order[p]
    ensures FirstWithText(words, order, words[order[p]].word).Some?
    ensures order[FirstWithText(words, order, words[order[p]].word).value] == order[p]
  {
    assert Shows(words, order[p], words[order[p]].word);
  }

  /**
   * Two dealt cards may show the same word: "fish" holds both ɪ and ʃ.
   * Dragging the second one, tagged ʃ, onto the ʃ category moves the first
   * one, tagged ɪ, which the check then finds in the wrong place.
   */
  lemma DuplicateTextMovesOtherCard()
    ensures var words := [SortableWord("fish", "fɪʃ", "ɪ"), SortableWord("fish", "fɪʃ", "ʃ"), SortableWord("cat", "kæt", "æ")];
      var order := AllCards(3) + Flatten(NoneSorted(3));
      var moved := Placed(Removed(NoneSorted(3), OtherCard(0)), 1, 0);
      FirstWithText(words, order, words[1].word) == Some(0) && order[0] == 0
      && InRange(moved, 3) && !RoundCorrect(["ɪ", "ʃ", "æ"], ReadOut(words, moved))
  {
    var words := [SortableWord("fish", "fɪʃ", "ɪ"), SortableWord("fish", "fɪʃ", "ʃ"), SortableWord("cat", "kæt", "æ")];
    EmptyCategories(3, 3);
    var order := AllCards(3) + Flatten(NoneSorted(3));
    assert order == [0, 1, 2];
    assert Shows(words, order[0], words[1].word);
    var removed := Removed(NoneSorted(3), OtherCard(0));
    assert removed[0] == [] && removed[1] == [] && removed[2] == [];
    assert removed == [[], [], []];
    var moved := Placed(removed, 1, 0);
    assert removed[1] + [0] == [0];
    assert moved == [[], [0], []];
    assert ReadOut(words, moved)[1][0].correctSound == "ɪ";
  }

  class SoundSortingGame {
    var score: nat
    var round: nat
    const availableSounds: seq<string>
    var currentSounds: seq<string>
    var currentWords: seq<SortableWord>
    /** The cards each category container holds, in order; the rest lie in the word pool. */
    var containers: seq<seq<nat>>
    /** The cards the word pool holds, in document order. */
    var pool: seq<nat>
    /** One list per current sound, as `updateSortedWords` last read it. */
    var sortedWords: seq<seq<SortedWord>>
    var checkDisabled: bool
    var nextDisabled: bool
    var gameOver: bool

    /**
     * One container per sound, which together hold each word at most once;
     * the sorted words are what the containers hold; one point at most per
     * round, and none yet in a round still to be checked.
     */
    ghost predicate Valid()
      reads this
    {
      round <= MaxRounds && score <= round && (round > 0 && !checkDisabled ==> score < round)
      && |containers| == |currentSounds| && WellSorted(|currentWords|, containers)
      && InRange(containers, |currentWords|) && sortedWords == ReadOut(currentWords, containers)
      && PoolHolds(pool, |currentWords|, containers)
    }

    constructor(selectedSounds: seq<string>)
      ensures Valid() && score == 0 && round == 0
      ensures availableSounds == AvailableSounds(selectedSounds)
    {
      score, round := 0, 0;
      availableSounds := AvailableSounds(selectedSounds);
      currentSounds, currentWords, containers, sortedWords, pool := [], [], [], [], [];
      checkDisabled, nextDisabled, gameOver := false, true, false;
    }

    /** `updateSortedWords`: every category's list rebuilt from what its container holds. */
    method UpdateSortedWords()
      requires |containers| == |currentSounds| && InRange(containers, |currentWords|)
      modifies this`sortedWords
      ensures sortedWords == ReadOut(currentWords, containers)
    {
      var lists: seq<seq<SortedWord>> := [];
      for k := 0 to |currentSounds|
        invariant |lists| == k && forall c :: 0 <= c < k ==> lists[c] == ReadCategory(currentWords, containers[c])
      {
        var ids := containers[k];
        var words: seq<SortedWord> := [];
        for m := 0 to |ids|
          invariant words == ReadCategory(currentWords, ids[..m])
        {
          words := words + [SortedWord(currentWords[ids[m]].word, currentWords[ids[m]].containsSound)];
        }
        assert ids[..|ids|] == ids;
        lists := lists + [words];
      }
      sortedWords := lists;
    }

    /**
     * A drop of a card, named by itself: it leaves its container, joins the
     * end of the target, category or pool, and the sorted words are read again.
     */
    method Drop(i: nat, target: DropTarget)
      requires Valid() && i < |currentWords|
      requires target.ToCategory? ==> target.category < |currentSounds|
      modifies this`pool, this`containers, this`sortedWords
      ensures Valid()
      ensures pool == Filter(old(pool), OtherCard(i)) + (if target.ToPool? then [i] else [])
      ensures target.ToPool? ==> containers == Removed(old(containers), OtherCard(i))
      ensures target.ToCategory? ==> containers == Placed(Removed(old(containers), OtherCard(i)), target.category, i)
      ensures forall x: nat :: x in Flatten(containers) <==> (x in Flatten(old(containers)) && x != i) || (x == i && target.ToCategory?)
    {
      RemovedKeepsSorted(|currentWords|, containers, OtherCard(i));
      containers := Removed(containers, OtherCard(i));
      pool := Filter(pool, OtherCard(i));
      if target.ToCategory? {
        PlacedKeepsSorted(|currentWords|, containers, target.category, i);
        containers := Placed(containers, target.category, i);
      } else {
        pool := pool + [i];
      }
      WellSortedInRange(|currentWords|, containers);
      UpdateSortedWords();
    }

    /**
     * The drop handler as written: the drag carries only the word's text,
     * and the card moved is the first showing it in document order, the
     * pool's cards before the categories'; a text no card shows moves nothing.
     */
    method DropText(text: string, target: DropTarget)
      requires Valid()
      requires target.ToCategory? ==> target.category < |currentSounds|
      modifies this`pool, this`containers, this`sortedWords
      ensures Valid()
      ensures var order := old(pool + Flatten(containers));
        var found := FirstWithText(currentWords, order, text);
        (found.None? ==> pool == old(pool) && containers == old(containers) && sortedWords == old(sortedWords))
        && (found.Some? ==>
              var i := order[found.value];
              pool == Filter(old(pool), OtherCard(i)) + (if target.ToPool? then [i] else [])
              && containers == if target.ToPool? then Removed(old(containers), OtherCard(i))
                               else Placed(Removed(old(containers), OtherCard(i)), target.category, i))
    {
      var order := pool + Flatten(containers);
      var found := FirstWithText(currentWords, order, text);
      if found.Some? {
        Drop(order[found.value], target);
      }
    }

    /**
     * `checkSorting` as written: the round is correct when no word in a
     * category carries another sound; the words still in the pool are not
     * looked at. A correct round scores exactly one point.
     */
    method CheckSorting() returns (correct: bool)
      requires Valid() && round > 0 && !checkDisabled
      modifies this`score, this`checkDisabled, this`nextDisabled
      ensures Valid()
      ensures correct <==> RoundCorrect(currentSounds, sortedWords)
      ensures score == old(score) + (if correct then 1 else 0)
      ensures checkDisabled && !nextDisabled
    {
      correct := AllInPlace(currentSounds, sortedWords);
      if correct {
        score := score + 1;
      }
      checkDisabled, nextDisabled := true, false;
    }

    /**
     * The check as intended: refused, with nothing changed, while a word is
     * still in the pool; otherwise as `checkSorting`.
     */
    method CheckSortingComplete() returns (refused: bool, correct: bool)
      requires Valid() && round > 0 && !checkDisabled
      modifies this`score, this`checkDisabled, this`nextDisabled
      ensures Valid()
      ensures refused <==> exists i :: 0 <= i < |currentWords| && i !in Flatten(containers)
      ensures refused ==> score == old(score) && !checkDisabled && !correct
      ensures !refused ==>
        (correct <==> RoundCorrect(currentSounds, sortedWords))
        && score == old(score) + (if correct then 1 else 0) && checkDisabled && !nextDisabled
    {
      PlacedCount(|currentWords|, containers);
      if |Flatten(containers)| < |currentWords| {
        refused, correct := true, false;
        return;
      }
      refused := false;
      correct := CheckSorting();
    }

    /**
     * `nextRound`: after five rounds the game ends; otherwise the next round
     * is dealt with every word in the pool and all categories empty.
     */
    method NextRound(soundDraws: Draws, wordDraws: seq<Draws>, finalDraws: Draws)
      requires Valid()
      requires IsRandom(soundDraws) && |wordDraws| == SoundsPerRound && AllRandom(wordDraws) && IsRandom(finalDraws)
      modifies this`round, this`currentSounds, this`currentWords, this`containers, this`pool, this`sortedWords,
               this`checkDisabled, this`nextDisabled, this`gameOver
      ensures Valid()
      ensures old(round) >= MaxRounds ==> gameOver && round == old(round) && checkDisabled && nextDisabled
      ensures old(round) >= MaxRounds ==>
        currentSounds == old(currentSounds) && currentWords == old(currentWords) && containers == old(containers)
        && pool == old(pool) && sortedWords == old(sortedWords)
      ensures old(round) < MaxRounds ==>
        round == old(round) + 1 && gameOver == old(gameOver) && !checkDisabled && nextDisabled
        && IsDeal(availableSounds, soundDraws, wordDraws, finalDraws, currentSounds, currentWords)
        && containers == NoneSorted(SoundsPerRound) && Flatten(containers) == [] && pool == AllCards(|currentWords|)
        && sortedWords == ReadOut(currentWords, containers)
    {
      if round >= MaxRounds {
        gameOver, checkDisabled, nextDisabled := true, true, true;
        return;
      }
      var sounds, words := GetRandomSoundsAndWords(availableSounds, soundDraws, wordDraws, finalDraws);
      BeginRound(sounds, words);
    }

    /** The round counted, the buttons reset, and the dealt words all in the pool. */
    method BeginRound(sounds: seq<string>, words: seq<SortableWord>)
      requires Valid() && round < MaxRounds
      modifies this`round, this`currentSounds, this`currentWords, this`containers, this`pool, this`sortedWords,
               this`checkDisabled, this`nextDisabled
      ensures Valid()
      ensures round == old(round) + 1 && !checkDisabled && nextDisabled
      ensures currentSounds == sounds && currentWords == words
      ensures containers == NoneSorted(|sounds|) && Flatten(containers) == [] && pool == AllCards(|words|)
      ensures sortedWords == ReadOut(currentWords, containers)
    {
      EmptyCategories(|words|, |sounds|);
      WellSortedInRange(|words|, NoneSorted(|sounds|));
      round := round + 1;
      checkDisabled, nextDisabled := false, true;
      currentSounds, currentWords := sounds, words;
      containers := NoneSorted(|sounds|);
      pool := AllCards(|words|);
      sortedWords := ReadOut(words, containers);
    }

    /**
     * `startGame`: score and round back to zero, then the first round. Play
     * Again calls `init`, whose `render` replaces the game-over screen first.
     */
    method StartGame(soundDraws: Draws, wordDraws: seq<Draws>, finalDraws: Draws)
      requires Valid()
      requires IsRandom(soundDraws) && |wordDraws| == SoundsPerRound && AllRandom(wordDraws) && IsRandom(finalDraws)
      modifies this`score, this`round, this`currentSounds, this`currentWords, this`containers, this`pool, this`sortedWords,
               this`checkDisabled, this`nextDisabled, this`gameOver
      ensures Valid() && score == 0 && round == 1 && !gameOver && !checkDisabled && nextDisabled
      ensures IsDeal(availableSounds, soundDraws, wordDraws, finalDraws, currentSounds, currentWords)
      ensures containers == NoneSorted(SoundsPerRound) && Flatten(containers) == [] && pool == AllCards(|currentWords|)
      ensures sortedWords == ReadOut(currentWords, containers)
    {
      score, round, gameOver := 0, 0, false;
      NextRound(soundDraws, wordDraws, finalDraws);
    }
  }
}
