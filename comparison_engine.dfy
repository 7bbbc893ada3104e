// The sound-comparison view: the guard of the compare button and the
// pipeline it starts. Each sound is searched for with the single-sound
// filter, the hits are located and bucketed, and every bucket is paired with
// the same bucket of the other sound.
module SoundComparison {
  import opened Collections
  import opened Dictionary
  import opened PhoneticSearch
  import opened SymbolLocator
  import opened PositionClassifier
  import opened PositionMatcher
  import opened Text
  import opened PositionPattern

  /** The pairs of the three buckets, first-sound list then second-sound list. */
  datatype Comparison = Comparison(firstPosition: (seq<Paired>, seq<Paired>),
                                   middlePosition: (seq<Paired>, seq<Paired>),
                                   lastPosition: (seq<Paired>, seq<Paired>))

  /** What a click on the compare button leads to. */
  datatype Outcome = Alert(message: string) | Shown(result: Comparison)

  const SelectBoth := "Please select both sounds to compare"
  const SelectDifferent := "Please select two different sounds to compare"

  /** `processWordsForPositionMatching` as a value. */
  function LocateAll(words: seq<Entry>, sym: string): (r: seq<Located>)
    ensures |r| == |words| && forall i :: 0 <= i < |words| ==> r[i] == LocateSpec(words[i], sym)
  {
    seq(|words|, i requires 0 <= i < |words| => LocateSpec(words[i], sym))
  }

  /** The words of one sound that land in bucket `b`. */
  function Bucket(dict: seq<Entry>, sym: string, b: PositionType): seq<Tagged>
  {
    Categorized(LocateAll(SearchByPhonetic(dict, sym), sym), b)
  }

  /** Every bucketed word carries the signature the locator built for it. */
  lemma BucketSigned(dict: seq<Entry>, sym: string, b: PositionType)
    ensures AllSigned(Bucket(dict, sym, b))
  {
    var words := LocateAll(SearchByPhonetic(dict, sym), sym);
    CategorizedMembers(words, b);
    forall i | 0 <= i < |Bucket(dict, sym, b)|
      ensures Signed(Bucket(dict, sym, b)[i])
    {
      var x := Bucket(dict, sym, b)[i];
      assert x in Categorized(words, b);
      var j :| 0 <= j < |words| && words[j] == x.loc;
      assert x.loc == LocateSpec(SearchByPhonetic(dict, sym)[j], sym);
    }
  }

  /** The pairs of one bucket. */
  function BucketPairs(dict: seq<Entry>, first: string, second: string, b: PositionType): (r: (seq<Paired>, seq<Paired>))
    ensures |r.0| == |r.1| == Min(|Bucket(dict, first, b)|, |Bucket(dict, second, b)|)
  {
    BucketSigned(dict, first, b);
    BucketSigned(dict, second, b);
    PairWordsLength(Bucket(dict, first, b), Bucket(dict, second, b));
    PairWords(Bucket(dict, first, b), Bucket(dict, second, b))
  }

  /** The result `compareSounds` displays. */
  function Compared(dict: seq<Entry>, first: string, second: string): Comparison
  {
    Comparison(BucketPairs(dict, first, second, First),
               BucketPairs(dict, first, second, Middle),
               BucketPairs(dict, first, second, Last))
  }

  /** The compare button: both sounds must be chosen and they must differ. */
  function SetupSoundComparison(dict: seq<Entry>, first: string, second: string): (r: Outcome)
    ensures r.Alert? <==> first == [] || second == [] || first == second
    ensures first == [] || second == [] ==> r == Alert(SelectBoth)
    ensures first != [] && second != [] && first == second ==> r == Alert(SelectDifferent)
    ensures r.Shown? ==> r.result == Compared(dict, first, second)
  {
    if first == [] || second == [] then Alert(SelectBoth)
    else if first == second then Alert(SelectDifferent)
    else Shown(Compared(dict, first, second))
  }

  /** `compareSounds`: search, locate, bucket and pair, for both sounds. */
  method CompareSounds(dict: seq<Entry>, first: string, second: string) returns (c: Comparison)
    requires first != [] && second != []
    ensures c == Compared(dict, first, second)
  {
    var firstWords := SearchByPhonetic(dict, first);
    var secondWords := SearchByPhonetic(dict, second);
    var firstProcessed := ProcessWordsForPositionMatching(firstWords, first);
    var secondProcessed := ProcessWordsForPositionMatching(secondWords, second);
    assert firstProcessed == LocateAll(firstWords, first);
    assert secondProcessed == LocateAll(secondWords, second);
    var f1, m1, l1 := CategorizeWordsByPosition(firstProcessed);
    var f2, m2, l2 := CategorizeWordsByPosition(secondProcessed);
    BucketSigned(dict, first, First);
    BucketSigned(dict, first, Middle);
    BucketSigned(dict, first, Last);
    BucketSigned(dict, second, First);
    BucketSigned(dict, second, Middle);
    BucketSigned(dict, second, Last);
    var a1, a2 := FindWordPairsWithinCategory(f1, f2);
    var b1, b2 := FindWordPairsWithinCategory(m1, m2);
    var c1, c2 := FindWordPairsWithinCategory(l1, l2);
    c := Comparison((a1, a2), (b1, b2), (c1, c2));
  }

  // ---- what the displayed pairs are made of ----

  /**
   * Every word listed under a sound is a dictionary word the search for that
   * sound finds, and its chosen transcription holds the sound in the bucket's
   * part of the word.
   */
  lemma BucketWordsQualify(dict: seq<Entry>, sym: string, b: PositionType, x: Tagged)
    requires x in Bucket(dict, sym, b)
    ensures x.positionType == b && InBucket(x.loc, b)
    ensures x.loc.word in dict && MatchesSound(x.loc.word, sym)
    ensures x.loc == LocateSpec(x.loc.word, sym)
  {
    var found := SearchByPhonetic(dict, sym);
    var words := LocateAll(found, sym);
    CategorizedMembers(words, b);
    var j :| 0 <= j < |words| && words[j] == x.loc;
    assert found[j] in found;
  }

  /**
   * In every bucket the two lists are parallel, each pairs words of its own
   * sound only, no word is listed twice more often than it occurs, and the
   * pair scores are those of the pairing engine.
   */
  lemma ComparisonPairsQualify(dict: seq<Entry>, first: string, second: string, b: PositionType)
    ensures var r := BucketPairs(dict, first, second, b);
      |r.0| == |r.1|
      && (forall i :: 0 <= i < |r.0| ==> r.0[i].item in Bucket(dict, first, b) && MatchesSound(r.0[i].item.loc.word, first))
      && (forall i :: 0 <= i < |r.1| ==> r.1[i].item in Bucket(dict, second, b) && MatchesSound(r.1[i].item.loc.word, second))
      && (forall i :: 0 <= i < |r.0| ==> WellScored(r.0[i], r.1[i]))
  {
    var b1, b2 := Bucket(dict, first, b), Bucket(dict, second, b);
    BucketSigned(dict, first, b);
    BucketSigned(dict, second, b);
    var r := PairWords(b1, b2);
    PairWordsNoReuse(b1, b2);
    PairWordsScores(b1, b2);
    forall i | 0 <= i < |r.0|
      ensures r.0[i].item in b1 && MatchesSound(r.0[i].item.loc.word, first)
    {
      assert Items(r.0)[i] == r.0[i].item;
      assert r.0[i].item in multiset(Items(r.0));
      BucketWordsQualify(dict, first, b, r.0[i].item);
    }
    forall i | 0 <= i < |r.1|
      ensures r.1[i].item in b2 && MatchesSound(r.1[i].item.loc.word, second)
    {
      assert Items(r.1)[i] == r.1[i].item;
      assert r.1[i].item in multiset(Items(r.1));
      BucketWordsQualify(dict, second, b, r.1[i].item);
    }
  }

  /** The sound occurs in the transcription a bucketed word was located in (`uk || us`). */
  lemma ChosenTranscriptionHoldsSound(dict: seq<Entry>, sym: string, b: PositionType, x: Tagged)
    requires x in Bucket(dict, sym, b)
    ensures x.loc.positions != [] && Includes(Preferred(x.loc.word), sym)
  {
    BucketWordsQualify(dict, sym, b, x);
    if x.loc.positions == [] {
      NoOffsetsNoBucket(x.loc, b);
      assert false;
    }
    var t := Preferred(x.loc.word);
    OccurrencesExact(t, sym, 0);
    assert x.loc.positions[0] in OccurrencesFrom(t, sym, 0);
    assert OccursAt(t, sym, x.loc.positions[0]);
  }

  /**
   * The search accepts either transcription but the locator reads only the
   * UK one when there is one: a word whose sound is only in its US
   * transcription is found and then dropped from every bucket.
   */
  lemma UsOnlyMatchIsDropped(e: Entry, sym: string, b: PositionType)
    requires e.uk != [] && !Includes(e.uk, sym) && MatchesSound(e, sym)
    ensures SearchByPhonetic([e], sym) == [e]
    ensures Bucket([e], sym, b) == []
  {
    var none: seq<Entry> := [];
    assert [e][..0] == none;
    OccurrencesIffIncludes(e.uk, sym);
    var words := LocateAll([e], sym);
    assert words == [Located(e, e.uk, [], Join([]))];
    assert words[..0] == [];
  }
}
