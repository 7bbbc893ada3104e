// Sorting located words into the first / middle / last buckets. The source
// compares an offset p with `length * 0.2` and `length * 0.8`; with integer
// p and L these tests are 5p <= L, L < 5p < 4L and 5p >= 4L.
module PositionClassifier {
  import opened SymbolLocator
  import Collections

  datatype PositionType = First | Middle | Last

  predicate InBucket(l: Located, b: PositionType)
  {
    var len := |l.phonetic|;
    match b
    case First => exists i :: 0 <= i < |l.positions| && 5 * l.positions[i] <= len
    case Middle => exists i :: 0 <= i < |l.positions| && len < 5 * l.positions[i] < 4 * len
    case Last => exists i :: 0 <= i < |l.positions| && 5 * l.positions[i] >= 4 * len
  }

  /** A located word with its bucket tag: `{...word, positionType}`. */
  datatype Tagged = Tagged(loc: Located, positionType: PositionType)

  /** The words of one bucket, tagged, in input order. */
  function Categorized(words: seq<Located>, b: PositionType): (r: seq<Tagged>)
    ensures |r| <= |words|
  {
    if words == [] then []
    else
      var w := words[|words| - 1];
      Categorized(words[..|words| - 1], b) + (if InBucket(w, b) then [Tagged(w, b)] else [])
  }

  /** `categorizeWordsByPosition`: one pass that appends each word to every bucket it qualifies for. */
  method CategorizeWordsByPosition(words: seq<Located>) returns (first: seq<Tagged>, middle: seq<Tagged>, last: seq<Tagged>)
    ensures first == Categorized(words, First)
    ensures middle == Categorized(words, Middle)
    ensures last == Categorized(words, Last)
  {
    first, middle, last := [], [], [];
    for i := 0 to |words|
      invariant first == Categorized(words[..i], First)
      invariant middle == Categorized(words[..i], Middle)
      invariant last == Categorized(words[..i], Last)
    {
      var w := words[i];
      CategorizedSnoc(words, i, First);
      CategorizedSnoc(words, i, Middle);
      CategorizedSnoc(words, i, Last);
      if |w.positions| == 0 {
        assert !InBucket(w, First) && !InBucket(w, Middle) && !InBucket(w, Last);
        continue;
      }
      var len := |w.phonetic|;
      var inFirst := exists k :: 0 <= k < |w.positions| && 5 * w.positions[k] <= len;
      var inMiddle := exists k :: 0 <= k < |w.positions| && len < 5 * w.positions[k] < 4 * len;
      var inLast := exists k :: 0 <= k < |w.positions| && 5 * w.positions[k] >= 4 * len;
      assert inFirst == InBucket(w, First);
      assert inMiddle == InBucket(w, Middle);
      assert inLast == InBucket(w, Last);
      if inFirst {
        first := first + [Tagged(w, First)];
      }
      if inMiddle {
        middle := middle + [Tagged(w, Middle)];
      }
      if inLast {
        last := last + [Tagged(w, Last)];
      }
    }
    assert words[..|words|] == words;
  }

  /** A bucket holds exactly the words that qualify for it, each tagged with the bucket. */
  lemma {:induction false} CategorizedMembers(words: seq<Located>, b: PositionType)
    ensures forall x :: x in Categorized(words, b) <==> x.positionType == b && x.loc in words && InBucket(x.loc, b)
  {
    if words != [] {
      var init := words[..|words| - 1];
      assert words == init + [words[|words| - 1]];
      CategorizedMembers(init, b);
    }
  }

  /** A bucket keeps the input order. */
  lemma {:induction false} CategorizedInOrder(words: seq<Located>, b: PositionType)
    ensures Collections.IsSubsequence(Untagged(Categorized(words, b)), words)
  {
    if words != [] {
      var init := words[..|words| - 1];
      var w := words[|words| - 1];
      var before := Categorized(init, b);
      assert words == init + [w];
      CategorizedInOrder(init, b);
      Collections.SubsequenceOfSnoc(Untagged(before), init, w);
      if InBucket(w, b) {
        assert Categorized(words, b) == before + [Tagged(w, b)];
        UntaggedSnoc(before, Tagged(w, b));
      } else {
        assert Categorized(words, b) == before;
      }
    }
  }

  lemma UntaggedSnoc(ts: seq<Tagged>, t: Tagged)
    ensures Untagged(ts + [t]) == Untagged(ts) + [t.loc]
  {
  }

  function Untagged(ts: seq<Tagged>): (r: seq<Located>)
    ensures |r| == |ts| && forall i :: 0 <= i < |ts| ==> r[i] == ts[i].loc
  {
    seq(|ts|, i requires 0 <= i < |ts| => ts[i].loc)
  }

  lemma CategorizedSnoc(words: seq<Located>, i: nat, b: PositionType)
    requires i < |words|
    ensures Categorized(words[..i + 1], b)
         == Categorized(words[..i], b) + (if InBucket(words[i], b) then [Tagged(words[i], b)] else [])
  {
    assert words[..i + 1][..i] == words[..i];
  }

  /** Every word with at least one offset lands in at least one bucket. */
  lemma SomeBucket(l: Located)
    requires |l.positions| > 0
    ensures InBucket(l, First) || InBucket(l, Middle) || InBucket(l, Last)
  {
    var p := l.positions[0];
    var len := |l.phonetic|;
    if 5 * p <= len {
      assert InBucket(l, First);
    } else if 5 * p < 4 * len {
      assert InBucket(l, Middle);
    } else {
      assert InBucket(l, Last);
    }
  }

  /** A word without offsets is in no bucket. */
  lemma NoOffsetsNoBucket(l: Located, b: PositionType)
    requires l.positions == []
    ensures !InBucket(l, b)
  {
  }

  /** With a ten-symbol transcription, offset 2 is first, 3 to 7 middle, 8 last. */
  lemma {:induction false} BucketBoundaries(w: Located, p: nat)
    requires |w.phonetic| == 10 && w.positions == [p]
    ensures InBucket(w, First) <==> p <= 2
    ensures InBucket(w, Middle) <==> 3 <= p <= 7
    ensures InBucket(w, Last) <==> 8 <= p
  {
    if p <= 2 { assert 5 * w.positions[0] <= 10; }
    if 3 <= p <= 7 { assert 10 < 5 * w.positions[0] < 40; }
    if 8 <= p { assert 5 * w.positions[0] >= 40; }
  }
}
