// Pairing the words of one bucket for the first sound with those for the
// second sound. Exact phase: for each signature of the first side, in object
// enumeration order, that the second side also has, the first min(n1, n2)
// words of both groups are paired with score 100 and removed. Greedy phase:
// each remaining first-side word, in flattened group order, takes the
// remaining second-side word with the highest score (the lowest index among
// equals, index 0 when every score is 0), until one side runs out.
module PositionMatcher {
  import opened Wrappers
  import opened Collections
  import opened JsObject
  import opened PositionPattern
  import opened MatchScore
  import opened PositionClassifier
  import opened PatternGrouper
  import opened Dictionary
  import opened SymbolLocator
  import opened Text

  /** `{...word, matchScore}`. */
  datatype Paired = Paired(item: Tagged, matchScore: real)

  /** The word's signature is the join of its offsets, as the locator builds it. */
  predicate Signed(t: Tagged)
  {
    t.loc.positionPattern == Join(t.loc.positions)
  }

  predicate AllSigned(ws: seq<Tagged>)
  {
    forall i :: 0 <= i < |ws| ==> Signed(ws[i])
  }

  function Items(ps: seq<Paired>): (r: seq<Tagged>)
    ensures |r| == |ps| && forall i :: 0 <= i < |ps| ==> r[i] == ps[i].item
  {
    seq(|ps|, i requires 0 <= i < |ps| => ps[i].item)
  }

  function Scored(ws: seq<Tagged>, score: real): (r: seq<Paired>)
    ensures |r| == |ws| && forall i :: 0 <= i < |ws| ==> r[i] == Paired(ws[i], score)
  {
    seq(|ws|, i requires 0 <= i < |ws| => Paired(ws[i], score))
  }

  function Min(a: nat, b: nat): nat
  {
    if a < b then a else b
  }

  function Score(a: Tagged, b: Tagged): real
    requires Signed(a) && Signed(b)
  {
    PatternScore(a.loc.positionPattern, b.loc.positionPattern)
  }

  // ---- exact phase ----

  datatype Phase = Phase(g1: Groups, g2: Groups, out1: seq<Paired>, out2: seq<Paired>)

  /** Keep the unmatched tail of a group, deleting the group when nothing is left. */
  function Consume(g: Groups, key: string, w: seq<Tagged>, n: nat): Groups
    requires n <= |w|
  {
    var g' := Put(g, key, w[n..]);
    if |w[n..]| == 0 then Remove(g', key) else g'
  }

  function ExactStep(st: Phase, key: string): Phase
  {
    match (Get(st.g1, key), Get(st.g2, key))
    case (Some(w1), Some(w2)) =>
      var n := Min(|w1|, |w2|);
      Phase(Consume(st.g1, key, w1, n), Consume(st.g2, key, w2, n),
            st.out1 + Scored(w1[..n], 100.0), st.out2 + Scored(w2[..n], 100.0))
    case _ => st
  }

  function ExactPhase(st: Phase, keys: seq<string>): Phase
  {
    if keys == [] then st else ExactStep(ExactPhase(st, keys[..|keys| - 1]), keys[|keys| - 1])
  }

  function ExactMatches(first: seq<Tagged>, second: seq<Tagged>): Phase
  {
    var g1 := Grouped(first);
    ExactPhase(Phase(g1, Grouped(second), [], []), Keys(g1))
  }

  // ---- greedy phase ----

  /** The `calculatePositionMatchScore` of `fw` against each candidate, in order. */
  function Scores(fw: Tagged, rs: seq<Tagged>): (sc: seq<real>)
    requires Signed(fw) && AllSigned(rs)
    ensures |sc| == |rs| && forall j :: 0 <= j < |rs| ==> sc[j] == Score(fw, rs[j])
  {
    seq(|rs|, j requires 0 <= j < |rs| => Score(fw, rs[j]))
  }

  /** The source's scan for the best score, from index `i` on. */
  function BestFrom(sc: seq<real>, i: nat, bestIdx: nat, bestScore: real): (r: (nat, real))
    requires i <= |sc| && bestIdx < |sc|
    ensures r.0 < |sc|
    decreases |sc| - i
  {
    if i == |sc| then (bestIdx, bestScore)
    else if sc[i] > bestScore then BestFrom(sc, i + 1, i, sc[i])
    else BestFrom(sc, i + 1, bestIdx, bestScore)
  }

  lemma BestFromStep(sc: seq<real>, i: nat, bestIdx: nat, bestScore: real)
    requires i < |sc| && bestIdx < |sc|
    ensures BestFrom(sc, i, bestIdx, bestScore)
         == if sc[i] > bestScore then BestFrom(sc, i + 1, i, sc[i]) else BestFrom(sc, i + 1, bestIdx, bestScore)
  {
  }

  function BestMatch(fw: Tagged, rs: seq<Tagged>): (r: (nat, real))
    requires Signed(fw) && AllSigned(rs) && rs != []
    ensures r.0 < |rs|
  {
    BestFrom(Scores(fw, rs), 0, 0, 0.0)
  }

  function Greedy(rf: seq<Tagged>, rs: seq<Tagged>): (r: (seq<Paired>, seq<Paired>))
    requires AllSigned(rf) && AllSigned(rs)
    decreases |rf|
  {
    if rf == [] || rs == [] then ([], [])
    else
      var best := BestMatch(rf[0], rs);
      var rest := Greedy(rf[1..], RemoveAt(rs, best.0));
      ([Paired(rf[0], best.1)] + rest.0, [Paired(rs[best.0], best.1)] + rest.1)
  }

  /** `findWordPairsWithinCategory`: the two parallel lists of paired words. */
  function PairWords(first: seq<Tagged>, second: seq<Tagged>): (seq<Paired>, seq<Paired>)
    requires AllSigned(first) && AllSigned(second)
  {
    if |first| == 0 || |second| == 0 then ([], [])
    else
      var st := ExactMatches(first, second);
      ExactMatchesInv(first, second);
      RemainingSigned(st.g1, st.out1, first);
      RemainingSigned(st.g2, st.out2, second);
      var g := Greedy(Flatten(Values(st.g1)), Flatten(Values(st.g2)));
      (st.out1 + g.0, st.out2 + g.1)
  }

  // ---- the method ----

  /**
   * `findWordPairsWithinCategory`. The two passes of the source's loop
   * nest are the methods `PairIdentical` and `PairRemaining` below.
   */
  method FindWordPairsWithinCategory(first: seq<Tagged>, second: seq<Tagged>)
    returns (firstPairs: seq<Paired>, secondPairs: seq<Paired>)
    requires AllSigned(first) && AllSigned(second)
    ensures (firstPairs, secondPairs) == PairWords(first, second)
  {
    if |first| == 0 || |second| == 0 {
      return [], [];
    }
    var g1 := GroupWordsByPositionPattern(first);
    var g2 := GroupWordsByPositionPattern(second);
    var exact1, exact2;
    g1, g2, exact1, exact2 := PairIdentical(g1, g2);
    PairWordsUnfold(first, second);
    var greedy1, greedy2 := PairRemaining(Flatten(Values(g1)), Flatten(Values(g2)));
    firstPairs, secondPairs := exact1 + greedy1, exact2 + greedy2;
  }

  /** The exact pass: signatures of the first side in enumeration order. */
  method PairIdentical(groups1: Groups, groups2: Groups)
    returns (g1: Groups, g2: Groups, firstPairs: seq<Paired>, secondPairs: seq<Paired>)
    requires Ordered(groups1) && Ordered(groups2)
    ensures Phase(g1, g2, firstPairs, secondPairs) == ExactPhase(Phase(groups1, groups2, [], []), Keys(groups1))
  {
    g1, g2, firstPairs, secondPairs := groups1, groups2, [], [];
    var patterns := Keys(g1);
    ExactInvStart(groups1, groups2);
    for k := 0 to |patterns|
      invariant ExactInv(groups1, groups2, k, Phase(g1, g2, firstPairs, secondPairs))
    {
      ExactInvStep(groups1, groups2, k, Phase(g1, g2, firstPairs, secondPairs));
      g1, g2, firstPairs, secondPairs := PairSignature(g1, g2, firstPairs, secondPairs, patterns[k]);
    }
    assert patterns[..|patterns|] == patterns;
  }

  /** After `k` signatures: the phase so far, ordered groups, and the later signatures untouched. */
  ghost predicate ExactInv(groups1: Groups, groups2: Groups, k: nat, st: Phase)
  {
    var patterns := Keys(groups1);
    Ordered(groups1) && k <= |patterns|
    && st == ExactPhase(Phase(groups1, groups2, [], []), patterns[..k])
    && Ordered(st.g1) && Ordered(st.g2)
    && forall j :: k <= j < |patterns| ==> Get(st.g1, patterns[j]) == Get(groups1, patterns[j])
  }

  lemma ExactInvStart(groups1: Groups, groups2: Groups)
    requires Ordered(groups1) && Ordered(groups2)
    ensures ExactInv(groups1, groups2, 0, Phase(groups1, groups2, [], []))
  {
    assert Keys(groups1)[..0] == [];
  }

  lemma ExactInvStep(groups1: Groups, groups2: Groups, k: nat, st: Phase)
    requires ExactInv(groups1, groups2, k, st) && k < |Keys(groups1)|
    ensures Get(st.g1, Keys(groups1)[k]).Some?
    ensures ExactInv(groups1, groups2, k + 1, ExactStep(st, Keys(groups1)[k]))
  {
    var patterns := Keys(groups1);
    assert patterns[..k + 1][..k] == patterns[..k];
    GetAt(groups1, k);
    ExactStepOrdered(st, patterns[k]);
    ExactStepElsewhere(st, patterns[k]);
    forall j | k + 1 <= j < |patterns|
      ensures Get(ExactStep(st, patterns[k]).g1, patterns[j]) == Get(groups1, patterns[j])
    {
      assert patterns[j] != patterns[k] by { assert groups1[j].key != groups1[k].key; }
    }
  }

  /** One signature of the exact pass; the first side is known to hold it. */
  method PairSignature(g1: Groups, g2: Groups, out1: seq<Paired>, out2: seq<Paired>, pattern: string)
    returns (g1': Groups, g2': Groups, firstPairs: seq<Paired>, secondPairs: seq<Paired>)
    requires Get(g1, pattern).Some?
    ensures Phase(g1', g2', firstPairs, secondPairs) == ExactStep(Phase(g1, g2, out1, out2), pattern)
  {
    g1', g2', firstPairs, secondPairs := g1, g2, out1, out2;
    var found2 := Get(g2, pattern);
    if found2.Some? {
      var firstWords := Get(g1, pattern).value;
      var secondWords := found2.value;
      var pairCount := Min(|firstWords|, |secondWords|);
      for i := 0 to pairCount
        invariant firstPairs == out1 + Scored(firstWords[..i], 100.0)
        invariant secondPairs == out2 + Scored(secondWords[..i], 100.0)
      {
        ScoredSnoc(firstWords, i, 100.0);
        ScoredSnoc(secondWords, i, 100.0);
        firstPairs := firstPairs + [Paired(firstWords[i], 100.0)];
        secondPairs := secondPairs + [Paired(secondWords[i], 100.0)];
      }
      g1' := Put(g1', pattern, firstWords[pairCount..]);
      g2' := Put(g2', pattern, secondWords[pairCount..]);
      if |firstWords[pairCount..]| == 0 {
        g1' := Remove(g1', pattern);
      }
      if |secondWords[pairCount..]| == 0 {
        g2' := Remove(g2', pattern);
      }
    }
  }

  /** The greedy pass over the words the exact pass left. */
  method PairRemaining(remainingFirst: seq<Tagged>, rs: seq<Tagged>)
    returns (firstPairs: seq<Paired>, secondPairs: seq<Paired>)
    requires AllSigned(remainingFirst) && AllSigned(rs)
    ensures (firstPairs, secondPairs) == Greedy(remainingFirst, rs)
  {
    firstPairs, secondPairs := [], [];
    var remainingSecond := rs;
    ghost var spec := Greedy(remainingFirst, rs);
    GreedyInvStart(remainingFirst, rs);
    var idx := 0;
    while idx < |remainingFirst|
      invariant GreedyInv(remainingFirst, idx, remainingSecond, firstPairs, secondPairs, spec)
      decreases |remainingFirst| - idx
    {
      if |remainingSecond| == 0 {
        break;
      }
      var firstWord := remainingFirst[idx];
      var bestMatchIndex, bestMatchScore := FindBestMatch(firstWord, remainingSecond);
      var secondWord := remainingSecond[bestMatchIndex];
      GreedyInvStep(remainingFirst, idx, remainingSecond, firstPairs, secondPairs, spec);
      firstPairs := firstPairs + [Paired(firstWord, bestMatchScore)];
      secondPairs := secondPairs + [Paired(secondWord, bestMatchScore)];
      remainingSecond := RemoveAt(remainingSecond, bestMatchIndex);
      idx := idx + 1;
    }
    GreedyInvEnd(remainingFirst, idx, remainingSecond, firstPairs, secondPairs, spec);
  }

  /** What the greedy loop has produced so far, and what is left to produce. */
  ghost predicate GreedyInv(rf: seq<Tagged>, idx: nat, rs: seq<Tagged>, fp: seq<Paired>, sp: seq<Paired>,
                            spec: (seq<Paired>, seq<Paired>))
  {
    idx <= |rf| && AllSigned(rf) && AllSigned(rs)
    && fp + Greedy(rf[idx..], rs).0 == spec.0 && sp + Greedy(rf[idx..], rs).1 == spec.1
  }

  lemma GreedyInvStart(rf: seq<Tagged>, rs: seq<Tagged>)
    requires AllSigned(rf) && AllSigned(rs)
    ensures GreedyInv(rf, 0, rs, [], [], Greedy(rf, rs))
  {
    assert rf[0..] == rf;
  }

  lemma GreedyInvStep(rf: seq<Tagged>, idx: nat, rs: seq<Tagged>, fp: seq<Paired>, sp: seq<Paired>,
                      spec: (seq<Paired>, seq<Paired>))
    requires GreedyInv(rf, idx, rs, fp, sp, spec) && idx < |rf| && rs != []
    ensures Signed(rf[idx])
    ensures var best := BestMatch(rf[idx], rs);
      GreedyInv(rf, idx + 1, RemoveAt(rs, best.0), fp + [Paired(rf[idx], best.1)], sp + [Paired(rs[best.0], best.1)], spec)
  {
    GreedyStep(rf, rs, idx);
    var best := BestMatch(rf[idx], rs);
    var rest := Greedy(rf[idx + 1..], RemoveAt(rs, best.0));
    AppendAssoc(fp, [Paired(rf[idx], best.1)], rest.0);
    AppendAssoc(sp, [Paired(rs[best.0], best.1)], rest.1);
  }

  lemma GreedyInvEnd(rf: seq<Tagged>, idx: nat, rs: seq<Tagged>, fp: seq<Paired>, sp: seq<Paired>,
                     spec: (seq<Paired>, seq<Paired>))
    requires GreedyInv(rf, idx, rs, fp, sp, spec) && (idx == |rf| || rs == [])
    ensures (fp, sp) == spec
  {
    assert Greedy(rf[idx..], rs) == ([], []);
    assert fp + [] == fp && sp + [] == sp;
  }

  /** The inner scan of the greedy pass: a later word replaces the best only on a strictly higher score. */
  method FindBestMatch(firstWord: Tagged, remainingSecond: seq<Tagged>) returns (bestMatchIndex: nat, bestMatchScore: real)
    requires Signed(firstWord) && AllSigned(remainingSecond) && remainingSecond != []
    ensures (bestMatchIndex, bestMatchScore) == BestMatch(firstWord, remainingSecond)
  {
    ghost var scores := Scores(firstWord, remainingSecond);
    bestMatchIndex, bestMatchScore := 0, 0.0;
    for i := 0 to |remainingSecond|
      invariant bestMatchIndex < |scores|
      invariant BestFrom(scores, i, bestMatchIndex, bestMatchScore) == BestFrom(scores, 0, 0, 0.0)
    {
      var matchScore := CalculatePositionMatchScore(firstWord.loc.positionPattern, remainingSecond[i].loc.positionPattern);
      assert matchScore == scores[i];
      BestFromStep(scores, i, bestMatchIndex, bestMatchScore);
      if matchScore > bestMatchScore {
        bestMatchScore := matchScore;
        bestMatchIndex := i;
      }
    }
  }

  lemma ScoredSnoc(ws: seq<Tagged>, i: nat, score: real)
    requires i < |ws|
    ensures Scored(ws[..i + 1], score) == Scored(ws[..i], score) + [Paired(ws[i], score)]
  {
  }

  lemma GreedyStep(rf: seq<Tagged>, rs: seq<Tagged>, idx: nat)
    requires AllSigned(rf) && AllSigned(rs) && idx < |rf| && rs != []
    ensures var best := BestMatch(rf[idx], rs);
      var rest := Greedy(rf[idx + 1..], RemoveAt(rs, best.0));
      Greedy(rf[idx..], rs) == ([Paired(rf[idx], best.1)] + rest.0, [Paired(rs[best.0], best.1)] + rest.1)
  {
    assert rf[idx..][1..] == rf[idx + 1..];
  }

  lemma PairWordsUnfold(first: seq<Tagged>, second: seq<Tagged>)
    requires AllSigned(first) && AllSigned(second) && first != [] && second != []
    ensures var st := ExactMatches(first, second);
      AllSigned(Flatten(Values(st.g1))) && AllSigned(Flatten(Values(st.g2)))
      && var g := Greedy(Flatten(Values(st.g1)), Flatten(Values(st.g2)));
      PairWords(first, second) == (st.out1 + g.0, st.out2 + g.1)
  {
    var st := ExactMatches(first, second);
    ExactMatchesInv(first, second);
    RemainingSigned(st.g1, st.out1, first);
    RemainingSigned(st.g2, st.out2, second);
  }

  // ---- invariant of the exact phase ----

  /** Every word either already paired or still in a group, signatures keyed, exact pairs at 100. */
  ghost predicate PhaseInv(st: Phase, first: seq<Tagged>, second: seq<Tagged>)
  {
    Ordered(st.g1) && Ordered(st.g2) && Keyed(st.g1) && Keyed(st.g2)
    && multiset(Items(st.out1)) + multiset(Flatten(Values(st.g1))) == multiset(first)
    && multiset(Items(st.out2)) + multiset(Flatten(Values(st.g2))) == multiset(second)
    && ExactPairs(st.out1, st.out2)
  }

  /** Parallel lists of pairs of equal signature, each scored 100. */
  predicate ExactPairs(o1: seq<Paired>, o2: seq<Paired>)
  {
    |o1| == |o2|
    && forall i :: 0 <= i < |o1| ==>
         o1[i].matchScore == 100.0 && o2[i].matchScore == 100.0 && Key(o1[i].item) == Key(o2[i].item)
  }

  lemma ExactPairsAppend(o1: seq<Paired>, o2: seq<Paired>, a: seq<Tagged>, b: seq<Tagged>, key: string)
    requires ExactPairs(o1, o2) && |a| == |b|
    requires forall x :: x in a ==> Key(x) == key
    requires forall x :: x in b ==> Key(x) == key
    ensures ExactPairs(o1 + Scored(a, 100.0), o2 + Scored(b, 100.0))
  {
    var r1, r2 := o1 + Scored(a, 100.0), o2 + Scored(b, 100.0);
    forall i | |o1| <= i < |r1|
      ensures r1[i].matchScore == 100.0 && r2[i].matchScore == 100.0 && Key(r1[i].item) == Key(r2[i].item)
    {
      assert r1[i] == Paired(a[i - |o1|], 100.0);
      assert r2[i] == Paired(b[i - |o1|], 100.0);
    }
  }

  lemma StartInv(first: seq<Tagged>, second: seq<Tagged>)
    ensures PhaseInv(Phase(Grouped(first), Grouped(second), [], []), first, second)
  {
    GroupedOrdered(first);
    GroupedOrdered(second);
    GroupedKeyed(first);
    GroupedKeyed(second);
    GroupedMultiset(first);
    GroupedMultiset(second);
    assert Items([]) == [];
  }

  lemma KeyedGet(g: Groups, k: string)
    requires Keyed(g) && Get(g, k).Some?
    ensures forall x :: x in Get(g, k).value ==> Key(x) == k
  {
    var i := Find(g, k);
    assert forall x :: x in g[i].value ==> exists j :: 0 <= j < |g[i].value| && g[i].value[j] == x;
  }

  lemma PutKeyed(g: Groups, k: string, v: seq<Tagged>)
    requires Keyed(g) && forall x :: x in v ==> Key(x) == k
    ensures Keyed(Put(g, k, v))
  {
    var r := Put(g, k, v);
    forall i, j | 0 <= i < |r| && 0 <= j < |r[i].value|
      ensures Key(r[i].value[j]) == r[i].key
    {
      var f := Find(g, k);
      if f >= 0 {
        if i == f { assert r[i].value[j] in v; } else { assert r[i] == g[i]; }
      } else {
        var p := NewKeyPosition(g, k);
        if i == p { assert r[i].value[j] in v; } else if i < p { assert r[i] == g[i]; } else { assert r[i] == g[i - 1]; }
      }
    }
  }

  lemma RemoveKeyed(g: Groups, k: string)
    requires Keyed(g)
    ensures Keyed(Remove(g, k))
  {
    var f := Find(g, k);
    if f >= 0 {
      var r := Remove(g, k);
      forall i, j | 0 <= i < |r| && 0 <= j < |r[i].value|
        ensures Key(r[i].value[j]) == r[i].key
      {
        if i < f { assert r[i] == g[i]; } else { assert r[i] == g[i + 1]; }
      }
    }
  }

  lemma ConsumeShape(g: Groups, key: string, w: seq<Tagged>, n: nat)
    requires Ordered(g) && Keyed(g) && Get(g, key) == Some(w) && n <= |w|
    ensures Ordered(Consume(g, key, w, n)) && Keyed(Consume(g, key, w, n))
    ensures forall x :: x in w[..n] ==> Key(x) == key
  {
    KeyedGet(g, key);
    var p := Put(g, key, w[n..]);
    PutOrdered(g, key, w[n..]);
    PutKeyed(g, key, w[n..]);
    if |w[n..]| == 0 {
      RemoveOrdered(p, key);
      RemoveKeyed(p, key);
    }
  }

  /** Consuming `n` words of a group removes exactly those words from the flattened groups. */
  lemma ConsumeValues(g: Groups, key: string, w: seq<Tagged>, n: nat)
    requires DistinctKeys(g) && Get(g, key) == Some(w) && n <= |w|
    ensures multiset(Flatten(Values(Consume(g, key, w, n)))) + multiset(w[..n]) == multiset(Flatten(Values(g)))
  {
    var p := Put(g, key, w[n..]);
    PutValues(g, key, w[n..]);
    var mp := multiset(Flatten(Values(p)));
    if |w[n..]| == 0 {
      PutDistinct(g, key, w[n..]);
      RemoveValues(p, key);
      GetPut(g, key, w[n..], key);
    }
    assert multiset(Flatten(Values(Consume(g, key, w, n)))) == mp;
    assert w == w[..n] + w[n..];
    assert multiset(w) == multiset(w[..n]) + multiset(w[n..]);
    MultisetCancel(mp + multiset(w[..n]), multiset(w[n..]), multiset(Flatten(Values(g))));
  }

  /** One side of an exact step keeps that side's part of the invariant. */
  lemma ConsumeSide(g: Groups, out: seq<Paired>, key: string, w: seq<Tagged>, n: nat, whole: seq<Tagged>)
    requires Ordered(g) && Keyed(g) && Get(g, key) == Some(w) && n <= |w|
    requires multiset(Items(out)) + multiset(Flatten(Values(g))) == multiset(whole)
    ensures Ordered(Consume(g, key, w, n)) && Keyed(Consume(g, key, w, n))
    ensures multiset(Items(out + Scored(w[..n], 100.0))) + multiset(Flatten(Values(Consume(g, key, w, n)))) == multiset(whole)
    ensures forall x :: x in w[..n] ==> Key(x) == key
  {
    ConsumeShape(g, key, w, n);
    ConsumeValues(g, key, w, n);
    ItemsAppend(out, Scored(w[..n], 100.0));
    assert Items(Scored(w[..n], 100.0)) == w[..n];
    var done := multiset(Items(out + Scored(w[..n], 100.0)));
    assert done == multiset(Items(out)) + multiset(w[..n]);
    var rest := multiset(Flatten(Values(Consume(g, key, w, n))));
    assert rest + multiset(w[..n]) == multiset(Flatten(Values(g)));
    assert done + rest == multiset(Items(out)) + (rest + multiset(w[..n]));
  }

  lemma ExactStepInv(st: Phase, key: string, first: seq<Tagged>, second: seq<Tagged>)
    requires PhaseInv(st, first, second)
    ensures PhaseInv(ExactStep(st, key), first, second)
  {
    if Get(st.g1, key).Some? && Get(st.g2, key).Some? {
      var w1, w2 := Get(st.g1, key).value, Get(st.g2, key).value;
      var n := Min(|w1|, |w2|);
      assert ExactStep(st, key) == Phase(Consume(st.g1, key, w1, n), Consume(st.g2, key, w2, n),
            st.out1 + Scored(w1[..n], 100.0), st.out2 + Scored(w2[..n], 100.0));
      ConsumeSide(st.g1, st.out1, key, w1, n, first);
      ConsumeSide(st.g2, st.out2, key, w2, n, second);
      ExactPairsAppend(st.out1, st.out2, w1[..n], w2[..n], key);
    }
  }

  lemma ExactStepOrdered(st: Phase, key: string)
    requires Ordered(st.g1) && Ordered(st.g2)
    ensures Ordered(ExactStep(st, key).g1) && Ordered(ExactStep(st, key).g2)
  {
    if Get(st.g1, key).Some? && Get(st.g2, key).Some? {
      var w1, w2 := Get(st.g1, key).value, Get(st.g2, key).value;
      var n := Min(|w1|, |w2|);
      PutOrdered(st.g1, key, w1[n..]);
      PutOrdered(st.g2, key, w2[n..]);
      RemoveOrdered(Put(st.g1, key, w1[n..]), key);
      RemoveOrdered(Put(st.g2, key, w2[n..]), key);
    }
  }

  /** An exact step leaves every other signature's groups alone. */
  lemma ExactStepElsewhere(st: Phase, key: string)
    requires Ordered(st.g1) && Ordered(st.g2)
    ensures forall k' :: k' != key ==> Get(ExactStep(st, key).g1, k') == Get(st.g1, k')
    ensures forall k' :: k' != key ==> Get(ExactStep(st, key).g2, k') == Get(st.g2, k')
  {
    match (Get(st.g1, key), Get(st.g2, key))
    case (Some(w1), Some(w2)) =>
      var n := Min(|w1|, |w2|);
      forall k' | k' != key
        ensures Get(ExactStep(st, key).g1, k') == Get(st.g1, k')
        ensures Get(ExactStep(st, key).g2, k') == Get(st.g2, k')
      {
        GetPut(st.g1, key, w1[n..], k');
        GetPut(st.g2, key, w2[n..], k');
        PutDistinct(st.g1, key, w1[n..]);
        PutDistinct(st.g2, key, w2[n..]);
        GetRemove(Put(st.g1, key, w1[n..]), key, k');
        GetRemove(Put(st.g2, key, w2[n..]), key, k');
      }
    case _ =>
  }

  lemma {:induction false} ExactPhaseInv(st: Phase, keys: seq<string>, first: seq<Tagged>, second: seq<Tagged>)
    requires PhaseInv(st, first, second)
    ensures PhaseInv(ExactPhase(st, keys), first, second)
  {
    if keys != [] {
      ExactPhaseInv(st, keys[..|keys| - 1], first, second);
      ExactStepInv(ExactPhase(st, keys[..|keys| - 1]), keys[|keys| - 1], first, second);
    }
  }

  lemma ExactMatchesInv(first: seq<Tagged>, second: seq<Tagged>)
    ensures PhaseInv(ExactMatches(first, second), first, second)
  {
    StartInv(first, second);
    var g1 := Grouped(first);
    ExactPhaseInv(Phase(g1, Grouped(second), [], []), Keys(g1), first, second);
  }

  lemma RemainingSigned(g: Groups, out: seq<Paired>, whole: seq<Tagged>)
    requires AllSigned(whole)
    requires multiset(Items(out)) + multiset(Flatten(Values(g))) == multiset(whole)
    ensures AllSigned(Flatten(Values(g)))
    ensures AllSigned(Items(out))
  {
    var rest := Flatten(Values(g));
    forall i | 0 <= i < |rest| ensures Signed(rest[i]) {
      assert rest[i] in multiset(whole);
    }
    forall i | 0 <= i < |out| ensures Signed(Items(out)[i]) {
      assert Items(out)[i] in multiset(Items(out));
      assert Items(out)[i] in multiset(whole);
    }
  }

  // ---- what the pairing promises ----

  lemma {:induction false} BestFromMax(sc: seq<real>, i: nat, bi: nat, bs: real)
    requires i <= |sc| && bi < |sc| && forall j :: 0 <= j < |sc| ==> 0.0 <= sc[j]
    requires (i == 0 && bi == 0 && bs == 0.0) || (bi < i && bs == sc[bi])
    requires forall j :: 0 <= j < i ==> sc[j] <= bs
    requires forall j :: 0 <= j < bi ==> sc[j] < bs
    ensures var r := BestFrom(sc, i, bi, bs);
      r.1 == sc[r.0] && (forall j :: 0 <= j < |sc| ==> sc[j] <= r.1) && (forall j :: 0 <= j < r.0 ==> sc[j] < r.1)
    decreases |sc| - i
  {
    if i < |sc| {
      if sc[i] > bs {
        BestFromMax(sc, i + 1, i, sc[i]);
      } else {
        BestFromMax(sc, i + 1, bi, bs);
      }
    }
  }

  /** The chosen partner has the highest score, and is the first such; index 0 when all scores are 0. */
  lemma BestMatchIsFirstMaximum(fw: Tagged, rs: seq<Tagged>)
    requires Signed(fw) && AllSigned(rs) && rs != []
    ensures var r := BestMatch(fw, rs);
      r.1 == Score(fw, rs[r.0])
      && (forall j :: 0 <= j < |rs| ==> Score(fw, rs[j]) <= r.1)
      && (forall j :: 0 <= j < r.0 ==> Score(fw, rs[j]) < r.1)
  {
    var sc := Scores(fw, rs);
    forall j | 0 <= j < |sc|
      ensures 0.0 <= sc[j]
    {
      PatternScoreRange(fw.loc.positionPattern, rs[j].loc.positionPattern);
    }
    BestFromMax(sc, 0, 0, 0.0);
  }

  /** The greedy pass emits exactly min(|rf|, |rs|) pairs, its first entries being `rf`'s words in order. */
  lemma {:induction false} GreedyLength(rf: seq<Tagged>, rs: seq<Tagged>)
    requires AllSigned(rf) && AllSigned(rs)
    ensures var g := Greedy(rf, rs);
      |g.0| == Min(|rf|, |rs|) && |g.1| == |g.0| && Items(g.0) == rf[..|g.0|]
    decreases |rf|
  {
    if rf != [] && rs != [] {
      var best := BestMatch(rf[0], rs);
      var rest := Greedy(rf[1..], RemoveAt(rs, best.0));
      GreedyLength(rf[1..], RemoveAt(rs, best.0));
      GreedyUnfold(rf, rs);
      ItemsCons(Paired(rf[0], best.1), rest.0);
      TakeCons(rf, |rest.0|);
    }
  }

  /** One turn of the greedy pass. */
  lemma GreedyUnfold(rf: seq<Tagged>, rs: seq<Tagged>)
    requires AllSigned(rf) && AllSigned(rs) && rf != [] && rs != []
    ensures var best := BestMatch(rf[0], rs);
      var rest := Greedy(rf[1..], RemoveAt(rs, best.0));
      Greedy(rf, rs) == ([Paired(rf[0], best.1)] + rest.0, [Paired(rs[best.0], best.1)] + rest.1)
  {
  }

  lemma ItemsCons(p: Paired, ps: seq<Paired>)
    ensures Items([p] + ps) == [p.item] + Items(ps)
  {
    ItemsAppend([p], ps);
  }

  lemma TakeCons<T>(s: seq<T>, k: nat)
    requires k < |s|
    ensures s[..k + 1] == [s[0]] + s[1..][..k]
  {
  }

  /** No second-side word is chosen twice. */
  lemma {:induction false} GreedyNoReuse(rf: seq<Tagged>, rs: seq<Tagged>)
    requires AllSigned(rf) && AllSigned(rs)
    ensures multiset(Items(Greedy(rf, rs).1)) <= multiset(rs)
    decreases |rf|
  {
    if rf != [] && rs != [] {
      var best := BestMatch(rf[0], rs);
      var rest := Greedy(rf[1..], RemoveAt(rs, best.0));
      GreedyNoReuse(rf[1..], RemoveAt(rs, best.0));
      GreedyUnfold(rf, rs);
      ItemsCons(Paired(rs[best.0], best.1), rest.1);
      assert multiset([rs[best.0]] + Items(rest.1)) == multiset{rs[best.0]} + multiset(Items(rest.1));
    }
  }

  /** Both entries carry the pair's `calculatePositionMatchScore`. */
  predicate PairScored(p1: Paired, p2: Paired)
  {
    Signed(p1.item) && Signed(p2.item)
    && p1.matchScore == p2.matchScore == Score(p1.item, p2.item)
  }

  lemma {:induction false} GreedyScores(rf: seq<Tagged>, rs: seq<Tagged>)
    requires AllSigned(rf) && AllSigned(rs)
    ensures var g := Greedy(rf, rs);
      |g.0| == |g.1| && forall i :: 0 <= i < |g.0| ==> PairScored(g.0[i], g.1[i])
    decreases |rf|
  {
    if rf != [] && rs != [] {
      var best := BestMatch(rf[0], rs);
      var rest := Greedy(rf[1..], RemoveAt(rs, best.0));
      GreedyScores(rf[1..], RemoveAt(rs, best.0));
      BestMatchIsFirstMaximum(rf[0], rs);
      var g := Greedy(rf, rs);
      assert g == ([Paired(rf[0], best.1)] + rest.0, [Paired(rs[best.0], best.1)] + rest.1);
      forall i | 0 <= i < |g.0|
        ensures PairScored(g.0[i], g.1[i])
      {
        if i > 0 {
          assert g.0[i] == rest.0[i - 1] && g.1[i] == rest.1[i - 1];
        }
      }
    }
  }

  /** `Flatten` of the groups and the pairs made so far account for exactly the whole side. */
  lemma SideCount(out: seq<Paired>, rest: seq<Tagged>, whole: seq<Tagged>)
    requires multiset(Items(out)) + multiset(rest) == multiset(whole)
    ensures |out| + |rest| == |whole|
  {
    assert |multiset(Items(out)) + multiset(rest)| == |multiset(whole)|;
  }

  /** The result as the exact pass's pairs followed by the greedy pass's, with the invariant the exact pass leaves. */
  lemma PairWordsSplit(first: seq<Tagged>, second: seq<Tagged>) returns (st: Phase, rf: seq<Tagged>, rs: seq<Tagged>)
    requires AllSigned(first) && AllSigned(second) && first != [] && second != []
    ensures st == ExactMatches(first, second) && PhaseInv(st, first, second)
    ensures rf == Flatten(Values(st.g1)) && rs == Flatten(Values(st.g2)) && AllSigned(rf) && AllSigned(rs)
    ensures PairWords(first, second) == (st.out1 + Greedy(rf, rs).0, st.out2 + Greedy(rf, rs).1)
  {
    st := ExactMatches(first, second);
    ExactMatchesInv(first, second);
    PairWordsUnfold(first, second);
    rf, rs := Flatten(Values(st.g1)), Flatten(Values(st.g2));
  }

  /** The two returned lists are parallel and as long as the shorter input. */
  lemma PairWordsLength(first: seq<Tagged>, second: seq<Tagged>)
    requires AllSigned(first) && AllSigned(second)
    ensures |PairWords(first, second).0| == Min(|first|, |second|)
    ensures |PairWords(first, second).1| == Min(|first|, |second|)
  {
    if first != [] && second != [] {
      var st, rf, rs := PairWordsSplit(first, second);
      GreedyLength(rf, rs);
      SideCount(st.out1, rf, first);
      SideCount(st.out2, rs, second);
    }
  }

  /** No word of either side is used twice, and every paired word comes from its side. */
  lemma PairWordsNoReuse(first: seq<Tagged>, second: seq<Tagged>)
    requires AllSigned(first) && AllSigned(second)
    ensures multiset(Items(PairWords(first, second).0)) <= multiset(first)
    ensures multiset(Items(PairWords(first, second).1)) <= multiset(second)
  {
    if first != [] && second != [] {
      var st, rf, rs := PairWordsSplit(first, second);
      GreedyLength(rf, rs);
      GreedyNoReuse(rf, rs);
      FirstSideUsed(st.out1, rf, Greedy(rf, rs).0, first);
      SecondSideUsed(st.out2, rs, Greedy(rf, rs).1, second);
    }
  }

  lemma FirstSideUsed(out: seq<Paired>, rf: seq<Tagged>, g: seq<Paired>, whole: seq<Tagged>)
    requires multiset(Items(out)) + multiset(rf) == multiset(whole)
    requires |g| <= |rf| && Items(g) == rf[..|g|]
    ensures multiset(Items(out + g)) <= multiset(whole)
  {
    ItemsAppend(out, g);
    assert rf == rf[..|g|] + rf[|g|..];
    SideNoReuse(Items(out), Items(g), rf, whole);
  }

  lemma SecondSideUsed(out: seq<Paired>, rs: seq<Tagged>, g: seq<Paired>, whole: seq<Tagged>)
    requires multiset(Items(out)) + multiset(rs) == multiset(whole)
    requires multiset(Items(g)) <= multiset(rs)
    ensures multiset(Items(out + g)) <= multiset(whole)
  {
    ItemsAppend(out, g);
    SideNoReuse(Items(out), Items(g), rs, whole);
  }

  lemma ItemsAppend(a: seq<Paired>, b: seq<Paired>)
    ensures Items(a + b) == Items(a) + Items(b)
  {
  }

  lemma SideNoReuse(done: seq<Tagged>, taken: seq<Tagged>, rest: seq<Tagged>, whole: seq<Tagged>)
    requires multiset(done) + multiset(rest) == multiset(whole) && multiset(taken) <= multiset(rest)
    ensures multiset(done + taken) <= multiset(whole)
  {
  }

  /**
   * Both entries carry the same score, within [0, 100]; either the pair is
   * exact (equal signatures, score 100) or the score is the one
   * `calculatePositionMatchScore` gives its signatures.
   */
  predicate WellScored(p1: Paired, p2: Paired)
  {
    p1.matchScore == p2.matchScore && 0.0 <= p1.matchScore <= 100.0
    && ((p1.matchScore == 100.0 && Key(p1.item) == Key(p2.item)) || PairScored(p1, p2))
  }

  lemma AllWellScored(a1: seq<Paired>, a2: seq<Paired>, b1: seq<Paired>, b2: seq<Paired>)
    requires ExactPairs(a1, a2) && |b1| == |b2|
    requires forall i :: 0 <= i < |b1| ==> PairScored(b1[i], b2[i])
    ensures forall i :: 0 <= i < |a1| + |b1| ==> WellScored((a1 + b1)[i], (a2 + b2)[i])
  {
    forall i | 0 <= i < |a1| + |b1|
      ensures WellScored((a1 + b1)[i], (a2 + b2)[i])
    {
      if i >= |a1| {
        var j := i - |a1|;
        assert (a1 + b1)[i] == b1[j] && (a2 + b2)[i] == b2[j];
        PatternScoreRange(b1[j].item.loc.positionPattern, b2[j].item.loc.positionPattern);
      } else {
        assert (a1 + b1)[i] == a1[i] && (a2 + b2)[i] == a2[i];
      }
    }
  }

  /** Every pair returned is well scored. */
  lemma PairWordsScores(first: seq<Tagged>, second: seq<Tagged>)
    requires AllSigned(first) && AllSigned(second)
    ensures var r := PairWords(first, second);
      |r.0| == |r.1| && forall i :: 0 <= i < |r.0| ==> WellScored(r.0[i], r.1[i])
  {
    if first != [] && second != [] {
      var st, rf, rs := PairWordsSplit(first, second);
      GreedyScores(rf, rs);
      AllWellScored(st.out1, st.out2, Greedy(rf, rs).0, Greedy(rf, rs).1);
    }
  }

  /** Every word of the smaller side finds a partner. */
  lemma SmallerSideFullyPaired(first: seq<Tagged>, second: seq<Tagged>)
    requires AllSigned(first) && AllSigned(second)
    ensures |first| <= |second| ==> multiset(Items(PairWords(first, second).0)) == multiset(first)
    ensures |second| <= |first| ==> multiset(Items(PairWords(first, second).1)) == multiset(second)
  {
    PairWordsLength(first, second);
    PairWordsNoReuse(first, second);
    var r := PairWords(first, second);
    if |first| <= |second| {
      SubMultisetSameSize(multiset(Items(r.0)), multiset(first));
    }
    if |second| <= |first| {
      SubMultisetSameSize(multiset(Items(r.1)), multiset(second));
    }
  }

  // ---- after the exact pass no signature is left on both sides ----

  lemma ConsumeAll(g: Groups, key: string, w: seq<Tagged>)
    requires DistinctKeys(g)
    ensures Get(Consume(g, key, w, |w|), key).None?
  {
    PutDistinct(g, key, w[|w|..]);
    GetRemove(Put(g, key, w[|w|..]), key, key);
  }

  /** Some side lacks the signature after its step. */
  lemma ExactStepSplits(st: Phase, key: string)
    requires Ordered(st.g1) && Ordered(st.g2)
    ensures Get(ExactStep(st, key).g1, key).None? || Get(ExactStep(st, key).g2, key).None?
  {
    if Get(st.g1, key).Some? && Get(st.g2, key).Some? {
      var w1, w2 := Get(st.g1, key).value, Get(st.g2, key).value;
      if |w1| <= |w2| {
        ConsumeAll(st.g1, key, w1);
      } else {
        ConsumeAll(st.g2, key, w2);
      }
    }
  }

  /** After the first `k` signatures: each of them is missing on some side, and no other signature appears on the first side. */
  ghost predicate Split(groups1: Groups, k: nat, st: Phase)
    requires k <= |Keys(groups1)|
  {
    (forall K :: K in Keys(groups1)[..k] ==> Get(st.g1, K).None? || Get(st.g2, K).None?)
    && forall K :: K !in Keys(groups1) ==> Get(st.g1, K).None?
  }

  lemma {:induction false} ExactPhaseSplits(groups1: Groups, groups2: Groups, k: nat)
    requires Ordered(groups1) && Ordered(groups2) && k <= |Keys(groups1)|
    ensures var st := ExactPhase(Phase(groups1, groups2, [], []), Keys(groups1)[..k]);
      Ordered(st.g1) && Ordered(st.g2) && Split(groups1, k, st)
  {
    var keys := Keys(groups1);
    if k == 0 {
      assert keys[..0] == [];
      forall K | K !in keys ensures Get(groups1, K).None? {
        GetAbsent(groups1, K);
      }
    } else {
      ExactPhaseSplits(groups1, groups2, k - 1);
      assert keys[..k][..k - 1] == keys[..k - 1];
      var prev := ExactPhase(Phase(groups1, groups2, [], []), keys[..k - 1]);
      var st := ExactStep(prev, keys[k - 1]);
      assert st == ExactPhase(Phase(groups1, groups2, [], []), keys[..k]);
      ExactStepOrdered(prev, keys[k - 1]);
      ExactStepElsewhere(prev, keys[k - 1]);
      ExactStepSplits(prev, keys[k - 1]);
      forall K | K in keys[..k] ensures Get(st.g1, K).None? || Get(st.g2, K).None? {
        if K != keys[k - 1] {
          assert K in keys[..k - 1];
        }
      }
    }
  }

  lemma {:induction false} FlattenMember<T>(ss: seq<seq<T>>, x: T)
    requires x in Flatten(ss)
    ensures exists i, j :: 0 <= i < |ss| && 0 <= j < |ss[i]| && ss[i][j] == x
  {
    if x in ss[0] {
      var j :| 0 <= j < |ss[0]| && ss[0][j] == x;
      assert ss[0][j] == x;
    } else {
      FlattenMember(ss[1..], x);
      var i, j :| 0 <= i < |ss[1..]| && 0 <= j < |ss[1..][i]| && ss[1..][i][j] == x;
      assert ss[i + 1][j] == x;
    }
  }

  /** A word still in some group is found under its own signature. */
  lemma RemainingUnderKey(g: Groups, x: Tagged)
    requires Ordered(g) && Keyed(g) && x in Flatten(Values(g))
    ensures Get(g, Key(x)).Some?
  {
    FlattenMember(Values(g), x);
    var i, j :| 0 <= i < |Values(g)| && 0 <= j < |Values(g)[i]| && Values(g)[i][j] == x;
    GetAt(g, i);
  }

  /** No word left for the greedy pass on one side shares its signature with one left on the other. */
  lemma NoSharedSignatureRemains(first: seq<Tagged>, second: seq<Tagged>)
    ensures var st := ExactMatches(first, second);
      forall x, y :: x in Flatten(Values(st.g1)) && y in Flatten(Values(st.g2)) ==> Key(x) != Key(y)
  {
    var g1 := Grouped(first);
    var st := ExactMatches(first, second);
    StartInv(first, second);
    ExactMatchesInv(first, second);
    ExactPhaseSplits(g1, Grouped(second), |Keys(g1)|);
    assert Keys(g1)[..|Keys(g1)|] == Keys(g1);
    forall x, y | x in Flatten(Values(st.g1)) && y in Flatten(Values(st.g2))
      ensures Key(x) != Key(y)
    {
      RemainingUnderKey(st.g1, x);
      RemainingUnderKey(st.g2, y);
    }
  }

  // ---- a worked bucket ----

  /**
   * First side A (signature "2"), B ("2,6"); second side C ("2"), D ("3"),
   * whatever else the four words hold.
   */
  predicate ScenarioWords(a: Tagged, b: Tagged, c: Tagged, d: Tagged)
  {
    Signed(a) && Signed(b) && Signed(c) && Signed(d)
    && Key(a) == "2" && Key(b) == "2,6" && Key(c) == "2" && Key(d) == "3"
  }

  lemma ScenarioKeys()
    ensures IsArrayIndex("2") && IsArrayIndex("3") && !IsArrayIndex("2,6")
    ensures IndexValue("2") == 2 && IndexValue("3") == 3
  {
  }

  lemma ScenarioFirstGroups(a: Tagged, b: Tagged)
    requires Key(a) == "2" && Key(b) == "2,6"
    ensures Grouped([a, b]) == [Property("2", [a]), Property("2,6", [b])]
  {
    ScenarioKeys();
    var none: Groups := [];
    assert [a][..0] == [];
    assert Get(none, "2") == None;
    assert Get(none, "2").GetOr([]) + [a] == [a];
    assert Grouped([a]) == AddWord(none, a) == Put(none, "2", [a]) == [Property("2", [a])];
    assert [a, b][..1] == [a];
    var ga: Groups := [Property("2", [a])];
    assert Get(ga, "2,6") == None;
    assert Get(ga, "2,6").GetOr([]) + [b] == [b];
    assert Grouped([a, b]) == AddWord(ga, b) == Put(ga, "2,6", [b]);
  }

  lemma ScenarioSecondGroups(c: Tagged, d: Tagged)
    requires Key(c) == "2" && Key(d) == "3"
    ensures Grouped([c, d]) == [Property("2", [c]), Property("3", [d])]
  {
    ScenarioKeys();
    var none: Groups := [];
    assert [c][..0] == [];
    assert Get(none, "2") == None;
    assert Get(none, "2").GetOr([]) + [c] == [c];
    assert Grouped([c]) == AddWord(none, c) == Put(none, "2", [c]) == [Property("2", [c])];
    assert [c, d][..1] == [c];
    var gc: Groups := [Property("2", [c])];
    assert Get(gc, "3") == None;
    assert Get(gc, "3").GetOr([]) + [d] == [d];
    assert NewKeyPosition(gc, "3") == 1;
    assert Grouped([c, d]) == AddWord(gc, d) == Put(gc, "3", [d]);
  }

  /** Pairing the only word of the group "2" deletes the group. */
  lemma ScenarioConsume(other: Property<seq<Tagged>>, w: Tagged)
    requires other.key != "2"
    ensures Consume([Property("2", [w]), other], "2", [w], 1) == [other]
  {
    var g: Groups := [Property("2", [w]), other];
    assert [w][1..] == [];
    assert g[..1] == [Property("2", [w])];
    assert Find(g, "2") == 0;
    var p: Groups := [Property("2", []), other];
    assert Put(g, "2", []) == p;
    assert p[..1] == [Property("2", [])];
    assert Find(p, "2") == 0;
    assert Remove(p, "2") == DeleteAt(p, 0) == [other];
  }

  /** One word against one word: it is chosen whatever its score. */
  lemma GreedySingle(x: Tagged, y: Tagged)
    requires Signed(x) && Signed(y)
    ensures AllSigned([x]) && AllSigned([y])
    ensures Greedy([x], [y]) == ([Paired(x, Score(x, y))], [Paired(y, Score(x, y))])
  {
    PatternScoreRange(x.loc.positionPattern, y.loc.positionPattern);
    var sc := Score(x, y);
    assert [y][0] == y && [x][0] == x;
    var scores := Scores(x, [y]);
    assert scores == [sc];
    if sc > 0.0 {
      assert BestFrom(scores, 0, 0, 0.0) == BestFrom(scores, 1, 0, sc);
    } else {
      assert BestFrom(scores, 0, 0, 0.0) == BestFrom(scores, 1, 0, 0.0);
    }
    assert BestMatch(x, [y]) == (0, sc);
    assert [x][1..] == [];
    assert RemoveAt([y], 0) == [];
    assert Greedy([x][1..], RemoveAt([y], 0)) == ([], []);
    var none: seq<Paired> := [];
    assert Greedy([x], [y]) == ([Paired(x, sc)] + none, [Paired(y, sc)] + none);
    assert [Paired(x, sc)] + none == [Paired(x, sc)] && [Paired(y, sc)] + none == [Paired(y, sc)];
  }

  lemma ScenarioScore(b: Tagged, d: Tagged)
    requires Signed(b) && Signed(d) && Key(b) == "2,6" && Key(d) == "3"
    ensures Score(b, d) == 25.0
  {
    assert Join([2, 6]) == "2,6" && Join([3]) == "3";
    PatternScoreOfSignatures([2, 6], [3]);
    assert ListScore([2, 6], [3]) == 25.0;
  }

  lemma FindFirstOfTwo(p: Property<seq<Tagged>>, q: Property<seq<Tagged>>)
    requires p.key != q.key
    ensures Get([p, q], p.key) == Some(p.value)
  {
    assert [p, q][..1] == [p];
    assert Find([p], p.key) == 0;
    assert Find([p, q], p.key) == Find([p], p.key);
  }

  lemma ExactStepBoth(st: Phase, key: string, w1: seq<Tagged>, w2: seq<Tagged>)
    requires Get(st.g1, key) == Some(w1) && Get(st.g2, key) == Some(w2)
    ensures var n := Min(|w1|, |w2|);
      ExactStep(st, key) == Phase(Consume(st.g1, key, w1, n), Consume(st.g2, key, w2, n),
                                  st.out1 + Scored(w1[..n], 100.0), st.out2 + Scored(w2[..n], 100.0))
  {
  }

  lemma ScenarioFirstStep(a: Tagged, b: Tagged, c: Tagged, d: Tagged)
    ensures ExactStep(Phase([Property("2", [a]), Property("2,6", [b])], [Property("2", [c]), Property("3", [d])], [], []), "2")
         == Phase([Property("2,6", [b])], [Property("3", [d])], [Paired(a, 100.0)], [Paired(c, 100.0)])
  {
    var g1: Groups := [Property("2", [a]), Property("2,6", [b])];
    var g2: Groups := [Property("2", [c]), Property("3", [d])];
    assert |"2,6"| == 3 && |"2"| == 1 && "3"[0] != "2"[0];
    FindFirstOfTwo(Property("2", [a]), Property("2,6", [b]));
    FindFirstOfTwo(Property("2", [c]), Property("3", [d]));
    ExactStepBoth(Phase(g1, g2, [], []), "2", [a], [c]);
    var none: seq<Paired> := [];
    assert ExactStep(Phase(g1, g2, [], []), "2")
        == Phase(Consume(g1, "2", [a], 1), Consume(g2, "2", [c], 1), none + Scored([a][..1], 100.0), none + Scored([c][..1], 100.0));
    ScenarioConsume(Property("2,6", [b]), a);
    ScenarioConsume(Property("3", [d]), c);
    SingleExact(a);
    SingleExact(c);
    assert none + [Paired(a, 100.0)] == [Paired(a, 100.0)] && none + [Paired(c, 100.0)] == [Paired(c, 100.0)];
  }

  lemma SingleExact(x: Tagged)
    ensures [x][..1] == [x] && Scored([x], 100.0) == [Paired(x, 100.0)]
  {
  }

  lemma ExactPhaseLast(st: Phase, keys: seq<string>)
    requires keys != []
    ensures ExactPhase(st, keys) == ExactStep(ExactPhase(st, keys[..|keys| - 1]), keys[|keys| - 1])
  {
  }

  lemma ExactStepMissing(st: Phase, key: string)
    requires Get(st.g2, key).None?
    ensures ExactStep(st, key) == st
  {
  }

  lemma ScenarioPhase(a: Tagged, b: Tagged, c: Tagged, d: Tagged)
    ensures ExactPhase(Phase([Property("2", [a]), Property("2,6", [b])], [Property("2", [c]), Property("3", [d])], [], []), ["2", "2,6"])
         == Phase([Property("2,6", [b])], [Property("3", [d])], [Paired(a, 100.0)], [Paired(c, 100.0)])
  {
    var st := Phase([Property("2", [a]), Property("2,6", [b])], [Property("2", [c]), Property("3", [d])], [], []);
    var one: seq<string> := ["2"];
    var keys: seq<string> := ["2", "2,6"];
    ExactPhaseLast(st, keys);
    assert keys[..|keys| - 1] == one && keys[|keys| - 1] == "2,6";
    ExactPhaseLast(st, one);
    assert one[..|one| - 1] == [] && one[|one| - 1] == "2";
    ScenarioFirstStep(a, b, c, d);
    var s1 := Phase([Property("2,6", [b])], [Property("3", [d])], [Paired(a, 100.0)], [Paired(c, 100.0)]);
    assert ExactPhase(st, one) == s1;
    assert Get(s1.g2, "2,6") == None;
    ExactStepMissing(s1, "2,6");
  }

  lemma ScenarioExact(a: Tagged, b: Tagged, c: Tagged, d: Tagged)
    requires Key(a) == "2" && Key(b) == "2,6" && Key(c) == "2" && Key(d) == "3"
    ensures ExactMatches([a, b], [c, d])
         == Phase([Property("2,6", [b])], [Property("3", [d])], [Paired(a, 100.0)], [Paired(c, 100.0)])
  {
    var g1 := Grouped([a, b]);
    var g2 := Grouped([c, d]);
    assert ExactMatches([a, b], [c, d]) == ExactPhase(Phase(g1, g2, [], []), Keys(g1));
    ScenarioFirstGroups(a, b);
    ScenarioSecondGroups(c, d);
    assert Keys(g1) == ["2", "2,6"];
    ScenarioPhase(a, b, c, d);
  }

  /**
   * The exact pass pairs A with C at 100; the greedy pass pairs B with D at
   * 50 * 1 / 2, since their signatures have different numbers of offsets.
   */
  lemma PairingScenario(a: Tagged, b: Tagged, c: Tagged, d: Tagged)
    requires ScenarioWords(a, b, c, d)
    ensures AllSigned([a, b]) && AllSigned([c, d])
    ensures PairWords([a, b], [c, d]) == ([Paired(a, 100.0), Paired(b, 25.0)], [Paired(c, 100.0), Paired(d, 25.0)])
  {
    assert AllSigned([a, b]) && AllSigned([c, d]);
    ScenarioExact(a, b, c, d);
    var st := Phase([Property("2,6", [b])], [Property("3", [d])], [Paired(a, 100.0)], [Paired(c, 100.0)]);
    assert Flatten(Values(st.g1)) == [b] && Flatten(Values(st.g2)) == [d] by {
      assert Values(st.g1) == [[b]] && Values(st.g2) == [[d]];
      FlattenSingle([b]);
      FlattenSingle([d]);
    }
    ScenarioScore(b, d);
    GreedySingle(b, d);
    PairWordsFrom([a, b], [c, d], st, [Paired(b, 25.0)], [Paired(d, 25.0)]);
    ConcatTwo(Paired(a, 100.0), Paired(b, 25.0));
    ConcatTwo(Paired(c, 100.0), Paired(d, 25.0));
  }

  /** `PairWords` from a known outcome of each pass. */
  lemma PairWordsFrom(first: seq<Tagged>, second: seq<Tagged>, st: Phase, o1: seq<Paired>, o2: seq<Paired>)
    requires AllSigned(first) && AllSigned(second) && first != [] && second != []
    requires ExactMatches(first, second) == st
    requires AllSigned(Flatten(Values(st.g1))) && AllSigned(Flatten(Values(st.g2)))
    requires Greedy(Flatten(Values(st.g1)), Flatten(Values(st.g2))) == (o1, o2)
    ensures PairWords(first, second) == (st.out1 + o1, st.out2 + o2)
  {
    PairWordsUnfold(first, second);
  }

  lemma ConcatTwo(x: Paired, y: Paired)
    ensures [x] + [y] == [x, y]
  {
  }
}
