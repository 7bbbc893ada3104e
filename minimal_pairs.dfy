// The minimal pairs challenge: the game plays one word of a pair of
// similar-sounding words and the player picks which one was heard. The
// pairs are a fixed list followed by pairs found in the dictionary: two
// records whose words have the same length and differ in exactly one
// letter, both with British audio and with different transcriptions.
module MinimalPairs {
  import opened Wrappers
  import opened Text
  import opened Collections
  import opened Dictionary
  import opened GameRules

  const MaxRounds: nat := 10

  /** A word of a pair: a plain string in the fixed list, a dictionary record otherwise. */
  datatype PairWord = Plain(text: string) | Record(entry: Entry)

  /** `typeof word === 'string' ? word : word.word`. */
  function WordText(w: PairWord): string
  {
    match w
    case Plain(t) => t
    case Record(e) => e.word
  }

  datatype MinimalPair =
    | Predefined(word1: string, word2: string, sound1: string, sound2: string)
    | FromDictionary(first: Entry, second: Entry)

  function First(p: MinimalPair): PairWord
  {
    if p.Predefined? then Plain(p.word1) else Record(p.first)
  }

  function Second(p: MinimalPair): PairWord
  {
    if p.Predefined? then Plain(p.word2) else Record(p.second)
  }

  /** The fixed pairs, character for character (their sound labels arrive mis-encoded in the source). */
  const PredefinedPairs: seq<MinimalPair> := [
    Predefined("ship", "sheep", "\U{2026}\U{2122}", "i\U{00C0}\U{00EA}"),
    Predefined("bit", "beat", "\U{2026}\U{2122}", "i\U{00C0}\U{00EA}"),
    Predefined("sit", "seat", "\U{2026}\U{2122}", "i\U{00C0}\U{00EA}"),
    Predefined("fill", "feel", "\U{2026}\U{2122}", "i\U{00C0}\U{00EA}"),
    Predefined("live", "leave", "\U{2026}\U{2122}", "i\U{00C0}\U{00EA}"),
    Predefined("pull", "pool", "\U{00A0}\U{00E4}", "u\U{00C0}\U{00EA}"),
    Predefined("full", "fool", "\U{00A0}\U{00E4}", "u\U{00C0}\U{00EA}"),
    Predefined("look", "Luke", "\U{00A0}\U{00E4}", "u\U{00C0}\U{00EA}"),
    Predefined("could", "cooed", "\U{00A0}\U{00E4}", "u\U{00C0}\U{00EA}"),
    Predefined("cat", "cut", "\U{221A}\U{00B6}", "\U{00A0}\U{00E5}"),
    Predefined("bad", "bud", "\U{221A}\U{00B6}", "\U{00A0}\U{00E5}"),
    Predefined("hat", "hut", "\U{221A}\U{00B6}", "\U{00A0}\U{00E5}"),
    Predefined("bat", "but", "\U{221A}\U{00B6}", "\U{00A0}\U{00E5}"),
    Predefined("cap", "cup", "\U{221A}\U{00B6}", "\U{00A0}\U{00E5}"),
    Predefined("bed", "bad", "e", "\U{221A}\U{00B6}"),
    Predefined("men", "man", "e", "\U{221A}\U{00B6}"),
    Predefined("said", "sad", "e", "\U{221A}\U{00B6}"),
    Predefined("pen", "pan", "e", "\U{221A}\U{00B6}"),
    Predefined("wet", "wait", "e", "e\U{2026}\U{2122}"),
    Predefined("pen", "pain", "e", "e\U{2026}\U{2122}"),
    Predefined("sell", "sale", "e", "e\U{2026}\U{2122}"),
    Predefined("met", "mate", "e", "e\U{2026}\U{2122}"),
    Predefined("ship", "chip", "\U{00A0}\U{00C9}", "t\U{00A0}\U{00C9}"),
    Predefined("share", "chair", "\U{00A0}\U{00C9}", "t\U{00A0}\U{00C9}"),
    Predefined("wash", "watch", "\U{00A0}\U{00C9}", "t\U{00A0}\U{00C9}"),
    Predefined("shoe", "chew", "\U{00A0}\U{00C9}", "t\U{00A0}\U{00C9}"),
    Predefined("vision", "pigeon", "\U{00A0}\U{00ED}", "d\U{00A0}\U{00ED}"),
    Predefined("measure", "major", "\U{00A0}\U{00ED}", "d\U{00A0}\U{00ED}"),
    Predefined("beige", "badge", "\U{00A0}\U{00ED}", "d\U{00A0}\U{00ED}"),
    Predefined("leisure", "ledger", "\U{00A0}\U{00ED}", "d\U{00A0}\U{00ED}")
  ]

  // ---- pairs from the dictionary ----

  /**
   * `diffCount` after the first `n` positions of `a`: a position counts when
   * the letters differ or `b` has none there (`undefined !== 'x'`).
   */
  function DiffCount(a: string, b: string, n: nat): (c: nat)
    requires n <= |a|
    ensures c <= n
  {
    if n == 0 then 0 else DiffCount(a, b, n - 1) + (if n - 1 >= |b| || a[n - 1] != b[n - 1] then 1 else 0)
  }

  /** The `k` loop. */
  method CountDiffs(word1: string, word2: string) returns (diffCount: nat)
    ensures diffCount == DiffCount(word1, word2, |word1|)
  {
    diffCount := 0;
    for k := 0 to |word1|
      invariant diffCount == DiffCount(word1, word2, k)
    {
      if k >= |word2| || word1[k] != word2[k] {
        diffCount := diffCount + 1;
      }
    }
  }

  lemma {:induction false} DiffCountZero(a: string, b: string, n: nat)
    requires n <= |a| && n <= |b|
    ensures DiffCount(a, b, n) == 0 <==> forall m :: 0 <= m < n ==> a[m] == b[m]
  {
    if n > 0 {
      DiffCountZero(a, b, n - 1);
    }
  }

  /** Among the first `n` positions, `a` and `b` differ at `k` and nowhere else. */
  predicate OnlyDifferenceAt(a: string, b: string, n: nat, k: nat)
    requires n <= |a| && n <= |b|
  {
    k < n && a[k] != b[k] && forall m :: 0 <= m < n && m != k ==> a[m] == b[m]
  }

  /** Over equal lengths, a difference count of one is exactly one differing position. */
  lemma {:induction false} DiffCountOne(a: string, b: string, n: nat)
    requires n <= |a| && n <= |b|
    ensures DiffCount(a, b, n) == 1 <==> exists k :: OnlyDifferenceAt(a, b, n, k)
  {
    if n > 0 {
      DiffCountOne(a, b, n - 1);
      DiffCountZero(a, b, n - 1);
      if a[n - 1] != b[n - 1] {
        if DiffCount(a, b, n) == 1 {
          assert OnlyDifferenceAt(a, b, n, n - 1);
        }
        if exists k :: OnlyDifferenceAt(a, b, n, k) {
          var k :| OnlyDifferenceAt(a, b, n, k);
          assert k == n - 1;
          assert forall m :: 0 <= m < n - 1 ==> a[m] == b[m];
        }
      } else {
        if DiffCount(a, b, n) == 1 {
          var k :| OnlyDifferenceAt(a, b, n - 1, k);
          assert OnlyDifferenceAt(a, b, n, k);
        }
        if exists k :: OnlyDifferenceAt(a, b, n, k) {
          var k :| OnlyDifferenceAt(a, b, n, k);
          assert OnlyDifferenceAt(a, b, n - 1, k);
        }
      }
    }
  }

  /** The test applied to `words[i]` and `words[j]`. */
  predicate IsMinimalPair(a: Entry, b: Entry)
  {
    DiffCount(a.word, b.word, |a.word|) == 1 && a.ukAudio != [] && b.ukAudio != [] && Preferred(a) != Preferred(b)
  }

  function PairIfMinimal(a: Entry, b: Entry): seq<MinimalPair>
  {
    if IsMinimalPair(a, b) then [FromDictionary(a, b)] else []
  }

  /** The pairs `(words[i], words[j'])` with `i < j' < j` that pass, in `j'` order. */
  function Row(words: seq<Entry>, i: nat, j: nat): seq<MinimalPair>
    requires i < j <= |words|
    decreases j
  {
    if j == i + 1 then [] else Row(words, i, j - 1) + PairIfMinimal(words[i], words[j - 1])
  }

  /** The rows of the first `i` words of a length group. */
  function Rows(words: seq<Entry>, i: nat): seq<MinimalPair>
    requires i <= |words|
  {
    if i == 0 then [] else Rows(words, i - 1) + Row(words, i - 1, |words|)
  }

  /** `wordsByLength[length]`: the words of that length, in dictionary order. */
  function LengthGroup(words: seq<Entry>, length: nat): seq<Entry>
  {
    Filter(words, (e: Entry) => |e.word| == length)
  }

  /** A length group holds exactly the words of that length. */
  lemma LengthGroupMembers(words: seq<Entry>, length: nat)
    ensures forall e :: e in LengthGroup(words, length) <==> e in words && |e.word| == length
  {
  }

  /** The pairs of the length groups below `length`, visited in ascending order as `for…in` does. */
  function PairsBelow(words: seq<Entry>, length: nat): seq<MinimalPair>
  {
    if length == 0 then []
    else
      var g := LengthGroup(words, length - 1);
      PairsBelow(words, length - 1) + Rows(g, |g|)
  }

  function MaxLength(words: seq<Entry>): (m: nat)
    ensures forall e :: e in words ==> |e.word| <= m
  {
    if words == [] then 0
    else
      var m := MaxLength(words[..|words| - 1]);
      assert words == words[..|words| - 1] + [words[|words| - 1]];
      if |words[|words| - 1].word| > m then |words[|words| - 1].word| else m
  }

  /** One more than the longest word: every length group lies below it. */
  function LengthBound(words: seq<Entry>): (b: nat)
    ensures forall e :: e in words ==> |e.word| < b
  {
    MaxLength(words) + 1
  }

  /** `dictionary.filter(word => hasPhonetics(word))`. */
  function Transcribed(dict: seq<Entry>): seq<Entry>
  {
    Filter(dict, HasPhonetics)
  }

  /** Everything `findMinimalPairsFromDictionary` pushes. */
  function DerivedPairs(dict: seq<Entry>): seq<MinimalPair>
  {
    PairsOf(Transcribed(dict))
  }

  /** The pairs of every length group of `words`, shortest length first. */
  function PairsOf(words: seq<Entry>): seq<MinimalPair>
  {
    PairsBelow(words, LengthBound(words))
  }

  /** `p` was built from two words of `words` that pass the test. */
  predicate PassingPairOf(words: seq<Entry>, p: MinimalPair)
  {
    p.FromDictionary? && p.first in words && p.second in words && IsMinimalPair(p.first, p.second)
  }

  /** Every pair of a row is a passing pair of the row's first word and a word of the group. */
  lemma {:induction false} RowSound(words: seq<Entry>, i: nat, j: nat, p: MinimalPair)
    requires i < j <= |words| && p in Row(words, i, j)
    ensures PassingPairOf(words, p) && p.first == words[i]
    decreases j
  {
    assert j > i + 1;
    InAppendSplit(p, Row(words, i, j - 1), PairIfMinimal(words[i], words[j - 1]));
    if p in Row(words, i, j - 1) {
      RowSound(words, i, j - 1, p);
    }
  }

  /** Every pair of a group's rows is a passing pair of two of its words. */
  lemma {:induction false} RowsSound(words: seq<Entry>, n: nat, p: MinimalPair)
    requires n <= |words| && p in Rows(words, n)
    ensures PassingPairOf(words, p)
  {
    assert n > 0;
    var m := n - 1;
    var before, row := Rows(words, m), Row(words, m, |words|);
    assert Rows(words, n) == before + row;
    InAppendSplit(p, before, row);
    if p in before {
      RowsSound(words, m, p);
    } else {
      RowSound(words, m, |words|, p);
    }
  }

  /** Every pair below `length` is a passing pair of two words of one length below it. */
  lemma {:induction false} PairsBelowSound(words: seq<Entry>, length: nat, p: MinimalPair)
    requires p in PairsBelow(words, length)
    ensures PassingPairOf(words, p) && |p.first.word| == |p.second.word| < length
  {
    assert length > 0;
    var g := LengthGroup(words, length - 1);
    InAppendSplit(p, PairsBelow(words, length - 1), Rows(g, |g|));
    if p in PairsBelow(words, length - 1) {
      PairsBelowSound(words, length - 1, p);
    } else {
      RowsSound(g, |g|, p);
      LengthGroupMembers(words, length - 1);
    }
  }

  /**
   * Every derived pair joins two different records of the dictionary that
   * have a transcription and British audio, whose words have the same length
   * and differ at exactly one position, and whose transcriptions differ.
   */
  lemma DerivedPairsAreMinimal(dict: seq<Entry>, p: MinimalPair)
    requires p in DerivedPairs(dict)
    ensures p.FromDictionary? && p.first in dict && p.second in dict && p.first != p.second
    ensures HasPhonetics(p.first) && HasPhonetics(p.second)
    ensures p.first.ukAudio != [] && p.second.ukAudio != [] && Preferred(p.first) != Preferred(p.second)
    ensures |p.first.word| == |p.second.word|
    ensures exists k :: OnlyDifferenceAt(p.first.word, p.second.word, |p.first.word|, k)
  {
    var ws := Transcribed(dict);
    PairsBelowSound(ws, LengthBound(ws), p);
    DiffCountOne(p.first.word, p.second.word, |p.first.word|);
  }

  /** A passing pair with the row's first word and a word inside the row is in the row. */
  lemma {:induction false} RowHas(words: seq<Entry>, i: nat, j: nat, k: nat)
    requires i < k < j <= |words| && IsMinimalPair(words[i], words[k])
    ensures FromDictionary(words[i], words[k]) in Row(words, i, j)
    decreases j
  {
    if k < j - 1 {
      RowHas(words, i, j - 1, k);
      InAppend(FromDictionary(words[i], words[k]), Row(words, i, j - 1), PairIfMinimal(words[i], words[j - 1]));
    }
  }

  /** Whatever is in the row of a word among the first `n` is in their rows. */
  lemma {:induction false} RowsHas(words: seq<Entry>, n: nat, i: nat, x: MinimalPair)
    requires i < n <= |words| && x in Row(words, i, |words|)
    ensures x in Rows(words, n)
  {
    RowsAddLast(words, i + 1, x);
    RowsKeep(words, i + 1, n, x);
  }

  /** The rows of the first `m` words are kept in the rows of the first `n >= m`. */
  lemma RowsKeep(words: seq<Entry>, m: nat, n: nat, x: MinimalPair)
    requires m <= n <= |words| && x in Rows(words, m)
    ensures x in Rows(words, n)
  {
    var f := (k: nat) => if k <= |words| then Rows(words, k) else [];
    var g := (k: nat) => if k < |words| then Row(words, k, |words|) else [];
    forall k: nat | m <= k < n
      ensures f(k + 1) == f(k) + g(k)
    {
      RowsStep(words, k + 1);
    }
    GrowingKeeps(f, g, m, n, x);
  }

  /** One more word adds its row at the end. */
  lemma RowsStep(words: seq<Entry>, n: nat)
    requires 0 < n <= |words|
    ensures Rows(words, n) == Rows(words, n - 1) + Row(words, n - 1, |words|)
  {
  }

  /** In a family of lists each extending the one before, what is in one list is in every later one. */
  lemma {:induction false} GrowingKeeps<T>(f: nat -> seq<T>, g: nat -> seq<T>, m: nat, n: nat, x: T)
    requires m <= n && x in f(m)
    requires forall k: nat :: m <= k < n ==> f(k + 1) == f(k) + g(k)
    ensures x in f(n)
    decreases n
  {
    if m < n {
      GrowingKeeps(f, g, m, n - 1, x);
      InAppend(x, f(n - 1), g(n - 1));
    }
  }

  /** The row of word `n - 1` is among the rows of the first `n` words. */
  lemma RowsAddLast(words: seq<Entry>, n: nat, x: MinimalPair)
    requires 0 < n <= |words| && x in Row(words, n - 1, |words|)
    ensures x in Rows(words, n)
  {
    InAppend(x, Rows(words, n - 1), Row(words, n - 1, |words|));
  }

  /** Whatever is in the rows of a length group below `length` is among the pairs below it. */
  lemma {:induction false} PairsBelowHas(words: seq<Entry>, length: nat, l: nat, x: MinimalPair)
    requires l < length
    requires var g := LengthGroup(words, l); x in Rows(g, |g|)
    ensures x in PairsBelow(words, length)
  {
    var before := PairsBelow(words, length - 1);
    var last := LengthGroup(words, length - 1);
    assert PairsBelow(words, length) == before + Rows(last, |last|);
    if l < length - 1 {
      PairsBelowHas(words, length - 1, l, x);
      assert x in before;
    } else {
      assert l == length - 1;
    }
    InAppend(x, before, Rows(last, |last|));
  }

  /**
   * Every passing pair of two words of equal length, the earlier one first,
   * is derived: each unordered pair of a group is tried once.
   */
  lemma DerivedPairsComplete(dict: seq<Entry>, l: nat, i: nat, j: nat)
    requires var g := LengthGroup(Transcribed(dict), l); i < j < |g| && IsMinimalPair(g[i], g[j])
    ensures var g := LengthGroup(Transcribed(dict), l); FromDictionary(g[i], g[j]) in DerivedPairs(dict)
  {
    var ws := Transcribed(dict);
    var g := LengthGroup(ws, l);
    var x := FromDictionary(g[i], g[j]);
    GroupRowsHas(g, i, j);
    DerivedHas(dict, l, x);
  }

  lemma GroupRowsHas(g: seq<Entry>, i: nat, j: nat)
    requires i < j < |g| && IsMinimalPair(g[i], g[j])
    ensures FromDictionary(g[i], g[j]) in Rows(g, |g|)
  {
    RowHas(g, i, |g|, j);
    RowsHas(g, |g|, i, FromDictionary(g[i], g[j]));
  }

  lemma DerivedHas(dict: seq<Entry>, l: nat, x: MinimalPair)
    requires var g := LengthGroup(Transcribed(dict), l); g != [] && x in Rows(g, |g|)
    ensures x in DerivedPairs(dict)
  {
    var ws := Transcribed(dict);
    var g := LengthGroup(ws, l);
    assert g[0] in g;
    LengthGroupMembers(ws, l);
    PairsBelowHas(ws, LengthBound(ws), l, x);
  }

  /** An empty dictionary adds no pairs. */
  lemma NoDerivedPairsFromNothing()
    ensures DerivedPairs([]) == []
  {
    var ws: seq<Entry> := [];
    assert Transcribed(ws) == ws;
    assert MaxLength(ws) == 0;
    assert PairsBelow(ws, 1) == PairsBelow(ws, 0) + Rows(LengthGroup(ws, 0), 0);
  }

  /** The `i` and `j` loops over one length group, pushing onto `pairs`. */
  method PushGroupPairs(words: seq<Entry>, pairs: seq<MinimalPair>) returns (r: seq<MinimalPair>)
    ensures r == pairs + Rows(words, |words|)
  {
    r := pairs;
    for i := 0 to |words|
      invariant r == pairs + Rows(words, i)
    {
      r := PushRowPairs(words, i, r);
      AppendAssoc(pairs, Rows(words, i), Row(words, i, |words|));
    }
  }

  /** The inner loop of the pair search: `words[i]` against every later word of its group. */
  method PushRowPairs(words: seq<Entry>, i: nat, pairs: seq<MinimalPair>) returns (r: seq<MinimalPair>)
    requires i < |words|
    ensures r == pairs + Row(words, i, |words|)
  {
    r := pairs;
    for j := i + 1 to |words|
      invariant r == pairs + Row(words, i, j)
    {
      AppendAssoc(pairs, Row(words, i, j), PairIfMinimal(words[i], words[j]));
      assert Row(words, i, j + 1) == Row(words, i, j) + PairIfMinimal(words[i], words[j]);
      var diffCount := CountDiffs(words[i].word, words[j].word);
      if diffCount == 1 && words[i].ukAudio != [] && words[j].ukAudio != [] {
        var phonetic1 := Preferred(words[i]);
        var phonetic2 := Preferred(words[j]);
        if phonetic1 != phonetic2 {
          r := r + [FromDictionary(words[i], words[j])];
        }
      }
    }
  }

  /** The `forEach` that fills `wordsByLength`. */
  method GroupByLength(words: seq<Entry>) returns (byLength: map<nat, seq<Entry>>)
    ensures forall l :: l in byLength ==> byLength[l] == LengthGroup(words, l)
    ensures forall l :: l !in byLength ==> LengthGroup(words, l) == []
  {
    byLength := map[];
    for i := 0 to |words|
      invariant forall l :: l in byLength ==> byLength[l] == LengthGroup(words[..i], l)
      invariant forall l :: l !in byLength ==> LengthGroup(words[..i], l) == []
    {
      var e := words[i];
      ghost var before := byLength;
      var length := |e.word|;
      if length !in byLength {
        byLength := byLength[length := []];
      }
      byLength := byLength[length := byLength[length] + [e]];
      forall l | l in byLength
        ensures byLength[l] == LengthGroup(words[..i + 1], l)
      {
        LengthGroupSnoc(words, i, l);
        if l != length {
          assert l in before && byLength[l] == before[l];
        }
      }
      forall l | l !in byLength
        ensures LengthGroup(words[..i + 1], l) == []
      {
        LengthGroupSnoc(words, i, l);
        assert l !in before;
      }
    }
    assert words[..|words|] == words;
  }

  lemma LengthGroupSnoc(words: seq<Entry>, i: nat, l: nat)
    requires i < |words|
    ensures LengthGroup(words[..i + 1], l) == LengthGroup(words[..i], l) + (if |words[i].word| == l then [words[i]] else [])
  {
    assert words[..i + 1][..i] == words[..i];
  }

  /**
   * `findMinimalPairsFromDictionary`: the passing pairs of every length
   * group, shortest words first, pushed after `pairs`.
   */
  method FindMinimalPairsFromDictionary(dict: seq<Entry>, pairs: seq<MinimalPair>) returns (r: seq<MinimalPair>)
    ensures r == pairs + DerivedPairs(dict)
  {
    var wordsWithPhonetics := Transcribed(dict);
    var byLength := GroupByLength(wordsWithPhonetics);
    r := PushAllLengths(wordsWithPhonetics, byLength, pairs);
  }

  /** The `for (const length in wordsByLength)` loop, visiting the lengths in ascending order. */
  method PushAllLengths(words: seq<Entry>, byLength: map<nat, seq<Entry>>, pairs: seq<MinimalPair>)
      returns (r: seq<MinimalPair>)
    requires forall l :: l in byLength ==> byLength[l] == LengthGroup(words, l)
    requires forall l :: l !in byLength ==> LengthGroup(words, l) == []
    ensures r == pairs + PairsOf(words)
  {
    var bound := LengthBound(words);
    r := pairs;
    for length := 0 to bound
      invariant r == pairs + PairsBelow(words, length)
    {
      r := PushLength(words, byLength, length, pairs, r);
    }
  }

  /** One turn of the `for (const length in wordsByLength)` loop: the pairs of one length, if any word has it. */
  method PushLength(words: seq<Entry>, byLength: map<nat, seq<Entry>>, length: nat, ghost base: seq<MinimalPair>,
                    pairs: seq<MinimalPair>) returns (r: seq<MinimalPair>)
    requires forall l :: l in byLength ==> byLength[l] == LengthGroup(words, l)
    requires forall l :: l !in byLength ==> LengthGroup(words, l) == []
    requires pairs == base + PairsBelow(words, length)
    ensures r == base + PairsBelow(words, length + 1)
  {
    PairsBelowStep(words, length);
    var g := LengthGroup(words, length);
    AppendAssoc(base, PairsBelow(words, length), Rows(g, |g|));
    if length in byLength {
      r := PushGroupPairs(byLength[length], pairs);
    } else {
      r := pairs;
    }
  }

  lemma PairsBelowStep(words: seq<Entry>, length: nat)
    ensures var g := LengthGroup(words, length); PairsBelow(words, length + 1) == PairsBelow(words, length) + Rows(g, |g|)
  {
  }

  // ---- answering ----

  /** `selectedText.toLowerCase() === correctText.toLowerCase()`. */
  predicate Matches(selected: PairWord, correct: PairWord)
  {
    Lower(WordText(selected)) == Lower(WordText(correct))
  }

  /** Picking the word played is always right; when the two words differ case-insensitively, only that is. */
  lemma MatchesIffPlayed(p: MinimalPair, selected: PairWord, correct: PairWord)
    requires selected == First(p) || selected == Second(p)
    requires correct == First(p) || correct == Second(p)
    ensures selected == correct ==> Matches(selected, correct)
    ensures Lower(WordText(First(p))) != Lower(WordText(Second(p))) ==> (Matches(selected, correct) <==> selected == correct)
  {
  }

  /**
   * Two dictionary records whose words differ only in letter case (“Polish”
   * and “polish”) can form a pair; then either answer is scored correct.
   */
  lemma CaseOnlyPairAcceptsBoth(a: Entry, b: Entry, correct: PairWord)
    requires Lower(a.word) == Lower(b.word)
    requires correct == Record(a) || correct == Record(b)
    ensures Matches(Record(a), correct) && Matches(Record(b), correct)
  {
  }

  // ---- the game ----

  class MinimalPairsChallenge {
    var score: nat
    var round: nat
    var minimalPairs: seq<MinimalPair>
    var currentPair: Option<MinimalPair>
    var correctWord: Option<PairWord>
    var selectedWord: Option<PairWord>
    /** The option buttons, in display order. */
    var options: seq<PairWord>
    var playDisabled: bool
    var checkDisabled: bool
    var nextDisabled: bool
    var gameOver: bool
    /** The current round has been checked: the corrected option handler then leaves the check button disabled. */
    var answered: bool

    ghost predicate Valid()
      reads this
    {
      round <= MaxRounds
      && (round == 0 <==> currentPair.None?) && (currentPair.None? <==> correctWord.None?)
      && (currentPair.Some? ==>
            (correctWord == Some(First(currentPair.value)) || correctWord == Some(Second(currentPair.value)))
            && (options == [First(currentPair.value), Second(currentPair.value)]
                || options == [Second(currentPair.value), First(currentPair.value)]))
      && (currentPair.None? ==> options == [])
      && (selectedWord.Some? ==> selectedWord.value in options)
    }

    /** Rounds whose score is settled: the finished ones, and the current one once checked. */
    function Checked(): nat
      reads this
    {
      if round == 0 then 0 else if answered then round else round - 1
    }

    /** A checked round cannot be checked again, and each settled round added at most one point. */
    ghost predicate Scored()
      reads this
    {
      (answered ==> checkDisabled) && score <= Checked()
    }

    /** `constructor`: the fixed pairs followed by the pairs found in `dict`. */
    constructor (dict: seq<Entry>)
      ensures Valid() && Scored()
      ensures minimalPairs == PredefinedPairs + DerivedPairs(dict)
      ensures score == 0 && round == 0 && currentPair.None? && selectedWord.None?
      ensures checkDisabled && nextDisabled && !gameOver
    {
      var pairs := FindMinimalPairsFromDictionary(dict, PredefinedPairs);
      minimalPairs := pairs;
      score, round := 0, 0;
      currentPair, correctWord, selectedWord := None, None, None;
      options := [];
      playDisabled, checkDisabled, nextDisabled, gameOver, answered := false, true, true, false, false;
    }

    /** The click handler of option button `k`, as written: it enables Check, even after the round was checked. */
    method SelectAsWritten(k: nat)
      requires Valid() && !gameOver && k < |options|
      modifies this`selectedWord, this`checkDisabled
      ensures Valid()
      ensures selectedWord == Some(options[k]) && !checkDisabled
    {
      selectedWord := Some(options[k]);
      checkDisabled := false;
    }

    /** The click handler of option button `k`, corrected: Check is enabled only while the round is unchecked. */
    method Select(k: nat)
      requires Valid() && !gameOver && k < |options|
      modifies this`selectedWord, this`checkDisabled
      ensures Valid()
      ensures Scored() == old(Scored())
      ensures selectedWord == Some(options[k])
      ensures checkDisabled == (old(checkDisabled) && answered)
    {
      selectedWord := Some(options[k]);
      if !answered {
        checkDisabled := false;
      }
    }

    /** `checkAnswer`: without a selection, only the error is shown. */
    method CheckAnswer() returns (noSelection: bool, isCorrect: bool)
      requires Valid() && !checkDisabled
      modifies this`score, this`checkDisabled, this`nextDisabled, this`playDisabled, this`answered
      ensures Valid()
      ensures old(Scored()) ==> Scored()
      ensures noSelection <==> selectedWord.None?
      ensures noSelection ==> score == old(score) && checkDisabled == old(checkDisabled)
                              && nextDisabled == old(nextDisabled) && playDisabled == old(playDisabled)
                              && answered == old(answered)
      ensures !noSelection ==> (isCorrect <==> Matches(selectedWord.value, correctWord.value))
      ensures !noSelection ==> score == old(score) + (if isCorrect then 1 else 0)
      ensures !noSelection ==> checkDisabled && !nextDisabled && playDisabled && answered
    {
      if selectedWord.None? {
        noSelection, isCorrect := true, false;
        return;
      }
      noSelection := false;
      var selectedText := WordText(selectedWord.value);
      var correctText := WordText(correctWord.value);
      isCorrect := Lower(selectedText) == Lower(correctText);
      if isCorrect {
        score := score + 1;
      }
      checkDisabled, nextDisabled, playDisabled := true, false, true;
      answered := true;
    }

    /** `endGame`: the score out of the ten rounds; at most 100% while every round was checked once. */
    method EndGame() returns (percentage: int)
      requires Valid()
      modifies this`gameOver
      ensures gameOver
      ensures percentage == RoundedPercent(score, MaxRounds)
      ensures Scored() ==> 0 <= percentage <= 100
    {
      gameOver := true;
      percentage := RoundedPercent(score, MaxRounds);
      if Scored() {
        PercentAtMostHundred(score, MaxRounds);
      }
    }

    /**
     * `nextRound` and `getRandomPair`: pair `pairDraw`, the first word played
     * when `playFirst`, shown first when `firstOnTop`.
     */
    method NextRound(pairDraw: nat, playFirst: bool, firstOnTop: bool) returns (final: Option<int>)
      requires Valid() && pairDraw < |minimalPairs|
      modifies this
      ensures Valid() && minimalPairs == old(minimalPairs)
      ensures old(Scored()) ==> Scored()
      ensures old(round) >= MaxRounds ==> gameOver && final == Some(RoundedPercent(score, MaxRounds))
      ensures old(round) >= MaxRounds ==> round == old(round) && score == old(score)
      ensures old(round) >= MaxRounds ==>
        currentPair == old(currentPair) && correctWord == old(correctWord) && selectedWord == old(selectedWord)
        && options == old(options) && answered == old(answered)
        && playDisabled == old(playDisabled) && checkDisabled == old(checkDisabled) && nextDisabled == old(nextDisabled)
      ensures old(round) < MaxRounds ==> final.None? && round == old(round) + 1 && score == old(score) && gameOver == old(gameOver)
      ensures old(round) < MaxRounds ==>
                currentPair == Some(minimalPairs[pairDraw])
                && correctWord == Some(if playFirst then First(minimalPairs[pairDraw]) else Second(minimalPairs[pairDraw]))
                && options == (if firstOnTop then [First(minimalPairs[pairDraw]), Second(minimalPairs[pairDraw])]
                               else [Second(minimalPairs[pairDraw]), First(minimalPairs[pairDraw])])
                && selectedWord.None? && !playDisabled && checkDisabled && nextDisabled && !answered
    {
      if round >= MaxRounds {
        var percentage := EndGame();
        final := Some(percentage);
        return;
      }
      final := None;
      BeginRound(pairDraw, playFirst, firstOnTop);
    }

    method BeginRound(pairDraw: nat, playFirst: bool, firstOnTop: bool)
      requires Valid() && round < MaxRounds && pairDraw < |minimalPairs|
      modifies this`round, this`selectedWord, this`currentPair, this`correctWord, this`options,
               this`playDisabled, this`checkDisabled, this`nextDisabled, this`answered
      ensures Valid()
      ensures old(Scored()) ==> Scored()
      ensures round == old(round) + 1
      ensures currentPair == Some(minimalPairs[pairDraw])
      ensures correctWord == Some(if playFirst then First(minimalPairs[pairDraw]) else Second(minimalPairs[pairDraw]))
      ensures options == (if firstOnTop then [First(minimalPairs[pairDraw]), Second(minimalPairs[pairDraw])]
                          else [Second(minimalPairs[pairDraw]), First(minimalPairs[pairDraw])])
      ensures selectedWord.None? && !playDisabled && checkDisabled && nextDisabled && !answered
    {
      round := round + 1;
      selectedWord := None;
      var pair := minimalPairs[pairDraw];
      currentPair := Some(pair);
      correctWord := Some(if playFirst then First(pair) else Second(pair));
      options := if firstOnTop then [First(pair), Second(pair)] else [Second(pair), First(pair)];
      playDisabled, checkDisabled, nextDisabled, answered := false, true, true, false;
    }

    /** `startGame`, also behind the Play Again button. */
    method StartGame(pairDraw: nat, playFirst: bool, firstOnTop: bool)
      requires Valid() && pairDraw < |minimalPairs|
      modifies this
      ensures Valid() && Scored() && minimalPairs == old(minimalPairs)
      ensures score == 0 && round == 1 && !gameOver
      ensures currentPair == Some(minimalPairs[pairDraw])
      ensures correctWord == Some(if playFirst then First(minimalPairs[pairDraw]) else Second(minimalPairs[pairDraw]))
      ensures options == (if firstOnTop then [First(minimalPairs[pairDraw]), Second(minimalPairs[pairDraw])]
                          else [Second(minimalPairs[pairDraw]), First(minimalPairs[pairDraw])])
      ensures selectedWord.None? && !playDisabled && checkDisabled && nextDisabled && !answered
    {
      score, round, gameOver := 0, 0, false;
      currentPair, correctWord, selectedWord, options := None, None, None, [];
      var _ := NextRound(pairDraw, playFirst, firstOnTop);
    }
  }

  /**
   * As written, a checked round can be answered again: select the played
   * word, check, click it once more and check again. The score is then 2
   * after one round, and ten such rounds show 200% at the end.
   */
  method ReanswerScoresTwice() returns (score: nat, round: nat)
    ensures score == 2 && round == 1
    ensures RoundedPercent(MaxRounds * score, MaxRounds) == 200
  {
    NoDerivedPairsFromNothing();
    var game := new MinimalPairsChallenge([]);
    assert game.minimalPairs[0] == Predefined("ship", "sheep", "\U{2026}\U{2122}", "i\U{00C0}\U{00EA}");
    var _ := game.NextRound(0, true, true);
    var ship := First(game.minimalPairs[0]);
    assert game.options[0] == ship && game.correctWord == Some(ship) && game.score == 0;
    game.SelectAsWritten(0);
    var _, first := game.CheckAnswer();
    assert first && game.score == 1;
    game.SelectAsWritten(0);
    var _, second := game.CheckAnswer();
    assert second && game.score == 2;
    score, round := game.score, game.round;
    PercentOfTen(20);
  }
}
