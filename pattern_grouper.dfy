// Grouping the words of one bucket by position signature, in a JavaScript
// object keyed by the signature: a single-offset signature such as "3" is an
// array index and is enumerated before keys such as "0,4".
module PatternGrouper {
  import opened Wrappers
  import opened Collections
  import opened JsObject
  import opened PositionClassifier

  type Groups = Object<seq<Tagged>>

  function Key(t: Tagged): string
  {
    t.loc.positionPattern
  }

  /** The words with signature `k`, in input order. */
  function WithKey(words: seq<Tagged>, k: string): seq<Tagged>
  {
    if words == [] then []
    else WithKey(words[..|words| - 1], k) + (if Key(words[|words| - 1]) == k then [words[|words| - 1]] else [])
  }

  /** One step of the grouping loop: append the word to its signature's group. */
  function AddWord(g: Groups, w: Tagged): Groups
  {
    Put(g, Key(w), Get(g, Key(w)).GetOr([]) + [w])
  }

  /** The object `groupWordsByPositionPattern` builds. */
  function Grouped(words: seq<Tagged>): Groups
  {
    if words == [] then [] else AddWord(Grouped(words[..|words| - 1]), words[|words| - 1])
  }

  method GroupWordsByPositionPattern(words: seq<Tagged>) returns (g: Groups)
    ensures g == Grouped(words)
    ensures Ordered(g)
  {
    g := [];
    for i := 0 to |words|
      invariant g == Grouped(words[..i])
      invariant Ordered(g)
    {
      var w := words[i];
      assert words[..i + 1][..i] == words[..i];
      var key := w.loc.positionPattern;
      if Get(g, key).None? {
        PutOrdered(g, key, []);
        PutTwice(g, key, [], [w]);
        g := Put(g, key, []);
      }
      GetPut(Grouped(words[..i]), key, [], key);
      PutOrdered(g, key, Get(g, key).value + [w]);
      g := Put(g, key, Get(g, key).value + [w]);
    }
    assert words[..|words|] == words;
  }

  lemma PutTwice<V>(o: Object<V>, k: string, v: V, v': V)
    requires DistinctKeys(o)
    ensures Put(Put(o, k, v), k, v') == Put(o, k, v')
  {
    if Find(o, k) < 0 {
      var p := NewKeyPosition(o, k);
      var once := InsertAt(o, p, Property(k, v));
      var want := InsertAt(o, p, Property(k, v'));
      assert Put(o, k, v) == once;
      PutDistinct(o, k, v);
      assert once[p].key == k;
      assert Find(once, k) == p;
      assert Put(once, k, v') == once[p := Property(k, v')];
      forall j | 0 <= j < |want|
        ensures once[p := Property(k, v')][j] == want[j]
      {
        if j < p {
          assert once[j] == o[j];
        } else if j > p {
          assert once[j] == o[j - 1];
        }
      }
      assert once[p := Property(k, v')] == want;
    }
  }

  // ---- what the groups hold ----

  lemma {:induction false} GroupedOrdered(words: seq<Tagged>)
    ensures Ordered(Grouped(words))
  {
    if words != [] {
      var w := words[|words| - 1];
      GroupedOrdered(words[..|words| - 1]);
      PutOrdered(Grouped(words[..|words| - 1]), Key(w), Get(Grouped(words[..|words| - 1]), Key(w)).GetOr([]) + [w]);
    }
  }

  /** The group of signature `k` is exactly the words with that signature, in input order; absent when there are none. */
  lemma {:induction false} GroupedGet(words: seq<Tagged>, k: string)
    ensures Get(Grouped(words), k) == if WithKey(words, k) == [] then None else Some(WithKey(words, k))
  {
    if words != [] {
      var init := words[..|words| - 1];
      var w := words[|words| - 1];
      GroupedGet(init, k);
      GroupedOrdered(init);
      var before := Get(Grouped(init), Key(w)).GetOr([]);
      assert Grouped(words) == Put(Grouped(init), Key(w), before + [w]);
      assert WithKey(words, k) == WithKey(init, k) + (if Key(w) == k then [w] else []);
      GetPut(Grouped(init), Key(w), before + [w], k);
      if Key(w) == k {
        assert before == WithKey(init, k);
        assert Get(Grouped(words), k) == Some(WithKey(init, k) + [w]);
      } else {
        assert Get(Grouped(words), k) == Get(Grouped(init), k);
        assert WithKey(words, k) == WithKey(init, k);
      }
    }
  }

  lemma {:induction false} WithKeyKeyed(words: seq<Tagged>, k: string)
    ensures forall x :: x in WithKey(words, k) ==> Key(x) == k
  {
    if words != [] {
      WithKeyKeyed(words[..|words| - 1], k);
    }
  }

  /** Every word of a group carries the group's signature. */
  predicate Keyed(g: Groups)
  {
    forall i, j :: 0 <= i < |g| && 0 <= j < |g[i].value| ==> Key(g[i].value[j]) == g[i].key
  }

  lemma {:induction false} GroupedKeyed(words: seq<Tagged>)
    ensures Keyed(Grouped(words))
    ensures forall i :: 0 <= i < |Grouped(words)| ==> Grouped(words)[i].value != []
  {
    var g := Grouped(words);
    GroupedOrdered(words);
    forall i | 0 <= i < |g|
      ensures g[i].value != [] && forall j :: 0 <= j < |g[i].value| ==> Key(g[i].value[j]) == g[i].key
    {
      GetAt(g, i);
      GroupedGet(words, g[i].key);
      WithKeyKeyed(words, g[i].key);
      assert forall j :: 0 <= j < |g[i].value| ==> g[i].value[j] in WithKey(words, g[i].key);
    }
  }

  /** Flattening the groups gives back every word exactly once. */
  lemma {:induction false} GroupedMultiset(words: seq<Tagged>)
    ensures multiset(Flatten(Values(Grouped(words)))) == multiset(words)
  {
    if words != [] {
      var init := words[..|words| - 1];
      var w := words[|words| - 1];
      assert words == init + [w];
      GroupedMultiset(init);
      var before := Get(Grouped(init), Key(w)).GetOr([]);
      assert Grouped(words) == Put(Grouped(init), Key(w), before + [w]);
      PutValues(Grouped(init), Key(w), before + [w]);
      var now := multiset(Flatten(Values(Grouped(words))));
      assert now + multiset(before) == multiset(init) + (multiset(before) + multiset{w});
      MultisetCancel(now, multiset(before), multiset(init) + multiset{w});
    }
  }
}
