// A plain JavaScript object used as a dictionary, as an ordered list of
// properties. `for…in`, `Object.keys` and `Object.values` enumerate the
// canonical array-index keys ("0", "7", "42", below 2^32 - 1) first in
// ascending numeric order and every other key after them in insertion order;
// assigning to an existing key keeps its place, `delete` removes it.
module JsObject {
  import opened Text
  import opened Wrappers
  import opened Collections

  datatype Property<V> = Property(key: string, value: V)

  type Object<V> = seq<Property<V>>

  /** A canonical numeral below 2^32 - 1. */
  predicate IsArrayIndex(k: string)
  {
    |k| >= 1 && (forall i :: 0 <= i < |k| ==> IsDigit(k[i])) && (k[0] != '0' || |k| == 1)
    && ParseDecimal(k) < 0xFFFF_FFFF
  }

  function IndexValue(k: string): nat
    requires IsArrayIndex(k)
  {
    ParseDecimal(k)
  }

  predicate DistinctKeys<V>(o: Object<V>)
  {
    forall i, j :: 0 <= i < j < |o| ==> o[i].key != o[j].key
  }

  /** The enumeration order of the properties of a JavaScript object. */
  predicate Ordered<V>(o: Object<V>)
  {
    DistinctKeys(o)
    && forall i, j :: 0 <= i < j < |o| && IsArrayIndex(o[j].key) ==>
         IsArrayIndex(o[i].key) && IndexValue(o[i].key) <= IndexValue(o[j].key)
  }

  function Keys<V>(o: Object<V>): (r: seq<string>)
    ensures |r| == |o| && forall i :: 0 <= i < |o| ==> r[i] == o[i].key
  {
    seq(|o|, i requires 0 <= i < |o| => o[i].key)
  }

  /** `Object.values(o)`. */
  function Values<V>(o: Object<V>): (r: seq<V>)
    ensures |r| == |o| && forall i :: 0 <= i < |o| ==> r[i] == o[i].value
  {
    seq(|o|, i requires 0 <= i < |o| => o[i].value)
  }

  /** Position of key `k`, or -1. */
  function Find<V>(o: Object<V>, k: string): (r: int)
    ensures -1 <= r < |o|
    ensures r >= 0 ==> o[r].key == k
    ensures r == -1 <==> forall i :: 0 <= i < |o| ==> o[i].key != k
  {
    if o == [] then -1
    else if o[|o| - 1].key == k then |o| - 1
    else Find(o[..|o| - 1], k)
  }

  /** `o[k]`, absent keys being `undefined`. */
  function Get<V>(o: Object<V>, k: string): Option<V>
  {
    var i := Find(o, k);
    if i < 0 then None else Some(o[i].value)
  }

  /** Where a new array-index key goes: after every smaller array-index key. */
  function InsertionPoint<V>(o: Object<V>, k: string, from: nat): (p: nat)
    requires IsArrayIndex(k) && from <= |o|
    requires forall i :: 0 <= i < from ==> IsArrayIndex(o[i].key) && IndexValue(o[i].key) < IndexValue(k)
    ensures from <= p <= |o|
    ensures forall i :: 0 <= i < p ==> IsArrayIndex(o[i].key) && IndexValue(o[i].key) < IndexValue(k)
    ensures p < |o| ==> !(IsArrayIndex(o[p].key) && IndexValue(o[p].key) < IndexValue(k))
    decreases |o| - from
  {
    if from == |o| then from
    else if IsArrayIndex(o[from].key) && IndexValue(o[from].key) < IndexValue(k) then InsertionPoint(o, k, from + 1)
    else from
  }

  /** `o` with `e` inserted at position `p`. */
  function InsertAt<V>(o: Object<V>, p: nat, e: Property<V>): (r: Object<V>)
    requires p <= |o|
    ensures |r| == |o| + 1 && r[p] == e
    ensures forall j :: 0 <= j < p ==> r[j] == o[j]
    ensures forall j :: p < j < |r| ==> r[j] == o[j - 1]
  {
    o[..p] + [e] + o[p..]
  }

  /** `o` without position `i`. */
  function DeleteAt<V>(o: Object<V>, i: nat): (r: Object<V>)
    requires i < |o|
    ensures |r| == |o| - 1
    ensures forall j :: 0 <= j < i ==> r[j] == o[j]
    ensures forall j :: i <= j < |r| ==> r[j] == o[j + 1]
  {
    o[..i] + o[i + 1..]
  }

  /** Where a key not yet present is added. */
  function NewKeyPosition<V>(o: Object<V>, k: string): (p: nat)
    ensures p <= |o|
    ensures !IsArrayIndex(k) ==> p == |o|
    ensures IsArrayIndex(k) ==> forall i :: 0 <= i < p ==> IsArrayIndex(o[i].key) && IndexValue(o[i].key) < IndexValue(k)
    ensures IsArrayIndex(k) && p < |o| ==> !(IsArrayIndex(o[p].key) && IndexValue(o[p].key) < IndexValue(k))
  {
    if IsArrayIndex(k) then InsertionPoint(o, k, 0) else |o|
  }

  /** `o[k] = v`. */
  function Put<V>(o: Object<V>, k: string, v: V): (r: Object<V>)
  {
    var i := Find(o, k);
    if i >= 0 then o[i := Property(k, v)] else InsertAt(o, NewKeyPosition(o, k), Property(k, v))
  }

  /** `delete o[k]`. */
  function Remove<V>(o: Object<V>, k: string): (r: Object<V>)
  {
    var i := Find(o, k);
    if i < 0 then o else DeleteAt(o, i)
  }

  // ---- lookups ----

  lemma GetAt<V>(o: Object<V>, j: nat)
    requires DistinctKeys(o) && j < |o|
    ensures Get(o, o[j].key) == Some(o[j].value)
  {
  }

  lemma GetAbsent<V>(o: Object<V>, k: string)
    requires forall j :: 0 <= j < |o| ==> o[j].key != k
    ensures Get(o, k) == None
  {
  }

  lemma GetPut<V>(o: Object<V>, k: string, v: V, k': string)
    requires DistinctKeys(o)
    ensures Get(Put(o, k, v), k') == if k' == k then Some(v) else Get(o, k')
  {
    PutDistinct(o, k, v);
    if Find(o, k) >= 0 {
      GetPutExisting(o, k, v, k');
    } else {
      GetPutNew(o, k, v, k');
    }
  }

  lemma GetPutExisting<V>(o: Object<V>, k: string, v: V, k': string)
    requires DistinctKeys(o) && Find(o, k) >= 0 && DistinctKeys(Put(o, k, v))
    ensures Get(Put(o, k, v), k') == if k' == k then Some(v) else Get(o, k')
  {
    var r := Put(o, k, v);
    var i := Find(o, k);
    assert r == o[i := Property(k, v)];
    if k' == k {
      GetAt(r, i);
    } else if Find(o, k') >= 0 {
      GetAt(r, Find(o, k'));
    } else {
      GetAbsent(r, k');
    }
  }

  lemma GetPutNew<V>(o: Object<V>, k: string, v: V, k': string)
    requires DistinctKeys(o) && Find(o, k) < 0 && DistinctKeys(Put(o, k, v))
    ensures Get(Put(o, k, v), k') == if k' == k then Some(v) else Get(o, k')
  {
    var p := NewKeyPosition(o, k);
    var r := Put(o, k, v);
    assert r == InsertAt(o, p, Property(k, v));
    if k' == k {
      GetAt(r, p);
    } else if Find(o, k') >= 0 {
      var g := Find(o, k');
      var h := if g < p then g else g + 1;
      assert r[h] == o[g];
      GetAt(r, h);
      assert Get(o, k') == Some(o[g].value);
    } else {
      forall j | 0 <= j < |r|
        ensures r[j].key != k'
      {
        if j < p {
          assert r[j] == o[j];
        } else if j > p {
          assert r[j] == o[j - 1];
        }
      }
      GetAbsent(r, k');
      assert Get(o, k') == None;
    }
  }

  lemma GetRemove<V>(o: Object<V>, k: string, k': string)
    requires DistinctKeys(o)
    ensures Get(Remove(o, k), k') == if k' == k then None else Get(o, k')
  {
    var i := Find(o, k);
    var r := Remove(o, k);
    RemoveOrderedDistinct(o, k);
    if i >= 0 {
      if k' == k {
        GetAbsent(r, k');
      } else if Find(o, k') >= 0 {
        var g := Find(o, k');
        if g < i { GetAt(r, g); } else { GetAt(r, g - 1); }
      } else {
        GetAbsent(r, k');
      }
    }
  }

  // ---- the enumeration order is kept ----

  lemma PutDistinct<V>(o: Object<V>, k: string, v: V)
    requires DistinctKeys(o)
    ensures DistinctKeys(Put(o, k, v))
    ensures Find(o, k) >= 0 ==> Keys(Put(o, k, v)) == Keys(o)
  {
    var i := Find(o, k);
    if i >= 0 {
      assert Keys(Put(o, k, v)) == Keys(o);
    } else {
      var p := NewKeyPosition(o, k);
      var r := InsertAt(o, p, Property(k, v));
      forall a, b | 0 <= a < b < |r|
        ensures r[a].key != r[b].key
      {
        if b < p {
          assert r[a] == o[a] && r[b] == o[b];
        } else if b == p {
          assert r[a] == o[a];
        } else if a > p {
          assert r[a] == o[a - 1] && r[b] == o[b - 1];
        } else if a == p {
          assert r[b] == o[b - 1];
        } else {
          assert r[a] == o[a] && r[b] == o[b - 1];
        }
      }
    }
  }

  lemma PutOrdered<V>(o: Object<V>, k: string, v: V)
    requires Ordered(o)
    ensures Ordered(Put(o, k, v))
  {
    PutDistinct(o, k, v);
    if Find(o, k) < 0 {
      InsertOrdered(o, k, v);
    }
  }

  lemma InsertOrdered<V>(o: Object<V>, k: string, v: V)
    requires Ordered(o)
    ensures var r := InsertAt(o, NewKeyPosition(o, k), Property(k, v));
      forall a, b :: 0 <= a < b < |r| && IsArrayIndex(r[b].key) ==>
        IsArrayIndex(r[a].key) && IndexValue(r[a].key) <= IndexValue(r[b].key)
  {
    var p := NewKeyPosition(o, k);
    var r := InsertAt(o, p, Property(k, v));
    forall a, b | 0 <= a < b < |r| && IsArrayIndex(r[b].key)
      ensures IsArrayIndex(r[a].key) && IndexValue(r[a].key) <= IndexValue(r[b].key)
    {
      if b < p {
        assert r[a] == o[a] && r[b] == o[b];
      } else if b == p {
        assert r[a] == o[a];
      } else if a > p {
        assert r[a] == o[a - 1] && r[b] == o[b - 1];
      } else if a == p {
        assert r[b] == o[b - 1];
        assert IsArrayIndex(o[p].key) && IndexValue(o[p].key) <= IndexValue(o[b - 1].key);
      } else {
        assert r[a] == o[a] && r[b] == o[b - 1];
      }
    }
  }

  lemma RemoveOrderedDistinct<V>(o: Object<V>, k: string)
    requires DistinctKeys(o)
    ensures DistinctKeys(Remove(o, k))
  {
  }

  lemma RemoveOrdered<V>(o: Object<V>, k: string)
    requires Ordered(o)
    ensures Ordered(Remove(o, k))
  {
    var i := Find(o, k);
    if i >= 0 {
      var r := Remove(o, k);
      forall a, b | 0 <= a < b < |r| && IsArrayIndex(r[b].key)
        ensures IsArrayIndex(r[a].key) && IndexValue(r[a].key) <= IndexValue(r[b].key)
      {
        if b < i {
          assert r[a] == o[a] && r[b] == o[b];
        } else if a < i {
          assert r[a] == o[a] && r[b] == o[b + 1];
        } else {
          assert r[a] == o[a + 1] && r[b] == o[b + 1];
        }
      }
    }
  }

  // ---- Object.values(o).flat() ----

  lemma FlattenThree<T>(a: seq<seq<T>>, x: seq<T>, b: seq<seq<T>>)
    ensures Flatten(a + [x] + b) == Flatten(a) + x + Flatten(b)
    ensures Flatten(a + b) == Flatten(a) + Flatten(b)
  {
    FlattenAppend(a + [x], b);
    FlattenAppend(a, [x]);
    FlattenAppend(a, b);
    assert [x][1..] == [];
  }

  lemma FlattenUpdate<T>(vs: seq<seq<T>>, i: nat, v: seq<T>)
    requires i < |vs|
    ensures multiset(Flatten(vs[i := v])) + multiset(vs[i]) == multiset(Flatten(vs)) + multiset(v)
  {
    FlattenInsertBetween(vs[..i], vs[i], vs[i + 1..]);
    FlattenInsertBetween(vs[..i], v, vs[i + 1..]);
    SplitAround(vs, i);
    SplitAround(vs[i := v], i);
    assert vs[i := v][..i] == vs[..i] && vs[i := v][i + 1..] == vs[i + 1..];
  }

  lemma SplitAround<T>(s: seq<T>, i: nat)
    requires i < |s|
    ensures s[..i] + [s[i]] + s[i + 1..] == s
  {
  }

  lemma FlattenInsert<T>(vs: seq<seq<T>>, p: nat, v: seq<T>)
    requires p <= |vs|
    ensures multiset(Flatten(vs[..p] + [v] + vs[p..])) == multiset(Flatten(vs)) + multiset(v)
  {
    FlattenInsertBetween(vs[..p], v, vs[p..]);
    assert vs[..p] + vs[p..] == vs;
  }

  lemma FlattenInsertBetween<T>(a: seq<seq<T>>, v: seq<T>, b: seq<seq<T>>)
    ensures multiset(Flatten(a + [v] + b)) == multiset(Flatten(a + b)) + multiset(v)
  {
    FlattenThree(a, v, b);
    var fa, fb := Flatten(a), Flatten(b);
    assert multiset(fa + v + fb) == multiset(fa) + multiset(v) + multiset(fb);
    assert multiset(fa + fb) == multiset(fa) + multiset(fb);
  }

  lemma FlattenDelete<T>(vs: seq<seq<T>>, i: nat)
    requires i < |vs|
    ensures multiset(Flatten(vs[..i] + vs[i + 1..])) + multiset(vs[i]) == multiset(Flatten(vs))
  {
    FlattenInsertBetween(vs[..i], vs[i], vs[i + 1..]);
    SplitAround(vs, i);
  }

  /** Assigning a group replaces its words in the flattened values. */
  lemma PutValues<T>(o: Object<seq<T>>, k: string, v: seq<T>)
    ensures multiset(Flatten(Values(Put(o, k, v)))) + multiset(Get(o, k).GetOr([]))
         == multiset(Flatten(Values(o))) + multiset(v)
  {
    var i := Find(o, k);
    if i >= 0 {
      assert Values(Put(o, k, v)) == Values(o)[i := v];
      FlattenUpdate(Values(o), i, v);
    } else {
      var p := NewKeyPosition(o, k);
      assert Values(Put(o, k, v)) == Values(o)[..p] + [v] + Values(o)[p..];
      FlattenInsert(Values(o), p, v);
    }
  }

  /** Deleting a group removes its words from the flattened values. */
  lemma RemoveValues<T>(o: Object<seq<T>>, k: string)
    ensures multiset(Flatten(Values(Remove(o, k)))) + multiset(Get(o, k).GetOr([]))
         == multiset(Flatten(Values(o)))
  {
    var i := Find(o, k);
    if i >= 0 {
      assert Values(Remove(o, k)) == Values(o)[..i] + Values(o)[i + 1..];
      FlattenDelete(Values(o), i);
    }
  }

  /** Array-index keys come out ascending, ahead of a key such as "0,4". */
  lemma {:induction false} IndexKeysFirst()
    ensures Keys(Put(Put(Put([], "0,4", 1), "7", 2), "3", 3)) == ["3", "7", "0,4"]
  {
    assert !IsArrayIndex("0,4") by { assert !IsDigit("0,4"[1]); }
    assert IsArrayIndex("7") && IndexValue("7") == 7;
    assert IsArrayIndex("3") && IndexValue("3") == 3;
    var o1: Object<int> := [Property("0,4", 1)];
    assert Put([], "0,4", 1) == o1;
    assert InsertionPoint(o1, "7", 0) == 0;
    var o2 := [Property("7", 2), Property("0,4", 1)];
    assert Put(o1, "7", 2) == o2;
    assert Find(o2, "3") == -1;
    assert InsertionPoint(o2, "3", 0) == 0;
  }
}
