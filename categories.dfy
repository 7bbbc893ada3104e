// Categories a pool of n cards is sorted into: one list per category, each
// entry the index of a card in the pool (the card's identity). Shared by both
// sorting games.
module Categories {
  import opened Collections

  /** Every card but one. */
  function OtherCard(i: nat): nat -> bool
  {
    (j: nat) => j != i
  }

  /** Each category filtered. */
  function Removed(lists: seq<seq<nat>>, keep: nat -> bool): (r: seq<seq<nat>>)
    ensures |r| == |lists| && forall k :: 0 <= k < |lists| ==> r[k] == Filter(lists[k], keep)
  {
    seq(|lists|, k requires 0 <= k < |lists| => Filter(lists[k], keep))
  }

  /** `sortedWords[sound].push(card)`. */
  function Placed(lists: seq<seq<nat>>, category: nat, i: nat): seq<seq<nat>>
    requires category < |lists|
  {
    lists[category := lists[category] + [i]]
  }

  /** Every sorted entry is one of the n cards of the pool, and no card is sorted twice. */
  ghost predicate WellSorted(n: nat, lists: seq<seq<nat>>)
  {
    Distinct(Flatten(lists)) && forall x: nat :: x in Flatten(lists) ==> x < n
  }

  /** The categories around one of them, flattened. */
  lemma Around(lists: seq<seq<nat>>, k: nat, part: seq<nat>)
    requires k < |lists|
    ensures Flatten(lists) == Flatten(lists[..k]) + lists[k] + Flatten(lists[k + 1..])
    ensures Flatten(lists[k := part]) == Flatten(lists[..k]) + part + Flatten(lists[k + 1..])
  {
    assert lists == lists[..k] + [lists[k]] + lists[k + 1..];
    assert lists[k := part] == lists[..k] + [part] + lists[k + 1..];
    FlattenAppend(lists[..k] + [lists[k]], lists[k + 1..]);
    FlattenAppend(lists[..k], [lists[k]]);
    FlattenAppend(lists[..k] + [part], lists[k + 1..]);
    FlattenAppend(lists[..k], [part]);
    assert Flatten([lists[k]]) == lists[k] + Flatten([]);
    assert Flatten([part]) == part + Flatten([]);
  }

  /**
   * Replacing one category by a list without repeats whose entries are new
   * or were in that category keeps the lists well sorted; the sorted entries
   * are then the new category's and the other categories'.
   */
  lemma ReplaceCategory(n: nat, lists: seq<seq<nat>>, k: nat, part: seq<nat>)
    requires WellSorted(n, lists) && k < |lists|
    requires Distinct(part) && forall x: nat :: x in part ==> x < n && (x in lists[k] || x !in Flatten(lists))
    ensures WellSorted(n, lists[k := part])
    ensures forall x: nat :: x in Flatten(lists[k := part]) <==> x in part || (x in Flatten(lists) && x !in lists[k])
  {
    Around(lists, k, part);
    var before, after := Flatten(lists[..k]), Flatten(lists[k + 1..]);
    DistinctConcat(before + lists[k], after);
    DistinctConcat(before, lists[k]);
    assert forall x: nat :: x in part ==> x !in before && x !in after by {
      forall x: nat | x in part ensures x !in before && x !in after {
        if x in lists[k] {
          assert x in before + lists[k];
        }
      }
    }
    DistinctConcat(before, part);
    DistinctConcat(before + part, after);
    forall x: nat | x in Flatten(lists[k := part])
      ensures x < n && (x in part || (x in Flatten(lists) && x !in lists[k]))
    {
      if x !in part {
        assert x in before || x in after;
        assert x in Flatten(lists);
        assert x !in lists[k];
      }
    }
  }

  /** Flattening commutes with filtering every category. */
  lemma {:induction false} FlattenRemoved(lists: seq<seq<nat>>, keep: nat -> bool)
    ensures Flatten(Removed(lists, keep)) == Filter(Flatten(lists), keep)
  {
    if lists != [] {
      var r := Removed(lists, keep);
      assert r[1..] == Removed(lists[1..], keep);
      FlattenRemoved(lists[1..], keep);
      FilterAppend(lists[0], Flatten(lists[1..]), keep);
    }
  }

  /** Filtering every category keeps the lists well sorted and drops exactly the entries filtered out. */
  lemma RemovedKeepsSorted(n: nat, lists: seq<seq<nat>>, keep: nat -> bool)
    requires WellSorted(n, lists)
    ensures WellSorted(n, Removed(lists, keep))
    ensures forall x: nat :: x in Flatten(Removed(lists, keep)) <==> x in Flatten(lists) && keep(x)
  {
    FlattenRemoved(lists, keep);
    FilterDistinct(Flatten(lists), keep);
  }

  /** Appending a card sorted nowhere keeps the lists well sorted and adds exactly that card. */
  lemma PlacedKeepsSorted(n: nat, lists: seq<seq<nat>>, category: nat, i: nat)
    requires WellSorted(n, lists) && category < |lists| && i < n && i !in Flatten(lists)
    ensures WellSorted(n, Placed(lists, category, i))
    ensures forall x: nat :: x in Flatten(Placed(lists, category, i)) <==> x in Flatten(lists) || x == i
  {
    Around(lists, category, lists[category] + [i]);
    var before, after := Flatten(lists[..category]), Flatten(lists[category + 1..]);
    DistinctConcat(before + lists[category], after);
    DistinctConcat(before, lists[category]);
    DistinctSnoc(lists[category], i);
    forall x: nat | x in lists[category] ensures x in Flatten(lists) {
      FlattenMembers(lists, x);
    }
    ReplaceCategory(n, lists, category, lists[category] + [i]);
  }

  /** Moving one card: it is sorted afterwards, into the target category, and no other card moves. */
  lemma MoveCardKeepsSorted(n: nat, lists: seq<seq<nat>>, i: nat, category: nat)
    requires WellSorted(n, lists) && category < |lists| && i < n
    ensures var moved := Placed(Removed(lists, OtherCard(i)), category, i);
      WellSorted(n, moved)
      && (forall x: nat :: x in Flatten(moved) <==> x in Flatten(lists) || x == i)
      && moved[category][|moved[category]| - 1] == i
      && (forall k, x: nat :: 0 <= k < |lists| && x in lists[k] && x != i ==> x in moved[k])
  {
    var removed := Removed(lists, OtherCard(i));
    RemovedKeepsSorted(n, lists, OtherCard(i));
    PlacedKeepsSorted(n, removed, category, i);
    var moved := Placed(removed, category, i);
    forall k, x: nat | 0 <= k < |lists| && x in lists[k] && x != i
      ensures x in moved[k]
    {
      assert x in removed[k];
    }
  }

  /** One empty category for each of k sounds. */
  function NoneSorted(k: nat): (r: seq<seq<nat>>)
    ensures |r| == k
  {
    seq(k, _ => [])
  }

  /** No sorted entries: the categories a round starts from. */
  lemma {:induction false} EmptyCategories(n: nat, k: nat)
    ensures Flatten(NoneSorted(k)) == []
    ensures WellSorted(n, NoneSorted(k))
  {
    if k > 0 {
      assert NoneSorted(k)[1..] == NoneSorted(k - 1);
      EmptyCategories(n, k - 1);
    }
  }

  /**
   * However the cards are sorted, no more entries are sorted than there are
   * cards, and exactly as many once every card has been put somewhere.
   */
  lemma PlacedCount(n: nat, lists: seq<seq<nat>>)
    requires WellSorted(n, lists)
    ensures |Flatten(lists)| <= n
    ensures |Flatten(lists)| == n <==> forall i :: 0 <= i < n ==> i in Flatten(lists)
  {
    var flat := Flatten(lists);
    DistinctElements(flat);
    assert Elements(flat) <= Below(n) by {
      forall x: nat | x in Elements(flat) ensures x in Below(n) {
        assert x in flat;
      }
    }
    SubsetCardinality(Elements(flat), Below(n));
    if |flat| == n {
      SubsetSameSize(Elements(flat), Below(n));
      forall i | 0 <= i < n ensures i in flat {
        assert i in Below(n);
      }
    }
    if forall i :: 0 <= i < n ==> i in flat {
      assert Elements(flat) == Below(n) by {
        forall x: nat | x in Below(n) ensures x in Elements(flat) {
          assert x in flat;
        }
      }
    }
  }
}
