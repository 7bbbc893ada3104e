// Pagination of the result lists: ten items a page, a page counter that the
// Previous and Next buttons move, and the twin counter of the sound
// comparison view, whose two containers (first sound, second sound) show the
// two halves of a list of pairs side by side. The same code appears a second
// time in script.js.
module Pagination {
  import opened Wrappers
  import opened Collections

  const ItemsPerPage := 10

  /** `Math.ceil(n / itemsPerPage)`: the fewest pages of ten that hold n items. */
  function TotalPages(n: nat): (t: nat)
    ensures t * ItemsPerPage >= n
    ensures t > 0 ==> (t - 1) * ItemsPerPage < n
    ensures t == 0 <==> n == 0
  {
    (n + ItemsPerPage - 1) / ItemsPerPage
  }

  /** `s.slice(start, end)` for non-negative bounds: both are clamped to the length. */
  function Slice<T>(s: seq<T>, start: nat, end: nat): (r: seq<T>)
    ensures |r| <= |s| && (end <= start ==> r == [])
    ensures forall k :: 0 <= k < |r| ==> start + k < end && start + k < |s| && r[k] == s[start + k]
  {
    var e := if end <= |s| then end else |s|;
    if start >= e then [] else s[start..e]
  }

  /** `displayResultsPage`: items `(page-1)*10` up to `min(start+10, n)`. */
  function PageSlice<T>(page: nat, all: seq<T>): (r: seq<T>)
    requires page >= 1
    ensures |r| <= ItemsPerPage
    ensures forall k :: 0 <= k < |r| ==>
      (page - 1) * ItemsPerPage + k < |all| && r[k] == all[(page - 1) * ItemsPerPage + k]
    ensures |r| == ItemsPerPage || (page - 1) * ItemsPerPage + |r| >= |all|
  {
    var start := (page - 1) * ItemsPerPage;
    Slice(all, start, if start + ItemsPerPage <= |all| then start + ItemsPerPage else |all|)
  }

  /** `updateSoundComparisonPage`: items `(page-1)*10` up to `start+10`, left to the slice's clamping. */
  function ComparisonPage<T>(page: nat, all: seq<T>): (r: seq<T>)
    requires page >= 1
    ensures |r| <= ItemsPerPage
  {
    Slice(all, (page - 1) * ItemsPerPage, (page - 1) * ItemsPerPage + ItemsPerPage)
  }

  /** The two ways of cutting a page out agree. */
  lemma SameWindow<T>(page: nat, all: seq<T>)
    requires page >= 1
    ensures ComparisonPage(page, all) == PageSlice(page, all)
  {
  }

  /** A page holds at most ten items, the ones from its first index on, in order. */
  lemma PageContents<T>(page: nat, all: seq<T>)
    requires page >= 1
    ensures var r := PageSlice(page, all);
      var start := (page - 1) * ItemsPerPage;
      |r| <= ItemsPerPage
      && (start < |all| ==> |r| == (if |all| - start <= ItemsPerPage then |all| - start else ItemsPerPage))
      && (start >= |all| ==> r == [])
      && forall k :: 0 <= k < |r| ==> start + k < |all| && r[k] == all[start + k]
  {
  }

  /** Pages 1 to TotalPages are non-empty; the pages after them are empty. */
  lemma PageEmptyIffBeyondLast<T>(page: nat, all: seq<T>)
    requires page >= 1
    ensures PageSlice(page, all) == [] <==> page > TotalPages(|all|)
  {
  }

  /** Item i is on page i/10 + 1, at place i%10, and that page is one of those counted. */
  lemma PageOfIndex<T>(all: seq<T>, i: nat)
    requires i < |all|
    ensures 1 <= i / ItemsPerPage + 1 <= TotalPages(|all|)
    ensures var r := PageSlice(i / ItemsPerPage + 1, all);
      i % ItemsPerPage < |r| && r[i % ItemsPerPage] == all[i]
  {
  }

  /** Pages 1 to TotalPages in order. */
  function Pages<T>(all: seq<T>): (r: seq<seq<T>>)
    ensures |r| == TotalPages(|all|)
    ensures forall p :: 0 <= p < |r| ==> r[p] != [] && |r[p]| <= ItemsPerPage
  {
    seq(TotalPages(|all|), p requires 0 <= p => PageSlice(p + 1, all))
  }

  /** Dropping the first ten items moves every later page one number back. */
  lemma PageShift<T>(page: nat, all: seq<T>)
    requires page >= 1 && |all| > ItemsPerPage
    ensures PageSlice(page + 1, all) == PageSlice(page, all[ItemsPerPage..])
  {
    var rest := all[ItemsPerPage..];
    var start := (page - 1) * ItemsPerPage;
    var end := if start + ItemsPerPage <= |rest| then start + ItemsPerPage else |rest|;
    if start < end {
      assert rest[start..end] == all[start + ItemsPerPage..end + ItemsPerPage];
    }
  }

  /**
   * The pages, read one after the other, are the whole list: together they
   * cover every item and no item is on two pages.
   */
  lemma {:induction false} PagesPartition<T>(all: seq<T>)
    ensures Flatten(Pages(all)) == all
    decreases |all|
  {
    var ps := Pages(all);
    if |all| <= ItemsPerPage {
      if all != [] {
        assert |ps| == 1;
        assert ps[0] == all[0..|all|] == all;
        assert ps == [all];
        assert Flatten(ps[1..]) == [];
      }
    } else {
      var rest := all[ItemsPerPage..];
      PagesPartition(rest);
      assert TotalPages(|all|) == TotalPages(|rest|) + 1;
      forall p | 0 <= p < |Pages(rest)|
        ensures ps[1..][p] == Pages(rest)[p]
      {
        PageShift(p + 1, all);
      }
      assert ps[1..] == Pages(rest);
      assert ps[0] == all[..ItemsPerPage];
      assert all == all[..ItemsPerPage] + rest;
    }
  }

  /**
   * The comparison view adds its controls when the first list is longer
   * than a page and counts pages by the longer list. The lists are the two
   * halves of the pairs, so they are equally long, and the test fires
   * exactly when there is more than one page.
   */
  lemma ControlsIffSeveralPages(firstLength: nat, secondLength: nat)
    requires firstLength == secondLength
    ensures firstLength > ItemsPerPage <==> TotalPages(Longer(firstLength, secondLength)) > 1
  {
  }

  /** `Math.max` of two lengths. */
  function Longer(a: nat, b: nat): nat
  {
    if a >= b then a else b
  }

  // ---- the page counter of the searches ----

  datatype ResultType = WordResults | PhoneticResults | MultiPhoneticResults

  /** A row of Previous, "Page i of n" and Next. */
  datatype Controls = Controls(resultType: ResultType, totalPages: nat, indicator: int,
                               prevDisabled: bool, nextDisabled: bool)

  /** `createPaginationControls`: none for a single page, else the buttons for the current page. */
  function CreatePaginationControls(totalPages: nat, currentPage: int, rt: ResultType): (r: Option<Controls>)
    ensures r.None? <==> totalPages <= 1
    ensures r.Some? ==>
      r.value.totalPages == totalPages && r.value.indicator == currentPage
      && (r.value.prevDisabled <==> currentPage == 1) && (r.value.nextDisabled <==> currentPage == totalPages)
  {
    if totalPages <= 1 then None
    else Some(Controls(rt, totalPages, currentPage, currentPage == 1, currentPage == totalPages))
  }

  /**
   * The shared `currentPage` with the stored result lists (`paginatedResults`)
   * and the page and controls on screen.
   */
  class Pager<T> {
    var currentPage: int
    var word: seq<T>
    var phonetic: seq<T>
    var multiPhonetic: seq<T>
    /** The list the results container shows. */
    var showing: ResultType
    var shown: seq<T>
    var controls: Option<Controls>

    function Results(rt: ResultType): seq<T>
      reads this
    {
      match rt
      case WordResults => word
      case PhoneticResults => phonetic
      case MultiPhoneticResults => multiPhonetic
    }

    /**
     * The shown items are the current page of the shown list, the counter is
     * a page of that list, and the controls are the ones for that page:
     * Previous disabled exactly on page 1, Next exactly on the last page.
     */
    ghost predicate Valid()
      reads this
    {
      1 <= currentPage
      && (currentPage == 1 || currentPage <= TotalPages(|Results(showing)|))
      && shown == PageSlice(currentPage, Results(showing))
      && controls == CreatePaginationControls(TotalPages(|Results(showing)|), currentPage, showing)
    }

    constructor()
      ensures Valid() && currentPage == 1
      ensures word == [] && phonetic == [] && multiPhonetic == []
    {
      currentPage := 1;
      word, phonetic, multiPhonetic := [], [], [];
      showing := WordResults;
      shown := [];
      controls := None;
    }

    /** `displayPaginatedResults` and the two searches: store, reset to page 1, show it. */
    method ShowResults(rt: ResultType, results: seq<T>)
      modifies this
      ensures Valid()
      ensures currentPage == 1 && showing == rt && Results(rt) == results
      ensures shown == PageSlice(1, results)
      ensures forall other :: other != rt ==> Results(other) == old(Results(other))
    {
      match rt {
        case WordResults => word := results;
        case PhoneticResults => phonetic := results;
        case MultiPhoneticResults => multiPhonetic := results;
      }
      showing := rt;
      currentPage := 1;
      shown := PageSlice(1, results);
      controls := CreatePaginationControls(TotalPages(|results|), currentPage, rt);
    }

    /**
     * The searches as written: the first page is shown, but only the word
     * search resets `currentPage`; the phonetic and multi-sound searches keep
     * the page a previous list was on.
     */
    method ShowResultsAsWritten(rt: ResultType, results: seq<T>)
      modifies this
      ensures currentPage == if rt == WordResults then 1 else old(currentPage)
      ensures showing == rt && Results(rt) == results
      ensures shown == PageSlice(1, results)
      ensures controls == CreatePaginationControls(TotalPages(|results|), currentPage, rt)
      ensures forall other :: other != rt ==> Results(other) == old(Results(other))
    {
      match rt {
        case WordResults => word := results;
        case PhoneticResults => phonetic := results;
        case MultiPhoneticResults => multiPhonetic := results;
      }
      showing := rt;
      if rt == WordResults {
        currentPage := 1;
      }
      shown := PageSlice(1, results);
      controls := CreatePaginationControls(TotalPages(|results|), currentPage, rt);
    }

    /** `handlePageChange`: show the current page and rebuild the controls. */
    method HandlePageChange()
      requires currentPage >= 1
      modifies this`shown, this`controls
      ensures shown == PageSlice(currentPage, Results(showing))
      ensures controls == CreatePaginationControls(TotalPages(|Results(showing)|), currentPage, showing)
    {
      var all := Results(showing);
      shown := PageSlice(currentPage, all);
      controls := CreatePaginationControls(TotalPages(|all|), currentPage, showing);
    }

    /** The Previous button: one page back, never below page 1. */
    method Previous()
      requires currentPage >= 1 && controls.Some?
      modifies this`currentPage, this`shown, this`controls
      ensures currentPage == if old(currentPage) > 1 then old(currentPage) - 1 else old(currentPage)
      ensures old(Valid()) ==> Valid()
    {
      if currentPage > 1 {
        currentPage := currentPage - 1;
        HandlePageChange();
      }
    }

    /** The Next button: one page on, never past the page count its controls were built with. */
    method Next()
      requires currentPage >= 1 && controls.Some?
      modifies this`currentPage, this`shown, this`controls
      ensures var total := old(controls.value.totalPages);
        currentPage == if old(currentPage) < total then old(currentPage) + 1 else old(currentPage)
      ensures old(Valid()) ==> Valid()
    {
      if currentPage < controls.value.totalPages {
        currentPage := currentPage + 1;
        HandlePageChange();
      }
    }
  }

  /**
   * Three pages of words, Next twice, then a phonetic search with two pages
   * of hits: the first page is shown while the controls read "Page 3 of 2".
   */
  method StalePageAfterSearch() returns (shownFirstPage: bool, indicator: int, total: nat)
    ensures shownFirstPage && indicator == 3 && total == 2
  {
    var p := new Pager<int>();
    p.ShowResults(WordResults, seq(30, i => i));
    p.Next();
    p.Next();
    p.ShowResultsAsWritten(PhoneticResults, seq(15, i => i));
    shownFirstPage := p.shown == PageSlice(1, seq(15, i => i));
    indicator := p.controls.value.indicator;
    total := p.controls.value.totalPages;
  }

  /** The same clicks with the counter reset: the controls read "Page 1 of 2". */
  method PageResetAfterSearch() returns (indicator: int, total: nat)
    ensures indicator == 1 && total == 2
  {
    var p := new Pager<int>();
    p.ShowResults(WordResults, seq(30, i => i));
    p.Next();
    p.Next();
    p.ShowResults(PhoneticResults, seq(15, i => i));
    indicator := p.controls.value.indicator;
    total := p.controls.value.totalPages;
  }

  // ---- the comparison view's twin controls ----

  datatype Side = FirstSound | SecondSound

  /**
   * One position of the comparison view: the two halves of its pairs, the
   * page each container shows, and the shared `currentPageFirst` with both
   * containers' buttons and indicators.
   */
  class ComparisonPager<T> {
    const first: seq<T>
    const second: seq<T>
    const totalPages: nat
    /** `createSoundComparisonPaginationControls` only runs for more than a page. */
    const hasControls: bool
    var page: nat
    var firstShown: seq<T>
    var secondShown: seq<T>
    var firstIndicator: nat
    var secondIndicator: nat
    var firstPrevDisabled: bool
    var firstNextDisabled: bool
    var secondPrevDisabled: bool
    var secondNextDisabled: bool

    /**
     * Both containers show the current page of their own list, both
     * indicators name it, and each Previous/Next is disabled exactly on the
     * first/last page.
     */
    ghost predicate Valid()
      reads this
    {
      1 <= page
      && firstShown == ComparisonPage(page, first)
      && secondShown == ComparisonPage(page, second)
      && (!hasControls ==> page == 1)
      && (hasControls ==>
            page <= totalPages
            && firstIndicator == page && secondIndicator == page
            && firstPrevDisabled == (page == 1) && secondPrevDisabled == (page == 1)
            && firstNextDisabled == (page == totalPages) && secondNextDisabled == (page == totalPages))
    }

    /** The first page of both lists, and the controls when the first list is longer than a page. */
    constructor(firstWords: seq<T>, secondWords: seq<T>)
      ensures first == firstWords && second == secondWords
      ensures hasControls <==> |firstWords| > ItemsPerPage
      ensures totalPages == TotalPages(Longer(|firstWords|, |secondWords|))
      ensures |firstWords| == |secondWords| ==> Valid()
      ensures page == 1 && firstShown == Slice(firstWords, 0, ItemsPerPage) && secondShown == Slice(secondWords, 0, ItemsPerPage)
    {
      first, second := firstWords, secondWords;
      var total := TotalPages(Longer(|firstWords|, |secondWords|));
      totalPages := total;
      hasControls := |firstWords| > ItemsPerPage;
      page := 1;
      firstShown, secondShown := Slice(firstWords, 0, ItemsPerPage), Slice(secondWords, 0, ItemsPerPage);
      firstIndicator, secondIndicator := 1, 1;
      firstPrevDisabled, secondPrevDisabled := true, true;
      firstNextDisabled := total == 1;
      secondNextDisabled := total == 1;
    }

    /** The page counter after a click on Previous (`forward` false) or Next. */
    function Turned(forward: bool): nat
      reads this
    {
      if forward then (if page < totalPages then page + 1 else page)
      else if page > 1 then page - 1 else page
    }

    /** Both indicators and all four buttons follow the new page. */
    method SyncButtons()
      modifies this`firstIndicator, this`secondIndicator, this`firstPrevDisabled,
               this`secondPrevDisabled, this`firstNextDisabled, this`secondNextDisabled
      ensures firstIndicator == page && secondIndicator == page
      ensures firstPrevDisabled == (page == 1) && secondPrevDisabled == (page == 1)
      ensures firstNextDisabled == (page == totalPages) && secondNextDisabled == (page == totalPages)
    {
      firstIndicator, secondIndicator := page, page;
      firstPrevDisabled, secondPrevDisabled := page == 1, page == 1;
      firstNextDisabled, secondNextDisabled := page == totalPages, page == totalPages;
    }

    /**
     * A click as written: the counter and both rows of controls move, but
     * only the clicked container's list is redrawn.
     */
    method TurnAsWritten(side: Side, forward: bool)
      requires hasControls && 1 <= page <= totalPages
      modifies this
      ensures page == old(Turned(forward))
      ensures page != old(page) ==>
        firstIndicator == page && secondIndicator == page
        && (side == FirstSound ==> firstShown == ComparisonPage(page, first) && secondShown == old(secondShown))
        && (side == SecondSound ==> secondShown == ComparisonPage(page, second) && firstShown == old(firstShown))
      ensures page == old(page) ==> firstShown == old(firstShown) && secondShown == old(secondShown)
    {
      var next := Turned(forward);
      if next != page {
        page := next;
        match side {
          case FirstSound => firstShown := ComparisonPage(page, first);
          case SecondSound => secondShown := ComparisonPage(page, second);
        }
        SyncButtons();
      }
    }

    /** A click that redraws both containers, as the shared counter intends. */
    method Turn(side: Side, forward: bool)
      requires hasControls && 1 <= page <= totalPages
      modifies this
      ensures page == old(Turned(forward))
      ensures 1 <= page <= totalPages
      ensures old(Valid()) ==> Valid()
    {
      var next := Turned(forward);
      if next != page {
        page := next;
        firstShown := ComparisonPage(page, first);
        secondShown := ComparisonPage(page, second);
        SyncButtons();
      }
    }
  }

  /**
   * Thirty pairs, Next under the first sound: the second container still
   * lists pairs 1 to 10 under "Page 2 of 3", so the two columns no
   * longer line up.
   */
  method UnsyncedComparisonColumns() returns (secondShown: seq<int>, secondIndicator: nat, pageTwo: seq<int>)
    ensures secondIndicator == 2 && pageTwo == seq(10, i => i + 10)
    ensures secondShown == seq(10, i => i) && secondShown != pageTwo
  {
    var pairs := seq(30, i => i);
    var c := new ComparisonPager<int>(pairs, pairs);
    c.TurnAsWritten(FirstSound, true);
    secondShown, secondIndicator := c.secondShown, c.secondIndicator;
    pageTwo := ComparisonPage(2, pairs);
    assert pageTwo[0] != secondShown[0];
  }

  /** The same click through `Turn`: the second container shows pairs 11 to 20. */
  method SyncedComparisonColumns() returns (secondShown: seq<int>, secondIndicator: nat)
    ensures secondIndicator == 2 && secondShown == seq(10, i => i + 10)
  {
    var pairs := seq(30, i => i);
    var c := new ComparisonPager<int>(pairs, pairs);
    c.Turn(FirstSound, true);
    secondShown, secondIndicator := c.secondShown, c.secondIndicator;
  }
}
