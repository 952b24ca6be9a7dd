/**
 * The pager above the annotation page: numbered buttons for the first page,
 * the last page and a window around the current one, with an ellipsis over
 * every gap, and first/previous/next/last buttons.
 */
module NavigationBar {
  import StableSort

  /** `Math.floor(maxButtonsToShow / 2)` with `maxButtonsToShow = 8`. */
  const MaxButtonsToShow: int := 8

  function WindowStart(currentIndex: int): int {
    if currentIndex - MaxButtonsToShow / 2 > 0 then currentIndex - MaxButtonsToShow / 2 else 0
  }

  function WindowEnd(currentIndex: int, totalItems: int): int {
    var lastPage := totalItems - 1;
    var candidate := WindowStart(currentIndex) + MaxButtonsToShow;
    if lastPage < candidate then lastPage else candidate
  }

  /** The pages that get a button: the first, the last, and the window. */
  predicate OnBar(page: int, currentIndex: int, totalItems: int) {
    page == 0 || page == totalItems - 1 || WindowStart(currentIndex) <= page <= WindowEnd(currentIndex, totalItems)
  }

  predicate StrictlyIncreasing(s: seq<int>) {
    forall i, j :: 0 <= i < j < |s| ==> s[i] < s[j]
  }

  predicate Distinct(s: seq<int>) {
    forall i, j :: 0 <= i < j < |s| ==> s[i] != s[j]
  }

  function Identity(x: int): int {
    x
  }

  function Differ(a: int, b: int): bool {
    a != b
  }

  /** `pages.add(x)` on a Set kept as its elements in insertion order. */
  function Add(pages: seq<int>, x: int): seq<int> {
    if x in pages then pages else pages + [x]
  }

  /** A distinct sequence sorted by value is strictly increasing. */
  lemma SortedDistinctIncreasing(s: seq<int>)
    requires StableSort.SortedBy(s, Identity)
    requires StableSort.Pairwise(s, Differ)
    ensures StrictlyIncreasing(s)
  {
    forall i, j | 0 <= i < j < |s| ensures s[i] < s[j] {
      assert Identity(s[i]) <= Identity(s[j]);
      assert Differ(s[i], s[j]);
    }
  }

  /**
   * `getPageNumbers`: a Set seeded with the first and last page, the window
   * added one page at a time, then sorted numerically.
   */
  method GetPageNumbers(currentIndex: int, totalItems: int) returns (pageNumbers: seq<int>)
    ensures StrictlyIncreasing(pageNumbers)
    ensures forall p :: p in pageNumbers <==> OnBar(p, currentIndex, totalItems)
    ensures |pageNumbers| <= 11
  {
    var firstPage := 0;
    var lastPage := totalItems - 1;
    var pages := Add([firstPage], lastPage);
    var startRange := WindowStart(currentIndex);
    var endRange := WindowEnd(currentIndex, totalItems);
    var i := startRange;
    while i <= endRange
      invariant startRange <= i <= if startRange <= endRange then endRange + 1 else startRange
      invariant Distinct(pages)
      invariant |pages| <= 2 + (i - startRange)
      invariant forall p :: p in pages <==> p == firstPage || p == lastPage || startRange <= p < i
    {
      pages := Add(pages, i);
      i := i + 1;
    }
    assert StableSort.Pairwise(pages, Differ);
    pageNumbers := StableSort.SortBy(pages, Identity);
    StableSort.SortBySortedPermutation(pages, Identity);
    StableSort.SortByKeepsPairwise(pages, Identity, Differ);
    SortedDistinctIncreasing(pageNumbers);
    forall p ensures p in pageNumbers <==> p in pages {
      assert p in pageNumbers <==> p in multiset(pageNumbers);
    }
  }

  /** The current page always has a button when it is a real page. */
  lemma CurrentPageOnBar(currentIndex: int, totalItems: int)
    requires 0 <= currentIndex < totalItems
    ensures OnBar(currentIndex, currentIndex, totalItems)
  {
  }

  /** With at least one page, every button is a real page, wherever the current index is. */
  lemma PagesOnBarExist(currentIndex: int, totalItems: int)
    requires totalItems >= 1
    ensures forall p :: OnBar(p, currentIndex, totalItems) ==> 0 <= p < totalItems
  {
  }

  // ---------------------------------------------------------------------------
  // The ellipsis

  /** `i > 0 && pageIndex > pageNumbers[i - 1] + 1`. */
  predicate ShowEllipsisBefore(pageNumbers: seq<int>, i: int)
    requires 0 <= i < |pageNumbers|
  {
    i > 0 && pageNumbers[i] > pageNumbers[i - 1] + 1
  }

  /** In an increasing list, an ellipsis stands before a button exactly when the page just before it has no button. */
  lemma EllipsisMarksMissingPage(pageNumbers: seq<int>, i: int)
    requires StrictlyIncreasing(pageNumbers)
    requires 0 < i < |pageNumbers|
    ensures ShowEllipsisBefore(pageNumbers, i) <==> pageNumbers[i] - 1 !in pageNumbers
  {
    if ShowEllipsisBefore(pageNumbers, i) {
      forall j | 0 <= j < |pageNumbers| ensures pageNumbers[j] != pageNumbers[i] - 1 {
        if j < i {
          assert pageNumbers[j] <= pageNumbers[i - 1];
        } else if j > i {
          assert pageNumbers[j] > pageNumbers[i];
        }
      }
    } else {
      assert pageNumbers[i - 1] < pageNumbers[i];
      assert pageNumbers[i - 1] == pageNumbers[i] - 1;
    }
  }

  // ---------------------------------------------------------------------------
  // First, previous, next and last

  /** The first page, which always has a numbered button. */
  function FirstTarget(): (p: int)
    ensures forall currentIndex, totalItems :: OnBar(p, currentIndex, totalItems)
  {
    0
  }

  /** One page back, never before the first; on a real page it always has a numbered button. */
  function PreviousTarget(currentIndex: int): (p: int)
    ensures 0 <= p && (p == currentIndex - 1 || p == 0)
    ensures currentIndex > 0 ==> p == currentIndex - 1
    ensures forall totalItems :: currentIndex < totalItems ==> OnBar(p, currentIndex, totalItems)
  {
    if 0 > currentIndex - 1 then 0 else currentIndex - 1
  }

  /** One page forward, never past the last; on a real page it always has a numbered button. */
  function NextTarget(currentIndex: int, totalItems: int): (p: int)
    ensures p <= totalItems - 1 && (p == currentIndex + 1 || p == totalItems - 1)
    ensures currentIndex < totalItems - 1 ==> p == currentIndex + 1
    ensures 0 <= currentIndex < totalItems ==> OnBar(p, currentIndex, totalItems)
  {
    if totalItems - 1 < currentIndex + 1 then totalItems - 1 else currentIndex + 1
  }

  /** The last page, which always has a numbered button. */
  function LastTarget(totalItems: int): (p: int)
    ensures forall currentIndex :: OnBar(p, currentIndex, totalItems)
  {
    totalItems - 1
  }

  /** Each arrow is disabled exactly when following it would stay on the current page. */
  predicate FirstDisabled(currentIndex: int): (b: bool)
    ensures b <==> FirstTarget() == currentIndex
  {
    currentIndex == 0
  }

  predicate PreviousDisabled(currentIndex: int): (b: bool)
    ensures b <==> PreviousTarget(currentIndex) == currentIndex
  {
    currentIndex == 0
  }

  predicate NextDisabled(currentIndex: int, totalItems: int): (b: bool)
    ensures b <==> NextTarget(currentIndex, totalItems) == currentIndex
  {
    currentIndex == totalItems - 1
  }

  predicate LastDisabled(currentIndex: int, totalItems: int): (b: bool)
    ensures b <==> LastTarget(totalItems) == currentIndex
  {
    currentIndex == totalItems - 1
  }

  /**
   * On a real page, each button is disabled exactly when it would stay on the
   * current page, every target is a real page, and the previous and next
   * pages always have a numbered button of their own.
   */
  lemma ArrowTargets(currentIndex: int, totalItems: int)
    requires 0 <= currentIndex < totalItems
    ensures FirstDisabled(currentIndex) <==> FirstTarget() == currentIndex
    ensures PreviousDisabled(currentIndex) <==> PreviousTarget(currentIndex) == currentIndex
    ensures NextDisabled(currentIndex, totalItems) <==> NextTarget(currentIndex, totalItems) == currentIndex
    ensures LastDisabled(currentIndex, totalItems) <==> LastTarget(totalItems) == currentIndex
    ensures 0 <= PreviousTarget(currentIndex) < totalItems && 0 <= NextTarget(currentIndex, totalItems) < totalItems
    ensures OnBar(PreviousTarget(currentIndex), currentIndex, totalItems)
    ensures OnBar(NextTarget(currentIndex, totalItems), currentIndex, totalItems)
  {
  }
}
