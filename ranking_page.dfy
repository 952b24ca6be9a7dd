/**
 * The ranking page: the items are shown three to a page, each with a radio
 * group offering the ranks 1, 2 and 3, and the submit button stays disabled
 * until every item on the page has a rank.
 */
module RankingPage {
  import opened Maybe
  import opened JsBuiltins

  /** One summary to rank. */
  datatype Item = Item(id: string, summary: string, abstractText: string, pmid: string, level: string, assignedAt: string)

  const PageSize: nat := 3

  /** The ranks each radio group offers. */
  const RankChoices: seq<int> := [1, 2, 3]

  /** `Math.ceil(n / PAGE_SIZE)`: the fewest pages that hold `n` items. */
  function TotalPages(n: nat): (pages: nat)
    ensures pages * PageSize >= n
    ensures pages > 0 ==> (pages - 1) * PageSize < n
  {
    (n + PageSize - 1) / PageSize
  }

  function StartIndex(pageIndex: int): int {
    pageIndex * PageSize
  }

  /** `items.slice(startIdx, startIdx + PAGE_SIZE)`: at most a page of the items, a full one while the items last. */
  function Visible(items: seq<Item>, pageIndex: int): (shown: seq<Item>)
    ensures |shown| <= PageSize
    ensures forall item :: item in shown ==> item in items
    ensures var start := StartIndex(pageIndex);
      0 <= start && start + PageSize <= |items| ==> shown == items[start..start + PageSize]
  {
    Slice(items, StartIndex(pageIndex), StartIndex(pageIndex) + PageSize)
  }

  /**
   * A page in range shows between one and three items, the ones from its start
   * index on; a page at or beyond the end shows none.
   */
  lemma VisibleWindow(items: seq<Item>, pageIndex: nat)
    ensures pageIndex < TotalPages(|items|) ==>
      var start := StartIndex(pageIndex);
      var shown := Visible(items, pageIndex);
      1 <= |shown| <= PageSize && start + |shown| <= |items|
      && shown == items[start..start + |shown|]
      && (start + PageSize <= |items| ==> |shown| == PageSize)
    ensures pageIndex >= TotalPages(|items|) ==> Visible(items, pageIndex) == []
  {
    var start := StartIndex(pageIndex);
    if start + PageSize <= |items| {
      assert Visible(items, pageIndex) == items[start..start + PageSize];
    } else if start <= |items| {
      SliceToPastEnd(items, start, start + PageSize);
    }
  }

  /** Each item is on exactly one page: item `k` is the `k % 3`-th visible item of page `k / 3`, and on no other page. */
  lemma EachItemOnOnePage(items: seq<Item>, k: nat, pageIndex: nat)
    requires k < |items|
    ensures pageIndex == k / PageSize ==>
      pageIndex < TotalPages(|items|) && k % PageSize < |Visible(items, pageIndex)|
      && Visible(items, pageIndex)[k % PageSize] == items[k]
    ensures StartIndex(pageIndex) <= k < StartIndex(pageIndex) + |Visible(items, pageIndex)| ==> pageIndex == k / PageSize
  {
    VisibleWindow(items, pageIndex);
    if pageIndex == k / PageSize {
      assert StartIndex(pageIndex) + k % PageSize == k;
    }
  }

  /** A radio value counts as chosen when it is there and truthy (`!radioValues[i]` is false). */
  predicate Chosen(radioValues: seq<Option<int>>, i: int) {
    0 <= i < |radioValues| && radioValues[i].Some? && radioValues[i].value != 0
  }

  /** `visible.some((_, idx) => !radioValues[startIdx + idx])`, over the visible positions `from` onwards. */
  function SomeUnchosen(radioValues: seq<Option<int>>, startIdx: int, from: nat, count: nat): (disabled: bool)
    requires from <= count
    ensures disabled <==> exists k :: startIdx + from <= k < startIdx + count && !Chosen(radioValues, k)
    decreases count - from
  {
    if from == count then false
    else !Chosen(radioValues, startIdx + from) || SomeUnchosen(radioValues, startIdx, from + 1, count)
  }

  /** `prev.map((v, i) => i === target ? val : v)`. */
  function ChooseAt(radioValues: seq<Option<int>>, target: int, val: int): (r: seq<Option<int>>)
    ensures |r| == |radioValues|
    ensures 0 <= target < |radioValues| ==> r == radioValues[target := Some(val)]
    ensures !(0 <= target < |radioValues|) ==> r == radioValues
  {
    seq(|radioValues|, i requires 0 <= i < |radioValues| => if i == target then Some(val) else radioValues[i])
  }

  class Page {
    const items: seq<Item>
    var pageIndex: int
    var radioValues: seq<Option<int>>

    /** One radio value per item; every chosen one is 1, 2 or 3; the page index is 0 or a real page. */
    predicate Valid()
      reads this
    {
      && |radioValues| == |items|
      && (forall i :: 0 <= i < |radioValues| && radioValues[i].Some? ==> radioValues[i].value in RankChoices)
      && (pageIndex == 0 || 0 <= pageIndex < TotalPages(|items|))
    }

    /** Page 0, and `Array(n).fill(null)`. */
    constructor (data: seq<Item>)
      ensures Valid()
      ensures items == data && pageIndex == 0
      ensures radioValues == seq(|data|, _ => None)
    {
      items := data;
      pageIndex := 0;
      radioValues := seq(|data|, _ => None);
    }

    /** `handleNavigate`: an index outside the pages is ignored. */
    method HandleNavigate(idx: int)
      requires Valid()
      modifies this
      ensures Valid()
      ensures 0 <= idx < TotalPages(|items|) ==> pageIndex == idx
      ensures !(0 <= idx < TotalPages(|items|)) ==> pageIndex == old(pageIndex)
      ensures radioValues == old(radioValues)
    {
      if idx >= 0 && idx < TotalPages(|items|) {
        pageIndex := idx;
      }
    }

    /** The radio `onChange` for visible item `idx` and value `val`: only entry `startIdx + idx` changes. */
    method Choose(idx: int, val: int)
      requires Valid()
      requires val in RankChoices
      modifies this
      ensures Valid()
      ensures radioValues == ChooseAt(old(radioValues), StartIndex(pageIndex) + idx, val)
      ensures pageIndex == old(pageIndex)
    {
      radioValues := ChooseAt(radioValues, StartIndex(pageIndex) + idx, val);
    }

    /** The submit button is disabled exactly when some visible item has no rank yet. */
    method SubmitDisabled() returns (disabled: bool)
      requires Valid()
      ensures disabled <==>
        exists k :: StartIndex(pageIndex) <= k < StartIndex(pageIndex) + |Visible(items, pageIndex)| && radioValues[k] == None
    {
      var shown := Visible(items, pageIndex);
      disabled := SomeUnchosen(radioValues, StartIndex(pageIndex), 0, |shown|);
      VisibleWindow(items, if pageIndex < 0 then 0 else pageIndex);
      assert 0 !in RankChoices;
      if disabled {
        var k :| StartIndex(pageIndex) <= k < StartIndex(pageIndex) + |shown| && !Chosen(radioValues, k);
        assert radioValues[k] == None;
      } else {
        forall k | StartIndex(pageIndex) <= k < StartIndex(pageIndex) + |shown|
          ensures radioValues[k] != None
        {
          assert Chosen(radioValues, k);
        }
      }
    }
  }
}
