/**
 * The summary pane of the annotation page: it shows a summary with its labelled
 * spans highlighted, turns a text selection into absolute character offsets,
 * and holds the pending selection until a label type is picked.
 *
 * The rendered DOM is abstracted as the sequence of its text nodes in document
 * order; a selection endpoint names its container by position in that
 * sequence (a position outside it is a container the tree walk never meets).
 */
module SummaryDisplay {
  import opened Maybe
  import opened JsBuiltins
  import StableSort

  /** One labelled span as the page stores it: `text`, `type`, `startIndex`, `endIndex`. */
  datatype Label = Label(text: string, labelType: string, startIndex: int, endIndex: int)

  /** The label types offered once some text is selected. */
  const LabelTypes: seq<string> := [
    "Incorrect definitions",
    "Incorrect synonyms",
    "Entity errors",
    "Contradiction",
    "Omission",
    "Jumping to conclusions",
    "Misinterpretation"
  ]

  /** One rendered `<span>`: a run of plain text, or the highlight of the label at `position` in start order. */
  datatype Part = Plain(text: string) | Highlight(text: string, position: nat)

  // ---------------------------------------------------------------------------
  // Concatenating rendered text

  function Concat(nodes: seq<string>): string {
    if nodes == [] then [] else Concat(nodes[..|nodes| - 1]) + nodes[|nodes| - 1]
  }

  lemma {:induction false} ConcatAppend(a: seq<string>, b: seq<string>)
    ensures Concat(a + b) == Concat(a) + Concat(b)
  {
    if b != [] {
      assert (a + b)[..|a + b| - 1] == a + b[..|b| - 1];
      ConcatAppend(a, b[..|b| - 1]);
    } else {
      assert a + b == a;
    }
  }

  lemma ConcatSingle(x: string)
    ensures Concat([x]) == x
  {
    assert [x][..0] == [];
  }

  function Texts(parts: seq<Part>): (r: seq<string>)
    ensures |r| == |parts| && forall k :: 0 <= k < |parts| ==> r[k] == parts[k].text
  {
    seq(|parts|, k requires 0 <= k < |parts| => parts[k].text)
  }

  /** The text the parts show, one after another. */
  function Text(parts: seq<Part>): string {
    Concat(Texts(parts))
  }

  lemma TextAppend(a: seq<Part>, b: seq<Part>)
    ensures Text(a + b) == Text(a) + Text(b)
  {
    assert Texts(a + b) == Texts(a) + Texts(b);
    ConcatAppend(Texts(a), Texts(b));
  }

  lemma TextSingle(p: Part)
    ensures Text([p]) == p.text
  {
    assert Texts([p]) == [p.text];
    ConcatSingle(p.text);
  }

  // ---------------------------------------------------------------------------
  // renderHighlightedText

  function StartKey(l: Label): int {
    l.startIndex
  }

  /** `[...labels].sort((a, b) => a.startIndex - b.startIndex)`. */
  function SortByStart(labels: seq<Label>): seq<Label> {
    StableSort.SortBy(labels, StartKey)
  }

  /** `lastIndex` once the first `i` sorted labels are processed: the END OF THE LAST ONE, not the largest end. */
  function LastIndexAfter(sorted: seq<Label>, i: nat): int
    requires i <= |sorted|
  {
    if i == 0 then 0 else sorted[i - 1].endIndex
  }

  /** What one `forEach` step pushes: the gap before the label, if it starts beyond `lastIndex`, then its highlight. */
  function StepParts(summary: string, item: Label, position: nat, lastIndex: int): seq<Part> {
    (if item.startIndex > lastIndex then [Plain(Slice(summary, lastIndex, item.startIndex))] else [])
    + [Highlight(Slice(summary, item.startIndex, item.endIndex), position)]
  }

  /** The parts pushed for the first `i` sorted labels. */
  function PartsBefore(summary: string, sorted: seq<Label>, i: nat): seq<Part>
    requires i <= |sorted|
  {
    if i == 0 then []
    else PartsBefore(summary, sorted, i - 1) + StepParts(summary, sorted[i - 1], i - 1, LastIndexAfter(sorted, i - 1))
  }

  /** The remaining text after the last label, if `lastIndex` is short of the end. */
  function Remainder(summary: string, lastIndex: int): seq<Part> {
    if lastIndex < |summary| then [Plain(Slice(summary, lastIndex, |summary|))] else []
  }

  function RenderSorted(summary: string, sorted: seq<Label>): seq<Part> {
    PartsBefore(summary, sorted, |sorted|) + Remainder(summary, LastIndexAfter(sorted, |sorted|))
  }

  /**
   * The parts `renderHighlightedText` returns for `summary` and `labels`: one
   * highlight per label, at most one gap before each and at most one trailing
   * part, so between n and 2n + 1 parts.
   */
  function Render(summary: string, labels: seq<Label>): (parts: seq<Part>)
    ensures |labels| <= |parts| <= 2 * |labels| + 1
  {
    PrefixHighlights(summary, SortByStart(labels), |labels|);
    RenderSorted(summary, SortByStart(labels))
  }

  /**
   * What the summary container shows: the split parts, or the bare summary
   * when there are no labels, which is the same text the split rendering
   * would show.
   */
  function Display(summary: string, labels: seq<Label>): (parts: seq<Part>)
    ensures Text(parts) == Text(Render(summary, labels))
  {
    if |labels| > 0 then Render(summary, labels)
    else
      RenderWithoutLabels(summary, labels);
      [Plain(summary)]
  }

  /** With no labels the split rendering is the whole summary as one plain part, or nothing for an empty summary. */
  lemma RenderWithoutLabels(summary: string, labels: seq<Label>)
    requires labels == []
    ensures Text(Render(summary, labels)) == Text([Plain(summary)])
  {
    TextSingle(Plain(summary));
    assert SortByStart(labels) == [];
    assert summary[0..|summary|] == summary;
    if |summary| > 0 {
      assert Render(summary, labels) == [Plain(summary)];
    } else {
      assert Render(summary, labels) == [];
    }
  }

  method RenderHighlightedText(summary: string, labels: seq<Label>) returns (textParts: seq<Part>)
    ensures textParts == Render(summary, labels)
  {
    var lastIndex := 0;
    textParts := [];
    var sortedLabels := SortByStart(labels);
    for index := 0 to |sortedLabels|
      invariant lastIndex == LastIndexAfter(sortedLabels, index)
      invariant textParts == PartsBefore(summary, sortedLabels, index)
    {
      var current := sortedLabels[index];
      if current.startIndex > lastIndex {
        textParts := textParts + [Plain(Slice(summary, lastIndex, current.startIndex))];
      }
      textParts := textParts + [Highlight(Slice(summary, current.startIndex, current.endIndex), index)];
      lastIndex := current.endIndex;
    }
    if lastIndex < |summary| {
      textParts := textParts + [Plain(Slice(summary, lastIndex, |summary|))];
    }
  }

  // ---------------------------------------------------------------------------
  // What the rendering promises

  /** The sorted labels are in order, in bounds, and none starts before the previous one ends. */
  ghost predicate Tiled(sorted: seq<Label>, n: nat) {
    forall k {:trigger LastIndexAfter(sorted, k)} :: 0 <= k < |sorted| ==>
      LastIndexAfter(sorted, k) <= sorted[k].startIndex <= sorted[k].endIndex <= n
  }

  lemma StepText(summary: string, item: Label, position: nat, lastIndex: int)
    requires 0 <= lastIndex <= item.startIndex <= item.endIndex <= |summary|
    ensures Text(StepParts(summary, item, position, lastIndex)) == summary[lastIndex..item.endIndex]
  {
    var hl := Highlight(summary[item.startIndex..item.endIndex], position);
    assert Slice(summary, item.startIndex, item.endIndex) == summary[item.startIndex..item.endIndex];
    TextSingle(hl);
    if item.startIndex > lastIndex {
      var gap := Plain(summary[lastIndex..item.startIndex]);
      assert Slice(summary, lastIndex, item.startIndex) == summary[lastIndex..item.startIndex];
      assert StepParts(summary, item, position, lastIndex) == [gap] + [hl];
      calc {
        Text([gap] + [hl]);
        { TextAppend([gap], [hl]); }
        Text([gap]) + Text([hl]);
        { TextSingle(gap); }
        summary[lastIndex..item.startIndex] + summary[item.startIndex..item.endIndex];
        { assert summary[lastIndex..item.endIndex] == summary[lastIndex..item.startIndex] + summary[item.startIndex..item.endIndex]; }
        summary[lastIndex..item.endIndex];
      }
    } else {
      assert StepParts(summary, item, position, lastIndex) == [hl];
    }
  }

  /** One `forEach` step adds the text from the previous label's end to the current label's end. */
  lemma TiledStep(summary: string, sorted: seq<Label>, i: nat)
    requires 0 < i <= |sorted|
    requires 0 <= LastIndexAfter(sorted, i - 1) <= sorted[i - 1].startIndex <= sorted[i - 1].endIndex <= |summary|
    ensures Text(PartsBefore(summary, sorted, i))
      == Text(PartsBefore(summary, sorted, i - 1)) + summary[LastIndexAfter(sorted, i - 1)..sorted[i - 1].endIndex]
  {
    var prev := PartsBefore(summary, sorted, i - 1);
    var step := StepParts(summary, sorted[i - 1], i - 1, LastIndexAfter(sorted, i - 1));
    assert PartsBefore(summary, sorted, i) == prev + step;
    TextAppend(prev, step);
    StepText(summary, sorted[i - 1], i - 1, LastIndexAfter(sorted, i - 1));
  }

  lemma {:induction false} TiledPrefixText(summary: string, sorted: seq<Label>, i: nat)
    requires i <= |sorted|
    requires Tiled(sorted, |summary|)
    ensures 0 <= LastIndexAfter(sorted, i) <= |summary|
    ensures Text(PartsBefore(summary, sorted, i)) == summary[..LastIndexAfter(sorted, i)]
  {
    if i > 0 {
      TiledPrefixText(summary, sorted, i - 1);
      var last := LastIndexAfter(sorted, i - 1);
      var end := sorted[i - 1].endIndex;
      assert last <= sorted[i - 1].startIndex <= end <= |summary|;
      TiledStep(summary, sorted, i);
      assert summary[..end] == summary[..last] + summary[last..end];
    }
  }

  /** When the sorted labels tile the summary, the rendered parts spell the summary exactly. */
  lemma TiledRenderIsLossless(summary: string, sorted: seq<Label>)
    requires Tiled(sorted, |summary|)
    ensures Text(RenderSorted(summary, sorted)) == summary
  {
    TiledPrefixText(summary, sorted, |sorted|);
    var last := LastIndexAfter(sorted, |sorted|);
    TextAppend(PartsBefore(summary, sorted, |sorted|), Remainder(summary, last));
    if last < |summary| {
      TextSingle(Plain(summary[last..]));
      assert summary == summary[..last] + summary[last..];
    } else {
      assert Texts(Remainder(summary, last)) == [];
    }
  }

  /** Two spans that do not overlap. */
  predicate Apart(a: Label, b: Label) {
    a.endIndex <= b.startIndex || b.endIndex <= a.startIndex
  }

  /** Every label covers at least one character of a summary of length `n`. */
  predicate InBounds(labels: seq<Label>, n: nat) {
    forall k :: 0 <= k < |labels| ==> 0 <= labels[k].startIndex < labels[k].endIndex <= n
  }

  lemma SortedApartIsTiled(sorted: seq<Label>, n: nat)
    requires StableSort.SortedBy(sorted, StartKey)
    requires StableSort.Pairwise(sorted, Apart)
    requires InBounds(sorted, n)
    ensures Tiled(sorted, n)
  {
    forall k | 0 <= k < |sorted|
      ensures LastIndexAfter(sorted, k) <= sorted[k].startIndex <= sorted[k].endIndex <= n
    {
      if k > 0 {
        assert StartKey(sorted[k - 1]) <= StartKey(sorted[k]);
        assert Apart(sorted[k - 1], sorted[k]);
      }
    }
  }

  /**
   * Losslessness: when every label covers a non-empty range inside the summary
   * and no two labels overlap, the rendered parts spell the summary exactly.
   */
  lemma RenderIsLossless(summary: string, labels: seq<Label>)
    requires InBounds(labels, |summary|)
    requires StableSort.Pairwise(labels, Apart)
    ensures Text(Render(summary, labels)) == summary
  {
    var sorted := SortByStart(labels);
    StableSort.SortBySortedPermutation(labels, StartKey);
    StableSort.SortByKeepsPairwise(labels, StartKey, Apart);
    SortedInBounds(labels, |summary|);
    SortedApartIsTiled(sorted, |summary|);
    TiledRenderIsLossless(summary, sorted);
  }

  /** The label order the rendering uses: ascending start, ties kept in collection order. */
  lemma RenderOrder(labels: seq<Label>)
    ensures StableSort.SortedBy(SortByStart(labels), StartKey)
    ensures multiset(SortByStart(labels)) == multiset(labels)
    ensures forall start :: StableSort.WithKey(SortByStart(labels), StartKey, start) == StableSort.WithKey(labels, StartKey, start)
  {
    StableSort.SortBySortedPermutation(labels, StartKey);
    forall start ensures StableSort.WithKey(SortByStart(labels), StartKey, start) == StableSort.WithKey(labels, StartKey, start) {
      StableSort.SortByStable(labels, StartKey, start);
    }
  }

  /** The highlight parts, in order. */
  function Highlights(parts: seq<Part>): seq<Part> {
    if parts == [] then []
    else (if parts[0].Highlight? then [parts[0]] else []) + Highlights(parts[1..])
  }

  lemma {:induction false} HighlightsAppend(a: seq<Part>, b: seq<Part>)
    ensures Highlights(a + b) == Highlights(a) + Highlights(b)
  {
    if a == [] {
      assert a + b == b;
    } else {
      var head := if a[0].Highlight? then [a[0]] else [];
      assert (a + b)[0] == a[0];
      assert (a + b)[1..] == a[1..] + b;
      assert Highlights(a + b) == head + Highlights(a[1..] + b);
      HighlightsAppend(a[1..], b);
      assert Highlights(a) == head + Highlights(a[1..]);
    }
  }

  lemma StepShape(summary: string, item: Label, position: nat, lastIndex: int)
    ensures Highlights(StepParts(summary, item, position, lastIndex))
            == [Highlight(Slice(summary, item.startIndex, item.endIndex), position)]
    ensures 1 <= |StepParts(summary, item, position, lastIndex)| <= 2
  {
    var step := StepParts(summary, item, position, lastIndex);
    var hl := Highlight(Slice(summary, item.startIndex, item.endIndex), position);
    assert Highlights([hl]) == [hl];
    if item.startIndex > lastIndex {
      assert step[1..] == [hl];
    }
  }

  /** The highlights of the first `i` sorted labels, each its label's slice of the summary. */
  ghost function SortedHighlights(summary: string, sorted: seq<Label>, i: nat): seq<Part>
    requires i <= |sorted|
  {
    seq(i, k requires 0 <= k < i => Highlight(Slice(summary, sorted[k].startIndex, sorted[k].endIndex), k))
  }

  lemma SortedHighlightsStep(summary: string, sorted: seq<Label>, i: nat)
    requires 0 < i <= |sorted|
    ensures SortedHighlights(summary, sorted, i)
      == SortedHighlights(summary, sorted, i - 1) + [Highlight(Slice(summary, sorted[i - 1].startIndex, sorted[i - 1].endIndex), i - 1)]
  {
  }

  lemma {:induction false} PrefixHighlights(summary: string, sorted: seq<Label>, i: nat)
    requires i <= |sorted|
    ensures Highlights(PartsBefore(summary, sorted, i)) == SortedHighlights(summary, sorted, i)
    ensures i <= |PartsBefore(summary, sorted, i)| <= 2 * i
  {
    if i > 0 {
      var prev := PartsBefore(summary, sorted, i - 1);
      var step := StepParts(summary, sorted[i - 1], i - 1, LastIndexAfter(sorted, i - 1));
      var hl := Highlight(Slice(summary, sorted[i - 1].startIndex, sorted[i - 1].endIndex), i - 1);
      assert PartsBefore(summary, sorted, i) == prev + step;
      PrefixHighlights(summary, sorted, i - 1);
      HighlightsAppend(prev, step);
      StepShape(summary, sorted[i - 1], i - 1, LastIndexAfter(sorted, i - 1));
      SortedHighlightsStep(summary, sorted, i);
      calc {
        Highlights(PartsBefore(summary, sorted, i));
        Highlights(prev) + Highlights(step);
        SortedHighlights(summary, sorted, i - 1) + [hl];
      }
    } else {
      assert SortedHighlights(summary, sorted, 0) == [];
    }
  }

  /**
   * There is one highlight per label, and the k-th highlight is the k-th
   * label in start order, sliced from the summary.
   */
  lemma RenderShape(summary: string, labels: seq<Label>)
    ensures |Highlights(Render(summary, labels))| == |labels|
    ensures forall k :: 0 <= k < |labels| ==>
      Highlights(Render(summary, labels))[k]
        == Highlight(Slice(summary, SortByStart(labels)[k].startIndex, SortByStart(labels)[k].endIndex), k)
  {
    var sorted := SortByStart(labels);
    PrefixHighlights(summary, sorted, |sorted|);
    var rest := Remainder(summary, LastIndexAfter(sorted, |sorted|));
    HighlightsAppend(PartsBefore(summary, sorted, |sorted|), rest);
    assert Highlights(rest) == [];
  }

  /** Two labels already in start order stay in that order. */
  lemma SortPairInOrder(a: Label, b: Label)
    requires a.startIndex <= b.startIndex
    ensures SortByStart([a, b]) == [a, b]
  {
    assert StableSort.SortBy([b], StartKey) == [b] by {
      assert [b][1..] == [];
    }
    assert [a, b][1..] == [b];
    assert SortByStart([a, b]) == StableSort.Insert(a, [b], StartKey);
  }

  lemma OverlapParts(summary: string, a: Label, b: Label)
    requires 0 <= a.startIndex <= b.startIndex < a.endIndex <= |summary|
    requires b.startIndex <= b.endIndex <= |summary|
    ensures Render(summary, [a, b])
      == (if a.startIndex > 0 then [Plain(summary[..a.startIndex])] else [])
         + [Highlight(summary[a.startIndex..a.endIndex], 0), Highlight(summary[b.startIndex..b.endIndex], 1)]
         + Remainder(summary, b.endIndex)
  {
    SortPairInOrder(a, b);
    var lead := if a.startIndex > 0 then [Plain(summary[..a.startIndex])] else [];
    var ha := Highlight(summary[a.startIndex..a.endIndex], 0);
    var hb := Highlight(summary[b.startIndex..b.endIndex], 1);
    assert StepParts(summary, a, 0, 0) == lead + [ha] by {
      assert Slice(summary, 0, a.startIndex) == summary[..a.startIndex];
    }
    assert StepParts(summary, b, 1, a.endIndex) == [hb];
    assert PartsBefore(summary, [a, b], 1) == lead + [ha];
    assert PartsBefore(summary, [a, b], 2) == lead + [ha] + [hb];
    assert LastIndexAfter([a, b], 2) == b.endIndex;
    assert lead + [ha] + [hb] == lead + [ha, hb];
  }

  lemma TextAroundPair(p: seq<Part>, x: Part, y: Part, q: seq<Part>)
    ensures Text(p + [x, y] + q) == Text(p) + x.text + y.text + Text(q)
  {
    TextSingle(x);
    TextSingle(y);
    TextAppend([x], [y]);
    assert [x] + [y] == [x, y];
    TextAppend(p, [x, y]);
    TextAppend(p + [x, y], q);
  }

  lemma LeadText(summary: string, start: nat)
    requires start <= |summary|
    ensures Text(if start > 0 then [Plain(summary[..start])] else []) == summary[..start]
  {
    if start > 0 {
      TextSingle(Plain(summary[..start]));
    } else {
      assert Texts([]) == [];
    }
  }

  lemma RemainderText(summary: string, end: nat)
    requires end <= |summary|
    ensures Text(Remainder(summary, end)) == summary[end..]
  {
    if end < |summary| {
      TextSingle(Plain(summary[end..]));
    } else {
      assert Texts(Remainder(summary, end)) == [];
    }
  }

  lemma OverlapPartsText(summary: string, a: Label, b: Label)
    requires 0 <= a.startIndex <= b.startIndex < a.endIndex <= |summary|
    requires b.startIndex <= b.endIndex <= |summary|
    ensures Text((if a.startIndex > 0 then [Plain(summary[..a.startIndex])] else [])
                 + [Highlight(summary[a.startIndex..a.endIndex], 0), Highlight(summary[b.startIndex..b.endIndex], 1)]
                 + Remainder(summary, b.endIndex))
            == summary[..a.endIndex] + summary[b.startIndex..]
  {
    var lead := if a.startIndex > 0 then [Plain(summary[..a.startIndex])] else [];
    var ha := Highlight(summary[a.startIndex..a.endIndex], 0);
    var hb := Highlight(summary[b.startIndex..b.endIndex], 1);
    var tail := Remainder(summary, b.endIndex);
    calc {
      Text(lead + [ha, hb] + tail);
      { TextAroundPair(lead, ha, hb, tail); }
      Text(lead) + ha.text + hb.text + Text(tail);
      { LeadText(summary, a.startIndex); RemainderText(summary, b.endIndex); }
      summary[..a.startIndex] + summary[a.startIndex..a.endIndex] + summary[b.startIndex..b.endIndex] + summary[b.endIndex..];
      { assert summary[..a.endIndex] == summary[..a.startIndex] + summary[a.startIndex..a.endIndex]; }
      summary[..a.endIndex] + summary[b.startIndex..b.endIndex] + summary[b.endIndex..];
      { assert summary[b.startIndex..] == summary[b.startIndex..b.endIndex] + summary[b.endIndex..]; }
      summary[..a.endIndex] + summary[b.startIndex..];
    }
  }

  /**
   * A label that starts inside the previous one is re-emitted whole, and the
   * trailing text resumes from ITS end: the text between the later label's
   * start and the earlier one's end is shown twice, so the parts spell more
   * than the summary.
   */
  lemma OverlapRepeatsText(summary: string, a: Label, b: Label)
    requires 0 <= a.startIndex <= b.startIndex < a.endIndex <= |summary|
    requires b.startIndex <= b.endIndex <= |summary|
    ensures Text(Render(summary, [a, b])) == summary[..a.endIndex] + summary[b.startIndex..]
    ensures |Text(Render(summary, [a, b]))| == |summary| + (a.endIndex - b.startIndex)
  {
    OverlapParts(summary, a, b);
    OverlapPartsText(summary, a, b);
  }

  /**
   * An example of `OverlapRepeatsText`: labels [0, 10) and [5, 15) on a
   * 20-character summary render 25 characters.
   */
  lemma OverlapScenario(summary: string, t1: string, t2: string)
    requires |summary| == 20
    ensures |Text(Render(summary, [Label(t1, "Omission", 0, 10), Label(t2, "Contradiction", 5, 15)]))| == 25
  {
    OverlapRepeatsText(summary, Label(t1, "Omission", 0, 10), Label(t2, "Contradiction", 5, 15));
  }

  /** How far a label reaches back before `lastIndex`: the length of text it shows a second time. */
  function Excess(x: int): nat {
    if x > 0 then x else 0
  }

  /** The text repeated by the first `i` sorted labels, each reaching back before the previous label's end. */
  function Repeated(sorted: seq<Label>, i: nat): nat
    requires i <= |sorted|
  {
    if i == 0 then 0 else Repeated(sorted, i - 1) + Excess(LastIndexAfter(sorted, i - 1) - sorted[i - 1].startIndex)
  }

  /** One step adds the text from `lastIndex` to the label's end, plus what the label repeats. */
  lemma StepLength(summary: string, item: Label, position: nat, lastIndex: int)
    requires 0 <= lastIndex <= |summary|
    requires 0 <= item.startIndex <= item.endIndex <= |summary|
    ensures |Text(StepParts(summary, item, position, lastIndex))|
      == item.endIndex - lastIndex + Excess(lastIndex - item.startIndex)
  {
    var hl := Highlight(Slice(summary, item.startIndex, item.endIndex), position);
    var gap := if item.startIndex > lastIndex then [Plain(Slice(summary, lastIndex, item.startIndex))] else [];
    assert StepParts(summary, item, position, lastIndex) == gap + [hl];
    TextAppend(gap, [hl]);
    TextSingle(hl);
    if item.startIndex > lastIndex {
      TextSingle(gap[0]);
      assert gap == [gap[0]];
    } else {
      assert Text(gap) == [];
    }
  }

  /** The parts for the first `i` sorted labels are as long as `lastIndex` plus the text repeated so far. */
  lemma {:induction false} PrefixLength(summary: string, sorted: seq<Label>, i: nat)
    requires InBounds(sorted, |summary|)
    requires i <= |sorted|
    ensures |Text(PartsBefore(summary, sorted, i))| == LastIndexAfter(sorted, i) + Repeated(sorted, i)
  {
    if i > 0 {
      PrefixLength(summary, sorted, i - 1);
      var last := LastIndexAfter(sorted, i - 1);
      TextAppend(PartsBefore(summary, sorted, i - 1), StepParts(summary, sorted[i - 1], i - 1, last));
      StepLength(summary, sorted[i - 1], i - 1, last);
    }
  }

  /** The whole rendering is as long as the summary plus the text the labels repeat. */
  lemma RenderSortedLength(summary: string, sorted: seq<Label>)
    requires InBounds(sorted, |summary|)
    ensures |Text(RenderSorted(summary, sorted))| == |summary| + Repeated(sorted, |sorted|)
  {
    var last := LastIndexAfter(sorted, |sorted|);
    PrefixLength(summary, sorted, |sorted|);
    TextAppend(PartsBefore(summary, sorted, |sorted|), Remainder(summary, last));
    if last < |summary| {
      TextSingle(Plain(Slice(summary, last, |summary|)));
    } else {
      assert Text(Remainder(summary, last)) == [];
    }
  }

  /** A label starting before the end of the one sorted just before it makes the repeated text non-empty. */
  lemma {:induction false} RepeatedPositive(sorted: seq<Label>, i: nat, p: nat)
    requires 0 < p < i <= |sorted|
    requires sorted[p - 1].endIndex > sorted[p].startIndex
    ensures Repeated(sorted, i) > 0
  {
    if p < i - 1 {
      RepeatedPositive(sorted, i - 1, p);
    }
  }

  /** Sorting keeps every label in bounds. */
  lemma SortedInBounds(labels: seq<Label>, n: nat)
    requires InBounds(labels, n)
    ensures InBounds(SortByStart(labels), n)
  {
    var sorted := SortByStart(labels);
    StableSort.SortBySortedPermutation(labels, StartKey);
    forall k | 0 <= k < |sorted| ensures 0 <= sorted[k].startIndex < sorted[k].endIndex <= n {
      assert sorted[k] in multiset(labels);
      var p :| 0 <= p < |labels| && labels[p] == sorted[k];
    }
  }

  /**
   * The converse of losslessness, for any number of labels: the rendering is
   * never shorter than the summary, and it spells the summary exactly when no
   * two labels overlap; any overlap makes it strictly longer.
   */
  lemma RenderLosslessIffApart(summary: string, labels: seq<Label>)
    requires InBounds(labels, |summary|)
    ensures |Text(Render(summary, labels))| >= |summary|
    ensures Text(Render(summary, labels)) == summary <==> StableSort.Pairwise(labels, Apart)
    ensures !StableSort.Pairwise(labels, Apart) ==> |Text(Render(summary, labels))| > |summary|
  {
    var sorted := SortByStart(labels);
    SortedInBounds(labels, |summary|);
    RenderSortedLength(summary, sorted);
    if StableSort.Pairwise(labels, Apart) {
      RenderIsLossless(summary, labels);
    } else {
      if StableSort.Pairwise(sorted, Apart) {
        StableSort.SortByReflectsPairwise(labels, StartKey, Apart);
      }
      StableSort.SortBySortedPermutation(labels, StartKey);
      OverlapIsRepeated(sorted);
    }
  }

  /** Two overlapping labels in start order make some label start before the end of the one just before it. */
  lemma OverlapIsRepeated(sorted: seq<Label>)
    requires StableSort.SortedBy(sorted, StartKey)
    requires !StableSort.Pairwise(sorted, Apart)
    ensures Repeated(sorted, |sorted|) > 0
  {
    var i, j :| 0 <= i < j < |sorted| && !Apart(sorted[i], sorted[j]);
    assert StartKey(sorted[i + 1]) <= StartKey(sorted[j]);
    RepeatedPositive(sorted, |sorted|, i + 1);
  }

  // ---------------------------------------------------------------------------
  // getAbsoluteOffset

  /** How many text nodes the walk passes before meeting `node` (all of them if it never does). */
  function NodesBefore(textNodes: seq<string>, node: int): (n: nat)
    ensures n <= |textNodes|
  {
    if 0 <= node < |textNodes| then node else |textNodes|
  }

  /** The offset `getAbsoluteOffset(node, offset)` computes. */
  function AbsoluteOffsetOf(textNodes: seq<string>, node: int, offset: int): int {
    |Concat(textNodes[..NodesBefore(textNodes, node)])| + offset
  }

  method GetAbsoluteOffset(textNodes: seq<string>, node: int, offset: int) returns (r: int)
    ensures r == AbsoluteOffsetOf(textNodes, node, offset)
  {
    var absoluteOffset := 0;
    var current := 0;
    while current < |textNodes| && current != node
      invariant 0 <= current <= NodesBefore(textNodes, node)
      invariant absoluteOffset == |Concat(textNodes[..current])|
    {
      assert textNodes[..current + 1][..current] == textNodes[..current];
      absoluteOffset := absoluteOffset + |textNodes[current]|;
      current := current + 1;
    }
    r := absoluteOffset + offset;
  }

  /**
   * Offset correctness: an endpoint inside a text node maps to the position of
   * the same character in the concatenated text of all the nodes.
   */
  lemma OffsetPointsIntoNode(textNodes: seq<string>, node: int, offset: int)
    requires 0 <= node < |textNodes| && 0 <= offset <= |textNodes[node]|
    ensures var a := AbsoluteOffsetOf(textNodes, node, offset);
      0 <= a <= a + |textNodes[node]| - offset <= |Concat(textNodes)|
      && Concat(textNodes)[a..a + |textNodes[node]| - offset] == textNodes[node][offset..]
  {
    var before := textNodes[..node];
    assert textNodes == before + [textNodes[node]] + textNodes[node + 1..];
    ConcatAppend(before + [textNodes[node]], textNodes[node + 1..]);
    ConcatAppend(before, [textNodes[node]]);
    assert Concat([textNodes[node]]) == textNodes[node];
    var whole := Concat(textNodes);
    var p := |Concat(before)|;
    assert whole == Concat(before) + textNodes[node] + Concat(textNodes[node + 1..]);
    assert whole[p + offset..p + |textNodes[node]|] == textNodes[node][offset..];
  }

  /**
   * An endpoint inside one of the text nodes of the displayed summary maps to
   * the matching position of the summary, however many highlights precede it,
   * provided the labels are non-empty, in bounds and do not overlap.
   */
  lemma SelectionOffsetIndexesSummary(summary: string, labels: seq<Label>, node: int, offset: int)
    requires InBounds(labels, |summary|)
    requires StableSort.Pairwise(labels, Apart)
    requires 0 <= node < |Display(summary, labels)| && 0 <= offset <= |Display(summary, labels)[node].text|
    ensures var a := AbsoluteOffsetOf(Texts(Display(summary, labels)), node, offset);
      var t := Display(summary, labels)[node].text;
      0 <= a <= a + |t| - offset <= |summary| && summary[a..a + |t| - offset] == t[offset..]
  {
    RenderIsLossless(summary, labels);
    OffsetPointsIntoNode(Texts(Display(summary, labels)), node, offset);
  }

  // ---------------------------------------------------------------------------
  // handleSelection and addLabel

  /** A selection endpoint: its container (by position among the text nodes) and the offset in it. */
  datatype Endpoint = Endpoint(node: int, offset: int)

  /**
   * What `window.getSelection()` reports: whether it is collapsed, the text of
   * its first range, whether the range's start container lies inside the
   * `.summary-text` element, that element's text nodes, and both endpoints.
   */
  datatype Selection = Selection(
    isCollapsed: bool,
    rangeText: string,
    startInSummary: bool,
    textNodes: seq<string>,
    start: Endpoint,
    end: Endpoint)

  /** No selection, or a collapsed one. */
  predicate ClearsSelection(selection: Option<Selection>) {
    selection.None? || selection.value.isCollapsed
  }

  /** A selection with some non-blank text that starts inside the summary. */
  predicate TakesSelection(selection: Option<Selection>) {
    !ClearsSelection(selection) && Trim(selection.value.rangeText) != [] && selection.value.startInSummary
  }

  datatype Span = Span(start: int, end: int)

  /** The component state `selectedText` and `selectionIndices`. */
  class SelectionState {
    var selectedText: string
    var selectionIndices: Option<Span>

    constructor ()
      ensures selectedText == [] && selectionIndices == None
    {
      selectedText := [];
      selectionIndices := None;
    }

    /**
     * A missing or collapsed selection clears both fields; a blank one, or one
     * that does not start inside the summary, changes nothing; otherwise the
     * trimmed text is kept together with the UNTRIMMED range's offsets.
     */
    method HandleSelection(selection: Option<Selection>)
      modifies this
      ensures ClearsSelection(selection) ==> selectedText == [] && selectionIndices == None
      ensures !ClearsSelection(selection) && !TakesSelection(selection) ==>
        selectedText == old(selectedText) && selectionIndices == old(selectionIndices)
      ensures TakesSelection(selection) ==>
        var sel := selection.value;
        selectedText == Trim(sel.rangeText)
        && selectionIndices == Some(Span(
             AbsoluteOffsetOf(sel.textNodes, sel.start.node, sel.start.offset),
             AbsoluteOffsetOf(sel.textNodes, sel.end.node, sel.end.offset)))
    {
      if selection.None? || selection.value.isCollapsed {
        selectedText := [];
        selectionIndices := None;
        return;
      }
      var sel := selection.value;
      var text := Trim(sel.rangeText);
      if text != [] {
        if sel.startInSummary {
          var startOffset := GetAbsoluteOffset(sel.textNodes, sel.start.node, sel.start.offset);
          var endOffset := GetAbsoluteOffset(sel.textNodes, sel.end.node, sel.end.offset);
          selectedText := text;
          selectionIndices := Some(Span(startOffset, endOffset));
        }
      }
    }

    /**
     * With a non-empty selected text and known offsets, forwards the new label
     * and clears the selection; otherwise does nothing.
     */
    method AddLabel(labelType: string) returns (forwarded: Option<Label>)
      modifies this
      ensures old(selectedText) != [] && old(selectionIndices).Some? ==>
        forwarded == Some(Label(old(selectedText), labelType, old(selectionIndices).value.start, old(selectionIndices).value.end))
        && selectedText == [] && selectionIndices == None
      ensures !(old(selectedText) != [] && old(selectionIndices).Some?) ==>
        forwarded == None && selectedText == old(selectedText) && selectionIndices == old(selectionIndices)
    {
      if selectedText != [] && selectionIndices.Some? {
        forwarded := Some(Label(selectedText, labelType, selectionIndices.value.start, selectionIndices.value.end));
        selectedText := [];
        selectionIndices := None;
      } else {
        forwarded := None;
      }
    }
  }

  /**
   * Endpoints that make a range over the text nodes: both inside a node, the
   * start node no later than the end node, and the offsets in order when the
   * two nodes are the same.
   */
  predicate ValidRange(nodes: seq<string>, s: Endpoint, e: Endpoint) {
    && 0 <= s.node <= e.node < |nodes|
    && 0 <= s.offset <= |nodes[s.node]|
    && 0 <= e.offset <= |nodes[e.node]|
    && (s.node == e.node ==> s.offset <= e.offset)
  }

  /**
   * The text of such a range (the DOM's `Range.toString()`): the rest of the
   * start node from its offset, every node strictly between, and the end node
   * up to its offset; within one node, the text between the two offsets.
   */
  function RangeTextOf(nodes: seq<string>, s: Endpoint, e: Endpoint): string
    requires ValidRange(nodes, s, e)
  {
    if s.node == e.node then nodes[s.node][s.offset..e.offset]
    else nodes[s.node][s.offset..] + Concat(nodes[s.node + 1..e.node]) + nodes[e.node][..e.offset]
  }

  /** The selection's text is the text of the range between its endpoints, over the summary's text nodes. */
  predicate SelectsRange(sel: Selection) {
    ValidRange(sel.textNodes, sel.start, sel.end)
    && sel.rangeText == RangeTextOf(sel.textNodes, sel.start, sel.end)
  }

  lemma PrefixConcat(nodes: seq<string>, i: nat, j: nat)
    requires i <= j <= |nodes|
    ensures Concat(nodes[..j]) == Concat(nodes[..i]) + Concat(nodes[i..j])
  {
    assert nodes[..j] == nodes[..i] + nodes[i..j];
    ConcatAppend(nodes[..i], nodes[i..j]);
  }

  /** Nodes `k` up to `m` fill the whole text from the length of the first `k` nodes' text to that of the first `m`. */
  lemma ConcatSpan(nodes: seq<string>, k: nat, m: nat)
    requires k <= m <= |nodes|
    ensures |Concat(nodes[..k])| <= |Concat(nodes[..m])| <= |Concat(nodes)|
    ensures Concat(nodes)[|Concat(nodes[..k])|..|Concat(nodes[..m])|] == Concat(nodes[k..m])
  {
    PrefixConcat(nodes, k, m);
    PrefixConcat(nodes, m, |nodes|);
    assert nodes[..|nodes|] == nodes;
  }

  /** Node `k` fills the whole text from the length of the first `k` nodes' text onwards. */
  lemma NodeSpan(nodes: seq<string>, k: nat)
    requires k < |nodes|
    ensures |Concat(nodes[..k + 1])| == |Concat(nodes[..k])| + |nodes[k]| <= |Concat(nodes)|
    ensures Concat(nodes)[|Concat(nodes[..k])|..|Concat(nodes[..k + 1])|] == nodes[k]
  {
    ConcatSpan(nodes, k, k + 1);
    PrefixConcat(nodes, k, k + 1);
    assert nodes[k..k + 1] == [nodes[k]];
    ConcatSingle(nodes[k]);
  }

  /**
   * Offset correctness for a whole range: the absolute offsets of its two
   * endpoints delimit exactly the range's text in the concatenated text of
   * all the nodes, whether it lies in one node or spans several.
   */
  lemma RangeInConcat(nodes: seq<string>, s: Endpoint, e: Endpoint)
    requires ValidRange(nodes, s, e)
    ensures var a := AbsoluteOffsetOf(nodes, s.node, s.offset);
      var b := AbsoluteOffsetOf(nodes, e.node, e.offset);
      0 <= a <= b <= |Concat(nodes)| && Concat(nodes)[a..b] == RangeTextOf(nodes, s, e)
  {
    if s.node == e.node {
      RangeWithinNode(nodes, s, e);
    } else {
      RangeAcrossNodes(nodes, s, e);
    }
  }

  lemma RangeWithinNode(nodes: seq<string>, s: Endpoint, e: Endpoint)
    requires ValidRange(nodes, s, e) && s.node == e.node
    ensures var a := AbsoluteOffsetOf(nodes, s.node, s.offset);
      var b := AbsoluteOffsetOf(nodes, e.node, e.offset);
      0 <= a <= b <= |Concat(nodes)| && Concat(nodes)[a..b] == RangeTextOf(nodes, s, e)
  {
    assert NodesBefore(nodes, s.node) == s.node;
    RangeInOneNode(nodes, s.node, s.offset, e.offset);
  }

  lemma RangeInOneNode(nodes: seq<string>, k: nat, i: nat, j: nat)
    requires k < |nodes| && i <= j <= |nodes[k]|
    ensures var p := |Concat(nodes[..k])|;
      p + j <= |Concat(nodes)| && Concat(nodes)[p + i..p + j] == nodes[k][i..j]
  {
    var p := |Concat(nodes[..k])|;
    NodeSpan(nodes, k);
    SliceOfSlice(Concat(nodes), p, p + |nodes[k]|, i, j);
  }

  lemma RangeAcrossNodes(nodes: seq<string>, s: Endpoint, e: Endpoint)
    requires ValidRange(nodes, s, e) && s.node < e.node
    ensures var a := AbsoluteOffsetOf(nodes, s.node, s.offset);
      var b := AbsoluteOffsetOf(nodes, e.node, e.offset);
      0 <= a <= b <= |Concat(nodes)| && Concat(nodes)[a..b] == RangeTextOf(nodes, s, e)
  {
    var x, mid, y := nodes[s.node][s.offset..], Concat(nodes[s.node + 1..e.node]), nodes[e.node][..e.offset];
    var a, m := |Concat(nodes[..s.node])| + s.offset, |Concat(nodes[..s.node + 1])|;
    var p, b := |Concat(nodes[..e.node])|, |Concat(nodes[..e.node])| + e.offset;
    assert AbsoluteOffsetOf(nodes, s.node, s.offset) == a && AbsoluteOffsetOf(nodes, e.node, e.offset) == b by {
      assert NodesBefore(nodes, s.node) == s.node && NodesBefore(nodes, e.node) == e.node;
    }
    assert RangeTextOf(nodes, s, e) == x + mid + y;
    NodeRest(nodes, s.node, s.offset);
    ConcatSpan(nodes, s.node + 1, e.node);
    NodeStart(nodes, e.node, e.offset);
    JoinPieces(Concat(nodes), a, m, p, b, x, mid, y);
  }

  /** The rest of node `k` from offset `i` ends the whole text's span of the first `k + 1` nodes. */
  lemma NodeRest(nodes: seq<string>, k: nat, i: nat)
    requires k < |nodes| && i <= |nodes[k]|
    ensures var p := |Concat(nodes[..k])| + i;
      var m := |Concat(nodes[..k + 1])|;
      p <= m <= |Concat(nodes)| && Concat(nodes)[p..m] == nodes[k][i..]
  {
    NodeSpan(nodes, k);
    RangeInOneNode(nodes, k, i, |nodes[k]|);
    assert nodes[k][i..|nodes[k]|] == nodes[k][i..];
  }

  /** The start of node `k` up to offset `j` follows the whole text's span of the first `k` nodes. */
  lemma NodeStart(nodes: seq<string>, k: nat, j: nat)
    requires k < |nodes| && j <= |nodes[k]|
    ensures var p := |Concat(nodes[..k])|;
      p + j <= |Concat(nodes)| && Concat(nodes)[p..p + j] == nodes[k][..j]
  {
    RangeInOneNode(nodes, k, 0, j);
    assert nodes[k][0..j] == nodes[k][..j];
  }

  /** Three adjacent pieces of a slice join into the slice. */
  lemma JoinPieces(w: string, a: int, m: int, p: int, b: int, x: string, mid: string, y: string)
    requires 0 <= a <= m <= p <= b <= |w|
    requires w[a..m] == x && w[m..p] == mid && w[p..b] == y
    ensures w[a..b] == x + mid + y
  {
    assert w[a..b] == w[a..m] + w[m..b];
    assert w[m..b] == w[m..p] + w[p..b];
  }

  /**
   * What `handleSelection` stores for a range over the text nodes of the
   * displayed summary (labels non-empty, in bounds, not overlapping), whether
   * it lies in one node or runs across highlights: the two offsets delimit
   * exactly the selected text in the summary, while the stored text is its
   * trimmed form, so the range also covers any white space the selection
   * began or ended with.
   */
  lemma StoredSelectionDelimitsRange(summary: string, labels: seq<Label>, sel: Selection)
    requires InBounds(labels, |summary|)
    requires StableSort.Pairwise(labels, Apart)
    requires sel.textNodes == Texts(Display(summary, labels))
    requires SelectsRange(sel)
    ensures var a := AbsoluteOffsetOf(sel.textNodes, sel.start.node, sel.start.offset);
      var b := AbsoluteOffsetOf(sel.textNodes, sel.end.node, sel.end.offset);
      && 0 <= a <= b <= |summary| && summary[a..b] == sel.rangeText
      && exists i, j :: a <= i <= j <= b && Trim(sel.rangeText) == summary[i..j]
           && AllSpace(summary[a..i]) && AllSpace(summary[j..b])
  {
    SelectedRangeInSummary(summary, labels, sel);
    var a := AbsoluteOffsetOf(sel.textNodes, sel.start.node, sel.start.offset);
    var b := AbsoluteOffsetOf(sel.textNodes, sel.end.node, sel.end.offset);
    var i, j := TrimBounds(sel.rangeText);
    SpacedInfixWithin(summary, a, b, i, j);
    assert Trim(sel.rangeText) == summary[a + i..a + j];
  }

  /** The offsets of a range over the displayed text nodes delimit its text in the summary. */
  lemma SelectedRangeInSummary(summary: string, labels: seq<Label>, sel: Selection)
    requires InBounds(labels, |summary|)
    requires StableSort.Pairwise(labels, Apart)
    requires sel.textNodes == Texts(Display(summary, labels))
    requires SelectsRange(sel)
    ensures var a := AbsoluteOffsetOf(sel.textNodes, sel.start.node, sel.start.offset);
      var b := AbsoluteOffsetOf(sel.textNodes, sel.end.node, sel.end.offset);
      0 <= a <= b <= |summary| && summary[a..b] == sel.rangeText
  {
    RenderIsLossless(summary, labels);
    RangeInConcat(sel.textNodes, sel.start, sel.end);
  }
}
