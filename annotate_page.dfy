/**
 * The annotation page's state: the assigned summaries, the index of the one on
 * screen, and one annotation (four scores and a label list) per summary.
 */
module AnnotatePage {
  import opened Maybe
  import SummaryDisplay
  import AnnotationForm

  type Label = SummaryDisplay.Label

  /** One annotation entry: the form's four scores plus the optional `labels` list. */
  type Annotation = AnnotationForm.Ratings

  /** An assigned summary as `/api/summaries` returns it. */
  datatype Summary = Summary(id: string, text: string, summary: string, assignedAt: string, completed: bool)

  /** The entry the initialisation effect gives every summary: four zeros and an empty label list. */
  const Blank: Annotation := AnnotationForm.Ratings(0, 0, 0, 0, Some([]))

  /** `summaries.map(() => Blank)`. */
  function InitialAnnotations(summaries: seq<Summary>): (r: seq<Annotation>)
    ensures |r| == |summaries|
  {
    seq(|summaries|, _ => Blank)
  }

  /** `labels || []`: a missing list reads as empty. */
  function LabelsOf(a: Annotation): seq<Label> {
    if a.labels.Some? then a.labels.value else []
  }

  // ---------------------------------------------------------------------------
  // Deleting a label: `labels.filter((_, index) => index !== labelIndex)`

  /** The filter drops exactly the entry at `k`, keeping the order of the rest; an index outside the list drops nothing. */
  function Without<T>(s: seq<T>, k: int): (r: seq<T>)
    ensures 0 <= k < |s| ==> r == s[..k] + s[k + 1..]
    ensures !(0 <= k < |s|) ==> r == s
  {
    if s == [] then []
    else
      var init, last := s[..|s| - 1], s[|s| - 1];
      assert k == |s| - 1 ==> init == s[..k] && s[k + 1..] == [];
      assert 0 <= k < |s| - 1 ==> init[..k] == s[..k] && init[k + 1..] + [last] == s[k + 1..];
      assert !(0 <= k < |s|) ==> init + [last] == s;
      Without(init, k) + (if |s| - 1 != k then [last] else [])
  }

  /** Appending a label and then deleting the last index gives back the list. */
  lemma AddThenDeleteRestores(labels: seq<Label>, item: Label)
    ensures Without(labels + [item], |labels|) == labels
  {
    assert (labels + [item])[..|labels|] == labels;
  }

  // ---------------------------------------------------------------------------
  // annotatedCount

  /** `Object.values(a).some((v) => v !== 0 && typeof(v) === "number")`: the labels array is not a number. */
  predicate IsAnnotated(a: Annotation): (b: bool)
    ensures !b <==> a.(labels := Blank.labels) == Blank
  {
    a.comprehensiveness != 0 || a.layness != 0 || a.factuality != 0 || a.usefulness != 0
  }

  /** `annotations.filter(IsAnnotated).length`. */
  function AnnotatedCount(annotations: seq<Annotation>): (n: nat)
    ensures n <= |annotations|
  {
    if annotations == [] then 0
    else AnnotatedCount(annotations[..|annotations| - 1]) + (if IsAnnotated(annotations[|annotations| - 1]) then 1 else 0)
  }

  /** The count is the size of the set of annotated positions. */
  lemma {:induction false} AnnotatedCountCountsAnnotatedEntries(annotations: seq<Annotation>)
    ensures AnnotatedCount(annotations) == |set i | 0 <= i < |annotations| && IsAnnotated(annotations[i])|
  {
    if annotations != [] {
      var init := annotations[..|annotations| - 1];
      var last := |annotations| - 1;
      AnnotatedCountCountsAnnotatedEntries(init);
      var before := set i | 0 <= i < |init| && IsAnnotated(init[i]);
      var now := set i | 0 <= i < |annotations| && IsAnnotated(annotations[i]);
      if IsAnnotated(annotations[last]) {
        assert now == before + {last};
      } else {
        assert now == before;
      }
    }
  }

  /** The count equals the number of entries exactly when every entry has a non-zero score. */
  lemma {:induction false} AllAnnotatedIff(annotations: seq<Annotation>)
    ensures AnnotatedCount(annotations) == |annotations| <==> forall i :: 0 <= i < |annotations| ==> IsAnnotated(annotations[i])
  {
    if annotations != [] {
      var init := annotations[..|annotations| - 1];
      AllAnnotatedIff(init);
      assert forall i :: 0 <= i < |init| ==> init[i] == annotations[i];
    }
  }

  /** Labels do not count towards progress. */
  lemma LabelsDoNotAnnotate(a: Annotation, labels: Option<seq<Label>>)
    ensures IsAnnotated(a.(labels := labels)) == IsAnnotated(a)
  {
  }

  /** Freshly initialised annotations count as none annotated. */
  lemma {:induction false} InitialAnnotationsCountZero(summaries: seq<Summary>)
    ensures AnnotatedCount(InitialAnnotations(summaries)) == 0
  {
    if summaries != [] {
      InitialAnnotationsCountZero(summaries[..|summaries| - 1]);
      assert InitialAnnotations(summaries)[..|summaries| - 1] == InitialAnnotations(summaries[..|summaries| - 1]);
    }
  }

  // ---------------------------------------------------------------------------
  // Navigation: the arrow keys and the Previous/Next buttons

  /** One step back, never before the first summary. */
  function PreviousIndex(i: int): (j: int)
    ensures 0 <= j && (j == i - 1 || j == 0)
    ensures i > 0 ==> j == i - 1
  {
    if i - 1 > 0 then i - 1 else 0
  }

  /** One step forward, never past the last of `n` summaries. */
  function NextIndex(i: int, n: nat): (j: int)
    ensures j <= n - 1 && (j == i + 1 || j == n - 1)
    ensures i < n - 1 ==> j == i + 1
  {
    if i + 1 < n - 1 then i + 1 else n - 1
  }

  /**
   * Both moves keep a valid index valid, and each button is disabled exactly
   * where its move would leave the index where it is.
   */
  lemma NavigationStaysInRange(i: int, n: nat)
    requires 0 <= i < n
    ensures 0 <= PreviousIndex(i) < n && 0 <= NextIndex(i, n) < n
    ensures PreviousIndex(i) == i <==> i == 0
    ensures NextIndex(i, n) == i <==> i == n - 1
    ensures i != 0 ==> PreviousIndex(i) == i - 1
    ensures i != n - 1 ==> NextIndex(i, n) == i + 1
  {
  }

  // ---------------------------------------------------------------------------
  // The page state

  class Page {
    var summaries: seq<Summary>
    var currentIndex: int
    var annotations: seq<Annotation>

    constructor ()
      ensures summaries == [] && currentIndex == 0 && annotations == []
    {
      summaries := [];
      currentIndex := 0;
      annotations := [];
    }

    /** `setSummaries` followed by its effect: a non-empty list gets one blank annotation per summary. */
    method LoadSummaries(fetched: seq<Summary>)
      modifies this
      ensures summaries == fetched && currentIndex == old(currentIndex)
      ensures |fetched| > 0 ==> annotations == InitialAnnotations(fetched)
      ensures |fetched| == 0 ==> annotations == old(annotations)
    {
      summaries := fetched;
      if |fetched| > 0 {
        annotations := InitialAnnotations(fetched);
      }
    }

    /** `handleAnnotationChange`: the scores at `currentIndex` are replaced, that entry's labels kept. */
    method HandleAnnotationChange(newAnnotation: Annotation)
      requires 0 <= currentIndex < |annotations|
      modifies this
      ensures summaries == old(summaries) && currentIndex == old(currentIndex)
      ensures |annotations| == |old(annotations)|
      ensures forall a: AnnotationForm.Aspect ::
        AnnotationForm.Score(annotations[currentIndex], a) == AnnotationForm.Score(newAnnotation, a)
      ensures annotations[currentIndex].labels == Some(LabelsOf(old(annotations)[currentIndex]))
      ensures forall i :: 0 <= i < |annotations| && i != currentIndex ==> annotations[i] == old(annotations)[i]
    {
      var prev := annotations[currentIndex];
      annotations := annotations[currentIndex := newAnnotation.(labels := Some(LabelsOf(prev)))];
    }

    /** `handleAddLabel`: the new label goes at the end of the current entry's list. */
    method HandleAddLabel(labelType: string, selectedText: string, startIndex: int, endIndex: int)
      requires 0 <= currentIndex < |annotations|
      modifies this
      ensures summaries == old(summaries) && currentIndex == old(currentIndex)
      ensures |annotations| == |old(annotations)|
      ensures annotations[currentIndex] == old(annotations)[currentIndex].(labels :=
        Some(LabelsOf(old(annotations)[currentIndex]) + [SummaryDisplay.Label(selectedText, labelType, startIndex, endIndex)]))
      ensures forall i :: 0 <= i < |annotations| && i != currentIndex ==> annotations[i] == old(annotations)[i]
    {
      var current := annotations[currentIndex];
      var item := SummaryDisplay.Label(selectedText, labelType, startIndex, endIndex);
      annotations := annotations[currentIndex := current.(labels := Some(LabelsOf(current) + [item]))];
    }

    /** `handleDeleteLabel`: a present list (even an empty one) is filtered; a missing one is left alone. */
    method HandleDeleteLabel(labelIndex: int)
      requires 0 <= currentIndex < |annotations|
      modifies this
      ensures summaries == old(summaries) && currentIndex == old(currentIndex)
      ensures old(annotations)[currentIndex].labels.Some? ==>
        annotations == old(annotations)[currentIndex :=
          old(annotations)[currentIndex].(labels := Some(Without(old(annotations)[currentIndex].labels.value, labelIndex)))]
      ensures old(annotations)[currentIndex].labels.None? ==> annotations == old(annotations)
    {
      var current := annotations[currentIndex];
      if current.labels.Some? {
        annotations := annotations[currentIndex := current.(labels := Some(Without(current.labels.value, labelIndex)))];
      }
    }

    /** ArrowLeft and the Previous button. */
    method Previous()
      modifies this
      ensures currentIndex == PreviousIndex(old(currentIndex))
      ensures summaries == old(summaries) && annotations == old(annotations)
    {
      currentIndex := PreviousIndex(currentIndex);
    }

    /** ArrowRight and the Next button. */
    method Next()
      modifies this
      ensures currentIndex == NextIndex(old(currentIndex), |summaries|)
      ensures summaries == old(summaries) && annotations == old(annotations)
    {
      currentIndex := NextIndex(currentIndex, |summaries|);
    }

    /** The navigation bar's `onNavigate`, which is `setCurrentIndex` itself. */
    method NavigateTo(index: int)
      modifies this
      ensures currentIndex == index
      ensures summaries == old(summaries) && annotations == old(annotations)
    {
      currentIndex := index;
    }

    /** The progress line: how many entries have a non-zero score, and whether that is all of them. */
    method Progress() returns (annotatedCount: nat, isAllAnnotated: bool)
      ensures annotatedCount == |set i | 0 <= i < |annotations| && IsAnnotated(annotations[i])|
      ensures annotatedCount <= |annotations|
      ensures isAllAnnotated <==> annotatedCount == |summaries|
      ensures |annotations| == |summaries| ==>
        (isAllAnnotated <==> forall i :: 0 <= i < |annotations| ==> IsAnnotated(annotations[i]))
    {
      annotatedCount := AnnotatedCount(annotations);
      isAllAnnotated := annotatedCount == |summaries|;
      AllAnnotatedIff(annotations);
      AnnotatedCountCountsAnnotatedEntries(annotations);
    }
  }
}
