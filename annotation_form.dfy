/**
 * The rating form under each summary: four aspects scored 1 to 5, a
 * completion predicate gating the submit button, and the `ratings` state that
 * follows the page's annotation for the current summary.
 */
module AnnotationForm {
  import opened Maybe
  import SummaryDisplay

  /** The scored aspects, `keyof typeof initialState`, in the order the form lists them. */
  datatype Aspect = Comprehensiveness | Layness | Factuality | Usefulness

  const Aspects: seq<Aspect> := [Comprehensiveness, Layness, Factuality, Usefulness]

  /**
   * The `ratings` object. Its declared type has only the four scores, but the
   * page hands the form its whole annotation entry, so at run time the object
   * may also carry a `labels` key (None: the key is absent).
   */
  datatype Ratings = Ratings(
    comprehensiveness: int,
    layness: int,
    factuality: int,
    usefulness: int,
    labels: Option<seq<SummaryDisplay.Label>>)

  /** `initialState`: every score 0 and no labels key. */
  const InitialState := Ratings(0, 0, 0, 0, None)

  /** The radio buttons offered for each aspect. */
  const SelectableRatings: seq<int> := [1, 2, 3, 4, 5]

  /** `ratings[aspect]`. */
  function Score(r: Ratings, a: Aspect): int {
    match a
    case Comprehensiveness => r.comprehensiveness
    case Layness => r.layness
    case Factuality => r.factuality
    case Usefulness => r.usefulness
  }

  /** `{ ...r, [a]: v }`: only aspect `a` changes; the other scores and the labels stay. */
  function WithScore(r: Ratings, a: Aspect, v: int): (r': Ratings)
    ensures Score(r', a) == v
    ensures forall b: Aspect :: b != a ==> Score(r', b) == Score(r, b)
    ensures r'.labels == r.labels
  {
    match a
    case Comprehensiveness => r.(comprehensiveness := v)
    case Layness => r.(layness := v)
    case Factuality => r.(factuality := v)
    case Usefulness => r.(usefulness := v)
  }

  predicate InRange(v: int) {
    1 <= v <= 5
  }

  /** `fields.every(field => ratings[field] >= 1 && ratings[field] <= 5)`. */
  function EveryInRange(r: Ratings, fields: seq<Aspect>): (ok: bool)
    ensures ok <==> forall i :: 0 <= i < |fields| ==> InRange(Score(r, fields[i]))
  {
    fields == [] || (InRange(Score(r, fields[0])) && EveryInRange(r, fields[1..]))
  }

  /** `isFormComplete`: the four named scores are all in 1..5 and every summary is annotated. */
  function IsFormComplete(r: Ratings, isAllAnnotated: bool): (complete: bool)
    ensures complete <==> isAllAnnotated && forall a: Aspect :: InRange(Score(r, a))
  {
    var complete := EveryInRange(r, Aspects);
    assert Aspects[0] == Comprehensiveness && Aspects[1] == Layness;
    assert Aspects[2] == Factuality && Aspects[3] == Usefulness;
    complete && isAllAnnotated
  }

  /** Whatever labels the object carries, completeness depends only on the four scores. */
  lemma CompletenessIgnoresLabels(r: Ratings, labels: Option<seq<SummaryDisplay.Label>>, isAllAnnotated: bool)
    ensures IsFormComplete(r.(labels := labels), isAllAnnotated) == IsFormComplete(r, isAllAnnotated)
  {
    assert forall a: Aspect :: Score(r.(labels := labels), a) == Score(r, a);
  }

  /** The initial state is never complete. */
  lemma InitialStateIncomplete(isAllAnnotated: bool)
    ensures !IsFormComplete(InitialState, isAllAnnotated)
  {
    assert !InRange(Score(InitialState, Comprehensiveness));
  }

  /** The values the radio buttons offer are exactly the accepted scores. */
  lemma SelectableRatingsAreTheAcceptedScores(v: int)
    ensures v in SelectableRatings <==> InRange(v)
  {
    if InRange(v) {
      assert v == SelectableRatings[v - 1];
    }
  }

  /** Choosing a rating for each aspect in turn, from any state, completes the form once every summary is annotated. */
  lemma RatingEveryAspectCompletes(r: Ratings, c: int, l: int, f: int, u: int)
    requires InRange(c) && InRange(l) && InRange(f) && InRange(u)
    ensures var rated := WithScore(WithScore(WithScore(WithScore(r, Comprehensiveness, c), Layness, l), Factuality, f), Usefulness, u);
      IsFormComplete(rated, true) && rated.labels == r.labels
  {
    var r1 := WithScore(r, Comprehensiveness, c);
    var r2 := WithScore(r1, Layness, l);
    var r3 := WithScore(r2, Factuality, f);
    var r4 := WithScore(r3, Usefulness, u);
    assert Score(r4, Comprehensiveness) == c;
    assert Score(r4, Layness) == l;
    assert Score(r4, Factuality) == f;
  }

  // ---------------------------------------------------------------------------
  // The submit button's hint

  /**
   * Whether an `Object.values(ratings)` entry for the labels key passes
   * `rating >= 1 && rating <= 5`: an array compares as its joined string, ""
   * (the number 0) or "[object Object],..." (NaN), so it never does; an absent
   * key is not visited.
   */
  predicate LabelsValueInRange(labels: Option<seq<SummaryDisplay.Label>>) {
    labels.None?
  }

  /** The hint as written: it tests every value of the object, the labels array included. */
  function HintAsWritten(r: Ratings, isAllAnnotated: bool): (h: Option<string>)
    ensures h.None? <==> IsFormComplete(r, isAllAnnotated)
    ensures h.Some? ==> h.value == "Waiting for all summaries" || h.value == "Complete all ratings"
    ensures h == Some("Waiting for all summaries") ==> r.labels.None?
  {
    if IsFormComplete(r, isAllAnnotated) then None
    else if EveryInRange(r, Aspects) && LabelsValueInRange(r.labels) then Some("Waiting for all summaries")
    else Some("Complete all ratings")
  }

  /** The hint tests only the four rating fields, as the completion predicate does. */
  function Hint(r: Ratings, isAllAnnotated: bool): (h: Option<string>)
    ensures h.None? <==> IsFormComplete(r, isAllAnnotated)
    ensures h.Some? ==> h.value == "Waiting for all summaries" || h.value == "Complete all ratings"
    ensures h == Some("Complete all ratings") ==> !EveryInRange(r, Aspects)
  {
    if IsFormComplete(r, isAllAnnotated) then None
    else if EveryInRange(r, Aspects) then Some("Waiting for all summaries")
    else Some("Complete all ratings")
  }

  /**
   * With all four aspects rated but some summary still unannotated, the page's
   * annotation object (which carries `labels: []`) gets the hint "Complete all
   * ratings".
   */
  lemma HintAsWrittenAsksForRatingsAlreadyGiven()
    ensures var r := Ratings(3, 3, 3, 3, Some([]));
      (forall a: Aspect :: InRange(Score(r, a)))
      && HintAsWritten(r, false) == Some("Complete all ratings")
  {
  }

  /**
   * The hint as written, for every input: "Waiting for all summaries" only for
   * an object without `labels`; with `labels` present, an incomplete form is
   * always told "Complete all ratings".
   */
  lemma HintAsWrittenCases(r: Ratings, isAllAnnotated: bool)
    ensures HintAsWritten(r, isAllAnnotated) == None <==> IsFormComplete(r, isAllAnnotated)
    ensures HintAsWritten(r, isAllAnnotated) == Some("Waiting for all summaries") <==>
      !isAllAnnotated && (forall a: Aspect :: InRange(Score(r, a))) && r.labels.None?
    ensures HintAsWritten(r, isAllAnnotated) == Some("Complete all ratings") <==>
      (exists a: Aspect :: !InRange(Score(r, a))) || (!isAllAnnotated && r.labels.Some?)
  {
    assert Aspects[0] == Comprehensiveness && Aspects[1] == Layness;
    assert Aspects[2] == Factuality && Aspects[3] == Usefulness;
    assert "Waiting for all summaries" != "Complete all ratings";
  }

  /**
   * The two hints disagree exactly on an object that carries `labels`, has all
   * four aspects rated, and waits for other summaries: the page's own objects
   * in that situation get the wrong message.
   */
  lemma HintAsWrittenDiffersFromHint(r: Ratings, isAllAnnotated: bool)
    ensures HintAsWritten(r, isAllAnnotated) != Hint(r, isAllAnnotated) <==>
      r.labels.Some? && !isAllAnnotated && forall a: Aspect :: InRange(Score(r, a))
  {
    HintAsWrittenCases(r, isAllAnnotated);
    HintExplainsIncompleteness(r, isAllAnnotated);
  }

  /** The hint names the reason the form is incomplete: no hint iff complete, "waiting" iff only other summaries are missing. */
  lemma HintExplainsIncompleteness(r: Ratings, isAllAnnotated: bool)
    ensures Hint(r, isAllAnnotated) == None <==> IsFormComplete(r, isAllAnnotated)
    ensures Hint(r, isAllAnnotated) == Some("Waiting for all summaries") <==>
      !isAllAnnotated && forall a: Aspect :: InRange(Score(r, a))
    ensures Hint(r, isAllAnnotated) == Some("Complete all ratings") <==>
      exists a: Aspect :: !InRange(Score(r, a))
  {
    assert Aspects[0] == Comprehensiveness && Aspects[1] == Layness;
    assert Aspects[2] == Factuality && Aspects[3] == Usefulness;
    assert "Waiting for all summaries" != "Complete all ratings";
  }

  // ---------------------------------------------------------------------------
  // The `ratings` state

  class Form {
    var ratings: Ratings

    /** `useState(initialAnnotation)`. */
    constructor (initialAnnotation: Ratings)
      ensures ratings == initialAnnotation
    {
      ratings := initialAnnotation;
    }

    /** The effect on `initialAnnotation`: the state is replaced by the new prop. */
    method Reset(initialAnnotation: Ratings)
      modifies this
      ensures ratings == initialAnnotation
    {
      ratings := initialAnnotation;
    }

    /** `handleRatingChange`: sets one aspect and forwards the new ratings to `onAnnotationChange`. */
    method HandleRatingChange(aspect: Aspect, rating: int) returns (forwarded: Ratings)
      modifies this
      ensures ratings == WithScore(old(ratings), aspect, rating)
      ensures forwarded == ratings
    {
      var newRatings := WithScore(ratings, aspect, rating);
      forwarded := newRatings;
      ratings := newRatings;
    }

    /**
     * The submit button: disabled unless complete, with the hint beside it as
     * the component computes it, so an object carrying `labels` is always told
     * to complete its ratings.
     */
    method SubmitButton(isAllAnnotated: bool) returns (disabled: bool, hint: Option<string>)
      ensures disabled <==> !(isAllAnnotated && forall a: Aspect :: InRange(Score(ratings, a)))
      ensures hint.None? <==> !disabled
      ensures hint == Some("Waiting for all summaries") <==>
        !isAllAnnotated && (forall a: Aspect :: InRange(Score(ratings, a))) && ratings.labels.None?
      ensures hint == Some("Complete all ratings") <==>
        (exists a: Aspect :: !InRange(Score(ratings, a))) || (!isAllAnnotated && ratings.labels.Some?)
    {
      disabled := !IsFormComplete(ratings, isAllAnnotated);
      hint := HintAsWritten(ratings, isAllAnnotated);
      HintAsWrittenCases(ratings, isAllAnnotated);
    }
  }
}
