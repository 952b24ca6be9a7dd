/**
 * `POST /api/ranking`: a signed-in user submits the ranks 1, 2 and 3 for the
 * three summaries (target, baseline, agenetic) of one ranking task. The body
 * is checked in a fixed order before the task is looked up; the database
 * lookup and writes are inputs and outputs of the model.
 */
module RankingRoute {
  import opened Maybe

  /**
   * A value read from the JSON body; `Undefined` is a missing key, and
   * `Compound` an array or object, compared by reference in JavaScript.
   */
  datatype JsValue = Undefined | Null | Bool(b: bool) | Num(x: real) | Str(s: string) | Compound(ref: nat)

  /** JavaScript truthiness (JSON holds no NaN). */
  predicate Truthy(v: JsValue) {
    match v
    case Undefined => false
    case Null => false
    case Bool(b) => b
    case Num(x) => x != 0.0
    case Str(s) => s != []
    case Compound(_) => true
  }

  /** The destructured request body. */
  datatype Body = Body(taskId: JsValue, targetRank: JsValue, baselineRank: JsValue, ageneticRank: JsValue, markCompleted: JsValue)

  /** The user's ranking task as the database holds it. */
  datatype Task = Task(completed: bool)

  /** The JSON response; a success also says whether the task's `completed` column is written. */
  datatype Response =
    | Failure(status: int, error: string)
    | Success(completed: JsValue, writesCompleted: bool)

  const ValidRanks: seq<JsValue> := [Num(1.0), Num(2.0), Num(3.0)]

  function Ranks(body: Body): seq<JsValue> {
    [body.targetRank, body.baselineRank, body.ageneticRank]
  }

  /** `markCompleted = false`: the default applies to a missing key only. */
  function MarkCompleted(body: Body): JsValue {
    if body.markCompleted == Undefined then Bool(false) else body.markCompleted
  }

  /** `new Set(values)`: values equal under SameValueZero collapse (the set is only reached with numbers). */
  function ToSet(values: seq<JsValue>): set<JsValue> {
    set v | v in values
  }

  /**
   * The three body checks in their order; the first failing one names the
   * error. The body passes exactly when the task id is truthy and the three
   * ranks are valid and pairwise different.
   */
  function ValidationError(body: Body): (err: Option<string>)
    ensures err.None? <==>
      var t, b, a := body.targetRank, body.baselineRank, body.ageneticRank;
      Truthy(body.taskId) && t in ValidRanks && b in ValidRanks && a in ValidRanks && t != b && b != a && t != a
    ensures err.Some? ==>
      err.value in ["Missing required fields", "Ranks must be 1, 2, or 3", "Each summary must have a unique rank"]
  {
    assert Ranks(body) == [body.targetRank, body.baselineRank, body.ageneticRank];
    ThreeSetSize(body.targetRank, body.baselineRank, body.ageneticRank);
    assert Undefined !in ValidRanks;
    if !Truthy(body.taskId) || body.targetRank == Undefined || body.baselineRank == Undefined || body.ageneticRank == Undefined then
      Some("Missing required fields")
    else if !(forall rank :: rank in Ranks(body) ==> rank in ValidRanks) then
      Some("Ranks must be 1, 2, or 3")
    else if |ToSet(Ranks(body))| != |Ranks(body)| then
      Some("Each summary must have a unique rank")
    else
      None
  }

  /** `markCompleted || task.completed`: the first operand itself when it is truthy. */
  function Completed(markCompleted: JsValue, taskCompleted: bool): (c: JsValue)
    ensures Truthy(c) <==> Truthy(markCompleted) || taskCompleted
    ensures Truthy(markCompleted) ==> c == markCompleted
    ensures !Truthy(markCompleted) ==> c == Bool(taskCompleted)
  {
    if Truthy(markCompleted) then markCompleted else Bool(taskCompleted)
  }

  /** The POST handler, with the session check and the task lookup given as inputs. */
  function Post(authenticated: bool, body: Body, task: Option<Task>): (r: Response)
    ensures !authenticated ==> r == Failure(401, "Unauthorized")
    ensures authenticated && ValidationError(body).Some? ==> r == Failure(400, ValidationError(body).value)
    ensures authenticated && ValidationError(body).None? && task.None? ==> r == Failure(404, "Ranking task not found")
    ensures authenticated && ValidationError(body).None? && task.Some? ==> r.Success?
    ensures r.Success? ==> authenticated && task.Some? && ValidationError(body).None?
    ensures r.Success? ==> (Truthy(r.completed) <==> Truthy(MarkCompleted(body)) || task.value.completed)
    ensures r.Success? && Truthy(MarkCompleted(body)) ==> r.completed == MarkCompleted(body)
    ensures r.Success? && !Truthy(MarkCompleted(body)) ==> r.completed == Bool(task.value.completed)
    ensures r.Success? ==> r.completed == Completed(MarkCompleted(body), task.value.completed)
    ensures r.Success? ==> (r.writesCompleted <==> Truthy(MarkCompleted(body)))
  {
    if !authenticated then Failure(401, "Unauthorized")
    else if ValidationError(body).Some? then Failure(400, ValidationError(body).value)
    else if task.None? then Failure(404, "Ranking task not found")
    else Success(Completed(MarkCompleted(body), task.value.completed), Truthy(MarkCompleted(body)))
  }

  // ---------------------------------------------------------------------------
  // What the checks accept

  lemma ThreeSetSize(a: JsValue, b: JsValue, c: JsValue)
    ensures ToSet([a, b, c]) == {a, b, c}
    ensures |{a, b, c}| == 3 <==> a != b && b != c && a != c
  {
    var s := [a, b, c];
    assert forall v :: v in s <==> v == a || v == b || v == c;
    if a == b {
      assert {a, b, c} == {a, c};
    } else if b == c {
      assert {a, b, c} == {a, b};
    } else if a == c {
      assert {a, b, c} == {a, b};
    }
  }

  /** Three pairwise different values drawn from three pairwise different ones are those three in some order. */
  lemma DistinctFromThree<T>(a: T, b: T, c: T, x: T, y: T, z: T)
    requires x != y && y != z && x != z
    requires (a == x || a == y || a == z) && (b == x || b == y || b == z) && (c == x || c == y || c == z)
    requires a != b && b != c && a != c
    ensures multiset([a, b, c]) == multiset([x, y, z])
  {
    var m1, m2 := multiset([a, b, c]), multiset([x, y, z]);
    forall v ensures m1[v] == m2[v] {
      assert m1[v] == (if a == v then 1 else 0) + (if b == v then 1 else 0) + (if c == v then 1 else 0);
      assert m2[v] == (if x == v then 1 else 0) + (if y == v then 1 else 0) + (if z == v then 1 else 0);
    }
    assert m1 == m2;
  }

  /** Three pairwise different values drawn from {1, 2, 3} are 1, 2 and 3 in some order. */
  lemma DistinctRanksArePermutation(a: JsValue, b: JsValue, c: JsValue)
    requires a in ValidRanks && b in ValidRanks && c in ValidRanks
    requires a != b && b != c && a != c
    ensures multiset([a, b, c]) == multiset(ValidRanks)
  {
    DistinctFromThree(a, b, c, Num(1.0), Num(2.0), Num(3.0));
  }

  /** Conversely, 1, 2 and 3 in any order are three different valid ranks. */
  lemma PermutationHasDistinctRanks(a: JsValue, b: JsValue, c: JsValue)
    requires multiset([a, b, c]) == multiset(ValidRanks)
    ensures a in ValidRanks && b in ValidRanks && c in ValidRanks
    ensures a != b && b != c && a != c
  {
    var m := multiset(ValidRanks);
    assert ValidRanks == [Num(1.0), Num(2.0), Num(3.0)];
    assert a in multiset([a, b, c]) && b in multiset([a, b, c]) && c in multiset([a, b, c]);
    assert forall v :: m[v] <= 1;
  }

  /** The body passes every check exactly when the task id is truthy and the ranks are 1, 2, 3 in some order. */
  lemma ValidationAcceptsExactlyPermutations(body: Body)
    ensures ValidationError(body).None? <==>
      Truthy(body.taskId) && multiset(Ranks(body)) == multiset(ValidRanks)
  {
    var t, b, a := body.targetRank, body.baselineRank, body.ageneticRank;
    if Truthy(body.taskId) {
      if ValidationError(body).None? {
        DistinctRanksArePermutation(t, b, a);
      }
      if multiset(Ranks(body)) == multiset(ValidRanks) {
        PermutationHasDistinctRanks(t, b, a);
      }
    }
  }

  /** Some required field is falsy (the task id) or missing (a rank). */
  predicate Missing(body: Body) {
    !Truthy(body.taskId) || body.targetRank == Undefined || body.baselineRank == Undefined || body.ageneticRank == Undefined
  }

  /**
   * Each error message is given exactly when its check is the first to fail:
   * a missing field, then a rank outside {1, 2, 3}, then two equal ranks.
   */
  lemma ValidationErrorOrder(body: Body)
    ensures ValidationError(body) == Some("Missing required fields") <==> Missing(body)
    ensures ValidationError(body) == Some("Ranks must be 1, 2, or 3") <==>
      !Missing(body) && exists rank :: rank in Ranks(body) && rank !in ValidRanks
    ensures ValidationError(body) == Some("Each summary must have a unique rank") <==>
      && !Missing(body) && (forall rank :: rank in Ranks(body) ==> rank in ValidRanks)
      && (body.targetRank == body.baselineRank || body.baselineRank == body.ageneticRank || body.targetRank == body.ageneticRank)
  {
    assert Ranks(body) == [body.targetRank, body.baselineRank, body.ageneticRank];
    ThreeSetSize(body.targetRank, body.baselineRank, body.ageneticRank);
    assert "Missing required fields" != "Ranks must be 1, 2, or 3";
    assert "Missing required fields" != "Each summary must have a unique rank";
    assert "Ranks must be 1, 2, or 3" != "Each summary must have a unique rank";
  }

  /** A rank outside {1, 2, 3} is refused with 400, whatever the other fields hold, once nothing is missing. */
  lemma OutOfRangeRankRefused(body: Body, task: Option<Task>)
    requires Truthy(body.taskId)
    requires body.targetRank != Undefined && body.baselineRank != Undefined && body.ageneticRank != Undefined
    requires exists rank :: rank in Ranks(body) && rank !in ValidRanks
    ensures Post(true, body, task) == Failure(400, "Ranks must be 1, 2, or 3")
  {
  }

  /**
   * The body is judged before the task is looked up: an invalid body gets the
   * same 400 whatever the lookup would find, and a 404 only ever follows a
   * valid body.
   */
  lemma ValidationPrecedesLookup(body: Body, task1: Option<Task>, task2: Option<Task>)
    ensures ValidationError(body).Some? ==>
      Post(true, body, task1) == Post(true, body, task2) && Post(true, body, task1).Failure? && Post(true, body, task1).status == 400
    ensures Post(true, body, task1) == Failure(404, "Ranking task not found") <==>
      ValidationError(body).None? && task1.None?
  {
  }

  /** Without `markCompleted` the task is not written and the reported flag is the stored one. */
  lemma MarkCompletedDefaultsToFalse(body: Body, task: Task)
    requires body.markCompleted == Undefined
    requires ValidationError(body).None?
    ensures Post(true, body, Some(task)) == Success(Bool(task.completed), false)
  {
  }
}
