/**
 * The script that gives a user every summary of the abstract groups of one
 * level: groups with exactly three summaries that the user does not have yet
 * become one assignment per summary, written in batches of fifty. The
 * database queries are inputs; the batches to be written are the output.
 */
module AssignGroupSummaries {
  import opened Maybe
  import opened JsBuiltins

  datatype GroupSummary = GroupSummary(id: string, summaryType: string)

  /** An abstract group of the requested level with its summaries. */
  datatype AbstractGroup = AbstractGroup(id: string, level: string, summaries: seq<GroupSummary>)

  /** One `UserGroup` row to create (its uuid and timestamp are not modelled). */
  datatype Assignment = Assignment(userId: string, summaryId: string, abstractId: string, completed: bool)

  const BatchSize: nat := 50

  const ValidLevels: seq<string> := ["LAYMAN", "PREMED", "RESEARCHER", "EXPERT"]

  // ---------------------------------------------------------------------------
  // The two filters

  /** `groups.filter(g => g.summaries.length === 3)`. */
  function WithExactlyThree(groups: seq<AbstractGroup>): (r: seq<AbstractGroup>)
    ensures forall g :: g in r <==> g in groups && |g.summaries| == 3
    ensures |r| <= |groups|
  {
    if groups == [] then []
    else (if |groups[0].summaries| == 3 then [groups[0]] else []) + WithExactlyThree(groups[1..])
  }

  /** `groups.filter(g => !existingAbstractIds.has(g.id))`. */
  function NotYetAssigned(groups: seq<AbstractGroup>, existingAbstractIds: set<string>): (r: seq<AbstractGroup>)
    ensures forall g :: g in r <==> g in groups && g.id !in existingAbstractIds
    ensures |r| <= |groups|
  {
    if groups == [] then []
    else (if groups[0].id !in existingAbstractIds then [groups[0]] else []) + NotYetAssigned(groups[1..], existingAbstractIds)
  }

  /** Both filters keep the order of what they keep: filtering a concatenation filters each part. */
  lemma {:induction false} FiltersDistribute(a: seq<AbstractGroup>, b: seq<AbstractGroup>, existingAbstractIds: set<string>)
    ensures WithExactlyThree(a + b) == WithExactlyThree(a) + WithExactlyThree(b)
    ensures NotYetAssigned(a + b, existingAbstractIds) == NotYetAssigned(a, existingAbstractIds) + NotYetAssigned(b, existingAbstractIds)
  {
    if a != [] {
      assert (a + b)[1..] == a[1..] + b;
      FiltersDistribute(a[1..], b, existingAbstractIds);
    } else {
      assert a + b == b;
    }
  }

  // ---------------------------------------------------------------------------
  // The assignments

  /** `group.summaries.map(summary => ({ ... }))`. */
  function GroupAssignments(userId: string, group: AbstractGroup): (r: seq<Assignment>)
    ensures |r| == |group.summaries|
    ensures forall s :: 0 <= s < |r| ==> r[s] == Assignment(userId, group.summaries[s].id, group.id, false)
  {
    seq(|group.summaries|, s requires 0 <= s < |group.summaries| => Assignment(userId, group.summaries[s].id, group.id, false))
  }

  /** The assignments of the groups, group after group. */
  function AssignmentsFor(userId: string, groups: seq<AbstractGroup>): seq<Assignment> {
    if groups == [] then [] else AssignmentsFor(userId, groups[..|groups| - 1]) + GroupAssignments(userId, groups[|groups| - 1])
  }

  /** The `for ... of` loop pushing each group's assignments. */
  method BuildAssignments(userId: string, groups: seq<AbstractGroup>) returns (assignments: seq<Assignment>)
    ensures assignments == AssignmentsFor(userId, groups)
  {
    assignments := [];
    for j := 0 to |groups|
      invariant assignments == AssignmentsFor(userId, groups[..j])
    {
      assert groups[..j + 1][..j] == groups[..j];
      assignments := assignments + GroupAssignments(userId, groups[j]);
    }
    assert groups[..|groups|] == groups;
  }

  /**
   * With three summaries per group, the assignments come three per group in
   * group order: position `3 * j + s` is summary `s` of group `j`, not yet
   * completed.
   */
  lemma {:induction false} AssignmentsOfThrees(userId: string, groups: seq<AbstractGroup>)
    requires forall g :: g in groups ==> |g.summaries| == 3
    ensures |AssignmentsFor(userId, groups)| == 3 * |groups|
    ensures forall j, s :: 0 <= j < |groups| && 0 <= s < 3 ==>
      AssignmentsFor(userId, groups)[3 * j + s] == Assignment(userId, groups[j].summaries[s].id, groups[j].id, false)
  {
    if groups != [] {
      var init := groups[..|groups| - 1];
      AssignmentsOfThrees(userId, init);
      var last := groups[|groups| - 1];
      assert |GroupAssignments(userId, last)| == 3;
      forall j, s | 0 <= j < |groups| && 0 <= s < 3
        ensures AssignmentsFor(userId, groups)[3 * j + s] == Assignment(userId, groups[j].summaries[s].id, groups[j].id, false)
      {
        if j < |groups| - 1 {
          assert init[j] == groups[j];
        }
      }
    }
  }

  /** Every assignment is one of the user's, uncompleted, for a summary of one of the groups. */
  lemma {:induction false} AssignmentsComeFromGroups(userId: string, groups: seq<AbstractGroup>, a: Assignment)
    requires a in AssignmentsFor(userId, groups)
    ensures a.userId == userId && !a.completed
    ensures exists g :: g in groups && a.abstractId == g.id && exists s :: s in g.summaries && s.id == a.summaryId
  {
    var init := groups[..|groups| - 1];
    var last := groups[|groups| - 1];
    if a in AssignmentsFor(userId, init) {
      AssignmentsComeFromGroups(userId, init, a);
      var g :| g in init && a.abstractId == g.id && exists s :: s in g.summaries && s.id == a.summaryId;
      assert g in groups;
    } else {
      var r := GroupAssignments(userId, last);
      var k :| 0 <= k < |r| && r[k] == a;
      assert last.summaries[k] in last.summaries;
    }
  }

  // ---------------------------------------------------------------------------
  // Batches

  function Flatten<T>(batches: seq<seq<T>>): seq<T> {
    if batches == [] then [] else Flatten(batches[..|batches| - 1]) + batches[|batches| - 1]
  }

  /** `Math.ceil(n / batchSize)`. */
  function BatchCount(n: nat): (count: nat)
    ensures count * BatchSize >= n
    ensures count > 0 ==> (count - 1) * BatchSize < n
  {
    (n + BatchSize - 1) / BatchSize
  }

  /** The counted loop slicing the list into batches of fifty: the batches partition the list. */
  method MakeBatches<T>(items: seq<T>) returns (batches: seq<seq<T>>)
    ensures |batches| == BatchCount(|items|)
    ensures forall i :: 0 <= i < |batches| ==> 0 < |batches[i]| <= BatchSize
    ensures Flatten(batches) == items
  {
    var count := BatchCount(|items|);
    batches := [];
    for i := 0 to count
      invariant |batches| == i
      invariant forall k :: 0 <= k < i ==> 0 < |batches[k]| <= BatchSize
      invariant Flatten(batches) == items[..if i * BatchSize <= |items| then i * BatchSize else |items|]
    {
      assert i * BatchSize <= (count - 1) * BatchSize < |items|;
      var batch := Slice(items, i * BatchSize, (i + 1) * BatchSize);
      if (i + 1) * BatchSize <= |items| {
        assert batch == items[i * BatchSize..(i + 1) * BatchSize];
        assert items[..(i + 1) * BatchSize] == items[..i * BatchSize] + batch;
      } else {
        SliceToPastEnd(items, i * BatchSize, (i + 1) * BatchSize);
        assert items[..|items|] == items[..i * BatchSize] + batch;
      }
      assert (batches + [batch])[..i] == batches;
      batches := batches + [batch];
    }
    assert items[..|items|] == items;
  }

  // ---------------------------------------------------------------------------
  // The whole run

  /** How a run ends: an early return, or the batches to create. */
  datatype Outcome =
    | UserNotFound
    | NoGroupsWithThree
    | NothingAvailable
    | Created(batches: seq<seq<Assignment>>)

  /**
   * `assignGroupSummaries`, given the user the e-mail finds, the groups of the
   * level, and the ids of the abstracts the user already has.
   */
  method AssignGroups(userId: Option<string>, groupsOfLevel: seq<AbstractGroup>, existingAbstractIds: set<string>)
    returns (outcome: Outcome)
    ensures outcome == UserNotFound <==> userId.None?
    ensures outcome == NoGroupsWithThree <==> userId.Some? && WithExactlyThree(groupsOfLevel) == []
    ensures outcome == NothingAvailable <==>
      userId.Some? && WithExactlyThree(groupsOfLevel) != [] && NotYetAssigned(WithExactlyThree(groupsOfLevel), existingAbstractIds) == []
    ensures outcome.Created? ==>
      var available := NotYetAssigned(WithExactlyThree(groupsOfLevel), existingAbstractIds);
      && available != []
      && Flatten(outcome.batches) == AssignmentsFor(userId.value, available)
      && |Flatten(outcome.batches)| == 3 * |available|
      && |outcome.batches| == BatchCount(3 * |available|)
      && (forall i :: 0 <= i < |outcome.batches| ==> 0 < |outcome.batches[i]| <= BatchSize)
  {
    if userId.None? {
      return UserNotFound;
    }
    var eligible := WithExactlyThree(groupsOfLevel);
    if |eligible| == 0 {
      return NoGroupsWithThree;
    }
    var available := NotYetAssigned(eligible, existingAbstractIds);
    if |available| == 0 {
      return NothingAvailable;
    }
    var assignments := BuildAssignments(userId.value, available);
    AssignmentsOfThrees(userId.value, available);
    var batches := MakeBatches(assignments);
    outcome := Created(batches);
  }

  // ---------------------------------------------------------------------------
  // The command line

  datatype Command = Run(userEmail: string, level: string) | Exit(code: int)

  /** The argument checks: an e-mail and a level after the interpreter and the script, and a known level. */
  function ParseArguments(argv: seq<string>): (c: Command)
    ensures c.Run? <==> |argv| >= 4 && argv[3] in ValidLevels
    ensures c.Run? ==> c.userEmail == argv[2] && c.level == argv[3]
    ensures c.Exit? ==> c.code == 1
  {
    if |argv| < 4 then Exit(1)
    else if argv[3] !in ValidLevels then Exit(1)
    else Run(argv[2], argv[3])
  }
}
