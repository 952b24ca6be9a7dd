# Annotator group: a verified model of the annotation and ranking core

Annotator group is a small web application where annotators read biomedical
abstracts and their lay summaries. For each summary they:

- rate four aspects (comprehensiveness, layness, factuality and usefulness) from 1 to 5;
- mark spans of the summary with error labels ("Omission", "Contradiction", ...).

They also rank triples of summaries on a separate ranking page. Two command-line
scripts fill the database: one imports summaries from a CSV file, and one hands
a user every summary of the abstract groups of one level.

This Dafny project models the parts of the application that compute something:

| module | file | models |
|---|---|---|
| `SummaryDisplay` | `summary_display.dfy` | the summary pane: highlighted rendering, selection offsets, the pending selection |
| `AnnotatePage` | `annotate_page.dfy` | the annotation page's state: summaries, current index, one annotation per summary |
| `AnnotationForm` | `annotation_form.dfy` | the rating form: completion, single-aspect updates, the submit hint |
| `NavigationBar` | `navigation_bar.dfy` | the pager's page numbers, ellipses and arrow buttons |
| `RankingRoute` | `ranking_route.dfy` | `POST /api/ranking`: body checks, their order, the `completed` flag |
| `RankingPage` | `ranking_page.dfy` | the ranking page: three items a page, radio choices, submit gating |
| `AssignGroupSummaries` | `assign_group_summaries.dfy` | the group-assignment script: filters, assignments, batches of 50, arguments |
| `ImportSummaries` | `import_summaries.dfy` | the import script: one row per filled-in level column |
| `GoogleSheets` | `google_sheets.dfy` | the category-to-sheet mapping and the sheet-row parser |
| `Middleware` | `middleware.dfy` | the redirect decision for the login, signup and annotate pages |
| `JsBuiltins` | `js_builtins.dfy` | `slice` (clamping, negative indices), `trim` (the ECMAScript white-space set), `startsWith` |
| `StableSort` | `stable_sort.dfy` | `Array.prototype.sort` with a numeric comparator: stable, sorted, a permutation |
| `Maybe` | `maybe.dfy` | `Option` |

The models follow each file's own form:

- State that React keeps with `useState` is a class. Each handler is a method with a `modifies` clause, and it states the whole new state.
- Loops stay loops, each proved against a specification function:
  - the `forEach` of `renderHighlightedText`;
  - the tree walk of `getAbsoluteOffset`;
  - the `for` loop of `getPageNumbers`;
  - the assignment and batching loops;
  - the conditional pushes of the import script.
- Pure expressions are functions.

The DOM is abstracted as the sequence of the summary container's text nodes in
document order. A selection endpoint names its container by its position in
that sequence.

`renderHighlightedText` is modelled as written. `lastIndex` is overwritten by
the end of each label in start order; it is not a running maximum. So, for
labels that each cover some text of the summary, the rendering spells the
summary exactly when no two labels overlap (`RenderIsLossless`,
`RenderLosslessIffApart`). Any overlap repeats text and makes the output longer
than the summary (`RenderSortedLength`, `OverlapRepeatsText`).

The middleware runs only on the paths its `config.matcher` lists. `Decide`
models the function's body on any path, and `Route` models what a request
meets: `Decide` on a matched path, and no middleware at all on other paths.

## Model

| member | source | states |
|---|---|---|
| JsBuiltins.Slice | app/components/SummaryDisplay.tsx:111-133 | `slice` with start and end inside the string is the substring between them; with end at or before start it is empty; it is never longer than the input |
| JsBuiltins.TrimIsInfix | app/components/SummaryDisplay.tsx:47 | `trim()` returns the part of the text between a white-space prefix and a white-space suffix |
| JsBuiltins.Trim | app/components/SummaryDisplay.tsx:47 | a non-empty trimmed text neither starts nor ends with white space |
| JsBuiltins.TrimEmptyIffAllSpace | app/components/SummaryDisplay.tsx:47-49 | the trimmed text is empty (falsy) exactly when the selected text is all white space |
| StableSort.SortBy | app/components/SummaryDisplay.tsx:104 | the sort keeps the number of elements; that it sorts and permutes is stated by `SortBySortedPermutation`, and that ties keep their order by `SortByStable` |
| StableSort.SortBySortedPermutation | app/components/SummaryDisplay.tsx:104 | the numeric-comparator sort returns its input reordered by ascending key |
| StableSort.SortByStable | app/components/SummaryDisplay.tsx:104 | the sort is stable: the elements with any one key keep their original relative order |
| StableSort.SortByReflectsPairwise | app/components/SummaryDisplay.tsx:104 | conversely, a symmetric relation that holds between all pairs of the sorted output held between all pairs of the input |
| StableSort.SortByKeepsPairwise | app/components/SummaryDisplay.tsx:104 | a symmetric relation that holds between all pairs of the input (such as "do not overlap") holds between all pairs of the output |
| SummaryDisplay.RenderHighlightedText | app/components/SummaryDisplay.tsx:99-139 | the `forEach` with its mutable `lastIndex` produces exactly the parts of `Render`: per label in start order, a gap if it starts after the previous label's end, its highlight, then the remaining text |
| SummaryDisplay.TiledPrefixText | app/components/SummaryDisplay.tsx:106-127 | while labels tile the summary, the parts pushed so far spell the summary up to `lastIndex` |
| SummaryDisplay.RenderIsLossless | app/components/SummaryDisplay.tsx:99-139 | with every label a non-empty range inside the summary and no two overlapping, the parts concatenate to the summary exactly |
| SummaryDisplay.RenderOrder | app/components/SummaryDisplay.tsx:104 | the labels are rendered in ascending start order, are a permutation of the stored labels, and labels with the same start keep collection order |
| SummaryDisplay.PrefixHighlights | app/components/SummaryDisplay.tsx:106-127 | after k labels the highlights are exactly the first k sorted labels' slices, in order and numbered by position, among between k and 2k parts |
| SummaryDisplay.Render | app/components/SummaryDisplay.tsx:99-139 | between n and 2n+1 parts for n labels: one highlight per label, at most one gap before each and at most one trailing part |
| SummaryDisplay.RenderShape | app/components/SummaryDisplay.tsx:106-136 | one highlight per label, the k-th being the slice of the k-th label in start order |
| SummaryDisplay.RenderSortedLength | app/components/SummaryDisplay.tsx:106-136 | for labels inside the summary, the output is as long as the summary plus, for each label in start order, how far it starts before the previous label's end |
| SummaryDisplay.RenderLosslessIffApart | app/components/SummaryDisplay.tsx:99-139 | for any number of non-empty labels inside the summary, the output is never shorter than the summary; it equals the summary exactly when no two labels overlap, and any overlap makes it strictly longer |
| SummaryDisplay.OverlapParts | app/components/SummaryDisplay.tsx:108-133 | a label starting inside the previous one gets no gap and is emitted whole, and the trailing text resumes from its own end |
| SummaryDisplay.OverlapRepeatsText | app/components/SummaryDisplay.tsx:108-133 | with two overlapping labels the parts spell the summary with the overlap shown twice: the output is longer than the summary by the overlap's length |
| SummaryDisplay.OverlapScenario | app/components/SummaryDisplay.tsx:106-133 | a worked example of `OverlapRepeatsText`: labels [0,10) and [5,15) on a 20-character summary render 25 characters |
| SummaryDisplay.Display | app/components/SummaryDisplay.tsx:150 | the container shows the same text the split rendering gives, also when there are no labels and it shows the bare summary as one text |
| SummaryDisplay.GetAbsoluteOffset | app/components/SummaryDisplay.tsx:64-79 | the tree walk returns the total length of the text nodes before the endpoint's node, or of all of them if the walk never meets it, plus the in-node offset |
| SummaryDisplay.OffsetPointsIntoNode | app/components/SummaryDisplay.tsx:64-79 | for an endpoint inside a text node, the absolute offset points at the same character in the concatenated text |
| SummaryDisplay.SelectionOffsetIndexesSummary | app/components/SummaryDisplay.tsx:64-85 | over the rendered summary with non-overlapping labels, the computed offset indexes the same text in the summary itself |
| SummaryDisplay.SelectionState.constructor | app/components/SummaryDisplay.tsx:24-25 | nothing selected and no indices |
| SummaryDisplay.SelectionState.HandleSelection | app/components/SummaryDisplay.tsx:38-88 | a missing or collapsed selection clears both fields; a blank selection, or one starting outside the summary, changes nothing; otherwise the text is the trimmed selection and the indices are the absolute offsets of both endpoints |
| SummaryDisplay.SelectionState.AddLabel | app/components/SummaryDisplay.tsx:90-96 | with a selected text and indices, forwards the label with those offsets and clears both; otherwise forwards nothing and changes nothing |
| SummaryDisplay.RangeInConcat | app/components/SummaryDisplay.tsx:46-82 | for any range over the text nodes, inside one node or spanning several, the absolute offsets of its two endpoints are in order and delimit exactly the range's text (`range.toString()`) in the concatenated text of all the nodes |
| SummaryDisplay.SelectedRangeInSummary | app/components/SummaryDisplay.tsx:46-85 | for any range over the text nodes of the displayed summary with non-overlapping labels, including one that starts in plain text and ends inside a highlight, the two offsets delimit exactly the selected text in the summary |
| SummaryDisplay.StoredSelectionDelimitsRange | app/components/SummaryDisplay.tsx:46-85 | for any such range, the stored offsets delimit the untrimmed selection in the summary, while the stored text is its trimmed form: an infix of that span with only white space around it |
| AnnotatePage.Without | app/annotate/page.tsx:164 | the delete filter removes exactly the entry at the index and keeps the rest in order; an index outside the list removes nothing |
| AnnotatePage.AddThenDeleteRestores | app/annotate/page.tsx:145-148 | appending a label and deleting the last index gives back the list |
| AnnotatePage.IsAnnotated | app/annotate/page.tsx:248 | an entry counts as annotated exactly when its four scores are not those of the blank entry, whatever its labels |
| AnnotatePage.AnnotatedCount | app/annotate/page.tsx:248 | the count never exceeds the number of annotations |
| AnnotatePage.AnnotatedCountCountsAnnotatedEntries | app/annotate/page.tsx:248 | the count is the number of positions whose entry has a non-zero numeric field |
| AnnotatePage.AllAnnotatedIff | app/annotate/page.tsx:248 | the count equals the number of entries exactly when every entry has a non-zero score |
| AnnotatePage.LabelsDoNotAnnotate | app/annotate/page.tsx:248 | the labels array is not a number, so labels never count an entry as annotated |
| AnnotatePage.InitialAnnotationsCountZero | app/annotate/page.tsx:97-109 | freshly initialised annotations count as none annotated |
| AnnotatePage.NavigationStaysInRange | app/annotate/page.tsx:113-116 | previous is max(i-1,0) and next is min(i+1,n-1); both keep a valid index valid, and each button is disabled exactly where its move would not move |
| AnnotatePage.PreviousIndex | app/annotate/page.tsx:114 | one step back, clamped at the first summary: never negative, and exactly i-1 from any i above 0 |
| AnnotatePage.NextIndex | app/annotate/page.tsx:116 | one step forward, clamped at the last of n summaries: never past n-1, and exactly i+1 from any i below n-1 |
| AnnotatePage.Page.constructor | app/annotate/page.tsx:24-30 | no summaries, index 0, no annotations |
| AnnotatePage.Page.LoadSummaries | app/annotate/page.tsx:97-109 | a non-empty list of summaries gets one entry per summary, each with four zero scores and an empty label list; an empty list leaves the annotations as they were |
| AnnotatePage.Page.HandleAnnotationChange | app/annotate/page.tsx:124-136 | the four scores at the current index become the new ones, that entry keeps its labels (a missing list becomes empty), and every other entry is unchanged |
| AnnotatePage.Page.HandleAddLabel | app/annotate/page.tsx:138-154 | the label goes at the end of the current entry's list, the entry's scores stay, and every other entry is unchanged |
| AnnotatePage.Page.HandleDeleteLabel | app/annotate/page.tsx:156-171 | a present list loses the label at the index, and only that entry changes; a missing list is left alone |
| AnnotatePage.Page.Previous | app/annotate/page.tsx:114 | the index moves to max(i-1,0); nothing else changes |
| AnnotatePage.Page.Next | app/annotate/page.tsx:116 | the index moves to min(i+1,n-1); nothing else changes |
| AnnotatePage.Page.NavigateTo | app/annotate/page.tsx:264 | the pager sets the index directly; nothing else changes |
| AnnotatePage.Page.Progress | app/annotate/page.tsx:248 | the count is the number of annotated entries; everything counts as annotated exactly when that number equals the number of summaries |
| AnnotationForm.WithScore | app/components/AnnotationForm.tsx:75 | the chosen aspect takes the value; the other three scores and the labels are unchanged |
| AnnotationForm.EveryInRange | app/components/AnnotationForm.tsx:119 | `every` holds exactly when each listed field is in 1..5 |
| AnnotationForm.IsFormComplete | app/components/AnnotationForm.tsx:116-122 | complete exactly when every summary is annotated and each of the four aspects is in 1..5 |
| AnnotationForm.CompletenessIgnoresLabels | app/components/AnnotationForm.tsx:117-119 | whatever labels the object carries, completeness depends only on the four scores |
| AnnotationForm.InitialStateIncomplete | app/components/AnnotationForm.tsx:31-36 | the all-zero initial state is never complete |
| AnnotationForm.SelectableRatingsAreTheAcceptedScores | app/components/AnnotationForm.tsx:150 | the radio values are exactly the scores completeness accepts |
| AnnotationForm.RatingEveryAspectCompletes | app/components/AnnotationForm.tsx:72-122 | rating each aspect once, from any state, completes the form when every summary is annotated, and keeps the labels |
| AnnotationForm.HintAsWritten | app/components/AnnotationForm.tsx:162-169 | the hint as written: present exactly when the form is incomplete, always one of the two messages, and "Waiting for all summaries" only for an object without `labels` |
| AnnotationForm.Hint | app/components/AnnotationForm.tsx:162-169 | the corrected hint (see Findings), over the four scores alone: present exactly when the form is incomplete, always one of the two messages, and "Complete all ratings" only when some score is out of range |
| AnnotationForm.HintAsWrittenAsksForRatingsAlreadyGiven | app/components/AnnotationForm.tsx:169 | as written, an object with all four aspects rated and `labels: []` gets "Complete all ratings" |
| AnnotationForm.HintAsWrittenCases | app/components/AnnotationForm.tsx:162-169 | the hint as written, for every input: none exactly when complete; "Waiting for all summaries" exactly when the four scores are in range, not every summary is annotated, and the object has no `labels`; otherwise "Complete all ratings" |
| AnnotationForm.HintAsWrittenDiffersFromHint | app/components/AnnotationForm.tsx:169 | the hint as written differs from the four-score hint exactly when the object carries `labels`, all four scores are in range, and some summary is still unannotated |
| AnnotationForm.HintExplainsIncompleteness | app/components/AnnotationForm.tsx:162-169 | no hint exactly when complete; "Waiting for all summaries" exactly when the four scores are in range but not every summary is annotated; "Complete all ratings" exactly when some score is out of range |
| AnnotationForm.Form.constructor | app/components/AnnotationForm.tsx:66 | the ratings start as the given annotation |
| AnnotationForm.Form.Reset | app/components/AnnotationForm.tsx:68-70 | a new annotation prop replaces the ratings |
| AnnotationForm.Form.HandleRatingChange | app/components/AnnotationForm.tsx:72-81 | only the chosen aspect changes, and the new ratings are what is forwarded |
| AnnotationForm.Form.SubmitButton | app/components/AnnotationForm.tsx:162-169 | disabled exactly when the form is incomplete; a hint appears exactly when disabled; it says "Waiting for all summaries" only when the four scores are in range, some summary is unannotated and the object has no `labels`, and "Complete all ratings" otherwise |
| NavigationBar.GetPageNumbers | app/components/NavigationBar.tsx:13-33 | the result is strictly increasing, holds exactly the first page, the last page and the window from max(0,cur-4) to min(last, start+8), and has at most 11 entries |
| NavigationBar.SortedDistinctIncreasing | app/components/NavigationBar.tsx:22-32 | the Set's distinct pages, sorted numerically, are strictly increasing |
| NavigationBar.CurrentPageOnBar | app/components/NavigationBar.tsx:25-30 | a real current page always has a button |
| NavigationBar.PagesOnBarExist | app/components/NavigationBar.tsx:15-28 | with at least one page, every button is a real page |
| NavigationBar.EllipsisMarksMissingPage | app/components/NavigationBar.tsx:68 | an ellipsis stands before a button exactly when the page just before it has no button |
| NavigationBar.FirstTarget | app/components/NavigationBar.tsx:44 | the first-page arrow goes to page 0, which has a numbered button for every current index and page count |
| NavigationBar.PreviousTarget | app/components/NavigationBar.tsx:56 | one page back, clamped at page 0; on a real page, the target has a numbered button |
| NavigationBar.NextTarget | app/components/NavigationBar.tsx:92 | one page forward, clamped at the last page; on a real page, the target has a numbered button |
| NavigationBar.LastTarget | app/components/NavigationBar.tsx:104 | the last-page arrow goes to the last page, which has a numbered button for every current index |
| NavigationBar.FirstDisabled | app/components/NavigationBar.tsx:44-45 | disabled exactly when the first-page arrow would stay on the current page |
| NavigationBar.PreviousDisabled | app/components/NavigationBar.tsx:56-57 | disabled exactly when the previous arrow would stay on the current page, at every index, not only real ones |
| NavigationBar.NextDisabled | app/components/NavigationBar.tsx:92-93 | disabled exactly when the next arrow would stay on the current page, at every index |
| NavigationBar.LastDisabled | app/components/NavigationBar.tsx:104-105 | disabled exactly when the last-page arrow would stay on the current page |
| NavigationBar.ArrowTargets | app/components/NavigationBar.tsx:44-105 | each arrow is disabled exactly when its target is the current page; every target is a real page; previous and next have buttons of their own |
| RankingRoute.Completed | app/api/ranking/route.ts:195 | `markCompleted \|\| task.completed` as JavaScript evaluates it: `markCompleted` itself (for instance `"yes"` or `1`) when it is truthy, otherwise the stored boolean; so the flag is truthy exactly when either is |
| RankingRoute.Post | app/api/ranking/route.ts:109-195 | unauthenticated requests get 401; otherwise an invalid body gets 400 with its check's message, a valid body without a task gets 404, and a valid body with a task succeeds; on success the reported `completed` is `markCompleted` itself when it is truthy and otherwise the task's stored boolean, and the task is written exactly when `markCompleted` is truthy |
| RankingRoute.ThreeSetSize | app/api/ranking/route.ts:140 | the Set of three values has size 3 exactly when they are pairwise different |
| RankingRoute.DistinctRanksArePermutation | app/api/ranking/route.ts:128-145 | three different ranks from {1,2,3} are 1, 2 and 3 in some order |
| RankingRoute.PermutationHasDistinctRanks | app/api/ranking/route.ts:128-145 | 1, 2 and 3 in any order pass the range and uniqueness checks |
| RankingRoute.ValidationError | app/api/ranking/route.ts:120-145 | the body passes the three checks exactly when the task id is truthy and the three ranks are in {1,2,3} and pairwise different (the Set of three has size 3 exactly then); a failure names one of the three messages |
| RankingRoute.ValidationAcceptsExactlyPermutations | app/api/ranking/route.ts:120-145 | the body passes every check exactly when the task id is truthy and the ranks are a permutation of 1, 2, 3 |
| RankingRoute.ValidationErrorOrder | app/api/ranking/route.ts:120-145 | each error message is given exactly when its check is the first to fail: missing field, then range, then duplicates |
| RankingRoute.OutOfRangeRankRefused | app/api/ranking/route.ts:128-137 | once nothing is missing, a rank outside {1,2,3} gets 400 |
| RankingRoute.ValidationPrecedesLookup | app/api/ranking/route.ts:120-160 | an invalid body gets the same 400 whatever the lookup finds; a 404 only follows a valid body |
| RankingRoute.MarkCompletedDefaultsToFalse | app/api/ranking/route.ts:118 | without `markCompleted` nothing is written and the stored flag is reported |
| RankingPage.TotalPages | app/ranking/page.tsx:66 | ceil(n/3): the fewest pages of three that hold n items |
| RankingPage.Visible | app/ranking/page.tsx:67-68 | at most three items, every one of them from the list, and exactly items start..start+3 while the list has that many |
| RankingPage.VisibleWindow | app/ranking/page.tsx:67-68 | a page in range shows 1 to 3 items, those from its start index on, and 3 when there are that many; a page past the end shows none |
| RankingPage.EachItemOnOnePage | app/ranking/page.tsx:66-68 | item k is shown on page k/3 at position k%3, and on no other page |
| RankingPage.SomeUnchosen | app/ranking/page.tsx:168 | `some` holds exactly when a position in the window has no truthy value |
| RankingPage.ChooseAt | app/ranking/page.tsx:153 | the map sets only the target entry, and changes nothing when the target is outside the list |
| RankingPage.Page.constructor | app/ranking/page.tsx:62-65 | page 0 and one empty choice per item |
| RankingPage.Page.HandleNavigate | app/ranking/page.tsx:70-74 | the page changes exactly when the index is a real page; the choices never change |
| RankingPage.Page.Choose | app/ranking/page.tsx:145-153 | only entry `startIdx + idx` changes; every choice stays in {1,2,3} |
| RankingPage.Page.SubmitDisabled | app/ranking/page.tsx:168 | disabled exactly when some visible item has no choice |
| AssignGroupSummaries.WithExactlyThree | scripts/assign-group-summaries.ts:41-43 | keeps exactly the groups with three summaries |
| AssignGroupSummaries.NotYetAssigned | scripts/assign-group-summaries.ts:62-67 | keeps exactly the groups whose id the user has not been assigned |
| AssignGroupSummaries.FiltersDistribute | scripts/assign-group-summaries.ts:41-67 | both filters keep order: filtering a concatenation filters each part |
| AssignGroupSummaries.GroupAssignments | scripts/assign-group-summaries.ts:83-90 | one assignment per summary, in order, for the user and the group, not completed |
| AssignGroupSummaries.BuildAssignments | scripts/assign-group-summaries.ts:77-93 | the loop pushes the assignments of the groups, group after group |
| AssignGroupSummaries.AssignmentsOfThrees | scripts/assign-group-summaries.ts:79-93 | with three summaries per group, position 3j+s is summary s of group j, not completed |
| AssignGroupSummaries.AssignmentsComeFromGroups | scripts/assign-group-summaries.ts:79-93 | every assignment is the user's, not completed, and for a summary of one of the groups |
| AssignGroupSummaries.BatchCount | scripts/assign-group-summaries.ts:97 | ceil(n/50): the fewest batches of fifty that hold n items |
| AssignGroupSummaries.MakeBatches | scripts/assign-group-summaries.ts:96-100 | ceil(n/50) batches, each of 1 to 50 items, concatenating to the list |
| AssignGroupSummaries.AssignGroups | scripts/assign-group-summaries.ts:17-100 | an unknown user, no group with three summaries, or none left to assign each ends the run early; otherwise the batches hold three assignments per available group |
| AssignGroupSummaries.ParseArguments | scripts/assign-group-summaries.ts:156-172 | the run starts exactly when there are at least four arguments and the level is one of the four; the e-mail and level are arguments 2 and 3; otherwise the exit code is 1 |
| ImportSummaries.RecordRowsByLevel | scripts/import-summaries.ts:39-75 | a record's rows are the LAYMAN, PREMED, RESEARCHER and EXPERT rows, each present when its column is filled |
| ImportSummaries.SummariesForRecord | scripts/import-summaries.ts:37-77 | the four conditional pushes produce exactly the record's rows |
| ImportSummaries.RowsOfShape | scripts/import-summaries.ts:39-75 | one row per listed level with a filled-in column, each built from that level's column |
| ImportSummaries.RowsOfOrdered | scripts/import-summaries.ts:39-75 | the rows follow the order of the levels |
| ImportSummaries.RecordRowsShape | scripts/import-summaries.ts:36-75 | 0 to 4 rows, one per non-empty column, in level order; each has the record's text and timestamp, and a `pmid` (the record id) exactly when it is the LAYMAN row |
| ImportSummaries.AllRows | scripts/import-summaries.ts:34-78 | the `flatMap` yields at most four rows for each record, one per level column |
| ImportSummaries.AllRowsAppend | scripts/import-summaries.ts:34-78 | the output is the per-record lists concatenated in record order |
| ImportSummaries.RecordRowsEmptyIff | scripts/import-summaries.ts:39-75 | a record yields nothing exactly when its four level columns are empty |
| ImportSummaries.NoRowsIffAllEmpty | scripts/import-summaries.ts:34-80 | nothing is produced exactly when no record has a filled-in level column |
| ImportSummaries.ImportPlan | scripts/import-summaries.ts:80-89 | nothing is written exactly when every level column of every record is empty; otherwise every row is written |
| GoogleSheets.CategorySheetName | frontend/app/utils/googleSheets.ts:26-39 | each listed category maps to its sheet, and exactly the other categories map to GeneralSummaries |
| GoogleSheets.MapRows | frontend/app/utils/googleSheets.ts:43-47 | one record per row, in order |
| GoogleSheets.ParseSheetData | frontend/app/utils/googleSheets.ts:41-48 | the header row is dropped (max(0, rows-1) records), and record i takes columns 0, 1 and 2 of row i+1 |
| GoogleSheets.FullRowsReadAsIs | frontend/app/utils/googleSheets.ts:43-47 | a row with three cells gives its id, text and summary unchanged |
| Middleware.IsAuthPage | middleware.ts:6-7 | a path is an auth page exactly when it is "/login" or "/signup" followed by anything, the empty rest included |
| Middleware.Decide | middleware.ts:4-18 | an auth page with the cookie goes to /annotate; any other page without it goes to /login; the two mixed cases pass through |
| Middleware.AuthPages | middleware.ts:6-7 | the prefix test accepts /login, /signup and any path starting with them (such as /loginx); it rejects /annotate and / |
| Middleware.NoRedirectLoop | middleware.ts:9-15 | following either redirect with the same cookie is never redirected again |
| Middleware.AnnotatePagesAreNotAuthPages | middleware.ts:6-7 | /annotate and the paths under it never pass the auth-page test |
| Middleware.Matched | middleware.ts:20-26 | every annotate page is matched; a matched path is an annotate page or an auth page, never both; and the only matched auth pages are "/login" and "/signup" themselves |
| Middleware.Route | middleware.ts:4-26 | on the matched paths, a signed-in user is sent from /login or /signup to /annotate and a visitor without the cookie from an annotate page to /login; every other request passes through |
| Middleware.RouteNoRedirectLoop | middleware.ts:9-26 | a redirected request, repeated at its target with the same cookie, is not redirected again |

## Left out

- Supabase sessions, Prisma queries and writes, `fetch`, `alert`, `confirm` and `console` are not modelled. Their results are parameters: the session flag, the task lookup, the user found by e-mail, the groups of a level, the existing assignment ids, and the records of the CSV file. Their effects are outputs: the batches to create, the rows to import, and whether the task is written.
- The CSV parser, uuids and `new Date()` are not modelled. Records arrive parsed. Ids are not modelled. The timestamp of each record is an input.
- The CSV fields are taken as given strings. A column missing from the file (read as `undefined`) is modelled as the empty string, which is falsy in the same way. The import script's comment names header columns that differ from its `CsvRecord` interface; the model follows the interface.
- The import script's argument and file-existence checks, and the post-assignment report of the group script, are console I/O.
- The live DOM, `window.getSelection`, the upward search for the `.summary-text` element and the `TreeWalker` are reduced to inputs: the text nodes, the endpoints, and a flag for "the start lies inside the summary".
- JSX, CSS, tooltips and hover highlighting (`highlightedLabel`) are not modelled.
- The ranking page's hard-coded items are a constructor parameter, and its submit `alert` is left out.
- `fetchSheetData` (user lookup, URL building and fetch) is not modelled. A response without `values` would throw; the parser takes the rows as given.
- RankingRoute.Post: the route's catch-all (app/api/ranking/route.ts:204-209) is not modelled. It answers 500 "Failed to submit ranking" for any exception: a malformed or non-object JSON body, a failure of the session lookup, or a database error in the transaction. The model receives the body already destructured, with a missing key as `Undefined`, and takes the lookups and writes as succeeding.
- AnnotatePage.Page.HandleAnnotationChange: requires the current index to have an entry. At an index past the end, the source would grow a sparse array.
- AnnotatePage.Page.HandleAddLabel: requires the current index to have an entry. The source would throw at an index past the end.
- AnnotatePage.Page.HandleDeleteLabel: requires the current index to have an entry. The source would throw at an index past the end.
- RankingPage.Page.Choose: requires the value to be one of the three radio values, which are the only values its `onChange` passes.
- GoogleSheets.MapRows: a cell past the end of a short row is `None` (JavaScript's `undefined`); the source declares it a string.
- JsBuiltins.Slice and SummaryDisplay.GetAbsoluteOffset: the model indexes strings by Unicode code point, while JavaScript's `length`, `slice`, `Range.startOffset` and the stored `startIndex`/`endIndex` count UTF-16 code units; after each character outside the Basic Multilingual Plane, the source's offsets run one unit ahead of the model's.
- The `skipDuplicates` option of the database writes is left out: the model states what is handed to `createMany`.

## Findings

| source | as written | input that shows it | evidently intended | confidence | as-written member | corrected member |
|---|---|---|---|---|---|---|
| app/components/AnnotationForm.tsx:169 | the hint tests `Object.values(ratings)`, which also visits the `labels` array the page puts in the annotation object; an array never passes `>= 1`, so the hint says "Complete all ratings" (every case of it: `AnnotationForm.HintAsWrittenCases`) | ratings 3, 3, 3, 3 with `labels: []`, while another summary is still unannotated | test only the four rating fields, as `isFormComplete` does, and say "Waiting for all summaries", as `AnnotationForm.Hint` does | not executed | AnnotationForm.HintAsWrittenAsksForRatingsAlreadyGiven | AnnotationForm.HintExplainsIncompleteness |
