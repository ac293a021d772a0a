# Peer evaluation results and role gate, modelled in Dafny

This project models two request handlers of a peer-evaluation web backend.

* **getEvaluationResults**: a student's results endpoint. It rejects a request that has no caller id with 401. It answers "No evaluations found" when the student has no completed evaluations. Otherwise it groups the evaluations by exam into an insertion-ordered map. Each group keeps three index-aligned lists: marks, feedback and the resolved evaluator. The handler then writes one result per exam: the exam's details, the mean of the evaluators' mark totals, and the raw marks, feedback and evaluator lists.
* **authorizeRoles**: a middleware factory. The closure it returns answers 403 "Access denied" unless the caller's role is in the allow-list. When the role is allowed, it calls `next` once and writes nothing.

Files (one module each):

| file | module | contents |
|---|---|---|
| common.dfy | `Common` | `Option`, the authenticated `User`, JavaScript's `||` on optional strings |
| evaluation_types.dfy | `EvaluationTypes` | populated evaluation records, the exam key, evaluator resolution |
| exam_grouping.dfy | `ExamGrouping` | the grouping loop `GroupByExam`, proved against reference definitions (`Matching`, `DistinctKeys`, `FirstIndex`, `GroupOf`) |
| mark_statistics.dfy | `MarkStatistics` | per-evaluator totals and their mean |
| evaluation_results.dfy | `EvaluationResults` | the guards, the shaping of groups into results, the handler method and the properties of its answer |
| role_gate.dfy | `RoleGate` | the role check |

The grouping step is imperative in the source: a `forEach` loop fills a dictionary and pushes into each group's lists. It is modelled as a method with a `while` loop over a map plus a sequence that records insertion order. The callback's body is a method of its own (`AddRecord`). The totals, the average and the shaping are `map`/`reduce` expressions, and they are modelled as functions. The database query is a parameter `find` of the handler method, and the method reports which student ids it passed to `find`.

The model follows the code's own behaviour, with one exception: the `null` evaluator under "## Findings".

- A user with no role gets 403. A request with no user at all throws when the middleware reads `req.user.role`. That case is a precondition of `AuthorizeRoles`.
- The allowed roles arrive as a list that is tested with `includes`. `OnlyMembershipMatters` shows that only the list's members matter, not their order or repetition.
- When a group's first record has no exam, the code throws at `group.exam._id`, and the model keeps that as the outcome `Forwarded`.
- The evaluator check throws on a `null` evaluator. This is the finding below, and the model uses the fallback the code prepares for it.

## Model

| member | source | states |
|---|---|---|
| `Common.OrElse` | Peer_Evaluation_V3_NPTEL/backend/src/controllers/student/getEvaluationResults.controller.ts:56 | `v || fallback`: a present, non-empty value is returned as it is; a missing or empty value gives the fallback; a non-empty fallback never gives an empty result |
| `EvaluationTypes.ExamKey` | Peer_Evaluation_V3_NPTEL/backend/src/controllers/student/getEvaluationResults.controller.ts:56 | the key is never empty; it is the exam's id when that id is present and non-empty, and otherwise "unknown" |
| `EvaluationTypes.ResolveAsWritten` | Peer_Evaluation_V3_NPTEL/backend/src/controllers/student/getEvaluationResults.controller.ts:67-76 | as written, resolution throws exactly for a `null` evaluator; a named user gives `{id, name}`; any other value gives name "Unknown" and a non-empty id |
| `EvaluationTypes.ResolveEvaluator` | Peer_Evaluation_V3_NPTEL/backend/src/controllers/student/getEvaluationResults.controller.ts:67-76 | a named user gives `{id, name}`; any other value gives name "Unknown" with the raw id, or "unknown" when that id is missing or `null` |
| `EvaluationTypes.ResolveAgreesWhereDefined` | Peer_Evaluation_V3_NPTEL/backend/src/controllers/student/getEvaluationResults.controller.ts:67-76 | the corrected resolution agrees with the written one on every non-null evaluator |
| `EvaluationTypes.NullEvaluatorThrows` | Peer_Evaluation_V3_NPTEL/backend/src/controllers/student/getEvaluationResults.controller.ts:67-74 | a `null` evaluator throws as written; the corrected resolution gives `{id: "unknown", name: "Unknown"}` |
| `ExamGrouping.Matching` | Peer_Evaluation_V3_NPTEL/backend/src/controllers/student/getEvaluationResults.controller.ts:55-81 | the records a group collects all have its key, and there are no more of them than input records |
| `ExamGrouping.MatchingExactly` | Peer_Evaluation_V3_NPTEL/backend/src/controllers/student/getEvaluationResults.controller.ts:55-81 | a group collects exactly the input records with its key, each record as many times as it occurs in the input (none dropped, none duplicated) |
| `ExamGrouping.MatchingEmpty` | Peer_Evaluation_V3_NPTEL/backend/src/controllers/student/getEvaluationResults.controller.ts:58-65 | a key collects no records if and only if no record has that key |
| `ExamGrouping.MatchingSnoc` | Peer_Evaluation_V3_NPTEL/backend/src/controllers/student/getEvaluationResults.controller.ts:78-80 | the next record is appended to its own key's records and changes no other key's |
| `ExamGrouping.DistinctKeys` | Peer_Evaluation_V3_NPTEL/backend/src/controllers/student/getEvaluationResults.controller.ts:53-65 | the map's insertion order lists no key twice |
| `ExamGrouping.DistinctKeysOccur` | Peer_Evaluation_V3_NPTEL/backend/src/controllers/student/getEvaluationResults.controller.ts:55-65 | there is a key in the map exactly for each key that some record has |
| `ExamGrouping.DistinctKeysNonEmpty` | Peer_Evaluation_V3_NPTEL/backend/src/controllers/student/getEvaluationResults.controller.ts:58-80 | every key in the map has at least one record behind it |
| `ExamGrouping.FirstIndex` | Peer_Evaluation_V3_NPTEL/backend/src/controllers/student/getEvaluationResults.controller.ts:55-65 | the first position whose record has the key, or the length when no record has it |
| `ExamGrouping.FirstIndexOccurs` | Peer_Evaluation_V3_NPTEL/backend/src/controllers/student/getEvaluationResults.controller.ts:55-65 | a key's first position lies inside the input exactly when some record has that key |
| `ExamGrouping.FirstIndexSnoc` | Peer_Evaluation_V3_NPTEL/backend/src/controllers/student/getEvaluationResults.controller.ts:55-65 | appending a record keeps every earlier first position, and a new key first occurs at the appended position |
| `ExamGrouping.DistinctKeysFirstOccurrenceOrder` | Peer_Evaluation_V3_NPTEL/backend/src/controllers/student/getEvaluationResults.controller.ts:53-83 | groups are ordered by where their key first occurs, and every key first occurs inside the input |
| `ExamGrouping.GroupOfAligned` | Peer_Evaluation_V3_NPTEL/backend/src/controllers/student/getEvaluationResults.controller.ts:58-80 | a group's three lists all have the length of its record sequence, and entry i of each list comes from the group's i-th record |
| `ExamGrouping.GroupOf` | Peer_Evaluation_V3_NPTEL/backend/src/controllers/student/getEvaluationResults.controller.ts:58-80 | a key's group has as many marks, feedback and evaluator entries as there are records with that key, and its exam is the exam of the first such record |
| `ExamGrouping.Append` | Peer_Evaluation_V3_NPTEL/backend/src/controllers/student/getEvaluationResults.controller.ts:78-80 | one record keeps the group's exam and pushes its marks, its feedback and its resolved evaluator onto the end of the three lists, leaving the earlier entries unchanged |
| `ExamGrouping.ListsSnoc` | Peer_Evaluation_V3_NPTEL/backend/src/controllers/student/getEvaluationResults.controller.ts:78-80 | one record pushes one entry onto the end of each of the three lists |
| `ExamGrouping.GroupOfSnoc` | Peer_Evaluation_V3_NPTEL/backend/src/controllers/student/getEvaluationResults.controller.ts:58-80 | the next record starts a group (with its exam) when its key is new, and otherwise extends its key's group; other groups are unchanged |
| `ExamGrouping.DistinctKeysSnoc` | Peer_Evaluation_V3_NPTEL/backend/src/controllers/student/getEvaluationResults.controller.ts:58-65 | a record's key is added to the end of the insertion order just when the key has not been seen |
| `ExamGrouping.GroupsStep` | Peer_Evaluation_V3_NPTEL/backend/src/controllers/student/getEvaluationResults.controller.ts:55-81 | one iteration of the `forEach` body keeps every group equal to the group that its key's records form |
| `ExamGrouping.AddRecord` | Peer_Evaluation_V3_NPTEL/backend/src/controllers/student/getEvaluationResults.controller.ts:55-81 | the `forEach` callback takes a state grouped as the records before it to a state grouped as those records followed by this one |
| `ExamGrouping.GroupByExam` | Peer_Evaluation_V3_NPTEL/backend/src/controllers/student/getEvaluationResults.controller.ts:53-81 | the loop leaves the keys in first-occurrence order, creates one group per key in that order, and makes each group the group of its key's records |
| `ExamGrouping.SizeSumSnoc` | Peer_Evaluation_V3_NPTEL/backend/src/controllers/student/getEvaluationResults.controller.ts:55-81 | one more record adds one to the total group size exactly when its key is among the counted keys |
| `ExamGrouping.GroupsConserveRecords` | Peer_Evaluation_V3_NPTEL/backend/src/controllers/student/getEvaluationResults.controller.ts:55-81 | the group sizes add up to the number of input records |
| `MarkStatistics.Sum` | Peer_Evaluation_V3_NPTEL/backend/src/controllers/student/getEvaluationResults.controller.ts:86 | the fold starts from 0, so an evaluator who gave no marks totals 0; its range is stated by `SumBounds` |
| `MarkStatistics.SumBounds` | Peer_Evaluation_V3_NPTEL/backend/src/controllers/student/getEvaluationResults.controller.ts:86 | a sum of n values that all lie in [lo, hi] lies in [lo*n, hi*n] |
| `MarkStatistics.Totals` | Peer_Evaluation_V3_NPTEL/backend/src/controllers/student/getEvaluationResults.controller.ts:85-87 | there is one total per mark list; total i is the sum of list i; an empty list totals 0 |
| `MarkStatistics.Average` | Peer_Evaluation_V3_NPTEL/backend/src/controllers/student/getEvaluationResults.controller.ts:89-95 | the average is `null` exactly when there are no totals, and otherwise it is their mean (average × count = sum) |
| `MarkStatistics.AverageWithinTotals` | Peer_Evaluation_V3_NPTEL/backend/src/controllers/student/getEvaluationResults.controller.ts:89-95 | the mean lies between any lower and upper bound of the totals |
| `MarkStatistics.ExampleAverage` | Peer_Evaluation_V3_NPTEL/backend/src/controllers/student/getEvaluationResults.controller.ts:85-95 | marks [[5,5],[4,6]] total [10,10] and average 10 |
| `EvaluationResults.StudentId` | Peer_Evaluation_V3_NPTEL/backend/src/controllers/student/getEvaluationResults.controller.ts:24-25 | a student id exists exactly when the user is present with a non-empty `_id`, and then it is that `_id` |
| `EvaluationResults.ShapeExam` | Peer_Evaluation_V3_NPTEL/backend/src/controllers/student/getEvaluationResults.controller.ts:98-105 | id, title and start time are copied; the course name is the course's name when that is present and non-empty, and otherwise "Unknown Course" (also for a missing course); the batch id is the batch's id when it is non-empty, and otherwise `null`; the batch name is the batch's name when that is present and non-empty, and otherwise "Unknown Batch" |
| `EvaluationResults.ShapeGroup` | Peer_Evaluation_V3_NPTEL/backend/src/controllers/student/getEvaluationResults.controller.ts:83-111 | shaping a group fails exactly when the group has no exam; otherwise the lists are copied and the average is the mean of the totals |
| `EvaluationResults.ShapeAll` | Peer_Evaluation_V3_NPTEL/backend/src/controllers/student/getEvaluationResults.controller.ts:83-111 | all groups are shaped, in order, or none are (one failing group fails the whole map) |
| `EvaluationResults.GroupsInOrder` | Peer_Evaluation_V3_NPTEL/backend/src/controllers/student/getEvaluationResults.controller.ts:83 | there is one group per distinct key, and every group holds at least one mark list |
| `EvaluationResults.Respond` | Peer_Evaluation_V3_NPTEL/backend/src/controllers/student/getEvaluationResults.controller.ts:48-113 | the answer is the "No evaluations found" message if and only if no records were fetched; every answer that is written has status 200 |
| `EvaluationResults.GetEvaluationResults` | Peer_Evaluation_V3_NPTEL/backend/src/controllers/student/getEvaluationResults.controller.ts:18-113 | with no student id: 401 "Unauthorized" and no fetch; otherwise exactly one fetch for that id, and the answer for the fetched records |
| `EvaluationResults.MatchingHead` | Peer_Evaluation_V3_NPTEL/backend/src/controllers/student/getEvaluationResults.controller.ts:58-65 | a group's first record is the first input record with its key |
| `EvaluationResults.GroupsInOrderExams` | Peer_Evaluation_V3_NPTEL/backend/src/controllers/student/getEvaluationResults.controller.ts:58-65 | each group, taken in insertion order, keeps the exam of the first record with its key |
| `EvaluationResults.ResultsFromGroups` | Peer_Evaluation_V3_NPTEL/backend/src/controllers/student/getEvaluationResults.controller.ts:83-111 | a results answer has one shaped entry per group, in insertion order, and every group in it has an exam |
| `EvaluationResults.RespondForwards` | Peer_Evaluation_V3_NPTEL/backend/src/controllers/student/getEvaluationResults.controller.ts:83-117 | when records exist, the error is forwarded exactly when shaping fails |
| `EvaluationResults.ForwardedExactlyOnMissingExam` | Peer_Evaluation_V3_NPTEL/backend/src/controllers/student/getEvaluationResults.controller.ts:97-117 | the handler passes an error to `next` exactly when the first record keyed "unknown" has no exam |
| `EvaluationResults.ResultsOnePerKeyInOrder` | Peer_Evaluation_V3_NPTEL/backend/src/controllers/student/getEvaluationResults.controller.ts:53-111 | one result per distinct key, no key twice, in order of the key's first occurrence |
| `EvaluationResults.ResultsAligned` | Peer_Evaluation_V3_NPTEL/backend/src/controllers/student/getEvaluationResults.controller.ts:58-110 | in each result, marks, feedback and evaluators have equal length; that length is the number of records with its key; entry j of each comes from the j-th such record |
| `EvaluationResults.AveragePresent` | Peer_Evaluation_V3_NPTEL/backend/src/controllers/student/getEvaluationResults.controller.ts:89-95 | a non-empty list of mark lists has an average, and it is the mean of the totals |
| `EvaluationResults.ResultsConserveRecords` | Peer_Evaluation_V3_NPTEL/backend/src/controllers/student/getEvaluationResults.controller.ts:55-111 | the result mark-list lengths add up to the number of fetched records |
| `EvaluationResults.ResultsAverages` | Peer_Evaluation_V3_NPTEL/backend/src/controllers/student/getEvaluationResults.controller.ts:85-106 | no result has a `null` average, and each average is the mean of its evaluators' totals |
| `RoleGate.AuthorizeRoles` | backend/src/middlewares/authorizeRoles.ts:3-10 | a role outside the list gets one 403 "Access denied" response and no `next`; an allowed role gets exactly one `next` call with the request unchanged and no response |
| `RoleGate.EmptyRolesRejectAll` | backend/src/middlewares/authorizeRoles.ts:3-6 | an empty allow-list rejects every caller |
| `RoleGate.MissingRoleRejected` | backend/src/middlewares/authorizeRoles.ts:5-6 | a user without a role is rejected |
| `RoleGate.OnlyMembershipMatters` | backend/src/middlewares/authorizeRoles.ts:5 | two allow-lists with the same members give the same outcome, whatever their order or duplicates |
| `RoleGate.TeacherAdminExample` | backend/src/middlewares/authorizeRoles.ts:3-10 | with ["teacher", "admin"], a student is rejected and an admin passes with exactly one `next` |

## Left out

- The database query and population (`Evaluation.find(...).populate(...)`): the handler takes it as a function `find` from student id to records. Its filter (caller is the evaluatee, status "completed") belongs to the query, so the model does not restate it. `find` always yields a sequence, so the `!evaluations` null test has no model.
- Express plumbing: `req`/`res`/`next`, the global `Express` type augmentation and `console.error`. An exception inside the handler's `try` is modelled only as the outcome `Forwarded`, which is the `next(err)` call.
- Floating point: marks are integers, and the average is an exact `real`. The `toFixed(2)` string formatting and rounding are not modelled.
- Dynamic type probing: the evaluator field is a tagged union (`Populated`, `Raw`, `Null`) decided at input.
- JavaScript plain-object behaviour of the results map: inherited keys such as "constructor", and the numeric ordering of integer-like keys. Keys are treated as ObjectId strings or "unknown", and for those the map's order is insertion order.
- RoleGate.AuthorizeRoles: requires `req.user` to be present. The source reads `req.user.role` and throws when there is no user; the model does not describe that throw.
- The output fields title and start time are copied unchanged as an opaque string and integer. Feedback is an opaque string.
- Calling the handler twice on the same data gives the same answer. The model states no separate lemma for this, because `Respond` is a function.
- The record's evaluatee and status fields are used only by the query, so the model does not include them.

## Findings

| source | as written | input that shows it | evidently intended | confidence | as-written member | corrected member |
|---|---|---|---|---|---|---|
| Peer_Evaluation_V3_NPTEL/backend/src/controllers/student/getEvaluationResults.controller.ts:67-76 | `typeof ev.evaluator === "object" && "name" in ev.evaluator` runs `"name" in null` when the evaluator is `null`, because `typeof null` is "object"; that throws a TypeError, so the whole request goes to `next(err)` | a completed evaluation whose evaluator reference names a deleted user, so population leaves the field `null` | the fallback `{ _id: "unknown", name: "Unknown" }` that line 74 prepares with `ev.evaluator?.toString() || "unknown"` | medium; not executed | `EvaluationTypes.ResolveAsWritten`, `EvaluationTypes.NullEvaluatorThrows` | `EvaluationTypes.ResolveEvaluator` |

The grouping and the handler use the corrected `ResolveEvaluator`. As written, a batch of records that contains a `null` evaluator is answered with `Forwarded` instead of results.

A group whose first record has no exam also throws, at `group.exam._id` (line 99). The model keeps this behaviour as written, as the outcome `Forwarded`; see `ForwardedExactlyOnMissingExam`. The source gives no other intended behaviour for this case.
