# Praetorium Nexus: severity prioritiser and remediation dispatcher

This project models the two pieces of decision logic in Praetorium Nexus and proves properties about them.

- **`RiskAssessor`** (`risk_assessor.dfy`) models the severity prioritiser. Findings are ordered by the fixed rank table Critical = 0, High = 1, Medium = 2, Low = 3. Every other score, case variants included, ranks 4. The order is a stable sort on that rank.
  - `Prioritize` is a stable insertion sort on `seq<Finding>`.
  - The reference definition is `Grouped`: the Critical findings, then High, Medium, Low and the rest, each group in input order.
  - The proofs show that `Prioritize` is a permutation of its input, is sorted by rank, is stable and equals `Grouped`.
  - They also show it is the only sequence with those properties. So any stable sort by rank, as Python's `sorted` is, yields the same result.
- **`PraetorianGuard`** (`lambda_function.dfy`) models the Lambda handler that turns compliance-failure messages into automation executions.
  - `Plan` is the pure gate chain of one record. In order, it checks that:
    - the payload decodes;
    - the status is exactly `"FAIL"`;
    - the control id has a playbook;
    - the playbook's role variable is set and non-empty;
    - the target is an S3 ARN.
  - If every gate passes, `Plan` decides the call to issue; otherwise it decides the outcome that stops the record.
  - `HandleRecord` is the imperative body of the per-record `try`, with one early return per `continue`.
  - `LambdaHandler` is the batch loop. It is proved against `CallsFor` and `OutcomesFor`, which collect the calls and outcomes of `Plan` over the batch.
  - `AutomationService` stands for the automation-execution client. It is an object that appends every request to `log` and answers according to `behaviour`, an arbitrary function of the request and its position in the log.

Differences between the module's written description and its code, where the model follows the code:
- The bucket name is the last `":::"`-separated segment of the target, not the whole text after `arn:aws:s3:::`. The two agree when that text holds no `":::"` (`BucketNameOfS3Arn`).
- Some payloads raise inside the `try` and end as `Failed`:
  - a JSON value that is not an object (`.get` raises);
  - a control id that cannot be a dictionary key (a list or an object);
  - a truthy target that is not a string (`startswith` raises).
- An answer without an execution id raises after the call was made. So that call is in the log, and the record's outcome is `Failed`.

## Model

| member | source | states |
|---|---|---|
| RiskAssessor.RankTable | app/risk_assessor.py:11-16 | A score has rank 0, 1, 2 or 3 exactly when it is "Critical", "High", "Medium" or "Low", and rank 4 exactly when it is not in the table |
| RiskAssessor.CaseVariantsUnranked | app/risk_assessor.py:11-16 | Matching is case-sensitive: "CRITICAL" and "medium" are unranked |
| RiskAssessor.Prioritize | app/risk_assessor.py:22-25 | The result is a permutation of the input (same multiset, same length, so an empty input gives an empty result) and is non-decreasing in rank |
| RiskAssessor.InsertSorted | app/risk_assessor.py:22-25 | Inserting a finding into a rank-sorted sequence keeps it sorted |
| RiskAssessor.InsertOfRank | app/risk_assessor.py:22-25 | Insertion adds the inserted finding at the front of its own rank's subsequence and leaves every other rank's subsequence unchanged |
| RiskAssessor.PrioritizeStable | app/risk_assessor.py:22-25 | Stability: for every rank, the findings of that rank appear in the result in their input order |
| RiskAssessor.GroupedKeepsRanks | app/risk_assessor.py:22-25 | The reference order keeps every rank's subsequence of the input |
| RiskAssessor.SortedUnique | app/risk_assessor.py:22-25 | Two rank-sorted sequences with the same per-rank subsequences are equal |
| RiskAssessor.PrioritizeIsGrouped | app/risk_assessor.py:11-25 | The result is exactly the Critical findings, then High, Medium, Low and all others, each group in input order |
| RiskAssessor.StableSortIsPrioritize | app/risk_assessor.py:22-25 | Any sequence that is sorted by rank and has the input's per-rank subsequences (any stable sort by rank) is the result |
| RiskAssessor.PrioritizeSortedUnchanged | app/risk_assessor.py:22-25 | An input already in rank order comes back unchanged |
| RiskAssessor.SameRankUnchanged | app/risk_assessor.py:22-25 | An input whose findings all share one rank comes back unchanged |
| RiskAssessor.PrioritizeIdempotent | app/risk_assessor.py:22-25 | Prioritising a prioritised list changes nothing |
| RiskAssessor.UnrankedLast | app/risk_assessor.py:11-24 | A finding whose score is not one of the four levels is followed only by such findings |
| PraetorianGuard.SplitJoin | src/praetorian_guard/lambda_function.py:100 | Joining the parts of a `split(":::")` with `":::"` gives back the original string |
| PraetorianGuard.SplitPartsFree | src/praetorian_guard/lambda_function.py:100 | No part of a split contains the separator |
| PraetorianGuard.SplitFirstCut | src/praetorian_guard/lambda_function.py:100 | Python's cutting rule: the first part runs up to the leftmost `":::"` (none starts inside it) and the remaining parts are the split of the text after that occurrence, so cuts never overlap; with no occurrence the first part is the whole string |
| PraetorianGuard.ExampleOverlappingSeparator | src/praetorian_guard/lambda_function.py:98-100 | For "arn:aws:s3:::x::::" the bucket name is ":", as Python's leftmost, non-overlapping split gives, not "" |
| PraetorianGuard.SplitFree | src/praetorian_guard/lambda_function.py:100 | A string without the separator splits into itself alone |
| PraetorianGuard.BucketNameOfS3Arn | src/praetorian_guard/lambda_function.py:98-100 | For `arn:aws:s3:::` followed by `rest`, the bucket name is the last `":::"`-part of `rest`, and it is `rest` itself when `rest` holds no `":::"` |
| PraetorianGuard.BucketNameSuffix | src/praetorian_guard/lambda_function.py:100 | The bucket name is a suffix of the target and holds no `":::"` |
| PraetorianGuard.ExampleBucketName | src/praetorian_guard/lambda_function.py:99-100 | "arn:aws:s3:::my-bucket" names the bucket "my-bucket" |
| PraetorianGuard.SkippedUnlessFail | src/praetorian_guard/lambda_function.py:69-76 | An object payload whose status is not exactly "FAIL" is skipped with no call |
| PraetorianGuard.MissingBodySkipped | src/praetorian_guard/lambda_function.py:65-76 | A record without a body reads as `{}`, has no status and is skipped |
| PraetorianGuard.MalformedParseFailed | src/praetorian_guard/lambda_function.py:63-128 | A body that is not valid JSON ends as a decode error with no call |
| PraetorianGuard.NoCallWithoutPlaybook | src/praetorian_guard/lambda_function.py:80-83 | A failing record whose control id is absent, not a string, or not in the playbook map gets no call. An absent or string id ends as a lookup miss; a non-string id ends as a lookup miss, or as `Failed` when it cannot be a key |
| PraetorianGuard.NoCallWithoutRole | src/praetorian_guard/lambda_function.py:85-92 | A mapped failing record whose role variable is unset or empty ends as a missing role with no call |
| PraetorianGuard.NoCallWithoutS3Target | src/praetorian_guard/lambda_function.py:98-103 | A record past the role gate whose target is missing, empty or lacks the `arn:aws:s3:::` prefix ends as a parameter error with no call |
| PraetorianGuard.DispatchedCall | src/praetorian_guard/lambda_function.py:85-122 | When every gate passes, the call names the playbook's document, has exactly the parameters BucketName and AutomationAssumeRole, and has the tags TriggeredBy, ControlID and TargetID in that order |
| PraetorianGuard.IssueIff | src/praetorian_guard/lambda_function.py:69-122 | A record leads to a call if and only if all four gates pass; the call is then authorised and its tags carry the record's control id and target id |
| PraetorianGuard.AutomationService.StartAutomationExecution | src/praetorian_guard/lambda_function.py:111-122 | The request is appended to the service's log and the answer is the service's behaviour on it at that log position |
| PraetorianGuard.HandleRecord | src/praetorian_guard/lambda_function.py:63-133 | One record's handling logs exactly the call its gate chain decides (none or one), and its outcome is that decision resolved by the service's answer |
| PraetorianGuard.LambdaHandler | src/praetorian_guard/lambda_function.py:35-138 | The handler logs exactly the calls of all records in record order, returns every record's outcome and always acknowledges with 200 "Processing complete." |
| PraetorianGuard.LogAdvance | src/praetorian_guard/lambda_function.py:62-133 | One more handled record extends the log of the batch so far by that record's own call, if any |
| PraetorianGuard.OutcomesAdvance | src/praetorian_guard/lambda_function.py:62-133 | One more handled record extends the outcomes so far by that record's own outcome |
| PraetorianGuard.OutcomesFor | src/praetorian_guard/lambda_function.py:62-133 | There is exactly one outcome per record |
| PraetorianGuard.CallsForAppend | src/praetorian_guard/lambda_function.py:62-133 | The calls of two consecutive runs of records are those of the first followed by those of the second |
| PraetorianGuard.BatchSplit | src/praetorian_guard/lambda_function.py:62-133 | Handling a batch issues the same calls as handling its two halves one after the other, so no record affects another's call |
| PraetorianGuard.AtMostOneCallPerRecord | src/praetorian_guard/lambda_function.py:62-133 | A batch issues at most as many calls as it has records |
| PraetorianGuard.CallsFromIssues | src/praetorian_guard/lambda_function.py:62-122 | Every logged call is the call some record's gate chain decided |
| PraetorianGuard.CallOfRecord | src/praetorian_guard/lambda_function.py:62-122 | Calls are issued in record order: a record's call comes right after the calls of the records before it |
| PraetorianGuard.OutcomeOfRecord | src/praetorian_guard/lambda_function.py:62-133 | Each record's outcome depends only on that record and on the service's answer to its own call, so an error in one record leaves the others' outcomes as they would be |
| PraetorianGuard.CallsAuthorised | src/praetorian_guard/lambda_function.py:80-122 | Every call a batch issues names a mapped document, runs under that playbook's non-empty role, targets an S3 ARN's bucket and is tagged with its origin |
| PraetorianGuard.NoFailNoCalls | src/praetorian_guard/lambda_function.py:74-76 | A batch without a failing record issues no call |
| PraetorianGuard.RedeliveryRepeatsCall | src/praetorian_guard/lambda_function.py:44 | A record delivered twice is dispatched twice, so the handler is not idempotent |
| PraetorianGuard.ExampleDispatch | src/praetorian_guard/lambda_function.py:23-122 | A failing CM-6 record for "my-bucket", with the role set, issues exactly one call to the CM-6 document with that bucket and role |
| PraetorianGuard.ExampleMixedBatch | src/praetorian_guard/lambda_function.py:62-122 | In a batch of a passing record, a failing record of an unmapped control and the CM-6 record, only the last is dispatched; the first two are skipped and a lookup miss |

## Left out

- The real `start_automation_execution` call and the construction of its client are not modelled. The service is an object that logs each request and answers through an arbitrary `behaviour`.
- A raised exception and an answer without an `AutomationExecutionId` both appear as `ServiceError`.
- Logging setup and every log message are left out. The per-record outcome the source only logs is returned as `outcomes` instead.
- `json.loads` is taken as given: a record carries its decoded payload (`Malformed`, `NotObject` or an object). `json.dumps` of a decoded payload cannot fail and is not modelled.
- A JSON value in the payload is described only by what the handler's code can trip over: a string, absence, or a non-string that is truthy or not and hashable or not.
- An event or a record that is not a JSON object is not modelled. The records list is absent or a list of messages.
- The process environment and the playbook map are parameters of the handler. `RemediationPlaybookMap` is the map the source ships.
- The order of the keys in the call's `Parameters` dictionary is not captured: it is a map.
- The Lambda `context` argument is not used by the source and is not modelled.
- RiskAssessor.Prioritize: the input list not being modified holds because sequences are values and is not stated separately. A database `NULL` score is not modelled: scores are strings, and `NULL` would rank 4 like any unlisted score.
- The docstring's claim that the handler is idempotent is false as written. `RedeliveryRepeatsCall` shows that a redelivered failing record issues a second call.
- `app/main.py` (HTTP routing and templates), `app/database.py` and `app/models.py` (schemas), `app/auth.py` (an API-key comparison) and `tests/test_api.py` are not part of this model.
