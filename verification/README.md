# IAM Sentinel: verified model of the analysis and workflow cores

The project models, in Dafny, the parts of IAM Sentinel where several functions
have to agree, and proves what they promise together.

* **Permission graph and blast radius** (`Policy`, `Records`, `Digraph`,
  `GraphEdges`, `PermissionGraph`, `GraphTheorems`, `DatasetTheorems`,
  `GraphExamples`). The builder keeps the returned edge list and the directed graph in place, one
  attribute record per node pair, last write wins. The descendants closure and
  the shortest paths that the program takes from `networkx` are written out and
  proved. The theorems restate everything in terms of principals, grants and
  trust policies: which edges exist, who reaches an administrator, which path
  is recorded and by which labels, how scores move.
* **Least-privilege policies** (`LeastPrivilege`, `LeastPrivilegeTheorems`,
  `PolicyMeaning`): the suggested document never allows what the original did
  not, also when conditions, denials and exclusions get their meaning; it grants
  exactly the exercised actions, and is a fixpoint of the tool.
* **Finding workflow, exceptions, re-scans** (`Workflow`, `FindingDatabase`,
  `WorkflowTheorems`, `StatusTheorems`, `ExceptionTheorems`, `ScanTheorems`,
  `DetectionTheorems`, `RunExamples`).
  `FindingDatabase` updates the tables in place; `Workflow` gives each service
  call as a function on table values; the theorem modules quantify over every
  sequence of calls; `RunExamples` holds the call sequences on which a
  documented claim fails.
* **Last active administrator** (`UserAdmin`, `UserTheorems`, `AdminProtocol`,
  `RowLocks`, `RowLockRuns`, `RowLockLoss`, `RowLockTrace`): the operations one
  at a time, and as interleaved transactions under SQLite's write lock and under
  Postgres row locks, with the exact condition under which a count is safe there.
* **Views that must agree with the cores** (`Posture`, `Rounding`,
  `ScoreTheorems`, `Findings`, `IsoDates`, `Dashboard`, `RunDiff`,
  `DiffTheorems`, `GraphView`, `SortQuery`).
  `Ordering` and `Text` hold the Python orders and string operations.

## Assumptions

* Scores are reals. The exponential in the posture score is any function that
  turns sums into products and lies above its tangent at 0 (`Posture.IsDecay`);
  these two laws determine it. Python's `round` is round-half-to-even.
* sha256 is injective on the joined fields, so a fingerprint is that text.
* Each service call, and the persist phase of each scan, is one atomic step,
  and a created run is executed once. Rows are read in the order they were
  written where the query gives no order.
* Lower-casing covers ASCII letters. `date.fromisoformat` is a parameter: the
  input is absent, not a date, or a calendar date.
* A request is permitted when some Allow statement whose condition holds matches
  it and no such Deny statement does; a statement that names no resource is on
  every resource (`PolicyMeaning.Permits`).
* Unique principal uids are required only where a member says `UniqueUids`.
* A transaction takes the administrator lock before its first statement, as the
  service requires of its callers. The insert of `create_user` takes the write
  lock, and its duplicate-email query is read with it.
* Under Postgres each statement reads the latest committed rows (its default
  isolation level), and a locking read re-evaluates its condition on a row it
  waited for. A transaction that is not over may roll back, which frees its rows.

## Where the code and its documentation differ

* A service wildcard of *any* service counts as sensitive, because the catalogue
  contains `*` (`Policy.SensitiveExactly`).
* CAN_ESCALATE overwrites CAN_ASSUME for a pair in the graph, so a principal that
  can launch compute with PassRole loses its assumable roles. The closure is the
  documented one exactly when no role trusts such a principal
  (`GraphTheorems.AssumableIsIntendedExactlyWhen`). An added grant can lower a
  score (`GraphExamples.AddedGrantCanLowerTheScore`): it takes assumable roles
  away exactly when it turns a trusted principal into such a launcher
  (`GraphTheorems.AssumableMonotoneExactlyWhen`), and otherwise no score falls
  (`GraphTheorems.ScoreMonotone`).
* A suggested policy keeps the exercised actions but can drop resources: an
  action with a statement of its own is scoped to that statement even if a
  wildcard granted it elsewhere (`LeastPrivilegeTheorems.NarrowEntryExample`).
  The exact condition is `LeastPrivilegeTheorems.KeepsEveryResourceExactlyWhen`.
* Two different findings can share a fingerprint (`Findings.FingerprintCollides`):
  a finding shares its own with another exactly when one of its fields contains
  `|` (`Findings.FingerprintCollidesExactlyWhen`).
* `app/services/diff_service.py:194-196` says a run has one finding per
  fingerprint and lines 119-121 that net risk spans every finding. A denied
  action that is logged twice gives two findings with one fingerprint
  (`app/analysis/checks/log_checks.py:130-137`, `RunExamples.DuplicateExample`).
  Net risk spans every finding exactly when both runs drop the same risk
  (`DiffTheorems.NetRiskSpansEveryFindingExactlyWhen`), and a run drops none
  under the condition of `DiffTheorems.NoRowDroppedExactlyWhen`.
* An evidence key that appears with the value null is not reported as a change
  (`RunDiff.EvidenceReportedExactly`).
* The stored new and resolved counts compare with the newest other completed run
  by id, which need not be older (`RunExamples.OverlapExample`). They are the
  counts of the diff exactly when that run has the smaller id or reported as many
  fingerprints as the new scan finds (`ScanTheorems.SummaryAgreesExactlyWhen`).
* At scan time not every finding is open: one whose group is suppressed or
  accepted stays so (`ScanTheorems.ScanIsAllActiveExactlyWhen`), and then the
  dashboard can show more than the stored score (`RunExamples.RedetectedExample`).
* The account the posture curve is said to be anchored to, four critical findings
  and one escalation path, loads less than 75 and scores 39, not 37
  (`app/analysis/risk.py:121-127`, `ScoreTheorems.ReferenceAccountScores39`); a
  load of 80 does score 37 (`ScoreTheorems.LoadEightyScores37`).
* `transition` accepts moves into and out of the exception states; those break
  the pairing with exception rows (`ExceptionTheorems.PlainTransitionDiscipline`).
* The Postgres lock covers the administrators of the statement's snapshot.
  A transaction whose snapshot is out of date can count while it holds no
  row, and then the last administrator can be lost
  (`RowLockTrace.StaleCountLosesTheLastAdmin`). One stays if every passing count
  of a weakening operation is made while the transaction holds another
  administrator (`RowLocks.GuardedSchedulesKeepAnAdmin`), and a single count
  without that is safe exactly when the transaction holds some row
  (`RowLockLoss.UnguardedCountIsSafeExactlyWhen`).

## Model

| member | source | states |
|---|---|---|
| Policy.GrantedActions | app/domain/policy.py:132-147 | the loop returns the union of what each Allow statement grants, with NotAction read as everything |
| Policy.SensitiveExactly | app/domain/policy.py:150-163 | an action is sensitive exactly when it is `*`, a wildcard of any service, or one of the twenty actions the catalogue names |
| Policy.GrantsActionIsSomeCover | app/domain/policy.py:166-181 | a set grants a target exactly when one of its entries covers it |
| Policy.CoverTransitive | app/domain/policy.py:166-181 | coverage composes through any entry but the bare `*` |
| Policy.CoverComposesThrough | app/domain/policy.py:166-181 | coverage composes through an entry for all outer and inner actions if and only if the entry is not the bare `*` |
| Policy.BareWildcardBreaksCover | app/domain/policy.py:166-181 | the counterexample: a service wildcard covers `*`, `*` covers everything, the service wildcard does not |
| Records.PrincipalGrantedActions | app/analysis/graph.py:103-107 | the grants of a principal are the union over its attached, existing policies |
| Digraph.Descendants | app/analysis/graph.py:351-356 | the closure holds exactly the other nodes reachable from the source |
| Digraph.ShortestPath | app/analysis/graph.py:317-335 | breadth-first search returns a shortest walk, and none exactly when the target cannot be reached |
| GraphEdges.RenderInjective | app/analysis/graph.py:99-100 | the `kind:uid` text of a node determines kind and uid, whatever the uid contains |
| DatasetTheorems.NamesExactly | app/analysis/graph.py:99-100 | the node texts and the relation names |
| GraphEdges.GraphBuilder.AddEdge | app/analysis/graph.py:126-134 | a repeated (source, target, relation) is ignored; otherwise the edge is listed and overwrites the attributes of its pair |
| GraphEdges.GraphBuilder.AddStatementEdges | app/analysis/graph.py:182-200 | adds the action and resource edges of every Allow statement, in order |
| GraphEdges.GraphBuilder.AddPolicyEdges | app/analysis/graph.py:170-179 | adds the policy edges of every attached, existing policy |
| GraphEdges.GraphBuilder.AddAssumeEdges | app/analysis/graph.py:221-243 | adds an edge for each trusted known principal of each role |
| GraphEdges.GraphBuilder.AddEscalationEdges | app/analysis/graph.py:246-314 | adds the edges of the three primitives and returns the self-attach action of each principal that has one |
| PermissionGraph.ShortestOf | app/analysis/graph.py:317-335 | the first of the nearest reachable targets wins |
| PermissionGraph.NodeLeqIsTotalOrder | app/analysis/graph.py:392 | sorting the targets is by a total order on nodes |
| PermissionGraph.BestIsNearest | app/analysis/graph.py:392-401 | the path to the first nearest sorted target is a nearest administrator with the smallest uid |
| PermissionGraph.PathTo | app/analysis/graph.py:392-417 | the path that is recorded, with its labels, in both the hop and the self-attach case |
| PermissionGraph.ScorePrincipal | app/analysis/graph.py:338-432 | writes the score and the two counts that the closure and the union of grants determine, and records a path exactly when one is due |
| PermissionGraph.CanReachAdminByTargets | app/analysis/graph.py:379-384 | the target set is nonempty exactly when an administrator can be reached or the principal is one |
| PermissionGraph.Build | app/analysis/graph.py:110-167 | without the graph library or principals nothing changes; otherwise every principal is scored, the edges are those requested, and the paths are the recorded ones |
| GraphTheorems.ReturnedEdgesDistinct | app/analysis/graph.py:126-134 | no (source, target, relation) is returned twice |
| GraphTheorems.ReturnedPolicyEdgesExactly | app/analysis/graph.py:170-200 | the returned edges of the three policy relations are exactly those that attachments of existing policies and their Allow statements give |
| DatasetTheorems.PolicyEdgesExactly | app/analysis/graph.py:170-200 | the three policy relations, edge by edge: attachment of an existing policy; an action that an Allow statement of the policy in force lists, with its sensitivity; each resource it lists, or `*` |
| DatasetTheorems.ReturnedAssumeExactly | app/analysis/graph.py:203-243 | the returned edges contain a CAN_ASSUME edge exactly when a statement of a role's trust policy allows sts:AssumeRole, in any case, or `*`, and names another known principal |
| DatasetTheorems.ReturnedEscalateExactly | app/analysis/graph.py:246-314 | with unique uids, a CAN_ESCALATE edge with a label is returned exactly when the source holds, by name or wildcard, iam:PassRole and a compute launch (to a role), a credential action (to any other principal) or an action that attaches a policy (to itself); the label is the launch or the first action |
| DatasetTheorems.EscalatesByGrants | app/analysis/graph.py:246-314 | which pairs escalate at all, by the same entries, whether or not uids are unique |
| DatasetTheorems.LaunchesByGrants | app/analysis/graph.py:266-269 | the PassRole launchers are the holders of an entry for iam:PassRole and one for ec2:RunInstances or lambda:CreateFunction |
| GraphTheorems.StoredRelation | app/analysis/graph.py:126-142 | a pair is stored as CAN_ESCALATE if it escalates, else as CAN_ASSUME if it is trusted |
| GraphTheorems.StoredExactly | app/analysis/graph.py:351-378 | the pairs the closures walk are exactly the trusted and not escalating ones, and the trusted or escalating ones |
| GraphTheorems.AssumableIsIntendedExactlyWhen | app/analysis/graph.py:351-356 | all assumable sets are the closure of the returned CAN_ASSUME edges if and only if no role trusts a PassRole launcher |
| GraphTheorems.LauncherAssumesNothing | app/analysis/graph.py:351-356 | a PassRole launcher has no assumable roles in the graph |
| GraphTheorems.AdminsExactly | app/analysis/graph.py:147-153 | the administrator nodes are the principals that hold `*` or a self-attach primitive |
| DatasetTheorems.AdminsByGrants | app/analysis/graph.py:147-153 | they are the holders of `*`, `iam:*` or one of the four actions that attach a policy |
| GraphTheorems.ReachesOtherExactly | app/analysis/graph.py:379-384 | reaching another administrator in the graph is having a walk of hops between principals to one |
| GraphTheorems.RecordedPathIsNearest | app/analysis/graph.py:392-408 | a recorded path to another principal is a walk of hops to an administrator, none is nearer, and among equally near ones its uid is smallest |
| DatasetTheorems.RecordedLabels | app/analysis/graph.py:396-408 | a path recorded to another principal has one label for each hop: passrole_compute_launch for an escalation to a role, the first credential action for one to any other principal, CAN_ASSUME otherwise |
| DatasetTheorems.RecordedSelfLabel | app/analysis/graph.py:409-417 | a path that stays on its principal names the first policy-attaching action it holds |
| GraphTheorems.RecordedExactlyWhen | app/analysis/graph.py:386-417 | one path is recorded exactly when the principal does not hold `*` and has a self-attach primitive or reaches another administrator; it stays on the principal exactly when no other is reachable |
| GraphTheorems.GrowingPoliciesGrantMore | app/analysis/graph.py:103-107 | adding Allow statements to policies never takes a grant from any principal |
| GraphTheorems.CanReachAdminMonotone | app/analysis/graph.py:374-384 | with more grants no principal stops reaching an administrator |
| GraphTheorems.BlastScoreRange | app/analysis/graph.py:419-430 | the score is in 0..100, at least 20 when an administrator is reachable and at most 80 otherwise |
| GraphTheorems.BlastScoreMonotone | app/analysis/graph.py:419-430 | the score does not decrease in any of its inputs |
| ScoreTheorems.BlastScoreExactly | app/analysis/graph.py:419-430 | the score is the nearest integer of 108 sixtieths a sensitive action up to 25, 5 an action up to 300, 60 a role up to 10 and 1200 for a way to an administrator, ties to even |
| GraphTheorems.AssumableMonotoneExactlyWhen | app/analysis/graph.py:351-356 | with more grants no principal loses an assumable role if and only if no trusted principal becomes a PassRole launcher |
| GraphTheorems.ScoreMonotone | app/analysis/graph.py:338-432 | with more grants no score falls, unless a trusted principal becomes a PassRole launcher |
| GraphTheorems.ReachableActionsExactly | app/analysis/graph.py:351-361 | the counted actions are the grants of the principal and of every principal that a walk of trusted hops out of non-launchers leads to |
| DatasetTheorems.ReachableSensitiveExactly | app/analysis/graph.py:358-367 | the counted sensitive actions are those of them that are `*`, a service wildcard or one of the named ones |
| GraphExamples.AddedGrantCanLowerTheScore | app/analysis/graph.py:126-142 | a concrete dataset where one more grant lowers a score from 5 to 4 |
| LeastPrivilege.MappedExactly | app/domain/logparse.py:238-260 | an event is mapped exactly when it is named, no sign-in event, and qualified or from an action service; an unqualified name gets that service |
| LeastPrivilege.BuildActivityIndex | app/analysis/engine.py:32-68 | one pass gives each principal's exercised actions and event count, and the log window |
| LeastPrivilege.ActionResources | app/analysis/least_privilege.py:92-105 | maps each granted entry to the resources of all its statements |
| LeastPrivilege.HasUnsupportedForms | app/analysis/least_privilege.py:108-132 | true exactly when some statement is a Deny, or has a Condition, NotAction or NotResource |
| LeastPrivilege.ResourcesFor | app/analysis/least_privilege.py:135-145 | the sorted own scope, else the union of covering scopes, else `*` |
| LeastPrivilege.GroupByScope | app/analysis/least_privilege.py:152-155 | groups the actions by their scope, each group in the order given |
| LeastPrivilege.BuildPolicy | app/analysis/least_privilege.py:148-164 | one statement per scope, sorted by scope |
| LeastPrivilege.Recommend | app/analysis/least_privilege.py:167-238 | the refusals in their order; otherwise the suggestion for the used and granted actions |
| PolicyMeaning.RefusedExactly | app/analysis/least_privilege.py:108-206 | no suggestion exactly on less than 14 days, fewer than 3 events, or a statement that does not allow, has a condition or excludes actions or resources, in that order |
| PolicyMeaning.AllowExactly | app/domain/policy.py:71-72 | a statement allows exactly when it has no effect or one that spells Allow in any case |
| LeastPrivilegeTheorems.UnusedExactly | app/analysis/least_privilege.py:178-180 | a granted sensitive entry other than `*` is reported as unused exactly when no used action is the entry or of the service it stands for |
| LeastPrivilegeTheorems.SuggestedNeverBroadens | app/analysis/least_privilege.py:148-164 | whatever (action, resource) the suggestion allows, some original statement allowed, as long as the bare `*` is not a used action |
| LeastPrivilegeTheorems.SuggestedNeverBroadensLogged | app/analysis/engine.py:32-68 | the same for the actions the log index delivers |
| PolicyMeaning.PermittedIsAllowed | app/domain/policy.py:132-147 | whatever a list of statements permits when Deny, Condition, NotAction and NotResource get their meaning, the tool's reading allows and grants |
| PolicyMeaning.SupportedReadExactly | app/analysis/least_privilege.py:108-132 | on lists without the four refused forms the reading is exact, whatever conditions hold |
| PolicyMeaning.SuggestionPermitsNoMore | app/analysis/least_privilege.py:108-164 | whatever a returned suggestion permits, under any valuation of conditions, the policies permit under every valuation, as long as the bare `*` is not a used action |
| LeastPrivilegeTheorems.SuggestedGrantsExactly | app/analysis/least_privilege.py:178-182 | the suggestion grants exactly the used and granted actions |
| LeastPrivilegeTheorems.SuggestedActionsOnce | app/analysis/least_privilege.py:152-163 | no action is listed twice in a statement |
| LeastPrivilegeTheorems.SuggestedStatementsDiffer | app/analysis/least_privilege.py:152-163 | two statements have different resource sets and share no action |
| LeastPrivilegeTheorems.SuggestionIsAFixpoint | app/analysis/least_privilege.py:178-238 | recommending again on the suggestion, with the same activity, is not refused and gives the same document, as long as the bare `*` is not a used action |
| LeastPrivilegeTheorems.KeepsEveryResourceExactlyWhen | app/analysis/least_privilege.py:135-145 | an action stays allowed on all its resources if and only if the kept actions that cover it are suggested without bound, or on every resource of every original entry that covers it |
| LeastPrivilegeTheorems.OwnEntryKeepsEveryResourceExactlyWhen | app/analysis/least_privilege.py:135-145 | for a kept action that no other used action covers: if and only if it has no entry of its own, or that entry's scope contains `*`, or no covering entry has a resource beyond that scope |
| LeastPrivilegeTheorems.NarrowEntryLosesResources | app/analysis/least_privilege.py:139-140 | an action granted by name on one resource and by wildcard on another loses the second |
| LeastPrivilegeTheorems.NarrowEntryExample | app/analysis/least_privilege.py:139-140 | a policy with `s:g` on one resource and `s:*` on another: for a principal that used `s:g` the suggestion loses the second |
| Workflow.CreateExceptionExactly | app/services/exception_service.py:57-102 | an exception is created exactly when the form is valid and the group open; otherwise nothing is written |
| Workflow.DueRowsExactly | app/services/exception_service.py:136-145 | the candidates are exactly the unrevoked rows whose expiry is not after the cutoff |
| FindingDatabase.Database.MakeTransition | app/services/workflow_service.py:86-124 | refuses a move outside the table; otherwise writes the history row, the status and the snapshots of the last run |
| StatusTheorems.MoveAcceptedExactly | app/services/workflow_service.py:32-46 | a move to resolved is accepted exactly from investigating, one to investigating or an exception exactly from open, one to open exactly from the four others; a refused move changes nothing |
| StatusTheorems.MoveWrites | app/services/workflow_service.py:86-124 | an accepted move writes the status, one history row with the trimmed note, and the snapshots of the last run, and nothing else |
| StatusTheorems.EveryStatusIsReached | app/services/workflow_service.py:32-40 | each of the five statuses is reached by a run from the empty tables |
| StatusTheorems.ExceptionAcceptedExactly | app/services/exception_service.py:57-102 | an exception is created exactly on an open group, for one of the two kinds, with a reason that is not white space and no unreadable date, an accepted risk only by an admin outside public mode or an unchecked caller |
| StatusTheorems.ExceptionWrites | app/services/exception_service.py:90-102 | it adds one unrevoked row with the trimmed reason, its creator and the ISO date, and moves the group |
| FindingDatabase.Database.AddException | app/services/exception_service.py:57-102 | the checks in their order, then the transition, then the row |
| FindingDatabase.Database.Revoke | app/services/exception_service.py:105-122 | closes the active row, if any, and reopens the group |
| FindingDatabase.Database.ExpireExceptions | app/services/exception_service.py:125-157 | the loop closes the due rows and reopens the excepted groups, and no transition it makes can fail |
| FindingDatabase.Database.BulkApply | app/services/bulk_service.py:57-136 | applies the action id by id and collects successes and failures |
| FindingDatabase.Database.GetOrCreate | app/services/scan_service.py:323-364 | finds or creates the group of a fingerprint and reopens a resolved one |
| FindingDatabase.Database.PersistAll | app/services/scan_service.py:367-392 | the loop over the findings of a run |
| FindingDatabase.Database.AddRun | app/services/scan_service.py:56-77 | adds a pending run under the next id |
| FindingDatabase.Database.FinishScan | app/services/scan_service.py:183-209 | persists the findings, counts against the previous completed run, and completes the run |
| FindingDatabase.Database.AbortScan | app/services/scan_service.py:199-204 | what a failing scan leaves: the findings persisted so far and a failed run |
| DetectionTheorems.DetectionWrites | app/services/scan_service.py:323-392 | a detected finding is filed under the group of its fingerprint in the account: a known one is marked as seen and reopened if resolved, an unknown one starts open, each with its history row; the finding carries the status of its group |
| DetectionTheorems.PreviousExactly | app/services/scan_service.py:401-406 | the compared run is the other completed run of the account with the largest id |
| DetectionTheorems.ScanWrites | app/services/scan_service.py:183-209 | which fields of its run a scan writes when it succeeds and when it fails, and that other runs keep theirs |
| DetectionTheorems.NewRunWrites | app/services/scan_service.py:56-77 | a new run is pending under an id not used before |
| WorkflowTheorems.EveryRunIsConsistent | app/services/workflow_service.py:86-124 | after every sequence of calls each history is a chain of allowed hops from (none to open) to the status, the last run's findings carry the status, and findings belong to the one group of their fingerprint |
| WorkflowTheorems.ServeKeeps | app/services/scan_service.py:323-392 | every single call keeps that invariant |
| WorkflowTheorems.HopAudited | app/services/workflow_service.py:104-113 | recording an allowed hop keeps every history a chain |
| WorkflowTheorems.PersistFindingKeeps | app/services/scan_service.py:367-392 | every turn of the persist loop keeps the invariant, also when a run reports one fingerprint twice |
| WorkflowTheorems.OnlyKnownStatuses | app/services/workflow_service.py:32-46 | no reachable group has a status outside the table |
| ExceptionTheorems.PlainTransitionDiscipline | app/services/workflow_service.py:86-124 | a transition keeps exception rows and statuses paired if and only if it neither leaves nor enters an exception status |
| ExceptionTheorems.ExceptionsBackStatuses | app/services/exception_service.py:57-157 | over every run without such transitions, re-scans included, an excepted group has exactly one unrevoked row, of its kind, and every other group none |
| ExceptionTheorems.RevokeDisciplined | app/services/exception_service.py:105-122 | revoking keeps the pairing whatever state the group is in |
| ExceptionTheorems.RevokeUndoesCreate | app/services/exception_service.py:57-122 | revoking a fresh exception restores groups and findings and leaves a closed row and two history rows |
| ExceptionTheorems.ExpireEffect | app/services/exception_service.py:125-157 | closes exactly the due rows, reopens exactly the excepted groups that have one, each once and with one history row, leaves the others alone, and a second call on the day does nothing |
| ExceptionTheorems.ExpiryNote | app/services/exception_service.py:125-157 | the note of those history rows |
| ExceptionTheorems.DueByDate | app/services/exception_service.py:48-54 | in every reachable state a row is due by text exactly when its date is not after today |
| ExceptionTheorems.LapsesOnItsDate | app/services/exception_service.py:57-157 | a new exception is reopened by expiry exactly from its date on, and never without one |
| IsoDates.IsoOrder | app/services/exception_service.py:136-142 | ISO dates compare as text as they compare as dates (section 5.1 of RFC 3339, full-date of section 5.6) |
| IsoDates.IsoReads | app/services/exception_service.py:48-54 | the text has ten characters, year, month and day in decimal with hyphens between |
| ExceptionTheorems.BulkIsItemByItem | app/services/bulk_service.py:57-136 | a bulk action succeeds for exactly the selected ids it would succeed for alone, each once; the rest are failures, and a bad form changes nothing |
| ScanTheorems.PlayKeepsRun | app/services/scan_service.py:367-392 | whatever is done later, the findings of a finished run keep everything but their status |
| ScanTheorems.PersistStores | app/services/scan_service.py:367-392 | the findings of the analysis are stored, all and in order |
| ScanTheorems.StoredCounts | app/services/scan_service.py:401-411 | the stored counts are, at any later time, the differences of the key sets the diff reads |
| ScanTheorems.ComparedKeys | app/services/scan_service.py:401-411 | whatever is done later, the diff reads for the new run the fingerprints of its analysis, and for the compared run those it had before the scan |
| ScanTheorems.SummaryAgreesExactlyWhen | app/services/scan_service.py:401-411 | the stored counts equal those of the diff if and only if the compared run has the smaller id or reported as many fingerprints as the analysis |
| ScanTheorems.KeysOfRun | app/services/scan_service.py:437-439 | the fingerprints on the groups of a run are those recomputed from its findings |
| ScanTheorems.LivePostureAtLeastStored | app/services/dashboard.py:60-75 | in every reachable state the live posture of a completed run is at least its stored score, and equal while all its findings are open or investigating |
| ScanTheorems.ScanIsAllActiveExactlyWhen | app/analysis/engine.py:97-100 | right after a scan all its findings are active if and only if none belongs to a suppressed or accepted group |
| RunExamples.DuplicateExample | app/services/diff_service.py:117-122 | a run of the service in which a finding is reported twice: the first copy is shadowed with its risk, and net risk is half the movement |
| RunExamples.OverlapExample | app/services/scan_service.py:401-411 | two overlapping scans: the summary stores one new finding, the diff shows one resolved |
| RunExamples.RedetectedExample | app/services/dashboard.py:60-75 | a critical finding detected, suppressed and detected again: the live posture is 100, the stored one lower |
| Dashboard.PostureFactors | app/services/dashboard.py:44-57 | the loop gives the factors of the engine, one for each finding, in order |
| Dashboard.ActiveIsSome | app/services/dashboard.py:65-75 | the factors of the active findings are a sub-multiset of those of all findings |
| Dashboard.ActiveFactsExactly | app/services/dashboard.py:65-69 | each open or investigated finding of the run counts once, and no other |
| Findings.FactorExactly | app/services/dashboard.py:44-57 | a factor carries the severity, the recorded blast radius of a known principal or 0, and whether the evidence has a path that is not empty |
| Findings.FingerprintExactly | app/domain/fingerprint.py:13-27 | the text is check, principal, resource and policy with bars between, absent ones empty |
| Findings.FingerprintIdentifies | app/domain/fingerprint.py:13-27 | a finding without `\|` in its fields shares its fingerprint only with findings of the same fields |
| Findings.FingerprintCollidesExactlyWhen | app/domain/fingerprint.py:13-27 | a finding shares its fingerprint with one of other fields if and only if one of its fields contains `\|` |
| Findings.FingerprintCollides | app/domain/fingerprint.py:26-27 | a concrete pair of different findings with one fingerprint |
| Posture.DiminishingMonotone | app/analysis/risk.py:141-147 | the effective count does not decrease and stays below 20/3 |
| Posture.LoadBounded | app/analysis/risk.py:156-163 | the load is below 1220/3 for every list of factors |
| Posture.DecayAtTheBound | app/analysis/risk.py:165 | the two laws put the decay at 61/12 above 1/200 |
| Posture.PostureScoreRange | app/analysis/risk.py:150-165 | the posture score is between 1 and 100 |
| Posture.PostureAntitone | app/analysis/risk.py:150-165 | more factors never raise the score, and their order does not matter |
| Posture.FindingRecord.Score | app/analysis/risk.py:53-70 | writes impact, likelihood and the clamped risk on the finding |
| Posture.RiskMonotone | app/analysis/risk.py:23-78 | sub-scores stay in 1..5, risk in 0..100, and a larger blast radius or a privileged role lowers neither |
| ScoreTheorems.SubScoresExactly | app/analysis/risk.py:23-50 | which severity, blast radius, category, failures and account state give which impact and likelihood |
| ScoreTheorems.RiskExactly | app/analysis/risk.py:53-70 | the risk is the nearest integer, at most 100, of 220, 495, 770 or 990 twentieths for the severity, 100 a step of impact, 80 a step of likelihood, 160 and 100 for the two modifiers |
| ScoreTheorems.EffectiveCount | app/analysis/risk.py:141-147 | the first finding counts 1, each further one something and less than the one before |
| ScoreTheorems.LoadOfCopies | app/analysis/risk.py:150-163 | n like findings load 1, 3, 8 or 18 times their effective count, 25 times it if they escalate, and 40 for a full blast radius |
| ScoreTheorems.LoadEightyScores37 | app/analysis/risk.py:121-127 | a load of 80 scores 37 |
| ScoreTheorems.ReferenceAccountScores39 | app/analysis/risk.py:121-127 | four critical findings with one escalation path load less than 75 and score 39 |
| Rounding.ClampMonotone | app/analysis/risk.py:19-20 | rounding and clamping keep the order |
| ScoreTheorems.ClampIsNearest | app/analysis/risk.py:19-20 | the clamped score is the nearest integer, of two the even one |
| RunDiff.Diff | app/services/diff_service.py:212-256 | the error cases; otherwise the board of the smaller run id against the larger, in whichever order they are passed |
| RunDiff.CompareCommon | app/services/diff_service.py:238-245 | the loop makes a card for each changed common fingerprint and counts the others |
| RunDiff.ByRiskSorts | app/services/diff_service.py:206-209 | sorting puts riskier cards first, ties by title, and keeps the cards |
| RunDiff.EvidenceReportedExactly | app/services/diff_service.py:143-162 | a key is reported, once, exactly when `get` differs; a key that appears is reported exactly when its value is not null |
| RunDiff.EvidenceSwaps | app/services/diff_service.py:143-162 | swapping the sides swaps each change |
| DiffTheorems.BoardConservesFindings | app/services/diff_service.py:232-245 | new, changed and unchanged add up to the newer run, resolved, changed and unchanged to the older |
| DiffTheorems.BoardConservesRisk | app/services/diff_service.py:117-122 | net risk is new risk minus resolved risk plus the changed deltas |
| DiffTheorems.EmptyBoardExactly | app/services/diff_service.py:138-140 | the board is empty exactly when both runs have the same fingerprints and no two rows differ in severity, risk, status or `get` of an evidence key |
| DiffTheorems.ChangedExactly | app/services/diff_service.py:68-74 | a fingerprint has a changed card exactly when both runs have it and its rows differ so, and the card tells each value before and after |
| DiffTheorems.OneSidedExactly | app/services/diff_service.py:235-236 | a fingerprint has a new card exactly when only the newer run has it, a resolved card exactly when only the older one has, about that row and without a delta |
| DiffTheorems.SidesAreSorted | app/services/diff_service.py:206-209 | on each side risks do not increase, and cards of one risk go by title |
| DiffTheorems.BoardsAgree | app/services/diff_service.py:212-256 | two diffs of the same two runs have the same cards, counts and net risk |
| DiffTheorems.NetRiskSpansEveryFindingExactlyWhen | app/services/diff_service.py:117-122 | the net risk of a board is the movement over every finding of both runs if and only if the two runs drop the same risk |
| DiffTheorems.NoRowDroppedExactlyWhen | app/services/diff_service.py:191-203 | a run drops no risk if and only if each finding shadowed by a later one of its fingerprint has risk 0, and no finding if and only if none is shadowed |
| GraphView.Canvas.AddEdge | app/services/graph_view.py:170-185 | draws the edge and its ends unless its id is drawn |
| GraphView.Canvas.AddPolicyChain | app/services/graph_view.py:187-202 | the worklist ends and draws exactly the chain edges whose source can be reached from the start |
| GraphView.PrincipalGraph | app/services/graph_view.py:109-230 | draws exactly the focal chain, the hops and the chains of the expanded hop targets, once per id, with both ends, and no stray node |
| GraphView.WantedExactly | app/services/graph_view.py:187-222 | those rows by relation name: the policy rows a chain of policy rows leads to from the focal principal, its CAN_ASSUME and CAN_ESCALATE rows, and the policy rows from each hop target if no path is recorded or the target is on it |
| GraphView.NodesExactly | app/services/graph_view.py:147-168 | a drawn node is named by kind and uid and is the focus exactly when it has the uid of the page |
| GraphView.DrawnExactly | app/services/graph_view.py:170-185 | the ends, id, relation and sensitivity of a drawn row, and that it is on the path exactly when the path takes the hop |
| SortQuery.Parse | app/services/finding_query.py:104-117 | the loop of the parser |
| SortQuery.ColumnsExactly | app/services/finding_query.py:104-117 | the nine sortable columns |
| SortQuery.SignsExactly | app/services/finding_query.py:104-117 | a minus sorts downwards, a plus or no sign upwards, any other column is left out |
| SortQuery.DefaultExactly | app/services/finding_query.py:104-117 | without a usable column the table is sorted by risk, then severity, both downwards |
| SortQuery.ParseUndoesPrint | app/services/finding_query.py:120-122 | parsing what is printed gives back every nonempty list of sortable keys |
| SortQuery.ParsePrintParse | app/services/finding_query.py:104-122 | every input parses to a nonempty list of sortable keys that printing and parsing keep |
| UserAdmin.LastAdminExactlyWhen | app/services/user_service.py:134-190 | the lockout error is raised if and only if the input is valid, there is an active administrator and completing would leave none |
| UserAdmin.ExecuteKeepsAnAdmin | app/services/user_service.py:134-190 | no operation leaves the table without an active administrator |
| UserTheorems.RoleChangeExactly | app/services/user_service.py:134-164 | which role changes are refused, locked out and accepted, by the users and roles themselves, and that an accepted one writes the role alone |
| UserTheorems.ActivationExactly | app/services/user_service.py:167-190 | the same for activating and deactivating |
| UserTheorems.CreationExactly | app/services/user_service.py:93-115 | which of the five checks of a new user fails first, or that none does |
| UserTheorems.CreationWrites | app/services/user_service.py:116-131 | an accepted creation adds an active user of the given role under the next id, with a trimmed, lower-case address nobody had, and nothing else |
| UserTheorems.ExecuteKeepsUsers | app/services/user_service.py:93-190 | no operation gives a user an unknown role or two users one address |
| UserAdmin.UserTable.UpdateUserRole | app/services/user_service.py:134-164 | the checks in their order, the new role and the audit row |
| UserAdmin.UserTable.SetUserActive | app/services/user_service.py:167-190 | the checks in their order, the new flag and the audit row |
| UserAdmin.UserTable.AddUser | app/services/user_service.py:93-131 | the checks in their order, the new row and the audit row |
| AdminProtocol.AlwaysAnActiveAdmin | app/services/user_service.py:41-73 | in every state of every interleaving there is an active administrator, and the table is what the committed operations give one after the other |
| AdminProtocol.LockoutOnlyWhenNeeded | app/services/user_service.py:146-152 | a transaction ends in the lockout error only if completing it then would leave none |
| AdminProtocol.VerdictsAreSerial | app/services/user_service.py:41-73 | each transaction ends with the verdict and the effect its operation has when executed alone at that moment |
| AdminProtocol.FinishedStays | app/services/user_service.py:41-73 | a transaction that ended or rolled back takes no further step |
| AdminProtocol.StepKeeps | app/services/user_service.py:41-90 | every step of every transaction keeps the protocol's invariant |
| RowLocks.GuardedSchedulesKeepAnAdmin | app/services/user_service.py:63-73 | under row locks, if every passing count of a weakening operation is made while holding an administrator other than its target, every schedule keeps an active one |
| RowLocks.CoveredSchedulesKeepAnAdmin | app/services/user_service.py:63-73 | the same if every count is made while holding all active administrators |
| RowLocks.LockoutOnlyWhenNeeded | app/services/user_service.py:146-152 | under row locks too, a transaction ends in the lockout error only if completing it then would leave none |
| RowLocks.CheckGuards | app/services/user_service.py:146-151 | a covered count that passes leaves another administrator locked until the commit |
| RowLockLoss.UnheldCountLosesAdmins | app/services/user_service.py:63-73 | once a weakening operation has counted while it holds no row, a schedule whose other counts are all guarded ends without an active administrator |
| RowLockLoss.UnguardedCountIsSafeExactlyWhen | app/services/user_service.py:63-73 | after a weakening count has passed, every schedule of guarded counts keeps an active administrator if and only if the transaction held some row as it counted |
| RowLockTrace.StaleCountLosesTheLastAdmin | app/services/user_service.py:63-73 | from one active administrator, a schedule with an out-of-date snapshot ends without any |
| RowLockTrace.CastExists | app/services/user_service.py:93-131 | users and creations as that schedule needs them exist |
| RowLockRuns.SchedulesKeepUsers | app/services/user_service.py:93-190 | the same under every schedule with row locks |
| RowLockRuns.FinishedStays | app/services/user_service.py:63-73 | under row locks too, a transaction that is over takes no further step |
| RowLockRuns.LocksItsSnapshot | app/services/user_service.py:63-73 | a transaction locks only the rows that were active administrators in its own snapshot, and the row it writes |

## Left out

- Flask routes, templates, schemas, pagination and error envelopes: presentation.
- SQLAlchemy, sessions and migrations: tables are maps and sequences. A call that raises after it wrote keeps what it wrote, as in the function itself; the caller's rollback is not modelled.
- `revoke_exception` of an open group closes a stale row before it raises: the model keeps that effect.
- Ingestion, parsing of logs and files, the seed organisation: I/O and demo data.
- The catalogue of checks and the compliance table: finite data.
- Scan status and progress between creation and the persist phase: one pending stage.
- The summary's counts by severity, category and status, and principals at risk: plain tallies.
- Audit events of bulk actions, assignment, comments, tickets: no state that the properties speak of.
- `available_actions` and the button labels: presentation of the transition table.
- Thresholds, ratio and summary texts of a recommendation: they do not affect the document.
- The riskiest-principals list and the letter grade of the dashboard: display.
- Which of several equally short walks to one target `networkx` returns: any of them satisfies the model.
- The isolated nodes that the builder adds for principals: they have no edges and no path.
- Labels, names and scores on the nodes of the drawn graph: presentation. The recorded escalation path is an input of the page.
- Password hashing and list order of users: not part of the rule.
