# Fasit, modelled and proved

Fasit decides which feature versions run in which tenant environments. A reconcile loop
takes a snapshot of the database, computes one decision per environment and feature,
publishes deploy instructions to the agents, and reads its own state back from two
append-only logs. This project models the loop and what it depends on, and proves what
holds in every reachable state, for every input, schedule and iteration order.

The modules follow the program:

- `DotSplit`, `ConfigMerge`, `ConfigTree`, `Computed`, `Confluence`, `RenderInputs`,
  `RequiredFields`, `HelmRender`, `RenderedValues`: from configuration rows and templates
  to Helm values.
- `Model`, `Selection`, `Winners`, `WinnersExact`, `AssignmentTable`: which assignment
  applies where.
- `Compute`, `Prescription`, `RenderedAction`, `RenderStability`, `WorkerPool`, `PoolCycle`:
  the decisions of a cycle, what they depend on, and the goroutines that compute them.
- `CurrentView`, `DecisionLog`, `DeployLog`, `Redeploy`, `DeployRuns`, `LateStatus`,
  `Convergence`, `RenderedRuns`: the logs, and whole runs of the reconciler.
- `Status`, `History`: what is read back from the logs.
- `Fasitd`, `LogBuffer`: two small concurrent protocols.
- `Basics`, `Tree`: strings in Go's order, sorting, iteration over Go maps, JSON-like
  objects.

Loops of the program are methods with loops; tables, the session registry and the log
buffer are classes. Methods are proved against functions or relations, and the lemmas are
about those. What these functions compute is said a second time without them, field by
field and by position in the tables, where a reader wants to compare it with the program:
`Prescription.CycleDecides`, `RenderedValues`, `ConfigMerge.OverlayRows`,
`DecisionLog.WrittenExactly`, `DeployLog.TimeoutExactly`, `History.RollUpEntries` and others
whose names end in `Exactly` or `Entries`. Iteration over a Go map is a method that returns the keys in any order, so
what is proved about its callers holds for every order. Goroutines are steps of state
machines that interleave in any way.

Where the program does not do what one might expect, the model keeps its behaviour, and a
lemma says exactly when the expected property holds; most come with an input for which it
fails:

- Keys with escaped dots: the check for nested keys compares raw text, so it rejects
  `a.b` beside `a\.b.c` and lets `a\.b` beside `a\.b.c` through, where the build panics
  (`ConfigTree.EscapedKeysEscapeThePreScan`, exact condition in
  `ConfigTree.MergedRowsExact`).
- A computed key inside another computed key makes the result depend on Go's map order
  (`Confluence.NestedKeysDependOnOrder`, exact condition in `Confluence.ConfluentExactly`),
  and so what a cycle renders (`RenderStability.StableExactly`).
- A template that renders a mapping with a key that is not a string panics, because the
  repair of its maps asserts string keys. Beside a template that fails, Go's map order then
  decides between a panic and an error (`Computed.GenerateConfluent`,
  `RenderedAction.SameTablesSameFinish`).
- A stored environment value called `name` or `kind` wins in the reconcile loop and loses on
  the page of one environment (`RenderInputs.BulkAndSingleAgree`,
  `HelmRender.BulkAndSingleRenderAgree`).
- A stored environment value called `name` that is not a string makes the loop panic, and
  not the page. All the ways in which a render can panic are in `HelmRender.PanicsExactly`.
- The check for required fields walks through values that are not objects and so overlooks
  fields (`RequiredFields.WalkPassesThroughLeaves`, exact conditions in
  `RequiredFields.OverlookedExactly` for one field, `RequiredFields.ListExactly` for the
  fields of a feature and `RequiredFields.RightForAllFields` for all of an object).
- Two targets can share a key on the feature page (`Winners.TargetKeyCollision`), and a
  target with an empty value can be missed by the list of an environment; the exact
  conditions are in `WinnersExact.FeaturePageExactly`, `WinnersExact.EnvironmentListExactly`
  and, for both pages and the loop together, `WinnersExact.ThreeWaysExactly`.
- A failed deploy whose configuration is unchanged counts as in sync and is not retried, so
  an environment converges exactly if no winner was left that way
  (`Convergence.ConvergesIffNothingStuck`).
- A status message for a deploy that was timed out, arriving after a redeploy, hides the
  redeploy (`LateStatus.LateStatusIsUnsafe`, exact condition in
  `DeployRuns.SafeExactlyWhenOnTime`).
- Closing the log buffer can publish a later batch before an earlier one, and return before
  the earlier one is published (`LogBuffer.CloseCanOvertake`, exact conditions in
  `LogBuffer.OrderExactly` and, with publishes that fail, `LogBuffer.TopicOrderExactly`).
- A batch of log lines whose publish fails is gone (`LogBuffer.AtTheTopicIffPublished`).

The comment above `deploy_status` in the first log migration calls it a view over the log;
a later migration replaces it by a table that a trigger maintains. `CurrentView` proves that
the two show the same rows, in whatever order transactions commit, and the other modules
define the view as the last row of each pair.

## Model

| member | source | states |
|---|---|---|
| DotSplit.SmartDotSplit | internal/feature/featureutil/dotsplit.go:8-36 | the one-pass parser computes the specification `Split`, errors with their positions included |
| DotSplit.SplitPrint | internal/feature/featureutil/dotsplit.go:8-36 | printing a well-formed path and parsing it gives the path back |
| DotSplit.PrintSplit | internal/feature/featureutil/dotsplit.go:8-36 | every accepted key parses to a well-formed path that prints to the key |
| DotSplit.SplitExact | internal/feature/featureutil/dotsplit.go:8-36 | a key parses to a path iff the path is well formed and prints to the key |
| DotSplit.SplitFails | internal/feature/featureutil/dotsplit.go:8-36 | a key is rejected iff no well-formed path prints to it |
| DotSplit.SplitErrs | internal/feature/featureutil/dotsplit.go:8-36 | which error: a dot at the end, else one at the start, else the first dot right after a separating dot, with its position; and none where there is none of these |
| DotSplit.SplitInjective | internal/feature/featureutil/dotsplit.go:8-36 | two different keys never denote one path |
| ConfigMerge.MergeConfigRows | internal/reconciler/compute.go:278-316 | the result is the overlay: strictly sorted by key, limited to the include keys unless there are none, each key with its last environment row, else its last global row |
| ConfigMerge.MergeConfigs | internal/feature/model.go:35-69 | the same overlay, from the feature package's row types |
| ConfigMerge.OverlayRows | internal/reconciler/compute.go:278-316 | of each allowed key the environment's last row, or where it has none the last global row, and no other row, sorted by key |
| ConfigMerge.OverlayUnique | internal/feature/model.go:35-69 | the overlay is one sequence: the two implementations agree, and map order and sorting algorithm cannot be seen |
| ConfigMerge.OverlayFilterIsASet | internal/reconciler/compute.go:258-293 | the order and multiplicity of the include keys do not matter |
| ConfigTree.MakeHelmConfigMap | internal/feature/model.go:71-112 | the pre-scan and the build loop compute the specification, with the panic of the unchecked type assertion as an outcome |
| ConfigTree.BuildExact | internal/feature/model.go:90-111 | for distinct, prefix-free paths the build never meets a leaf on its way, and every row's value is at its path and nothing else is in the object |
| ConfigTree.MakeHelmConfigMapExact | internal/feature/model.go:71-112 | for all rows: an error iff a key is malformed or the textual pre-scan hits; otherwise a panic iff a path runs through an earlier row's; the object is exact iff no path is a prefix of another |
| ConfigTree.ErrorExactly | internal/feature/model.go:71-88 | the error reported is that of the first row that is malformed or has a joined beginning of its path as a key, the shortest such beginning being named |
| ConfigTree.MergedRowsExact | internal/reconciler/compute.go:116-127 | on merged rows, which are sorted by key, no row is overwritten: an error iff a key is malformed or the textual pre-scan hits; otherwise a panic iff one path is a prefix of another; otherwise the exact object |
| ConfigTree.PlainKeysExact | internal/feature/model.go:71-112 | for distinct keys without backslashes: an error iff a key is malformed or a strict dotted prefix of another, never a panic, otherwise the exact object |
| ConfigTree.EscapedKeysEscapeThePreScan | internal/feature/model.go:73-88 | two pairs of keys with escaped dots: one conflict missed, one reported that is none |
| Computed.GenerateWith | internal/feature/computed.go:74-101 | for any iteration order of Go's map, the loop fills in every active computed key, or ends early with an error or the panic of a template |
| Computed.GenerateExact | internal/feature/computed.go:74-128 | a key that fails or panics ends every order early; otherwise, without nested keys, every order succeeds, keeps all that was there, puts the rendered value at every other computed path, and adds only the objects on the way |
| Computed.FilledUnique | internal/feature/computed.go:103-128 | at most one object is filled in that way |
| Computed.PanicsInSomeOrderExactly | internal/feature/computed.go:130-147 | some iteration order panics iff some active key is well formed, has no leaf on its way, and its template, not being empty, panics |
| Computed.ReportsCause | internal/feature/computed.go:84-147 | whatever ends the loop comes from the first key at which it cannot go on, one that is declared for the kind: malformed, with a segment named that is not the last, with an empty or failing template, or with one that panics |
| Computed.GenerateConfluent | internal/feature/computed.go:74-147 | without nested computed keys all iteration orders give the same object, or all an error, or all a panic, iff there are not both a key that fails and a key that panics |
| Confluence.NestedKeysDependOnOrder | internal/feature/computed.go:84-128 | with any two nested computed keys, whatever else is computed and whatever leaves the templates render to, one iteration order fails and another succeeds |
| Confluence.ConfluentExactly | internal/feature/computed.go:74-133 | all iteration orders agree, for every configuration and all templates that do not both fail and panic, iff no computed key lies inside another, or one is malformed or has an empty template, which fails every order |
| RenderInputs.BuildEnvValues | internal/reconciler/fetch.go:219-317 | the bulk maps hold, for every environment, the template data `ValuesFor` in bulk |
| RenderInputs.BuildGlobalConfigMap | internal/reconciler/fetch.go:178-194 | the map groups exactly the global rows of each feature, in order |
| RenderInputs.BuildEnvConfigMap | internal/reconciler/fetch.go:196-217 | the nested map groups exactly the rows of each environment and feature, in order |
| RenderInputs.MappingValuesForEnvironment | internal/feature/queries.go:152-202 | the template data `ValuesFor` of one environment, its own name and kind written last |
| RenderInputs.EnvValuesAgree | internal/reconciler/fetch.go:264-274 | the two ways give one environment the same values iff it stores no other `name` or `kind` |
| RenderInputs.BulkAndSingleAgree | internal/reconciler/fetch.go:219-317 | both ways give templates the same data iff no environment the template can see stores a `name` or `kind` other than its own |
| RequiredFields.ValidateFields | internal/feature/model.go:114-157 | lists exactly the required, unset fields without a configured row, whatever the map order |
| RequiredFields.ReportedHasNoValue | internal/feature/model.go:138-156 | on every object, a reported field is absent or nil: nothing that is set is reported |
| RequiredFields.OverlookedExactly | internal/feature/model.go:138-156 | a field without a value is overlooked iff a scalar lies on its way and the walk finds the remaining segments in the object that holds the scalar |
| RequiredFields.UnsetMeaning | internal/feature/model.go:138-156 | where only objects and nils lie on the way, a field is reported iff its path is absent or nil |
| RequiredFields.RightForAllFields | internal/feature/model.go:138-156 | the check is right for all fields of an object iff the object holds no value but objects and nils |
| RequiredFields.ListExactly | internal/feature/model.go:114-157 | the list is exactly the required fields that neither a row configures nor the object gives a value, iff all such required fields are well formed and the walk is not misled on the way to any |
| HelmRender.FasitMisleads | internal/feature/queries.go:129-141 | every object that is checked holds `fasit.env`, which is not an object to the walk, so for each the check overlooks some field |
| RequiredFields.WalkPassesThroughLeaves | internal/feature/model.go:148-151 | an object without the field for which the field is not reported |
| HelmRender.RenderHelmValues | internal/feature/queries.go:120-146 | one of the outcomes the specification allows for some map order |
| HelmRender.RenderFromSnapshot | internal/reconciler/compute.go:116-152 | rendering from the snapshot's maps gives a possible outcome of the bulk way |
| HelmRender.RenderForEnvironment | internal/feature/queries.go:61-146 | rendering for one environment gives a possible outcome of the single way |
| RenderedValues.InputRowsExactly | internal/reconciler/compute.go:117-120 | the rows a render works on, from the tables: of each key the feature declares for the kind, or of every key if it declares none, the environment's last row of the feature, else the last global one |
| RenderedValues.TemplateDataExactly | internal/reconciler/fetch.go:219-317 | what templates are given, from the tables: the environment's last stored values with its own name and kind where they count, its tenant's name, management environment and other environments in order |
| RenderedValues.RenderedFromTables | internal/feature/queries.go:120-146 | without nested computed keys the values hold, `fasit` aside, every row at its path, at every computed key left open what its template renders for that data, and no other value |
| RenderedValues.FasitExactly | internal/feature/queries.go:128-136 | at `fasit` lie the tenant's name, the environment's shown name and its kind, and nothing else |
| HelmRender.OutcomeDeterministic | internal/feature/queries.go:120-146 | without nested computed keys the result is the same for every map order, errors up to which one is reported first, iff there are not both a key that fails and a key that panics |
| HelmRender.BulkAndSingleRenderAgree | internal/reconciler/compute.go:116-152 | the render of the loop and the render shown for the environment can have the same results, for every feature and all templates, iff no environment a template can see stores a `name` or `kind` other than its own |
| HelmRender.DifferenceShows | internal/reconciler/compute.go:129-152 | where it does, every feature with a computed key that is reached and has a template can tell: some templates make the two renders differ |
| HelmRender.PanicsExactly | internal/feature/computed.go:178-192 | a render can panic iff the configuration cannot be built; or a computed key is reached whose template panics; or, in the loop only, a stored value replaced the environment name by something other than a string and some iteration order gets that far |
| HelmRender.SameWayRenderAgrees | internal/reconciler/compute.go:116-152 | without nested computed keys, rendering again from the same tables gives the same result, errors up to which one is reported first; a panic comes beside another result only where one key fails and another one panics, and that result is then an error |
| Selection.MatchAssignments | internal/reconciler/compute.go:194-202 | keeps exactly the matching assignments, in order |
| Selection.MostSpecificPerFeature | internal/reconciler/compute.go:204-221 | one assignment per feature, the winner, oldest first, whatever the map order |
| Selection.WinnerBest | internal/featureassignment/queries.go:214-243 | there is a winner iff the feature occurs, and no assignment of the feature beats it |
| Selection.SelectsBest | internal/reconciler/compute.go:194-221 | for an environment: an assignment of the feature whose labels it has, with the most labels and of those the newest; none iff none fits |
| Selection.SelectionEntries | internal/reconciler/compute.go:194-221 | the winners of an environment: of each feature with a fitting assignment the best, once, earlier created ones first |
| Selection.BestIsSelected | internal/reconciler/compute.go:204-221 | with distinct creation times whichever assignment is the best in that sense is selected |
| Selection.SelectionUnique | internal/featureassignment/queries.go:224-243 | with distinct creation times the selection is one sequence, whatever the order and repetition of the input |
| Winners.TargetKey | internal/ui/featureenvs/environments.go:160-171 | the key is the sorted `k=v;` encoding, whatever the map order |
| Winners.LatestAssignmentPerTarget | internal/ui/featureenvs/environments.go:146-158 | exactly the first assignment of each key, each once, in the order of the input |
| Winners.WinningAssignments | internal/ui/featureenvs/environments.go:116-130 | each environment gets the winner among the matching assignments, or none |
| Winners.TargetKeyInjective | internal/ui/featureenvs/environments.go:160-171 | labels whose keys are free of `=` and whose values are free of `;` have one key only if they are equal |
| Winners.TargetKeyCollision | internal/ui/featureenvs/environments.go:160-171 | two different targets with one key |
| Winners.ContainmentsAgree | internal/reconciler/model.go:127-134 | SQL containment is the Go check plus: the environment has every label of the target |
| Winners.ReconcilerFindsWinner | internal/reconciler/reconcilersql/reconciler.sql.go:529-556 | the loop finds the assignment that applies, and finds one iff there is one |
| Winners.EnvironmentListFindsWinner | internal/featureassignment/featureassignmentsql/feature_assignments.sql.go:365-391 | so does the list of an environment, for targets without empty values |
| Winners.FeaturePageFindsWinner | internal/ui/featureenvs/environments.go:116-171 | so does the feature page, where no two active targets of the feature share a key |
| WinnersExact.FeaturePageExactly | internal/ui/featureenvs/environments.go:116-171 | the feature page finds the assignment that applies in every environment iff no two active targets of the feature share a key |
| WinnersExact.EnvironmentListExactly | internal/featureassignment/featureassignmentsql/feature_assignments.sql.go:365-391 | the list finds it in every environment iff no active target of the feature has an empty value |
| Winners.ThreeWaysOneWinner | internal/ui/featureenvs/environments.go:116-180 | all three pick the same assignment, or all three none |
| WinnersExact.ThreeWaysExactly | internal/ui/featureenvs/environments.go:116-180 | with distinct creation times all three pick the same in every environment iff no active target of the feature has an empty value and no two share a key |
| WinnersExact.CleanTargetsAgree | internal/ui/featureenvs/environments.go:116-180 | so they do for targets whose keys are free of `=` and whose values are free of `;` and not empty |
| AssignmentTable.FeatureAssignments.Create | internal/featureassignment/queries.go:245-296 | the target's active row is deactivated, the new one inserted; one active row per target stays true |
| AssignmentTable.FeatureAssignments.Deactivate | internal/featureassignment/featureassignmentsql/feature_assignments.sql.go:81-93 | exactly the row with the identifier becomes inactive |
| AssignmentTable.FeatureAssignments.DeactivateByFeatureAndTarget | internal/featureassignment/featureassignmentsql/feature_assignments.sql.go:95-114 | exactly the feature's rows with that target become inactive |
| AssignmentTable.CreateKeepsIndex | internal/database/migrations/0089_schema.sql:76-77 | a create never violates the unique index on active rows |
| AssignmentTable.ActiveAfterCreate | internal/featureassignment/featureassignmentsql/feature_assignments.sql.go:13-79 | the active rows are the new one and those of other features or targets |
| AssignmentTable.CreateApplies | internal/featureassignment/queries.go:245-296 | a new assignment applies in an environment iff its target matches and no matching active one has more labels |
| AssignmentTable.CreateLeavesOtherFeatures | internal/featureassignment/queries.go:245-296 | no other feature's winner changes |
| AssignmentTable.DeactivateDoesNotUndoCreate | internal/featureassignment/queries.go:173-191 | deactivating a target after a create does not bring the replaced assignment back |
| Compute.CheckDependencies | internal/reconciler/compute.go:223-256 | reports the names of the first dependency that is not met |
| Compute.FirstUnmetMeaning | internal/reconciler/compute.go:223-256 | nothing is reported iff every AllOf name and, where there are any, one AnyOf name is deployed |
| Compute.FirstUnmetNames | internal/reconciler/compute.go:223-256 | what is reported belongs to the first dependency that is not met: its AllOf names that are not deployed, or else its AnyOf names |
| Compute.ComputeAction | internal/reconciler/compute.go:100-192 | the step-by-step decision equals the specification |
| Compute.DecisionMeaning | internal/reconciler/compute.go:57-192 | for each of the eight actions, the case in which exactly it is taken; which decisions carry values and a hash, and that those are the render's |
| Prescription.CycleDecides | internal/reconciler/compute.go:57-192 | every decision of a cycle names an environment of the snapshot by identifier, name and tenant, and the best fitting assignment there; its action, message, values and hash are those of its case, written out; every environment and feature with a fitting assignment has exactly one |
| Compute.SequentialDecisions | internal/reconciler/compute.go:53-93 | the nested loops yield exactly one decision for each environment and winner |
| Compute.CompleteInAnyOrder | internal/reconciler/compute.go:23-40 | the order in which results arrive does not matter |
| Compute.DependenciesMonotone | internal/reconciler/compute.go:223-256 | more deployed features never make a met dependency unmet |
| RenderedAction.ComputeActionFromRows | internal/reconciler/compute.go:100-192 | from the rows and environment values of the snapshot to the decision: it is the decision for an outcome that rendering those tables can have, and a panic only where the dependencies are met and the render can panic, the template's way included |
| RenderedAction.EndingsExactly | internal/reconciler/compute.go:122-173 | a render ends ready iff values are rendered and hashed with the feature's version and chart; lacking configuration iff fields are missing; broken iff the configuration, the generation or the hash fails |
| RenderedAction.SameTablesSameEnding | internal/reconciler/compute.go:116-173 | without nested computed keys, the same tables end in the same values and hash or in the same missing fields, or both in an error |
| RenderedAction.SameTablesSameFinish | internal/reconciler/compute.go:116-173 | without nested computed keys the same tables always finish alike, panics included, iff there are not both a key that fails and a key that panics |
| RenderStability.StableExactly | internal/reconciler/compute.go:116-173 | for all tables and all templates that do not both fail and panic, a feature finishes alike again and again iff no computed key lies inside another, or one is malformed or has an empty template |
| WorkerPool.RunsAreSafeAndFinite | internal/reconciler/compute.go:42-98 | no interleaving sends on or closes a closed channel, and none has more steps than the initial measure |
| WorkerPool.SomeoneCanMove | internal/reconciler/compute.go:42-98 | there is no deadlock before the output is closed and drained |
| WorkerPool.PoolRefinesLoop | internal/reconciler/compute.go:42-98 | when a run can go no further the consumer has exactly the sequential loop's decisions, each as often as there |
| WorkerPool.ReceivedIsPartial | internal/reconciler/compute.go:42-98 | at any moment the consumer has part of that |
| PoolCycle.PoolDeliversDecisions | internal/reconciler/compute.go:42-98 | on a snapshot, every schedule delivers one decision per environment and winner, the dispatcher's gates included |
| CurrentView.OnInsert | internal/database/migrations/0098_reconcile_current_state.sql:43-86 | one firing of the trigger keeps the table equal to the latest row of each pair by creation time and id |
| CurrentView.InsertAll | internal/database/migrations/0098_reconcile_current_state.sql:43-136 | inserting a log row by row yields the latest row of each pair |
| CurrentView.ShowsNewest | internal/database/migrations/0098_reconcile_current_state.sql:43-86 | the row shown for a pair is one that no row of the pair is later than, by creation time and then by id |
| CurrentView.ViewUnique | internal/database/migrations/0098_reconcile_current_state.sql:41-42 | the table is the same for every commit order |
| CurrentView.InOrderLastRow | internal/database/migrations/0093_reconcile_logs.sql:30-47 | where rows arrive in order the view is the last row of each pair |
| DecisionLog.DecisionTable.WriteResultLogs | internal/reconciler/reconciler.go:92-132 | appends exactly the decisions that differ from their pair's latest row, in order |
| DecisionLog.AppendsNews | internal/reconciler/reconciler.go:104-132 | the rows appended record, field by field and in order, exactly the decisions whose pair has no row in the view or one with another assignment, version, action or message |
| DecisionLog.WrittenExactly | internal/reconciler/reconciler.go:92-132 | after a cycle the view shows each decision with its assignment, version, action and message, and a row was appended for it iff it was news |
| DecisionLog.LogIsDestutteredHistory | internal/reconciler/reconciler.go:64-132 | over any run of cycles, failed writes included, a pair's log is the sequence of its decisions with repetitions removed |
| DecisionLog.RunsAreStutterFree | internal/reconciler/reconciler.go:64-132 | neighbouring rows of a pair differ in every reachable log |
| DecisionLog.ViewAfterCycle | internal/reconciler/reconciler.go:92-132 | after a cycle the view shows its decisions, and the old row of pairs it did not decide |
| DecisionLog.RepeatingAppendsNothing | internal/reconciler/reconciler.go:92-132 | writing the same results again, in any order, appends nothing |
| DecisionLog.StutterNeedsOnePerPair | internal/reconciler/reconciler.go:104-122 | two equal decisions for one pair would both be written |
| DeployLog.DeployTable.FetchDeploys | internal/reconciler/fetch.go:137-169 | the snapshot's two maps show, for every pair, the latest hash and status and whether it is deployed |
| DeployLog.FetchedExactly | internal/reconciler/fetch.go:137-169 | a pair has an entry iff it has a row in the log, with the hash and status of its last one |
| DeployLog.FetchedDeployedExactly | internal/reconciler/fetch.go:137-169 | a feature counts as deployed iff the last row of the pair says deployed |
| DeployLog.DeployTable.HandlerHelm | internal/reconciler/receiver.go:103-154 | a status of a known deploy appends its latest row with the new status, hash carried on; unknown deploys and environments append nothing |
| DeployLog.StatusExactly | internal/reconciler/receiver.go:103-154 | one row that repeats the deploy's last row with the new status and time, iff deploy and environment are known |
| DeployLog.DeployTable.Deploy | internal/reconciler/deployer.go:54-124 | values that cannot be encoded end the call before anything is published; otherwise every deploy decision is published in order and a row written for exactly those that succeed; none at all if the write fails |
| DeployLog.SentExactly | internal/reconciler/deployer.go:107-116 | a row is written iff some published deploy decision has its pair, assignment, version and hash, and it is sent under that decision's identifier |
| DeployLog.SentInOrder | internal/reconciler/deployer.go:96-124 | the rows come in the order of the decisions |
| DeployLog.PublishedInOrder | internal/reconciler/deployer.go:62-101 | exactly the deploy decisions are published, each under its identifier, in their order |
| DeployLog.DeployTable.TimeoutPendingDeploys | internal/reconciler/reconcilersql/reconciler.sql.go:661-688 | exactly the pairs in progress for over an hour get a failed row of the same deploy |
| DeployLog.TimeoutExactly | internal/reconciler/reconcilersql/reconciler.sql.go:661-688 | for exactly the pairs whose last row says sent or installing and is more than an hour old, one row that repeats it as failed |
| Redeploy.Redeploy | internal/reconciler/redeploy.go:59-111 | hands over the requested decision or refuses with its reason, and what the log is then |
| Redeploy.GateMatchesLoop | internal/reconciler/redeploy.go:69-107 | on one snapshot and clock a redeploy is granted exactly where the loop skips the pair as unchanged, with that decision but for action and message; refused with the loop's own message where it decides otherwise; not found where it decides nothing |
| DeployRuns.LineageInEveryRun | internal/reconciler/deployer.go:96-124 | in every reachable log each deploy begins with a sent row and all its rows share environment, assignment, feature, version and hash |
| DeployRuns.LatestOwned | internal/reconciler/reconcilersql/reconciler.sql.go:86-102 | a pair's latest row is the latest row of its own deploy |
| DeployRuns.StepSafeIffOnTime | internal/reconciler/receiver.go:111-154 | from a safe log, a cycle, redeploy or timeout leads to a safe log, and a status message does iff no other deploy of the pair is in progress |
| DeployRuns.SafeExactlyWhenOnTime | internal/reconciler/reconciler.go:64-151 | a whole run is safe iff no status message arrives for one deploy of a pair while another is in progress |
| DeployRuns.PromptRunsAreSafe | internal/feature/model.go:542-546 | runs without statuses after a terminal row are safe |
| DeployRuns.AtMostOneInFlight | internal/reconciler/compute.go:175-187 | in a safe log a pair has at most one deploy in flight |
| LateStatus.LateStatusIsUnsafe | internal/reconciler/receiver.go:111-154 | a run of cycle, timeout, redeploy and late status that the code can take and that ends unsafe, whatever the status |
| Convergence.ReportsSettle | internal/reconciler/receiver.go:111-154 | however installing and deployed messages interleave, once nothing is in flight every pair in progress is deployed and the others are as before |
| Convergence.RoundForWinner | internal/reconciler/compute.go:100-192 | after a round a winner runs the desired configuration iff it did, or it was not stuck and its dependencies were deployed; nothing becomes or stops being stuck |
| Convergence.DeployedExactly | internal/reconciler/compute.go:57-192 | which features are deployed after each round, exactly |
| Convergence.SameDeployedRoundByRound | internal/reconciler/reconciler.go:64-87 | two runs from one log deploy the same features round by round, whatever the schedules, result orders, identifiers and clocks |
| Convergence.DoneExactly | internal/reconciler/compute.go:175-187 | after n rounds a winner is done iff it was at the start, or is not stuck and its dependencies were deployed a round before |
| Convergence.StuckForGood | internal/reconciler/compute.go:182-187 | a pair whose last deploy of the desired hash failed is never retried |
| Convergence.ConvergesByRank | internal/reconciler/compute.go:223-256 | a winner of rank r runs the desired configuration after r + 1 rounds and is left unchanged from then on |
| Convergence.ConvergesIffNothingStuck | internal/reconciler/compute.go:100-192 | with as many rounds as ranks everything converges iff nothing was stuck at the start |
| Convergence.EmptyLogConverges | internal/reconciler/compute.go:100-192 | from an empty log everything runs the desired configuration after n rounds iff the dependencies can be ranked below n |
| Convergence.ConvergedIsStill | internal/reconciler/deployer.go:90-124 | once converged, a cycle decides only unchanged and the log stops growing |
| RenderedRuns.RenderedRoundsAreRounds | internal/reconciler/reconciler.go:64-87 | cycles that each render again from unchanged tables, in any map order, are cycles of one desired state, where no winner has nested computed keys |
| RenderedRuns.RenderedRunsConverge | internal/reconciler/reconciler.go:64-87 | such cycles converge iff nothing was stuck at the start |
| RenderedRuns.RenderedRunsSettle | internal/reconciler/compute.go:175-187 | and then every further render is recognised as unchanged and the log stops growing |
| Status.JoinReconcileSignals | internal/reconciler/status.go:245-298 | one entry for each environment in either log, in order, each joined from its last signals; `StateMeaning` and `TimeFromItsLog` beside it tabulate the state and time of such an entry |
| Status.JoinEntry | internal/reconciler/status.go:245-298 | an entry names its assignment and environment, takes message and decision time from the environment's last decision signal and its state from the last signals of both logs |
| Status.ReconcileStatuses | internal/reconciler/status.go:128-148 | the join of one assignment's rows |
| Status.AllReconcileStatuses | internal/reconciler/status.go:155-187 | an entry for exactly the assignments with a signal, each the join of its rows |
| Status.JoinUnique | internal/reconciler/status.go:245-298 | a join is determined by the signal of each environment |
| Status.BatchIsSingle | internal/reconciler/status.go:128-187 | reading one assignment gives the entry of reading all, or an empty list where there is none, whatever order the queries return |
| History.AggregateRecentDeploys | internal/reconciler/recentdeploys.go:45-90 | one group per version, in order of first appearance, summing each deploy's first row; panics iff the number of groups is negative |
| History.RollUpConserves | internal/reconciler/recentdeploys.go:45-90 | a version's total is its number of deploys in the window; deployed, failed and pending are the numbers of those whose last row in the log says deployed, failed, or sent or installing, in any spelling; these and the others make up the total |
| History.RollUpEntries | internal/reconciler/recentdeploys.go:45-90 | group by group: each is dated by the newest row of its version and counts its deploys, newer groups come first, and each version has a group unless the number asked for cuts it off |
| History.RollUpOrder | internal/reconciler/recentdeploys.go:51-89 | the groups are the versions in the window, each once, the last deploy is the version's newest row, newest groups first |
| History.ListRecentDeployInstructions | internal/feature/queries.go:397-436 | one entry per deploy, newest first, cut to a positive limit, identity from the first row and status from the last |
| History.ListEntries | internal/feature/queries.go:397-436 | entry by entry: each has its deploy's identity, version, hash and time from its first row and its status from its last, deploys that began later come first, and none is left out unless a positive limit cuts it off |
| History.PairHasWholeDeploys | internal/feature/featuresql/deploy_instructions.sql.go:65-82 | a pair's rows hold a deploy with its first and latest row, or not at all |
| History.HistoriesAgree | internal/feature/queries.go:408-434 | the list and the roll-up give a deploy the same status, version, hash and assignment |
| Fasitd.Registry.Add | internal/fasitd/registry.go:48-56 | adds the session unless its key is taken, and says which |
| Fasitd.Registry.Remove | internal/fasitd/registry.go:59-65 | removes the session only if it is the one registered |
| Fasitd.OneSessionPerKey | internal/fasitd/server.go:87-92 | in every interleaving at most one connection of a key is between add and remove |
| Fasitd.RejectedNeverEvicts | internal/fasitd/server.go:87-92 | a connection is rejected iff another of its key is registered, a rejection changes nothing, and a removal takes out only its own session |
| Fasitd.NothingLeftBehind | internal/fasitd/server.go:91-92 | a key is registered exactly while a connection of it is between add and remove |
| Fasitd.GetFindsConnection | internal/fasitd/registry.go:67-72 | in every interleaving, what is looked up for a key is the one connection of it between add and remove, and is found iff there is one |
| Fasitd.OneOutcome | internal/fasitd/deployer.go:70-123 | at any moment a command has got an outcome once if it is finished, and never otherwise |
| Fasitd.ExactlyOneOutcome | internal/fasitd/deployer.go:70-123 | a command whose dispatch can do nothing more has got exactly one outcome, one whose dispatch can go on has none, and a dispatch takes at most two steps |
| Fasitd.OutcomeHasCause | internal/fasitd/deployer.go:91-123 | a command that ends without a session ended at a lookup at which no connection of its environment was registered; one that was sent is on the channel of the connection it held, which had room; one that saw its session close held a closing connection; one that timed out held a connection until then |
| Fasitd.StatusRowsExact | internal/fasitd/deployer.go:91-123 | the status rows of a command are its outcome, once, if the step that gave it the outcome could record it, and otherwise none |
| Fasitd.OutcomesAreFinal | internal/fasitd/deployer.go:91-123 | outcomes stay, and channels and deliveries only grow at the end |
| Fasitd.SentMeansEnqueuedOnce | internal/fasitd/deployer.go:111-122 | sent means enqueued exactly once, on that channel only, of the command's environment, never on a rejected connection; undeliverable means never enqueued |
| Fasitd.FirstInFirstOut | internal/fasitd/server.go:98-114 | a stream has got a prefix of what was enqueued; the rest is at most one command lost to a stream error and a bounded queue |
| LogBuffer.SplitJoin | internal/naisd/pubsub_logger.go:36-37 | splitting a write into lines loses nothing and leaves no newline in a line |
| LogBuffer.TrimExactly | internal/naisd/pubsub_logger.go:37 | what is split is the text without the white space at its two ends, and nothing else is cut off |
| LogBuffer.PubsubLogger.Write | internal/naisd/pubsub_logger.go:36-50 | appends the lines of the trimmed text and reports the length of the whole |
| LogBuffer.WrittenJoined | internal/naisd/pubsub_logger.go:36-47 | those lines, joined by newlines, are the trimmed text |
| LogBuffer.PubsubLogger.AddEvent | internal/naisd/pubsub_logger.go:52-69 | appends the event's one line |
| LogBuffer.PubsubLogger.Publish | internal/naisd/pubsub_logger.go:92-116 | takes all lines out, gives them to the topic as one batch where that succeeds, and returns an error iff there were lines and it failed |
| LogBuffer.NothingLost | internal/naisd/pubsub_logger.go:71-121 | in every interleaving the batches taken and the buffer are what was written, in order, and each batch is once in one thread's hands, at the topic, or dropped |
| LogBuffer.AtTheTopicIffPublished | internal/naisd/pubsub_logger.go:92-116 | a batch no longer in hand is at the topic iff its publish succeeded |
| LogBuffer.CloseFlushes | internal/naisd/pubsub_logger.go:118-121 | when Close returns all that was written before it has left the buffer, and all that left it is at the topic iff the ticker loop holds no batch and no publish failed |
| LogBuffer.OrderExactly | internal/naisd/pubsub_logger.go:71-121 | batches are given to the topic in the order of taking, none skipped, iff no thread publishes while the other holds an older batch |
| LogBuffer.LinesInOrder | internal/naisd/pubsub_logger.go:71-121 | then, if none was dropped, the topic has a prefix of the lines as they were written |
| LogBuffer.TopicOrderExactly | internal/naisd/pubsub_logger.go:71-121 | with publishes that may fail, the batches at the topic are in the order of taking iff none of them was overtaken by one that arrived |
| LogBuffer.CloseCanOvertake | internal/naisd/pubsub_logger.go:118-121 | an interleaving in which Close publishes a later batch and returns before an earlier one is at the topic, which comes second or, if its publish fails, not at all |

## Left out

- DeployLog.DeployTable.Deploy: identifiers are given and assumed new; the cache of publishers and the text of instructions are not modelled.
- RenderedAction.ComputeActionFromRows: the environment has a record among the rows its values were read from; one created between two queries of a snapshot, whose action is an error, is not modelled.
- Fasitd.ExactlyOneOutcome: a command exists once its row is written; a failed write of that row, after which there is nothing to dispatch, is not modelled, while a failed write of a status row is.
- Postgres and its generated client: tables are sequences, queries their meaning; queries, writes and publishing can fail only where a parameter says so.
- Transactions: each cycle, redeploy, message and timeout is one step, and a snapshot shows one state of the logs; the concurrent queries of a snapshot are not interleaved with other steps.
- Clocks: times are whole seconds, and the age of a health report is taken against one time per cycle.
- Templates, YAML, JSON and the configuration hash are functions given from outside, so which templates fail or panic is given; templates that change the data they are given (`set`, `unset`) are not modelled; decoding a stored value cannot fail.
- Nested maps are values: writing through a pointer into a nested map is an update along the path. What is left in a map after an error, and sharing between maps, is not modelled.
- Strings are sequences of characters: positions in parser errors count characters, invalid UTF-8 does not occur, and upper case and white space are those of ASCII.
- Identifiers are numbers, in the order of their text form; identical creation times within one deploy are not reordered by the history query.
- Panics end the process and what happens after is not modelled; nil arguments do not occur.
- Pub/Sub delivery, gRPC streams, Helm and Kubernetes, Slack, metrics and authentication.
- Uninstalling releases, release lists, health reports and log storage, which replace or append rows without further logic.
- Pages, components and the template analysis of a feature's chart.
