# dygo: Tree Records, schema evolution, query scopes, nested inputs and Fixtures

This project models the parts of dygo where several functions have to agree with
each other, and proves what they agree on. A table, a schema, a ledger, a tree of
inputs or a link graph is a value or a heap object; what PostgreSQL does with a
statement is a function of its own, so that a planner and the execution of its
plan can be compared. The statements it takes on a table are those that keep the
schema sound (`SchemaSound`): indexes, constraints and foreign keys have what they
are about.

| Files | Part of dygo |
|---|---|
| `TreeTable`, `TreeStore`, `TreeProtocol`, `TreePaths`, `TreeView` | the Tree Record hierarchy: the forest invariant, its guards, the locking protocol, bounded paths and what a caller may see of them |
| `SchemaModel`, `SchemaPlan`, `SchemaFindings`, `SchemaSync`, `SchemaPhases`, `SchemaConverge`, `SchemaDrops`, `SchemaPrune`, `SchemaSound`, `SortedNames` | the metadata schema planner, what it plans and reports and why, what executing its plan does, and the prune planner |
| `PatchPlan`, `PatchRunner`, `PatchLedger` | the patch planner as a simulation, the plan against the ledger, whole histories of migrations |
| `LinkPath`, `Scope`, `Grants` | dotted link paths as correlated subqueries; row scopes with numbered parameters, and scopes compiled from permissions |
| `SecretInput`, `Collections`, `SecretRotation` | hiding secrets from Hooks, owned collection rows, re-encryption in batches |
| `FixtureOrder`, `ExportClosure` | Fixture ordering and the export closure |
| `StorageNames`, `Wrappers` | names of tables and columns; `Option` and `Result` |

Objects that dygo updates in place are classes with `modifies` clauses (`Session`,
`Planner`, `Database`, `Table`, `SecretStore`, `RecordInput`, `ExportPlanner`);
recursive queries are worklist loops with a measure; planners and mutation checks
are methods proved against functions, and the results are lemmas about those
functions and about states reached step by step.

Some promises turn out to hold only under a condition. In each case the model
follows the code, and the condition is proved exact:

- Aliases of link paths (`internal/db/query.go:336-388`) are numbered by how often
  the alias text occurs in the immediate source, which is 0 or 1. From the fourth
  part on, and for a second part that is itself a link, a subquery takes the alias
  its own condition refers to. `LinkPath.CodeMeansWalkIff` says for which paths the
  compiled expression is right on every database, and that it is wrong on some
  database for all others.
- One prune does not always reach a fixpoint. A plain index that shares its name
  with an extra constraint counts as that constraint's index
  (`internal/db/schema_plan.go:654-657`); when the constraint goes and does not own
  the index, the index is reported next time.
  `SchemaPrune.PruneReachesFixpointIffNoOrphans` gives the exact condition on the
  live schema, `SchemaPrune.PruneCanLeaveOrphan` an instance. The second prune
  always reaches it: `SchemaPrune.SecondPruneReachesFixpoint`.
- A prune drops tables in the order of their names
  (`internal/db/schema_prune.go:160-173`), whatever refers to them; the database
  refuses to drop a table another one still refers to. `SchemaPrune.PruneExecutesIff`
  gives the exact condition, `SchemaPrune.ReferringTableDroppedLate` a family of
  schemas that cannot be pruned.
- A field predicate is appended to a clause as text, and an open disjunction lets
  rows past it (`internal/db/record_scope.go:46-80`). The scope of an actor with
  several grants is such a disjunction (`internal/permissions/scope.go:169`), and a
  list without filter uses it bare: a row covered by any grant but the last is let
  through whatever its fields. `Scope.ConjoinsIffNoEscape` and
  `Grants.UnfilteredRead` give the exact condition for a row,
  `Grants.UnfilteredIsRightIff` the condition on the grants,
  `Grants.SortByDeniedField` an instance.
- A collection row submitted as null cannot be given fields by a Hook: restoring
  writes into a nil map (`internal/db/record_secrets.go:227-237`).
  `SecretInput.Restore` says exactly when it panics, `SecretInput.NullRowPanics` is
  an instance.
- The schema expected after sync agrees with the synced one on column names, types
  and nullability, not on the default flag, which is set wherever adding the column
  would be safe: `SchemaConverge.ExpectationMatchesSync` and, with the exact
  condition for fields and for system columns, `SchemaConverge.ExpectedDefaultFlag`;
  `SchemaConverge.TimestampDefaultsUnexpected` is an instance.
- The patch planner does not follow indexes and constraints when a column or table
  they mention is renamed or dropped: `PatchPlan.StepExactIff`, with an instance in
  `PatchPlan.DroppedFieldKeepsIndex`.

## Model

| member | source | states |
|---|---|---|
| `TreeTable.ExclusionMatchesCycleCheck` | internal/db/tree.go:175-180 | on any finite table, cyclic or not, x's subtree found downwards contains p exactly when x is met climbing from p |
| `TreeTable.CoveredIffForest` | internal/db/tree_integrity.go:106-132 | all rows are reachable from root rows exactly when no parent is missing and there is no cycle |
| `TreeTable.MoveKeepsForest` | internal/db/tree_integrity.go:75-85 | on a forest, putting x under p leaves a forest exactly when p does not reach x |
| `TreeTable.RootKeepsForest` | internal/db/tree_integrity.go:39-50 | making a row a root keeps the forest without a check |
| `TreeTable.CreateKeepsForest` | internal/db/records.go:449-485 | a new row keeps the forest exactly when its parent exists |
| `TreeTable.DeleteKeepsForest` | internal/db/tree_integrity.go:89-104 | deleting a row keeps the forest exactly when it has no children |
| `TreeStore.AncestorClosure` | internal/db/tree_integrity.go:75-85 | the worklist ends, on any table, with exactly the rows met climbing from the start |
| `TreeStore.SubtreeClosure` | internal/db/tree.go:175-180 | the worklist ends with exactly the rows below the root of the subtree, itself included |
| `TreeStore.DescendantClosure` | internal/db/tree_integrity.go:106-132 | the worklist ends with exactly the rows from which climbing meets a seed row |
| `TreeStore.ValidateTreeData` | internal/db/tree_integrity.go:106-132 | activation accepts the tables exactly when each of them is a forest |
| `TreeStore.Session.ValidateTreeParent` | internal/db/tree_integrity.go:39-87 | each outcome of the parent check, in the order in which it is decided |
| `TreeStore.Session.Create` | internal/db/records.go:449-485 | a create succeeds exactly when there is a transaction, the parent is allowed and the name is free; then the row stands under the submitted parent and the table is still a forest, else nothing changes and the reason is given |
| `TreeStore.Session.Move` | internal/db/records.go:639-698 | an update succeeds exactly when there is a transaction, the caller can see the row, the parent is allowed and no other Record has the name; then the row has the submitted parent and name and the table is still a forest, else nothing changes and the reason is given |
| `TreeStore.Session.Delete` | internal/db/records.go:771-806 | a delete succeeds exactly when there is a transaction, the caller can see the row and no row names it as parent; then the row is gone and the table still a forest, else nothing changes and the reason is given |
| `TreeStore.ParentAllowedIffDone` | internal/db/tree_integrity.go:39-87 | for every scope and destination policy a named parent is accepted exactly when the name is known and its row stored, the policy lets the caller read that row, a scoped caller has a policy, and the row is not below the moved one; each refusal has exactly its own reason |
| `TreeStore.RenameExact` | internal/db/records.go:639-698 | a change of name leaves every other Record its name exactly when it does not clash, and the Record then has that name and no other |
| `TreeStore.ParentDoneIsGuarded` | internal/db/tree_integrity.go:39-87 | a parent check that is passed on a forest, an unchanged parent included, is the guard of the move |
| `TreeStore.MoveGuardExact` | internal/db/tree_integrity.go:39-87 | for a parent that is open to the caller, whatever the scopes, the guard accepts a move exactly when the moved table is a forest |
| `TreeStore.CreateNeverSeesCycle` | internal/db/records.go:481-483 | id 0, which stands for a Record not inserted yet, is never met as an ancestor |
| `TreeStore.OfferedIffAccepted` | internal/db/tree.go:102-110 | the destinations a search offers when it excludes x's subtree are exactly those the guard accepts for moving x, for every caller that has a destination policy if it is scoped |
| `TreeProtocol.CommittedTableIsForest` | internal/db/tree_integrity.go:27-102 | in every interleaving of any number of transactions every committed table is a forest |
| `TreeProtocol.CommittedHistoryIsSerial` | internal/db/records.go:639-698 | the committed table is that of the committed operations one at a time, each of them legal when its turn comes |
| `TreeProtocol.CheckedOperationStaysValid` | internal/db/tree_integrity.go:39-102 | a check that was passed still holds when the write happens, whatever others do in between |
| `TreeProtocol.ReadsAreStable` | internal/db/tree_integrity.go:15-37 | all reads of a transaction see the table it first saw with its own writes on top, also when a reader goes on to take the exclusive lock |
| `TreeProtocol.LockedTableStays` | internal/db/tree_integrity.go:27-37 | in every run, from the state in which a transaction holds either lock until its end the committed table does not change |
| `TreeProtocol.LegalOperationsCommit` | internal/db/tree_integrity.go:27-102 | the locks and checks refuse no legal work: with nobody in the way, a transaction, whether or not it read first, can commit any list of operations that is legal one at a time, and the table is then theirs |
| `TreeProtocol.ReadersShare` | internal/db/tree.go:33-40 | a reader can read the committed table and end whoever else reads |
| `TreeProtocol.WithoutLockOppositeMovesCycle` | internal/db/tree_integrity.go:27-37 | without the lock two opposite moves, each checked first, commit a cycle |
| `TreePaths.ReadRows` | internal/db/tree.go:267-289 | rows are accepted exactly when they are at most 10000 and each is neither a cycle row nor deeper than 2500 |
| `TreePaths.CycleRowIsLast` | internal/db/tree.go:256-266 | an origin's rows end with the first row met before |
| `TreePaths.SortDeepestFirst` | internal/db/tree.go:295-297 | the in-place sort yields the same steps, deepest first |
| `TreePaths.TreePaths` | internal/db/tree.go:254-310 | on any table and in whatever order the rows arrive, paths are returned exactly when all fit the bounds, and then they are the climbed paths |
| `TreePaths.ForestPaths` | internal/db/tree.go:254-310 | on a forest it succeeds exactly when every chain has at most 2500 rows and all together at most 10000; each path is the complete root-to-node chain |
| `TreePaths.ForestHasNoCycleRow` | internal/db/tree.go:267-289 | on a forest no delivered row is a cycle row, so that error never occurs |
| `TreePaths.ChainUnique` | internal/db/tree.go:254-310 | there is one chain from the root to a row |
| `TreePaths.RootShortcutAgrees` | internal/db/tree.go:129-133 | the roots shortcut shows the path the general computation finds |
| `TreePaths.ChildShortcutAgrees` | internal/db/tree.go:134-142 | the children shortcut shows the path the general computation finds, and the anchor is accepted whenever the child is |
| `TreeView.ReadableTreePath` | internal/db/tree.go:312-328 | all rows of a path when it starts at a root and every step is readable, else nothing |
| `TreeView.ReadablePathIsWhole` | internal/db/tree.go:312-328 | a path is readable exactly when it starts at a root and every row of it can be read with its parent field |
| `TreeView.ShowMatches` | internal/db/tree.go:149-163 | a node per match in page order: with a readable path the record and its parent, else neither its parent nor its parent field |
| `TreeView.Search` | internal/db/tree.go:149-170 | nodes and context of a search as functions of the page, the paths and the rows read |
| `TreeView.KeptKeepsOrder` | internal/db/tree.go:164-170 | the context stands in the requested order |
| `TreeView.ShownIffChainOpen` | internal/db/tree.go:312-328 | a match's path is shown exactly when every row of its chain is readable with its parent |
| `TreeView.ContextExact` | internal/db/tree.go:149-170 | the context is exactly the union of the readable chains of the matches |
| `TreeView.ContextIsOpenAndUpwardClosed` | internal/db/tree.go:149-170 | context rows have all ancestors readable and bring their parent along |
| `TreeView.HiddenAncestorHidesMatch` | internal/db/tree.go:212-221 | a match below an unreadable row exposes no parent and is not in the context |
| `SchemaPlan.ValidateObjectNames` | internal/db/schema_plan.go:533-549 | a table is accepted exactly when its index names and its constraint names are distinct |
| `SchemaPlan.BuildMetadataSchemaPlan` | internal/db/schema_plan.go:103-257 | operations grouped by phase and diagnostics in order, as a function of desired and live schema |
| `SchemaFindings.PlanContainsExactly` | internal/db/schema_plan.go:120-257 | a statement is in the plan exactly when a finding on an item of some desired table, or the table's absence, plans it |
| `SchemaFindings.PlanReportsExactly` | internal/db/schema_plan.go:120-257 | a diagnostic is in the plan exactly when a finding reports it or it names an extra column, constraint, index or table; primary keys, NOT NULL and indexes that go by a constraint's name are not extra |
| `SchemaFindings.MissingFieldAddedOrReported` | internal/db/schema_plan.go:157-175 | in the whole plan a stored field's missing column is reported exactly when the database could refuse to add it given what is known of the rows, and otherwise added |
| `SchemaFindings.MissingColumnFinding` | internal/db/schema_plan.go:157-175 | the same of one column |
| `SchemaFindings.NewTableFinding` | internal/db/schema_plan.go:125-176 | on a new table every column of a field is added without a report, and its system columns come with it |
| `SchemaFindings.MissingSystemFinding` | internal/db/schema_plan.go:136-150 | of the system columns only the owner is added to a live table, the others are reported |
| `SchemaFindings.LiveColumnFinding` | internal/db/schema_plan.go:565-575 | a live column is reported exactly for the parts, type and nullability, in which it differs from the one that adding it would leave |
| `SchemaFindings.LiveDefaultFinding` | internal/db/schema_plan.go:577-606 | its default is set exactly when it is not the one that adding the column would leave, and then it is |
| `SchemaFindings.AvailableIffComes` | internal/db/schema_plan.go:135-176 | indexes and constraints may rely on exactly the columns that are live, come with a new table or are added by the plan |
| `SchemaFindings.IndexFindingExact` | internal/db/schema_plan.go:185-207 | an index is created when missing and reported exactly when it is not the one that creating it would leave |
| `SchemaFindings.ConstraintFindingExact` | internal/db/schema_plan.go:209-241 | a constraint is added when missing, unless rows could break it, and reported exactly when kind, columns, a wanted deferral or a check's expression differ |
| `SchemaConverge.SyncSucceeds` | internal/db/schema.go:113-120 | a plan without diagnostics executes statement by statement, each precondition met, and loses no table, column, index or constraint |
| `SchemaConverge.SyncConverges` | internal/db/schema_plan.go:103-257 | after it the next plan has neither operations nor diagnostics |
| `SchemaConverge.SchemaAfterSync` | internal/db/patch_lifecycle.go:87-104 | the expected schema, tables and columns, other tables untouched |
| `SchemaConverge.ExpectationMatchesSync` | internal/db/patch_lifecycle.go:87-104 | for desired tables it has the column names, types and nullability that executing the plan leaves |
| `SchemaConverge.ExpectedDefaultFlag` | internal/db/patch_lifecycle.go:98-100 | its default flag agrees with the synced column's exactly when, for a field, a safe column is one with a default, and for a system column, it is safe exactly if it had a default before or gets one with its table |
| `SchemaConverge.ExpectedFieldFlag` | internal/db/schema_plan.go:382-405 | for a stored field: exactly when it has a literal default, or is required and no secret |
| `SchemaConverge.TimestampDefaultsUnexpected` | internal/db/schema_plan.go:818-829 | on a new table of any Entity without fields the timestamps have a default that was not expected |
| `SchemaPrune.BuildSchemaPrunePlan` | internal/db/schema_prune.go:122-180 | drops of constraints, indexes, columns and tables in order, and the diagnostics pruning cannot resolve |
| `SchemaPrune.PruneExecutesIff` | internal/db/schema_prune.go:160-189 | for every live schema: the statements on desired tables always execute, and the whole prune does exactly when every foreign key that still refers to a dropped table is that of a table dropped earlier, in the order of names |
| `SchemaPrune.ReferringTableDroppedLate` | internal/db/schema_prune.go:160-173 | it is refused for any two extra tables of which the later by name refers to the earlier |
| `SchemaPrune.NoBlockersIffQuiet` | internal/db/schema_prune.go:133-137 | no blockers exactly when no desired item of any table is in conflict |
| `SchemaPrune.PruneEnds` | internal/db/schema_prune.go:182-189 | when all statements execute, exactly the desired tables are left and each is the live one without its extra objects and what depends on them |
| `SchemaPrune.NothingExtraIffNoOrphan` | internal/db/schema_plan.go:625-657 | a pruned table holds nothing extra exactly when no index lost the constraint that hid it |
| `SchemaPrune.PruneReachesFixpointIffNoOrphans` | internal/db/schema_prune.go:122-180 | after a prune without blockers the metadata plan has no diagnostics exactly when no such index was live |
| `SchemaPrune.SecondPruneReachesFixpoint` | internal/db/schema_prune.go:122-180 | the second prune has no blockers, executes, and always leaves a schema whose metadata plan has no diagnostics |
| `SchemaPrune.NamedObjectsStay` | internal/db/schema_prune.go:217-288 | columns and constraints that metadata names stay; an index it names goes exactly when an extra constraint of its name owns it |
| `SchemaPrune.PruneCanLeaveOrphan` | internal/db/schema_prune.go:241-262 | on the table of any Entity without fields, a check and a plain index of its name make one prune not enough |
| `SchemaSound.SyncKeepsSound` | internal/db/schema.go:113-120 | whatever a sync executes leaves a schema whose indexes, constraints and foreign keys have the columns, indexes and tables they are about |
| `SchemaSound.PruneKeepsSound` | internal/db/schema_prune.go:182-189 | so does whatever a prune executes |
| `SchemaSound.NewTableExact` | internal/db/schema_plan.go:808-830 | a new table has its system columns with their type and nullability, and of them the timestamps alone have a default |
| `PatchPlan.CloneLiveSchema` | internal/db/patch_plan.go:844-867 | the copy is equal and shares no column map with the original or between its tables |
| `PatchPlan.Planner.RenameLiveColumn` | internal/db/patch_plan.go:538-545 | the column moves to its new name and nothing else changes |
| `PatchPlan.Planner.RenameLiveTable` | internal/db/patch_plan.go:547-552 | the table moves to its new name and nothing else changes |
| `PatchPlan.Planner.DropLiveColumn` | internal/db/patch_plan.go:554-558 | the column is gone and nothing else changes |
| `PatchPlan.Planner.ChangeLiveColumnType` | internal/db/patch_plan.go:560-566 | the column has the new type and nothing else changes |
| `PatchPlan.Planner.InferLiveFieldColumn` | internal/db/patch_plan.go:477-498 | a field that left metadata is found by its base, _id or _hash column: none and several are errors |
| `PatchPlan.InferredIffOnly` | internal/db/patch_plan.go:477-498 | a column is inferred exactly when it is the only live one that may have held the field |
| `PatchPlan.FieldColumnExact` | internal/db/patch_plan.go:454-475 | for every entity, table and field name: a field of the metadata gives its column, or an error when it has no storage; a field that left metadata is inferred from the live table where a patch reads it and is an error where a patch needs it loaded |
| `PatchPlan.Planner.PlanRenameField` | internal/db/patch_plan.go:124-175 | each error in order, or the statement and the renamed column |
| `PatchPlan.Planner.PlanRenameEntity` | internal/db/patch_plan.go:177-213 | each error in order, or the statement and the renamed table |
| `PatchPlan.Planner.PlanCopyField` | internal/db/patch_plan.go:215-272 | each error in order, or the statement, with the schema unchanged |
| `PatchPlan.Planner.PlanBackfillField` | internal/db/patch_plan.go:274-323 | each error in order, or the statement, with the schema unchanged |
| `PatchPlan.Planner.PlanDropField` | internal/db/patch_plan.go:325-364 | each error in order, or the statement and the column dropped |
| `PatchPlan.Planner.PlanChangeFieldType` | internal/db/patch_plan.go:366-418 | each error in order, or the statement and the new type |
| `PatchPlan.Planner.PlanOne` | internal/db/patch_plan.go:100-122 | one operation: a refused one leaves the planner's schema as it was |
| `PatchPlan.IndexEntities` | internal/db/patch_plan.go:84-98 | entities are indexed exactly when no identity occurs twice |
| `StorageNames.StorageNameExact` | internal/db/storage_contract.go:113-115 | storage names keep every character but the dash, which becomes an underscore |
| `StorageNames.TableNameExact` | internal/db/schema_plan.go:891-896 | Entities of the core app have tables of their own name, others carry their app in front |
| `PatchPlan.BuildPatchOperationPlan` | internal/db/patch_plan.go:54-76 | the plan of all patches, or the error of a repeated identity or of the first failing operation; the given schema is left as it was |
| `PatchPlan.AcceptedIffExecutable` | internal/db/patch_plan.go:124-418 | an operation is accepted exactly when its names resolve, its statement would run, and it takes no system column away |
| `PatchPlan.OtherStepExact` | internal/db/patch_system_record.go:24-41 | a Record operation is accepted exactly in the post-sync phase, for a named app and a loaded system Entity, with the error told apart otherwise; SQL is taken unless refused, unknown operations are errors, and none of them moves the schema |
| `PatchPlan.StepSimulates` | internal/db/patch_plan.go:538-566 | an accepted statement runs on any schema with the same tables and columns and leaves those the planner predicts |
| `PatchPlan.PlanSimulatesExecution` | internal/db/patch_plan.go:54-76 | without raw SQL all planned statements run in order and end with the predicted tables and columns; raw SQL is flagged exactly when present |
| `PatchPlan.PlanningConcatenates` | internal/db/patch_plan.go:54-76 | planning two lists together is planning the first and then the second from the schema it predicts, errors included |
| `PatchPlan.StepExactIff` | internal/db/patch_plan.go:538-566 | indexes and constraints agree as well exactly when they do not mention what is renamed or dropped |
| `PatchPlan.DroppedFieldKeepsIndex` | internal/db/patch_plan.go:554-558 | dropping an indexed field that left metadata: the database drops the index, the planner keeps it |
| `PatchRunner.SplitByLedger` | internal/db/patch_plan_runner.go:208-232 | pending and applied patches of the phase, or a recorded patch whose file changed |
| `PatchRunner.SplitExact` | internal/db/patch_plan_runner.go:208-232 | a patch of the phase is pending exactly when it is not recorded, and applied exactly when its entry has its checksum |
| `PatchRunner.Distribute` | internal/db/patch_plan_runner.go:242-250 | every planned operation goes to the last pending patch of its identity |
| `PatchRunner.OperationsAreOwned` | internal/db/patch_plan_runner.go:240-248 | no planned operation refers to a patch that is not pending, so that error never occurs |
| `PatchRunner.RegroupIsExact` | internal/db/patch_plan_runner.go:208-251 | with distinct identities the regrouped patches flatten to the planned list, and each has exactly its own operations |
| `PatchRunner.BuildPatchPlan` | internal/db/patch_plan_runner.go:198-252 | a changed checksum on a recorded patch blocks the plan and nothing else does so as a mismatch; otherwise the pending patches are planned, or planning fails as it does for their operations; applied ones in order |
| `PatchLedger.BuildLifecyclePatchPlan` | internal/db/patch_lifecycle.go:15-48 | baselines are those a fresh install only records; those to run are planned with the schema they predict, or planning fails as it does for them; a changed checksum blocks exactly when a recorded file of the phase changed |
| `PatchLedger.ToRunExact` | internal/db/patch_lifecycle.go:33-45 | which patches of a phase run and which are baselines, by record, mode and installing apps |
| `PatchLedger.ModesExact` | internal/db/patch_lifecycle.go:33-45 | whether a new patch runs, is only recorded or is skipped, by its mode and whether its app is being installed |
| `PatchLedger.SelectionKeepsVerdicts` | internal/db/patch_lifecycle.go:20-46 | planning the selection yields the patches to run and cannot meet a changed one |
| `PatchLedger.Database.RecordPatchRun` | internal/db/patch_ledger.go:134-181 | a run is added exactly when it is valid, its identity is new and its app known; otherwise nothing changes |
| `PatchLedger.Database.GetPatchRun` | internal/db/patch_ledger.go:114-132 | the run recorded for an identity, if any |
| `PatchLedger.Database.ApplyPatchPlanTx` | internal/db/patch_lifecycle.go:53-83 | succeeds exactly when no operation is refused and the ledger takes all the runs in order; then pending operations and entries, then baseline entries are there |
| `PatchLedger.Database.ApplyPatchPlan` | internal/db/patch_plan_runner.go:141-196 | the patches before the first that cannot be applied are applied, each whole, and that one is undone |
| `PatchLedger.AcceptedExact` | internal/db/patch_ledger.go:134-181 | the ledger takes runs one after the other exactly when each is valid, of a known app and not recorded, and no identity occurs twice |
| `PatchLedger.Database.Migrate` | internal/migration/migration.go:216-315 | a migration succeeds exactly when both phases can be planned, every stage is taken on the ledger as it then is, and neither the sync nor a later step fails; it then leaves the ledger and effects of its three stages, else nothing changes |
| `PatchLedger.MigrationKeepsSound` | internal/migration/migration.go:216-315 | a committed migration keeps one entry per identity and each operation at most once, and everything new comes from patches without an entry, as their modes allow |
| `PatchLedger.MigrationSettlesEverything` | internal/migration/migration.go:216-315 | it leaves nothing undone: every new patch is executed in full, or only recorded, or skipped |
| `PatchLedger.HistoryStaysSound` | internal/db/patch_ledger.go:134-181 | over any history there is one entry per identity, each operation takes effect at most once, and neither is ever taken back |
| `PatchLedger.BaselinedNeverExecutes` | internal/db/patch_lifecycle.go:33-40 | a patch recorded as a baseline at any time has no effect at any time |
| `PatchLedger.InstallOnlyNeverRunsLater` | internal/db/patch_lifecycle.go:41-45 | whatever a migration of a history executed was new and allowed to run for its app |
| `LinkPath.FreshPathWalks` | internal/db/query.go:336-383 | a compiled path of any length has the value found by walking its links when no subquery takes the alias its condition refers to |
| `LinkPath.CodeFreshIff` | internal/db/query.go:385-388 | the code's aliases are fresh exactly along one part, two parts not ending in a link, and three parts |
| `LinkPath.CodeMeansWalkIff` | internal/db/query.go:336-388 | on those paths the expression means the walk on every database, and on no others |
| `LinkPath.PathCompilesIff` | internal/db/query.go:323-383 | a path compiles exactly when no part is blank and each part but the last is a link to a loaded Entity, of the app it names or else of its owner's, and the last is a field there |
| `LinkPath.WalkFollowsRoute` | internal/db/query.go:364-383 | the walk goes from table to table as metadata names them, through the rows whose ids the links hold, and ends at the last field or at the name of the row behind it; null when a row is missing |
| `LinkPath.CompiledFollowsRoute` | internal/db/query.go:336-388 | on the paths whose aliases are fresh the code's expression has that value |
| `LinkPath.CaptureLosesValue` | internal/db/query.go:336-388 | on two mirrored rows a path with a capture gives null although the walk finds a value |
| `Scope.ShiftMeansSame` | internal/db/record_scope.go:220-228 | a predicate shifted past a means over a + b what it meant over b |
| `Scope.ShiftsAdd` | internal/db/record_scope.go:220-228 | shifting twice is shifting by the sum |
| `Scope.PrefixSurvives` | internal/db/record_scope.go:30-44 | arguments appended at the end change nothing |
| `Scope.AppendMeans` | internal/db/record_scope.go:56-58 | appended text conjoins, except for the rows of the earlier alternatives of an open disjunction |
| `Scope.ScopedWhereConjoins` | internal/db/record_scope.go:30-44 | clause and scope, each over its own arguments, both hold |
| `Scope.ScopedWhereDelimits` | internal/db/record_scope.go:30-44 | which clauses and scopes give text that can be appended to |
| `Scope.ScopedReadWhere` | internal/db/record_scope.go:63-80 | the result does not parse exactly when a field predicate meets an empty clause; otherwise it holds for the rows that satisfy clause, scope and field predicates, and for those that escape from what these are appended to |
| `Scope.ScopedWriteWhere` | internal/db/record_scope.go:46-61 | the same for written fields, in whatever order the map yields them |
| `Scope.HeadExact` | internal/db/record_scope.go:63-80 | the restricted field of a dotted path is the name before its first dot |
| `Scope.ComposedConjoins` | internal/db/record_scope.go:30-80 | appended to self-delimiting text, the result is the conjunction of clause, scope and field predicates at every row |
| `Scope.ComposedMeans` | internal/db/record_scope.go:30-80 | in general it is that conjunction or an escape, each part over its own arguments |
| `Scope.ConjoinsIffNoEscape` | internal/db/record_scope.go:30-80 | it is the conjunction at a row exactly when the row does not escape or its fields are allowed anyway |
| `Grants.RecordScope` | internal/permissions/scope.go:38-62 | everything for an administrator, nothing without grants, else the scope compiled from the grants, in whatever order the restricted fields are met |
| `Grants.FieldReadMeans` | internal/permissions/scope.go:150-167 | a restricted field may be read in a row exactly when a grant that covers the row does not deny it |
| `Grants.FieldWriteMeans` | internal/permissions/scope.go:150-167 | it may be written exactly when a grant that covers the row denies it neither for reading nor for writing |
| `Grants.RestrictedIffDenied` | internal/permissions/scope.go:150-152 | a field is restricted exactly when some grant denies it, for reading or for writing |
| `Grants.FieldPasses` | internal/permissions/scope.go:150-167 | in a covered row any field, restricted or not, passes exactly when a covering grant allows it |
| `Grants.GrantedUpdate` | internal/db/records.go:682-698 | an update matches a row exactly when its id is the one, a grant covers it, every submitted field is writable there, and a grant covers the proposed row |
| `Grants.GrantedCreate` | internal/db/record_scope.go:115-159 | a create is accepted exactly when a grant covers the new row and every submitted field is writable there |
| `Grants.UnfilteredRead` | internal/db/record_scope.go:63-80 | a read without filter within a compiled scope lets a row through exactly when some grant but the last covers it, or it is covered and every named field may be read there |
| `Grants.UnfilteredIsRightIff` | internal/db/record_scope.go:63-80 | so it is right at every row exactly when no grant but the last denies a field it names, for grants that can each cover a row alone |
| `Grants.FilteredMeans` | internal/db/record_scope.go:30-80 | with a filter it is always right |
| `Grants.SortByDeniedField` | internal/db/record_scope.go:63-80 | an unfiltered list sorted by a field that the first of two grants denies yields the rows of that grant |
| `Scope.TreePredicateConjoins` | internal/db/tree.go:182-193 | a scope with a tree predicate allows what both allow, and its field predicates keep their meaning |
| `Scope.StackConjoins` | internal/db/tree.go:182-193 | any stack of tree predicates means the conjunction of the scope and all of them |
| `Scope.ParentReadConjoins` | internal/db/tree.go:111-117 | the parent field's read predicate joins the conjunction |
| `Scope.UpdateWhere` | internal/db/records.go:682-698 | an update matches a row exactly when its id is the one, the old row satisfies scope and field predicates, and the proposed row satisfies the scope |
| `Scope.ProposedMeans` | internal/db/record_scope.go:241-261 | the proposed-row predicate means the scope on the row with the written values in place |
| `Scope.ProposedExact` | internal/db/record_scope.go:241-261 | the proposed row has the written values in the written columns and the old ones elsewhere |
| `Scope.UpdatedExact` | internal/db/records.go:676-682 | the stored row has the submitted values, a new time of update, and else what it had |
| `Scope.UpdateStaysInScope` | internal/db/record_scope.go:241-261 | the row the update stores is in scope exactly when the proposed row is |
| `Scope.ValidateProposedScope` | internal/db/record_scope.go:115-159 | a create is allowed exactly when the proposed row is in scope and every restricted field it writes allows it |
| `Scope.CreatedExact` | internal/db/record_scope.go:119-137 | the proposed new row has written values, then defaults, then nulls |
| `SecretInput.HideHidesAll` | internal/db/record_secrets.go:164-196 | Hooks see no secret at any depth |
| `SecretInput.HasSecretsIff` | internal/db/record_secrets.go:240-255 | a layout counts as having secrets exactly when a secret field is in it or below |
| `SecretInput.UnchangedRestores` | internal/db/record_secrets.go:197-238 | when Hooks change nothing, restoring succeeds and gives back the submitted input, null collections and rows included |
| `SecretInput.RestoredShowsHookValues` | internal/db/record_secrets.go:197-238 | what can be seen of a restored input is what Hooks left |
| `SecretInput.RestoredKeepsSecrets` | internal/db/record_secrets.go:197-238 | every submitted secret is back at its row position and no other appears |
| `SecretInput.RowsKeepIds` | internal/db/record_secrets.go:217-226 | at every position of a collection the id is the submitted one |
| `SecretInput.DeterminedByParts` | internal/db/record_secrets.go:164-238 | visible values and secrets determine an input, null rows apart |
| `SecretInput.HiddenHookInput` | internal/db/record_secrets.go:164-196 | the submitted input itself when nothing is secret, else a cleaned copy, or an error when a guarded collection is not rows |
| `SecretInput.Restore` | internal/db/record_secrets.go:197-238 | step by step, collection by collection and row by row: it succeeds exactly on what Hooks may hand back, with the merged input; it panics exactly when a null row is written to before anything is rejected; otherwise it rejects, and without success the submitted input is untouched |
| `SecretInput.Run` | internal/db/record_hooks.go:113-129 | Hooks of mutating events share the input in order, others get copies that change nothing |
| `SecretInput.AfterHooksExact` | internal/db/record_hooks.go:171-184 | before validating, creating and updating each Hook gets what the one before left; at other events each gets the same input |
| `SecretInput.RunRecordHooks` | internal/db/records.go:971-989 | exactly when running record Hooks succeeds, is rejected and panics; the input is then the merged one or as submitted |
| `SecretInput.NullRowPanics` | internal/db/record_secrets.go:227-237 | a Hook that fills a field of a row submitted as null makes the run panic |
| `SecretInput.OrderDecides` | internal/db/record_secrets.go:217-226 | when another collection is rejected as well, the order in which the two are restored decides whether it panics |
| `Collections.CollectionRowInputs` | internal/db/records.go:1571-1628 | a submission is accepted exactly when every rule on rows and ids holds; ordinals count from 1 and system inputs are left out |
| `Collections.AcceptedIff` | internal/db/records.go:1571-1628 | the rules in the submitter's terms: at most 500 rows, some if required, none null, ids positive, distinct and only where they may be given |
| `Collections.SystemInputsLeftOut` | internal/db/records.go:1605-1628 | the submitted fields of a row are all but the system ones; its place is its position |
| `Collections.Table.SaveCollectionRows` | internal/db/records_collections.go:107-158 | succeeds exactly when every id is the owner's and no row is refused; then the owner's rows are the submitted ones and all others are as before |
| `Collections.Table.WriteRows` | internal/db/records_collections.go:139-157 | updates and inserts in order, one row at a time |
| `Collections.Table.SaveSubmittedCollections` | internal/db/records_collections.go:86-105 | succeeds exactly when every submitted field can be saved; then each ends as submitted, and unsubmitted fields and other Records keep their rows |
| `Collections.Table.DeleteRecordCollections` | internal/db/records_collections.go:12-27 | exactly the rows of the Record's collection fields go |
| `Collections.SaveThenLoad` | internal/db/records_collections.go:29-84 | loading returns the submitted rows in order with ordinals from 1, their ids and their unsubmitted fields |
| `Collections.SavedCanBeLoaded` | internal/db/records_collections.go:29-84 | the saved rows in submitted order are what loading yields |
| `Collections.SaveKeepsUnique` | internal/db/schema_plan.go:860-866 | ordinals are unique at commit, and left-out rows are exactly those gone |
| `Collections.SwapCollidesMeanwhile` | internal/db/schema_plan.go:860-866 | swapping two rows makes their ordinals collide until the second is written |
| `SecretRotation.SelectBatch` | internal/db/record_secret_rotation.go:63-83 | the next at most 100 ids of the column, without a gap |
| `SecretRotation.SecretStore.RotateSecretBatch` | internal/db/record_secret_rotation.go:63-109 | everything up to the new cursor is under the active key with its plaintext, and the count is of the stale ones |
| `SecretRotation.SecretStore.RotateRecordSecrets` | internal/db/record_secret_rotation.go:19-62 | committed batches stay; what is returned plus what is still stale is what was stale; success means all are rotated |
| `SecretRotation.FinishedIffNoneStale` | internal/db/record_secret_rotation.go:86-108 | nothing is stale exactly when every live secret is under the active key |
| `SecretRotation.OpensIff` | internal/db/record_secret_rotation.go:86-108 | a ciphertext opens exactly with a ring that has its key, for its own binding |
| `SecretRotation.SealedOpens` | internal/db/record_secret_rotation.go:86-108 | what a ring seals opens with it and with every later ring that still has the key, for the same binding |
| `SecretRotation.PrefixStaysOpen` | internal/db/record_secret_rotation.go:14-18 | any committed prefix opens to the same values, so a pass can be resumed |
| `SecretRotation.RotateAndVerify` | internal/cli/record_key.go:58-76 | two passes: the count is of the stale values, and the second changes nothing |
| `FixtureOrder.OrderByDependencies` | internal/fixtures/fixtures.go:776-812 | an order with dependencies first exactly when there is no cycle, else exactly the files that reach one |
| `FixtureOrder.TakeRound` | internal/fixtures/fixtures.go:782-800 | a round takes at least one file, or every pending file waits for another |
| `FixtureOrder.StuckExactly` | internal/fixtures/fixtures.go:802-809 | the files left over are exactly those from which a cycle is reached |
| `FixtureOrder.FindDependencies` | internal/fixtures/fixtures.go:740-774 | a file depends on every other file of an Entity it links to |
| `FixtureOrder.OrderPreparedFiles` | internal/fixtures/fixtures.go:733-813 | a permutation in which no file links to the Entity of a later one, exactly when no round of different files links back to its start; else the files that reach one |
| `ExportClosure.ResolvedIff` | internal/fixtures/export.go:388-436 | the named app decides, else the owner's app if it has the name at all, else the only match |
| `ExportClosure.LinksExact` | internal/fixtures/export.go:340-386 | every link field that holds a name gives a link, with the target its options tell |
| `ExportClosure.ClosedMeans` | internal/fixtures/export.go:223-263 | closed means with all stored Records of the target and, when links are included, every stored Record that a link field of one of the set names |
| `ExportClosure.ListAll` | internal/fixtures/export.go:265-283 | paging yields all Records in order |
| `ExportClosure.ExportPlanner.CollectLinks` | internal/fixtures/export.go:340-386 | all links of a Record are kept, and each followed one is handled |
| `ExportClosure.ExportPlanner.AddRecords` | internal/fixtures/export.go:299-323 | exactly the new Records are added, and the queue grows only then |
| `ExportClosure.ExportPlanner.ProcessNext` | internal/fixtures/export.go:223-262 | one item keeps the planner consistent and adds a Record or shortens the queue |
| `ExportClosure.ExportPlanner.Run` | internal/fixtures/export.go:223-263 | the worklist ends, on cyclic graphs too, with nothing forgotten |
| `ExportClosure.ExportPlanner.UnresolvedLinks` | internal/fixtures/export.go:438-452 | the links that lead to no gathered Record, in order |
| `ExportClosure.LeavingExact` | internal/fixtures/export.go:438-452 | a link is listed as often as it was met when it leads out, and not at all otherwise |
| `ExportClosure.PlanExport` | internal/fixtures/export.go:129-164 | the gathered set is the least one with the target's Records and closed under followed links; unresolved links are exactly those leaving it |
| `ExportClosure.UnresolvedIffMissing` | internal/fixtures/export.go:438-452 | with links included, a link is unresolved exactly when its target cannot be told or does not exist |

## Left out

- SQL text: statements, definitions and predicates are values; their normalisation, quoting and parsing are not modelled, nor is the scan of raw patch SQL for transaction control (`internal/db/patch_plan.go:704-833`), which only appears as a refusal.
- Data-level refusals: a NOT NULL, unique, check, foreign-key or type change that fails because of stored values is a refused statement where a batch of statements is modelled, and not modelled otherwise.
- Names across tables: PostgreSQL keeps index and table names in one namespace per schema; the schema model checks names within a table.
- Dropping a unique constraint that a foreign key of another table relies on: foreign keys of dygo refer to `id`.
- PostgreSQL's views and other objects over a dropped or renamed column, and constraint rows that newer servers keep for NOT NULL.
- `buildDesiredSchema`: of building the desired schema, only column requirements and defaults and the name checks are modelled; well-named metadata is the premise `WellFormed` of the sync results.
- Desired system columns carry no default of their own; a live table whose rows were not inspected counts as one that may hold rows.
- SchemaPlan.BuildMetadataSchemaPlan: the desired schema is an input; the passes that report extra columns, constraints, indexes and tables are functions of the sorted names, not loops; likewise the drops of `SchemaPrune.BuildSchemaPrunePlan`.
- SchemaSync.TableSync: distinct column, index and constraint names of a table are a premise, as the code demands of metadata.
- PatchPlan.Planner.PlanOne: reading an operation's YAML fields and the values of a system Record operation is left out; an operation is what was read.
- PatchLedger.Database.Migrate: the catalog, access, Fixture and App status steps and the approval fingerprint only appear as steps that may fail; schemas inspected on the way are inputs.
- PatchLedger.InstallOnlyNeverRunsLater: speaks of migrations; `ApplyPatches` (`internal/db/patch_plan_runner.go:77-89`) does not look at a patch's run mode, and in a history it only keeps the ledger and once-only results.
- Concurrent appliers of patches: histories are sequences of transactions, as the lifecycle lock makes them.
- LinkPath.CaptureLosesValue: rows have every column, so the error of a column that a table lacks does not arise.
- LinkPath.CodeMeansWalkIff: link columns other than `id` are a premise; they end in `_id`. Splitting a dotted name is left out: a path is its parts.
- Three-valued logic: a predicate is true or not; tests are opaque, so a negation is part of a test.
- Scope.UpdateStaysInScope: a scope that looks at columns other than name, owner and stored fields is refused by the database when the proposed row is built, which is a premise here.
- Grants.RecordScope: how a row condition is compiled and grants are read from the database; a condition is a predicate over the scope's arguments. A role has one permission for an Entity, so grants are told apart by position.
- TreeStore.Session.Create: a random name that is taken is tried again with another one, which is another call here.
- Placeholder casts and the catalog query for defaults of a create: a default is a value.
- What a rejected restore leaves in the Hooks' copy of the input: nothing looks at it again.
- JSON and YAML bytes, Record values and field codecs: values are abstract; equal JSON texts are equal values.
- Hooks that write to the database themselves, Hook registration and Hook errors' texts.
- `prepareRecordInput` and name generation: a collection row is refused or stored as submitted.
- Cryptography: a ciphertext is its key, binding and value; randomness is left out. Rotation looks at ids from 1 on, as its cursor does.
- ExportClosure.PlanExport: names are distinct within an Entity and link values trimmed; sorting files and links, encoding and the checks on the target are left out.
- Link reference nesting and value validation of Fixtures, and their application.
- Tree requests' child indicators, name resolution and paging of matches.
- AuthorizeField, selected read flags and the removal of unreadable fields from results: one predicate each.
- Aggregates, groups and counts: their clauses come from `ScopedReadWhere`, the rest is lists of expressions.
- `internal/access`, `internal/cli`, files, jobs, logs, notifications and metadata readers: input, output and field copying.
