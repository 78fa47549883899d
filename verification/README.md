# flow: a verified model

flow keeps its whole state in SQLite tables that Go code changes by small SQL steps, and keeps a
few text and settings files beside them. This project models the parts where those steps have to
add up to something: the two task graphs and everything decided from them, the session claims that
concurrent `flow do` processes make, the search cache and its triggers, three migrations, the
runtime-state register, the text and settings transformations that must be undone or repeated
safely, the attention feed and the playbook scheduler.

Tables are maps, sets or sequences; every command is a function from table to table, and the code
that loops or updates in place is a method of a class whose fields are the tables, proved equal to
that function. The theorems are about the functions and about whole runs of them.

| files | what they model |
|---|---|
| `Graphs`, `Text`, `Lists` | reachability and acyclicity; the string operations of Go's standard library that are called; lists |
| `TaskTables`, `Dependencies`, `Hierarchy`, `Families`, `StartGate`, `Rename`, `TaskStore`, `TaskRuns` | the two task graphs |
| `Sessions`, `SessionProtocol`, `SessionOutcomes`, `SessionDedupe` | session claims, their interleavings, the unique-id migration |
| `SearchIndex`, `SearchStore` | the search cache |
| `HierarchySplit` | the one-shot split of parents into dependencies and hierarchy |
| `RuntimeRegister` | hook events arriving in any order |
| `BriefState`, `ShellWords`, `HookCommands`, `ShellScript`, `HookConfig` | text and settings transformations |
| `AttentionFeed`, `PlaybookScheduler` | the feed and the scheduler |

`dafny verify dfyconfig.toml` checks everything.

## What the code does not promise

Several properties one would expect hold only under a condition. Each is proved as an
equivalence with that condition, for all inputs, steps or runs, and the failing side is a theorem
or a run of the model.

- The dependency guard expands at most 100000 tasks. It never raises a false alarm, and it misses
  no cycle while at most that many tasks are reachable from the new parent; for every longer chain
  it accepts an edge that closes a cycle (`Dependencies.GuardMissesLongChain`). The hierarchy guard
  sees exactly the first 1000 tasks of a chain: an accepted new parent keeps the forest if and only
  if the child does not sit further up than that (`Hierarchy.SetParentForestExact`,
  `Families.GuardMissesDeepChild`).
- `flow update task --slug` validates the trimmed value but stores the untrimmed one, and the
  family walk trims what it reads. The walk up and the listing down agree on every hierarchy over a
  set of slugs exactly when all of them are trimmed and non-empty (`Families.FamiliesAgreeExactly`).
- For a recorded parent that is not in the table, `TaskFamilyRoot` returns the missing slug, where
  its comment promises the last known task (`Families.MissingParentLosesFamily`). The model follows
  the code.
- A rename fails at commit when a `github_event_log` row names the old slug
  (`Rename.RenameSucceedsExactly`). A waiting note is judged by the parents' current slugs, so a
  rename can block a task that could start (`Rename.RenameCanRaiseNote`).
- A Codex rollback is guarded by "no session id yet" only, so a failed spawn hits another process's
  unbound Codex claim exactly when the failing process had bootstrapped Codex on the task too
  (`SessionProtocol.CodexRollbackExactly`; a run that gets there is
  `SessionProtocol.CodexRollbackHitsAnotherClaim`). Over whole runs no failure can hit another claim
  exactly when every Codex session is bootstrapped on a task without a standing Codex claim
  (`SessionProtocol.CleanExactlyWhenAlone`). A claim stands while its spawn is undecided, but also
  once its session is up, until an id is recorded: waiting for the spawn alone is not enough
  (`SessionProtocol.UndecidedIsNotEnough`).
- A background launch writes without rereading, and replaces an id that was claimed meanwhile
  exactly under the condition of `SessionProtocol.BackgroundReplacesExactly`; a run that gets there
  is `SessionProtocol.BackgroundReplacesClaim`.
- Done is not final. A finished task leaves done by a status update, a review, a terminal opened by
  the server, a reactivation, or the late rollback of a claim its row still carries, and by no other
  modelled step (`SessionProtocol.DoneLeftExactlyBy`).
- A scoped search sync leaves the other scopes alone exactly when no document's key is already used
  by a row of another scope (`SearchIndex.SyncIsolationExact`). A query term means "some token
  starts with this" for one and the same prefix in every document exactly when the tokenizer makes
  one word of it, and then of that word as the tokenizer folds it
  (`SearchIndex.TermMeansPrefixExactly`); a term with an underscore inside is a phrase instead.
- Rewriting the state block of a brief twice equals writing it once exactly for briefs without
  markers and briefs whose first start marker precedes the first end marker
  (`BriefState.RewriteIdempotentExactly`).
- Two runtime events commute, whatever row they meet, exactly when their payloads agree, the row
  refuses one of them, or one of them is refused after the other (`RuntimeRegister.SwapExact`).
- Installing hooks twice settles exactly when the table of hooks names no event under two matchers
  (`HookConfig.SecondInstallIdleExactly`). Removing a merged user hook restores the file exactly
  under the condition in `HookConfig.UnmergeUndoesExactly`: the merge compares commands as they
  are, the removal after trimming, and the removal also drops empty groups and containers.
- The feed's `surfaced` flag tells whether the returned card is open exactly for new items
  (`AttentionFeed.SurfacedExactly`). A dismissed card is safe from messages no later than its
  stored time stamp (`AttentionFeed.DismissalHolds`), not from every message already seen, because
  coalescing an older message takes the stamp back (`AttentionFeed.OlderMessageReopens`).
- The scheduler asks for the number of a process, not for the process. Over every history no
  playbook has two runs in flight exactly when every event is safe
  (`PlaybookScheduler.NeverTwoInFlight`): a new process takes no number that a listed running row
  still carries beside another run of its playbook, and a run is started by hand or brought back
  only when no other run of its playbook is in flight.

## Model

| member | source | states |
|---|---|---|
| `Dependencies.GuardExact` | internal/flowdb/db.go:769-804 | the explicit-stack search answers yes only if the child is reachable from the new parent, and whenever at most 100000 tasks are reachable it answers yes if and only if so |
| `Dependencies.GuardMissesLongChain` | internal/flowdb/db.go:779 | the bound is tight: on every chain of at least that many dependencies the guard passes an edge that closes a cycle |
| `Dependencies.AddDependencyMeaning` | internal/flowdb/db.go:810-831 | on any table: a successful add leaves exactly the old edges and the new one and keeps the keys; a rejected add and a repeated add change nothing |
| `Dependencies.AddDependencyLeaves` | internal/flowdb/db.go:810-831 | on success the old rows in their order and, unless the pair was there, one row with the two trimmed slugs and the time; exactly when the call succeeds and for which reason it does not |
| `Dependencies.AddDependencyKeepsAcyclic` | internal/flowdb/db.go:810-831 | in tables of at most 100000 tasks an add keeps the graph acyclic and succeeds if and only if both tasks exist and the new edge closes no cycle |
| `Dependencies.RemovalMeaning` | internal/flowdb/db.go:834-845 | removing takes away exactly the one edge |
| `Dependencies.ClearingMeaning` | internal/flowdb/db.go:848-855 | clearing takes away exactly the child's edges |
| `Dependencies.RowsRemoved` | internal/flowdb/db.go:834-855 | which rows removing and clearing leave, and exactly when they are refused |
| `TaskStore.Store.WouldCycleDependency` | internal/flowdb/db.go:769-804 | the loop terminates by (unvisited tasks, stack length) and decides reachability as in `Dependencies.GuardExact` |
| `TaskStore.Store.AddTaskDependency` | internal/flowdb/db.go:810-831 | state and outcome are those of `Dependencies.AddDependency`; no other table is touched |
| `TaskStore.Store.RemoveTaskDependency` | internal/flowdb/db.go:834-845 | state and outcome are those of `Dependencies.RemoveDependency` |
| `TaskStore.Store.ClearTaskDependencies` | internal/flowdb/db.go:848-855 | state and outcome are those of `Dependencies.ClearDependencies` |
| `Hierarchy.GuardExact` | internal/flowdb/db.go:860-883 | the bounded walk answers yes if and only if the child is among the first 1000 tasks of the new parent's chain |
| `Hierarchy.SetParentMeaning` | internal/flowdb/db.go:888-914 | on success the tree edges are the old ones that do not leave the child and the given one, and every other row and column but the time stamp stays; exactly when the call succeeds; a rejected one changes nothing |
| `Hierarchy.SetParentForestExact` | internal/flowdb/db.go:888-914 | on every forest: an accepted new parent keeps it a forest if and only if the child is not 1000 or more hops up the parent's chain; a rejected call changes nothing |
| `Hierarchy.SetParentKeepsForest` | internal/flowdb/db.go:888-914 | in tables of at most 1000 tasks every call keeps the forest, and it is accepted if and only if the edge is legal and closes no cycle |
| `Hierarchy.ClearParentMeaning` | internal/flowdb/db.go:917-925 | clearing takes away exactly the child's tree edge |
| `Hierarchy.ClearParentLeaves` | internal/flowdb/db.go:917-925 | clearing empties the one column and stamps the row, and changes nothing else |
| `Hierarchy.ReachesIsAncestry` | internal/flowdb/db.go:866-881 | following parent columns n times and reachability over tree edges are the same relation |
| `TaskStore.Store.WouldCycleHierarchy` | internal/flowdb/db.go:860-883 | the loop decides membership in the first 1000 tasks of the chain |
| `TaskStore.Store.SetTaskHierarchyParent` | internal/flowdb/db.go:888-914 | state and outcome are those of `Hierarchy.SetParent` |
| `TaskStore.Store.ClearTaskHierarchyParent` | internal/flowdb/db.go:917-925 | state and outcome are those of `Hierarchy.ClearParent` |
| `Families.FamilyIsDescendants` | internal/flowdb/brain_runs.go:194-224 | the recursive query returns exactly the tasks whose chain reaches the root, on every table, cyclic ones too |
| `Families.FamilyRootIsTop` | internal/flowdb/brain_runs.go:162-192 | on every forest of trimmed slugs the walk never reports a cycle and ends at the one task without a parent that the chain reaches |
| `Families.LegalFamiliesAgree` | internal/flowdb/brain_runs.go:162-224 | walk and query agree: every task is in exactly one listed family, that of its root, and shares it with its parent |
| `Families.FamiliesAgreeExactly` | internal/flowdb/brain_runs.go:162-224 | they agree on every hierarchy over a set of slugs if and only if all slugs are trimmed and non-empty |
| `Families.WalkReports` | internal/flowdb/brain_runs.go:162-192 | on every table: which slugs are errors, that a root is where the trimmed parents lead and has none itself, and that a reported cycle is one |
| `Families.MissingParentLosesFamily` | internal/flowdb/brain_runs.go:158-182 | a task is in the family of its reported root if and only if no recorded parent on its chain is missing |
| `Families.GuardMissesDeepChild` | internal/flowdb/db.go:866 | for every chain of 1000 hops or more the guard accepts the edge that turns the forest into a cycle |
| `TaskStore.Store.TaskFamilyRoot` | internal/flowdb/brain_runs.go:162-192 | the loop returns the root of `Families.TaskFamilyRoot`, which on a forest of trimmed slugs has no parent and is reachable |
| `StartGate.StartBlockerMeaning` | internal/flowdb/db.go:656-741 | a task may start if and only if every parent is finished and its note, if any, names one of them; otherwise the reported parents are exactly the unfinished ones with their status |
| `StartGate.MayStartExactly` | internal/flowdb/db.go:656-741 | on the columns: a task may start if and only if every row it waits by names a task that is there, not deleted and done, and its trimmed note is empty or contains, case folded, one of their slugs |
| `StartGate.BlockerReports` | internal/flowdb/db.go:669-741 | a start held up by dependencies reports exactly the parents that are missing, deleted or not done, each with its status and flags; one held up by a note reports the trimmed note |
| `StartGate.NoDeadlock` | internal/flowdb/db.go:656-741 | in an acyclic table whose open tasks have no note and no deleted parent, some open task may start while any is open |
| `StartGate.SomeTaskMayStart` | internal/flowdb/db.go:656-741 | the same on the columns |
| `StartGate.SchedulesFinishEverything` | internal/flowdb/db.go:656-741 | every way of starting and finishing unblocked tasks closes one at each turn and can go on until all are done |
| `StartGate.SchedulesRespectDependencies` | internal/flowdb/db.go:656-741 | in every such run a task comes after all its unfinished parents |
| `StartGate.SchedulesFinishParentsFirst` | internal/flowdb/db.go:671 | in every such run each parent was there, done and not deleted at the start, or comes earlier |
| `StartGate.ScheduleLeaves` | internal/flowdb/db.go:656-741 | such a run leaves exactly its tasks done and nothing else changed |
| `TaskStore.Store.CollectPending` | internal/flowdb/db.go:669-682 | the loop collects exactly the unfinished parents in order and knows whether all were finished |
| `TaskStore.Store.TaskStartBlockerFor` | internal/flowdb/db.go:656-705 | returns the verdict of `StartGate.StartBlocker`, none if and only if the task may start |
| `Rename.RenameSucceedsExactly` | internal/flowdb/db.go:2937-2997 | a rename goes through if and only if the new slug is free and no logged GitHub event names the old one; then every row is the old one relabelled, otherwise nothing changes |
| `Rename.RenameLeavesTasks` | internal/flowdb/db.go:2964-2970 | each task under its new name with its references under theirs, all other columns as they were, the renamed row stamped |
| `Rename.RenameLeavesRows` | internal/flowdb/db.go:2937-2997 | each dependency in its place with both ends renamed and its time kept, runtime rows renamed, logged events kept |
| `Rename.RenameLeavesSets` | internal/flowdb/db.go:2937-2997 | tags and links are exactly the old ones under the new names |
| `Rename.RenameKeepsConstraints` | internal/flowdb/db.go:2937-2997 | foreign keys hold and no key collides after every rename |
| `Rename.RenameIsIsomorphism` | internal/flowdb/db.go:2937-2997 | reachability and acyclicity of both graphs carry over under old for new |
| `Rename.RenamedFamilies` | internal/flowdb/db.go:2937-2997 | families keep their members under the new name |
| `Rename.RenamedVerdict` | internal/flowdb/db.go:2937-2997 | a task without a note keeps its start verdict, and its pending parents are the old ones renamed |
| `Rename.RenamedNote` | internal/flowdb/db.go:683-695 | a finished-parents task with a note may start after the rename if and only if the note names one of the new slugs |
| `Rename.RenameCanRaiseNote` | internal/flowdb/db.go:683-695 | renaming the parent a note names to a slug the note does not contain blocks a task that could start |
| `Rename.RenameBack` | internal/flowdb/db.go:2937-2997 | renaming there and back restores every table but the row's own timestamp |
| `TaskStore.Store.RenameTask` | internal/flowdb/db.go:2937-2997 | the cascade and its failing commit leave the state of `Rename.RenameTask` |
| `TaskRuns.SmallTablesInView` | internal/flowdb/db.go:779 | with at most 1000 tasks both bounded guards look far enough for every command |
| `TaskRuns.CommandSound` | internal/flowdb/db.go:810-925 | every task command keeps keys and foreign keys, an acyclic dependency graph and a forest |
| `TaskRuns.RunsStaySound` | internal/flowdb/db.go:810-925 | the same over every run of add, remove, clear, set parent, clear parent, rename, create and finish |
| `TaskRuns.ReachableStates` | internal/flowdb/db.go:656-925 | every state reached from an empty database is free of deadlock among unhindered tasks, and its families agree when slugs are trimmed |
| `Sessions.DoneNeedsSession` | internal/app/done.go:78-146 | `flow done` turns a task done only if it then carries a session id, never replaces one, touches no other row, and never trips the CHECK |
| `SessionOutcomes.DoneFinishesExactly` | internal/app/done.go:78-146 | an open task is finished if and only if it carries an id, or is a Codex task in progress that gets an id no other task has, from the surrounding session or else, once started, from a capture; which id it then carries, and that the rest of the row stays |
| `SessionProtocol.StepKeepsInv` | internal/flowdb/db.go:91 | no step of any process or server request issues an update that violates the tasks CHECK; ids stay unique; a preallocated id is carried only by the process that minted it |
| `SessionProtocol.RunsKeepInv` | internal/app/do.go:241-367 | the same in every interleaving of any number of processes |
| `SessionProtocol.IdTakenExactlyBy` | internal/app/do.go:284-354 | among all modelled steps, those of the server included, an id leaves its row if and only if the step is a --fresh, a released session, a --here --force, a background write, the rollback of a claim with that id, an opening of the overview, a fresh restart or a reactivation |
| `SessionOutcomes.DoClaimsExactly` | internal/app/do.go:241-290 | a `flow do` makes a claim if and only if the task exists, is not done, and its session, if any, is of the agent asked for or to be replaced; otherwise nothing changes |
| `SessionOutcomes.DoResumes` | internal/app/do.go:343-351 | with a live session of the right agent and no --fresh the claim resumes it, and the row is in progress with its other columns as they were |
| `SessionOutcomes.DoBootstraps` | internal/app/do.go:291-342 | in every other case it bootstraps: the row is in progress with the new id for Claude, without one for Codex |
| `SessionOutcomes.ClaimedIsInProgress` | internal/app/do.go:312-352 | whoever carries a new claim, its task is in progress |
| `SessionOutcomes.RollbackLeaves` | internal/app/do.go:608-647 | exactly when a failed spawn takes a bootstrap back, and the row it leaves |
| `SessionOutcomes.HereLeaves` | internal/app/do.go:1130-1173 | exactly when --here binds, and the row it leaves |
| `SessionOutcomes.BackgroundLeaves` | internal/app/do.go:854-869 | exactly when the late write takes effect, and the row it leaves |
| `SessionOutcomes.BackgroundDecides` | internal/app/do.go:731-760 | what a background launch decides from the row it reads |
| `SessionOutcomes.CaptureLeaves` | internal/agents/codex.go:53-75 | exactly when a capture records an id, and the row it leaves |
| `SessionOutcomes.StatusLeaves` | internal/app/update.go:328-352 | exactly when a status is set, and the row it leaves |
| `SessionOutcomes.AgentLeaves` | internal/app/update.go:362-392 | exactly when the agent changes, and the row it leaves |
| `SessionOutcomes.ReviewLeaves` | internal/monitor/github_dispatcher.go:402-419 | a review sends a done task to the backlog with its session and leaves any other alone |
| `SessionOutcomes.PrepareLeaves` | internal/server/terminal_bridge.go:1482-1609 | which row and claim a terminal opened by the server leaves, done tasks and the overview included |
| `SessionOutcomes.FreshLeaves` | internal/server/actions.go:1618-1655 | exactly when a fresh restart drops the session, and the row it leaves |
| `SessionOutcomes.ResumeLeaves` | internal/server/actions.go:1574-1616 | exactly when a restart puts the task in progress, and the row it leaves |
| `SessionOutcomes.ReactivationLeaves` | internal/server/actions.go:770-803 | exactly when a task is reactivated, and the row it leaves |
| `SessionOutcomes.RunsAreLawful` | internal/flowdb/db.go:91 | in every interleaving a task in progress without an id is a Codex task, and no two tasks have the same id |
| `SessionProtocol.RollbackErasesOnlyItsOwn` | internal/app/do.go:608-647 | a failed spawn's rollback never erases an id another process allocated |
| `SessionProtocol.DoneLeftExactlyBy` | internal/app/do.go:620-645 | among all modelled steps a done row leaves done if and only if the step is a status update, a review, a terminal opened by the server, a reactivation, or a rollback whose claim the row still carries; no `flow do` transaction reopens it |
| `SessionProtocol.CalmStep` | internal/app/do.go:284-354 | one step of a stretch without --fresh, force, release or rollback keeps a bound id and makes every claim carry the row's id |
| `SessionProtocol.CalmStretch` | internal/app/do.go:284-354 | over the whole stretch at most the first claim bootstraps and every claim launches with exactly the id in the row at the end |
| `SessionProtocol.CodexRollbackExactly` | internal/app/do.go:631-645 | while another process holds a Codex claim on a task without an id, a failed spawn sends the task back to the backlog if and only if the failing process had bootstrapped Codex on it; otherwise the row stays |
| `SessionProtocol.CleanExactlyWhenAlone` | internal/app/do.go:608-647 | over every run, no failed spawn touches another's standing Codex claim, then or had it come at once, if and only if every Codex session is bootstrapped on a task without a standing Codex claim |
| `SessionProtocol.CodexRollbackHitsAnotherClaim` | internal/app/do.go:631-645 | a run of five steps after which a task with a running Codex session is back in the backlog |
| `SessionProtocol.UndecidedIsNotEnough` | internal/app/do.go:631-645 | a run in which no Codex session is bootstrapped while another spawn on the task is undecided, and a launched one is lost all the same |
| `SessionProtocol.BackgroundReplacesExactly` | internal/app/do.go:854-869 | the late write of a background launch replaces the id in the row if and only if it is that task's, the task is not done and no other task holds the new id |
| `SessionProtocol.BackgroundReplacesClaim` | internal/app/do.go:854-869 | a run of four steps after which the id that a `flow do` has claimed and not launched yet is replaced |
| `Sessions.SessionTable.DoTransaction` | internal/app/do.go:241-367 | the transaction leaves the rows, outcome and claim of `Sessions.DoTx` |
| `Sessions.SessionTable.RollbackSpawn` | internal/app/do.go:608-647 | the compensating update is `Sessions.Rollback`, which the rollback of a terminal opened by the server equals too |
| `Sessions.SessionTable.PrepareTerminal` | internal/server/terminal_bridge.go:1482-1609 | the server's claiming transaction is `Sessions.Prepare`: it takes up done tasks and starts the overview anew |
| `Sessions.SessionTable.RestartTerminal` | internal/server/actions.go:1574-1655 | the two restarts are `Sessions.RestartFresh` and `Sessions.RestartResume` |
| `Sessions.SessionTable.ReactivateTask` | internal/server/actions.go:770-803 | reactivating is `Sessions.Reactivate` |
| `Sessions.SessionTable.BindHere` | internal/app/do.go:1130-1173 | --here is `Sessions.Here` |
| `Sessions.SessionTable.CaptureSession` | internal/agents/codex.go:53-75 | the conditional capture is `Sessions.Capture` |
| `Sessions.SessionTable.MarkDone` | internal/app/done.go:78-146 | the steps of `flow done` are `Sessions.FinishTask` |
| `Sessions.SessionTable.SetStatus` | internal/app/update.go:328-392 | the guarded status update is `Sessions.UpdateStatus` |
| `Sessions.SessionTable.RecordBackground` | internal/app/do.go:854-869 | the record of a background session is `Sessions.BackgroundWrite` |
| `SearchStore.RunsStayInStep` | internal/flowdb/db.go:407-430 | under every sequence of inserts, upserts and deletes the triggers keep both indexes equal to a rebuild of the table split by scope, each row in exactly one |
| `SearchStore.Store.UpsertDoc` | internal/flowdb/search.go:444-469 | one upsert with its trigger keeps the indexes in step and is `SearchStore.Upsert` for some unused id |
| `SearchStore.Store.ReplaceSearchDocs` | internal/flowdb/search.go:437-503 | the sync leaves the last document of each key and exactly the untouched rows of the other scopes, indexes in step |
| `SearchIndex.SyncIsolationExact` | internal/flowdb/search.go:437-503 | rows of other scopes are left alone if and only if no document's key is used by one of them |
| `SearchIndex.SyncTwice` | internal/flowdb/search.go:437-503 | a second sync of the same documents changes nothing but timestamps |
| `SearchIndex.SameDocsSameIndex` | internal/flowdb/db.go:421-430 | and therefore neither index |
| `SearchIndex.IndexMatchesDoc` | internal/flowdb/search.go:169-223 | an index that covers a row matches exactly when reading the document does |
| `SearchIndex.PrefixExactly` | internal/flowdb/search.go:505-519 | a phrase is found exactly where some token starts with a prefix if and only if it is the one-word phrase of that prefix |
| `SearchIndex.TermMeansPrefixExactly` | internal/flowdb/search.go:505-519 | a query term means a prefix in every document if and only if the tokenizer makes one word of it, and then it means that word |
| `SearchIndex.SingleTermsArePrefixes` | internal/flowdb/search.go:505-519 | a whole query of such terms matches a document if and only if each term's word starts some token of it |
| `SearchStore.ScanColumns` | internal/flowdb/search.go:169-223 | which rows a search is about: scope, live task, project or playbook or the memory, and a phrase for each term |
| `SearchStore.Store.FtsTerms` | internal/flowdb/search.go:505-519 | the terms are exactly the maximal runs of word characters of the lower-cased query without surrounding underscores, each once |
| `SearchStore.Store.SearchDocs` | internal/flowdb/search.go:120-163 | with at most `limit` matches a search returns exactly what a scan of the whole table for the query's terms would, with more `limit` distinct ones of them; for single-word terms that is the scan for rows with, for every term, a token starting with it |
| `SearchStore.Store.SplitTranscriptIndex` | internal/flowdb/db.go:1608-1667 | from any table and any index content the migration establishes the two indexes; on other layouts it changes nothing |
| `SessionDedupe.DedupeMeaning` | internal/flowdb/db.go:1845-1937 | afterwards ids are unique, each id used before is on its latest-updated, smallest-slug carrier, and demoted rows satisfy the CHECK |
| `SessionDedupe.DedupeLeaves` | internal/flowdb/db.go:1845-1937 | row by row: a task whose id is also on a task updated later, or then with a smaller slug, goes to the backlog without it and is stamped; every other row stays |
| `SessionDedupe.DedupeTwice` | internal/flowdb/db.go:1845-1937 | rerunning changes nothing |
| `SessionDedupe.DedupeResumes` | internal/flowdb/db.go:1845-1937 | a run cut short and started again ends like an uninterrupted one but for demotion timestamps |
| `SessionDedupe.Migration.MigrateSessionIdUnique` | internal/flowdb/db.go:1845-1937 | the loops demote exactly the carriers that do not come first and leave every other row |
| `HierarchySplit.SplitMeaning` | internal/flowdb/db.go:1741-1825 | every legacy parent becomes one blocking edge and leaves the parent column; older edges keep their rows; nothing else becomes one |
| `HierarchySplit.SplitLeaves` | internal/flowdb/db.go:1741-1825 | row by row: a parent with some text but blanks, naming another task, becomes a dependency with the task's creation time or the stamp the pair had, and is emptied; every other one stays |
| `HierarchySplit.SplitAddsOnly` | internal/flowdb/db.go:1741-1825 | and no other dependency appears |
| `HierarchySplit.InterruptionsHarmless` | internal/flowdb/db.go:1741-1825 | however many opens were stopped between statements, the next complete one reaches the state of an uninterrupted first open |
| `HierarchySplit.HierarchyNeverBlocks` | internal/flowdb/db.go:1741-1825 | in every later run of opens, adds, removals, clearings, parent changes and renames every dependency is one that was there or was added explicitly, and no open touches a parent column |
| `HierarchySplit.DeclaredIsTraced` | internal/flowdb/db.go:2937-2997 | there or added explicitly means: traced through every later rename from an edge of the start or of an add |
| `HierarchySplit.Database.MigrateTaskDependencies` | internal/flowdb/db.go:1741-1790 | the row-by-row insert is `HierarchySplit.Backfill` |
| `HierarchySplit.Database.MigrateSplitHierarchyDependency` | internal/flowdb/db.go:1799-1825 | the update and the marker are `HierarchySplit.NullMirrors` and `HierarchySplit.SetMarker` |
| `HierarchySplit.Database.OpenDatabase` | internal/flowdb/db.go:1741-1825 | both statements in order are `HierarchySplit.Open` |
| `RuntimeRegister.LastSeqIsMaximum` | internal/flowdb/agent_runtime.go:52-69 | for every stream last_seq is the greatest number seen |
| `RuntimeRegister.NormalizeMeaning` | internal/flowdb/agent_runtime.go:30-51 | which inputs are accepted and what each column of the event is |
| `RuntimeRegister.LastSeqMonotone` | internal/flowdb/agent_runtime.go:52-69 | last_seq never decreases and is never below a delivered number |
| `RuntimeRegister.PayloadIsLastCounting` | internal/flowdb/agent_runtime.go:52-69 | the payload is that of the last event that was unsequenced or at least as new as all before it |
| `RuntimeRegister.OrderDoesNotMatter` | internal/flowdb/agent_runtime.go:52-69 | two streams of the same properly numbered events, permuted and repeated at will, leave the same payload and number |
| `RuntimeRegister.SwapExact` | internal/flowdb/agent_runtime.go:52-69 | exactly when two events commute, for every row they may meet; last_seq is the same either way |
| `RuntimeRegister.SwapInStream` | internal/flowdb/agent_runtime.go:52-69 | the same at any place of any stream |
| `RuntimeRegister.SwapFirstTwo` | internal/flowdb/agent_runtime.go:52-69 | on a session's first two events: payloads agree, or the numbers differ and an unsequenced one meets only a negative one |
| `RuntimeRegister.SessionsIndependent` | internal/flowdb/agent_runtime.go:52-69 | each session's row depends on its own events only |
| `RuntimeRegister.RegisterOrderDoesNotMatter` | internal/flowdb/agent_runtime.go:30-70 | the whole register is order-independent session by session |
| `RuntimeRegister.Register.Upsert` | internal/flowdb/agent_runtime.go:30-70 | accepts exactly the inputs that normalise and keeps the rows equal to the fold of all accepted events |
| `BriefState.RewrittenBrief` | internal/app/briefstatus.go:22-71 | reading between the markers gives back the rendered body, and what surrounds the block is kept |
| `BriefState.BodyReachesFile` | internal/app/briefstatus.go:22-29 | between the first markers of a rewritten brief stand a line with the date and then the body without its trailing newlines |
| `BriefState.SameFileExactly` | internal/app/briefstatus.go:22-71 | two rewrites leave the same file if and only if the dates agree and the bodies do up to trailing newlines |
| `BriefState.AppendedAfterBlank` | internal/app/briefstatus.go:48-67 | a block is appended behind the old text and a blank line, with no more newlines than that takes |
| `BriefState.LastRewriteWins` | internal/app/briefstatus.go:36-71 | rewriting twice is writing only the second body |
| `BriefState.OutsideKept` | internal/app/briefstatus.go:36-71 | everything outside an existing block survives, and a brief without one is kept whole |
| `BriefState.RewriteIdempotentExactly` | internal/app/briefstatus.go:36-71 | idempotent if and only if the brief is marker-free or its first start marker precedes its first end marker |
| `ShellWords.AgentShellCommand` | internal/app/codex.go:147-173 | for a bare program name the shell reads back that name and then every argument, whatever the arguments contain |
| `ShellWords.ShellQuoteArg` | internal/app/codex.go:155-173 | the shell reads a quoted argument back as one word with that text |
| `ShellWords.QuoteReads` | internal/ghostty/ghostty.go:80-82 | a quoted string contributes exactly its own text to the word it stands in, whatever follows |
| `ShellWords.EscapeReadsBack` | internal/ghostty/ghostty.go:84-88 | reading an escaped AppleScript literal gives back the original and stops at the closing quote |
| `ShellWords.SpawnTabDelivers` | internal/ghostty/ghostty.go:44-77 | AppleScript hands over the typed line unchanged, and the shell reads it as the title, the directory, the environment and then what the command alone would read as |
| `ShellWords.SpawnTabReads` | internal/ghostty/ghostty.go:44-77 | token by token: printf with the format and the title, cd to the directory, the assignments and the command |
| `HookCommands.HookCommandLexes` | internal/agenthooks/provider.go:154-161 | the shell reads a built command as its words, version and URL included, for every URL |
| `HookCommands.HookCommandReads` | internal/agenthooks/provider.go:154-161 | the same, word by word |
| `HookCommands.NestedCommandReads` | internal/agenthooks/provider.go:163-165 | sh -c is handed the guard followed by exactly the wrapped command |
| `ShellScript.ReadExtendsLex` | internal/agenthooks/provider.go:163-165 | the reader with double quotes and expansions reads everything the smaller reader reads, the same way |
| `ShellScript.NestedScriptReads` | internal/agenthooks/provider.go:154-165 | the outer shell hands over one script, and the inner shell reads that script as the guard's test of the variable, exit, exec and the command's words with the URL intact |
| `HookCommands.BuiltCommandsReadBack` | internal/agenthooks/local.go:136-154 | from every built command, bare or nested, provider and stamped version are recovered |
| `HookCommands.SameManagedExactly` | internal/agenthooks/local.go:235-245 | two built commands count as versions of each other if and only if they belong to the same provider |
| `HookConfig.InstallSettlesExactly` | internal/agenthooks/local.go:156-233 | after a call the command is in place, so a second call writes nothing, unless the extra fields overwrite the command of an added hook |
| `HookConfig.InstallIdleExactly` | internal/agenthooks/local.go:156-233 | a call changes the file if and only if the command was not in place |
| `HookConfig.InPlaceExactly` | internal/agenthooks/local.go:174-215 | in place means: some group with the matcher holds the command, no group is empty, and every hook is the command under that matcher or not managed with it |
| `HookConfig.InstallWrites` | internal/agenthooks/local.go:208-233 | the kept groups, and exactly when no group with the matcher held the command one added group, given field by field with the extra fields |
| `HookConfig.PassKeeps` | internal/agenthooks/local.go:174-215 | which groups a pass keeps, with which hooks and which other fields |
| `HookConfig.KeepsExactly` | internal/agenthooks/local.go:188-206 | which hooks the two rules keep, on their texts |
| `HookConfig.InPlaceIsAlone` | internal/agenthooks/local.go:156-233 | once in place, every command of the provider under the event is that command under that matcher; other providers' commands are foreign |
| `HookConfig.InstallKeepsForeign` | internal/agenthooks/local.go:156-233 | every foreign hook stays, in order and in its group |
| `HookConfig.InstallElsewhere` | internal/agenthooks/local.go:156-233 | every other event and every other key of the file is untouched |
| `HookConfig.SecondInstallIdleExactly` | internal/agenthooks/local.go:41-73 | from every file, a second installation of a provider writes nothing if and only if its table names no event under two matchers |
| `HookConfig.SettingsFile.InstallHook` | internal/agenthooks/local.go:156-233 | the nested loops leave the tree of `HookConfig.Install` and report a write if and only if the command was not in place |
| `HookConfig.SettingsFile.InstallProvider` | internal/agenthooks/local.go:55-67 | the loop over a provider's events is `HookConfig.InstallAll` |
| `HookConfig.MergeTwice` | internal/app/skill.go:340-410 | after a merge the command is there, a second merge does nothing, and the rest of the tree is untouched |
| `HookConfig.MergeWrites` | internal/app/skill.go:363-399 | the old groups, and exactly when none held the command one added group, given field by field |
| `HookConfig.UnmergeRemoves` | internal/app/skill.go:415-494 | after a removal no hook under the event runs the command, the foreign hooks are all there in order, and a second removal does nothing |
| `HookConfig.UnmergeLeavesNone` | internal/app/skill.go:440-470 | afterwards no hook under the event has the command, white space aside, and the groups are those the removal keeps |
| `HookConfig.UnmergeUndoesExactly` | internal/app/skill.go:340-494 | exactly when removing a merged hook restores the settings |
| `HookConfig.SettingsFile.InstallClaudeHook` | internal/app/skill.go:340-410 | the search and the append are `HookConfig.Merge`, reported if and only if the tree changed |
| `HookConfig.SettingsFile.UninstallClaudeHook` | internal/app/skill.go:415-494 | the filtering loops are `HookConfig.Unmerge`, reported if and only if the tree changed |
| `AttentionFeed.SurfacedExactly` | internal/flowdb/attention.go:68-145 | `surfaced` tells whether the returned card is open exactly for new items |
| `AttentionFeed.UpsertTouchesOne` | internal/flowdb/attention.go:68-145 | an upsert changes at most the row it returns, a refused one nothing |
| `AttentionFeed.PickedLeads` | internal/flowdb/attention.go:77-87 | the row an item meets is the eligible card that leads all others: open first, then created later, then the greater id |
| `AttentionFeed.UpsertInserts` | internal/flowdb/attention.go:123-145 | without an eligible card exactly which items become a card, and that card |
| `AttentionFeed.UpsertCoalesces` | internal/flowdb/attention.go:93-121 | which columns of the leading card an item rewrites, and exactly when it is left dismissed |
| `AttentionFeed.SurfacedCarriesItem` | internal/flowdb/attention.go:101-121 | a surfaced card carries the item's columns and keeps its thread |
| `AttentionFeed.ReopensExactly` | internal/flowdb/attention.go:98-100 | a dismissed card comes back if and only if the item is new, the card is the foremost of a thread without open cards, and the time stamps are not both numeric or the item's is later |
| `AttentionFeed.SetStatusKeepsExactly` | internal/flowdb/attention.go:305-318 | a status change keeps one open card per thread if and only if it does not open a second |
| `AttentionFeed.RunsKeepOneOpen` | internal/flowdb/attention.go:68-145 | over every run of upserts, resolutions and status moves away from 'new' each thread has at most one open card |
| `AttentionFeed.DismissalHolds` | internal/flowdb/attention.go:93-100 | replaying messages no later than the dismissed card, amid any upserts on other threads, leaves every card of the thread as it is |
| `AttentionFeed.OlderMessageReopens` | internal/flowdb/attention.go:101-121 | four calls after which a message older than one already seen reopens the card |
| `AttentionFeed.ResolveExactly` | internal/flowdb/attention.go:268-281 | resolving closes the open cards of the thread and nothing else |
| `AttentionFeed.ResolvedColumns` | internal/flowdb/attention.go:268-281 | the open cards of the thread become acted with the time, everything else stays |
| `AttentionFeed.StatusColumns` | internal/flowdb/attention.go:305-337 | what setting a status and acting on a card write, and when |
| `AttentionFeed.FeedTable.UpsertFeedItemSurfaced` | internal/flowdb/attention.go:68-145 | table and result are those of `AttentionFeed.Upserted` |
| `AttentionFeed.FeedTable.ResolveOpenFeedItemsByThread` | internal/flowdb/attention.go:268-281 | the count is the number of open cards of the thread |
| `PlaybookScheduler.LaunchedExactly` | internal/app/playbook_schedule.go:102-137 | a pass launches a due playbook if and only if its spec parses, no run listed for it at the start is running with a live process, and firing works |
| `PlaybookScheduler.LaunchedOnce` | internal/app/playbook_schedule.go:84-95 | a pass launches a playbook at most once, and only a due one |
| `PlaybookScheduler.NothingLeftDue` | internal/app/playbook_schedule.go:67-97 | after a pass begun at t no playbook is due at t |
| `PlaybookScheduler.DueListColumns` | internal/flowdb/db.go:2827-2858 | the due playbooks on the columns: not archived, not deleted, scheduled, not paused, next fire no later than now |
| `PlaybookScheduler.InFlightColumns` | internal/app/playbook_schedule.go:141-154 | a run in flight on the columns: listed, running, with a live process |
| `PlaybookScheduler.RunEventColumns` | internal/app/auto.go:186-203 | what a start by hand, a withdrawn launch, archiving, deleting and the way back write |
| `PlaybookScheduler.PassRow` | internal/app/playbook_schedule.go:102-137 | at the end of the pass each due playbook is paused, or recorded as launched with its time, run and next fire, or only moved on, and each launched run is in the table with its process |
| `PlaybookScheduler.PassTouchesDue` | internal/app/playbook_schedule.go:67-97 | a pass leaves every other playbook and every existing run row alone |
| `PlaybookScheduler.FiredKeepsExactly` | internal/app/playbook_schedule.go:102-137 | one playbook's turn keeps one run in flight per playbook if and only if the number of the process it starts is carried by no listed running row of the playbook, and by none of another beside a second run in flight |
| `PlaybookScheduler.EventKeepsExactly` | internal/app/auto.go:186-233 | the same for every event: turns, starts by hand, ends, reconciliations, withdrawn launches, archiving, deleting and the way back, processes ending and starting |
| `PlaybookScheduler.NeverTwoInFlight` | internal/app/playbook_schedule.go:141-154 | over every history of these events no playbook ever has two listed runs in flight if and only if every event is safe |
| `PlaybookScheduler.PassIsHistory` | internal/app/playbook_schedule.go:84-95 | a pass is such a history, one turn after the other |
| `PlaybookScheduler.ReusedPidBreaksIt` | internal/app/auto.go:186-194 | whenever a launch takes the number that a crashed listed run of the playbook still carries, two runs are in flight |
| `PlaybookScheduler.Scheduler.PlaybookRunInFlight` | internal/app/playbook_schedule.go:141-154 | the loop finds a listed run that is running with a live process if and only if there is one |
| `PlaybookScheduler.Scheduler.DuePlaybooks` | internal/flowdb/db.go:2827-2858 | lists exactly the due playbooks, in slug order |
| `PlaybookScheduler.Scheduler.FirePlaybookSchedule` | internal/app/playbook_schedule.go:102-137 | the state is that of `PlaybookScheduler.Fired`, and the result says whether a run was launched |
| `PlaybookScheduler.Scheduler.PlaybookTickDue` | internal/app/playbook_schedule.go:67-97 | the pass goes through exactly the due playbooks and counts its launches |
| `PlaybookScheduler.FinalizedIsNotFlying` | internal/app/auto.go:196-203 | a finalized run is in flight no more, whatever processes live; it keeps its playbook and listing, and every other row stays |
| `PlaybookScheduler.ReconciledExactly` | internal/app/auto.go:213-233 | reconciling leaves the same runs in flight, changes the table if and only if the row says running and its process is gone, and afterwards a row that says running has a live process |

## Left out

- Terminals, spawned processes, git, ps, HTTP, Slack and GitHub traffic, file reads, prompts and flag parsing: spawn results, liveness of processes, clocks, fresh UUIDs and ids a harness returns are inputs with stated assumptions.
- JSON text, SQLite and FTS5 themselves: trees, maps and sets stand for them; ranking and snippets are one given order of the rows (`rank`), and a query phrase that the tokenizer turns into nothing matches no row.
- Bytes: texts are sequences of characters, compared character by character; case folding and the class of word characters are parameters (`lower`, `isWord`), as are the tokenizer and the parser of time stamps (finite numbers only, so a stamp of infinity is not modelled).
- SQLite's order for queries without ORDER BY: `deps` is a sequence in some scan order, and every result holds for each.
- Interleaving inside the check-then-write commands (adding a dependency, setting a parent, feed upserts, `flow done`, `flow update`): one atomic step each. Only `flow do`, terminals opened by the server and background launches are interleaved. Two concurrent scheduler passes are not modelled.
- Sessions.SessionTable.RollbackSpawn: the auto_run columns cleared by the rollback of an autonomous launch are the `Withdraw` event of PlaybookScheduler, not part of this row; the session_path, harness and timestamp columns are not in the row either.
- Sessions.SessionTable.PrepareTerminal: the start gate and the check for a running autonomous run are its input `allowed`; worktree set-up after the COMMIT is part of the spawn.
- Rows are never deleted: the deletion of a playbook run whose directory could not be created (internal/server/actions.go:1569-1572) and the repairs of older tables in migrations other than the modelled ones are not steps of SessionProtocol.
- SearchStore.Store.SearchDocs: which rows a search at its limit returns is the given `rank`; `Rebuild` does not model FTS5's own storage.
- HookConfig.SettingsFile.InstallHook: read and write errors, key order and indentation of the file are not modelled.
- PlaybookScheduler.Scheduler.PlaybookTickDue: writes succeed; a run may be created and not started, but a launch that fails after its row says running is not modelled. The schedule parser is a parameter that answers a strictly later whole second.
- PlaybookScheduler.NeverTwoInFlight: renaming a playbook, which moves all its runs to a new name, is not among the events.
- ShellWords.SpawnTabDelivers: environment names are plain words, and their sorting is assumed done; kitty's newline flattening is not modelled.
- ShellWords.AgentShellCommand: the program name is free of quoting, as all callers' names are; the reader of ShellWords refuses double quotes and expansions; that of ShellScript knows the ones the hook guard uses and refuses the rest.
- RenamePlaybook, project renames, permanent deletion, transcripts, list rendering, owner ticks, chats, mutes and watermarks: easy members.
