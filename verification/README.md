# Farm Table: a verified model

Farm Table is a task store that several agents work on at once. Tasks carry a stage, a phase
derived from it, an optional hold reason and a version; relationship rows between tasks say who
blocks whom. Agents read tasks, then send updates, claims and closes that are guarded by the
version they saw. This project models that protocol, the dependency graph on the same rows, the
documents a collection is exported to and imported from, the clean-up of external data, and the
engine that lets a model split a task into a graph of subtasks.

One value, `Domain.Db`, is shared by everything: a map of task rows and a set of relationship
rows. `a` effectively blocks `b` if there is a row `(a, b, blocks)` or a row `(b, a, blocked_by)`.

* `Lifecycle` gives every request in two halves, what it loads and what its guarded write does,
  and `EntStore` is the store that runs them one after the other. `Effects` says what each request
  does to the tables, column by column and row by row, without the functions that do it.
  `Protocol` puts loads and writes of any number of clients into any order, and proves what holds
  over all runs. `Transitions` has the scope table and runs of calls by one token.
* `Graph` has walks, reachability and acyclicity. `Searches` (critical path, downstream counts,
  bottlenecks), `DependencyTree`, `Splice` (inserting steps after an anchor) and `Mirror` (the
  ephemeral copy of an external collection) are proved against it.
* `Document`, `ImportOrder`, `ExportImport`, `Documented`, `RoundTrip` and `SharedAddress` are about
  documents; `RemoteData` with `SafeParts` is
  the sanitizer of external data and the import check that mirrors it.
* `Paging` is listing by keyset pages and the remote-id index built on it.
* `Replies` is the check of a model's reply and `Decomposer` the engine's workers, any number of
  them, creating tasks through the store of `Lifecycle`; `DecomposerErrors`
  says when a run reports an error and `DecomposerEnds` bounds the runs.

Methods carry the loops and the in-place changes of the Go code and are proved against the
functions the lemmas speak about. Protocols (`Protocol`, `Decomposer`) are state machines over
events; a run is any sequence of enabled events.

What is taken as given: a transaction, and a conditional UPDATE, is one atomic step; foreign keys
hold; new identifiers are fresh; clocks do not run backwards; textual forms of identifiers and
times are injective. The clock, new identifiers and the model's replies are parameters. Which
keys bear URLs and which strings are acceptable URLs are parameters too (`RemoteData.Rules`); the
one fact used is that the empty key, under which list elements are visited, bears none.

Five properties one might expect do not hold of the code. Each has lemmas with an input on which
it fails, and one that says exactly when it holds:

* A write that matches its row need not advance the version. An update always does; a claim or
  close does if and only if it was sent without a version or with the one it had loaded
  (`Protocol.AdvancesIff`). With a guessed version the version can stand still
  (`Protocol.GuessedVersionStands`) or go back (`Protocol.GuessedVersionGoesBack`), and then even
  a client with a version it was honestly given passes its guard on a row it never read. So the
  run theorems ask that every client send only versions it was given.
* Closing keeps the hold reason, so a close can make a collection impossible to export and import
  again (`RoundTrip.ClosingHeldStops`). `RoundTrip.ImportableIffPortable` says which collections
  can be carried over.
* Carrying a collection over can merge its users: two users with one address become the same user
  where exactly one user has that address (`RoundTrip.MergedUsers`; with a complete example,
  `SharedAddress.AssigneesMerge`). `RoundTrip.UsersStayApartIff` says when all users stay apart.
  Tasks and comments always do.
* Inserted steps stand only before tasks the anchor blocked by a row of its own. A task that named
  the anchor in a `blocked_by` row of its own keeps waiting for the anchor alone
  (`Splice.OwnRowKeepsAnchorAlone`); `Splice.StepsBlockExactly` says which tasks wait for the steps.
* The comment above `validateRemoteDataURLs` says that it fails exactly where the sanitizer would
  drop something. But the sanitizer also drops non-strings that the check passes
  (`RemoteData.StrayNullIsDropped`), and at the depth limit it keeps a map the check refuses
  (`RemoteData.LimitDisagreement`). Below the limit the claim holds of just the data described by
  `RemoteData.PassesIffUntouchedIff`; `RemoteData.SanitizedMapAccepted` is exact at every depth.

## Model

| member | source | states |
|---|---|---|
| Protocol.CommittedFromCurrentRow | internal/store/entstore.go:1193-1285 | A write that matches a row was computed from that very row, whatever came between load and write. |
| Protocol.CommittedWrite | internal/store/entstore.go:792-1035 | So a committed update, claim or close is the whole request done at once on the stored row: version up by one, no other task changed, invariant kept. |
| Protocol.StepKeepsInv | internal/store/entstore.go:792-1350 | Every load, write, retry, creation, insertion and import keeps what is known of stored rows, of versions handed out and of requests in flight. |
| Protocol.VersionCountsWrites | internal/store/entstore.go:1169-1350 | No lost updates: over every run a row's version grows by exactly the number of writes made to it. |
| Protocol.ClaimsAreSeparated | internal/store/entstore.go:1169-1285 | Between two successful claims of a task lie an update that cleared its assignee and one that put it back to accepted. |
| Protocol.ClosesAreSeparated | internal/store/entstore.go:1287-1350 | Between two successful closes of a task lies an update that reopened it. |
| Protocol.ClaimCommitsUnblocked | internal/store/entstore.go:1156-1167 | When a claim commits no effective blocker is unfinished, even one added since the claim loaded the task; the task was accepted, unassigned, unheld and due. |
| Protocol.StatesStayLegal | internal/store/entstore.go:1037-1050 | Over every run phase follows stage, no triage task is held, and no deferred task still has a start date to come. |
| Protocol.WorkingIsClaimedOrImported | internal/server/server.go:527-546 | A task enters working only by a claim or an import. |
| Protocol.CommittedEffect | internal/store/entstore.go:828-1003 | A committed request has done to the stored row what it asks: an update sets, clears or keeps each column, a claim and a close write theirs. |
| Protocol.UpdatesDoAsAsked | internal/store/entstore.go:828-1003 | The same for every update that goes through in a run, rows included. |
| Protocol.ClaimsDoAsAsked | internal/store/entstore.go:1226-1231 | A claim that goes through in a run assigns the task to the one who asked, lifts its hold and changes nothing else. |
| Protocol.ClosesDoAsAsked | internal/store/entstore.go:1318-1325 | A close that goes through in a run closes in the stage asked for, and unless that is completed every task waiting for this one goes on waiting. |
| Protocol.CreatesDoAsAsked | internal/server/server.go:109-139 | A creation that is not refused makes the task asked for, with the phase that fits its stage. |
| Protocol.InsertsDoAsAsked | internal/server/server.go:222-310 | So does an insertion. |
| Protocol.UndisturbedCommits | internal/store/entstore.go:1193-1245 | A request that nothing disturbs between load and write goes through exactly if its version is absent or current, a claimed task is open and accepted, and named tasks exist. |
| Protocol.RetriedIff | internal/store/entstore.go:1247-1280 | A write that matched no row is tried once more exactly if the request was sent without a version, was not tried again before and could still succeed. |
| Protocol.TriedTwiceAtMost | internal/store/entstore.go:1300-1338 | Over every run no request is tried a third time. |
| Protocol.SentUnlessRefused | internal/server/server.go:507-533 | The server lets every request through but updates to working and updates with a blank or overlong text. |
| Protocol.VersionsAreGiven | internal/server/server.go:311-357 | Whoever reads, creates or writes a task is given the version it has then. |
| Protocol.AdvancesIff | internal/store/entstore.go:1226-1245 | When a write that matches its row advances the version, for any version sent along and any row loaded: always for an update, and for a claim or close if and only if no version was sent or the one sent is the one loaded. |
| Protocol.GuessedVersionStands | internal/store/entstore.go:1319-1335 | A concrete close with a guessed version that succeeds and leaves the version as it was. |
| Protocol.GuessedVersionGoesBack | internal/store/entstore.go:1319-1335 | Another that takes the version back, after which a version given out earlier matches a row it was not given for. |
| Lifecycle.BlockerConditionsAgree | internal/store/entstore.go:1124-1167 | The store's two NOT EXISTS conditions hold exactly if no effective blocker is unfinished, which is what the Go loop looks for. |
| Lifecycle.UpdateKeepsInv | internal/store/entstore.go:792-879 | Whatever a valid update sets or clears, the row it writes is legal, also when it is written at a later time than it was checked. |
| Lifecycle.NameOkIff | internal/server/server.go:69-77 | A name is accepted exactly if it has something but white space and at most 512 characters. |
| Effects.UpdateWriteDone | internal/store/entstore.go:828-1003 | An update sets, clears or keeps each column as sent; lifts a deferred hold that a new start date ends; gives every remote key sent its new value and leaves the others; appends pull requests; adds and removes the task's own rows. |
| Effects.UpdateRefusedIff | internal/store/entstore.go:804-826 | It is refused as invalid exactly if it empties the title or the row it would leave may not be written. |
| Effects.PhaseForStageFits | internal/server/convert.go:66-77 | The phase of a stage is open before work, in progress during it and closed after, and on hold never. |
| Effects.CloseReleases | internal/store/entstore.go:1071-1073 | After a close a task is blocked exactly if something else blocks it, or the closed task does and was not completed. |
| Effects.UnfinishedCloseKeepsBlocking | internal/store/entstore.go:1071-1073 | So closing as anything but completed releases nobody. |
| Effects.CreateWriteDone | internal/store/entstore.go:369-479 | The new task has every column asked for, and the blocks relation grows by exactly the edges asked for, each in its direction. |
| Effects.CreateRefusedIff | internal/store/entstore.go:369-372 | A creation is refused exactly for a state that may not be written, an empty title or an unknown task. |
| Effects.CreateAllowedIff | internal/server/server.go:88-120 | The server lets a creation through exactly if the store would, its texts will do and it is not to be working. |
| Effects.InsertAllowedIff | internal/server/server.go:222-262 | And an insertion exactly if there are steps, all texts will do and the anchor is in the collection. |
| Effects.InsertWriteDone | internal/store/entstore.go:502-598 | Each step becomes a triage task with its own title and details, the anchor only changes its version, and exactly the blocks rows of the chain replace those of the anchor. |
| EntStore.HasUnsatisfiedBlocker | internal/store/entstore.go:1124-1154 | The loop over a task's rows finds an unfinished blocker exactly if there is one, in either direction of row. |
| EntStore.ComputeAvailability | internal/store/entstore.go:1094-1122 | Each reason is reported exactly when it applies, once and in order; none is reported exactly for an available task. |
| EntStore.GetReadyTasks | internal/store/entstore.go:2516-2586 | The list has, once each, exactly the tasks the filter and the include-unblocked option ask for. |
| EntStore.OfferedIff | internal/store/entstore.go:2516-2586 | What the list offers, column by column; the least priority admits itself and everything more urgent. |
| EntStore.OfferedIsReady | internal/store/entstore.go:2516-2586 | Without the option these are the ready tasks the filter admits. |
| EntStore.EntStore.CreateTask | internal/store/entstore.go:369-479 | Succeeds exactly for a writable state, a title and known tasks; then the task has each column asked for and the blocks relation exactly the edges asked for, each in its direction; otherwise nothing changes. |
| EntStore.EntStore.UpdateTask | internal/store/entstore.go:782-1035 | One update alone: not found, illegal state, empty title, wrong version or unknown reference, changing nothing; or each column and row set, cleared or kept as sent, leaving a writable row and all foreign keys. |
| EntStore.EntStore.ClaimTask | internal/store/entstore.go:1169-1285 | With nobody interfering a claim succeeds if and only if the task is in the list of ready tasks, unassigned, and the version sent is absent or current; then the task is working for the one who asked. Otherwise nothing changes, and each error is reported exactly in its case. |
| EntStore.EntStore.CloseTask | internal/store/entstore.go:1287-1350 | A close succeeds exactly for a task not closed, a terminal stage and a current or absent version; then the task is closed in that stage at that time, its hold, assignee and rows as they were. |
| EntStore.EntStore.InsertTasksAfter | internal/store/entstore.go:481-598 | Inserts the chain, task by task and row by row as asked or, for no steps, an unknown anchor or an empty title, nothing. |
| EntStore.Splice | internal/store/entstore.go:502-567 | The loops over the chain and over the anchor's own rows build exactly the spliced set of rows. |
| Splice.LeadsPreserved | internal/store/entstore.go:502-567 | Among the tasks that were there before, exactly the same ones lead to each other after the insertion. |
| Splice.AcyclicPreserved | internal/store/entstore.go:502-567 | The graph is acyclic after the insertion if and only if it was before. |
| Splice.StepsStandBetween | internal/store/entstore.go:536-567 | Every task the anchor blocked by a row of its own now waits for every step, and every step for the anchor. |
| Splice.StepsBlockExactly | internal/store/entstore.go:502-567 | Exactly those tasks wait for a step that the anchor blocked by a row of its own, or that lie behind such a task. |
| Splice.OwnRowKeepsAnchorAlone | internal/store/entstore.go:536-567 | A task blocked only by its own blocked_by row waits for the anchor before and after, and for no step. |
| Splice.InsertKeepsForeignKeys | internal/store/entstore.go:600-621 | All rows and parents still refer to existing tasks. |
| Transitions.TransitionPolicy | internal/server/transitions.go:75-136 | What the first-match table decides for every pair of stages: closing, accepting, claiming or plain writing. |
| Transitions.PermittedIff | internal/server/scopes.go:74-94 | Exactly which calls a token may make, by its scopes, the stages moved between and the texts sent. |
| Transitions.PerformedAsAsked | internal/server/server.go:711-812 | A call that is let through and meets no error does what it asks, a close without a stage completing the task. |
| Transitions.CallIsTame | internal/server/scopes.go:74-94 | One call by a token without the lifecycle scopes moves no task out of triage or in, out of or between terminal stages. |
| Transitions.RestrictedRunIsTame | internal/server/server.go:711-812 | The same over any serial run of calls; and whatever the run created is in triage. |
| Searches.FindLongestBlocksChain | internal/server/server.go:1932-1976 | On any graph the search returns a longest repeat-free chain that avoids the marked tasks and fits the depth limit, and leaves the marks as it found them on every exit. |
| Searches.CriticalPath | internal/server/server.go:1880-1894 | The longest over all starting tasks. |
| Searches.GetCriticalPath | internal/server/server.go:1801-1894 | Fails exactly for an unknown root or 500 open tasks; otherwise no repeat-free chain of at most 50 tasks from an allowed start is longer than the one returned. |
| Searches.LoadOpenTasks | internal/server/server.go:1856-1878 | Loading phase by phase under the limit yields all open tasks, or reports that there are too many, and which of the two depends only on their number. |
| Searches.CountDownstream | internal/server/server.go:2117-2141 | Returns the number of tasks newly marked, all of them reachable; if no repeat-free chain from the root is longer than 50, everything reachable is marked. |
| Searches.Downstream | internal/server/server.go:2076-2081 | Never more than the number of distinct transitive dependents, and exactly that number when no repeat-free chain from the task has more than 50 tasks, however many tasks are reachable. |
| Searches.CountedOfFew | internal/server/server.go:2117-2141 | In particular the count is exact when at most 50 tasks are reachable. |
| Searches.ExchangeSort | internal/server/server.go:2091-2098 | The in-place exchange sort leaves a descending permutation. |
| Searches.SortAndCut | internal/server/server.go:2091-2102 | The cut keeps a top set: whatever is dropped counts no more than anything kept. |
| Searches.GetBottlenecks | internal/server/server.go:1978-2115 | Exactly the open blocking tasks are counted, and a top set of them by that count is returned, in order. |
| DependencyTree.BuildDependencyNode | internal/server/server.go:1733-1799 | The search with its shared visited set builds a tree of exactly the newly visited tasks, once each, along edges of the right direction and not too deep. |
| DependencyTree.GetDependencyTree | internal/server/server.go:1695-1799 | Each task at most once, height within the limit, children only along effective edges of their label; on any graph all neighbours of every node above the limit, and all reachable tasks when no repeat-free path from the root is longer than the depth allows. |
| DependencyTree.ClampDepth | internal/server/server.go:1711-1717 | The depth asked for, 5 if none was asked for, and never more than 20. |
| DependencyTree.TreeOfFew | internal/server/server.go:1733-1799 | In particular the tree is complete when at most the depth plus one tasks are reachable. |
| DependencyTree.DoneIsTree | internal/server/server.go:1733-1799 | A finished search that met no limit has found exactly the reachable tasks. |
| Mirror.LoadEphemeralStore | internal/server/graph_routing.go:58-157 | Unless a loaded task has no title, the two loading loops build a store with exactly one twin of every loaded task, alike in title, stage, phase, start and details but for rank and checks, and with exactly the image of the effective blocks relation between loaded tasks, under an injective renaming. |
| Mirror.OpenTasksAgree | internal/server/graph_routing.go:86-109 | The open tasks of the mirror, where its searches start, are the twins of the open loaded tasks. |
| Mirror.CreateRelationship | internal/server/graph_routing.go:180-212 | Recreating one row by an update adds the edge it stands for and nothing else. |
| Mirror.ChainLengthsAgree | internal/server/graph_routing.go:93-126 | A chain of any length starts at a task of the restricted original exactly if one starts at its twin. |
| Mirror.ReachSetsAgree | internal/server/graph_routing.go:93-126 | The tasks reachable from a twin are the twins of the reachable tasks, and equally many. |
| RemoteData.SanitizedIsSafe | internal/server/urlvalidate.go:250-357 | At every depth of the output, what stands under a URL-bearing key is a valid URL, a list of valid URLs, or a map. |
| RemoteData.SanitizeMapTwice | internal/server/urlvalidate.go:250-357 | Sanitizing twice is sanitizing once, at every depth. |
| SafeParts.SanitizedIsGreatest | internal/server/urlvalidate.go:250-357 | At every depth the output is the greatest harmless part of the data: it can be had by removing fields and list elements, and everything harmless that can be had so is part of it. |
| SafeParts.GreatestIsSanitized | internal/server/urlvalidate.go:250-357 | There is only one such part, so nothing else is said or unsaid of the sanitizer. |
| RemoteData.ValidatorAcceptsExactly | internal/server/urlvalidate.go:380-465 | At any depth the import check passes if and only if every string in a URL position is a valid URL, positions being defined by path and not by the traversal, and no value looked at lies beyond the limit nor a map right at it. |
| RemoteData.ValidatorAcceptsIff | internal/server/urlvalidate.go:380-465 | So below the depth limit only the URLs matter. |
| RemoteData.SanitizeIsPruneMap | internal/server/urlvalidate.go:250-465 | Below the limit the check passes exactly if the sanitizer removes nothing but non-strings directly under, or listed under, a URL-bearing key. |
| RemoteData.SanitizedMapAccepted | internal/server/urlvalidate.go:380-465 | At any depth the sanitizer's output passes the check if and only if no map of the input that the sanitizer reaches stands right at the limit. |
| RemoteData.SanitizedAccepted | internal/server/urlvalidate.go:380-465 | So below the limit the output always passes. |
| RemoteData.LimitDisagreement | internal/server/urlvalidate.go:250-465 | An empty map at the limit is kept by the sanitizer and refused by the check. |
| RemoteData.StrayNullIsDropped | internal/server/urlvalidate.go:250-465 | A null under a URL-bearing key passes the check and is dropped by the sanitizer. |
| RemoteData.PassesIffUntouchedIff | internal/server/urlvalidate.go:380-392 | Below the limit, "passes exactly if the sanitizer drops nothing" holds of just those data in which some URL is invalid or no stray value stands in a URL position, both said by path. |
| ImportOrder.ParentSearch.Visit | internal/server/export_import.go:682-700 | One visit of the depth-first search places a task after its parent, or names what is wrong; it ends on every input. |
| ImportOrder.OrderImportTasks | internal/server/export_import.go:667-707 | Succeeds if and only if ids are distinct, named parents are present and parent references are acyclic; the result is a permutation with parents first. |
| ImportOrder.IndexTasks | internal/server/export_import.go:667-680 | The index exists exactly if no id occurs twice. |
| ExportImport.ExportCollection | internal/server/export_import.go:105-262 | Fails exactly for an unknown or external collection or a vanished user; otherwise lists exactly the collection's tasks, comments, inner rows and users. |
| Documented.ExportSaysAll | internal/server/export_import.go:488-539 | The document says of every task of the collection all its columns, with the remote data sanitized. |
| ExportImport.ImportCollection | internal/server/export_import.go:264-486 | Succeeds if and only if the document is importable, and then adds exactly what the document says. |
| Documented.TasksAreAsSaid | internal/server/export_import.go:722-876 | Every task of the document is stored with the columns the document gives; stages of today keep stage and hold, and of the old ones backlog and ready come to accepted, waiting to held for input, deferred to held unless its start is to come, scheduled to held exactly without a start, blocked to held exactly without a row that says so. |
| Documented.AcceptedIff | internal/server/export_import.go:722-891 | Whether a task can be stored, by what the document says of it. |
| Documented.ImportableRefers | internal/server/export_import.go:541-611 | Whatever an importable document refers to is in it, and what it spells can be read. |
| Documented.RowsAreAsSaid | internal/server/export_import.go:908-925 | Exactly the rows of the document are stored, between the tasks it names and of its kind. |
| Documented.CommentsAreAsSaid | internal/server/export_import.go:893-906 | Every comment is stored under its task and author with its text and times. |
| Documented.CollectionIsAsSaid | internal/server/export_import.go:377-400 | The new collection is a native one with the name, text, times and sanitized data of the document. |
| ExportImport.ImportedTaskLegal | internal/server/export_import.go:878-891 | Whatever the document, an imported task satisfies the invariant of stored tasks and starts at version 1. |
| ExportImport.ResolveUsers | internal/server/export_import.go:613-665 | Each document user becomes the one existing user with the same address, if there is exactly one, and a new user otherwise. |
| Documented.MatchedIff | internal/server/export_import.go:625-636 | A user becomes an existing one exactly if it has an address and exactly that existing user has the same. |
| ExportImport.OrderedTasksStorable | internal/store/entstore.go:2101-2265 | Inserted in parents-first order, tasks never refer to a parent not yet there, so only an empty title can stop the insertion. |
| RoundTrip.ImportableIffPortable | internal/server/export_import.go:541-611 | Import accepts an export, into any site and at any later time, if and only if the collection is portable: parents inside and acyclic, titles, texts and names present, links valid, no held closed task, no map at the depth limit. |
| RoundTrip.ExportWellParented | internal/server/export_import.go:488-539 | The document's parent references are in order exactly if the collection's are. |
| RoundTrip.TaskExportAccepted | internal/server/export_import.go:722-777 | A stored task, exported, is accepted exactly if it is importable. |
| RoundTrip.HeldClosedTaskStops | internal/server/export_import.go:878-891 | One completed task that still carries its hold makes its collection impossible to carry over. |
| RoundTrip.ClosingHeldStops | internal/store/entstore.go:1319-1324 | Closing any held open task produces one. |
| RoundTrip.TaskRoundTrip | internal/server/export_import.go:779-876 | One task out and in again differs only in identifiers, sanitized remote data and a version of 1. |
| RoundTrip.RowRoundTrip | internal/server/export_import.go:908-925 | A row between two tasks of the collection exists exactly if its renamed form does. |
| RoundTrip.CommentRoundTrip | internal/server/export_import.go:893-906 | A comment out and in again differs only in identifiers. |
| RoundTrip.ExportImportRoundTrip | internal/server/export_import.go:105-486 | Exporting a well-formed collection and importing it is accepted and gives an isomorphic collection: tasks and comments under injective renamings, rows between them, every user become the one known user with the same address or a new user with the same record, remote data sanitized; everything else on the receiving site is untouched. |
| RoundTrip.NothingUnlinked | internal/server/export_import.go:779-876 | No task loses its assignee or its parent on the way. |
| RoundTrip.UsersStayApartIff | internal/server/export_import.go:613-665 | The renaming of users is injective if and only if no two users of the collection share an address that exactly one user of the receiving site has. |
| RoundTrip.MergedUsers | internal/server/export_import.go:613-665 | Two such users become that one user. |
| SharedAddress.AssigneesMerge | internal/server/export_import.go:613-665 | A complete example: a well-formed collection with two assignees, carried over, has one. |
| Paging.ListTasks | internal/store/entstore.go:642-741 | One query returns the first matching tasks beyond the cursor in the chosen order, up to the limit if one is given, and how many tasks match in all. |
| Paging.MatchingIff | internal/store/entstore.go:642-674 | A task matches exactly if each field of the filter is absent or its own. |
| Paging.ListingUnique | internal/store/entstore.go:672-700 | Creation or update time with the identifier as tie-breaker determines the order completely. |
| Paging.BeyondIsSuffix | internal/store/entstore.go:1963-1993 | The keyset condition of a listed task selects exactly the rest of the listing after it. |
| Paging.PagesConcatenate | internal/store/entstore.go:702-730 | Walking all pages yields every matching task exactly once, sorted by creation or update as asked with the identifier among equals, in both directions and for every page size. |
| Paging.BuildRemoteIdIndex | internal/platform/beads/beads.go:482-512 | The loop ends, every remote id of the collection is indexed, and each leads to the last task that carries it. |
| Paging.IndexMeans | internal/platform/beads/beads.go:499-503 | Every remote id of the collection leads to the newest task that carries it, and nothing else is in the index. |
| Replies.ValidateResult | internal/decomposer/parser.go:69-112 | No fault is found exactly in a valid reply: terminal, or ordered non-empty groups of subtasks with texts and distinct slugs. |
| Decomposer.StepKeepsInv | internal/decomposer/engine.go:98-209 | Every step of every worker keeps the invariant on tasks, rows, creation order, groups, workers and slots. |
| Decomposer.NewConfig | internal/decomposer/engine.go:45-63 | Depth and concurrency are those asked for, or 3 and 4. |
| DecomposerErrors.StepLeads | internal/decomposer/engine.go:98-261 | Where every step leaves the worker that takes it: which answers end, continue or correct, which failures are tried again, and which end with an error or without. |
| DecomposerErrors.FailsOnlyByError | internal/decomposer/engine.go:98-261 | A step makes a worker fail exactly if it is an error: starting after cancellation, a first prompt unanswered or given up, or a creation that did not come back; and failing is passed up. |
| DecomposerErrors.RunReportsErrorIff | internal/decomposer/engine.go:73-85 | Over every run: when Run returns, it reports an error if and only if some step was one. |
| Decomposer.RefusedForTexts | internal/server/server.go:69-86 | Parent and blockers always exist, so a creation the engine asks for is refused if and only if its title is blank or too long or its description too long. |
| Decomposer.BlankTitlePasses | internal/decomposer/parser.go:69-112 | A title of one space passes the parser's check and is then refused. |
| Decomposer.CreatedTask | internal/decomposer/writer.go:101-128 | A creation stores the subtask's own title and description as a legal triage task under the worker's task, and changes no other task. |
| Decomposer.SpawnHasAll | internal/decomposer/engine.go:160-209 | A worker goes on to split its subtasks only when all subtasks of the reply are created, in the reply's order. |
| Decomposer.RowsPointBack | internal/decomposer/engine.go:165-192 | Every row added in any run says that a subtask is blocked by a sibling created earlier. |
| Decomposer.RowsAreExactly | internal/decomposer/engine.go:165-192 | The rows added are exactly one from each subtask to each of the group just before its own. |
| Decomposer.StaysAcyclic | internal/decomposer/engine.go:165-192 | Over every run the blocks relation of the whole store is acyclic if and only if it was before. |
| Decomposer.LaterGroupIsBlocked | internal/decomposer/engine.go:165-192 | Every subtask of a later group is transitively blocked by every subtask of each earlier group of the same decomposition. |
| Decomposer.DepthIsBounded | internal/decomposer/engine.go:107-112 | No task created lies deeper below the root than the maximum depth. |
| Decomposer.CallsAreBounded | internal/decomposer/engine.go:215-261 | At most `concurrency` model calls are in flight, and no decomposition makes more than eight. |
| Decomposer.NoDeadlock | internal/decomposer/engine.go:91-97 | Until Run returns some worker can take a step, even if more workers wait than the semaphore has slots. |
| DecomposerEnds.StepUses | internal/decomposer/engine.go:98-261 | Every step but a cancellation uses up part of a budget that spawning shares out among the new workers. |
| DecomposerEnds.RunsEnd | internal/decomposer/engine.go:98-261 | If no reply has more than b subtasks, no run has more steps than a number that depends only on b and the maximum depth: every run ends. |
| Decomposer.ReturnMeansDone | internal/decomposer/engine.go:194-209 | When Run returns every worker has returned and every slot is free; it has failed if and only if some worker has. |

## Left out

- The version is an unbounded integer; its 64-bit wrap-around is not modelled.
- EntStore.EntStore.ClaimTask: runs without interference, where a second attempt cannot arise; the retry is a step of `Protocol`. The same goes for updates and closes.
- EntStore.EntStore.CreateTask: does not model the foreign keys to the collection and the assignee, the native label the server derives from the stage, nor remote data an adapter may send along; the columns that requests only set or clear (description, labels, priority, rank, due date, branch and the like) are one value, `Details`.
- EntStore.EntStore.UpdateTask: does not model the merging of labels, audit rows and the foreign key to the assignee.
- EntStore.GetReadyTasks: does not model the ranking and paging of the list, which sort by a library, nor the count of resolved blockers.
- Searches.GetCriticalPath: does not model the fan-out and bottleneck node of the answer, which count rows.
- Paging.ListTasks: does not model sorting by priority or due date and the label filter, which do not have the keyset property.
- Mirror.LoadEphemeralStore: takes the list of loaded tasks (the query for at most 10000 of them) as given, and says nothing of holds and assignees, which the code drops.
- Transitions.RestrictedRunIsTame: is about serial runs with authentication enforced; between a scope check and the write of one call no other call is considered.
- Decomposer.StaysAcyclic: no other client writes to the store during the run; model calls, prompts, back-off times and the printed statistics are not modelled.
- ExportImport.ExportCollection: does not model the change list and the order in which a document lists its parts.
- ExportImport.ImportCollection: does not model the overriding name, the dry run, the change list, the notes on migrated tasks of format 1 and their author, the beads format or the texts of error messages.
- RemoteData.ValidatorAcceptsIff: covers decoded JSON; the Go-typed cases for lists of maps and lists of strings, which count depth differently, do not arise from decoding. Which of several faults is reported first is not modelled.
- The splitting of key names into segments and URL parsing are the parameters of `RemoteData.Rules`.
- Deletion of tasks, the writes of the external adapters, the state migration at start-up, events for subscribers, token storage, sessions, the web dashboard and the command line.
