# minizep: a verified model

minizep keeps a bi-temporal knowledge graph: every fact row says when it is
true (`validAt` to `invalidAt`) and when the system knew it (`createdAt`,
`expiredAt`). An ingestion run turns an episode's text into facts with the help
of a language model and may end, narrow or move facts that are already there;
three corrections (invalidate, reopen, forget) rewrite rows by hand. This
project models that engine and the protocols around it, and proves what they
promise for every store, every reply of the language model, every verdict of
the contradiction judge and every interleaving.

How the files fit together:

| part | files |
|---|---|
| what a row's four dates mean, and the same test in SQL | `Temporal`, `TimeFilter` |
| rows, runs and corrections as functions of their inputs | `Facts`, `Resolution`, `Corrections`, `Episodes` |
| the same, as the objects that update in place | `EpisodeRun`, `IngestPipeline` |
| what holds of every run, history and correction | `RunInvariant`, `WorkingMap`, `Untouched`, `History`, `Statements`, `Evidence`, `Endings`, `RunEndings`, `Amendments`, `Forgetting`, `Closures`, `ForgetReports`, `Undo`, `OneValue`, `Slots`, `Limits` |
| locks, episode lifecycle, snapshots, jobs, the principal cache | `KeyedMutex`, `Lifecycle`, `Persistence`, `JobQueue`, `PrincipalCache` |
| rights and self-minted tokens | `Rights`, `Tokens` |
| search | `Bm25`, `Sorting`, `Ranking`, `Search`, `Neighbourhood` |
| the in-memory store | `MemoryStore`, `Snapshots`, `GraphStore` |

What is taken as given, everywhere:

- An instant is an integer of milliseconds, or absent. A clock read is a
  parameter; the clocks of successive operations do not go backwards.
- The reply, every verdict and every "similar enough" test are arbitrary inputs
  (the similarity tests as arbitrary relations between vectors), and so is
  which vectors are stale and what they become when embedded again, and the
  order in which the store lists an entity's facts.
- A store holds the rows of one group in insertion order, so a row's position
  stands for its uuid. A relation name stands for its normalised form.
- A run that fails (the language model, the embedder) writes nothing.
- Protocols are state machines: an event that cannot happen changes nothing,
  and the theorems quantify over all sequences of events. The objects' methods
  are proved to take exactly those steps.

Where the code does not keep a promise, the model keeps the code, gives a
concrete case, and proves exactly when the promise holds:

- An episode dated after its run's clock can produce an edge that is empty
  from the start: a history of two runs reaches one
  (`Limits.FutureNoteVanishes`, `Limits.NewEdgeIsEmptyIff`).
- A one-value slot can be left with two current values, in three ways, each
  reached by a history of two runs: evidence moves the start of a scheduled
  value into the past while another is current
  (`Limits.ScheduledValueCollides`), the statement and a current value both
  start at the run's clock (`Limits.StartsTogetherHappens`), or a stated start
  that contradicts a stated end is dropped and the end is still ahead
  (`Limits.EndsAheadHappens`). There is no fourth way for an episode not dated
  after the clock, when the judge ends all it is shown and the reply has added
  no other value to the slot (`OneValue.OneValueIff`).
- On a store where a save reads and writes in two steps, a save that is
  overtaken by a retry puts a processed episode back to pending
  (`Lifecycle.SaveUndoesProcessed`, `Lifecycle.ProcessedUndoneIff`). The
  comment at src/pipeline/ingest.ts:538-542 rules this out for pending records
  only.
- Intersecting two patterns is exact except for one malformed shape, such as
  `**` with `*`, which the input schemas refuse
  (`Rights.StarredPrefixIsInexact`, `Rights.IntersectionIsExactIff`).
- In memory, two groups can share a key, exactly when the name of one with its
  separator begins the other's, such as `a` and `a::b`; an entity saved in the
  second can then be written over one of the first, and neither is found by its
  own name (`MemoryStores.KeysMeetIff`, `MemoryStores.GroupsInterfereIff`,
  `MemoryStores.ColonsCollide`).
- A snapshot does not bring the pinned vector length back when no stored
  record has a vector any more (`Snapshots.PinIsLost`,
  `Snapshots.SnapshotRebuilds`). This is at the store's own interface: no
  ingestion run takes a stored vector away (`History.RunOnlyShrinks`).

## Model

| member | source | states |
|---|---|---|
| Temporal.ViewRefinesActive | src/model/types.ts:124-175 | the view says 'active' exactly when the fact is active, exists exactly when the fact is known, and what it calls retracted is active at no instant |
| Temporal.ViewIs | src/model/types.ts:124-175 | the whole view of a known row: retracted exactly by a revision known by then that left it active at no instant, ended or future by its window, with its end as far as it was known |
| TimeFilter.PredicateIsActive | src/store/postgres-store.ts:642-664 | in three-valued logic the pushed-down predicate is TRUE exactly on the rows that are active, whichever columns are NULL |
| TimeFilter.QueryParams.TemporalPredicate | src/store/postgres-store.ts:635-664 | the filter binds its instants after those already bound, and a stored row passes exactly when it is visible, whatever is bound later |
| TimeFilter.VisibleIsActiveView | src/store/postgres-store.ts:635-664 | a search at an instant sees exactly the rows whose view is active there, as known at another, with now as the default of both |
| Facts.Earliest | src/pipeline/ingest.ts:821-825 | the earlier of two optional instants: one of them, at most each, absent only if both are |
| Facts.FindNextValue | src/pipeline/ingest.ts:737-746 | one pass finds the earliest start among the later values of the slot that still hold, and none exactly when there is none |
| Facts.NextValueUpTo | src/pipeline/ingest.ts:737-746 | the result is the start of a later value, and no later value starts before it |
| Facts.RetractedNeverActive | src/pipeline/ingest.ts:685-689 | a retracted row is active at no instant for any knowledge time from its retraction on |
| Facts.CoversIff | src/pipeline/ingest.ts:678-681 | a window contains exactly the instants at which a row with no later revision is active |
| Facts.RetractedIff | src/pipeline/ingest.ts:685-689 | exactly the rows that are active at no instant, once all about them is known, are retracted |
| Facts.LiveIff | src/pipeline/ingest.ts:809-812 | exactly the rows that are active at some instant from the clock on are live |
| Resolution.Window | src/pipeline/ingest.ts:1164-1176 | every window has a bound and, where both are known, a start strictly before its end; the stated end is the end (a day later if it is the stated start), a stated start is kept unless it comes after the stated end, and exactly when the start is the episode's date |
| Resolution.Pick | src/pipeline/ingest.ts:841-848 | exactly the records the valid indexes name, each once |
| Resolution.VerdictIsAsAnswered | src/pipeline/ingest.ts:833-848 | of the records shown, exactly those the answer says ended are ended and exactly those it says are the same are called restated, in each form the answer may take |
| Resolution.EndFor | src/pipeline/ingest.ts:1350-1357 | an end it gives lies strictly inside the fact's window and not before the change; it is the change itself exactly when the fact holds there and began before, and there is none exactly when the fact does not hold there or its window has no room for one |
| Resolution.Query.Nearest | src/pipeline/ingest.ts:1206-1210 | the later record found is a later record, and none begins earlier |
| Evidence.DecisionIff | src/pipeline/ingest.ts:1199-1283 | which of three things a statement is: evidence for a record that covers or restates it, earlier evidence for the nearest later record, or a new edge with the verdict's endings (each case in row fields below) |
| Statements.PoolIff | src/pipeline/ingest.ts:1137-1149 | a statement meets exactly the facts that touch its source, stored or added by the run |
| WorkingMaps.EachFactOnce | src/pipeline/ingest.ts:1137-1149 | at every statement of every run each fact is met once and no fact is shown to the judge twice, and the map only grows at its end |
| WorkingMaps.LoadAppends | src/pipeline/ingest.ts:1138-1144 | the facts of an entity go behind all others, in the order in which the store lists them |
| Statements.CoveringIff | src/pipeline/ingest.ts:1180-1203 | exactly which records already say it: of its source, relation and target, in the same or nearly the same words, holding at its start, or right before its end if it has no start |
| Statements.MovesStartIff | src/pipeline/ingest.ts:1205-1225 | exactly when a record's start moves: nothing covers, it is the first of the earliest later records and says the same, the text does not end it sooner, and no other row of the slot ended after the statement's start and by the record's |
| Statements.RestatesIff | src/pipeline/ingest.ts:1229-1281 | exactly which records it restates in other words: stored, holding then, not ended by the verdict, and not seen by a judge that tells restatements apart without being called one |
| Statements.ShownIff | src/pipeline/ingest.ts:1243-1264 | exactly which facts the judge is shown: stored, true at some instant from now on or at the statement's start, and of the pair, or another value of a slot of the five one-value relations or flagged so |
| Statements.EvidenceIs | src/pipeline/ingest.ts:1328-1337 | the record it is evidence for, in every field: one citation, and the stated end if the record had none; no other row changes |
| Statements.MovedIs | src/pipeline/ingest.ts:1218-1225 | the record whose start moves, in every field |
| Statements.AddedIs | src/pipeline/ingest.ts:1283-1324 | the new edge, in every field, and every row the verdict ends, where it can; no other row changes |
| Statements.FindIsFirst | src/pipeline/ingest.ts:1202-1203 | of several records that qualify the first is taken |
| Statements.SelectOfBoth | src/pipeline/ingest.ts:1191-1192 | filtering keeps the order |
| Evidence.EndIsEarliestBound | src/pipeline/ingest.ts:1226-1302 | the end of a new edge is the earliest of all its bounds (stated end, later records, records alongside, what the verdict ends), and there is none exactly when nothing bounds it |
| EpisodeRuns.EpisodeRun.constructor | src/pipeline/ingest.ts:863-900 | a run starts from the stored rows with nothing loaded, created, changed or closed |
| EpisodeRuns.EpisodeRun.FactsOf | src/pipeline/ingest.ts:1137-1149 | the pool is every loaded row touching the entity, each once; an entity's stored rows are loaded once, in whatever order the store lists them |
| EpisodeRuns.EpisodeRun.Close | src/pipeline/ingest.ts:1364-1378 | in-place closing does what the run's specification says, which keeps the end from before the run (see RunOnlyShrinks) |
| EpisodeRuns.EpisodeRun.Reinforce | src/pipeline/ingest.ts:1328-1337 | cites the episode once and closes only an open row, at an end after its start |
| EpisodeRuns.EpisodeRun.EndBeside | src/pipeline/ingest.ts:1227-1283 | the loop over the records standing alongside gives the earliest of their ends, the later record's start and the stated end |
| EpisodeRuns.EpisodeRun.TakeOver | src/pipeline/ingest.ts:1285-1302 | the loop over what the verdict ends closes each record where it can end, and bounds the new edge by them |
| EpisodeRuns.EpisodeRun.AddEdge | src/pipeline/ingest.ts:1283-1324 | the inserted edge and the closures of the verdict, as one update |
| EpisodeRuns.EpisodeRun.ResolveFact | src/pipeline/ingest.ts:1178-1325 | the whole of resolveFact refines the specification that every theorem about runs is stated on |
| EpisodeRuns.EpisodeRun.ApplyInvalidation | src/pipeline/ingest.ts:1412-1441 | an explicit invalidation, in either pass, refines its specification |
| EpisodeRuns.EpisodeRun.CollapseRepeats | src/pipeline/ingest.ts:1120-1134 | keeps the first of the plans that say the same under several relations |
| EpisodeRuns.EpisodeRun.RepairStaleVectors | src/pipeline/ingest.ts:1480-1482 | the changed rows whose vector is stale get the new one, and every other row is as it was |
| EpisodeRuns.EpisodeRun.Execute | src/pipeline/ingest.ts:924-932 | the two passes of invalidations around the facts, then the repair of stale vectors, refine the run's specification |
| IngestPipelines.IngestPipeline.Process | src/pipeline/ingest.ts:570-594 | in any store a run leaves exactly the specified rows and marks the episode processed, and a failed attempt leaves all rows and marks it failed; the store stays well formed, and no window becomes empty unless the episode is dated after the clock |
| IngestPipelines.IngestPipeline.Write | src/pipeline/ingest.ts:1505-1506 | adding what was created and updating what was changed stores every working row |
| Untouched.RunWritesAll | src/pipeline/ingest.ts:1485-1507 | in any store whatsoever a row that a run did not mark as changed is as it was read, so writing the created and the changed rows is writing all of them |
| IngestPipelines.IngestPipeline.InvalidateFact | src/pipeline/ingest.ts:292-325 | ends or retracts exactly one row, or says why not and changes nothing; the store stays well formed |
| IngestPipelines.IngestPipeline.ReopenFact | src/pipeline/ingest.ts:343-374 | retracts the row and adds one corrected copy, or says why not and changes nothing |
| IngestPipelines.IngestPipeline.ForgetEpisode | src/pipeline/ingest.ts:401-519 | the errors for a missing or forgotten episode; otherwise the forgotten store, the summaries put back, and all seven lists of the result: exactly the retracted, unlinked, reopened and still closed rows, the unmarked closures, the changed summaries and the orphaned entities |
| IngestPipelines.IngestPipeline.FindFate | src/pipeline/ingest.ts:429-470 | which case of the forget loop a row is |
| IngestPipelines.IngestPipeline.FatesOf | src/pipeline/ingest.ts:419-475 | the loop's four lists hold exactly the rows of each outcome, as they become |
| IngestPipelines.IngestPipeline.Commit | src/pipeline/ingest.ts:504-512 | writing the lists, in their order, produces the forgotten store |
| ForgetReports.UnmarkedStaysClosed | src/pipeline/ingest.ts:471-475 | a closure that is only reported keeps its window, loses the episode as evidence at most, and no copy of it is made |
| ForgetReports.UnmarkedIff | src/pipeline/ingest.ts:407-479 | exactly which closures are only reported: of rows that stand without the episode, by an end no episode is named for, learned when the episode's run added a row |
| ForgetReports.SummariesAre | src/pipeline/ingest.ts:490-500 | exactly which summaries are put back, in order, and every entity afterwards |
| ForgetReports.OrphanedIff | src/pipeline/ingest.ts:482-502 | exactly which entities are reported as left with nothing, in fields of the entity and of the rows |
| ForgetReports.UnusedHasFactIff | src/pipeline/ingest.ts:477-502 | exactly when an entity that no remaining row used has a fact after all: a row on it that the episode had emptied is reopened |
| ForgetReports.RestoringIsFinal | src/pipeline/ingest.ts:489-499 | a summary changes exactly when the episode wrote it over another, and then becomes that one; once is enough, and a summary that another episode wrote is left alone |
| RunInvariant.RunKeeps | src/pipeline/ingest.ts:902-933 | a whole run, for any reply and verdicts, keeps the invariant: each stored row only narrowed, marked and embedded again, each created row new and well formed |
| RunInvariant.ResolveKeeps | src/pipeline/ingest.ts:1178-1325 | one statement keeps that invariant in all its outcomes |
| RunInvariant.EndAfterIsLater | src/pipeline/ingest.ts:1227-1302 | with the episode not after the clock, a new edge with a known start ends strictly after it |
| RunInvariant.InvalidationsKeep | src/pipeline/ingest.ts:1412-1441 | any list of invalidations, in either pass, keeps the invariant |
| Evidence.RepeatIsEvidence | src/pipeline/ingest.ts:1199-1203 | a statement some record already makes over that time adds no row for any verdict: one such record gains the episode, keeps its end, and every other row is untouched |
| Evidence.RepeatRevivesNothing | src/pipeline/ingest.ts:1199-1203 | it makes nothing active at an instant where it was not, so a document added late revives no ended relation |
| Evidence.EarlierStintEndsInTime | src/pipeline/ingest.ts:1226-1227 | a new edge never overlaps a later record of the same relationship |
| Evidence.InvalidationEndsWhatItNames | src/pipeline/ingest.ts:1412-1441 | every record in the store that an invalidation names, that began before its instant (the one it states, or else the episode's) and was not over by then, ends exactly there |
| Endings.InvalidationIs | src/pipeline/ingest.ts:1412-1441 | every row of the store and of the run, in every field, after an invalidation in either pass: emptied, ended where it says, or as it was |
| Endings.FirstPassEmptiesIff | src/pipeline/ingest.ts:1423-1437 | exactly which rows the first pass empties: stored notes of the pair and the named relation whose start is their writing and comes after the stated end, unless the reply tells of a stint of that relation over by then |
| RunEndings.RunObeysInvalidations | src/pipeline/ingest.ts:926-935 | after the whole run no row, stored or added, outlives the end of an invalidation of the reply that concerns it and that it began before |
| RunEndings.NotesAreEmptiedFirst | src/pipeline/ingest.ts:928-932 | a stored note that some invalidation shows to have been out of date is empty before any statement is resolved |
| RunEndings.RewrittenIsEmbedded | src/pipeline/ingest.ts:1472-1482 | no row the run rewrites keeps a stale vector |
| Evidence.RepeatsIff | src/pipeline/ingest.ts:1120-1131 | exactly which plans are one statement: one pair, one window, two relations, the same or nearly the same words |
| Evidence.KeptInOrder | src/pipeline/ingest.ts:1120-1134 | a plan is kept exactly if none kept before it says the same |
| Evidence.CollapseKeepsOneOfEach | src/pipeline/ingest.ts:1111-1134 | no kept plan repeats an earlier one, and every plan is kept or repeats a kept one |
| Amendments.CanBeEndedIff | src/pipeline/ingest.ts:292-325 | exactly when a fact can be ended or retracted by hand, and every field afterwards |
| Amendments.EndIsKnownFromNow | src/pipeline/ingest.ts:281-325 | from now on the fact holds up to its new end, or never when retracted; earlier knowledge times answer at least as before, and its closure is no episode's any more |
| Amendments.ReopenedIs | src/pipeline/ingest.ts:343-375 | exactly when a fact can be reopened, and every field of the withdrawn row and of the copy, with the same endpoints, words, start and evidence and the end asked for |
| Amendments.ReopenMovesBelief | src/pipeline/ingest.ts:327-374 | from now on readers find the corrected copy in place of the old row, and before now the old row in place of the copy; nothing else changes and the old row cannot be reopened again |
| History.ReachableStoresAreOk | src/pipeline/ingest.ts:292-374 | in every store reached by runs and corrections no date is ahead of the clock and every row keeps its marks and evidence in order; if no episode was dated after its run's clock, each row also has a non-empty window or an unknown bound, or is a dated retraction |
| History.RunOnlyShrinks | src/pipeline/ingest.ts:1328-1483 | in any such store, over a whole run, a row keeps its statement (its vector too, unless it was stale), its end is unchanged or strictly earlier, its start unchanged or earlier, only a note dated by its writing can be emptied, and previousEnd is the end from before the run however often the run closes the fact |
| History.HistoryIsNeverLost | src/model/types.ts:124-137 | after any later operations, with episodes of any date, every row that was active for an earlier knowledge time still is, rows written since are not seen, and a row without an end that kept its start answers exactly as before |
| History.RevisedAnswers | src/model/types.ts:124-137 | a row revised from a clock on answers about earlier knowledge times at least as it did |
| Forgetting.ForgetDeletesNothing | src/pipeline/ingest.ts:419-475 | no row is deleted, and none changes its statement, start or learning date |
| Forgetting.ForgottenIsNotEvidence | src/pipeline/ingest.ts:435-453 | every row that still cites the forgotten episode is retracted |
| Forgetting.AddedIsOneCopy | src/pipeline/ingest.ts:466-470 | each added row is the copy of one reopened row that names it, has a non-empty window and cites other episodes only |
| Forgetting.CopiesAreNotShared | src/pipeline/ingest.ts:466-470 | two reopened rows never name the same copy |
| Forgetting.CopyOutlastsClosure | src/pipeline/ingest.ts:455-470 | a copy ends, if at all, strictly after the end the episode gave, even when the next value begins at the fact's own start |
| Forgetting.OtherValueSurvives | src/pipeline/ingest.ts:752-764 | a value that another episode supports outlives the forget over its whole window, as itself or as its copy |
| Forgetting.ClosureIsSettled | src/pipeline/ingest.ts:454-471 | every open closure the episode made is reopened once, or stays because a surviving value takes over at or before its end (for an outdated fact, covers its start) |
| Closures.KeptClosureStays | src/pipeline/ingest.ts:454-467 | a closure the episode made stays where a value that cannot hold beside it (in one of the five relations, or a flag on either row) stands on other evidence, begins after the row and by its end; the row then only loses the episode |
| Closures.OtherClosureIsUndone | src/pipeline/ingest.ts:454-471 | every other closure it made is undone: the row is withdrawn and its copy, given in every field, ends at the earliest of the end before the episode and the later values' starts |
| Closures.ManyValuedIsReopened | src/pipeline/ingest.ts:748-764 | where a relation holds several values and no row of the slot is flagged, a closure is always undone, open or up to its old end |
| Closures.UnsupportedIsWithdrawn | src/pipeline/ingest.ts:435-453 | a row that only the episode supports is withdrawn, in every field |
| Closures.OthersLoseTheEpisode | src/pipeline/ingest.ts:453-475 | any other row only loses the episode from its evidence |
| Closures.WithoutOfBoth | src/pipeline/ingest.ts:430-431 | the evidence that is left keeps its order, and the episode is gone wherever it was named |
| Closures.FateIff | src/pipeline/ingest.ts:428-475 | exactly which list of the result a row is in, in its fields |
| Forgetting.ForgetKeepsStore | src/pipeline/ingest.ts:401-519 | forgetting keeps the invariant of every row |
| Forgetting.ForgetKeepsWindows | src/pipeline/ingest.ts:401-519 | forgetting empties no window but by a dated retraction |
| Undo.ForgettingUndoesIngesting | src/pipeline/ingest.ts:401-519 | for any reply and verdicts, if the run moved no stored start and no surviving value takes over (each later value begins no sooner than the row's old end, and none holds where an outdated one started), then at every instant and every later knowledge time each statement is seen as often as before the run |
| Undo.RowRestoredIff | src/pipeline/ingest.ts:401-519 | exactly when one stored row is seen as before at all instants: its start was not moved and no surviving value takes over from it |
| Undo.NoSurvivorRestoresEnd | src/pipeline/ingest.ts:737-764 | where no later value survives, the end comes back even when the run closed the fact several times |
| Undo.UndoneWithoutSurvivors | src/pipeline/ingest.ts:401-519 | the undoing holds in particular where nothing that survives follows a closed fact, however many times the run closed it |
| OneValue.AddingKeepsOneValue | src/pipeline/ingest.ts:1178-1325 | with the episode not dated after the clock, no other value added by the reply and the verdict ending all it saw, adding an edge to a one-value slot, or one that says it replaces what is there, keeps it to at most one current value, unless both start at the clock or the edge has only an end, still ahead |
| OneValue.RunAddsOneValue | src/pipeline/ingest.ts:1178-1325 | at any statement of any run that adds an edge, exactly when the slot keeps one current value; always when its start is known and is not the clock itself |
| OneValue.OneValueIff | src/pipeline/ingest.ts:1206-1325 | exactly when any statement keeps the slot to one value, whatever it turns out to be: it brings no scheduled record forward beside a current value, and is in neither of the two cases of an added edge |
| OneValue.CurrentGivesWay | src/pipeline/ingest.ts:1227-1302 | a current value is ended by the statement, or began after it and bounds the new edge |
| OneValue.EndIsBounded | src/pipeline/ingest.ts:1227-1302 | the new edge ends by the start of the later record and of every newer fact the verdict names |
| OneValue.WorkBeforeIsComplete | src/pipeline/ingest.ts:1137-1149 | when a run comes to a statement, every row of its source is in the working map |
| Slots.RunKeepsOneValue | src/pipeline/ingest.ts:902-933 | from store to store, with the episode not dated after the clock and the verdict ending all it saw: where a reply makes one statement about such a slot, it has at most one current value after the whole run if it had before, whatever else the reply says and invalidates, unless that statement is one of the three that leave two |
| Slots.SilentRunRevivesNothing | src/pipeline/ingest.ts:902-933 | a run whose reply says nothing about a slot gives it no current value it did not have |
| Slots.InvalidationsReviveNothing | src/pipeline/ingest.ts:1412-1441 | no list of explicit invalidations, in either pass, makes a value current |
| Limits.NewEdgeIsEmptyIff | src/pipeline/ingest.ts:1283 | exactly when a new edge is empty: a record that stands alongside ends at its very start |
| Limits.FutureNoteVanishes | src/pipeline/ingest.ts:1283 | two runs on an empty group that end with an edge that is empty and not even withdrawn, the second episode being dated after the clock |
| Limits.ScheduledValueCollides | src/pipeline/ingest.ts:1211-1221 | two runs on an empty group that leave a one-value slot with two current values, by bringing a scheduled one forward |
| Limits.StartsTogetherHappens | src/pipeline/ingest.ts:1350-1357 | two runs that do so because both values start at the second run's clock |
| Limits.EndsAheadHappens | src/pipeline/ingest.ts:1164-1176 | two runs that do so because a contradictory start is dropped and the end is ahead |
| KeyedMutexes.OneAtATime | src/util/mutex.ts:42-54 | overlapping calls of a key share one chain although idle entries are dropped: at most one runs, and while a call waits or runs every later one of its key still waits |
| KeyedMutexes.EntriesAreOfOpenCalls | src/util/mutex.ts:46-53 | the map holds an entry exactly for the keys in use |
| KeyedMutexes.NobodyIsStuck | src/util/mutex.ts:11-19 | while a call is open, it or one before it for the same key can go on, and each such step brings its release one step nearer, whoever arrives meanwhile |
| KeyedMutexes.BeginsIff | src/util/mutex.ts:11-19 | a waiting call can begin exactly when no earlier call of its key waits or runs |
| KeyedMutexes.ArrivalJoins | src/util/mutex.ts:46-50 | a call waits last on the chain in use for its key, or on a new one |
| KeyedMutexes.KeyedMutex.Arrive | src/util/mutex.ts:46-50 | a call joins its key's chain, allocating one only for an idle key |
| KeyedMutexes.KeyedMutex.Release | src/util/mutex.ts:51-53 | the last call out drops the entry, if the map still holds it |
| Lifecycle.RunsAreExclusive | src/pipeline/ingest.ts:208-242 | in every interleaving at most one run, and at most one save, is under way |
| Lifecycle.SameTextIsStoredOnce | src/pipeline/ingest.ts:522-567 | no two records that are not forgotten are of one text, in every interleaving of saves, runs, retries and forgets |
| Lifecycle.SaveMayIff | src/pipeline/ingest.ts:530-566 | exactly what a save may do with the records of its text: stop, go on with one, start one again, or add one |
| Lifecycle.RunsOnUnfinishedOnly | src/pipeline/ingest.ts:232-242 | no run starts on, or continues over, an episode stored as processed or forgotten |
| Lifecycle.SavingRewrites | src/pipeline/ingest.ts:535-549 | a save never rewrites a pending or forgotten record |
| Lifecycle.ForgottenIsFinal | src/pipeline/ingest.ts:401-406 | records are never removed, keep their key, and a forgotten one never changes again |
| Lifecycle.FinishedForgets | src/pipeline/ingest.ts:401-519 | a forget that is over has forgotten the record it was called for, whatever else went on |
| Lifecycle.NoDeadlock | src/pipeline/ingest.ts:401-403 | while a call is unfinished some call can take a step |
| Lifecycle.ProcessedUndoneIff | src/pipeline/ingest.ts:535-549 | exactly when a processed episode goes back to pending: a save that read it as failed writes after a run succeeded |
| Lifecycle.AtomicSavesKeepProcessed | src/pipeline/ingest.ts:522-555 | when a save's read and write are one step, a processed episode stays so until it is forgotten |
| Lifecycle.SaveUndoesProcessed | src/pipeline/ingest.ts:535-549 | a concrete interleaving in which it goes back |
| Persistence.WritesNeverOverlap | src/store/persistence.ts:64-83 | at most one write runs and at most one waits, and a write starts only when those before it settled |
| Persistence.SaveIsDurable | src/store/persistence.ts:58-76 | a save that succeeds leaves on disk a state at least as new as its call, whatever other saves, changes and failures happen |
| Persistence.FlushIsDurable | src/store/persistence.ts:86-98 | a flush that succeeds leaves on disk what was last scheduled when it was called, whatever fails and is saved again meanwhile |
| Persistence.ScheduledReachesDisk | src/store/persistence.ts:45-98 | whatever the graph was when a save was scheduled is on disk once any later flush succeeds, through changes, saves and failures between |
| Persistence.FiringSaves | src/store/persistence.ts:49-54 | when the timer runs out, a save that is due is queued |
| Persistence.WriteGoesThrough | src/store/persistence.ts:64-83 | a write whose turn it is puts the graph of the moment it starts on disk |
| Persistence.GivesUpIff | src/store/persistence.ts:92-97 | a flush lands exactly when what it waits for has succeeded, and gives up exactly when the save it called for has failed; a write that was under way when it was called and fails is saved once more |
| Persistence.FlushGoesOn | src/store/persistence.ts:86-98 | while a flush waits, it or some write can go on |
| Persistence.SomeWriteGoesOn | src/store/persistence.ts:67-72 | while a write is not settled some write can go on |
| Persistence.FilePersistence.Save | src/store/persistence.ts:64-76 | joins the queued write, or queues one behind the last |
| Persistence.FilePersistence.Flush | src/store/persistence.ts:86-97 | a save still due is queued at once and waited for; otherwise the last write is |
| Persistence.FilePersistence.Continue | src/store/persistence.ts:92-97 | when that write has settled the flush is over, or a failed last write is saved once more and waited for |
| JobQueues.QueuePromises | src/jobs/queue.ts:57-114 | over any run: the bound holds, jobs wait only while it is reached, the n-th job started is the n-th submitted, `order` lists the kept jobs, and only unfinished jobs can exceed the limit |
| JobQueues.StepKeepsUnfinished | src/jobs/queue.ts:100-114 | a queued or running job is never evicted, and a running one keeps running until it settles |
| JobQueues.EvictionKeepsNewest | src/jobs/queue.ts:105-114 | eviction drops only settled jobs, the oldest first, and no more than needed |
| JobQueues.CountsMatch | src/jobs/queue.ts:135-141 | the status counts are the length of the line and the running counter |
| JobQueues.JobQueue.Submit | src/jobs/queue.ts:57-102 | a submitted job starts at once or joins the end of the line |
| JobQueues.SubmittingIs | src/jobs/queue.ts:57-102 | a submitted job starts if there is a place, and joins the end of the line otherwise |
| JobQueues.JobQueue.Settle | src/jobs/queue.ts:83-93 | a settled job frees its place to the first in line, after eviction |
| JobQueues.FinishingIs | src/jobs/queue.ts:83-93 | a running job ends as it did, gives its place to the first in line, and is forgotten only beyond the limit |
| JobQueues.JobQueue.EvictOldest | src/jobs/queue.ts:105-114 | the eviction loop refines its specification |
| Rights.IntersectionIsExactIff | src/server/auth.ts:177-191 | for all strings, the intersection denotes exactly the common groups unless the first pattern is the second, a prefix, with one more star |
| Rights.StarredPrefixIsInexact | src/server/auth.ts:182-191 | the shape that fails: a group that the intersection of `**` and `*` lets in although the first pattern does not |
| Rights.IntersectionOfWellFormed | src/server/auth.ts:182-191 | on the patterns the schemas accept it is always exact and well formed |
| Rights.FindRoleIn | src/server/auth.ts:203-212 | the running maximum is the highest matching grant, capped, and a token restricted to other groups has no role at all |
| Rights.Highest | src/server/auth.ts:203-208 | none exactly when no grant matches; otherwise a matching grant's role that no matching grant exceeds |
| Rights.EffectiveGrants | src/server/auth.ts:227-240 | the map holds each pattern that some grant contributes within the token's groups, at the highest role that contributes it |
| Rights.EffectiveGrantsAgree | src/server/auth.ts:203-240 | on every group the role is the highest of the effective grants that match, and none when none matches |
| Rights.CanWriteIff | src/server/auth.ts:243-245 | a caller can write somewhere exactly when some group permits it to write |
| Rights.ResolveGroupIff | src/server/auth.ts:253-264 | a group is let through exactly when an effective grant matches it at the needed role, and one that no grant matches is answered as unknown |
| Rights.RefusalIs | src/server/auth.ts:253-264 | which group a request is answered for, and exactly which error it gets otherwise |
| Tokens.MintedRoleIn | src/server/access.ts:333-350 | in every group, for whatever the user holds by then, a minted token's role is the minting token's, kept to the groups and cap asked for |
| Tokens.PrincipalIs | src/server/access.ts:229-249 | whom a token stands for: default group, grants, admin rights and limits |
| Tokens.MintedExpiresIff | src/server/access.ts:346-349 | a minted token is expired exactly when the one presented is or the expiry asked for has passed; it is its holder's, in the group asked for, and not revoked |
| Tokens.RefusedIff | src/server/access.ts:337-343 | minting is refused exactly when no group is both asked for and within reach |
| Tokens.ChainRoleIn | src/server/access.ts:333-350 | the exact role of a token at the end of any chain of requests |
| Tokens.ChainExpiresIff | src/server/access.ts:333-350 | at the end of any chain: exactly when the first is expired or some request's expiry has passed |
| Tokens.ResolvesIff | src/server/access.ts:229-232 | a token resolves exactly while it is not revoked or expired and its user exists and is not disabled |
| Tokens.TokensAttenuate | src/server/access.ts:329-350 | over any chain a token is worth at most the first in every group, is an admin's only if the first was, and resolves exactly while the first is not expired, no request's expiry has passed and its user is not disabled |
| PrincipalCaches.AnswersAreFresh | src/server/access.ts:202-249 | every answer is what some versions of the store give for the request's own time: none older than the last invalidation before it, none missing a write made 30 s or longer before it |
| PrincipalCaches.LaterRequestsReadNothingOlder | src/server/access.ts:196-224 | a request that starts after an invalidation reads no version older than the one it followed |
| PrincipalCaches.ChangesMadeHereAreSeen | src/server/access.ts:195-224 | if the store did not change since that invalidation, the answer is the store's own |
| PrincipalCaches.NothingAfterExpiry | src/server/access.ts:229-230 | no principal is returned to a request that starts once its token has expired or was read as revoked |
| PrincipalCaches.FreshEntryAnswers | src/server/access.ts:207-226 | an entry whose time is not over is answered at once and stays |
| PrincipalCaches.LoadAnswers | src/server/access.ts:207-249 | any other request, left alone, drops the stale entry, is answered as the store says and is cached until the earlier of 30 seconds and the token's expiry; no other entry changes |
| PrincipalCaches.WritesAreAnswered | src/server/access.ts:201-226 | what a write leaves in the store is answered after an invalidation, or once the entry has run out |
| Bm25.PositiveIffShares | src/search/retrieval.ts:89-122 | a document's score is never negative, and positive exactly when it contains a query term |
| Bm25.FilteredScoresAreExact | src/search/retrieval.ts:82-88 | scoring only the documents that share a query term, with the whole collection's statistics, gives each the score it has in the whole collection; all others score zero there |
| Bm25.MoreOccurrencesWeighMore | src/search/retrieval.ts:114-118 | more occurrences weigh more in documents of one length, and never more than k1 + 1 times the term's rarity |
| Bm25.LongerWeighsLess | src/search/retrieval.ts:114-118 | a term weighs no more in a longer document |
| Bm25.RarerWeighsMore | src/search/retrieval.ts:111-118 | with a logarithm that does not decrease, a term found in fewer documents weighs no less |
| Bm25.TermScores | src/search/retrieval.ts:89-122 | the loops compute the specified score of every document |
| Bm25.TermScoreIs | src/search/retrieval.ts:89-122 | a term adds its weight by its occurrences in the document and the number of documents that hold it, each counted once |
| Bm25.TermFrequencies | src/search/retrieval.ts:109-110 | the map counts every term of the document and no other |
| Bm25.ScoresAre | src/search/retrieval.ts:107-120 | every document whose id does not come again is in the result with its score |
| Ranking.Rerank | src/search/rerank.ts:95-110 | the loop keeps and scores exactly what passes the relevance cut, then sorts and cuts |
| Ranking.PassesIff | src/search/rerank.ts:101-103 | exactly what passes the cut: a keyword hit, a fact of a named entity or of a neighbour, or a close enough vector |
| Ranking.ScoreIs | src/search/rerank.ts:104-106 | the score in figures, from the places and the distance |
| Ranking.OrderDoesNotMatter | src/search/rerank.ts:89-115 | the same candidates in any order give the same list |
| Ranking.RerankIsTheTop | src/search/rerank.ts:95-110 | the list is ranked, and a candidate that passes the cut and is missing comes after everything in a full list |
| Ranking.RerankOrder | src/search/rerank.ts:109-115 | the order of the list: by score, then the fact learned last, then by uuid |
| Ranking.MergedAre | src/index.ts:438-458 | the candidates are exactly the facts some retriever found, each with its own places |
| Ranking.MergedAreDistinct | src/index.ts:438-458 | no fact is a candidate twice |
| Ranking.MergeOrderDoesNotMatter | src/index.ts:277-281 | once the text and the vector ranking are fixed, whatever else was found may be merged in any order |
| Searches.RankByVector | src/index.ts:259-275 | the loops extend the vector query's ranking with every other fact that has a vector, each once, closest first, and give each its cosine |
| Searches.NearestAre | src/index.ts:260-264 | the rows of the vector query whose cosine is positive keep its order |
| Searches.ExtensionIff | src/index.ts:265-275 | exactly which other facts extend the ranking, each once |
| Searches.ExtensionIsRanked | src/index.ts:268-274 | the extension is ordered by cosine and, where that is equal, by first mention |
| Searches.OrderIrrelevantIff | src/index.ts:259-281 | the neighbourhood may list its facts in any order, for every limit and cut, exactly when no two of them that neither query found are equally and positively close |
| Searches.TieShows | src/index.ts:268-281 | exchanging two such facts changes the answer wherever the limit and the cut let both in |
| Searches.TieHappens | src/index.ts:259-281 | as a function of the list: two facts with equal cosines that no query found, where the one listed first scores higher |
| Searches.AnswerIsOfTheFacts | src/index.ts:229-281 | however the store lists the visible facts, ties or not, the answer is the same, since the neighbourhood is listed by hop, learning date and uuid |
| Searches.TieIsBrokenByHopThenRecency | src/index.ts:235-274 | of two facts of the neighbourhood that tie, the one in the nearer hop ranks first, and in one hop the one learned later |
| Ranking.BonusReach | src/search/rerank.ts:18-30 | the bonus lifts a fact over first place from ninth in one ranking and from fifth in both, but no further |
| Sorting.RankedIsUnique | src/search/rerank.ts:109-115 | a strict order ranks a collection in one way only |
| Sorting.StableSortRanks | src/index.ts:271-273 | a stable sort ranks a list by any strict order that refines the comparison and agrees with the list elsewhere |
| Sorting.SortRanks | src/search/rerank.ts:109-115 | sorting what the order can compare ranks it |
| Neighbourhoods.NeighboursOf | src/search/rerank.ts:58-67 | exactly the other endpoints of facts that touch an anchor |
| Neighbourhoods.NeighbourIdsAreNeighbours | src/store/postgres-store.ts:718-734 | the uncut query's ids without the anchors are exactly the neighbours |
| Neighbourhoods.Neighbourhood | src/index.ts:235-257 | the neighbours are the true ones whether or not the first hop was cut, and the second hop is the first unseen facts of the whole newest-first list |
| Neighbourhoods.AroundIsOfTheFacts | src/index.ts:235-257 | the neighbourhood and its order depend on the visible facts alone |
| Neighbourhoods.AroundIsBounded | src/index.ts:235-252 | at most 200 facts, and the second hop only in the room the first leaves |
| Neighbourhoods.CutThenSkip | src/index.ts:246-250 | asking for as many more as were seen is enough: skipping those leaves the first `room` unseen facts of the whole list |
| Neighbourhoods.NewestTouchingIsRanked | src/store/postgres-store.ts:706-709 | the list is newest first, then by uuid, and names each fact once |
| Neighbourhoods.SearchIsTheNewest | src/store/postgres-store.ts:706-709 | the facts that touch the entities, newest first, up to the limit: one is left out only for newer ones |
| Neighbourhoods.GraphDistances | src/search/rerank.ts:76-87 | each fact's distance from its own endpoints, and no entry for other facts |
| Neighbourhoods.DistancesAreExact | src/index.ts:276-280 | a candidate's distance is its distance in the whole visible graph, whichever retriever found it |
| MemoryStores.WriteIsAllOrNothing | src/pipeline/ingest.ts:1485-1507 | a write is refused exactly when one of its changes would fail, and then changes nothing; otherwise every change is made |
| MemoryStores.UpsertIs | src/store/memory-store.ts:130-151 | saving an entity in every field: merged into the stored one of its name under another uuid, and otherwise stored in place or at the end |
| MemoryStores.FactSaveIs | src/store/memory-store.ts:164-178 | saving a fact stores it in place or at the end and lists it once at each of its ends |
| MemoryStores.RejectedIff | src/store/memory-store.ts:95-106 | exactly when a save is rejected, and which length is pinned |
| MemoryStores.CheckedAppliesInFull | src/pipeline/ingest.ts:1486-1506 | once the vectors are checked no later upsert, add or update can be rejected |
| MemoryStores.KeyIsInjective | src/store/memory-store.ts:136 | one key is one group and one name, among groups neither of which, with its separator, begins the other |
| MemoryStores.KeysMeetIff | src/store/memory-store.ts:136 | exactly when two groups can share a key |
| MemoryStores.GroupsInterfereIff | src/store/memory-store.ts:130-151 | exactly when saving an entity in one group can write over an entity of another |
| MemoryStores.ColonsCollide | src/store/memory-store.ts:130-159 | two saves after which one group's entity is renamed, the other group stores nothing, and the lookups of both go wrong |
| MemoryStores.NameLookupIsScanIff | src/store/memory-store.ts:156-159 | after any writes in which entities keep their names and share no key, exactly when a lookup by name is as good as a scan: no stored entity of another group has its key, as in groups that are apart |
| MemoryStores.EntityLookupIsScan | src/store/memory-store.ts:185-189 | after any writes in which facts keep their endpoints, in groups of any name, a lookup by entity gives the facts a scan finds, in the same order |
| MemoryStores.ApplyKeepsValid | src/store/memory-store.ts:130-183 | each upsert, add and update that keeps names and endpoints keeps both indexes and the pinned length right |
| Snapshots.SnapshotRebuilds | src/store/memory-store.ts:203-246 | whatever was saved, loading a snapshot rebuilds the records and their order, and the pinned length exactly when some record still has a vector; each index comes back if the names, or the endpoints, were kept |
| Snapshots.PinIsLost | src/store/memory-store.ts:203-246 | two writes at the store's interface after which the length is pinned and a snapshot loses it |
| Snapshots.MostCommonIs | src/store/memory-store.ts:254-261 | no stored length is more frequent than the one chosen, and one is chosen unless there is none |
| Snapshots.BestIsFirstMaximum | src/store/memory-store.ts:254-261 | of equally frequent lengths the first seen is chosen |
| Snapshots.FindMostCommon | src/store/memory-store.ts:255-261 | the two loops find it |
| GraphStores.MemoryGraphStore.Upsert | src/store/memory-store.ts:130-151 | an entity of a stored name updates that one in place and keeps its uuid; a wrong vector changes nothing |
| GraphStores.MemoryGraphStore.Load | src/store/memory-store.ts:215-246 | everything is replaced by what the snapshot holds |
| GraphStores.WriteTo | src/pipeline/ingest.ts:1485-1507 | the check and the three loops do what WriteIsAllOrNothing is about |

## Left out

- Evidence.DecisionIff: prompts, replies and embeddings come in as data; repairing malformed JSON, entity resolution, name mentions, literal values, labels and summaries are not modelled, and neither are the reason texts kept in a row's attributes.
- EpisodeRuns.EpisodeRun: the working copies are values in a sequence indexed by position, so two references to one edge object (aliasing) are not represented.
- IngestPipelines.IngestPipeline.ForgetEpisode: what a run writes into entities is not modelled, so any entities may be there when an episode is forgotten; the texts that say why are left out.
- EpisodeRuns.EpisodeRun.RepairStaleVectors: a vector is a name, so which ones have another length, and what they become, is an input; entity vectors are not modelled.
- Undo.ForgettingUndoesIngesting: the forget follows the run with no other operation between them; what a forget does in any store is stated row by row in `Forgetting`.
- Facts.IsLive: the two clock reads inside it are the run's clock.
- RunInvariant.RowOk: assumes every row has evidence, which is true of every store reached from an empty one.
- History.ReachableStoresAreOk: one group at a time; operations on different groups touch different rows.
- TimeFilter.QueryParams.TemporalPredicate: speaks of stored rows, whose created_at column is never NULL.
- Lifecycle.RunsAreExclusive: the two keyed locks are modelled as their holder; that a keyed lock has one holder is proved separately in `KeyedMutexes`. The limits and ordering of retryFailed are arbitrary choices.
- Persistence.SaveIsDurable: a state of the graph is its number of changes; the file's contents and the JSON text are not modelled.
- JobQueues.JobQueue.Submit: `list`, `drain` and the filters of `statsFor` are not modelled, nor is the result or error a job carries.
- PrincipalCaches.AnswersAreFresh: the two caches (by secret and by token id) are one map with two kinds of keys; `touch`, sessions, env tokens and `hasUsers` are not modelled.
- Tokens.TokensAttenuate: token secrets, names and their storage are not modelled; a token's groups and role do not change once it is issued.
- Bm25.TermScores: reals instead of floating point; the logarithm is any function that is positive above one; tokenizing is not modelled.
- Bm25.FilteredScoresAreExact: holds while the database cuts neither its candidates nor its statistics sample.
- Ranking.Rerank: reals instead of floating point.
- Searches.RankByVector: a fact's cosine with the query is an input, the same wherever the fact is met; the in-memory search, which ranks every visible fact, is not modelled.
- Neighbourhoods.Neighbourhood: finding the entities a query names is an input.
- MemoryStores.NameLookupIsScanIff: an entity keeps its group and folded name, as every caller sees to; lower-casing is not modelled, and episodes are left out of the store.
- HTTP, MCP, REST, the UI, the command line, Postgres DDL and migrations, advisory locks and vector indexes are not modelled: transport and plumbing around what is proved here.
