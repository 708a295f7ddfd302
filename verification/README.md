# Ingestion engine: a verified model

A Dafny 4.11 model of a service that ingests document trees into a vector store. A *run* of a job
scans a tree and keeps two stores in step that cannot be committed together: the points in the
vector store (one per chunk, with `ingest_job`, `ingest_run` and `source` in the payload) and the
document rows in a SQLite database. Runs have three modes (`full`, `append`, `upsert`), may stop
between any two store calls, and interleave under a lock per job and a reader/writer lock per
collection.

`dafny verify dfyconfig.toml` checks everything.

## How it is built

**The run as a machine.** `Protocol` is `_execute` and everything below it as a deterministic step
function with a program counter; every step makes at most one store call. `Exec(c, n)` is what a stop
after `n` steps leaves, so a property of `Exec` for every `n` is a property of every crash. What the
environment does (abort requests, a dead or short-counting embedder, what an overfull facet answers)
is fixed in the run's `Spec`, so every theorem is for every such behaviour. `Agreement`,
`Convergence`, `Incremental`, `Outcomes`, `DryRuns`, `Documents`, `Attachments`, `Accounting`,
`FullRuns`, `Deletion`, `Preservation` and `Appending` prove what every run keeps or achieves; `Recovery`, `Containers`,
`AppendRecovery` and `Resumption` follow any number of stops and reruns; `Slices` and `Interleaving`
prove non-interference, `Locks` and `SweepSafety` the locking protocol and what a sweep may delete.
`Metadata` is a machine of its own, of the record that keeps a collection to one embedding model.

**The run as it is written.** `Runner`, `Qdrant`, `StateDb` and `LockingRunners` are the classes with
their loops and updates in place. `RunJob` and every method below it is proved to take the machine
from where it finds it to where it leaves it, so all machine results hold of it. Below that, the
vector store is a map from ids to payloads that knows nothing of jobs: `Ids`, `Payloads` and
`PointStores` prove that ids tell points apart and that the payload filters select exactly by job,
source and run, whatever a job adds to its payloads.

**Around the run.** `Fingerprints` (parameter digest), `Catalog` (merge and cross-job validation),
`Registry` and `Engine` (reload, pause, resume), `Limiter` (token bucket), `Texts`, `Chunkers`,
`MarkdownChunks`, `Sheets`, `Slides` (chunking), `Timestamps` and `RunHistory` (stored instants,
deleting runs), `Queries` (LIKE escaping), `Globs`, `Filters` and `Portability` (pattern compiler,
rclone rules, and what keeps its meaning on the way).
`Machines`, `Order`, `Stores` and `Guards` are shared definitions.

## Hypotheses of the convergence results

`Recovery.CrashesConverge` (stop an upsert anywhere, any number of times, rerun it, and nothing shows)
is from any stores and for files of every kind. It assumes that the attempts are of one job over one
tree whose sources are distinct and contain no `!`, with one set of documents that get too few
vectors, and that both the rerun and the run it is compared with succeed. Where containers are expanded
it is about everything but their attachments; what becomes of those is
`Containers.CrashesConvergeExactly`, under the same assumptions.

`Incremental.IncrementalEqualsScratch` and `Incremental.CrashesMirror` say more, what the stores hold
at the end, and state their hypotheses as predicates:

- the job keeps one collection and one size limit over its history (the fingerprint covers neither);
- attachments are not expanded (they need not converge, see below);
- equal text of one source gives equal chunks (`TextDetermines`), which a deck title can break;
- every file fits and extracts, sources are distinct and contain no `!`, and no vector count is short
  (`Readable`);
- an unchanged size and mtime mean unchanged content (`StatFaithful`);
- a full run's id is on no point yet.

`Documents.DocumentFate` and `Attachments.AttachmentFate` need only distinct sources, without `!` where
containers are expanded: they say what a successful upsert or append does to each document, each
attachment and their rows, whatever their kind, from any stores. `Agreement`, `SweepSafety`,
`Interleaving`, `FullRuns`, `Appending` and `Resumption` cover attachments too.
`Preservation.NothingLostBeforeDeletion` assumes that extracted text has a chunk and leaves out
attachments and collection rebuilds.

## Where the code and what is said of it part ways

Each of these is a theorem that follows the code. Where the difference depends on something, the
theorem says exactly on what.

- The runner, the operations guide and the modes document say that a document is committed when all of
  it is there, and that what a stop or an outage interrupts is taken up by the next run. A container's
  row commits before its attachments are indexed. Stopped in between, or failed on one attachment, the
  run leaves a row that satisfies the first check, and every later run over the same container reports
  success and leaves all below it as the stop did (`Containers.StoppedAttachmentsStay`,
  `Containers.UnchangedKeepsBelow`); `Containers.OutageLosesAttachment` is such a run, from fresh
  stores. A rerun leaves an attachment right exactly if the container's row still lets it write the
  container or the attachment was right already (`Containers.AttachmentRightIff`), and it makes good
  for the stops as a whole exactly if that is so of every attachment
  (`Containers.CrashesConvergeExactly`).
- Of everything but attachments it is true that the document a stop interrupts is detected as changed
  next time, while the file and the parameters stay as they are (`Recovery.CrashesConverge`). But
  its old row outlives its old points: a next upsert that finds the file as that row describes it, the
  edit undone, say, reports success and leaves the document without points
  (`Documents.RevertedStaysBare`); it is left right exactly if the row from before the stop lets the
  run write or the stop's points are right by themselves (`Documents.TornRightIff`), and no stop does
  this to more than the document in hand (`Documents.StopTearsOne`).
- The modes document says of a full run that nothing is lost in a crash. Between dropping a collection
  and forgetting its rows a crash leaves exactly the rows without points that count chunks
  (`Agreement.RebuildStrandsRows`), and a later upsert reports success over unchanged ones without
  writing (`Documents.InterruptedRebuildStaysEmpty`).
- The operations guide says of a dimension conflict that it is raised before any write. A full run of
  one job has forgotten the job's rows by then; it is the one run that fails before its first file and
  has written anything (`Outcomes.UnpreparedSpares`).
- A document whose vector count came out wrong is not retried: the row it leaves satisfies the stat
  check (`Documents.SecondUpsertRepairsNothing`), so it is right after a run exactly if it was before or
  the run writes it (`Documents.RightIff`).
- The recorded model of a collection must match, says the overview. A stop leaves vectors the record
  does not vouch for exactly if the run is stopped with documents of its own there and had found no
  record, or that of another model on a missing collection (`Metadata.StopVouchesExactly`); a run of
  another model of the same dimension is then let in, and the documents it does not replace stay beside
  its own (`Metadata.StopMixesModels`).
- An append run that is stopped and rerun is as good as one that was not when it looks for what it knows
  in the rows (`AppendRecovery.AppendsConverge`). When it looks in the points, a new document stopped
  between its points and its row is taken for done and never gets a row (`AppendRecovery.TornIsSkipped`);
  a new file converges, under every probe, exactly if that does not happen to it
  (`AppendRecovery.NewFileConvergesExactly`).
- After total state loss the automatic append probe protects stored documents exactly up to the facet
  limit of 10 000 sources (`Appending.StateLossExact`), and only until a first new document has a row:
  the next run looks at the rows alone and embeds the stored documents again
  (`AppendRecovery.ProtectionLastsOnce`).
- The fingerprint identifies version, job and settings exactly if neither settings text contains `|` and
  the model name does not itself contain parameters (`Fingerprints.IdentifiedExactly`); with job and
  version fixed, two settings collide exactly if they agree but for where one text ends and the other
  begins (`Fingerprints.SettingsShareExactly`).
- A markdown section yields no chunk exactly if it is one long heading line
  (`MarkdownChunks.SectionLostExactly`).
- A negative group size drops every spreadsheet data row silently (`Sheets.RowsKeptExactly`).
- "Both phases see the same file set by construction" holds on every path exactly of the portable
  patterns and of those that match nothing on either side (`Portability.KeepsMeaningExactly`); an inner
  `**` before a slash is the common way to fail it (`Portability.InnerStarsDiffer`). And it holds of all
  portable patterns, on one-line paths, exactly on those without backslashes and leading slashes
  (`Portability.PathsExactly`), so a file name with a backslash is seen by one phase only
  (`Portability.BackslashNamesDiffer`).
- The dialect promises that a leading `**` before a slash may match zero segments; the compiled
  expression allows it wherever one stands (`Globs.StarsCrossSegments`).

## Model

| member | source | states |
|---|---|---|
| `Agreement.AtMostOneRowDisagrees` | src/engine/runner.py:511-565 | from a state where every indexed row counts exactly its points, all of its last run, any run of any mode stopped after any number of steps leaves at most one indexed row that does not, and it is the row of the document in hand |
| `Agreement.RebuildStrandsRows` | src/engine/runner.py:194-198 | the exception: after the drop of a rebuild a row of that collection agrees exactly if it is not indexed or counts no chunks |
| `Convergence.SuccessfulRunMirrorsTree` | src/engine/runner.py:221-266 | a successful upsert with deletion, or full run, leaves exactly the tree's documents at their chunks and exactly the tree's rows |
| `Convergence.DocumentIs` | src/engine/runner.py:368-371 | with distinct sources the tree determines one chunk list per source, so the mirror is unique |
| `Incremental.IncrementalEqualsScratch` | src/engine/runner.py:342-442 | after any history of successful upsert and full runs over changing trees and parameters, documents and rows equal those of a full run over the last tree from empty stores, up to run ids |
| `Incremental.CrashesMirror` | src/engine/runner.py:511-565 | the readable case, with its end result: from stores incremental work may start from, an upsert over a readable tree stopped any number of times and rerun to success leaves the mirror of the tree that the uninterrupted run leaves |
| `Recovery.CrashesConverge` | src/engine/runner.py:5-7 | from any stores and for files of every kind, an upsert stopped anywhere, any number of times, then rerun to success, leaves the points and rows of the run that was never stopped, up to run ids: all of them, or all but attachments where containers are expanded |
| `Containers.CrashesConvergeExactly` | src/engine/runner.py:454-473 | with containers expanded, the stopped and rerun upsert leaves all points and rows of the run that was never stopped if and only if the stops left every container still to be written or all below it as that run does |
| `Containers.AttachmentConvergesExactly` | src/engine/runner.py:342-366 | an attachment ends as in the run that was never stopped if and only if what the stops left of the container's row still lets the rerun write the container, or what they left of the attachment was already so |
| `Containers.AttachmentRightIff` | src/engine/runner.py:454-473 | from any stores a stop may have left, a successful run leaves an attachment right if and only if it writes the container or the attachment was right before |
| `Containers.UnchangedKeepsBelow` | src/engine/runner.py:342-366 | at every step of every run, everything below a container that is taken for unchanged keeps its points and row |
| `Containers.StoppedAttachmentsStay` | src/engine/runner.py:552-623 | a run stopped amid a container's attachments leaves them as they will stay through every later run over the same container |
| `Containers.OutageLosesAttachment` | src/engine/runner.py:469-472 | from fresh stores: the embedder dies on an attachment, the run fails, and the next one succeeds without the attachment |
| `Attachments.AttachmentFate` | src/engine/runner.py:567-623 | after a successful upsert or append from any stores, what a written container names and can chunk is there under this run, what it names no more is gone, what it names without a chunk is as before, and below every other container all is as before |
| `Attachments.AttachmentsStay` | src/engine/runner.py:454-473 | at every step of a run that does not write a container, or finds no attachment in it, everything below it is untouched |
| `Attachments.StopKeepsOrCommits` | src/engine/runner.py:511-565 | a stop finds an attachment as it was, unless its container is written and will not be written again |
| `Accounting.SeenExactly` | src/engine/runner.py:221-251 | what an upsert has seen when its deletion phase begins, in terms of the stores before it: the files of the tree, below an unchanged file its tracked attachments, below a written one the attachments that became documents |
| `Recovery.StopKeeps` | src/engine/runner.py:511-565 | a stop leaves each document of the tree as it was, as the run leaves it, or torn with its old row in place, and each other source as it was or dropped |
| `Recovery.SuccessCompletes` | src/engine/runner.py:221-266 | a successful upsert takes every document of the tree to its fate and drops exactly the tracked sources without a parent in the tree |
| `Recovery.GoneIsDoomed` | src/engine/runner.py:645-650 | what the deletion phase finds gone is what was tracked before the run and has neither file nor parent in the tree |
| `Incremental.SoundIsGood` | src/engine/runner.py:342-366 | from any stores where every point's source has a row and every row says what extraction says, incremental work may start |
| `Incremental.MirrorIsSound` | src/engine/runner.py:429-442 | what a successful run leaves is such a state for the job's next tree and parameters |
| `Incremental.EveryRunEnds` | src/engine/runner.py:138-266 | every run of every mode ends, whatever the stores hold |
| `Outcomes.UnhinderedRunSucceeds` | src/engine/runner.py:161-182 | without refusal, failed probe, abort, dead embedder or dimension clash a run ends in success, except that the deletion guard may refuse an upsert |
| `Outcomes.EndsExactly` | src/engine/runner.py:161-266 | a run fails before its first file if and only if it is refused, not ready or meets another dimension or model; later it fails only over a dead embedder, is interrupted only by an abort request before one of its files, and never succeeds past one; only upserts that may delete end at the guard |
| `Outcomes.UnpreparedSpares` | docs/operations.md:119-119 | a run that fails before its first file leaves both stores as they were, but for the rows a full run of one job has forgotten |
| `DryRuns.DryRunWritesNothing` | README.md:253-254 | at every step of every dry run, of any mode and over any tree, both stores are as they were |
| `Outcomes.UnchangedTreeIsLeftAlone` | src/engine/runner.py:342-350 | an upsert over an unchanged tree changes neither store at any step and meets no guard, attachments included |
| `Documents.DocumentFate` | src/engine/runner.py:333-473 | after a successful upsert or append from any stores, a document holds its new chunks under this run exactly if the detector's writing branch was reached, and otherwise exactly its old points; its row says which, with the status, hashes, count and run that go with it |
| `Documents.RightIff` | src/engine/runner.py:429-442 | a readable document is right after the run if and only if the run writes it or it was right before |
| `Documents.StopTearsOne` | src/engine/runner.py:511-547 | a stop finds every document as it was or as the run leaves it, except the one whose points are being replaced, and that one keeps its old row |
| `Documents.TornRightIff` | src/engine/runner.py:342-442 | whatever tree and parameters come next, a successful upsert leaves the torn document right if and only if its old row lets the run write it or the points left by the stop are right |
| `Documents.RevertedStaysBare` | src/engine/runner.py:342-366 | stopped between delete and upsert and put back to what its old row says, a document is called unchanged and stays without points |
| `Documents.SecondUpsertRepairsNothing` | src/engine/runner.py:342-350 | a second upsert over the same tree changes no document's points, so nothing failed is retried |
| `Documents.InterruptedRebuildStaysEmpty` | src/engine/runner.py:194-198 | after a rebuild stopped behind its drop, a successful upsert leaves every file with an unchanged stat without points |
| `FullRuns.FullRunForgetsHistory` | src/engine/runner.py:193-202 | two full runs of one spec from any two stores take the same course and, if successful, leave the same rows and points, run ids included |
| `FullRuns.OthersUntouched` | src/store/qdrant_writer.py:151-191 | a job-scoped run, at any step, leaves every other job's points and rows as they were |
| `Slices.StepCommutes` | src/engine/runner.py:513-547 | a step of a job-scoped run, seen on the job's slice of the stores, is the same step on that slice |
| `Slices.StepFrames` | src/store/qdrant_writer.py:155-167 | a step of a job-scoped run changes nothing outside its job's slice |
| `Interleaving.RunsAsAlone` | src/engine/runner.py:221-251 | in any interleaving of any jobs' runs, with runs dying anywhere, a job's program and slice are those of running alone |
| `Interleaving.NonInterference` | src/engine/locks.py:124-165 | a job's points and rows are the same under any two interleavings in which it makes the same moves |
| `Deletion.GuardMonotone` | src/engine/guards.py:26-47 | a deletion the guard allowed is still allowed after any part of it is done |
| `Deletion.AllowedShare` | src/engine/guards.py:37-46 | an allowed unforced deletion removes at most the configured share of the tracked sources |
| `Deletion.GuardRefusesExactly` | src/engine/guards.py:26-47 | the guard refuses if and only if something vanished and either nothing was seen where an empty tree is guarded against, or, unforced, more than the configured share of the tracked sources vanished |
| `Deletion.EmptyTreeDeletesNothing` | src/engine/guards.py:29-36 | under the empty-source guard an upsert over an empty tree deletes nothing at any step, forced or not and whatever the ratio, and succeeds only if it was not to delete or nothing was tracked |
| `Deletion.VerdictExactly` | src/engine/runner.py:644-658 | the deletion phase ends at once if everything tracked is accounted for by itself or its parent, is refused exactly as above, and otherwise sets out to drop exactly the tracked sources that are neither seen nor have a seen parent |
| `Deletion.OnlyVanishedAreDeleted` | src/engine/runner.py:644-662 | at every moment of the deletion phase only tracked sources that were not seen and whose parent was not seen have lost anything, and nothing if the guard refuses |
| `Deletion.DeletionIsBoundedAndResumable` | src/engine/runner.py:653-662 | at every moment of an allowed deletion at most the configured share is gone, and the guard would still allow the rest of it |
| `Resumption.AllowedDeletionResumes` | src/engine/runner.py:644-662 | once a run's deletion was allowed, stop the run at any later step and run again over the same tree: the guard never turns the next run down |
| `Resumption.SeesAll` | src/engine/runner.py:342-366 | the next run sees every file and every still tracked attachment name the stopped run had seen |
| `Preservation.NothingLostBeforeDeletion` | src/engine/runner.py:222-263 | until its deletion phase a run leaves every source that had points with points, but for the one in hand; an abort or a dead embedder loses none; the deletion phase comes after every scanned file |
| `Appending.AppendTouchesOnlyNew` | src/engine/runner.py:217-237 | at every step of an append run everything but new files and their attachments is untouched |
| `Appending.SkipsExactly` | src/engine/runner.py:268-316 | an append run skips what has a row, what has a point as far as a facet answer of 10 000 sources reaches, or, by default, what has a row and only if the job has none what has such a point |
| `Appending.StateLossExact` | src/engine/runner.py:268-302 | after state loss a stored document keeps its points if there are at most 10 000 or the server names it; any other is embedded a second time |
| `AppendRecovery.AppendsConverge` | src/engine/runner.py:268-284 | an append run with the rows as its memory, stopped anywhere and any number of times and rerun to success, leaves everything but attachments as the run that was never stopped |
| `AppendRecovery.NewFileConvergesExactly` | src/engine/runner.py:217-237 | under every probe a new file ends as in the run that was never stopped unless the stop tore it and the rerun's probe takes what was left for known |
| `AppendRecovery.TornIsSkipped` | src/engine/runner.py:268-302 | under the facet probe a new document stopped between its points and its row is touched by no later append run and stays without a row |
| `AppendRecovery.ProtectionLastsOnce` | src/engine/runner.py:281-299 | after state loss, once an append run has written a row, the next one embeds again every stored document the first one kept |
| `Locks.LocksStayExact` | src/engine/locks.py:40-65 | in every reachable world of calls the reader count is the number of shared holders, a writer excludes all others, and one call per job is under way |
| `Locks.AllGoneAllFree` | src/engine/locks.py:141-165 | when every call has returned, been rejected, timed out or been thrown out, every lock is free |
| `Locks.ClampNeverActs` | src/engine/locks.py:59-65 | a shared release always finds a reader to subtract |
| `Locks.AcquiresExactly` | docs/modes.md:169-174 | in every reachable world a waiting call gets its collection if and only if no full run is under way there and, if it is a full run itself, no run at all; all others share |
| `Locks.ClaimsExactly` | src/engine/locks.py:112-122 | in every reachable world a call is let in if and only if no other call of its job is waiting, running or on its way out |
| `Locks.BlockedByARunner` | src/engine/locks.py:43-57 | who waits in vain waits for a run that holds the lock and itself waits for none |
| `SweepSafety.StepWritesOwn` | src/engine/runner.py:519-547 | a step writes only points of its own run into its own collection |
| `SweepSafety.SweepSparesLiveRuns` | src/store/qdrant_writer.py:176-191 | under every interleaving, what a sweep or a drop deletes was written by runs that had released the collection lock before, in both scopes |
| `SweepSafety.SweepHitsNoLiveRun` | src/engine/locks.py:140-165 | with unique run ids no call that has yet to release its lock loses a point |
| `LockingRunners.ReadWriteLock.Acquire` | src/engine/locks.py:40-57 | acquires if and only if there is no writer and, for exclusive access, no reader; then sets the writer or counts one reader more |
| `LockingRunners.ReadWriteLock.Release` | src/engine/locks.py:59-65 | gives back one share or the exclusive hold |
| `LockingRunners.ReleaseUndoesAcquire` | src/engine/locks.py:40-65 | a release restores the lock an acquire found |
| `LockingRunners.LockingRunner.CollectionLock` | src/engine/locks.py:85-87 | one lock per collection, new the first time, and the others are unchanged |
| `LockingRunners.LockingRunner.Begin` | src/engine/locks.py:112-122 | accepts exactly if no call of the job is under way |
| `LockingRunners.LockingRunner.Execute` | src/engine/locks.py:124-165 | on every way out the job lock is free and every collection lock as before; the call ends without the collection lock if and only if a writer holds it or it is a full run and a reader does, and then, or dry, touches no store; a finished run is the machine's |
| `Runner.JobRunner.RunJob` | src/engine/runner.py:74-134 | whatever happens the run ends with a status and the stores are those of the machine run to that end; the metadata record is changed exactly by a success or a rebuild; a dry run changes neither stores nor record |
| `Runner.JobRunner.PrepareStores` | src/engine/runner.py:193-202 | rebuild, forgetting and verification are the machine's preparation, step by step |
| `Runner.JobRunner.Rebuild` | src/engine/runner.py:194-198 | drop, creation and forgetting as three machine steps, and the record of the run's model |
| `Runner.JobRunner.EnsureReady` | src/engine/runner.py:202-202 | the check of dimension and record lets the run on exactly where the machine goes on |
| `Runner.JobRunner.ScanFiles` | src/engine/runner.py:221-251 | the file loop takes the machine through every file, or to the status it stopped with |
| `Runner.JobRunner.ScanAndClean` | src/engine/runner.py:204-266 | scan, then deletion or sweep only after a clean scan |
| `Runner.JobRunner.ProcessOne` | src/engine/runner.py:318-473 | the four-stage detector does to the stores what the machine's decision and its tasks do, and nothing in a dry run |
| `Runner.JobRunner.IndexFile` | src/engine/runner.py:454-473 | the document first, its attachments only if it was indexed |
| `Runner.JobRunner.IndexDocument` | src/engine/runner.py:475-565 | delete, upsert, commit as three machine steps; refused before the delete if the vector count is wrong; a document that was indexed is found in the vector store chunk by chunk under its ids, each payload saying all it should |
| `Runner.JobRunner.IndexEmbedded` | src/engine/runner.py:567-623 | attachments in turn, then the stale ones are dropped; staleness does not depend on what was just written |
| `Runner.JobRunner.BuildPoints` | src/engine/runner.py:518-545 | chunk i becomes the point with the id of chunk i whose payload says job, source, run and text, has the access tags in order exactly if the job has any, and describes index, total, collection, model, hash, size and the rest, except where the job's own entries say otherwise |
| `Runner.JobRunner.DeleteVanished` | src/engine/runner.py:635-662 | guard and loop are the machine's deletion phase; it ends refused, with nothing touched, if and only if some tracked source is neither seen nor has a seen parent and the tree was empty under the guard or too much vanished unforced |
| `Runner.JobRunner.DeleteEach` | src/engine/runner.py:659-662 | points before row, one source after the other |
| `Runner.JobRunner.AppendKnownSources` | src/engine/runner.py:268-302 | the three probes, with the fall-back to the facet |
| `Runner.JobRunner.EmbeddedInState` | src/engine/runner.py:625-631 | the tracked sources behind a parent's prefix |
| `Runner.OneEnd` | src/engine/runner.py:104-134 | a run has one end, so what `RunJob` leaves is all the machine can end with |
| `Runner.SuccessfulRunJobMirrors` | src/engine/runner.py:127-134 | a successful `RunJob` leaves exactly the tree's documents and rows |
| `Qdrant.QdrantClient.Upsert` | tests/fakes/qdrant.py:110-117 | inserts in order, a later point replacing an earlier one of the same id |
| `Qdrant.QdrantClient.Delete` | tests/fakes/qdrant.py:119-128 | removes exactly the points whose payload the filter matches |
| `Qdrant.PointsAreMeaningful` | src/store/ids.py:21-22 | ids of one collection differ between points, and the three filters mean job, source and generation |
| `Qdrant.QdrantWriter.UpsertPoints` | src/store/qdrant_writer.py:151-153 | adds exactly the document's points, and the store still holds exactly the points |
| `Qdrant.QdrantWriter.DeleteBySource` | src/store/qdrant_writer.py:155-167 | removes exactly one document's points |
| `Qdrant.QdrantWriter.SweepStale` | src/store/qdrant_writer.py:176-191 | removes exactly the points of other runs, in the job or in the whole collection |
| `Qdrant.QdrantWriter.DropIfPresent` | src/store/qdrant_writer.py:118-121 | removes exactly the collection and its points, if it is there |
| `Qdrant.QdrantWriter.Create` | src/store/qdrant_writer.py:122-126 | adds an empty collection of the given dimension |
| `Qdrant.QdrantWriter.EnsureCollection` | src/store/qdrant_writer.py:87-115 | creates a missing collection; otherwise another dimension is an error, and with the dimension right another recorded model is |
| `Qdrant.QdrantWriter.UpsertMeta` | src/store/qdrant_writer.py:130-136 | records the collection's model and nothing else |
| `Metadata.StopVouchesExactly` | src/store/qdrant_writer.py:87-113 | from a collection whose record vouches for its vectors, a run stopped anywhere leaves such a collection if and only if it is not one stopped with documents of its own there before its first record of this model; either way the vectors are of one model |
| `Metadata.AlwaysVouched` | src/engine/runner.py:194-202 | over any history of rebuilds, runs and stops without such a stop, every vector is of the recorded model |
| `Metadata.OthersAreRefused` | src/store/qdrant_writer.py:108-115 | a run of another model that does not rebuild is refused and changes nothing |
| `Metadata.TurnedAwayExactly` | src/store/qdrant_writer.py:87-115 | a run is turned away, changing nothing, if it does not rebuild and the collection is there with another dimension or a record of another model; every other run gets the collection in its dimension |
| `Metadata.StopMixesModels` | src/engine/runner.py:265-266 | after such a stop a run of another model of the same dimension succeeds and records itself, and every document of the first run that it does not itself replace or delete keeps its vectors beside the new ones |
| `Qdrant.QdrantWriter.HasJobPoints` | src/store/qdrant_writer.py:200-206 | answers whether the job has points |
| `Qdrant.QdrantWriter.FacetSources` | src/store/qdrant_writer.py:208-220 | all sources of the job up to the limit, beyond it those the server ranks first |
| `PointStores.InsertRepresents` | src/engine/runner.py:519-547 | writing a document's structs one by one adds exactly the document's points, given injective names |
| `PointStores.InsertedIsFound` | tests/fakes/qdrant.py:110-117 | of points with different ids each is found in the store as it was given |
| `PointStores.RemoveRepresents` | tests/fakes/qdrant.py:119-128 | deleting by what payloads say deletes exactly the points it is said of |
| `PointStores.SourcesAgree` | tests/fakes/qdrant.py:156-177 | the payload sources of a job's points are the sources of its points |
| `Payloads.PayloadSays` | src/engine/runner.py:518-542 | with admitted entries of the job the payload of a chunk is pinned key by key: the reserved keys as the run sets them, the others as the job or else the run says, and no key besides |
| `Payloads.TagsFindTheirPoints` | src/store/indexes.py:12-13 | a filter on an access tag finds exactly the payloads that carry the tag |
| `Payloads.ExtraCannotShadow` | src/catalog/schema.py:183-191 | every payload says what its point is if and only if the job's own entries avoid the scoping keys, which the validator ensures |
| `Payloads.ChunkIndexCanBeShadowed` | src/engine/runner.py:542-542 | descriptive fields can be overwritten, so no delete may go by them |
| `Payloads.FiltersMeanScopes` | tests/fakes/qdrant.py:22-56 | the job, source and generation filters match a payload exactly by its point's job, source and run |
| `Ids.PointIdInjective` | src/store/ids.py:21-22 | two points share an id only if job, source and index are the same, although sources may contain the separators |
| `Ids.UnrestrictedJobsCollide` | src/store/ids.py:21-22 | without the slug rule on job ids two names would collide |
| `StateDb.StateStore.UpsertDocument` | src/state/db.py:157-179 | inserts or replaces the one row of job and source |
| `StateDb.StateStore.GetDocument` | src/state/db.py:150-155 | the row of job and source, if there is one |
| `StateDb.StateStore.DeleteDocument` | src/state/db.py:181-185 | removes the one row of job and source |
| `StateDb.StateStore.ListSources` | src/state/db.py:204-208 | exactly the sources the job has rows for |
| `StateDb.StateStore.DeleteDocumentsForJob` | src/state/db.py:187-190 | forgets exactly the job's rows |
| `StateDb.StateStore.DeleteDocumentsForCollection` | src/state/db.py:192-195 | forgets exactly the collection's rows, whatever their job |
| `Fingerprints.JobsShareExactly` | src/engine/modes.py:39-58 | under fixed settings two jobs share a fingerprint if and only if model, chunking and expansion agree, even if the model name contains the separator |
| `Fingerprints.SettingsShareExactly` | src/engine/modes.py:45-58 | for one job and version two settings share a fingerprint if and only if their numbers agree and their two texts, joined, are the same |
| `Fingerprints.SettingsCollideExactly` | src/engine/modes.py:45-58 | settings share their fingerprint with others if and only if one of their two texts holds the separator |
| `Fingerprints.IdentifiedExactly` | src/engine/modes.py:39-58 | a fingerprint identifies version, job and settings among all others if and only if the two texts hold no separator and the model name holds no strategy with three numbers behind it |
| `Fingerprints.SettingsCanCollide` | src/engine/modes.py:45-58 | two settings that do collide |
| `Catalog.JobKeysWin` | src/catalog/loader.py:64-72 | a leaf of a merged job is the job's where the job says anything on the way, else the default's |
| `Catalog.MergeIdempotent` | src/catalog/loader.py:64-72 | merging the defaults into a merged job changes nothing |
| `Catalog.DuplicateIds` | src/catalog/loader.py:168-172 | flags every job whose id an earlier job has |
| `Catalog.SystemCollections` | src/catalog/loader.py:174-183 | flags every job that targets a system collection |
| `Catalog.SharedLabels` | src/catalog/loader.py:189-204 | flags every enabled job whose label an earlier enabled job of its collection has |
| `Catalog.MixedModels` | src/catalog/loader.py:206-225 | flags every enabled job whose model differs from the one its collection was claimed for |
| `Catalog.MixedConnections` | src/catalog/loader.py:230-245 | flags every enabled job whose connection differs from its collection's |
| `Catalog.CrossJobIssues` | src/catalog/loader.py:165-247 | the five loops report exactly the jobs that clash with an earlier one, rule by rule and in order |
| `Catalog.CrossIssuesExact` | src/catalog/loader.py:165-247 | every flagged job is named, and there is no issue if and only if none is flagged |
| `Catalog.CleanIffConsistent` | src/catalog/loader.py:185-245 | nothing is flagged if and only if ids are unique and each collection has distinct labels, one model and one connection |
| `Catalog.SurvivorsConsistent` | src/catalog/loader.py:369-374 | the jobs no issue names are consistent by themselves, even without the job that claimed their collection |
| `Catalog.ValidateEntries` | src/catalog/loader.py:348-376 | a load returns all jobs if there is no issue and else exactly those no issue names, in order |
| `Catalog.LoadedIsConsistent` | src/catalog/loader.py:367-376 | cross-validating what a load accepted reports nothing |
| `Registry.AlwaysInStep` | src/engine/service.py:162-183 | after every sequence of reloads, pauses and resumes the live timers are those of the enabled scheduled jobs with their current definitions, paused exactly if the job is, and the paused set is within the registry |
| `Registry.RejectedReloadsLeaveNoTrace` | src/engine/service.py:162-183 | over any history, registry, timers with their ages and paused set are those of the history without the reloads that were turned down, and the registry is what the newest of the others asked for |
| `Registry.TurnedDownExactly` | src/engine/service.py:168-174 | after any history a reload is turned down if and only if it has errors, is not the initial one and a job is registered |
| `Registry.AllAreRegistered` | src/engine/service.py:175-176 | an applied reload registers exactly the jobs it brings, each under its id |
| `Registry.TimerKeptExactly` | src/scheduler/aps.py:100-117 | a reload keeps a timer, paused or not, if and only if the job had one and its schedule, start-up policy included, is unchanged |
| `Registry.PauseSurvivesReload` | src/engine/service.py:176-181 | through a reload a job that stays registered is paused if and only if it was, and so is its timer |
| `Registry.ResumeUndoesPause` | src/engine/service.py:298-307 | resuming a job that was paused by hand restores registry, paused set and timers |
| `Engine.IngestScheduler.ApplyCatalog` | src/scheduler/aps.py:79-117 | the diffing loops leave exactly the timers the catalog asks for, kept or new |
| `Engine.IngestScheduler.RemoveObsolete` | src/scheduler/aps.py:92-95 | removes exactly the timers no longer asked for |
| `Engine.IngestScheduler.Sync` | src/scheduler/aps.py:100-117 | keeps a timer with its new definition where the schedule is unchanged, makes a new one elsewhere |
| `Engine.IngestScheduler.PauseJob` | src/scheduler/aps.py:126-130 | pauses exactly the job's timer and says whether there is one |
| `Engine.IngestScheduler.ResumeJob` | src/scheduler/aps.py:132-136 | resumes exactly the job's timer and says whether there is one |
| `Engine.IngestEngine.ReloadConfig` | src/engine/service.py:162-183 | applies if and only if the load is clean, initial or the first, and then leaves registry, paused set and timers as specified |
| `Engine.IngestEngine.PauseAgain` | src/engine/service.py:180-181 | pauses every timer of a paused job and no other |
| `Engine.IngestEngine.PauseJob` | src/engine/service.py:298-302 | pauses a registered job, with or without a timer, and answers true; an unknown job is an error and changes nothing |
| `Engine.IngestEngine.ResumeJob` | src/engine/service.py:304-307 | resumes a registered job and says whether it has a timer |
| `Limiter.WindowBound` | src/embed/limiter.py:35-50 | in every history and window of length t at most max(1, rps) + rps * t slots are granted |
| `Limiter.BurstExactly` | src/embed/limiter.py:30-48 | a bucket left alone until it is full grants at one moment exactly as many of n attempts as whole tokens fit into max(1, rps) |
| `Limiter.StaysSane` | src/embed/limiter.py:41-47 | the allowance stays between zero and the capacity |
| `Limiter.WaitIsExact` | src/embed/limiter.py:49-50 | a refused caller sleeps exactly until a token would be there |
| `Limiter.EmbeddingLimiter.TakeToken` | src/embed/limiter.py:35-50 | the retry loop leaves the bucket of its clock readings and takes exactly one token, or none if they run out |
| `Limiter.EmbeddingLimiter.Pass` | src/embed/limiter.py:39-48 | one pass refills by the clock reading and takes a token exactly if there is one |
| `Limiter.EmbeddingLimiter.Enter` | src/embed/limiter.py:52-56 | a slot is given exactly while fewer than the configured number are held |
| `Limiter.EnterSlot` | src/embed/limiter.py:52-56 | entering a slot takes one place and pays with one token, or keeps waiting in its place |
| `Limiter.BatchingIsInvisible` | src/embed/limiter.py:70-78 | batching gives every text its own vector, in order, for every batch size |
| `Limiter.EmbedAll` | src/embed/limiter.py:70-78 | takes exactly one slot per batch and gives each back, takes exactly one token per batch where a rate is set, and leaves the bucket of the clock readings used; if they run out, the batch in hand holds its slot without a token |
| `Texts.JoinKeepsWords` | src/chunk/paragraph.py:28-32 | joining by blanks loses no word and makes none |
| `Chunkers.ChunkParagraphs` | src/chunk/paragraph.py:17-46 | the packing loop yields exactly the greedy packing, with windows for long paragraphs |
| `Chunkers.ParagraphsLoseNothing` | src/chunk/paragraph.py:8-46 | the words each chunk is the first to hold are, in order, the words of the text |
| `Chunkers.ParagraphBudget` | src/chunk/paragraph.py:34-45 | no chunk text splits into more words than the budget |
| `Chunkers.WindowsLoseNothing` | src/chunk/paragraph.py:8-14 | the first step words of every window concatenate to the words |
| `Chunkers.WindowLoop` | src/chunk/paragraph.py:8-14 | the comprehension yields one text per window, in order |
| `Chunkers.WindowsExactly` | src/chunk/paragraph.py:8-14 | window i holds the words from i steps on, as many as the size allows, and there are just as many windows as reach every word |
| `Chunkers.WindowsOverlap` | src/chunk/paragraph.py:8-14 | two windows in a row share all but the first step words of the first |
| `Chunkers.PackingIsMaximal` | src/chunk/paragraph.py:34-45 | of two chunks of whole paragraphs in a row the first could not have held the next paragraph |
| `Chunkers.ShortParagraphsStayWhole` | src/chunk/paragraph.py:34-45 | exactly the paragraphs within the budget are whole in the chunks, each once and in order |
| `Chunkers.LongParagraphWindows` | src/chunk/paragraph.py:8-14 | a paragraph over the budget becomes windows of the budget that start words minus overlap apart, or one word if that is not positive |
| `Chunkers.BlankLinesBetween` | src/chunk/paragraph.py:28-32 | the paragraphs of a chunk have a blank line between them |
| `MarkdownChunks.ChunkMarkdown` | src/chunk/markdown.py:22-60 | the section loop, with the fall-back over the whole text |
| `MarkdownChunks.ChunkSection` | src/chunk/markdown.py:33-50 | the windows of a long section, its heading in front of each |
| `MarkdownChunks.BodyCovered` | src/chunk/markdown.py:43-50 | the windows of a long section cover every body word in order |
| `MarkdownChunks.ChunkWords` | src/chunk/markdown.py:46-50 | each window chunk holds the heading's words, then the window's |
| `MarkdownChunks.MarkdownBudget` | src/chunk/markdown.py:28-50 | no chunk exceeds the budget, or its heading and one word if that is more |
| `MarkdownChunks.SectionChunksExactly` | src/chunk/markdown.py:33-50 | the chunks of a long section are its heading and a window of its body each; the window has the room the heading leaves, one word at least, and the windows start that room minus the overlap apart |
| `MarkdownChunks.FallBackExactly` | src/chunk/markdown.py:22-60 | the whole text is windowed if and only if every section is one heading line over the budget; otherwise the chunks are those of the sections in order |
| `MarkdownChunks.SectionLostExactly` | src/chunk/markdown.py:33-50 | a section yields nothing if and only if it is one heading line over the budget |
| `MarkdownChunks.LongTagLineIsLost` | src/chunk/markdown.py:34-50 | such a line is missing from the chunks beside any other section |
| `Sheets.ChunkSpreadsheet` | src/chunk/sheet.py:29-56 | groups rows under repeated name and header; a zero group size fails exactly where there are data rows |
| `Sheets.RowsKeptExactly` | src/chunk/sheet.py:41-48 | the groups are the data rows again if and only if the group size is positive or there are none |
| `Sheets.BlockReadsExactly` | src/chunk/sheet.py:17-48 | the first line of a block is the sheet's name if and only if it has no cells and the second has; the next is the header of every chunk, the lines behind it are the data rows in order; a blank name gives way to the default |
| `Sheets.RaisesExactly` | src/chunk/sheet.py:41-48 | a zero group size is an error exactly for a block with a line behind name and header |
| `Sheets.BlocksInOrder` | src/chunk/sheet.py:29-56 | the chunks of the blocks follow one another |
| `Sheets.ChunkTextSaysItsRows` | src/chunk/sheet.py:49-55 | name, header and rows can be read back from a chunk's text |
| `Slides.ChunkSlides` | src/chunk/slide.py:10-31 | the merge loop, with the deck title in front of every chunk |
| `Slides.SlidesLoseNothing` | src/chunk/slide.py:15-27 | no slide is lost or moved, and only a slide too long by itself exceeds the budget |
| `Slides.MergingIsMaximal` | src/chunk/slide.py:15-27 | a group is closed only because the slide behind it would not have fitted |
| `Slides.BlankLinesBetween` | src/chunk/slide.py:15-31 | title and slides of a chunk have a blank line between them, and an empty title is none |
| `Slides.SlideWords` | src/chunk/slide.py:29-31 | a chunk's words are the title's and its slides' |
| `Timestamps.TextOrderIsTimeOrder` | src/state/db.py:36-44 | stored timestamps compare as text exactly as instants do, although a zero fraction is left out |
| `Timestamps.ZuluMisorders` | src/state/db.py:39-43 | with a `Z` suffix a whole second would sort after its own fractions |
| `RunHistory.RunStore.DeleteRuns` | src/state/db.py:442-500 | deletes exactly the job's finished runs in the window and exactly their events, or only counts them |
| `RunHistory.DeletionLeavesNoOrphans` | src/state/db.py:490-493 | if every event had its run before, every event has it after |
| `RunHistory.WindowIsOfInstants` | src/state/db.py:459-467 | the textual window is the window of instants, closed below and open above, with either bound or both left out |
| `Queries.EscapeQuery` | src/state/db.py:244-248 | the three replacements put exactly one backslash before each special character |
| `Queries.OrderMatters` | src/state/db.py:246-246 | in another order an escape would itself be escaped |
| `Queries.SearchIsContainment` | src/state/db.py:244-248 | the LIKE clause matches a path if and only if it contains the query up to ASCII case |
| `Queries.UnescapedMatchesMore` | src/state/db.py:244-248 | without the escaping a search for `_` would find every path |
| `Queries.DocumentFilter` | src/state/db.py:233-249 | the clauses and parameters built up select exactly the job's documents with the given status, run and path text |
| `Globs.GlobToRegex` | src/sources/filters.py:19-43 | the scanner yields the parts of the normalised pattern |
| `Globs.CompiledByPieces` | src/sources/filters.py:1-43 | for any pattern whatever, the compiled expression accepts a path if and only if the path falls into pieces, one for each token, each of which the dialect lets the token stand for |
| `Globs.CompiledIsDocumented` | src/sources/filters.py:1-10 | where every `**` is a whole segment, that is matching segment by segment |
| `Globs.StarsCrossSegments` | src/sources/filters.py:19-43 | wherever it stands, `**` takes exactly any text across segments, and with a slash behind it exactly any number of whole directories, none included |
| `Filters.RcloneFilterArgs` | src/sources/filters.py:79-93 | the loops emit excludes, includes and the closing rules in that order |
| `Filters.RulesMatchScan` | src/sources/filters.py:46-93 | on every path, first match over the rules equals the scan's filter wherever each translated pattern means its original there |
| `Filters.PortableKeepsMeaning` | src/sources/filters.py:57-76 | a portable pattern (no inner `**` before a slash, no doubled leading or trailing slash) keeps its meaning on every path the scan reads as it is |
| `Filters.PortableFiltersAgree` | src/sources/filters.py:79-93 | for portable filters sync and scan see the same such paths |
| `Portability.KeepsMeaningExactly` | src/sources/filters.py:57-76 | a pattern keeps its meaning on all file paths if and only if it is portable, or, where the scan can match none, rclone can match none either |
| `Portability.PathsExactly` | src/sources/filters.py:46-54 | all portable patterns keep their meaning on a one-line path if and only if it has no backslash and no leading slash |
| `Portability.InnerStarsDiffer` | src/sources/filters.py:57-76 | a pattern with an inner `**` before a slash that does not keep its meaning |
| `Portability.BackslashNamesDiffer` | src/sources/filters.py:48-52 | a portable pattern that excludes a file name with a backslash from the scan and not from the sync |

## Left out

- The tree, extraction and chunking results and vectors are inputs of the run model; rclone, Tika, the embedding client and Qdrant's transport are foreign systems. Vectors themselves are not stored.
- Titles, paths, labels, media types and instants in payloads are inputs of the run, as is how digests and instants are written there.
- Reporting: run counters, events, progress flushing, wall-clock columns, drift counting, paths and media types in rows.
- Payload indexes, and what the metadata collection holds beside the embedding model.
- Which record a run of the machine meets is an input of the run (`admitted`); `Metadata` follows the record through whole histories.
- One read and the decision it leads to are one machine step; a job's rows are written only under its own lock, so nothing can come between.
- A payload whose scoping value is a list (no job writes one) is matched by membership in `Payloads` but stands for no point.
- Which sources an overfull facet answers is the server's choice and an input of the run.
- Pruning the run history and reconciling interrupted runs at start.
- Orphan cleanup and deleting a job's points from outside a run take no collection lock and are not part of the model.
- Queued follow-up runs, the configuration poll thread and job abortion by id: check-then-act windows allow no liveness claim.
- REST, MCP, authentication, metrics, connection and secret encryption, YAML and cron parsing, schema validation beyond slugs and reserved keys.
- The timed wait for a collection lock: an attempt stands for the moment the wait ends; fairness between waiters is not claimed.
- LockingRunners.LockingRunner.Execute: is one call; calls of other threads in between are the business of module Locks.
- Portability.KeepsMeaningExactly: covers patterns without `[`, `]`, `{`, `}` and runs of three stars, which are classes, alternatives and errors to rclone alone; `Portable` excludes them.
- Portability.PathsExactly: is for paths without a newline, as is everything in `Globs` and `Filters`: in a name that holds one, `.` stops at it and `$` matches before a last one in the scan and not in rclone.
- Globs.CompiledIsDocumented: is for patterns whose `**` are whole segments; `Globs.CompiledByPieces` is for all.
- Limiter.WindowBound: time and rates are real numbers; floating-point rounding is not modelled.
- Text splitting by the chunkers' regular expressions is an input; the loops over paragraphs, sections, blocks and slides are modelled.
