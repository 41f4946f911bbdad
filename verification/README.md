# CairnDB, modelled and proved in Dafny

CairnDB is a database engine over an object bucket. Its only arbiter is the bucket's two conditional
writes, put-if-absent and compare-and-swap; everything else is clients racing over one shared map.
This project models the four protocols that live on that, and the derived state read from it, and
proves what they promise under every interleaving.

| part | files |
|---|---|
| commit protocol | `LogProtocol`, `LogBucket`, `Revalidation`, `Committer` |
| transactions | `TxRecords`, `TxPrograms`, `TxChecks`, `TxProtocol`, `TxTraces`, `TxRecovery`, `TxLiveRecovery`, `ObjectStore`, `Transactions` |
| leases and compare-and-swap loops | `Cas`, `CasLoops`, `LeaseProtocol`, `Lease` |
| projections, snapshots, retention | `Folding`, `Archives`, `Replay`, `Projector`, `Snapshots`, `Retention`, `ReadYourWrites` |
| text of numbers and keys, named logs | `Encoding`, `Namespacing` |

`dafny verify dfyconfig.toml` checks everything. Automatic induction is switched off in all lemmas: an
inductive proof is one that calls itself.

## How concurrency is modelled

Each shared thing is a class: the commit log (`LogBucket.Bucket`), one key under conditional writes
(`Cas.Register`), the objects of transactions (`ObjectStore.Store`), commits with snapshots as readers
see them (`Archives.Archive`). Every storage call is one atomic step, and before it the other clients
take any number of arbitrary legal steps (`Interfere`). A client's method therefore verifies against
all interleavings, and what it may rely on between two calls is stated (`Rely`, `ByOthers`, `Later`).
Beside the classes stand step relations (`LogProtocol.Legal`, `LeaseProtocol.LeaseLegal`,
`TxProtocol.Possible` and `Disciplined`, `Archives.Possible` and `Orderly`) with lemmas about every run
of any number of clients. The methods of a transaction and the steps of `TxProtocol` share one meaning
of a program's action (`TxPrograms.Take`).

The commit log appears twice, once as its committers see it (`LogBucket.Bucket`: tails, conditional
puts) and once as its readers and its janitor do (`Archives.Archive`: snapshots, deletions). Every run
of the first is a run of the second (`LogRunIsRun`).

Submissions carry tickets, so equal events stay apart. Entity tags are pairs of a generation and the
content: equal tags mean equal content and nothing more is assumed, so the proofs hold for fresh
generations and for content hashes, ABA included. The preconditions of conditional writes are those of
RFC 9110, sections 13.1.1 and 13.1.2.

## What the code needs to be right

These hypotheses are in the contracts. Most are exact: the lemma named with them says that the promise
holds if and only if they do, or a named run shows what goes wrong without them.

- No prune passes the tail of a live committer, and a cold one finds a surviving commit or has a hint at
  the prune point (`Legal` of `RaiseFloor`; exact by `PruneExactly`). A new committer's `tail_hint` is at
  most the real tail, and equal to it when every commit may be gone (`Legal` of `Open`; exact by
  `OpenExactly`).
- Serial reads: a transaction read what the records up to the last commit out of its sight leave, and read
  nothing twice differently. This is exact for every possible run, whatever is written to the objects
  (`EveryRunExactly`; for one commit `Transactions.Isolated`).
- Out of sight are commits that neither its scan nor its hook sees. There are some when a manager's
  committer lists its first tail after the scan (`ColdCommitterLosesAnUpdate`), and when the transaction
  log, which no job of the repository prunes, is pruned past the begin tail (`PrunedRecordIsLost`). If
  there are none, or they wrote nothing it read, the condition is about the records up to the begin tail
  (`EveryWindowedRunExactly`).
- If objects are written only by applying mutations of the log, in any order and any number of times, it
  comes to what can be seen when an object is compared: the mutations of these records that have not
  reached it leave what it holds (`EveryLawfulRunExactly`, `Transactions.AllAgree`;
  `UnappliedRecordIsLost`). An undisturbed client that applies record after record keeps it so
  (`AppliedIsUpToDate`). A transaction without writes returns before any check, so nothing is promised for
  its reads.
- Recovery: under every key of a record without a marker, the last unmarked mutation leaves what the last
  mutation of the log leaves (`RecoveryExactly`); so it is when no such record was overtaken by one with a
  marker (`RecoveryRestoresFold`, `OvertakenRecordIsResurrected`). Next to live appliers,
  objects may be behind until recovery has got to the end of the log (`LiveRecoveryExactly`).
- Leases: no document is deleted (a new one restarts at epoch 1), and exclusion is about named holders,
  since a document whose holder is null is free at once.
- Projections: all snapshots of a schema version are built with the same handlers and the same initial
  schema, and handlers are deterministic.
- Retention: no snapshot is published below the prune point (`RetainedExactly`), so none below the oldest
  one a janitor keeps, between its listing and its prune.
- Updates: the scratch file is absent when there is no visible database and no snapshot
  (`LeftoverIsCountedTwice`).
- Named logs: names and schema versions hold no slash, numbers are below 10^12 (`KeyRoundTrip`), and only
  the engine writes into the folders of logs and snapshots (`Namespacing.Reserved`, which it enforces by
  `RESERVED_PREFIXES`, `src/cairndb/engine/objects.py:15`): listing and deleting rest on that.

The documentation of time travel (`docs/concepts/projections.md:119-121`, and the comment at
`src/cairndb/engine/projection.py:145-148`) says that a target before the prune point makes the build
fail. The code does not: with no usable snapshot it returns an empty, or short, database. The model
follows the code, and `Snapshots.AsOf` states exactly when the result is the one asked for.

The documentation of transactions (`src/cairndb/engine/transactions.py:10-12`, `29` and `277-279`) says
that applying a record twice is harmless, that isolation holds between transactions, and that recovery is
safe to run concurrently with live commits. The code does not keep these without conditions, and the
exact ones are proved: applying a record once more is harmless if and only if no later record overwrote it
with something else (`ReapplyingExactly`); isolation is serial if and only if the condition on reads above
holds (`EveryRunExactly`, `EveryLawfulRunExactly`), and `TxTraces` has three runs of transactions alone
that lose an update; recovery that works from an old listing takes an overwritten
object back although every record has its marker, until it gets to the end of the log
(`LiveRecoveryExactly`).

## Model

| member | source | states |
|---|---|---|
| `LogProtocol.WinIsNext` | src/cairndb/committer.py:245-303 | a put-if-absent can only be won for the number right after the last commit: numbers have no gap and no reuse |
| `LogProtocol.ListedTailIsTop` | src/cairndb/committer.py:297-303 | listing above the hint finds the real tail, whatever has been pruned |
| `LogProtocol.StepKeepsDense` | src/cairndb/committer.py:245-321 | every legal step (open, list, win, advance, prune, delete) keeps the log dense and immutable and every known tail truthful |
| `LogProtocol.EveryRunIsDense` | src/cairndb/committer.py:245-321 | so does every run of any number of committers and prunes; stored commits never change and no known tail moves back |
| `LogProtocol.NumbersAreWonInOrder` | src/cairndb/core/log.py:87-104 | in a whole run the k-th won put is the k-th commit after the ones there were |
| `LogProtocol.PruneExactly` | src/cairndb/jobs/gc.py:68-71 | from a prune on no run ever uses a number twice if and only if the prune spares every warm committer's tail and leaves every cold one a commit or its hint |
| `LogProtocol.OpenExactly` | src/cairndb/committer.py:297-303 | a new committer never leads to a number used twice if and only if its tail_hint is at most the real tail, and equal to it when every commit may be gone |
| `LogBucket.Bucket.PutCommit` | src/cairndb/storage/base.py:86-96 | put-if-absent as one atomic step after any interference: won only when absent, lost without effect, and lost only when present unless the store lets writers collide; a rejected put without a visible winner is counted |
| `LogBucket.Bucket.ListCommits` | src/cairndb/storage/base.py:111-117 | exactly the live numbers above `after`, ascending |
| `LogBucket.Bucket.ReadUntilGap` | src/cairndb/engine/logs.py:191-201 | reading forward gives a contiguous piece of the history, and the number after it was not there |
| `Revalidation.KeepKeepsOrder` | src/cairndb/committer.py:335-351 | the kept events are exactly the accepted ones, each as decided, in submission order |
| `Revalidation.CourseKeepsOrder` | src/cairndb/committer.py:281-289 | over any number of lost races, what is pending after each comes from the batch and keeps its order |
| `Revalidation.CourseWithoutHook` | src/cairndb/committer.py:281-285 | without a hook a batch goes through every race unchanged |
| `Revalidation.CourseIsUnique` | src/cairndb/committer.py:281-289 | hook and races leave no choice: two courses of one batch through the same races are the same, race by race |
| `Revalidation.FailureIsFinal` | src/cairndb/committer.py:281-289 | a batch does not get past a race in which the hook raises or miscounts on what is then pending, and fails in no race that it gets past |
| `Committer.Committer.constructor` | src/cairndb/committer.py:105-135 | a new committer is cold, has an empty queue and owns no slot of the log |
| `Committer.Committer.AppendMany` | src/cairndb/committer.py:159-185 | a closed committer refuses; otherwise the events are queued in order under fresh tickets |
| `Committer.Committer.NextNumber` | src/cairndb/committer.py:297-303 | a cold committer adopts the listed tail; the number is the one after the tail |
| `Committer.Committer.AdvanceTail` | src/cairndb/committer.py:305-321 | the interleaved commits are exactly the history from the tried number to its end, which becomes the tail |
| `Committer.Committer.ApplyRevalidation` | src/cairndb/committer.py:323-351 | it fails if and only if the hook raises or returns a list of the wrong length, and then answers nobody; otherwise the entries are kept for which the hook returned an event, each with that event, and the others and nobody else are answered as rejected |
| `Committer.Committer.Attempt` | src/cairndb/committer.py:249-277 | a won number is the one right after everything others committed and holds exactly the batch; a lost one leaves the tail at the end of the log |
| `Committer.Committer.CommitBatch` | src/cairndb/committer.py:245-295 | one batch under any interleaving (`Concluded`): race by race, what was pending is what the hook kept of it, shown exactly the log from the first number tried on; it ends failed if and only if in its last race the hook raised or miscounted on what was then pending; it wins with exactly what is pending as the next commit; unless it wins no slot of the log holds any of it; at most max_commit_attempts puts are made, and giving up means exactly as many, all of them lost (`UsedUp`) |
| `Committer.Committer.Flush` | src/cairndb/committer.py:219-243 | one turn of the flusher: at most max_events_per_commit of the oldest submissions, each answered once (what is pending when the hook fails, and nothing else, as failed), earlier answers unchanged, the books balanced; without a win no slot holds any of them |
| `Committer.Committer.Run` | src/cairndb/committer.py:219-243 | any number of turns with submissions in between: no answer ever changes, the log only grows, the books balance afterwards, and what was queued at first is answered after as many turns |
| `Committer.Committer.Close` | src/cairndb/committer.py:187-198 | afterwards nothing is pending and every submission ever made has its answer |
| `Committer.BalancedAfterWin` | src/cairndb/committer.py:264-274 | winning keeps the books balanced: a slot holds a submission exactly when that submission was acked with it, and acks rise in submission order |
| `Committer.BalancedAfterOthers` | src/cairndb/committer.py:245-295 | commits of others and failures leave the books balanced |
| `Committer.AcksRise` | src/cairndb/committer.py:264-268 | acks of later submissions are later places in the log, across batches |
| `Committer.WinConcludes` | src/cairndb/committer.py:264-274 | a won attempt ends the batch with its log, answers and coverage as promised |
| `Committer.LossEnds` | src/cairndb/committer.py:286-295 | a batch that ends without a win acknowledged nothing and holds no slot |
| `Committer.HookFailureEnds` | src/cairndb/committer.py:236-243 | after a failing hook every submission of the batch has its answer: what was then pending failed, what the hook rejected before is rejected |
| `TxProtocol.EveryRunExactly` | src/cairndb/engine/transactions.py:188-192 | every possible run, in no discipline at all, whatever is written to the objects: a record is serial if and only if it read what the records up to the last commit out of its sight leave, and read nothing twice differently; isolation is serial if and only if that holds of every record. Nothing it read was written between its begin tail and its place if and only if the commits that neither its scan nor its hook saw wrote none of it, and then the begin tail will do |
| `TxProtocol.EveryWindowedRunExactly` | src/cairndb/engine/transactions.py:1-32 | every run in which no committer passes over a conflicting commit, whatever is written to the objects: every window is closed, and isolation is serial if and only if each record read what the records up to its begin tail leave |
| `TxProtocol.EveryLawfulRunExactly` | src/cairndb/engine/transactions.py:203-221 | every run in which only mutations of the log are written: a record is serial if and only if what the records up to the last commit out of its sight (up to the begin tail, if the window is closed) had still to do to each read key, when it was compared, leaves what was read; isolation is serial if and only if that holds of every record |
| `TxProtocol.EveryDisciplinedRunIsSerial` | src/cairndb/engine/transactions.py:1-32 | every run in full discipline, of any number of transactions and managers: each record belongs to one committed transaction, read exactly what the records before it leave and did what its program does alone on that; the log leaves what the programs leave one at a time in log order |
| `TxProtocol.StepKeepsInLine` | src/cairndb/engine/transactions.py:81-272 | every possible step (begin, action, compare, scan, list, put or lost race, write of an object, prune) keeps what is known of each transaction, its lock and its window |
| `TxProtocol.SerialExactly` | src/cairndb/engine/transactions.py:188-192 | a record read what the records before it leave, and its program alone on that does the same, if and only if it read what the first `b` records leave, for every `b` since which nothing it read was written |
| `TxProtocol.WindowsExactly` | src/cairndb/committer.py:297-303 | a step keeps all windows closed if and only if no committer tries its first number past a commit that wrote what its transaction read and that neither scan nor hook sees |
| `TxProtocol.RecordsRunSerially` | src/cairndb/engine/transactions.py:223-231 | serial records leave what running their programs one after the other leaves |
| `TxProtocol.StoreIsSerialExactly` | src/cairndb/engine/transactions.py:251-272 | the store itself is what the serial run leaves if and only if no object would be changed by the mutations that have not reached it |
| `TxTraces.ColdCommitterLosesAnUpdate` | src/cairndb/committer.py:297-303 | a run from the empty system in which a committer lists its first tail after the scan: both transactions commit and one update is lost |
| `TxTraces.PrunedRecordIsLost` | src/cairndb/engine/transactions.py:213-221 | a run in which a record is pruned before the transaction that began before it is scanned: both commit and one update is lost |
| `TxTraces.UnappliedRecordIsLost` | src/cairndb/engine/transactions.py:188-193 | a run of one manager whose second transaction begins and is compared before the first record was applied: both commit and one update is lost |
| `TxPrograms.OutcomeIsUnique` | src/cairndb/engine/transactions.py:85-119 | what a program that is finished has done does not depend on how many turns it was given |
| `TxPrograms.FollowsOneMore` | src/cairndb/engine/transactions.py:91-127 | action by action, a transaction does what its program does against any store that holds the values it was handed |
| `TxRecords.QuietKeyIsStable` | src/cairndb/engine/transactions.py:251-270 | a key that no record after `b` writes has one value from the moment the first `b` are applied, however far the rest got |
| `TxRecords.WritesAreKeysOfOps` | src/cairndb/engine/transactions.py:58-62 | the write set of a commit is the set of keys its mutations name |
| `TxRecords.MutationIsInLog` | src/cairndb/engine/transactions.py:263-270 | every mutation of every record has its place in the mutations of the log, after those of the records, entries and mutations before it |
| `TxChecks.SurvivesIffClear` | src/cairndb/engine/transactions.py:233-247 | a record survives all lost races exactly when no commit the hook was shown wrote a key it read |
| `TxChecks.ClearWindowExactly` | src/cairndb/engine/transactions.py:213-247 | whoever wrote what to the store, a transaction with a clear window may be placed at the end of the log if and only if it read what the records up to its begin point leave |
| `TxChecks.ReadIsSerialExactly` | src/cairndb/engine/transactions.py:203-221 | a value the key once had is the value the whole log leaves there, if no record after `b` writes it, if and only if the mutations of the first `b` records that had not reached the key leave that value too |
| `TxChecks.UnappliedRecordIsMissed` | src/cairndb/engine/transactions.py:193-193 | a record committed before begin and not yet applied is seen by no check: the read is not what the log says |
| `ObjectStore.Store.Write` | src/cairndb/storage/base.py:184-210 | a write takes effect; every object stays what some first mutations of the log leave under its key exactly as long as only mutations of the log are written, by anyone and in any order, and the key is then at the last place of its mutation |
| `ObjectStore.Store.WriteObject` | src/cairndb/storage/base.py:184-210 | an unconditional put or delete takes effect on what the store holds at one instant, whatever happened before it, and is the last thing that happened; the writes stay lawful exactly if the log holds it, and its key is brought to its last place |
| `ObjectStore.Store.PutMarker` | src/cairndb/engine/transactions.py:272-272 | a marker is put if absent and never goes away; undisturbed nothing else changes |
| `ObjectStore.AppliedIsUpToDate` | src/cairndb/engine/transactions.py:251-272 | a client that applies record after record keeps every object up to date: nothing the records so far have still to do changes it |
| `Transactions.Transaction.Begin` | src/cairndb/engine/transactions.py:81-83 | the begin tail is the highest commit number in the bucket at that instant, or 0; without a prune of everything, the tail of the log |
| `Transactions.Transaction.Get` | src/cairndb/engine/transactions.py:91-107 | own staged write first, otherwise what the store holds at that instant; the first read of every key enters the read set even when a staged write hides it, and no earlier entry changes; exactly one action of the program |
| `Transactions.Transaction.StagePut` | src/cairndb/engine/transactions.py:109-113 | the mutation is staged last and read back by later gets |
| `Transactions.Transaction.StageDelete` | src/cairndb/engine/transactions.py:115-119 | a staged delete reads back as absent |
| `Transactions.Transaction.StageNote` | src/cairndb/engine/transactions.py:121-127 | a note is carried last in the record and changes nothing that is read |
| `Transactions.Transaction.StaysValid` | src/cairndb/engine/transactions.py:65-87 | whatever other transactions, of the same manager too, and anyone else do to log and store, an open transaction stays valid |
| `Transactions.Manager.ValidateReads` | src/cairndb/engine/transactions.py:203-211 | success means that every read key showed the tag that was read at some moment of the call, whoever wrote; with lawful writes, that its content was the fold at the place the log had reached it then. Failure means that some key showed something else at some moment of the call |
| `Transactions.Manager.CheckCommittedSince` | src/cairndb/engine/transactions.py:213-221 | success means that none of the records it scanned, from the begin tail on, wrote a key of the read set; without a prune past the begin tail these are all. Failure means that a record after the begin tail did |
| `Transactions.Manager.Append` | src/cairndb/engine/transactions.py:223-231 | the record is alone in the commit it wins, and no commit from the first number tried to its own wrote what it read; a conflict leaves no record, and a commit from that number on wrote what it read; it fails otherwise only when every attempt was lost |
| `Transactions.Manager.Commit` | src/cairndb/engine/transactions.py:174-201 | nothing to write: no commit and no write. Otherwise an appended transaction is in the log once, and its reads are serial if and only if it read what the records up to the last commit out of its sight leave, whoever wrote what to the store, and with lawful writes if and only if these records agree with each key when it was compared; its window is clear if and only if what neither scan nor hook saw wrote nothing it read, and then the begin tail will do; nothing is out of sight with a warm committer and no prune past the begin tail; all that for good. The store is written only by applying that record, which undisturbed is all that happens; every other open transaction stays valid. A conflict is explained (`Explained`): a read key had changed, or a commit after the begin tail, or from the first number tried on, wrote what was read; a failed append lost every attempt; so a transaction against which nothing stands (`Clean`) is appended unless somebody else writes an object, appends a record or collides with its put during the call. An appended record is applied, unless it is pruned before that |
| `Transactions.Manager.Transact` | src/cairndb/engine/transactions.py:65-87 | the whole block with any program: all that was handed out is what the records before its own leave, and the program alone on that does exactly what the transaction did, if and only if the reads are what the records up to the last commit out of its sight leave and none was read twice differently; nothing is out of sight with a warm committer and no prune past the begin tail; a program that is not finished leaves no record, a finished one is always decided, and every refusal is explained |
| `Transactions.CleanIsNotRefused` | src/cairndb/engine/transactions.py:188-231 | nothing stands against a transaction if what it read is still there and no commit since its begin tail, or since the tail of the committer, wrote it: then it is refused only when somebody else interferes |
| `Transactions.ChecksIsolate` | src/cairndb/engine/transactions.py:190-192 | compare, scan and hook add up to the exact conditions of serial reads at the place in the log |
| `Transactions.WindowExactly` | src/cairndb/engine/transactions.py:213-247 | scanned range and hook range leave the window clear if and only if the commits between them wrote nothing that was read |
| `Transactions.WindowMakesSerial` | src/cairndb/engine/transactions.py:203-221 | with a clear window and lawful writes the reads are serial if and only if the records up to the begin tail agree with each of them, and each repeated read if and only if they agree with it |
| `Transactions.OneRecordEnds` | src/cairndb/engine/transactions.py:223-247 | a one-record batch wins with a clear window, is rejected because a commit from the first number tried on wrote what it read, or runs out of attempts; the hook never fails it otherwise |
| `Transactions.Manager.ApplyCommit` | src/cairndb/engine/transactions.py:251-272 | whoever interferes, its own writes are all mutations of all records of the commit, in order, and the marker last; undisturbed the store is that much further, the writes stay lawful, its keys are brought to the end of the record and no other key moves; a vanished commit is an error and nothing is written |
| `Transactions.MarkerComesLast` | src/cairndb/engine/transactions.py:263-272 | the writes of an application are the mutations of the commit in their order, and then the marker: whenever a marker is there, all of its record has been written |
| `Transactions.Manager.Recover` | src/cairndb/engine/transactions.py:274-303 | whoever interferes, its own writes are the full applications of exactly the records its listing lacks a marker for, in log order up to a gap, their number is the result, and every record up to there is marked; undisturbed, with only marked records pruned, the store is their replay; otherwise an unmarked record was there when it was read and vanished before it could be applied |
| `Transactions.CountIsOfTheUnmarked` | src/cairndb/engine/transactions.py:296-303 | the number of records that recovery applies is the number of those without a marker |
| `Transactions.Manager.RecoverAfterCrash` | src/cairndb/engine/transactions.py:274-303 | from a store whose appliers stopped anywhere one undisturbed run marks every record, leaves nothing for a second run, and leaves the fold of the whole log exactly when the last writes agree |
| `TxRecovery.RecoveryRestoresFold` | src/cairndb/engine/transactions.py:274-303 | with truthful markers and no unmarked record overtaken by a marked one, replaying the unmarked records gives the fold of the whole log |
| `TxRecovery.RecoveryExactly` | src/cairndb/engine/transactions.py:274-303 | exactly when recovery is right: iff under every key of an unmarked record the last unmarked mutation leaves what the last mutation of the whole log leaves |
| `TxRecovery.MarkedPrefixIsNeverOvertaken` | src/cairndb/engine/transactions.py:291-294 | a marked prefix meets the condition |
| `TxRecovery.InOrderIsCrashed` | src/cairndb/engine/transactions.py:251-270 | a store to which the log was applied in order up to any mutation is such a store |
| `TxRecovery.InOrderIsTruthful` | src/cairndb/engine/transactions.py:272-272 | markers put after the last mutation are truthful |
| `TxRecovery.OvertakenRecordIsResurrected` | src/cairndb/engine/transactions.py:251-258 | without the condition an old value comes back over a newer, marked one |
| `TxLiveRecovery.ReapplyingExactly` | src/cairndb/engine/transactions.py:10-12 | applying a record once more is harmless if and only if no later record overwrote one of its keys with something else |
| `TxLiveRecovery.LiveRecoveryExactly` | src/cairndb/engine/transactions.py:274-303 | recovery that listed the markers before the appliers finished: when it has applied its first record again, every record has its marker and the objects are the fold of the log if and only if that record was not overwritten; a later recovery would do nothing; going on to the end of the log restores the fold |
| `Cas.Register.PutIfAbsent` | src/cairndb/storage/base.py:184-208 | lands only on an absent key, and loses only to a present one |
| `Cas.Register.PutIfMatch` | src/cairndb/storage/filesystem.py:204-250 | lands only on content equal to what the tag stands for, even when tags are content hashes; loses only when the tag differs |
| `CasLoops.UpdateDocument` | src/cairndb/engine/coordination.py:536-577 | success: the function landed exactly once, on what it replaced; failure: it did not land, and giving up means others landed at every attempt; at most max_attempts conditional writes |
| `CasLoops.DocumentIsComposition` | src/cairndb/engine/coordination.py:536-577 | under any interleaving the document is the landed edits applied in landing order |
| `CasLoops.IncrementsAddUp` | src/cairndb/engine/coordination.py:536-577 | N landed increments of a counter created at 0 leave N |
| `CasLoops.AppendObject` | src/cairndb/storage/base.py:212-244 | true: this fragment landed once; false: it did not, and eight others did; at most eight conditional writes |
| `CasLoops.AppendsConcatenate` | src/cairndb/storage/base.py:212-244 | the object is the landed fragments, whole, in landing order |
| `CasLoops.ClaimKey` | src/cairndb/engine/coordination.py:69-97 | the winner keeps its own value, everyone else is handed the stored one; eight interferences before giving up |
| `CasLoops.OneClaimWins` | src/cairndb/engine/coordination.py:69-97 | without deletions one claim lands and everyone reads its value |
| `LeaseProtocol.EpochCountsAcquisitions` | src/cairndb/engine/coordination.py:321-358 | with no deletes the stored epoch is the number of landed acquisitions |
| `LeaseProtocol.Fenced` | src/cairndb/engine/coordination.py:180-224 | after an acquisition nothing lands on an earlier epoch, and no two acquisitions share one |
| `LeaseProtocol.StateIsComposition` | src/cairndb/engine/coordination.py:180-224 | the state is the composition of all landed state functions in landing order |
| `LeaseProtocol.PeriodHasOneHolder` | src/cairndb/engine/coordination.py:180-224 | between two acquisitions the epoch is fixed and the holder is one, or released for good |
| `LeaseProtocol.TakeoverNeedsReleaseOrExpiry` | src/cairndb/engine/coordination.py:174-178 | the next acquisition found the lease released, or expired by its own clock and open to stealing |
| `Lease.EpochsRise` | src/cairndb/engine/coordination.py:321-358 | a later landing replaces a document of an epoch at least as high |
| `Lease.Handle.TryPut` | src/cairndb/engine/coordination.py:203-221 | one pass: landed on the very document of the period, absorbed a cooperative write, or fenced |
| `Lease.Handle.GuardedPut` | src/cairndb/engine/coordination.py:180-224 | landed once on this period, or refused with nothing written; refused only if released, fenced or interfered with, twice if the handle was up to date; always when released or overtaken by a higher epoch; undisturbed it succeeds however stale the handle; at most two conditional writes |
| `Lease.Handle.Renew` | src/cairndb/engine/coordination.py:226-237 | extends the deadline and keeps whatever state is stored |
| `Lease.Handle.Write` | src/cairndb/engine/coordination.py:239-247 | replaces the state, a cooperative write included, and keeps the deadline of the handle |
| `Lease.Handle.UpdateState` | src/cairndb/engine/coordination.py:249-257 | applies the function to exactly the state it replaces |
| `Lease.Handle.Release` | src/cairndb/engine/coordination.py:259-270 | frees the lease with the epoch kept; afterwards every call of the handle is refused |
| `Lease.AcquireLease` | src/cairndb/engine/coordination.py:289-360 | one landing, over a document that was free, or expired at the time read in that attempt and open to stealing, with the epoch one higher; otherwise nothing landed: the lease is held, the state function raised on what is stored, or others landed eight times; at most eight conditional writes. Unless others land meanwhile, what is stored decides: a held lease is refused, a state function that raises on the stored state aborts, and anything else is acquired |
| `Lease.Attach` | src/cairndb/engine/coordination.py:381-431 | a handle exactly when the named holder owns an unexpired period; nothing is written |
| `Lease.CooperativeWrite` | src/cairndb/engine/coordination.py:447-489 | changes the state field only, on exactly the document it read; holder, epoch and deadline stay; at most ten conditional writes |
| `Folding.FoldToReaches` | src/cairndb/client/replay.py:145-147 | the recorded position of a projection is its last commit and the index of the last event in it, and there is none before the first commit |
| `Folding.GoingOnIsFold` | src/cairndb/client/projector.py:131-136 | going on from a projection gives the projection of more |
| `Folding.FoldIsEventByEvent` | src/cairndb/core/log.py:110-113 | commit by commit in transactions or event by event in one stream: the rows are the same |
| `Folding.ProjectionIsTrace` | src/cairndb/client/replay.py:119-153 | the projection law: there is a projection exactly if a trace leads from the prepared empty database over the stream of all events, where each handler turns the rows before its event, at that event's sequence number, into the rows after it and an event without a handler leaves them; its last rows are the rows of the projection; otherwise a trace leads to an event whose handler raises |
| `Folding.TraceIsProjection` | src/cairndb/client/replay.py:119-153 | conversely, the last rows of such a trace are those of the projection, so there is one |
| `Folding.BreakIsNoProjection` | src/cairndb/client/replay.py:135-141 | and if a trace leads to an event whose handler raises, there is none |
| `Folding.SlotIsInLog` | src/cairndb/core/log.py:110-113 | every slot of the stream is an event of the log with its own sequence number |
| `Folding.StreamRises` | src/cairndb/core/log.py:110-113 | sequence numbers rise strictly along the stream: no event comes twice or out of order |
| `Folding.ReadYourWrites` | src/cairndb/client/updater.py:135-174 | at or after an event's place, the event and all before it are in the rows, and nothing after it counts as before |
| `Folding.AppliedIsShown` | src/cairndb/client/updater.py:171-177 | conversely, the position of a projection is at or after the place of every event of the commits it has applied |
| `Folding.SlotIsInStream` | src/cairndb/core/log.py:106-118 | the place of an event orders it in the stream |
| `Folding.BrokenStaysBroken` | src/cairndb/client/replay.py:135-141 | a handler that fails once fails every projection beyond |
| `Folding.LeftoverIsCountedTwice` | src/cairndb/client/projector.py:201-206 | for counting handlers, a leftover database taken for an empty base never gives the projection |
| `Archives.MoveKeepsSound` | src/cairndb/storage/base.py:120-156 | appends, prunes, deletions, snapshots keep the log numbered and every snapshot a projection |
| `Archives.EveryOrderlyRunRetains` | src/cairndb/jobs/gc.py:57-71 | any number of janitors, builders and writers in orderly moves keep every kept snapshot usable |
| `Archives.RetainedHistoryIsUsable` | src/cairndb/jobs/gc.py:1-16 | from every kept snapshot the later commits are there and give what the whole unpruned log gives |
| `Archives.RetainedExactly` | src/cairndb/jobs/gc.py:57-71 | a move keeps retention if and only if it is orderly: no prune past the oldest snapshot, the newest never dropped, no snapshot published below the prune point |
| `Archives.LogStepIsMove` | src/cairndb/committer.py:245-321 | every step of the commit protocol is, to readers, nothing or one possible move |
| `Archives.LogRunIsRun` | src/cairndb/committer.py:245-321 | every run of the commit protocol is a possible run of the archive, with the same log at the end |
| `Archives.Archive.PutSnapshot` | src/cairndb/storage/base.py:120-127 | put-if-absent; losing leaves an equal snapshot |
| `Archives.Archive.DeleteSnapshotsBefore` | src/cairndb/storage/base.py:152-153 | undisturbed exactly the lower snapshots go, and their number is the result; never disorderly as long as a snapshot of that number or higher was published, and then none lower is left |
| `Archives.Archive.DeleteCommitsBefore` | src/cairndb/storage/base.py:148-149 | undisturbed exactly the lower commits go, and their number is the result; never disorderly as long as no snapshot is lower |
| `Retention.ChoiceIsKept` | src/cairndb/jobs/gc.py:59-66 | the chosen number is the lowest of the newest keep_snapshots |
| `Retention.CollectGarbage` | src/cairndb/jobs/gc.py:34-85 | refuses keep < 1 untouched; undisturbed it leaves exactly the newest snapshots and the commits above the oldest, with true counts; history stays retained as long as the others are orderly and none publishes below the oldest kept snapshot between the listing and the prune |
| `Replay.ApplyInTransaction` | src/cairndb/client/replay.py:119-153 | success: every event of the commit in order, each handler on the rows left by the event before it and with its own sequence number, events without a handler skipped, and the position of the last event; failure: up to an event whose handler raises on the rows before it, and the database is as it was |
| `Replay.ReplayOnto` | src/cairndb/client/replay.py:60-117 | a contiguous piece of the log, up to the end asked for or a gap; on failure the piece before the commit that fails |
| `Replay.ReplayFold` | src/cairndb/client/replay.py:60-117 | from a projection to a later projection |
| `Projector.BaseIsFold` | src/cairndb/client/projector.py:166-206 | the base is a projection of exactly the commits before the replay, unless a leftover file was taken for it |
| `Projector.Projector.HasNewCommits` | src/cairndb/client/discovery.py:44-66 | true exactly when the next number is in the bucket |
| `Projector.Projector.PrepareNewDb` | src/cairndb/client/projector.py:166-206 | which base, and after which commit |
| `Projector.Projector.ApplyUpdates` | src/cairndb/client/projector.py:113-164 | the visible database stays absent or the projection of what it records, goes forward if it is replaced, is untouched on failure, and reaches the tail on success unless pruned past; a failure is a handler that raises, or the latest snapshot deleted by somebody else since it was listed; behind the prune point nothing is found to do |
| `Projector.Projector.RebuildFromScratch` | src/cairndb/client/projector.py:208-242 | a projection again, at the tail, or no database at all on failure, for one of the same two reasons |
| `Projector.WaitForSequence` | src/cairndb/client/updater.py:135-190 | true exactly when the recorded position is at or after the target; false only after all polls; once an update was made, false for an event of the log only if the log is pruned past the projection; fails only for a handler that raises or a snapshot that somebody else deletes |
| `Projector.CaughtUpIsPast` | src/cairndb/client/updater.py:171-177 | a projection that is caught up is at or after every event of the log, unless the log is pruned past it |
| `ReadYourWrites.AckedIsShown` | src/cairndb/committer.py:264-268 | an acknowledged submission is, with everything before it, in every projection whose position is at or after its acknowledged place |
| `ReadYourWrites.WaitForAck` | src/cairndb/client/updater.py:135-174 | from the acknowledgement to the row: once the wait returns true, the visible rows are the fold of a stream that holds this very submission at its place, and everything before it; once an update was made it returns false only if the log is pruned past the projection |
| `Snapshots.BuildSnapshot` | src/cairndb/jobs/snapshot.py:69-120 | publishes the projection of a prefix under its last number; of the whole log, or up to end_at, when undisturbed and unpruned; fails for a failing handler or without a first commit |
| `Snapshots.AsOf` | src/cairndb/engine/projection.py:141-172 | a projection at or before the target; undisturbed, that of the target exactly when nothing between base and target was deleted; before the prune point it does not fail but comes out short; it stops at the target or a gap, and fails only for a handler that raises at or before the target or a base that somebody else deletes |
| `Snapshots.BestBase` | src/cairndb/engine/projection.py:158-159 | the highest snapshot at or before the target |
| `Snapshots.RetainedTargetsAreCovered` | src/cairndb/engine/projection.py:150-152 | with retention in force every target from the oldest snapshot on is covered |
| `Encoding.SequenceRoundTrip` | src/cairndb/core/types.py:36-46 | printing then parsing gives the sequence number back exactly when the commit is below 10^12 and the index below 10^6 |
| `Encoding.ParsedPrintsBack` | src/cairndb/core/types.py:36-46 | what parses, prints as the same text, up to one final newline |
| `Encoding.CanonicalForm` | src/cairndb/core/types.py:44-46 | the printed form is twelve digits, a colon and six digits, with the two numbers as their values |
| `Encoding.ParsesExactly` | src/cairndb/core/types.py:36-42 | a text parses to a number exactly when it is the printed form of that number, up to one final newline, with a commit of at least 1 and both parts within their widths |
| `Encoding.SequenceOrder` | src/cairndb/core/types.py:44-46 | text order is the order of (commit, index) |
| `Encoding.OrderEndsWithTheWidth` | src/cairndb/core/types.py:44-46 | the first number that is too wide sorts before the last one that fits |
| `Encoding.CappedIndexFits` | src/cairndb/committer.py:62-64 | the cap on a batch keeps every index within its width |
| `Encoding.KeyRoundTrip` | src/cairndb/storage/base.py:22-58 | a commit or snapshot key parses to its number exactly when the number is below 10^12 |
| `Encoding.KeyOrder` | src/cairndb/storage/base.py:28-35 | within a prefix keys sort as their numbers, and are equal only for equal numbers |
| `Namespacing.FoldersApart` | src/cairndb/engine/logs.py:43-57 | no key lies in the folders of two logs, or in two folders of one |
| `Namespacing.OtherViewsStay` | src/cairndb/engine/logs.py:43-111 | what one log does in one folder changes no answer about any other folder or log |
| `Namespacing.NamespacedStorage.Put` | src/cairndb/engine/logs.py:61-63 | put-if-absent on the abstract log of this name, and nothing outside its folder |
| `Namespacing.NamespacedStorage.Get` | src/cairndb/engine/logs.py:65-67 | what the abstract log holds |
| `Namespacing.NamespacedStorage.List` | src/cairndb/engine/logs.py:69-72 | exactly the numbers of the abstract log above `after`, ascending |
| `Namespacing.NamespacedStorage.DeleteBefore` | src/cairndb/engine/logs.py:74-81 | exactly the lower numbers leave the abstract log, counted, and nothing outside its folder changes |

## Left out

- Storage exceptions: a put that may or may not have landed, and reads that fail, are not modelled; a missing snapshot is.
- Cancelled callers: an append whose caller was cancelled breaks the delivery of the results of its batch; futures here are one-shot result cells.
- Sleeping, backoff and the batch wait: time passes as interference; waiting loops are bounded by a number of polls.
- Committer.Committer.Run: submissions arrive between two batches, not inside one; a batch never reads the queue, so nothing is lost by that.
- LogBucket.Bucket.ReadUntilGap: terminates because the other clients win finitely many commits (`budget`, any number).
- `created_at`, timestamps, msgpack, JSON and SQLite: serialization is injective, a database is its rows and its recorded position.
- Transactions.Manager.Append: the committer of the transaction log serves one record at a time under the commit lock; audit notes are carried but not interpreted.
- Transactions.Manager.Transact: one action after the other; a program that raises is one that is not finished after a number of actions, any number. Interference comes from other managers and from writers; transactions of one manager that interleave are in `TxProtocol`.
- TxProtocol.PutRecord: a rejected put without a visible winner is no step, since nothing changes; giving up is `Abandon`, possible at any time.
- Transactions.Manager.Recover: while others write, its own writes are exact but the store they lead to is not determined.
- LogBucket.Bucket.PutCommit: whether two conditional writers collide is up to the store; a store that may reject puts of absent numbers may do so any number of times.
- Validation of keys and arguments that only raises ValueError, and the Log, Document and Projection facades that only forward calls.
- Lease.Handle.Renew: nothing is promised about deadlines never going back; a handle keeps its own cached deadline.
- Lease.Handle.UpdateState: state functions that raise abort only an acquisition (`Aborted`); elsewhere they are total.
- CasLoops.AppendObject: the fallback loop, not the native appends that back ends put in its place.
- Projector.Projector.PrepareNewDb: an `init_schema` that raises is not modelled.
- Namespacing.NamespacedStorage.List: sequential; the interleavings of the commit calls are those of `LogBucket`. Keys are plain strings: on a file system the name `..` resolves to the root log, and listing skips every log whose name starts with a dot; the model captures neither, so `List` does not hold there for such names.
- Encoding.ParseSequence: ASCII digits only; the patterns of the source accept other decimal digits too.
- S3, GCS and Azure back ends, file locks, temporary files, reflink copies, the command line, configuration, logging, the handler registry and waiting for objects.
