# A verified model of evt's engine

This project models the Go half of evt, an event-sourcing engine, in Dafny and proves what its
commands, transactions, loads, rebuilds and canonical forms promise. `dafny verify dfyconfig.toml`
checks everything; there is nothing to run.

The parts, from the ground up:

- **Commits and the store.** `Commit` normalizes a commit, in-place fence compaction and unstable
  sorts included; `CommitRules` and `Utf8` say which commits and texts that accepts, without the sorting
  and the byte table. `StreamStore` gives the rows, the conditions under which a commit, a compaction
  and a catch-up snapshot take effect, and their relation to the true history of every stream.
- **Loads and transactions.** `Load` reads a snapshot and later the events after it, while other
  writers commit, snapshot and compact in between. `Transaction` is the read set, appends, fences
  and expectations of a multi-stream command as a class, and `TxRules` what its commit holds. `Serial` puts any number of them, with and
  without outcomes, into one run and proves that every run is serial in its history and its outcomes
  and that every stored snapshot is true. `SnapshotRuns` says when a run's commits take snapshots.
- **Exactly-once commands.** `Retry` has error trees, classification and back-off. `Outcomes` has the
  outcome row, settling and recovery, the attempt loop, and a store that is an arbitrary script of
  other writers, refusals and lost messages. What a caller reads, sends and waits for is kept as a
  trace, and the loops are specified by it.
- **Putting an aggregate back.** `DeepCopy` copies a cyclic, shared object graph and proves that a
  reset undoes whatever an attempt did.
- **Rebuilding views.** `Topology`, `CommitLog` and `Grouping` regroup stored events into commits in
  an order every stream agrees with. `Projection`, `Replay` and `Rebuild` fold projector operations
  into rows and prove that a rebuild reproduces the live rows; `Handover` is the case in which it
  refuses. `LiveRuns` joins the two halves: the commits of any run are the history a rebuild starts from,
  exactly when their commit IDs are unique. `RunStates` ties the states projectors see to the true history.
- **The rebuild fence.** `RebuildFence` is the protocol as conditional transactions on two items, with
  non-atomic reads and begins that land late; `MemFence` is the in-memory fence proved against it.
- **Runs that happen.** `Scenarios` exhibits runs of the engine in which something turns out not to hold.
- **Canonical forms.** `JsonNumber` and `JsonDocument` rewrite JSON numbers (section 6 of RFC 8259);
  `Digest` encodes a command's identity.

`Basics`, `Sequences`, `Order` and `Decimal` hold what these share: options, selections, the byte order
and the stable sort, decimal text.

## How the model is set up

- A Go string or byte slice is a sequence of chars, one per byte. Integers are unbounded; 64-bit and
  32-bit widths are written out where they matter (`Commit.MAX_INT`, `Retry.Wrap`, `Digest.U32`,
  `JsonNumber.FitsInt64`).
- Application code is a parameter: an aggregate is a `Machine`, a command a `Program` that decides from
  what it has read, a projector a function of a commit view. Clocks, jitter and back-end failures are
  arbitrary inputs. `Outcomes` takes the check every outcome passes as part of its `Engine`, which
  `EngineOf` sets to `Commit.OutcomeOK`.
- Assumed of the store, and only this: a commit is atomic and applies exactly under its conditions
  (go/repository.go:61-76, go/outcome.go:927-951); an indeterminate result is reported as ambiguous;
  compaction deletes only events a durable snapshot covers (go/compaction.go:19-26); a catch-up
  snapshot never lowers what the stored one covers and never passes the head
  (go/backends/dynamo/snapshot.go:66-118). That a snapshot payload reads back as the state it was
  written from, and an event as the fact it was written from, is assumed of the JSON encoding.

## What turned out not to hold

- A commit to the stream with the empty ID is accepted, and its receipt cannot be read back. IDs read
  back exactly for non-empty entity IDs (`Commit.ReceiptReadsBack`, `Commit.EmptyEntityIsAccepted`).
- A joined error whose engine fence comes before a caller's fence is retried as a conflict. The exact
  rule is the first fence of the tree (`Retry.ConflictExactly`, `Retry.EngineFenceHidesCallerFence`).
- A row handed from one stream to another is accepted live and refused by a replay
  (`Handover.HandedRowIsAcceptedLive`); the replay succeeds exactly when no row changed owner
  (`Rebuild.RebuildReproducesLiveRows`).
- A catch-up snapshot uses up the snapshot sequence its own command goes on to write, so the command's
  commit is refused after it exactly when it takes a snapshot of that stream
  (`SnapshotRuns.CatchUpRefusesOwnSnapshot`; a run in `Scenarios.OwnCatchUpRefuses`).
- Commit IDs are not unique. A commit carries its command's ID, and without outcomes a command ID is only
  checked against the commands each loaded stream shows (`LiveRuns.RepeatEscapesWindow`). One ID used on two
  streams is accepted, and the stored events of such a run cannot be regrouped
  (`Scenarios.ReusedCommandCannotBeRegrouped`), though go/projection.go:720-724 says that no live system produces such a log.
  IDs are unique exactly when each plain commit's is its own (`LiveRuns.StampedExactly`).
- The error for events that cannot be regrouped is documented as listing the commits involved in a cycle. It
  also lists every commit that only comes after one (`Grouping.ReportedExactly`).
- A single-aggregate command that writes no event records its outcome without a fence on what it read, so
  its decision can be stale when it is recorded (`Scenarios.UnfencedDecisionGoesStale`). A transaction, and a
  command that writes events, is always decided on the present state (`Serial.CommitIsSerial`).
- Planning a rebuild from two separate reads can report an invalid state that no single moment had
  (`RebuildFence.TornReadPlansInvalid`), exactly when the lock appeared after a settled generation was
  read or disappeared after an unflagged rebuild's generation was (`RebuildFence.InvalidPlanExactly`).
  Begin on DynamoDB reads and plans again after such a read (go/backends/dynamo/rebuild_fence.go:254-269).
- Settling a begin is exact unless another begin claims the same owner token at the same generation
  (`RebuildFence.HeldMeansApplied`, `RebuildFence.NotHeldIsFinal`); then the answer can be the other
  begin's (`RebuildFence.SharedOwnerMisleads`, `RebuildFence.SharedClaimComesBack`).
- The comment in go/numbers.go that a zero is `0` whatever its exponent does not describe the code: a
  zero is `0` exactly when its exponent covers its fraction digits, and one with too large a scale is
  refused (`JsonNumber.ZeroKeepsItsScale`; `0e-5` in `JsonNumber.SmallZeroKeepsDigits`, `0e-20000` in
  `JsonNumber.TinyZeroIsRefused`). The model follows the code.
- The canonical text of a number denotes the same number exactly when the number is zero or its
  exponent is not cut off (`JsonNumber.CanonicalDenotesTheSame`). Every storable literal of fewer than
  about a billion digits is such a number (`JsonNumber.StorableIsExact`); a longer one may not be
  (`JsonNumber.SaturationMisreadsHugeLiterals`).
- The digest encoding is injective only for lengths below 2^32 (`Digest.EncodingIsInjective`,
  `Digest.OversizedFieldsCollide`).

## Model

| member | source | states |
|---|---|---|
| `Commit.NormalizeCommit` | go/atomic.go:208-370 | Succeeds exactly for well-formed commits and then gives the canonical form, whatever the unstable sorts did; otherwise the error is of the first check that fails, and names the event, snapshot or fence that fails it. |
| `Commit.CheckEvents` | go/atomic.go:287-317 | The loop over sorted events accepts exactly when every stream is contiguous and well named, and leaves each stream's last event; an error is of the first wrong event of a stream and says what is wrong with it. |
| `Commit.CheckSnapshots` | go/atomic.go:319-327 | On any sorted permutation, accepts exactly when every snapshot covers its stream's last event and no stream has two; an error names one that does not, or a stream with two. |
| `Commit.KeepFences` | go/atomic.go:329-344 | Compacting the fence array in place while comparing neighbours accepts exactly the valid, unrepeated fences and keeps exactly those of unwritten streams; an error names a fence that is wrong as given. |
| `CommitRules.AcceptedExactly` | go/atomic.go:208-370 | A commit is accepted exactly when, as given: each event is named by its stream and sequence and follows the nearest earlier event of its stream, each snapshot is of its stream's last event, fences and streams do not repeat and are not reserved, and outcome, text and operations are storable. |
| `CommitRules.StreamsExactly` | go/atomic.go:287-317 | Comparing neighbours of the sorted events is comparing each event with the nearest earlier one of its stream, wherever it is. |
| `CommitRules.NothingElseChanges` | go/atomic.go:279-370 | The canonical form has the same events, snapshots, operations and outcome, exactly the fences of unwritten streams, each part in byte order, and a receipt of the written IDs. |
| `Commit.NormalizingIgnoresOrder` | go/atomic.go:249-253 | Reordering that keeps each stream's own order changes neither success nor result. |
| `Commit.NormalizingTwiceIsOnce` | go/atomic.go:253-370 | The canonical form is well formed and its own canonical form. |
| `Commit.StreamsAreContiguous` | go/atomic.go:306-312 | Each stream of a normalized commit is the input's events of that stream, numbered consecutively and of one type; the whole is sorted and a permutation. |
| `Commit.FencesGuardUnwritten` | go/atomic.go:329-344 | Every kept fence guards an unwritten stream, once, and no fence on an unwritten stream is lost. |
| `Commit.ReceiptReadsBack` | go/atomic.go:346-367 | The receipt names the written events in order, and each name reads back as its entity and sequence exactly when the entity ID is not empty. |
| `Commit.EventIDParsesBack` | go/outcome.go:753-763 | An event ID parses back exactly for a non-empty entity ID. |
| `Commit.ParsedIsEventID` | go/outcome.go:753-763 | Nothing but the canonical ID of an entity and a positive sequence parses. |
| `Commit.EmptyEntityIsAccepted` | go/atomic.go:288-304 | A commit to the empty stream ID is accepted though its receipt does not read back. |
| `Utf8.TextExactly` | go/outcome.go:586-598 | Text is accepted exactly when it is the encoding, by section 3 of RFC 3629, of Unicode scalar values other than U+0000. |
| `StreamStore.CommitKeepsStream` | go/backends/mem/repo.go:88-176 | An admitted commit appends exactly its events to each stream's history and keeps head, log and snapshot true. |
| `StreamStore.MaintenanceKeepsStream` | go/compaction.go:19-26 | Compaction of any covered events and a catch-up snapshot keep every stream's rows true to its history. |
| `StreamStore.CompactedExactly` | go/compaction.go:19-26 | A compaction deletes exactly the named events and leaves the others genuine and in order. |
| `StreamStore.StepKeepsInv` | go/backends/mem/repo.go:88-176 | Every step of the store keeps: heads are history lengths, stored events are genuine, only covered ones are missing, snapshots are folds. |
| `StreamStore.StepGrows` | go/outcome.go:927-951 | No step shortens a history or changes an outcome row. |
| `Load.ApplyEvents` | go/snapshots/helpers.go:36-70 | Applying stored events finds a state exactly when they continue the history without a gap and are accepted; the state is the fold of the history, the seen commands are theirs. A gap is reported where the events stop continuing the history, a refusal only when the true history does not fold. |
| `Load.CommandsExactly` | go/snapshots/helpers.go:36-70 | A command is seen exactly when it has an ID that one of the applied events carries. |
| `Load.LoadAggregate` | go/snapshots/store.go:81-139 | With any steps between the snapshot read and the event read, a load gives the fold of the first head events of the true history, with the commands of those after the snapshot, or an error: a gap only after another snapshot was written, a refusal only of a history that does not fold. |
| `Load.UndisturbedLoadReachesHead` | go/snapshots/store.go:81-139 | Without interference a load reaches the head and finds a state exactly when the whole history folds. |
| `Load.ReadStaysConsistent` | go/snapshots/store.go:81-139 | What was loaded stays a prefix state of the stream in every later world. |
| `Load.MaybeCatchUpSnapshot` | go/snapshots/store.go:423-463 | A catch-up snapshot is written exactly at the threshold, at the loaded head and above what is covered. |
| `Load.LoadedSnapshotIsHonest` | go/snapshots/store.go:423-463 | A snapshot of a loaded state is the fold of the events it covers, however late it lands. |
| `Load.SnapshotsAtMultiples` | go/serialization.go:230-241 | A batch is snapshotted exactly when it reaches or passes a multiple of the interval, and then whole. |
| `Load.BatchKeepsRecent` | go/serialization.go:230-241 | Batches snapshotted that way keep the newest snapshot at or past the last multiple. |
| `Transaction.SerializeEvents` | go/serialization.go:100-131 | Events are numbered from the head with canonical IDs. |
| `Transaction.SerializedFold` | go/serialization.go:100-131 | Folding the serialized events after a history is applying the facts to its state. |
| `Transaction.Tx.Read` | go/snapshots/transaction.go:72-106 | Adds a loaded stream once; a failed load consumes the transaction. Each refusal is told apart. |
| `Transaction.Tx.Append` | go/snapshots/transaction.go:110-136 | Appends exactly when every event has the stream's type and is accepted, keeping the state the fold of what is pending; otherwise consumes the transaction, and the error is of the first event that stops it. |
| `Transaction.Tx.AddFence` | go/snapshots/transaction.go:142-154 | Stamps the fence as the caller's and drops it for a stream already read. |
| `Transaction.Tx.Expect` | go/snapshots/transaction.go:167-196 | Records one non-negative head per stream and tells each refusal apart. |
| `Transaction.Tx.StaleVersions` | go/snapshots/transaction.go:200-219 | Reports exactly the expected heads that differ from the loaded ones, or that a stream was never read. |
| `Transaction.Tx.FenceReads` | go/snapshots/transaction.go:425-445 | A rejection carries a fence for every read and the caller's fences of unread streams; which those are is `Transaction.FencesExactly`. |
| `Transaction.Tx.Prepare` | go/snapshots/transaction.go:449-512 | Every read is written or fenced, in read order; a command already seen is refused. Its fences are those of `Transaction.FencesExactly`. |
| `Transaction.FencesExactly` | go/snapshots/transaction.go:425-512 | A fence is in the commit exactly when the caller stamped it on a stream the transaction did not read, or it is the engine's own, not caller-stamped, at the loaded head of a read that is not written. |
| `Transaction.DecisionLeadsTo` | go/snapshots/transaction.go:329-421 | The outcome is the decision's, except that an acceptance with an unmet expectation is a rejection with the stale code; events are committed exactly for a met acceptance or a rejection with events. |
| `TxRules.WellFormedExactly` | go/snapshots/transaction.go:329-512 | The canonicalizer takes a transaction's commit exactly when no stream read is reserved, the caller's fences of other streams are acceptable and unrepeated, and a recorded outcome and its texts can be stored. |
| `TxRules.EventsExactly` | go/serialization.go:100-131 | A commit that takes effect holds, for each stream read, one event for each appended fact, numbered on from the loaded head and named by it, and no others. |
| `TxRules.SnapshotsExactly` | go/snapshots/outcomes.go:669-697 | It holds exactly the snapshots due: the batch reaches or passes a multiple of its type's interval, or the default one, and the snapshot is small enough; each is the next after the loaded one and of the state with everything appended. |
| `Transaction.Stage` | go/snapshots/outcomes.go:669-697 | One stream's part of a commit: a fence, or its events and a snapshot when the interval is crossed. |
| `Transaction.Tx.Commit` | go/snapshots/transaction.go:225-260 | A commit without outcomes consumes the transaction and commits exactly the prepared result. |
| `Transaction.Tx.Finish` | go/snapshots/transaction.go:329-396 | Consumes the transaction; an acceptance with an unmet expectation becomes a fenced, event-free rejection, each decision leads to exactly its commit, and each refusal is told apart. |
| `Transaction.ReadsAreCurrentAtCommit` | go/snapshots/transaction.go:225-396 | When a commit applies, a decision's or a plain one, every stream read, written or not, is at exactly the head it was loaded at. |
| `Serial.RunKeepsInvariant` | go/snapshots/store.go:315-354 | In every world of every run of concurrent transactions with and without outcomes, compactions and catch-ups, rows are true to the history and every snapshot ever stored is the fold of what it covers. |
| `Serial.CommitSawCurrent` | go/snapshots/transaction.go:449-512 | At commit time an execution saw every stream it read at its end. |
| `Serial.CommitIsSerial` | go/snapshots/transaction.go:225-396 | A commit's effect on the history and the outcome rows is its program run alone at that moment, stale expectations and the receipt included. |
| `Serial.EveryRunIsSerial` | go/snapshots/transaction.go:225-396 | Every run leaves the history and the outcomes of its committed programs run one at a time in commit order, each with its command not yet answered. |
| `Serial.SerialRunIsDetermined` | go/snapshots/transaction.go:225-396 | That serial run has only one result. |
| `Serial.AdmittedExactlyWhenCurrent` | go/backends/mem/repo.go:339-424 | A commit, with or without an outcome, applies exactly when its command has no outcome, every stream read is at its loaded head, every fence the caller stamped on another stream has its head, and every stream due a snapshot has the one it was loaded with. |
| `Serial.CallerFenceIsCommitted` | go/snapshots/transaction.go:425-512 | A fence on a stream the transaction did not read is in its canonical commit exactly when the program stamped it. |
| `Serial.OneCommitPerCommand` | go/backends/mem/repo.go:127-133 | No run has two commits with the outcome of one command. |
| `SnapshotRuns.SnapshotsStayNear` | go/snapshots/store.go:54-77 | A stream read as one type with a positive interval, whose snapshots are never too large, stays in every run less than that interval ahead of its snapshot. |
| `SnapshotRuns.CrossingTakesSnapshot` | go/snapshots/outcomes.go:669-697 | A commit carries a snapshot of a stream it read exactly when its batch takes the stream to or past a multiple of its type's positive interval and the snapshot is small enough. |
| `SnapshotRuns.UnreadIsUntouched` | go/snapshots/transaction.go:449-512 | A stream the transaction did not read gets neither events nor a snapshot. |
| `SnapshotRuns.CatchUpRefusesOwnSnapshot` | go/snapshots/store.go:423-463 | A load's own catch-up can land before an admitted commit, which is still admitted after it exactly when it takes no snapshot of that stream. |
| `Scenarios.OwnCatchUpRefuses` | go/snapshots/store.go:423-463 | A run in which a load's catch-up lands and its own command's commit, admitted before, is refused. |
| `LiveRuns.RunIsLiveHistory` | go/projection.go:749-821 | The commits of any run account for every event of the history and are a live history exactly when their IDs are unique and not empty. |
| `LiveRuns.StampedExactly` | go/atomic.go:411-420 | Commit IDs are unique in a run exactly when no plain commit that wrote events shares its ID with another one; decided commits never share theirs. |
| `LiveRuns.RepeatEscapesWindow` | go/snapshots/transaction.go:449-512 | A command ID a run commits twice was, on every stream the later commit read, already covered by the snapshot its load started from. |
| `LiveRuns.ScanIsLog` | go/projection.go:749-821 | The stored events of a store no compaction touched, read in any order, are the log of that live history, so a rebuild from them applies. |
| `RunStates.ProjectorsSeeHistory` | go/projection.go:178-189 | Beside any commit of any run, the state projectors see of a written stream is the fold of the stream's whole true history up to and including that commit. |
| `RunStates.StateIsOfHistory` | go/projection.go:178-189 | After any number of steps, the state folded from the logged commit views is the fold of the stored history of the stream. |
| `Scenarios.ReusedCommandCannotBeRegrouped` | go/atomic.go:411-420 | A run of three plain commits, two under one command ID, whose stored events have a cyclic commit graph. |
| `Scenarios.UnfencedDecisionGoesStale` | go/snapshots/outcomes.go:548-558 | A run in which a recorded decision without events differs from what its program decides at that moment. |
| `Retry.ConflictExactly` | go/snapshots/retry.go:196-244 | A failure counts as a conflict exactly when its tree holds one and no internal, load or projector failure and no error the outcome row answers, and its first fence conflict is not the caller's. |
| `Retry.DelayExactly` | go/snapshots/retry.go:196-244 | A failure is retried without counting as a conflict exactly when it is a failed load that conflicted or was transient, or is transient itself and neither a conflict nor an error to return at once. |
| `Retry.TransientExactly` | go/policy/classification.go:24-52 | An error is transient exactly when its first classified error says so and every begin of unknown result is inside it, or when nothing classifies it, no begin is unknown and a rebuild refused. |
| `Retry.PrepareFailureRetriedExactly` | go/snapshots/execute.go:92-114 | A failed Prepare is retried exactly when the read it passed on failed for a reason worth retrying, and it is such an error itself that holds none to return at once. |
| `Retry.CallerFenceIsNeverAConflict` | go/snapshots/retry.go:240-244 | A caller's fence no engine fence precedes is never retried as a conflict. |
| `Retry.EngineFenceHidesCallerFence` | go/snapshots/retry.go:240-244 | A joined error with the engine's fence first is a conflict in spite of the caller's fence. |
| `Retry.PrepareFailureIsNoConflict` | go/snapshots/execute.go:92-114 | A failed read or an application error from Prepare never exhausts into a rejection. |
| `Retry.DoubleUpTo` | go/policy/retry.go:17-27 | Doubling gives min(base doubled n times, ceiling) in spite of 64-bit wrap-around. |
| `Retry.ExponentialJitterDelay` | go/policy/retry.go:9-46 | The delay lies between half the back-off and the back-off for any jitter function, and jitter in range is kept. |
| `Retry.Delay` | go/snapshots/retry.go:106-125 | Each wait is half the policy's back-off plus its jitter kept in range, under the ceiling; an immediate policy waits nothing. |
| `Outcomes.Store.Land` | go/backends/mem/repo.go:127-133 | A commit's outcome applies exactly when its command has no row. |
| `Outcomes.Reread` | go/snapshots/outcomes.go:972-990 | Reading the row answers with it, with the reuse of another command's ID, or says there is none. |
| `Outcomes.Recover` | go/snapshots/outcomes.go:914-967 | The recovery is exactly a number of polls with growing sleeps between them, at most the window in all, and stops at the first poll after which the window is over or a deadline cuts in; a row that exists and can be read is the answer, and an absent one, absent at the last poll, stays ambiguous. |
| `Outcomes.SleepsFillWindow` | go/snapshots/outcomes.go:934-966 | The sleeps of a recovery add up to its doubling delays, cut off at the window. |
| `Outcomes.DelaysExactly` | go/snapshots/outcomes.go:20-23 | The delays are 50 milliseconds, doubled up to 800, and then a second each. |
| `Outcomes.Settle` | go/snapshots/outcomes.go:857-911 | By what made the commit fail: a lost race is answered by the row, an unknown result by polling for it, and a refusal by the row if there is one and else by the refusal itself; every other failure is handed back unread. The answer is sound, and the row is at most read. |
| `Outcomes.RefusalIsHandedOn` | go/snapshots/outcomes.go:857-911 | A refusal no row answers is the answer as it was reported, so that its own kind decides whether the command is retried. |
| `Outcomes.CauseExactly` | go/snapshots/outcomes.go:857-911 | What polling reports is what the first ambiguous error of the tree wraps. |
| `Outcomes.CommitOutcome` | go/snapshots/outcomes.go:807-846 | A well-formed outcome is sent once and then at most read; a first execution answers with exactly it, and with messages delivered there is always an answer. |
| `Outcomes.StaleFence` | go/snapshots/transaction.go:417-421 | Sends the given rejection without events, once, or answers with the row that is there. |
| `Outcomes.AttemptOnce` | go/snapshots/outcomes.go:511-567 | The handler does not run once a row exists; an attempt that runs sends its decision and settles it, and sends the caller-fence rejection exactly after a failed caller's fence, whose settling is then the answer. |
| `Outcomes.Execute` | go/snapshots/retry.go:259-301 | Attempts are made, with exactly the policy's waits, until the first final one. The retries-exhausted rejection is sent exactly after a final genuine conflict with attempts or time run out, and else nothing is and the last attempt's answer is returned; every answer is the one row under the caller's digest, for every script of other writers and failures. |
| `Outcomes.AttemptsExactly` | go/snapshots/retry.go:102-301 | In the policy's own numbers: at least one and at most the maximum of attempts, all of them while failures are worth retrying and neither a deadline nor the caller cuts in; another attempt follows exactly while the failure is worth it and attempts, time and the caller allow; and the engine's rejection ends exactly a conflict for which attempts or time ran out. |
| `Outcomes.MarksAreRemoved` | go/snapshots/retry.go:274-309 | The caller gets its own error back: the loop's marks are taken off and other errors are not touched. |
| `Outcomes.EngineRejects` | go/snapshots/transaction.go:411-421 | Both of the engine's rejections are rejections without events under the configured code, and differ. |
| `Outcomes.Judge` | go/snapshots/retry.go:264-300 | What follows an attempt: another after the delay, its answer, the recorded rejection, or the interrupted wait. |
| `Outcomes.AnswersAreFinal` | go/snapshots/retry.go:196-244 | A command that has its answer, its own or another command's, is not attempted again. |
| `Outcomes.OneAnswerPerCommand` | go/snapshots/outcomes.go:761-803 | Any two answers for one command ID, at any moments, are the same row, and different digests never both own it. |
| `Outcomes.RejectionExcludesEvents` | go/snapshots/transaction.go:410-421 | Once a rejection without events is the answer, no commit of that command ever writes events. |
| `Outcomes.RowsAreForever` | go/outcome.go:927-951 | A row once written is the row ever after. |
| `DeepCopy.Memory.CopyValue` | go/snapshots/outcomes.go:372-459 | Copying a value of a possibly cyclic graph terminates, copies each node once and leaves every existing node unchanged. |
| `DeepCopy.Memory.CopyAll` | go/snapshots/outcomes.go:372-475 | The contents of a node are copied with references renamed and unexported ones kept. |
| `DeepCopy.Memory.Capture` | go/snapshots/outcomes.go:343-357 | The saved copy has the aggregate's shape, shares no node with it but the root, and leaves it untouched. |
| `DeepCopy.Memory.Attempt` | go/snapshots/outcomes.go:511-567 | Whatever an attempt does to what the aggregate reaches, the saved copy is intact and out of reach. |
| `DeepCopy.Memory.Reset` | go/snapshots/outcomes.go:355-357 | A reset gives back the captured graph value by value: data as it was, references to the images of their targets, unexported references kept, on nodes no earlier attempt has seen. |
| `DeepCopy.ResetRestores` | go/snapshots/outcomes.go:343-357 | A copy of the saved copy put at the root is an isomorphic image of the original graph. |
| `Grouping.GroupCommits` | go/projection.go:749-821 | Regrouping succeeds exactly when the next-commit graph is acyclic, and gives one view per commit along an order every stream agrees with. |
| `Grouping.Unfinished` | go/projection.go:824-836 | The commits reported are those left waiting, by the ID of their first event. |
| `Grouping.ReportedExactly` | go/projection.go:816-836 | The error lists, in byte order and once per commit, exactly the commits on a cycle of the next-commit graph or behind one. |
| `Grouping.LeastEventComesNext` | go/projection.go:793-862 | Of the commits that wait for nothing, the one holding the least (entity ID, sequence) of all their events comes next. |
| `Grouping.BuildGroups` | go/projection.go:753-777 | Events sharing a commit ID form one group, an event without one is a group of its own. |
| `Grouping.BuildEdges` | go/projection.go:779-791 | The edges are exactly the next-commit pairs of each stream, and the counters count them. |
| `Grouping.GroupingIgnoresInputOrder` | go/projection.go:749-821 | For distinct (entity, sequence) pairs the result is the same for every permutation of the input. |
| `Topology.Drain` | go/projection.go:793-814 | Draining the heap follows the least-key topological order until nothing is ready. |
| `Topology.CompleteIffAcyclic` | go/projection.go:793-821 | The drained order is complete exactly when the graph has no cycle. |
| `Topology.LeftOutExactly` | go/projection.go:793-836 | The nodes the order leaves out are exactly those on a cycle or reached from one. |
| `Topology.EdgesPointForward` | go/projection.go:793-814 | Every edge points forward in a complete order. |
| `Topology.GreedyUnique` | go/projection.go:838-862 | With distinct keys there is only one such order. |
| `CommitLog.EventsConserved` | go/projection.go:749-821 | On success every event comes back exactly once. |
| `CommitLog.StreamsAgree` | go/projection.go:778-791 | The order of the views agrees with the sequence of every stream. |
| `CommitLog.OneViewPerCommit` | go/projection.go:749-776 | No two views share a non-empty commit ID. |
| `CommitLog.ViewCarriesID` | go/projection.go:691-725 | A view carries the commit ID of each of its events. |
| `CommitLog.StreamsSplit` | go/projection.go:691-725 | Splitting a commit's events into streams keeps every event and each stream's order. |
| `CommitLog.StoredExactly` | go/projection.go:700-707 | A stored event is the event with its command as causation and an empty extensions map where none were given. |
| `Order.ByteOrder` | go/atomic.go:372-381 | The order of IDs is byte order: a proper prefix first, else by the first difference. |
| `CommitLog.MembersFollowCommits` | go/projection.go:759-777 | Two events share a group exactly when they share a commit. |
| `Projection.CheckViewsExact` | go/projection.go:476-510 | The check passes exactly when every operation is sound and no row is targeted twice. |
| `Projection.ProjectionIsSound` | go/projection.go:570-686 | Every operation of a commit is sound, owned by a stream the commit wrote, and alone on its row. |
| `Projection.ProjectionIsExact` | go/projection.go:570-686 | A commit projects exactly when every projector succeeds, every operation is sound and owned by a written stream the projector declares, and no two share a row; and then to every operation of every projector, once, in projector and operation order. |
| `Projection.ProjectionErrorIsReal` | go/projection.go:476-686 | Every error is real: the named projector failed, the named operation is invalid, not owned, reserved or too long, or the two named ones, in order, are on one row. |
| `Projection.ShownExactly` | go/projection.go:611-642 | A projector can tell two commits apart exactly by what its kind may see: without declared types each stream's ID, type and state; with them also the commit ID, and events and state of the declared types only. What it sees is the commit's own. |
| `Projection.OperationExactly` | go/projection.go:483-553 | What makes an operation sound, short enough and unreserved, field by field. |
| `Projection.NoEventsNoOperations` | go/projection.go:570-609 | A commit that wrote no event projects to nothing. |
| `Replay.ReplayViews` | go/projection.go:888-939 | Succeeds exactly when every commit projects and no row has two owners, and gives the sorted rows the operations fold to; otherwise the error is of the first commit that does not project or shares a row, and names the row and both owners. What a commit projects to is `Projection.ProjectionIsExact`. |
| `Replay.ApplyCommit` | go/projection.go:902-922 | One commit's operations are folded in order; the first on a row of another owner stops the replay and is named. |
| `Replay.ListRows` | go/projection.go:925-938 | The rows are listed by key, each once. |
| `Replay.ListingAscends` | go/projection.go:925-938 | The listing ascends by pk, then by sk, in byte order. |
| `Replay.RowListingUnique` | go/projection.go:925-938 | The rows have one sorted listing, so equal rows give equal results. |
| `Replay.RowIsLastOp` | go/projection.go:902-922 | A row is what the last operation on it left. |
| `Replay.RowOpsFromWriters` | go/projection.go:659-686 | With one owner, the operations on a row come from the owner's commits alone. |
| `Replay.ReplayIsConfluent` | go/projection.go:888-939 | Two commit orders every stream agrees with replay to the same rows, or are both refused. |
| `Rebuild.SerialLogIsOrdered` | go/projection.go:749-821 | Any log of serial commits with unique IDs can be ordered. |
| `Rebuild.RegroupedAgreesWithLive` | go/projection.go:749-821 | Regrouping such a log gives the live views in an order every stream agrees with. |
| `Rebuild.StatesKeepAgreement` | go/projection.go:691-725 | Giving each view its streams' states does not depend on which agreed order is used. |
| `Rebuild.LiveRowsAreFolded` | go/backends/mem/views.go:54-92 | Accepted commits leave exactly the rows their operations fold to. |
| `Rebuild.CommitWritesRows` | go/backends/mem/views.go:54-92 | A commit is accepted exactly when it projects and every operation finds its row as it asks and its owner's, and it then leaves each of those rows as put or gone and every other row as it was. |
| `Rebuild.RebuildReproducesLiveRows` | go/projection.go:888-939 | From the stored events in any order, regrouping succeeds, the replay succeeds exactly when no row changed owner, and its rows are the live rows. |
| `Rebuild.RebuildRows` | go/projection.go:749-939 | A whole rebuild of a live log, step by step, gives the live rows. |
| `Handover.HandedRowIsAcceptedLive` | go/projection.go:864-939 | Three commits and one projector whose commits are accepted live and whose row has two owners, so that the rebuild refuses. |
| `RebuildFence.RunInvariant` | go/rebuildfence.go:122-162 | In every run: the generation never decreases, a held lock's generation is odd and its fencing token, odd without a lock is flagged, even has neither. |
| `RebuildFence.BeginLandsOnObserved` | go/backends/dynamo/rebuild_fence.go:326-383 | A begin that lands was planned on the generation it finds. |
| `RebuildFence.HolderFollowsGeneration` | go/rebuildfence.go:122-162 | While the generation stays, the holder stays. |
| `RebuildFence.HolderWasBegun` | go/rebuildfence.go:122-162 | Every held lock was put by a begin of the run. |
| `RebuildFence.DisplacedLeaseIsDead` | go/rebuildfence.go:122-162 | A displaced lease never renews, writes or ends again, even under the same owner token. |
| `RebuildFence.GuardedWritesAreOrdered` | go/backends/dynamo/rebuild_fence.go:556-608 | Guarded writes land in fencing-token order. |
| `RebuildFence.CommitAdmittedExactlyWhenSettled` | go/backends/dynamo/rebuild_fence.go:85-92 | A commit passes the lock check exactly when the generation is settled. |
| `RebuildFence.NoCommitBeforeEnd` | go/rebuildfence.go:122-162 | No commit lands between a begin and the end that settles it. |
| `RebuildFence.SnapshotPlansAreValid` | go/rebuildfence.go:426-463 | Planning from one reachable state never reports it invalid. |
| `RebuildFence.InvalidPlanExactly` | go/rebuildfence.go:426-463 | Two separate reads plan as invalid exactly when the lock appeared after a settled generation was read or disappeared after an unflagged one; the generation has then moved. |
| `RebuildFence.TornReadPlansInvalid` | go/rebuildfence.go:426-463 | Two separate reads can plan as invalid: an end between them leaves an odd, unflagged, unlocked pair. |
| `RebuildFence.TakeoverDisplacesOnlyExpired` | go/rebuildfence.go:426-463 | A begin that lands on a held lock finds its expiry before the time it was planned at, and then holds the lock. |
| `RebuildFence.PlansExactly` | go/rebuildfence.go:426-463 | Which plan two reads give, in numbers: held exactly on an odd generation with a lock whose expiry is not before now, and the planned generation is the next odd one. |
| `RebuildFence.GuardedWriteIsLive` | go/backends/dynamo/rebuild_fence.go:556-608 | A guarded write that lands is the holder's, before the second its lease expires. |
| `RebuildFence.LandedLeaves` | go/backends/dynamo/rebuild_fence.go:326-554 | What each landed transaction leaves in both items, in numbers. |
| `RebuildFence.LandsExactly` | go/backends/dynamo/rebuild_fence.go:385-608 | At any point of a run a renewal and an end land exactly for the holder, a write before its expiry, a force-release for the owner at the generation seen, a commit when the generation is even. |
| `RebuildFence.BeginCannotLand` | go/rebuildfence.go:85-101 | Once the generation left the observed value the begin can never land. |
| `RebuildFence.HeldMeansApplied` | go/rebuildfence.go:85-101 | Held and settled: a begin of this lease landed before the lock was read, and it is this one unless another begin claims the same owner at the same generation. |
| `RebuildFence.NotHeldIsFinal` | go/rebuildfence.go:85-101 | Not held and settled: this begin never lands, and unless another begin claims the same owner at the same generation the lease is not held then nor ever after. |
| `RebuildFence.UnsettledIsOpen` | go/rebuildfence.go:85-101 | Not settled: the begin had not landed, and can land there exactly when it plans no takeover or the lease to take over is held and expired. |
| `RebuildFence.SharedOwnerMisleads` | go/rebuildfence.go:85-101 | When another begin claims the same owner at the same generation, held can be the other begin's. |
| `RebuildFence.SharedClaimComesBack` | go/rebuildfence.go:85-101 | In that case a lease settled as not held can come back as the other begin's. |
| `RebuildFence.OwnTokenMayBeReused` | go/rebuildfence.go:85-101 | A worker that begins, ends and begins again under its own token keeps both claims its own. |
| `RebuildFence.EpochReadIsSafe` | go/rebuildfence.go:497-551 | A read at an epoch is accepted exactly when the epoch was settled and nothing but commits landed during it. |
| `RebuildFence.EpochAnswers` | go/rebuildfence.go:497-551 | Each answer of a read at an epoch says what it must of the two generations: which was odd, or which even ones differ. |
| `MemFence.LeaseSeconds` | go/rebuildfence.go:374-385 | Leases round up to whole seconds; shorter ones are refused. |
| `MemFence.Fence.Unsettled` | go/backends/mem/rebuild.go:31-33 | Refuses commits exactly when the protocol's lock check does. |
| `MemFence.Fence.Begin` | go/backends/mem/rebuild.go:79-103 | Refuses exactly while the lock's expiry is not before now, and otherwise holds the lock at the next odd generation until the lease's seconds are over, as the protocol's begin transaction does; never reports an invalid state. |
| `MemFence.Fence.Renew` | go/backends/mem/rebuild.go:111-130 | Renews exactly the held lease, to the new expiry. |
| `MemFence.Fence.End` | go/backends/mem/rebuild.go:133-152 | Ends exactly the held lease: no lock, the next generation, no flag. |
| `MemFence.Fence.ForceRelease` | go/backends/mem/rebuild.go:155-174 | Releases exactly the named owner's lock, two generations on and flagged. |
| `MemFence.Fence.WriteViews` | go/backends/mem/rebuild.go:177-200 | Writes exactly under a held lease before its expiry. |
| `JsonNumber.ParseJSONNumber` | go/numbers.go:163-197 | Every well-formed literal is parsed into its sign, digits, exponent and first significant digit. |
| `JsonNumber.ParseExponent` | go/numbers.go:200-218 | The exponent is read exactly, saturating at the cap. |
| `JsonNumber.SaturationIsHarmless` | go/numbers.go:199-244 | Within the digit bound saturation changes neither verdict nor text. |
| `JsonNumber.SaturationMisreadsHugeLiterals` | go/numbers.go:199-218 | Past the bound saturation changes the verdict: a run of zeros hides the cut-off part of the exponent. |
| `JsonNumber.FitsInt64` | go/numbers.go:181-186 | For literals of fewer than 2^62 digits no intermediate value leaves 64 bits. |
| `JsonNumber.CanonicalDenotesTheSame` | go/numbers.go:258-309 | For every well-formed literal the canonical text denotes the same rational exactly when it is zero or its exponent is not cut off. |
| `JsonNumber.StorableIsExact` | go/numbers.go:199-244 | Every storable literal within the digit bound keeps its value. |
| `JsonNumber.ZeroKeepsItsScale` | go/numbers.go:235-309 | A zero is written `0` exactly when its exponent covers its fraction digits, and refused exactly when the digits left exceed the scale. |
| `JsonNumber.SmallZeroKeepsDigits` | go/numbers.go:274-296 | `0e-5` is stored as `0.00000`. |
| `JsonNumber.TinyZeroIsRefused` | go/numbers.go:235-244 | `0e-20000` is refused. |
| `JsonNumber.CanonicalIsValid` | go/numbers.go:258-309 | It is a well-formed literal with no exponent, leading zero or sign on zero, of the precomputed length and with exactly the fraction digits its exponent leaves. |
| `JsonNumber.StorableExactly` | go/numbers.go:235-244 | A literal is refused exactly when its canonical text has more than 16383 digits after the point or 131072 before it. |
| `JsonNumber.CanonicalIsFixed` | go/numbers.go:258-309 | It is its own canonical text and stays storable. |
| `JsonNumber.ChangesExactly` | go/numbers.go:81-116 | The cheap test for a changing literal is exact. |
| `JsonNumber.AppendCanonical` | go/numbers.go:274-296 | Appends exactly the canonical text. |
| `JsonNumber.PrintIsInjective` | go/numbers.go:163-197 | A text is the text of one literal only. |
| `JsonDocument.ScanJSONNumbers` | go/numbers.go:119-153 | The scanner's runs concatenate back to the input, whatever it is. |
| `JsonDocument.RewritesExactlyTheNumbers` | go/numbers.go:119-153 | In a valid document the runs find exactly its numbers, escaped strings included, and rewriting keeps every other byte. |
| `JsonDocument.CanonicalNumbersSize` | go/numbers.go:81-116 | The size is the rewritten document's, the flag says whether it differs, and a number that cannot be stored is found. |
| `JsonDocument.CanonicalNumbers` | go/numbers.go:50-77 | Gives the canonical document, or says exactly why not: a number that cannot be stored, or a result over the limit. |
| `JsonDocument.CanonicalMeansTheSame` | go/numbers.go:50-77 | The canonical document has the same shape and strings, and numbers that denote the same exactly when every number of the document is zero or keeps its exponent. |
| `JsonDocument.CanonicalIsFixed` | go/numbers.go:50-77 | Canonicalizing twice is canonicalizing once. |
| `JsonDocument.UnchangedRuns` | go/numbers.go:50-77 | When nothing changes, rewriting would be the identity. |
| `Digest.CanonicalDigestBytes` | go/outcome.go:1001-1031 | Writes the canonical bytes, which decode back when lengths fit 32 bits. |
| `Digest.DecodesBack` | go/outcome.go:1001-1031 | The decoder inverts the length-prefixed form. |
| `Digest.DocumentedLayout` | docs/reference/storage-format.md:1091-1170 | The bytes of the documented worked example, and of every identity of its shape, are the documented ones. |
| `Digest.EncodingIsInjective` | go/outcome.go:1001-1031 | Equal bytes exactly for equal command type, set of targets, payload and principal. |
| `Digest.ListedIsCanonical` | go/outcome.go:1002-1004 | Sorting and compacting targets depends on their set only. |
| `Digest.OversizedFieldsCollide` | go/outcome.go:1026-1031 | At 2^32 bytes different identities encode alike. |

## Left out

- The DynamoDB and PostgreSQL back-ends, beyond the conditions of commits, snapshots and the rebuild fence.
- The ranking of drift, gap and conflict errors in the in-memory head check: the model says when a commit applies, not which refusal is reported first; feature manifests, retention and legacy projector operations are not modelled.
- Byte budgets of a commit (CommitBudget, item sizes): sums and limits with easy contracts; whether a snapshot fits is an input.
- Text rules outside commits and view operations, error messages, logging.
- SHA-256, JSON encoding and reflection: the digest result is about the bytes, and deep copies are of an explicit graph.
- Principal-bound outcome lookups (ResolveCommandForPrincipal), metadata defaults other than those regrouping needs.
- Stream adapters, view codecs, the stream-heads migration, TTL expiry, the Rust crates and the website.
- DeepCopy.Memory.CopyValue: storage is one node per (type, address, length), so overlapping slices and pointers into a struct are separate nodes, as in the source; map keys and values are a node's contents in some order.
- Outcomes.Execute: the number of attempts in the rejection's details is not modelled; time is an input, so the wait between attempts is a delay and a flag, and a read's own time-out is one of the ways it fails.
- Commit.NormalizeCommit: rejection details, the encoded size of a rejection and of a recorded identity, legacy transaction groups, and the metadata fields and event type the model's events do not have.
- Serial.EveryRunIsSerial: view operations are not part of a run's commits; they are derived from the events and replayed in Rebuild. A plain commit of one aggregate (commitWithTransaction) is a run's commit with one load, and without events it writes nothing.
- LiveRuns.ScanIsLog: for a store without compaction; after one the source rebuilds entities from snapshots instead (go/compaction.go:17-18), which is not modelled.
- Load.LoadAggregate: upcasters are part of the aggregate's apply function.
