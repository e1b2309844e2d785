# A verified model of the lambda service's workflow engine and its neighbours

The service runs customer functions in warm child processes and strings them together into durable
workflows. This project models the parts of it whose correctness is not visible from any one function, and
proves what holds over every run of them.

**Workflow store and engine.** `Store.dfy` holds the run table as an object with one method per critical
section, each proved against a specification function. `Worker.dfy` is what a worker decides from a snapshot,
`Engine.dfy` the object that claims, dispatches, handles one step and commits. `World.dfy` interleaves all of it:
creation, claims, signals, cancellation, eviction, clock ticks, and commits by workers that hold arbitrarily old
views and may use them at any time, more than once, with or without a lease. Against that stands
`Interpreter.dfy`, an independent sequential machine without versions, leases, snapshots or conflicts. The central
invariant is that every stored run is the replay of its log on that machine, that a view is a picture of a
log prefix ending in its claim, and that the version counts the log's entries. From it follow atomic
commits, terminal states that stay terminal, the shape of the history, signal conservation, wake-ups, and a bound on
commits (`Sequential.dfy` proves them on logs, `Safety.dfy` states them about stored runs). `Progress.dfy` says exactly
which runs can still end without being canceled, and `StepText.dfy` what an accepted commit does to its run, field by
field, read directly off the JSON text of the step; `ProgressText.dfy` reads the former off the stored run too. Every engine method is proved to take exactly one step of that system
and to keep its invariant.

**Starting under an idempotency key** (`Idempotency.dfy`) and **the in-flight counter** (`Scheduler.dfy`) are
protocols of their own, one critical section per step.

**Child worker pool.** `ChildRunner.dfy` is the slot table with its critical sections; `PoolProtocol.dfy` interleaves
callers, drivers, children, timeouts, reaping, destruction and replacement. `LineReader.dfy` is the capped line
read, the driver's reading loop, and the child's writing side.

**NATS parser of the JavaScript child.** `Nats.dfy` has the frame parser and the data loop as the source writes
them (an advancing offset, a buffer that is reassigned), proved equal to a recursive reading of the stream, and
the exact condition under which cutting the stream into chunks is harmless.

**Check, then activate.** `FunctionTable.dfy` is the function table with its guarded row updates; `CheckProtocol.dfy`
interleaves them with the three separate steps of a check.

**Text.** `Slug.dfy`, `Shell.dfy` and `JsonText.dfy` prove the encoders against what reads them back;
`Retry.dfy` proves the backoff formula against its iterative meaning.

Where the code falls short of what one would expect of it, both sides of the boundary are proved:

* A message header that is not ASCII can lose its message when the stream is cut behind the header line: at each data
  event the parser steps back by UTF-16 units in a buffer of bytes and so strips the header.
  `Nats.HarmlessExactlyIfHeaderSurvives` gives the condition under which no cutting matters, for every header, every
  continuation and every cutting; `Nats.HarmlessExactlyIfPlain` says that this means a plain header unless the body is
  shorter than the header, `Nats.NestedHeaderIsHarmless` that the exception exists, and
  `Nats.NonAsciiSubjectCutAfterHeader` is a message that gets lost.
* Keeping starts under one idempotency key apart needs a coordinator whose claims last long enough. If a claim outlives
  each creation, a replica has at most one live run of the key (`Idempotency.OneLiveRunPerKey`); if it also outlives
  each live run, so have all replicas together (`Idempotency.OneLiveRunAnywhere`); and at any moment of such a history
  the claim may expire without harm if and only if nobody is creating and no run is live
  (`Idempotency.ClaimMayExpireExactlyWhen`). More generally, from any reachable state with a claim that is gone or
  was never exclusive, a second run can follow (`Idempotency.LostClaimAdmitsSecondRun`, `Idempotency.LostClaimAdmitsTwin`). Claims last
  60 seconds, and without a coordinator every claim is granted; `Idempotency.ExpiryAdmitsSecondRun`,
  `Idempotency.ExpiryDuringCreationAdmitsTwin` and `Idempotency.NoCoordinatorAdmitsTwin` are histories from an empty store.
  Nothing gives a claim back: a start that fails after its claim was granted keeps its key blocked until the claim
  expires (`Idempotency.FailedStartBlocksKey`).
* A run can get stuck. A full inbox refuses all signals, nothing drops those that nobody waits for, and so a wait without
  timeout may never see its signal. A run can still end without being canceled if and only if it is not doomed: its
  inbox has room, or something other than sleeps comes before such a wait (`Progress.CanEndExactlyUnlessDoomed`). A
  doomed run may still take steps; one that has been parked again never moves (`Progress.BlockedRunNeverMoves`).
* Activation compares only the code. A pause that comes between the check's read and its activation survives exactly when
  the check fails or the code has changed (`CheckProtocol.PauseSurvivesActivation`), and a metadata change exactly
  when the activation is refused or the last write was what the check had read anyway
  (`CheckProtocol.MetadataSurvivesActivation`). `CheckProtocol.PauseIsOverridden` and `CheckProtocol.UpdateIsLost` are
  histories in which they do not.
* A result of exactly the byte cap passes the child and is refused by the runner (`LineReader.ResultsAreReadExceptAtTheCap`).
* `json_unescape` does not undo `json_escape` on line breaks and tabs (`JsonText.UnescapeUndoesEscape`).
* Under a negative `maxBackoffMs` the formula is not the clipped iteration unless nothing grows (`Retry.BackoffIsFlooredRamp`).

Assumptions that the model makes, and the source does not check: ids of runs, workers and functions are fresh; the
clock does not run backwards and stays below the "never" time; a child writes one line per request line; a configured
coordinator grants a key to one start until the claim expires, and refuses every other start, also from the same replica
(which is the holder that the coordinator is told).

## Model

| member | source | states |
|---|---|---|
| `Store.Store.RunForIdempotencyKey` | src/workflow/store.rs:118-124 | a run found has the key; if none is found, no stored run has it |
| `Store.Store.CreateRun` | src/workflow/store.rs:126-174 | no steps is an error; a key already in the table returns its run and changes nothing; otherwise exactly one new run appears |
| `Store.Store.InsertRun` | src/workflow/store.rs:150-173 | the new run is pending, at step 0, version 0, due now, without lease or history, and the only change |
| `Store.Store.DeliverSignal` | src/workflow/store.rs:176-201 | refuses unknown, finished and full runs unchanged; otherwise appends the signal, makes the run due now, drops the lease and bumps the version |
| `Store.Store.CancelRun` | src/workflow/store.rs:203-215 | cancels exactly the unfinished runs and bumps the version, so every outstanding view goes stale |
| `Store.Store.GcTerminal` | src/workflow/store.rs:247-256 | keeps exactly the runs that are unfinished or recent enough, and reports how many went |
| `Store.DueMeans` | src/workflow/store.rs:267-276 | a run is due exactly if it is pending, running or waiting, its wake-up time has come, and no lease is on it |
| `Store.ClaimIsExact` | src/workflow/store.rs:264-298 | a claim takes as many due runs as the limit allows, in id order, none twice, and none while a due one with a smaller id is left out |
| `Store.Store.ClaimDue` | src/workflow/store.rs:264-298 | leases exactly the chosen runs, bumps their versions, leaves all others alone, and hands out a snapshot of each as it is after leasing |
| `Store.CommitAnswers` | src/workflow/store.rs:302-317 | a commit is an error for an unknown run, a conflict for a canceled one or another version, both without effect, and else applies |
| `Store.Store.SucceedComplete` | src/workflow/store.rs:319-342 | refuses a canceled run or another version unchanged; otherwise the optional row, the context and the completed state are stored in one update |
| `Store.Store.SucceedAdvance` | src/workflow/store.rs:344-367 | the same guard; otherwise row, next index, fresh attempts, context, and due at once |
| `Store.Store.FailRetry` | src/workflow/store.rs:369-392 | the same guard; otherwise row, new attempt and a wake-up after the backoff, negative ones counting as none |
| `Store.Store.FailTerminal` | src/workflow/store.rs:394-407 | the same guard; otherwise row, error and the failed state |
| `Store.Store.EnterSleep` | src/workflow/store.rs:409-431 | the same guard; the index moves on at once and the wake-up lies in the future |
| `Store.Store.ConsumeSignal` | src/workflow/store.rs:433-461 | the same guard; removes the signal at the given position if there is one, and clears the deadline |
| `Store.Store.ParkWait` | src/workflow/store.rs:465-478 | the same guard; waiting, with the deadline counted from now, or never due |
| `Store.Store.ReparkWait` | src/workflow/store.rs:481-493 | the same guard; waiting again under the deadline it already had |
| `Worker.FirstMatch` | src/workflow/engine.rs:620-631 | the position found carries the name and no earlier one does; none found means no pending signal has it |
| `World.CurrentCommitRefines` | src/workflow/engine.rs:352-385 | deciding from a snapshot and committing equals one step of the sequential machine, for every kind of step and outcome, if the snapshot is current |
| `World.MatchingVersionMeansCurrent` | src/workflow/store.rs:302-317 | a view that carries the run's version shows its current state, and its claim is the last thing that happened to the run |
| `World.StepKeepsInv` | src/workflow/store.rs:126-493 | every event, including commits with stale views, keeps: run = replay of its legal log, version = its length, view = a prefix of it |
| `World.Reachable` | src/workflow/store.rs:264-317 | in every state that any interleaving reaches, each stored run is the sequential replay of its legal log |
| `Sequential.LegalIsWellFormed` | src/workflow/engine.rs:539-580 | the attempt stays below what the step allows, only wait steps wait, only waiting runs have deadlines, at most 1024 signals are pending |
| `Sequential.SourceIsFixed` | src/workflow/store.rs:146-170 | program, default retry, input and key of a run never change |
| `Sequential.ContextIsReplayOfHistory` | src/workflow/engine.rs:465-534 | the context is the left fold of name to output over the succeeded activity and wait rows |
| `Sequential.LegalHistoryShape` | src/workflow/engine.rs:539-580 | walking the rows in order leads exactly to the run's current step and attempt |
| `Sequential.WalkMeans` | src/workflow/store.rs:344-407 | a walk that ends at a place has succeeded indices 0, 1, 2, ..., failed attempts 0, 1, 2, ... there, and nothing beyond |
| `Sequential.RowsPerStepAreBounded` | src/workflow/engine.rs:881-887 | no step collects more rows than its maximum attempts, or one if it is not an activity |
| `Sequential.RowsNameTheirSteps` | src/workflow/engine.rs:828-862 | every row carries the name and the type of the step whose index it has |
| `Sequential.OutputsAreKept` | src/workflow/engine.rs:465-534 | if no two steps share a name, no later step ever overwrites an output in the context |
| `Sequential.UnnamedStepsAreDistinct` | src/workflow/engine.rs:806-811 | the names made up for unnamed steps never collide |
| `Sequential.AwaitTakesFirstMatch` | src/workflow/engine.rs:614-658 | a matching wait removes the first pending signal of its name and its row records that very signal |
| `Sequential.SignalsAreConserved` | src/workflow/store.rs:176-201 | per name, signals accepted = signals consumed, in order, followed by signals pending |
| `Sequential.NoLostWakeup` | src/workflow/store.rs:189-200 | a waiting machine with a matching signal is due no later than its last change |
| `Sequential.DeadlineIsFixed` | src/workflow/store.rs:465-493 | a waiting machine's deadline is its first parking time plus the step's timeout, however often it was parked again |
| `Sequential.WaitTimesOutExactly` | src/workflow/engine.rs:659-699 | a wait step fails if and only if it was parked, nothing matches, and the claim saw the deadline reached |
| `Sequential.DelayIsScheduled` | src/workflow/store.rs:386-431 | every performed step but a wait sets the wake-up to its own time plus the sleep or backoff asked for |
| `Sequential.ParkingSetsWakeUp` | src/workflow/store.rs:465-493 | a parked run wakes at its deadline, or never |
| `Sequential.BackoffAddsUp` | src/workflow/engine.rs:546-575 | at a step, the backoff asked for so far is exactly the sum over the attempts that failed there |
| `Sequential.StepBackoffIsBounded` | src/workflow/engine.rs:881-907 | all backoff that one step schedules is at most (attempts allowed - 1) times the cap |
| `Sequential.PerformSpends` | src/workflow/engine.rs:352-385 | each performed step lowers the potential made of steps, attempts and parkings left and wake credits |
| `Sequential.CommitsAreCounted` | src/workflow/store.rs:319-493 | the commits bounded are the performed entries of the log, and there are at least as many as rows |
| `Sequential.FinitelyManyCommits` | src/workflow/engine.rs:539-706 | commits are at most attempts over activities + sleeps + 2 waits + unknown steps + signals + 1 |
| `Safety.CommitIsOneAtomicStep` | src/workflow/store.rs:302-317 | in every reachable state a commit is accepted exactly when the version matches; then the snapshot equals the run and the run takes one sequential step, else nothing changes |
| `Safety.ViewsAreUnique` | src/workflow/store.rs:283-296 | no two different views of one run carry the same version |
| `Safety.ViewCommitsAtMostOnce` | src/workflow/store.rs:302-317 | after a view's commit is accepted it is refused for ever, whatever happens next |
| `Safety.TerminalIsForever` | src/workflow/store.rs:203-215 | a completed, failed or canceled run never changes again, and once evicted never returns |
| `Safety.OnlyFinishedRunsAreEvicted` | src/workflow/store.rs:247-256 | a run that is gone from the table had finished |
| `Safety.ContextMatchesHistory` | src/workflow/store.rs:344-367 | in every reachable state a run's context is the replay of its history |
| `Safety.OutputsStayReadable` | src/workflow/store.rs:344-367 | in every reachable state, with distinct step names, each recorded output is in the run's context under its step's name |
| `Safety.HistoryIsInOrder` | src/workflow/engine.rs:539-580 | succeeded rows are 0, 1, 2, ... up to the current step, failed ones 0, 1, ... up to the attempt, no step has too many |
| `Safety.SignalsAreDeliveredInOrder` | src/workflow/store.rs:433-461 | signals accepted are those consumed, in order per name, followed by those pending, never more than 1024 |
| `Safety.WaitingRunWithSignalIsDue` | src/workflow/store.rs:176-201 | a waiting run with a signal for its step is due now, or a worker holds its lease |
| `Safety.WaitDeadlineNeverMoves` | src/workflow/store.rs:465-493 | a waiting run's deadline is that of its first parking at the step |
| `Safety.WaitCommitOutcome` | src/workflow/engine.rs:614-706 | an accepted commit at a wait step fails, advances or parks exactly by the signals pending now and the claim's clock, and removes exactly the signal matched |
| `Safety.CommitsAreBounded` | src/workflow/store.rs:319-493 | every run ever created makes at most its budget of commits plus one per signal accepted |
| `Safety.BackoffPerStepIsBounded` | src/workflow/store.rs:369-392 | over a whole run, one activity step schedules at most one cap of backoff per retry allowed |
| `Safety.ClaimsAreSpaced` | src/workflow/store.rs:264-298 | two claims of one run with nothing between them are at least a lease apart |
| `Safety.NeverWakesEarly` | src/workflow/store.rs:386-431 | unless a signal arrives, a sleeping or backing-off run is not claimed before its delay is over |
| `Safety.ParkedRunWakesAtDeadline` | src/workflow/store.rs:465-493 | unless a signal arrives, a parked run is claimed only at its deadline, and without one never |
| `Progress.NextExistsUnlessBlocked` | src/workflow/store.rs:264-298 | an unfinished run has a next thing that can happen to it, other than a cancellation, if and only if it has a wake-up time or room for a signal |
| `Progress.BlockedRunNeverMoves` | src/workflow/store.rs:481-493 | a run without either never changes again until it is canceled, whatever happens |
| `Progress.BlockedRunsWait` | src/workflow/store.rs:189-195 | with time left, such a run is exactly one that waits without deadline, has not been woken, and has 1024 signals pending |
| `Progress.DoomStays` | src/workflow/store.rs:189-195 | nothing but a cancellation leads out of doom: full inbox, and only sleeps before a wait without timeout that nothing matches |
| `Progress.PerformIsHopeful` | src/workflow/engine.rs:352-385 | any other run stays free of doom with each performed step in which activities give up, and comes nearer to its end unless it parks again |
| `Progress.PromiseIsKept` | src/workflow/store.rs:264-493 | from any such state some ticks, claims, commits and signals end the run |
| `Progress.CanEndExactlyUnlessDoomed` | src/workflow/store.rs:176-201 | in every reachable state, an unfinished run with time left can still complete or fail if and only if it is not doomed |
| `Progress.OtherSignalsDoom` | src/workflow/store.rs:189-195 | every program that begins with a wait without timeout is doomed by 1024 signals of any other name |
| `ProgressText.CanEndByText` | src/workflow/store.rs:176-201 | read off the stored run: if its pauses to come end in time, it can still end without being canceled, unless 1024 signals are pending and only steps of type "sleep" come before a "waitSignal" without timeout for a name none of them has; and then it cannot |
| `StepText.SleepCommit` | src/workflow/engine.rs:583-611 | at a step of type "sleep" the run moves on at once, runs, and is due "durationMs" from now; none or a negative one is no time |
| `StepText.WaitCommitTakes` | src/workflow/engine.rs:614-658 | at type "waitSignal" the first pending signal named by "signalName" is removed, bound to the step's name and recorded, and the run moves on without deadline |
| `StepText.WaitCommitParks` | src/workflow/engine.rs:690-703 | without such a signal the run waits until "waitTimeoutMs" from now, or for ever if that is 0 or not there |
| `StepText.WaitCommitAgain` | src/workflow/engine.rs:667-689 | a run that waits already fails if the claim's clock had reached its deadline, and else waits on under it |
| `StepText.ActivityCommitNeedsFunction` | src/workflow/engine.rs:813-826 | with no type, an empty one or "activity", and neither "functionId" nor "functionSlug", the run fails |
| `StepText.ActivityCommitSucceeds` | src/workflow/engine.rs:465-534 | the output of the function under "functionId", or else "functionSlug", is bound to the step's name; the last step completes the run, any other leaves it due |
| `StepText.ActivityCommitOverflows` | src/workflow/engine.rs:483-492 | an output that makes the context too large fails the run and binds nothing |
| `StepText.ActivityCommitFails` | src/workflow/engine.rs:539-580 | a failure is recorded under its attempt and retried after the backoff of the step's settings over the defaults, as long as attempts are left; then the run fails |
| `StepText.UnknownCommitFails` | src/workflow/engine.rs:374-382 | a step of any other type fails the run |
| `StepText.LastCommitCompletes` | src/workflow/engine.rs:387-398 | behind the last step the run completes with the context it has |
| `StepText.DecimalIsCanonical` | src/workflow/engine.rs:806-811 | the number in a made-up step name has digits only and no leading zero |
| `StepText.CommitsAreBoundedByText` | src/workflow/store.rs:319-493 | the commits of a stored run, counted in its log, are at most the attempts of its activities, two per wait, one per other step, one per signal accepted, and one |
| `Engine.Engine.Tick` | src/workflow/store.rs:93-95 | time passes, nothing else changes, and it never reaches the never time |
| `Engine.Engine.StartRun` | src/workflow/engine.rs:192-236 | an existing key returns its run, a refused claim is an error, both without effect; otherwise one new run |
| `Engine.Engine.SignalFromBody` | src/workflow/engine.rs:238-251 | a body without a name changes nothing; otherwise one delivery step, whose result is returned |
| `Engine.Engine.CancelRun` | src/workflow/engine.rs:253-271 | one cancellation step; succeeds exactly for stored, unfinished runs and returns the run as it is now |
| `Engine.Engine.CollectGarbage` | src/workflow/engine.rs:160-183 | one eviction step, counting the runs it removed |
| `Engine.Engine.ClaimAndDispatch` | src/workflow/engine.rs:283-298 | claims at most the free slots, counts one task per view, stays within the limit, hands out only new views of different runs and drops none |
| `Engine.Engine.Claim` | src/workflow/engine.rs:283-298 | one claim step; the views returned are exactly the new ones |
| `Engine.Engine.ProcessRun` | src/workflow/engine.rs:302-350 | without the lease nothing; with it exactly one commit step, which after losing the lease may or may not still land; the slot is freed either way |
| `Engine.Engine.DoProcessRun` | src/workflow/engine.rs:352-385 | whatever the kind of step, the commit attempted is the one decided from the snapshot, under the view's version; what that does for each type of step is stated by the `StepText` rows |
| `Engine.Engine.RunActivity` | src/workflow/engine.rs:401-580 | success, oversized context, retry, exhausted attempts and a missing function each attempt their own commit and no other |
| `Engine.Engine.RunWaitSignal` | src/workflow/engine.rs:614-706 | the search stops at the first signal of the name; without one the run parks, parks again or times out |
| `Engine.Engine.TerminalFailure` | src/workflow/engine.rs:709-732 | fails the run under the view's version, with a row that always says attempt 0 |
| `Retry.StepOverridesDefault` | src/workflow/engine.rs:864-879 | key by key, the step's own retry setting wins over the default, whatever shape either has |
| `Retry.MaxAttempts` | src/workflow/engine.rs:881-887 | the number asked for, clamped to 1 to 1000, and 3 if none is given |
| `Retry.BackoffIsFlooredRamp` | src/workflow/engine.rs:889-907 | the closed formula is the floor of multiplying and clipping step by step, exactly when the cap is not negative or nothing grows |
| `Retry.BackoffIsReadOff` | src/workflow/engine.rs:889-907 | off the retry object: from max(backoffMs or 1000, 0), times max(backoffFactor or 2, 1) per attempt up to 64, clipped each time at min(maxBackoffMs or 60000, 10^15), rounded down; a negative maxBackoffMs is itself the answer |
| `Retry.DoublingFromASecond` | src/workflow/engine.rs:972-980 | doubling from 1000 under 60000 gives 1000, 2000, 4000, 8000, 16000, 32000, and 60000 for every later attempt |
| `Retry.BackoffIsMonotone` | src/workflow/engine.rs:889-907 | never shrinks with the attempt, never exceeds the cap, negative exactly under a negative cap |
| `Retry.TotalDelayIsBounded` | src/workflow/store.rs:386-388 | the delays of n retries add up to at most n caps, and to nothing under a negative cap |
| `Scheduler.InflightIsBounded` | src/workflow/engine.rs:283-298 | in every reachable state live tasks are at most the counter and the counter at most the limit, although tasks end while others are counted in |
| `Scheduler.EachViewIsSpawnedOnce` | src/workflow/engine.rs:289-297 | over any whole history a view is spawned at most once, and exactly once if and only if it was claimed and has left the queue |
| `Scheduler.FreeSlotRunsView` | src/workflow/engine.rs:283-298 | whenever a slot is free a claimed view can become a task, and the slot is free again when it has ended |
| `Scheduler.ViewsMoveForward` | src/workflow/engine.rs:289-297 | no step takes a claimed view back: it goes from the queue to a task to its end |
| `Idempotency.OneLiveRunPerKey` | src/workflow/engine.rs:214-230 | with a coordinator, if no claim of the key expires during a creation, no replica ever holds two live runs of it |
| `Idempotency.StartsAgree` | src/workflow/store.rs:126-174 | under the same condition, successful starts with one key on one replica return the same run while it lives |
| `Idempotency.SuccessReturnsLiveRun` | src/workflow/engine.rs:214-236 | under any authority, when a start succeeds, the run it returns is live under its own key |
| `Idempotency.OneLiveRunAnywhere` | src/coord.rs:417-438 | with a coordinator, if no claim of the key expires during a creation or a live run, the key has at most one live run over all replicas |
| `Idempotency.SecondRunNeedsExpiry` | src/coord.rs:417-438 | two runs of one key, on any replicas and at any times, need an expiry of that key's claim |
| `Idempotency.ClaimMayExpireExactlyWhen` | src/coord.rs:424-430 | after any history in which the claim has lasted long enough, its expiry leaves at most one live run for all futures without another one, if and only if nobody is creating and no run of the key is live |
| `Idempotency.LostClaimAdmitsSecondRun` | src/workflow/engine.rs:214-230 | from any reachable state, a live run whose claim is gone or was never exclusive can be joined by a second one on any replica that does not have it |
| `Idempotency.LostClaimAdmitsTwin` | src/workflow/store.rs:139-172 | from any reachable state, a start that is creating and whose claim is gone or was never exclusive can be overtaken on its own replica, which then holds two |
| `Idempotency.EarlyExpiryAdmitsSecondRun` | src/coord.rs:424-430 | whenever a claim expires under a live run, a second run of the key can follow without anything else going wrong |
| `Idempotency.ExpiryAdmitsSecondRun` | src/coord.rs:424-430 | a history with one expiry, between creations, that ends with live runs of one key on two replicas |
| `Idempotency.ExpiryDuringCreationAdmitsTwin` | src/coord.rs:424-430 | a history with one expiry, during a creation, that ends with two live runs of one key on one replica |
| `Idempotency.NoCoordinatorAdmitsTwin` | src/coord.rs:416-420 | a history without expiry or coordinator that ends with two live runs of one key on one replica |
| `Idempotency.UninterruptedStart` | src/workflow/engine.rs:214-230 | from any state, a start that nothing interrupts creates without a key, returns a live run of its key on its replica, is refused while a coordinator holds a claim, and else creates and claims; the stores and claims change accordingly |
| `Idempotency.FailedStartBlocksKey` | src/workflow/engine.rs:220-231 | a start that fails after its claim was granted creates nothing but keeps the claim: until it expires, whatever else happens, an uninterrupted start is refused where no run of the key is live |
| `Idempotency.EvictionForgetsKey` | src/workflow/store.rs:126-137 | once its only run on a replica is evicted, the next uninterrupted start with a key creates a new one there, unless a claim is still held |
| `ChildRunner.ChildRunner.TryReuse` | src/child_runner.rs:312-330 | reuses exactly a live worker of the same command; any other is dropped from its slot |
| `ChildRunner.ChildRunner.InsertSpawned` | src/child_runner.rs:354-366 | the new worker takes the slot whoever holds it, and no other slot changes |
| `ChildRunner.ChildRunner.UpdateLastUsed` | src/child_runner.rs:371-375 | touches the slot if it is still there |
| `ChildRunner.ChildRunner.DeleteWorker` | src/child_runner.rs:377-379 | the slot is gone and all others remain |
| `ChildRunner.ChildRunner.Destroy` | src/child_runner.rs:149-157 | tells whether there was a worker, removes it, counts it once |
| `ChildRunner.ChildRunner.ReapIdle` | src/child_runner.rs:382-397 | a slot goes if and only if its child is gone or it was last used longer ago than its idle time; every other slot stays as it is, and each that goes is counted once |
| `PoolProtocol.StepKeepsInv` | src/child_runner.rs:265-512 | every step keeps each serving driver in step with its child and every channel in order |
| `PoolProtocol.ReapKeeps` | src/child_runner.rs:382-397 | a slot survives a reap exactly if its driver is still up and it was used recently enough |
| `PoolProtocol.ReuseChooses` | src/child_runner.rs:312-331 | a caller gets the slot's worker exactly if it is up and runs the same command; else it clears the slot and spawns |
| `PoolProtocol.DroppedSlotIsNotReused` | src/child_runner.rs:377-379 | once a slot is dropped, the next caller of its key spawns a worker; other slots stay |
| `PoolProtocol.TouchedSlotSurvives` | src/child_runner.rs:371-397 | a touched slot of a serving driver survives a reap exactly if that comes within its idle window of the touch |
| `PoolProtocol.SendIsAccepted` | src/child_runner.rs:274-284 | a channel takes an invocation exactly while its driver is there and fewer than 16 are queued |
| `PoolProtocol.ColdCallSucceeds` | src/child_runner.rs:265-369 | from any reachable state a call without a warm worker spawns one and returns its answer, if nothing interferes |
| `PoolProtocol.WarmCallSucceeds` | src/child_runner.rs:265-308 | a call with a free warm worker reuses it and returns its answer, if nothing interferes |
| `PoolProtocol.OkRepliesAreOwn` | src/child_runner.rs:265-308 | a successful caller gets the line its child wrote for its own payload, whatever timed out, was reaped or replaced |
| `PoolProtocol.OutcomesAreFinal` | src/child_runner.rs:285-307 | an invocation has at most one outcome |
| `PoolProtocol.ServedByOwnCommand` | src/child_runner.rs:312-331 | a caller only ever holds the channel of a worker running its command |
| `PoolProtocol.AnswersComeInOrder` | src/child_runner.rs:462-512 | the k-th line read answers the k-th invocation the channel accepted |
| `PoolProtocol.AtMostOneOutstanding` | src/child_runner.rs:469-506 | a serving driver has at most one request line not yet read back, and at most 16 queued |
| `PoolProtocol.WaitersAreNeverForgotten` | src/child_runner.rs:286-307 | in every reachable state a waiting caller is queued or being served at a driver that has not finished, and fails when that driver does |
| `PoolProtocol.ServingEndsExactly` | src/child_runner.rs:462-512 | a driver leaves its loop exactly if a write or read fails, or if it is idle with no slot, sender or waiting caller left |
| `PoolProtocol.FailureIsTold` | src/child_runner.rs:469-506 | a failed exchange fails the caller whose turn it was, if it still waits, and nobody else |
| `PoolProtocol.RetirementFailsNobody` | src/child_runner.rs:462-512 | after a driver leaves because nothing could reach it, no slot names it and no caller sends to it or waits for it ever again |
| `LineReader.Reader.ReadCappedLine` | src/child_runner.rs:531-543 | takes one line or cap + 1 bytes, whichever is less, and classifies it |
| `LineReader.ReadMeans` | src/child_runner.rs:531-543 | a read takes up to a newline, the end, or one byte beyond the cap; nothing is the end, ill-formed text is an error, more than the cap is too long, and else it is the trimmed line |
| `LineReader.TrimMeans` | src/child_runner.rs:541 | trimming takes off all carriage returns and newlines at the end and nothing else |
| `LineReader.AcceptedExactlyUpToCap` | src/child_runner.rs:539-542 | a valid UTF-8 line is accepted if and only if it fits the cap with its newline |
| `LineReader.FrameRoundTrip` | src/child_runner.rs:531-543 | reading back a framed payload returns it and leaves the rest, if and only if it does not end in a carriage return |
| `LineReader.RepliesAreTheLinesWritten` | src/child_runner.rs:479-506 | over any sequence of lines, framed reads undo framed writes in order |
| `LineReader.Reader.Serve` | src/child_runner.rs:470-508 | one reply per invocation until the first failed read, which ends the driver |
| `LineReader.ResultsAreReadExceptAtTheCap` | child-runtimes/js-function-runner.mjs:313-322 | what the child writes is read back by the runner except when it is exactly as long as the cap |
| `Nats.Request.ParseNatsFrame` | child-runtimes/js-function-runner.mjs:109-141 | the scan from an advancing offset finds the frame that reading the stream line by line gives |
| `Nats.Request.IndexOfCrlf` | child-runtimes/js-function-runner.mjs:112-115 | the first line end at or after the offset, or none |
| `Nats.Request.HandleData` | child-runtimes/js-function-runner.mjs:186-210 | one data event answers every complete PING, settles on the first payload or error, and keeps the rest |
| `Nats.MessageRoundTrip` | child-runtimes/js-function-runner.mjs:127-138 | "MSG ", any subject part, the decimal length, a line end, the payload and a line end parse to exactly that payload and what follows |
| `Nats.RequestReceivesMessage` | child-runtimes/js-function-runner.mjs:186-206 | any number of PINGs and then such a message get that many PONGs and settle the request on the payload |
| `Nats.MessageLine` | child-runtimes/js-function-runner.mjs:127-138 | the size is the last word of the line; one that is no number, or negative, is an error; a body that is not there yet is waited for |
| `Nats.ParseIntReads` | child-runtimes/js-function-runner.mjs:128-130 | blanks, an optional sign and digits read as the decimal number, whatever follows |
| `Nats.ParseIntRefuses` | child-runtimes/js-function-runner.mjs:128-132 | without a digit behind them there is no number |
| `Nats.PingLine` | child-runtimes/js-function-runner.mjs:121-123 | the line PING asks for a PONG |
| `Nats.SkippedLine` | child-runtimes/js-function-runner.mjs:118-120 | empty lines, +OK, PONG and INFO lines are skipped |
| `Nats.ErrorLine` | child-runtimes/js-function-runner.mjs:124-126 | a line that begins with -ERR is an error |
| `Nats.OtherLine` | child-runtimes/js-function-runner.mjs:110-140 | every other line that is no message is skipped |
| `Utf8.EncodedIsValid` | child-runtimes/js-function-runner.mjs:116-117 | encodings are valid and decode to one unit per character of the first plane and two beyond |
| `Utf8.ValidExactlyIfEncoded` | src/child_runner.rs:537-541 | a byte string is valid if and only if it is the encoding of Unicode scalar values |
| `Utf8.TakenIsMaximal` | child-runtimes/js-function-runner.mjs:116-117 | also of ill-formed bytes the decoder takes the longest beginning of a character at once, and at least one byte |
| `Nats.ParsingResumes` | child-runtimes/js-function-runner.mjs:109-141 | parsing a prefix and resuming with what it kept equals parsing the whole, if the prefix has a plain header or none yet |
| `Nats.DrainingResumes` | child-runtimes/js-function-runner.mjs:186-206 | handling a prefix and then the rest equals handling both at once |
| `Nats.ChunkingDoesNotMatter` | child-runtimes/js-function-runner.mjs:186-206 | any cutting gives the same PONGs, first payload or error, and buffer as the whole stream, if what came before the last piece has a plain header |
| `Nats.AsciiHeaderIsPlain` | child-runtimes/js-function-runner.mjs:116-135 | ASCII headers are plain, whatever the payloads contain |
| `Nats.BoundariesAreKeptExactlyForPlainHeaders` | child-runtimes/js-function-runner.mjs:133-135 | the retained buffer is always a suffix on a frame boundary if and only if the header is plain |
| `Nats.HarmlessExactlyIfHeaderSurvives` | child-runtimes/js-function-runner.mjs:133-135 | whatever follows a message header and however it is cut, the outcome is that of the whole stream, if and only if the header is still one after as many strips as its body allows |
| `Nats.HarmlessExactlyIfPlain` | child-runtimes/js-function-runner.mjs:133-135 | plain headers are always safe; unless the body is shorter than the header, no others are |
| `Nats.CutsLoseMessage` | child-runtimes/js-function-runner.mjs:109-141 | for any header that becomes unreadable, a body and a cutting that lose a message which the whole stream delivers |
| `Nats.EmptyEventsLoseEveryOtherHeader` | child-runtimes/js-function-runner.mjs:133-135 | if data events could be empty, every header that is not plain would have such a cutting |
| `Nats.NestedHeaderIsHarmless` | child-runtimes/js-function-runner.mjs:133-135 | a header that is not plain, announces no body, and is safe under every cutting |
| `Nats.NonAsciiSubjectCutAfterHeader` | child-runtimes/js-function-runner.mjs:133-135 | a delivery with a non-ASCII reply subject that the whole stream delivers and one cut loses |
| `FunctionTable.FunctionStore.Get` | src/function_control.rs:388-402 | found exactly for live rows of the caller's organisation; shows no reserved key and all else, so that storing it back in scope gives the row's metadata again |
| `FunctionTable.ReadThenScope` | src/function_control.rs:304-339 | scoping what a reader was shown gives back the stored metadata |
| `FunctionTable.FunctionStore.Create` | src/function_control.rs:404-444 | a new draft in the organisation's scope, no other row touched |
| `FunctionTable.FunctionStore.Update` | src/function_control.rs:446-489 | replaces a visible row's definition and makes it a draft again, else not found and unchanged |
| `FunctionTable.FunctionStore.Delete` | src/function_control.rs:491-508 | archives a visible row for good, else not found and unchanged |
| `FunctionTable.FunctionStore.Pause` | src/function_control.rs:510-525 | pauses a visible row, else not found and unchanged |
| `FunctionTable.FunctionStore.ActivateChecked` | src/function_control.rs:527-557 | activates exactly when the row is visible and still has the checked code, else a conflict and unchanged |
| `CheckProtocol.StepKeepsInv` | src/function_control.rs:404-557 | every interleaved step keeps rows scoped to their creator and active code checked, and forgets nothing |
| `CheckProtocol.ActiveCodeWasChecked` | src/http.rs:564-584 | an active function's body, runtime, container flag and run time are those that some check had read and that was then answered without the text "ok":false; so code whose every check failed is never active |
| `CheckProtocol.FailedCheckChangesNothing` | src/http.rs:579-582 | a reply with "ok":false anywhere in it, and no reply, leave the whole system as it is |
| `CheckProtocol.OtherReplyPasses` | src/http.rs:583-584 | every other reply passes a check in flight |
| `CheckProtocol.PassedChecksWereAnswered` | src/http.rs:564-584 | each passed check was begun on the code it stands for and later answered without an objection |
| `CheckProtocol.OrganisationNeverChanges` | src/function_control.rs:331-339 | at every later time a row belongs to its creator's organisation, and is visible to that one exactly until it is deleted, to others never |
| `CheckProtocol.DeletedForEver` | src/function_control.rs:491-508 | a deleted row stays archived and unchanged, never active again |
| `CheckProtocol.DeletionIsFinal` | src/function_control.rs:491-508 | a deletion by any organisation but the creator's changes nothing; by the creator's it archives the row, keeps the rest of it, and no later history changes that |
| `CheckProtocol.PauseSurvivesActivation` | src/function_control.rs:527-557 | after any history since the check's read, a paused row stays paused if and only if the check has not passed or the code was changed; else it becomes active |
| `CheckProtocol.MetadataIsLastWritten` | src/function_control.rs:446-557 | after any history, a row's metadata is what the last effective update or activation stored |
| `CheckProtocol.MetadataSurvivesActivation` | src/function_control.rs:527-557 | after any history since the check's read, activation leaves the metadata alone if and only if it is refused, nothing was stored since, or the last content stored is the one read; else the content read is put back |
| `CheckProtocol.PauseIsOverridden` | src/http.rs:564-584 | for every definition, create, check, pause, activate ends active |
| `CheckProtocol.UpdateIsLost` | src/http.rs:564-584 | for every definition and every update of its slug or metadata alone, create, check, update, activate ends with the old ones |
| `Slug.NormalizeSlug` | src/function_control.rs:119-135 | the scanning loop yields a slug that keeps exactly the letters and digits of the input |
| `Slug.NormalizedIsSlug` | src/function_control.rs:119-135 | lower-case alphanumeric runs separated by single dashes |
| `Slug.NothingKeptIsLost` | src/function_control.rs:119-135 | every ASCII letter and digit survives, in order, in lower case |
| `Slug.NormalizedJoinsWords` | src/function_control.rs:119-135 | the slug is exactly the runs of letters and digits of the input, in lower case, with one dash between neighbours |
| `Slug.SlugsAreTheFixedPoints` | src/function_control.rs:119-135 | normalising leaves a text alone if and only if it is a slug, so twice is once |
| `Slug.EncodeHex` | src/function_control.rs:286-294 | the loop's output is the two-digit rendering of every byte |
| `Slug.HexRoundTrip` | src/function_control.rs:286-294 | the literal's body decodes to the exact bytes and no character of it can end the literal |
| `Slug.SqlTextCarriesBytes` | src/function_control.rs:286-294 | the first quoted literal of the whole expression decodes to the exact bytes |
| `Shell.InsideQuotes` | src/runtime.rs:227-229 | inside single quotes a shell reads the escaped text back as the original |
| `Shell.ShellWordIsOneWord` | src/runtime.rs:227-229 | any quoted string is read as one word, namely itself |
| `Shell.ShellReadsBackArgs` | src/runtime.rs:227-229 | a line of plain flags and quoted values is read back as exactly those flags and values |
| `Shell.ContainerFlagsAreFixed` | src/runtime.rs:319-345 | an unsafe image name is refused; otherwise the words after quoting are the sandbox flags, written out, around the four values, each whole in its place, with the image last and never an option |
| `Shell.ImageNamesGrow` | src/runtime.rs:130-132 | no empty name is safe, a safe name starts with a letter or digit, and it may be extended by a letter, digit or one of six signs as long as it is shorter than 512 |
| `JsonText.EscapeIsACharacterMap` | src/runtime.rs:112-118 | the five sequential replacements equal one map over characters |
| `JsonText.UnescapeUndoesEscape` | src/runtime.rs:108-118 | unescaping undoes escaping if and only if there is no newline, carriage return or tab |

## Left out

* Workflow: resolving a definition from the database or from the request body, the JSON text that the store parses
  and writes, and the error texts (a `Reason` value stands for each). Ids are numbers in the order of their UUID text.
* Workflow: `list_runs`, `get_run`, metrics, published events and the scheduler's wake-up nudge.
* Workflow: one clock reading serves one operation; where the source reads the clock twice the two are taken as equal.
  Durations are unbounded integers, so the overflow of a deadline in 64 bits is not modelled.
* Workflow: what an activity does and what it returns are arbitrary, as is whether the new context is over the byte
  limit (only the activity path applies that limit). A task that is dropped on lease loss does so before it commits.
* `src/coord.rs`: lease answers are arbitrary; so are claim answers in the engine, while the idempotency protocol has a
  coordinator that grants a key to one holder at a time, or none. Fencing tokens and registration counters are not modelled.
* Engine.Engine.StartRun: runs the lookup, the claim, the second lookup and the insert in one go, where the source lets others in between; module Idempotency has the interleavings.
* Progress.CanEndExactlyUnlessDoomed: says that an end can be reached, not that it will be: that due runs are claimed and claimed steps performed is not modelled. Runs whose remaining sleeps and timeouts reach the never time are left out of it.
* Retry.BackoffIsFlooredRamp: floating-point rounding is not modelled; the formula is over exact reals.
* Sequential.FinitelyManyCommits: bounds commits, not executions: an activity whose commit conflicts has run and runs again.
* PoolProtocol.OkRepliesAreOwn: assumes one line per request line and payloads without line breaks, which holds for payloads the engine builds but not for arbitrary request bodies.
* PoolProtocol.OutcomesAreFinal: timeouts may fire at any moment of the reply wait; durations, and the unbounded wait for room in a channel, are not modelled.
* Child processes: spawning, killing, exit codes, the choice between local workers and the pool over NATS.
* Nats.ChunkingDoesNotMatter: sufficient, not necessary; the exact conditions are those of `Nats.HarmlessExactlyIfHeaderSurvives` for outcomes and `Nats.BoundariesAreKeptExactlyForPlainHeaders` for what is retained.
* Nats.Request.ParseNatsFrame: number parsing skips ASCII blanks only, and byte counts are exact where JavaScript rounds above 2^53.
* The child: the compiled-function cache (its bound is visible in its loop), the input byte cap (its effect depends on chunk sizes), the module sandbox and the browser runner.
* Function table: SQL text and the database client, `clean_input` beyond the refusal of reserved metadata keys, the container build columns, and listing. Each statement is one atomic update of a row.
* Slug.NormalizeSlug: characters beyond ASCII only separate; the White_Space list is written out.
* Shell.ContainerFlagsAreFixed: how a container runner parses its words is not modelled, beyond that an image must not look like an option.
* Shell.ShellReadsBackArgs: words with expansions, escapes or operators outside quotes are outside the tokeniser, which then gives no answer. NUL characters are treated as any other.
* HTTP routing, headers, configuration, logging, and everything else around these parts.
