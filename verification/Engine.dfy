/** The engine object: the public API, the scheduler tick and the step handlers, over one store. */
module Engine {
  import opened Wrappers
  import opened Arith
  import opened Json
  import opened Steps
  import opened Store
  import opened Worker
  import opened Interpreter
  import opened World
  import Retry

  /** What the coordinator answers when a worker asks for the lease of a run. */
  datatype LeaseReply = Granted | HeldElsewhere | Unavailable

  /** What the coordinator answers when a start claims an idempotency key. */
  datatype ClaimReply = Won | Taken | Unreachable

  /** A creation; an empty key is none. */
  function Creation(id: RunId, steps: seq<Json>, defaultRetry: Json, input: Json, key: string, at: int): Event {
    Event.CreateRun(id, steps, defaultRetry, input, if key == "" then None else Some(key), at)
  }

  class Engine {
    const store: Store
    var clock: int
    var inflight: nat
    ghost var views: set<RunView>
    ghost var logs: map<RunId, Log>

    /** The state of the whole system, as the protocol model sees it. */
    ghost function State(): World
      reads this, store
    {
      World(clock, store.runs, views, logs)
    }

    ghost predicate Valid()
      reads this, store
    {
      Inv(State())
    }

    constructor (store: Store)
      requires store.runs == map[]
      ensures Valid() && this.store == store && State() == Init() && inflight == 0
    {
      this.store := store;
      clock := 0;
      inflight := 0;
      views := {};
      logs := map[];
    }

    /** The clock never runs backwards and stays below the "never" time. */
    method Tick(ms: nat)
      requires Valid()
      modifies this
      ensures Valid() && State() == Step(old(State()), Event.Tick(ms)) && inflight == old(inflight)
    {
      hide Inv;
      StepKeepsInv(State(), Event.Tick(ms));
      if clock + ms < NEVER {
        clock := clock + ms;
      }
    }

    /**
     * Look the key up, claim it, and create the run, with nothing in between; the interleavings of these
     * critical sections are the subject of module Idempotency.
     */
    method StartRun(id: RunId, steps: seq<Json>, defaultRetry: Json, input: Json, key: string, claim: ClaimReply,
                    at: int)
      returns (r: Result<Run>)
      requires Valid() && id !in logs && at <= clock
      modifies this, store
      ensures Valid() && inflight == old(inflight)
      ensures HasKey(old(store.runs), key) ==>
        State() == old(State()) && r.Ok? && r.value in store.runs.Values && r.value.idempotencyKey == Some(key)
      ensures !HasKey(old(store.runs), key) && key != "" && !claim.Won? ==> State() == old(State()) && r.Err?
      ensures !HasKey(old(store.runs), key) && (key == "" || claim.Won?) ==>
        && State() == Step(old(State()), Creation(id, steps, defaultRetry, input, key, at))
        && (r.Ok? <==> steps != [])
        && (r.Ok? ==> id in store.runs && r.value == store.runs[id])
    {
      hide Inv;
      if key != "" {
        var existing := store.RunForIdempotencyKey(key);
        if existing.Some? {
          return Ok(existing.value);
        }
        match claim
        case Unreachable => return Result.Err("idempotency claim failed");
        case Taken => return Result.Err("workflow idempotency key already claimed");
        case Won =>
      }
      ghost var ev := Creation(id, steps, defaultRetry, input, key, at);
      StepKeepsInv(State(), ev);
      ghost var after := Step(State(), ev);
      r := store.CreateRun(id, steps, defaultRetry, input, key, at);
      logs := after.logs;
    }

    method SignalFromBody(id: RunId, body: Json) returns (r: Result<Run>)
      requires Valid()
      modifies this, store
      ensures Valid() && inflight == old(inflight)
      ensures body.Get("name").None? ==> r.Err? && State() == old(State())
      ensures body.Get("name").Some? ==>
        var signal := Signal(body.Get("name").value, body.Get("payload").GetOr(Null));
        && State() == Step(old(State()), Event.DeliverSignal(id, signal))
        && r == Deliver(old(store.runs), id, signal, clock).1
    {
      hide Inv;
      var name := body.Get("name");
      if name.None? {
        return Result.Err("signal name is required");
      }
      var payload := body.Get("payload").GetOr(Null);
      ghost var ev := Event.DeliverSignal(id, Signal(name.value, payload));
      StepKeepsInv(State(), ev);
      ghost var after := Step(State(), ev);
      r := store.DeliverSignal(id, name.value, payload, clock);
      logs := after.logs;
    }

    method CancelRun(id: RunId) returns (r: Result<Run>)
      requires Valid()
      modifies this, store
      ensures Valid() && inflight == old(inflight)
      ensures State() == Step(old(State()), Event.CancelRun(id))
      ensures r.Ok? <==> id in old(store.runs) && !Terminal(old(store.runs)[id].status)
      ensures r.Ok? ==> id in store.runs && r.value == store.runs[id]
    {
      hide Inv;
      ghost var ev := Event.CancelRun(id);
      StepKeepsInv(State(), ev);
      ghost var after := Step(State(), ev);
      var c := store.CancelRun(id, clock);
      logs := after.logs;
      match c
      case Committed(run) => r := Ok(run);
      case Conflict(_) => r := Result.Err("workflow run is not cancelable");
      case Refused(why) => r := Result.Err(why);
    }

    method CollectGarbage(retainMs: int, at: int) returns (evicted: int)
      requires Valid() && at <= clock
      modifies this, store
      ensures Valid() && inflight == old(inflight)
      ensures State() == Step(old(State()), Event.GcTerminal(retainMs, at))
      ensures evicted == |old(store.runs)| - |store.runs|
    {
      hide Inv;
      StepKeepsInv(State(), Event.GcTerminal(retainMs, at));
      evicted := store.GcTerminal(retainMs, at);
    }

    /** One scheduler tick: claim at most the free slots, and count one task in for every view. */
    method ClaimAndDispatch(maxInflight: nat, leaseMs: int, batch: nat, at: int) returns (claimed: seq<RunView>)
      requires Valid() && at <= clock
      modifies this, store
      ensures Valid()
      ensures old(inflight) >= maxInflight ==> claimed == [] && State() == old(State())
      ensures old(inflight) < maxInflight ==>
        State() == Step(old(State()), Event.ClaimDue(Min(maxInflight - old(inflight), batch), leaseMs, at))
      ensures inflight == old(inflight) + |claimed| && |claimed| <= batch
      ensures old(inflight) <= maxInflight ==> inflight <= maxInflight
      ensures views == old(views) + (set v | v in claimed)
      ensures forall v <- claimed :: v !in old(views)
      ensures forall i, j :: 0 <= i < j < |claimed| ==> claimed[i].id != claimed[j].id
    {
      hide Inv, Step;
      claimed := [];
      var free := if inflight >= maxInflight then 0 else maxInflight - inflight;
      if free == 0 {
        return;
      }
      claimed := Claim(Min(free, batch), leaseMs, at);
      for i := 0 to |claimed|
        invariant inflight == old(inflight) + i
        invariant State() == Step(old(State()), Event.ClaimDue(Min(free, batch), leaseMs, at))
        invariant Valid() && views == old(views) + (set v | v in claimed)
      {
        inflight := inflight + 1;
      }
    }

    method Claim(limit: nat, leaseMs: int, at: int) returns (claimed: seq<RunView>)
      requires Valid() && at <= clock
      modifies this, store
      ensures Valid() && inflight == old(inflight)
      ensures State() == Step(old(State()), Event.ClaimDue(limit, leaseMs, at))
      ensures |claimed| <= limit
      ensures views == old(views) + (set v | v in claimed)
      ensures forall v <- claimed :: v !in old(views)
      ensures forall i, j :: 0 <= i < j < |claimed| ==> claimed[i].id != claimed[j].id
    {
      ghost var w := State();
      StepKeepsInv(w, Event.ClaimDue(limit, leaseMs, at));
      RunsKnowTheirIds(w);
      hide Inv, Chosen, LeaseAll, ViewOf, Leased;
      claimed := store.ClaimDue(limit, leaseMs, at);
      ClaimedViewsAreNew(w, limit, leaseMs, at, claimed);
      ghost var after := AfterClaim(w, limit, leaseMs, at);
      views := after.views;
      logs := after.logs;
    }

    /**
     * One task: drive the view one step if the run's lease is granted, then free the slot. Losing the lease drops
     * the task, but a failure is committed by a detached task, and any commit may already be made: `landed` says
     * whether it gets through. Only the version decides whether it counts.
     */
    method ProcessRun(view: RunView, lease: LeaseReply, authorityLost: bool, landed: bool, outcome: Outcome)
      requires Valid() && view in views && inflight > 0
      modifies this, store
      ensures Valid() && inflight == old(inflight) - 1
      ensures lease.Granted? && (authorityLost ==> landed) ==>
        State() == Step(old(State()), Event.WorkerCommit(view, outcome))
      ensures !lease.Granted? || (authorityLost && !landed) ==> State() == old(State())
    {
      hide Inv, Decide, CommitTo;
      if lease.Granted? && (!authorityLost || landed) {
        StepKeepsInv(State(), Event.WorkerCommit(view, outcome));
        ghost var after := Step(State(), Event.WorkerCommit(view, outcome));
        var _ := DoProcessRun(view, outcome);
        logs := after.logs;
      }
      inflight := inflight - 1;
    }

    /** Decide from the snapshot and attempt the commit; one handler per kind of step. */
    method DoProcessRun(view: RunView, outcome: Outcome) returns (c: Commit)
      modifies store
      ensures (store.runs, c) == CommitTo(old(store.runs), view.id, view.version, Decide(view, outcome), clock)
    {
      hide CommitTo, StepName, FailureRow, SleepRow, SleepMs;
      var steps := view.json.steps;
      var idx := view.json.currentStepIndex;
      if idx >= |steps| {
        c := store.SucceedComplete(view.id, view.version, None, view.json.context, clock);
        return;
      }
      var step := steps[idx];
      match KindOf(step)
      case Activity => c := RunActivity(view, step, idx, outcome);
      case Sleep => c := store.EnterSleep(view.id, view.version, SleepRow(step, idx), SleepMs(step), idx + 1, clock);
      case WaitSignal => c := RunWaitSignal(view, step, idx);
      case Unknown(ty) => c := TerminalFailure(view, step, idx, UnknownStepType(ty));
    }

    method TerminalFailure(view: RunView, step: Json, idx: nat, reason: Reason) returns (c: Commit)
      modifies store
      ensures (store.runs, c) ==
        CommitTo(old(store.runs), view.id, view.version, Worker.TerminalFailure(step, idx, reason), clock)
    {
      c := store.FailTerminal(view.id, view.version, FailureRow(step, idx, reason), reason, clock);
    }

    method RunActivity(view: RunView, step: Json, idx: nat, outcome: Outcome) returns (c: Commit)
      modifies store
      ensures (store.runs, c) ==
        CommitTo(old(store.runs), view.id, view.version, DecideActivity(view.json, step, idx, outcome), clock)
    {
      hide CommitTo, StepName, FailureRow, ActivitySuccessRow, ActivityFailureRow, ActivityRef, Retry.MaxAttempts,
        Retry.BackoffMs, Retry.RetryConfig;
      var functionRef := ActivityRef(step);
      if functionRef.None? {
        c := TerminalFailure(view, step, idx, NoFunction);
        return;
      }
      var attempt := view.json.attempt;
      match outcome
      case ActivityOk(output, oversized) =>
        var context := view.json.context;
        context := context[StepName(step, idx) := output];
        if oversized {
          c := TerminalFailure(view, step, idx, ContextOversized);
          return;
        }
        var row := ActivitySuccessRow(step, idx, functionRef.value, attempt, output);
        if idx + 1 >= |view.json.steps| {
          c := store.SucceedComplete(view.id, view.version, Some(row), context, clock);
        } else {
          c := store.SucceedAdvance(view.id, view.version, row, idx + 1, context, clock);
        }
      case ActivityErr(text) =>
        var newAttempt := attempt + 1;
        var retry := Retry.RetryConfig(view.json.defaultRetry, step);
        var row := ActivityFailureRow(step, idx, functionRef.value, attempt, ActivityError(text));
        if newAttempt < Retry.MaxAttempts(retry) {
          var backoff := Retry.BackoffMs(retry, attempt);
          c := store.FailRetry(view.id, view.version, row, newAttempt, backoff, ActivityError(text), clock);
        } else {
          c := store.FailTerminal(view.id, view.version, row, ActivityError(text), clock);
        }
    }

    /** Search the snapshot's signals in order; take the first of the step's name, or park. */
    method RunWaitSignal(view: RunView, step: Json, idx: nat) returns (c: Commit)
      modifies store
      ensures (store.runs, c) ==
        CommitTo(old(store.runs), view.id, view.version, DecideWait(view.json, step, idx, view.nowMs), clock)
    {
      hide CommitTo, StepName, FailureRow, WaitRow, WaitTimeout, FirstMatch;
      var name := SignalName(step);
      var signals := view.json.signals;
      var position := 0;
      while position < |signals| && signals[position].name != Str(name)
        invariant position <= |signals|
        invariant forall i :: 0 <= i < position ==> !Named(signals, name, i)
      {
        position := position + 1;
      }
      if position < |signals| {
        FirstMatchIsUnique(signals, name, position);
        var payload := signals[position].payload;
        var context := view.json.context[StepName(step, idx) := payload];
        c := store.ConsumeSignal(view.id, view.version, WaitRow(step, idx, payload), idx + 1, context, position, clock);
      } else {
        assert FirstMatch(signals, name).None?;
        var deadline := view.json.waitDeadlineMs;
        if view.json.status.Waiting? {
          if deadline.Some? && view.nowMs >= deadline.value {
            c := TerminalFailure(view, step, idx, SignalWaitTimeout(name));
          } else {
            c := store.ReparkWait(view.id, view.version, clock);
          }
        } else {
          c := store.ParkWait(view.id, view.version, WaitTimeout(step), clock);
        }
      }
    }
  }

  lemma RunsKnowTheirIds(w: World)
    requires Inv(w)
    ensures forall id <- w.runs :: w.runs[id].id == id
  {
    hide Replay, Legal;
  }

  /** Every claim issues fresh views, of different runs. */
  lemma ClaimedViewsAreNew(w: World, limit: nat, leaseMs: int, at: int, claimed: seq<RunView>)
    requires Inv(w) && at <= w.now
    requires var chosen := Chosen(w.runs, limit, at);
             && Ids(chosen) <= w.runs.Keys && |claimed| == |chosen|
             && forall k :: 0 <= k < |chosen| ==> claimed[k] == ViewOf(Leased(w.runs[chosen[k]], leaseMs, at), at)
    ensures AfterClaim(w, limit, leaseMs, at).views == w.views + (set v | v in claimed)
    ensures forall v <- claimed :: v !in w.views
    ensures forall i, j :: 0 <= i < j < |claimed| ==> claimed[i].id != claimed[j].id
    ensures |claimed| <= limit
  {
    hide Replay, Legal, Chosen;
    var chosen := Chosen(w.runs, limit, at);
    ClaimIsExact(w.runs, limit, at);
    forall k | 0 <= k < |claimed|
      ensures claimed[k].id == chosen[k]
      ensures claimed[k] in AfterClaim(w, limit, leaseMs, at).views && claimed[k] !in w.views
    {
      InvAt(w, chosen[k]);
      assert chosen[k] in Ids(chosen);
    }
  }
}
