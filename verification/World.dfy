/**
 * The concurrent system: the run table, a clock, every view ever handed to a worker, and a log per run.
 * Any event may happen at any time; a view may be used by its worker arbitrarily late, or more than once.
 * Events that cannot happen are no-ops, so every sequence of events is a run of the system.
 */
module World {
  import opened Wrappers
  import opened Arith
  import opened Json
  import opened Steps
  import opened Store
  import opened Worker
  import opened Interpreter
  import opened Sequential
  import Retry

  datatype World = World(now: int, runs: Table, views: set<RunView>, logs: map<RunId, Log>)

  /** `at` is a clock reading taken before the lock, so it may lag behind the clock. */
  datatype Event =
    | Tick(ms: nat)
    | CreateRun(id: RunId, steps: seq<Json>, defaultRetry: Json, input: Json, key: Option<string>, at: int)
    | ClaimDue(limit: nat, leaseMs: int, at: int)
    | DeliverSignal(id: RunId, signal: Signal)
    | CancelRun(id: RunId)
    | GcTerminal(retainMs: int, at: int)
    | WorkerCommit(view: RunView, outcome: Outcome)

  function Init(): World {
    World(0, map[], {}, map[])
  }

  function Append(logs: map<RunId, Log>, id: RunId, e: Entry): map<RunId, Log> {
    if id in logs then logs[id := Then(logs[id], e)] else logs
  }

  function AfterCreate(w: World, ev: Event): World
    requires ev.CreateRun?
  {
    if ev.id in w.logs || ev.steps == [] || ev.at > w.now then w
    else
      w.(runs := w.runs[ev.id := NewRun(ev.id, ev.steps, ev.defaultRetry, ev.input, ev.key, ev.at)],
         logs := w.logs[ev.id := Born(Source(ev.steps, ev.defaultRetry, ev.input, ev.key, ev.at))])
  }

  function AfterClaim(w: World, limit: nat, leaseMs: int, at: int): World {
    var ids := Ids(Chosen(w.runs, limit, at));
    w.(runs := LeaseAll(w.runs, ids, leaseMs, at),
       views := w.views + set id | id in ids && id in w.runs :: ViewOf(Leased(w.runs[id], leaseMs, at), at),
       logs := map id | id in w.logs :: if id in ids then Then(w.logs[id], Claimed(at, leaseMs)) else w.logs[id])
  }

  function AfterCommit(w: World, view: RunView, outcome: Outcome): World {
    var (runs, c) := CommitTo(w.runs, view.id, view.version, Decide(view, outcome), w.now);
    w.(runs := runs, logs := if c.Committed? then Append(w.logs, view.id, Performed(view.nowMs, w.now, outcome))
      else w.logs)
  }

  function Step(w: World, ev: Event): World {
    match ev
    case Tick(ms) => if w.now + ms < NEVER then w.(now := w.now + ms) else w
    case CreateRun(_, _, _, _, _, _) => AfterCreate(w, ev)
    case ClaimDue(limit, leaseMs, at) => if at > w.now then w else AfterClaim(w, limit, leaseMs, at)
    case DeliverSignal(id, signal) =>
      var (runs, r) := Deliver(w.runs, id, signal, w.now);
      w.(runs := runs, logs := if r.Ok? then Append(w.logs, id, Delivered(signal, w.now)) else w.logs)
    case CancelRun(id) =>
      var (runs, c) := Cancel(w.runs, id, w.now);
      w.(runs := runs, logs := if c.Committed? then Append(w.logs, id, Stopped(w.now)) else w.logs)
    case GcTerminal(retainMs, at) => if at > w.now then w else w.(runs := Retained(w.runs, at - Max(retainMs, 0)))
    case WorkerCommit(view, outcome) => if view !in w.views then w else AfterCommit(w, view, outcome)
  }

  function Play(w: World, evs: seq<Event>): World {
    if evs == [] then w else Step(Play(w, evs[..|evs| - 1]), evs[|evs| - 1])
  }

  /** The state after a sequence of events, from the empty store. */
  function Exec(evs: seq<Event>): World {
    Play(Init(), evs)
  }

  // ---- the inductive invariant ----

  function MachineOf(r: Run): Machine {
    Machine(Source(r.steps, r.defaultRetry, r.input, r.idempotencyKey, r.createdAt), r.status, r.currentStepIndex,
            r.attempt, r.context, r.signals, r.waitDeadlineMs, r.nextRunAtMs, r.stepRuns, r.error, r.updatedAt)
  }

  function Shown(m: Machine): RunJson {
    RunJson(m.status, m.src.input, m.env, m.src.program, m.src.defaultRetry, m.pc, m.attempt, m.inbox, m.deadline)
  }

  /** A stored run is the sequential machine after its log; its version counts the entries. */
  predicate Tracks(id: RunId, r: Run, log: Log) {
    r.id == id && r.version == Length(log) && MachineOf(r) == Replay(log) && r.leaseUntilMs == LeaseEnd(log)
  }

  /** A view is what its claim saw: the machine after the log prefix that ends in that claim. */
  predicate Issued(v: RunView, log: Log) {
    && v.version <= Length(log)
    && var p := Prefix(log, v.version);
       p.Then? && p.entry.Claimed? && p.entry.at == v.nowMs && v.json == Shown(Replay(p))
  }

  ghost predicate Inv(w: World) {
    && w.now < NEVER
    && w.runs.Keys <= w.logs.Keys
    && (forall id <- w.logs :: Legal(w.logs[id]) && Replay(w.logs[id]).touchedAt <= w.now)
    && (forall id <- w.runs :: Tracks(id, w.runs[id], w.logs[id]))
    && (forall id <- w.logs :: id !in w.runs ==> !Active(Replay(w.logs[id])))
    && (forall v <- w.views :: v.id in w.logs && Issued(v, w.logs[v.id]))
  }

  // ---- a commit on a current snapshot is one step of the machine ----

  lemma ActivityRefines(r: Run, v: RunView, outcome: Outcome, now: int)
    requires v.json == ToJson(r) && WellFormed(MachineOf(r))
    requires r.currentStepIndex < |r.steps| && KindOf(r.steps[r.currentStepIndex]).Activity?
    ensures MachineOf(Apply(r, Decide(v, outcome), now)) == Perform(MachineOf(r), v.nowMs, now, outcome)
  {
    hide StepName, KindOf, ActivityRef, FailureRow, ActivitySuccessRow, ActivityFailureRow, PerformAwait, DecideWait,
      Retry.BackoffMs, Retry.MaxAttempts, Retry.RetryConfig;
  }

  lemma WaitRefines(r: Run, v: RunView, outcome: Outcome, now: int)
    requires v.json == ToJson(r) && WellFormed(MachineOf(r))
    requires r.currentStepIndex < |r.steps| && KindOf(r.steps[r.currentStepIndex]).WaitSignal?
    ensures MachineOf(Apply(r, Decide(v, outcome), now)) == Perform(MachineOf(r), v.nowMs, now, outcome)
  {
    hide StepName, KindOf, SignalName, WaitTimeout, FailureRow, WaitRow, PerformCall, DecideActivity, WellFormed;
    if FirstMatch(r.signals, SignalName(r.steps[r.currentStepIndex])).Some? {
    } else if r.status.Waiting? {
    } else {
    }
  }

  /**
   * Deciding from a snapshot and committing it later does what the sequential machine does in one step,
   * as long as the snapshot is the run's current state.
   */
  lemma CurrentCommitRefines(r: Run, v: RunView, outcome: Outcome, now: int)
    requires v.json == ToJson(r) && WellFormed(MachineOf(r))
    ensures MachineOf(Apply(r, Decide(v, outcome), now)) == Perform(MachineOf(r), v.nowMs, now, outcome)
  {
    hide StepName, KindOf, SleepMs;
    if r.currentStepIndex < |r.steps| {
      match KindOf(r.steps[r.currentStepIndex]) {
        case Activity => ActivityRefines(r, v, outcome, now);
        case WaitSignal => WaitRefines(r, v, outcome, now);
        case _ =>
      }
    }
  }

  // ---- every event preserves the invariant ----

  /**
   * A view whose version is the run's is a picture of the run, and the claim that took it is the last thing that
   * happened.
   */
  lemma MatchingVersionMeansCurrent(id: RunId, r: Run, log: Log, v: RunView)
    requires Legal(log) && Tracks(id, r, log) && Issued(v, log) && v.version == r.version
    ensures v.json == ToJson(r) && Active(Replay(log)) && log.Then? && log.entry.Claimed? && log.entry.at == v.nowMs
    ensures Replay(log).wakeAt <= v.nowMs < NEVER
  {
    hide Perform;
  }

  lemma CommitKeepsTracking(id: RunId, r: Run, log: Log, v: RunView, outcome: Outcome, now: int)
    requires Legal(log) && Tracks(id, r, log) && Issued(v, log) && v.version == r.version
    requires Replay(log).touchedAt <= now
    ensures var log' := Then(log, Performed(v.nowMs, now, outcome));
            Legal(log') && Tracks(id, Apply(r, Decide(v, outcome), now), log') && Replay(log').touchedAt <= now
  {
    hide Perform, Decide;
    MatchingVersionMeansCurrent(id, r, log, v);
    LegalIsWellFormed(log);
    CurrentCommitRefines(r, v, outcome, now);
    assert MachineOf(Apply(r, Decide(v, outcome), now)).touchedAt == now;
  }

  lemma IssuedStaysIssued(v: RunView, log: Log, e: Entry)
    requires Issued(v, log)
    ensures Issued(v, Then(log, e))
  {
  }

  lemma ClaimKeepsTracking(id: RunId, r: Run, log: Log, leaseMs: int, at: int, now: int)
    requires Legal(log) && Tracks(id, r, log) && Due(r, at) && at <= now < NEVER && Replay(log).touchedAt <= now
    ensures var log', r' := Then(log, Claimed(at, leaseMs)), Leased(r, leaseMs, at);
            Legal(log') && Tracks(id, r', log') && Replay(log').touchedAt <= now && Issued(ViewOf(r', at), log')
  {
    hide Perform;
  }

  lemma ClaimKeepsInv(w: World, limit: nat, leaseMs: int, at: int)
    requires Inv(w) && at <= w.now
    ensures Inv(AfterClaim(w, limit, leaseMs, at))
  {
    hide Perform, Legal, Issued, Replay, Tracks;
    var ids := Ids(Chosen(w.runs, limit, at));
    ClaimIsExact(w.runs, limit, at);
    var w' := AfterClaim(w, limit, leaseMs, at);
    forall id | id in ids
      ensures id in w.runs && Legal(w'.logs[id]) && Tracks(id, w'.runs[id], w'.logs[id])
      ensures Replay(w'.logs[id]).touchedAt <= w'.now
      ensures Issued(ViewOf(w'.runs[id], at), w'.logs[id]) && w'.runs[id].id == id
    {
      ClaimKeepsTracking(id, w.runs[id], w.logs[id], leaseMs, at, w.now);
      TracksHasId(id, w'.runs[id], w'.logs[id]);
    }
    forall v | v in w'.views ensures v.id in w'.logs && Issued(v, w'.logs[v.id]) {
      if v in w.views {
        IssuedStaysIssued(v, w.logs[v.id], Claimed(at, leaseMs));
      }
    }
  }

  lemma TracksHasId(id: RunId, r: Run, log: Log)
    requires Tracks(id, r, log)
    ensures r.id == id
  {
  }

  /** Replacing one run and appending one entry to its log, both consistently, keeps the invariant. */
  lemma OneRunMoves(w: World, id: RunId, r: Run, e: Entry)
    requires Inv(w) && id in w.runs
    requires Legal(Then(w.logs[id], e)) && Tracks(id, r, Then(w.logs[id], e))
      && Replay(Then(w.logs[id], e)).touchedAt <= w.now
    ensures Inv(w.(runs := w.runs[id := r], logs := Append(w.logs, id, e)))
  {
    hide Perform, Legal, Issued, Replay, Tracks;
    forall v | v in w.views && v.id == id ensures Issued(v, Then(w.logs[id], e)) {
      IssuedStaysIssued(v, w.logs[id], e);
    }
  }

  lemma DeliverKeepsInv(w: World, id: RunId, signal: Signal)
    requires Inv(w)
    ensures Inv(Step(w, DeliverSignal(id, signal)))
  {
    hide Perform, Inv;
    if Deliver(w.runs, id, signal, w.now).1.Ok? {
      InvAt(w, id);
      OneRunMoves(w, id, Signaled(w.runs[id], signal, w.now), Delivered(signal, w.now));
    }
  }

  lemma CancelKeepsInv(w: World, id: RunId)
    requires Inv(w)
    ensures Inv(Step(w, CancelRun(id)))
  {
    hide Perform, Inv;
    if Cancel(w.runs, id, w.now).1.Committed? {
      InvAt(w, id);
      OneRunMoves(w, id, CanceledRun(w.runs[id], w.now), Stopped(w.now));
    }
  }

  lemma CommitKeepsInv(w: World, view: RunView, outcome: Outcome)
    requires Inv(w) && view in w.views
    ensures Inv(AfterCommit(w, view, outcome))
  {
    hide Perform, Decide, Apply, Inv, Legal, Issued, Replay, Tracks;
    var id := view.id;
    if Guard(w.runs, id, view.version).None? {
      InvAt(w, id);
      ViewIsIssued(w, view);
      CommitKeepsTracking(id, w.runs[id], w.logs[id], view, outcome, w.now);
      OneRunMoves(w, id, Apply(w.runs[id], Decide(view, outcome), w.now), Performed(view.nowMs, w.now, outcome));
    }
  }

  lemma InvAt(w: World, id: RunId)
    requires Inv(w) && id in w.runs
    ensures id in w.logs && Legal(w.logs[id]) && Tracks(id, w.runs[id], w.logs[id])
      && Replay(w.logs[id]).touchedAt <= w.now
  {
  }

  lemma ViewIsIssued(w: World, v: RunView)
    requires Inv(w) && v in w.views
    ensures v.id in w.logs && Issued(v, w.logs[v.id])
  {
  }

  lemma CreateKeepsInv(w: World, ev: Event)
    requires Inv(w) && ev.CreateRun?
    ensures Inv(AfterCreate(w, ev))
  {
    hide Perform;
  }

  lemma GcKeepsInv(w: World, cutoff: int)
    requires Inv(w)
    ensures Inv(w.(runs := Retained(w.runs, cutoff)))
  {
    hide Perform, Legal, Issued, Replay;
  }

  lemma StepKeepsInv(w: World, ev: Event)
    requires Inv(w)
    ensures Inv(Step(w, ev))
  {
    hide Perform, Legal, Issued, Replay, Tracks, AfterClaim, AfterCommit, AfterCreate, Deliver, Cancel, Retained;
    match ev
    case Tick(ms) =>
    case CreateRun(_, _, _, _, _, _) => CreateKeepsInv(w, ev);
    case ClaimDue(limit, leaseMs, at) => if at <= w.now { ClaimKeepsInv(w, limit, leaseMs, at); }
    case DeliverSignal(id, signal) => DeliverKeepsInv(w, id, signal);
    case CancelRun(id) => CancelKeepsInv(w, id);
    case GcTerminal(retainMs, at) => GcKeepsInv(w, at - Max(retainMs, 0));
    case WorkerCommit(view, outcome) => if view in w.views { CommitKeepsInv(w, view, outcome); }
  }

  lemma {:induction false} PlayKeepsInv(w: World, evs: seq<Event>)
    requires Inv(w)
    ensures Inv(Play(w, evs))
  {
    if evs != [] {
      PlayKeepsInv(w, evs[..|evs| - 1]);
      StepKeepsInv(Play(w, evs[..|evs| - 1]), evs[|evs| - 1]);
    }
  }

  /** In every state the system can reach, each run is the sequential replay of its legal log. */
  lemma Reachable(evs: seq<Event>)
    ensures Inv(Exec(evs))
  {
    PlayKeepsInv(Init(), evs);
  }
}
