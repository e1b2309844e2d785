/** The run table, its guarded commit operations, and the scheduler's claim. */
module Store {
  import opened Wrappers
  import opened Arith
  import opened Json
  import opened Steps

  /** Run ids are UUID strings of one fixed length; only their total order matters here. */
  type RunId = nat

  const MAX_PENDING_SIGNALS: nat := 1024

  /** The wake-up time of a run parked without a deadline (`i64::MAX`). */
  const NEVER := I64_MAX

  datatype Status = Pending | Running | Waiting | Completed | Failed | Canceled

  predicate Terminal(s: Status) {
    s.Completed? || s.Failed? || s.Canceled?
  }

  datatype Signal = Signal(name: Json, payload: Json)

  datatype Run = Run(
    id: RunId,
    status: Status,
    input: Json,
    context: map<string, Json>,
    steps: seq<Json>,
    defaultRetry: Json,
    currentStepIndex: nat,
    attempt: nat,
    signals: seq<Signal>,
    waitDeadlineMs: Option<int>,
    nextRunAtMs: int,
    leaseUntilMs: int,
    idempotencyKey: Option<string>,
    error: Option<Reason>,
    stepRuns: seq<StepRow>,
    createdAt: int,
    updatedAt: int,
    version: nat)

  /** The part of a run that its JSON form shows to a worker: no wake-up time, lease or history. */
  datatype RunJson = RunJson(
    status: Status,
    input: Json,
    context: map<string, Json>,
    steps: seq<Json>,
    defaultRetry: Json,
    currentStepIndex: nat,
    attempt: nat,
    signals: seq<Signal>,
    waitDeadlineMs: Option<int>)

  function ToJson(r: Run): RunJson {
    RunJson(r.status, r.input, r.context, r.steps, r.defaultRetry,
            r.currentStepIndex, r.attempt, r.signals, r.waitDeadlineMs)
  }

  datatype RunView = RunView(id: RunId, json: RunJson, nowMs: int, version: nat)

  datatype Commit = Committed(run: Run) | Conflict(id: RunId) | Refused(why: string)

  type Table = map<RunId, Run>

  const NOT_FOUND := "workflow run not found"

  // ---- creation, signals, cancellation, eviction ----

  function NewRun(id: RunId, steps: seq<Json>, defaultRetry: Json, input: Json, key: Option<string>, now: int): Run {
    Run(id, Pending, input, map[], steps, defaultRetry, 0, 0, [], None, now, 0, key, None, [], now, now, 0)
  }

  /** Some run, finished or not, was created under this key. */
  predicate HasKey(runs: Table, key: string) {
    key != "" && exists id <- runs :: runs[id].idempotencyKey == Some(key)
  }

  function Signaled(r: Run, signal: Signal, now: int): Run {
    r.(signals := r.signals + [signal], nextRunAtMs := now, leaseUntilMs := 0,
       updatedAt := now, version := r.version + 1)
  }

  function Deliver(runs: Table, id: RunId, signal: Signal, now: int): (Table, Result<Run>) {
    if id !in runs then (runs, Result.Err(NOT_FOUND))
    else if Terminal(runs[id].status) then (runs, Result.Err("workflow run is not active"))
    else if |runs[id].signals| >= MAX_PENDING_SIGNALS then
      (runs, Result.Err("workflow run has too many undelivered signals"))
    else
      var r := Signaled(runs[id], signal, now);
      (runs[id := r], Ok(r))
  }

  function CanceledRun(r: Run, now: int): Run {
    r.(status := Canceled, updatedAt := now, version := r.version + 1)
  }

  function Cancel(runs: Table, id: RunId, now: int): (Table, Commit) {
    if id !in runs then (runs, Refused(NOT_FOUND))
    else if Terminal(runs[id].status) then (runs, Conflict(id))
    else
      var r := CanceledRun(runs[id], now);
      (runs[id := r], Committed(r))
  }

  predicate Evictable(r: Run, cutoff: int) {
    Terminal(r.status) && r.updatedAt < cutoff
  }

  function Retained(runs: Table, cutoff: int): Table {
    map id | id in runs && !Evictable(runs[id], cutoff) :: runs[id]
  }

  // ---- claiming ----

  predicate Due(r: Run, now: int) {
    !Terminal(r.status) && r.nextRunAtMs <= now && r.leaseUntilMs <= now
  }

  function DueIds(runs: Table, now: int): set<RunId> {
    set id | id in runs && Due(runs[id], now)
  }

  predicate IsLeast(m: RunId, s: set<RunId>) {
    m in s && forall k :: k in s ==> m <= k
  }

  lemma {:induction false} LeastExists(s: set<RunId>)
    requires s != {}
    ensures exists m :: IsLeast(m, s)
  {
    var x :| x in s;
    var rest := s - {x};
    assert s == rest + {x};
    if rest == {} {
      assert IsLeast(x, s);
    } else {
      LeastExists(rest);
      var m :| IsLeast(m, rest);
      assert IsLeast(if m < x then m else x, s);
    }
  }

  function Least(s: set<RunId>): (m: RunId)
    requires s != {}
    ensures IsLeast(m, s)
  {
    LeastExists(s);
    var m :| IsLeast(m, s);
    m
  }

  function Sorted(s: set<RunId>): seq<RunId>
    decreases |s|
  {
    if s == {} then [] else [Least(s)] + Sorted(s - {Least(s)})
  }

  function Ids(ids: seq<RunId>): set<RunId> {
    set id | id in ids
  }

  lemma {:induction false} SortedIsSorted(s: set<RunId>)
    ensures |Sorted(s)| == |s| && Ids(Sorted(s)) == s
    ensures forall i, j :: 0 <= i < j < |s| ==> Sorted(s)[i] < Sorted(s)[j]
    decreases |s|
  {
    if s != {} {
      var rest := s - {Least(s)};
      SortedIsSorted(rest);
      forall j | 0 <= j < |rest| ensures Least(s) < Sorted(rest)[j] {
        assert Sorted(rest)[j] in Ids(Sorted(rest));
      }
      assert Ids(Sorted(s)) == {Least(s)} + Ids(Sorted(rest));
    }
  }

  function Truncate(ids: seq<RunId>, limit: nat): seq<RunId> {
    if |ids| <= limit then ids else ids[..limit]
  }

  /** The ids one claim leases: the smallest `limit` of those that are due. */
  function Chosen(runs: Table, limit: nat, now: int): seq<RunId> {
    Truncate(Sorted(DueIds(runs, now)), limit)
  }

  function Leased(r: Run, leaseMs: int, now: int): Run {
    r.(leaseUntilMs := now + leaseMs, status := if r.status.Pending? then Running else r.status,
       version := r.version + 1)
  }

  function ViewOf(r: Run, now: int): RunView {
    RunView(r.id, ToJson(r), now, r.version)
  }

  function LeaseAll(runs: Table, ids: set<RunId>, leaseMs: int, now: int): Table {
    map id | id in runs :: if id in ids then Leased(runs[id], leaseMs, now) else runs[id]
  }

  /** Unfinished, past its wake-up time, and without a lease. */
  lemma DueMeans(runs: Table, now: int, id: RunId)
    ensures id in DueIds(runs, now) <==>
      && id in runs
      && (runs[id].status.Pending? || runs[id].status.Running? || runs[id].status.Waiting?)
      && runs[id].nextRunAtMs <= now && runs[id].leaseUntilMs <= now
  {
  }

  /** A commit is refused for an unknown run, and in conflict for a canceled one or another version; else it applies. */
  lemma CommitAnswers(runs: Table, id: RunId, version: nat, op: CommitOp, now: int)
    ensures var (after, c) := CommitTo(runs, id, version, op, now);
            && (c.Refused? <==> id !in runs)
            && (c.Committed? <==> id in runs && !runs[id].status.Canceled? && runs[id].version == version)
            && (c.Committed? ==> after == runs[id := c.run] && c.run == Apply(runs[id], op, now))
            && (!c.Committed? ==> after == runs)
  {
    hide Apply;
  }

  /** A claim leases only due runs, each once, as many as allowed, and never skips a smaller id. */
  lemma ClaimIsExact(runs: Table, limit: nat, now: int)
    ensures var chosen, due := Chosen(runs, limit, now), DueIds(runs, now);
            && |chosen| == Min(limit, |due|)
            && Ids(chosen) <= due
            && (forall id :: id in chosen ==> id in runs && Due(runs[id], now))
            && (forall i, j :: 0 <= i < j < |chosen| ==> chosen[i] < chosen[j])
            && (forall id, k :: id in due && id !in chosen && 0 <= k < |chosen| ==> chosen[k] < id)
  {
    var due := DueIds(runs, now);
    var all := Sorted(due);
    SortedIsSorted(due);
    var chosen := Chosen(runs, limit, now);
    forall id | id in chosen ensures id in due { assert id in Ids(all); }
    forall id, k | id in due && id !in chosen && 0 <= k < |chosen| ensures chosen[k] < id {
      assert id in Ids(all);
      var j :| 0 <= j < |all| && all[j] == id;
    }
  }

  lemma LeaseNone(runs: Table, leaseMs: int, now: int)
    ensures LeaseAll(runs, Ids([]), leaseMs, now) == runs
  {
  }

  lemma LeaseOneMore(runs: Table, ids: seq<RunId>, k: nat, leaseMs: int, now: int)
    requires k < |ids| && ids[k] in runs
    requires forall i, j :: 0 <= i < j < |ids| ==> ids[i] < ids[j]
    ensures var before := LeaseAll(runs, Ids(ids[..k]), leaseMs, now);
            && ids[k] in before && before[ids[k]] == runs[ids[k]]
            && LeaseAll(runs, Ids(ids[..k + 1]), leaseMs, now) == before[ids[k] := Leased(runs[ids[k]], leaseMs, now)]
  {
    assert ids[k] !in ids[..k];
    assert ids[..k + 1] == ids[..k] + [ids[k]];
  }

  // ---- guarded commits ----

  datatype CommitOp =
    | SucceedComplete(maybeRow: Option<StepRow>, context: map<string, Json>)
    | SucceedAdvance(row: StepRow, nextIdx: nat, context: map<string, Json>)
    | FailRetry(row: StepRow, newAttempt: nat, backoffMs: int, reason: Reason)
    | FailTerminal(row: StepRow, reason: Reason)
    | EnterSleep(row: StepRow, durationMs: int, nextIdx: nat)
    | ConsumeSignal(row: StepRow, nextIdx: nat, context: map<string, Json>, position: nat)
    | ParkWait(deadline: Option<int>)
    | ReparkWait

  /** The refusal of a commit, or None when it may go ahead. */
  function Guard(runs: Table, id: RunId, expected: nat): Option<Commit> {
    if id !in runs then Some(Refused(NOT_FOUND))
    else if runs[id].status.Canceled? || runs[id].version != expected then Some(Conflict(id))
    else None
  }

  function Remove(signals: seq<Signal>, position: nat): seq<Signal> {
    if position < |signals| then signals[..position] + signals[position + 1..] else signals
  }

  function Apply(r: Run, op: CommitOp, now: int): Run {
    var r := r.(leaseUntilMs := 0, updatedAt := now, version := r.version + 1);
    match op
    case SucceedComplete(row, context) =>
      r.(stepRuns := if row.Some? then r.stepRuns + [row.value] else r.stepRuns,
         context := context, status := Completed, error := None)
    case SucceedAdvance(row, nextIdx, context) =>
      r.(stepRuns := r.stepRuns + [row], context := context, currentStepIndex := nextIdx,
         attempt := 0, status := Running, nextRunAtMs := now)
    case FailRetry(row, newAttempt, backoffMs, reason) =>
      r.(stepRuns := r.stepRuns + [row], attempt := newAttempt, error := Some(reason),
         status := Running, nextRunAtMs := now + Max(backoffMs, 0))
    case FailTerminal(row, reason) =>
      r.(stepRuns := r.stepRuns + [row], status := Failed, error := Some(reason))
    case EnterSleep(row, durationMs, nextIdx) =>
      r.(stepRuns := r.stepRuns + [row], currentStepIndex := nextIdx, attempt := 0,
         status := Running, nextRunAtMs := now + Max(durationMs, 0))
    case ConsumeSignal(row, nextIdx, context, position) =>
      r.(stepRuns := r.stepRuns + [row], signals := Remove(r.signals, position), context := context,
         currentStepIndex := nextIdx, attempt := 0, status := Running, waitDeadlineMs := None, nextRunAtMs := now)
    case ParkWait(deadline) =>
      var until := if deadline.Some? then Some(now + deadline.value) else None;
      r.(status := Waiting, waitDeadlineMs := until, nextRunAtMs := until.GetOr(NEVER))
    case ReparkWait =>
      r.(status := Waiting, nextRunAtMs := r.waitDeadlineMs.GetOr(NEVER))
  }

  function CommitTo(runs: Table, id: RunId, version: nat, op: CommitOp, now: int): (Table, Commit) {
    match Guard(runs, id, version)
    case Some(refusal) => (runs, refusal)
    case None =>
      var r := Apply(runs[id], op, now);
      (runs[id := r], Committed(r))
  }

  // ---- the store object: one method per critical section ----

  class Store {
    var runs: Table

    constructor ()
      ensures runs == map[]
    {
      runs := map[];
    }

    method RunForIdempotencyKey(key: string) returns (found: Option<Run>)
      ensures found.Some? ==> found.value in runs.Values && found.value.idempotencyKey == Some(key)
      ensures found.None? ==> forall id <- runs :: runs[id].idempotencyKey != Some(key)
    {
      var rest := runs.Keys;
      while rest != {}
        invariant rest <= runs.Keys
        invariant forall id <- runs :: id !in rest ==> runs[id].idempotencyKey != Some(key)
        decreases rest
      {
        var id :| id in rest;
        if runs[id].idempotencyKey == Some(key) {
          return Some(runs[id]);
        }
        rest := rest - {id};
      }
      found := None;
    }

    /** `create_run` once its definition is resolved; the search and the insert each take the lock on their own. */
    method CreateRun(id: RunId, steps: seq<Json>, defaultRetry: Json, input: Json, key: string, now: int)
      returns (r: Result<Run>)
      modifies this
      ensures steps == [] ==> runs == old(runs) && r.Err?
      ensures steps != [] && HasKey(old(runs), key) ==>
        runs == old(runs) && r.Ok? && r.value in runs.Values && r.value.idempotencyKey == Some(key)
      ensures steps != [] && !HasKey(old(runs), key) ==>
        var run := NewRun(id, steps, defaultRetry, input, if key == "" then None else Some(key), now);
        runs == old(runs)[id := run] && r == Ok(run)
    {
      if steps == [] {
        return Result.Err("workflow definition has no steps");
      }
      if key != "" {
        var existing := RunForIdempotencyKey(key);
        if existing.Some? {
          return Ok(existing.value);
        }
      }
      var run := InsertRun(id, steps, defaultRetry, input, key, now);
      r := Ok(run);
    }

    /** The insert half of `create_run`; `id` is a fresh UUID. */
    method InsertRun(id: RunId, steps: seq<Json>, defaultRetry: Json, input: Json, key: string, now: int)
      returns (run: Run)
      modifies this
      ensures run == NewRun(id, steps, defaultRetry, input, if key == "" then None else Some(key), now)
      ensures runs == old(runs)[id := run]
    {
      run := Run(id, Pending, input, map[], steps, defaultRetry, 0, 0, [], None, now, 0,
                 if key != "" then Some(key) else None, None, [], now, now, 0);
      runs := runs[id := run];
    }

    method DeliverSignal(id: RunId, name: Json, payload: Json, now: int) returns (r: Result<Run>)
      modifies this
      ensures (runs, r) == Deliver(old(runs), id, Signal(name, payload), now)
      ensures r.Ok? <==>
        && id in old(runs)
        && (old(runs)[id].status.Pending? || old(runs)[id].status.Running? || old(runs)[id].status.Waiting?)
        && |old(runs)[id].signals| < 1024
      ensures r.Ok? ==>
        var run := old(runs)[id];
        && r.value == run.(signals := run.signals + [Signal(name, payload)], nextRunAtMs := now, leaseUntilMs := 0,
                           updatedAt := now, version := run.version + 1)
        && runs == old(runs)[id := r.value]
      ensures r.Err? ==> runs == old(runs)
    {
      if id !in runs {
        return Result.Err(NOT_FOUND);
      }
      var run := runs[id];
      if run.status.Completed? || run.status.Failed? || run.status.Canceled? {
        return Result.Err("workflow run is not active");
      }
      if |run.signals| >= MAX_PENDING_SIGNALS {
        return Result.Err("workflow run has too many undelivered signals");
      }
      run := run.(signals := run.signals + [Signal(name, payload)]);
      run := run.(nextRunAtMs := now);
      run := run.(leaseUntilMs := 0);
      run := run.(updatedAt := now);
      run := run.(version := run.version + 1);
      runs := runs[id := run];
      r := Ok(run);
    }

    method CancelRun(id: RunId, now: int) returns (c: Commit)
      modifies this
      ensures (runs, c) == Cancel(old(runs), id, now)
      ensures c.Refused? <==> id !in old(runs)
      ensures c.Conflict? <==>
        id in old(runs)
        && (old(runs)[id].status.Completed? || old(runs)[id].status.Failed? || old(runs)[id].status.Canceled?)
      ensures c.Committed? ==>
        var run := old(runs)[id];
        && c.run == run.(status := Canceled, updatedAt := now, version := run.version + 1)
        && runs == old(runs)[id := c.run]
      ensures !c.Committed? ==> runs == old(runs)
    {
      if id !in runs {
        return Refused(NOT_FOUND);
      }
      var run := runs[id];
      if run.status.Completed? || run.status.Failed? || run.status.Canceled? {
        return Conflict(id);
      }
      run := run.(status := Canceled);
      run := run.(updatedAt := now, version := run.version + 1);
      runs := runs[id := run];
      c := Committed(run);
    }

    method GcTerminal(retainMs: int, now: int) returns (evicted: int)
      modifies this
      ensures runs == Retained(old(runs), now - Max(retainMs, 0))
      ensures forall id <- old(runs) ::
                var run := old(runs)[id];
                id !in runs <==>
                  && (run.status.Completed? || run.status.Failed? || run.status.Canceled?)
                  && now - run.updatedAt > (if retainMs < 0 then 0 else retainMs)
      ensures forall id <- runs :: id in old(runs) && runs[id] == old(runs)[id]
      ensures evicted == |old(runs)| - |runs|
    {
      var cutoff := now - Max(retainMs, 0);
      var before := |runs|;
      runs := map id | id in runs && !(Terminal(runs[id].status) && runs[id].updatedAt < cutoff) :: runs[id];
      evicted := before - |runs|;
    }

    method ClaimDue(limit: nat, leaseMs: int, now: int) returns (views: seq<RunView>)
      requires forall id <- runs :: runs[id].id == id
      modifies this
      ensures var chosen := Chosen(old(runs), limit, now);
              && runs == LeaseAll(old(runs), Ids(chosen), leaseMs, now)
              && Ids(chosen) <= old(runs).Keys
              && |views| == |chosen|
              && forall k :: 0 <= k < |chosen| ==> views[k] == ViewOf(Leased(old(runs)[chosen[k]], leaseMs, now), now)
    {
      hide DueIds, Sorted, Due, ToJson, LeaseAll, Truncate;
      LeaseNone(runs, leaseMs, now);
      var due := Sorted(DueIds(runs, now));
      due := Truncate(due, limit);
      ClaimIsExact(runs, limit, now);
      assert forall k :: 0 <= k < |due| ==> due[k] in due;
      views := [];
      assert due[..0] == [];
      for k := 0 to |due|
        invariant runs == LeaseAll(old(runs), Ids(due[..k]), leaseMs, now)
        invariant |views| == k
        invariant forall i :: 0 <= i < k ==> views[i] == ViewOf(Leased(old(runs)[due[i]], leaseMs, now), now)
      {
        LeaseOneMore(old(runs), due, k, leaseMs, now);
        var run := runs[due[k]];
        run := run.(leaseUntilMs := now + leaseMs);
        if run.status.Pending? {
          run := run.(status := Running);
        }
        run := run.(version := run.version + 1);
        assert run == Leased(old(runs)[due[k]], leaseMs, now);
        runs := runs[due[k] := run];
        views := views + [RunView(run.id, ToJson(run), now, run.version)];
      }
      assert due[..|due|] == due;
    }

    method SucceedComplete(id: RunId, version: nat, row: Option<StepRow>, context: map<string, Json>, now: int)
      returns (c: Commit)
      modifies this
      ensures (runs, c) == CommitTo(old(runs), id, version, CommitOp.SucceedComplete(row, context), now)
    {
      var refusal := Guard(runs, id, version);
      if refusal.Some? { return refusal.value; }
      var run := runs[id];
      if row.Some? { run := run.(stepRuns := run.stepRuns + [row.value]); }
      run := run.(context := context);
      run := run.(status := Completed, error := None);
      c := PutBack(run.(leaseUntilMs := 0, updatedAt := now), id);
    }

    method SucceedAdvance(id: RunId, version: nat, row: StepRow, nextIdx: nat, context: map<string, Json>, now: int)
      returns (c: Commit)
      modifies this
      ensures (runs, c) == CommitTo(old(runs), id, version, CommitOp.SucceedAdvance(row, nextIdx, context), now)
    {
      var refusal := Guard(runs, id, version);
      if refusal.Some? { return refusal.value; }
      var run := runs[id];
      run := run.(stepRuns := run.stepRuns + [row]);
      run := run.(context := context);
      run := run.(currentStepIndex := nextIdx, attempt := 0);
      run := run.(status := Running, nextRunAtMs := now);
      c := PutBack(run.(leaseUntilMs := 0, updatedAt := now), id);
    }

    method FailRetry(id: RunId, version: nat, row: StepRow, newAttempt: nat, backoffMs: int, reason: Reason, now: int)
      returns (c: Commit)
      modifies this
      ensures (runs, c) == CommitTo(old(runs), id, version, CommitOp.FailRetry(row, newAttempt, backoffMs, reason), now)
    {
      var refusal := Guard(runs, id, version);
      if refusal.Some? { return refusal.value; }
      var run := runs[id];
      run := run.(stepRuns := run.stepRuns + [row]);
      run := run.(attempt := newAttempt, error := Some(reason));
      run := run.(status := Running, nextRunAtMs := now + Max(backoffMs, 0));
      c := PutBack(run.(leaseUntilMs := 0, updatedAt := now), id);
    }

    method FailTerminal(id: RunId, version: nat, row: StepRow, reason: Reason, now: int) returns (c: Commit)
      modifies this
      ensures (runs, c) == CommitTo(old(runs), id, version, CommitOp.FailTerminal(row, reason), now)
    {
      var refusal := Guard(runs, id, version);
      if refusal.Some? { return refusal.value; }
      var run := runs[id];
      run := run.(stepRuns := run.stepRuns + [row]);
      run := run.(status := Failed, error := Some(reason));
      c := PutBack(run.(leaseUntilMs := 0, updatedAt := now), id);
    }

    method EnterSleep(id: RunId, version: nat, row: StepRow, durationMs: int, nextIdx: nat, now: int)
      returns (c: Commit)
      modifies this
      ensures (runs, c) == CommitTo(old(runs), id, version, CommitOp.EnterSleep(row, durationMs, nextIdx), now)
    {
      var refusal := Guard(runs, id, version);
      if refusal.Some? { return refusal.value; }
      var run := runs[id];
      run := run.(stepRuns := run.stepRuns + [row]);
      run := run.(currentStepIndex := nextIdx, attempt := 0);
      run := run.(status := Running, nextRunAtMs := now + Max(durationMs, 0));
      c := PutBack(run.(leaseUntilMs := 0, updatedAt := now), id);
    }

    method ConsumeSignal(id: RunId, version: nat, row: StepRow, nextIdx: nat, context: map<string, Json>,
                         position: nat, now: int)
      returns (c: Commit)
      modifies this
      ensures (runs, c) ==
        CommitTo(old(runs), id, version, CommitOp.ConsumeSignal(row, nextIdx, context, position), now)
    {
      var refusal := Guard(runs, id, version);
      if refusal.Some? { return refusal.value; }
      var run := runs[id];
      run := run.(stepRuns := run.stepRuns + [row]);
      if position < |run.signals| {
        run := run.(signals := run.signals[..position] + run.signals[position + 1..]);
      }
      run := run.(context := context);
      run := run.(currentStepIndex := nextIdx, attempt := 0);
      run := run.(status := Running, waitDeadlineMs := None, nextRunAtMs := now);
      c := PutBack(run.(leaseUntilMs := 0, updatedAt := now), id);
    }

    method ParkWait(id: RunId, version: nat, deadline: Option<int>, now: int) returns (c: Commit)
      modifies this
      ensures (runs, c) == CommitTo(old(runs), id, version, CommitOp.ParkWait(deadline), now)
    {
      var refusal := Guard(runs, id, version);
      if refusal.Some? { return refusal.value; }
      var run := runs[id].(status := Waiting);
      run := run.(waitDeadlineMs := if deadline.Some? then Some(now + deadline.value) else None);
      run := run.(nextRunAtMs := run.waitDeadlineMs.GetOr(NEVER));
      c := PutBack(run.(leaseUntilMs := 0, updatedAt := now), id);
    }

    method ReparkWait(id: RunId, version: nat, now: int) returns (c: Commit)
      modifies this
      ensures (runs, c) == CommitTo(old(runs), id, version, CommitOp.ReparkWait, now)
    {
      var refusal := Guard(runs, id, version);
      if refusal.Some? { return refusal.value; }
      var run := runs[id].(status := Waiting);
      run := run.(nextRunAtMs := run.waitDeadlineMs.GetOr(NEVER));
      c := PutBack(run.(leaseUntilMs := 0, updatedAt := now), id);
    }

    /** The end of every commit: bump the version and write the run back. */
    method PutBack(run: Run, id: RunId) returns (c: Commit)
      modifies this
      ensures runs == old(runs)[id := run.(version := run.version + 1)]
      ensures c == Committed(runs[id])
    {
      var bumped := run.(version := run.version + 1);
      runs := runs[id := bumped];
      c := Committed(bumped);
    }
  }
}
