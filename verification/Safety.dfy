/** The properties of every reachable state, in terms of the stored runs. */
module Safety {
  import opened Wrappers
  import opened Arith
  import opened Json
  import opened Steps
  import opened Store
  import opened Worker
  import opened Interpreter
  import opened Sequential
  import opened World
  import Retry

  // ---- commits are atomic steps ----

  /**
   * A commit is accepted exactly when its view carries the version of a stored run. Then the view shows the
   * run's current state, and the commit is one step of the sequential machine; the claim that took the
   * view is the last thing that happened to the run, so nothing came in between.
   */
  lemma CommitIsOneAtomicStep(evs: seq<Event>, v: RunView, outcome: Outcome)
    requires v in Exec(evs).views
    ensures var w := Exec(evs);
            Guard(w.runs, v.id, v.version).None? <==> v.id in w.runs && w.runs[v.id].version == v.version
    ensures var w, w' := Exec(evs), Step(Exec(evs), WorkerCommit(v, outcome));
            Guard(w.runs, v.id, v.version).None? ==>
              && v.id in w.logs && w.logs[v.id].Then? && w.logs[v.id].entry.Claimed?
              && v.json == ToJson(w.runs[v.id]) && !Terminal(w.runs[v.id].status)
              && w'.runs.Keys == w.runs.Keys
              && MachineOf(w'.runs[v.id]) == Perform(MachineOf(w.runs[v.id]), v.nowMs, w.now, outcome)
              && w'.logs[v.id] == Then(w.logs[v.id], Performed(v.nowMs, w.now, outcome))
    ensures var w, w' := Exec(evs), Step(Exec(evs), WorkerCommit(v, outcome));
            Guard(w.runs, v.id, v.version).Some? ==> w' == w
  {
    hide Decide, Apply, Perform, Legal, Issued, Exec, Inv;
    var w := Exec(evs);
    Reachable(evs);
    ViewIsIssued(w, v);
    if v.id in w.runs {
      InvAt(w, v.id);
      if w.runs[v.id].version == v.version {
        var r := w.runs[v.id];
        MatchingVersionMeansCurrent(v.id, r, w.logs[v.id], v);
        LegalIsWellFormed(w.logs[v.id]);
        CurrentCommitRefines(r, v, outcome, w.now);
      }
    }
  }

  /** Two views of one run with one version are the same view. */
  lemma ViewsAreUnique(evs: seq<Event>, v: RunView, v': RunView)
    requires v in Exec(evs).views && v' in Exec(evs).views
    requires v.id == v'.id && v.version == v'.version
    ensures v == v'
  {
    hide Exec, Replay, Legal;
    Reachable(evs);
    ViewIsIssued(Exec(evs), v);
    ViewIsIssued(Exec(evs), v');
  }

  // ---- logs only grow ----

  ghost predicate Extends(log: Log, longer: Log) {
    Length(log) <= Length(longer) && Prefix(longer, Length(log)) == log
  }

  lemma {:induction false} ExtendsIsTransitive(a: Log, b: Log, c: Log)
    requires Extends(a, b) && Extends(b, c)
    ensures Extends(a, c)
    decreases c
  {
    if Length(b) < Length(c) { ExtendsIsTransitive(a, b, c.prev); }
  }

  lemma StepExtendsLogs(w: World, ev: Event, id: RunId)
    requires id in w.logs
    ensures id in Step(w, ev).logs && Extends(w.logs[id], Step(w, ev).logs[id])
    ensures id !in w.runs ==> id !in Step(w, ev).runs
  {
    hide Decide, Apply, Chosen;
    var log' := Step(w, ev).logs[id];
    if log' != w.logs[id] {
      assert log'.Then? && log'.prev == w.logs[id];
      assert Prefix(log', Length(w.logs[id])) == w.logs[id];
    }
  }

  lemma {:induction false} LogsExtend(w: World, evs: seq<Event>, id: RunId)
    requires id in w.logs
    ensures id in Play(w, evs).logs && Extends(w.logs[id], Play(w, evs).logs[id])
    ensures id !in w.runs ==> id !in Play(w, evs).runs
  {
    hide Step;
    if evs != [] {
      var before := Play(w, evs[..|evs| - 1]);
      LogsExtend(w, evs[..|evs| - 1], id);
      StepExtendsLogs(before, evs[|evs| - 1], id);
      ExtendsIsTransitive(w.logs[id], before.logs[id], Step(before, evs[|evs| - 1]).logs[id]);
    }
  }

  /** Once a view's commit is accepted, no later commit with that view ever is, whatever happens in between. */
  lemma ViewCommitsAtMostOnce(evs: seq<Event>, v: RunView, outcome: Outcome, more: seq<Event>)
    requires v in Exec(evs).views
    requires Guard(Exec(evs).runs, v.id, v.version).None?
    ensures Guard(Play(Step(Exec(evs), WorkerCommit(v, outcome)), more).runs, v.id, v.version).Some?
  {
    hide Step, Exec, Legal, Replay;
    var w, w' := Exec(evs), Step(Exec(evs), WorkerCommit(v, outcome));
    CommitIsOneAtomicStep(evs, v, outcome);
    Reachable(evs);
    StepKeepsInv(w, WorkerCommit(v, outcome));
    PlayKeepsInv(w', more);
    LogsExtend(w', more, v.id);
    if v.id in Play(w', more).runs {
      InvAt(Play(w', more), v.id);
      InvAt(w, v.id);
    }
  }

  lemma {:induction false} NothingFollowsTheEnd(log: Log, longer: Log)
    requires Legal(longer) && Extends(log, longer) && !Active(Replay(log))
    ensures longer == log
    decreases longer
  {
    hide Next, Admissible;
    if Length(log) < Length(longer) { NothingFollowsTheEnd(log, longer.prev); }
  }

  /**
   * Terminal states are absorbing, and an evicted run never comes back: whatever happens next, a finished
   * run's log stays as it is, and the run is either stored unchanged or gone for good.
   */
  lemma TerminalIsForever(evs: seq<Event>, more: seq<Event>, id: RunId)
    requires var w := Exec(evs); id in w.logs && (id in w.runs ==> Terminal(w.runs[id].status))
    ensures var w, w' := Exec(evs), Play(Exec(evs), more);
            && id in w'.logs && w'.logs[id] == w.logs[id]
            && (id in w'.runs ==> id in w.runs && w'.runs[id] == w.runs[id])
  {
    hide Step, Exec, Legal, Replay;
    var w, w' := Exec(evs), Play(Exec(evs), more);
    Reachable(evs);
    PlayKeepsInv(w, more);
    LogsExtend(w, more, id);
    if id in w.runs { InvAt(w, id); }
    NothingFollowsTheEnd(w.logs[id], w'.logs[id]);
    if id in w'.runs { InvAt(w', id); }
  }

  /** Only finished runs are ever evicted. */
  lemma OnlyFinishedRunsAreEvicted(evs: seq<Event>, id: RunId)
    requires id in Exec(evs).logs && id !in Exec(evs).runs
    ensures !Active(Replay(Exec(evs).logs[id]))
  {
    hide Exec, Replay, Legal;
    Reachable(evs);
  }

  // ---- what holds of every stored run ----

  lemma StoredRun(evs: seq<Event>, id: RunId)
    requires id in Exec(evs).runs
    ensures var w := Exec(evs);
            && id in w.logs && Legal(w.logs[id]) && MachineOf(w.runs[id]) == Replay(w.logs[id])
            && Replay(w.logs[id]).touchedAt <= w.now && w.runs[id].leaseUntilMs == LeaseEnd(w.logs[id])
  {
    hide Exec, Replay, Legal;
    Reachable(evs);
    InvAt(Exec(evs), id);
  }

  /** The context of a run is the replay of its history, in every reachable state. */
  lemma ContextMatchesHistory(evs: seq<Event>, id: RunId)
    requires id in Exec(evs).runs
    ensures Exec(evs).runs[id].context == Bindings(Exec(evs).runs[id].stepRuns)
  {
    hide Exec, Replay, Legal, Bindings;
    StoredRun(evs, id);
    ContextIsReplayOfHistory(Exec(evs).logs[id]);
  }

  /** If no two steps of a run share a name, every recorded output is still in its context, under its step's name. */
  lemma OutputsStayReadable(evs: seq<Event>, id: RunId, k: nat)
    requires id in Exec(evs).runs && k < |Exec(evs).runs[id].stepRuns| && DistinctNames(Exec(evs).runs[id].steps)
    ensures var r := Exec(evs).runs[id]; var row := r.stepRuns[k];
            && row.index < |r.steps| && row.name == StepName(r.steps[row.index], row.index)
            && (Binds(row) ==> row.name in r.context && r.context[row.name] == row.output.GetOr(Null))
  {
    hide Exec, Replay, Legal, Binds, StepName, KindOf, DistinctNames;
    StoredRun(evs, id);
    OutputsAreKept(Exec(evs).logs[id]);
    RowsNameTheirSteps(Exec(evs).logs[id]);
    assert Exec(evs).runs[id].stepRuns[k] in Exec(evs).runs[id].stepRuns;
  }

  /** Instruction `j` of a stored run. */
  function InstrOf(r: Run, j: nat): Instr
    requires j < |r.steps|
  {
    Compile(r.steps[j], r.defaultRetry)
  }

  /**
   * Succeeded rows carry the indices 0, 1, 2, ... with no gap or repeat, up to the current step; at the current
   * step of an unfinished run the failed rows carry the attempts 0, 1, ..., attempt - 1; and no step
   * has more rows than attempts allowed.
   */
  lemma HistoryIsInOrder(evs: seq<Event>, id: RunId)
    requires id in Exec(evs).runs
    ensures var r := Exec(evs).runs[id];
            SucceededIndices(r.stepRuns) == UpTo(if r.status.Completed? then |r.steps| else r.currentStepIndex)
    ensures var r := Exec(evs).runs[id];
            !r.status.Completed? && !r.status.Failed? ==>
              FailedAttempts(r.stepRuns, r.currentStepIndex) == UpTo(r.attempt)
    ensures var r := Exec(evs).runs[id];
            && (forall j :: 0 <= j < |r.steps| ==> RowsAt(r.stepRuns, j) <= Allowed(InstrOf(r, j)))
            && (r.currentStepIndex < |r.steps| ==> r.attempt < Allowed(InstrOf(r, r.currentStepIndex)))
  {
    hide Exec, Legal, Compile, Walk;
    StoredRun(evs, id);
    var log := Exec(evs).logs[id];
    LegalIsWellFormed(log);
    LegalHistoryShape(log);
    RowsPerStepAreBounded(log);
    var rows := Exec(evs).runs[id].stepRuns;
    var m := Replay(log);
    hide Replay;
    if m.status.Failed? {
      WalkMeans(rows[..|rows| - 1]);
    } else {
      WalkMeans(rows);
    }
    assert forall j :: 0 <= j < |m.src.program| ==> InstrOf(Exec(evs).runs[id], j) == InstrAt(m, j);
  }

  /** Per name, the signals accepted are those consumed, in order, followed by those still pending. */
  lemma SignalsAreDeliveredInOrder(evs: seq<Event>, id: RunId, name: Json)
    requires id in Exec(evs).runs
    ensures id in Exec(evs).logs
    ensures var w := Exec(evs);
            && OfName(Accepted(w.logs[id]), name)
               == OfName(Consumed(w.runs[id].stepRuns), name) + OfName(w.runs[id].signals, name)
            && |w.runs[id].signals| <= MAX_PENDING_SIGNALS
  {
    hide Exec, Replay, Legal;
    StoredRun(evs, id);
    SignalsAreConserved(Exec(evs).logs[id], name);
    LegalIsWellFormed(Exec(evs).logs[id]);
  }

  /**
   * No lost wakeup: a waiting run with a pending signal for its current step is due already, or a worker
   * holds its lease.
   */
  lemma WaitingRunWithSignalIsDue(evs: seq<Event>, id: RunId)
    requires id in Exec(evs).runs
    ensures var w := Exec(evs); var r := w.runs[id];
            r.status.Waiting? ==>
              && r.currentStepIndex < |r.steps| && InstrOf(r, r.currentStepIndex).Await?
              && (FirstMatch(r.signals, InstrOf(r, r.currentStepIndex).signal).Some? ==>
                    r.nextRunAtMs <= w.now && (Due(r, w.now) || r.leaseUntilMs > w.now))
  {
    hide Exec, Replay, Legal, Compile, FirstMatch;
    StoredRun(evs, id);
    NoLostWakeup(Exec(evs).logs[id]);
    LegalIsWellFormed(Exec(evs).logs[id]);
  }

  /**
   * A waiting run's deadline is the moment of its first park plus the step's timeout, however often it was parked
   * again.
   */
  lemma WaitDeadlineNeverMoves(evs: seq<Event>, id: RunId)
    requires id in Exec(evs).runs && Exec(evs).runs[id].status.Waiting?
    ensures var w := Exec(evs); var r := w.runs[id];
            && id in w.logs && Replay(w.logs[id]).status.Waiting?
            && r.currentStepIndex < |r.steps| && InstrOf(r, r.currentStepIndex).Await?
            && r.waitDeadlineMs == DeadlineFrom(InstrOf(r, r.currentStepIndex).timeout, ParkedAt(w.logs[id]))
  {
    hide Exec, Replay, Legal, Compile, ParkedAt;
    StoredRun(evs, id);
    DeadlineIsFixed(Exec(evs).logs[id]);
  }

  /**
   * An accepted commit at a wait step fails the run exactly when the run was parked, no pending signal matches now,
   * and the claim's clock had reached the deadline; it moves on exactly when a signal matches now.
   */
  lemma WaitCommitOutcome(evs: seq<Event>, v: RunView, outcome: Outcome)
    requires v in Exec(evs).views && Guard(Exec(evs).runs, v.id, v.version).None?
    requires var r := Exec(evs).runs[v.id]; r.currentStepIndex < |r.steps| && InstrOf(r, r.currentStepIndex).Await?
    ensures var r, w' := Exec(evs).runs[v.id], Step(Exec(evs), WorkerCommit(v, outcome));
            var matched := FirstMatch(r.signals, InstrOf(r, r.currentStepIndex).signal);
            && v.id in w'.runs
            && (w'.runs[v.id].status.Failed? <==>
                  r.status.Waiting? && matched.None? && r.waitDeadlineMs.Some? && v.nowMs >= r.waitDeadlineMs.value)
            && (w'.runs[v.id].currentStepIndex == r.currentStepIndex + 1 <==> matched.Some?)
            && (matched.Some? ==> w'.runs[v.id].signals == r.signals[..matched.value] + r.signals[matched.value + 1..])
  {
    hide Exec, Step, Legal, Compile, Perform, FirstMatch;
    CommitIsOneAtomicStep(evs, v, outcome);
    var m := MachineOf(Exec(evs).runs[v.id]);
    WaitTimesOutExactly(m, v.nowMs, Exec(evs).now, outcome);
  }

  /** The budget of a run in commits, apart from the signals it accepts. */
  function Budget(src: Source): nat {
    CostFrom(src.program, src.defaultRetry, 0) + 1
  }

  /**
   * Every run ever created, evicted ones included, makes finitely many commits: at most its budget plus its
   * signals.
   */
  lemma CommitsAreBounded(evs: seq<Event>, id: RunId)
    requires id in Exec(evs).logs
    ensures Commits(Exec(evs).logs[id]) <= Budget(Replay(Exec(evs).logs[id]).src) + |Accepted(Exec(evs).logs[id])|
  {
    hide Exec, Replay, Legal;
    Reachable(evs);
    FinitelyManyCommits(Exec(evs).logs[id]);
  }

  /** All the backoff one activity step ever schedules is at most one cap per retry it is allowed. */
  lemma BackoffPerStepIsBounded(evs: seq<Event>, id: RunId, j: nat)
    requires id in Exec(evs).runs && j < |Exec(evs).runs[id].steps| && InstrOf(Exec(evs).runs[id], j).Call?
    ensures var w := Exec(evs); var instr := InstrOf(w.runs[id], j);
            && id in w.logs
            && BackoffAsked(w.logs[id], j) <= (instr.allowed - 1) * Max(Retry.Cap(instr.retry), 0)
  {
    hide Exec, Replay, Legal, Compile, BackoffAsked, Retry.Cap;
    StoredRun(evs, id);
    StepBackoffIsBounded(Exec(evs).logs[id], j);
  }

  // ---- timing ----

  /** Two claims of one run with no commit or signal between them are at least the first one's lease apart. */
  lemma ClaimsAreSpaced(evs: seq<Event>, id: RunId, n: nat)
    requires id in Exec(evs).logs && n + 2 <= Length(Exec(evs).logs[id])
    requires Prefix(Exec(evs).logs[id], n + 2).entry.Claimed? && Prefix(Exec(evs).logs[id], n + 1).entry.Claimed?
    ensures var log := Exec(evs).logs[id];
            Prefix(log, n + 2).prev == Prefix(log, n + 1)
            && Prefix(log, n + 2).entry.at >= Prefix(log, n + 1).entry.at + Prefix(log, n + 1).entry.leaseMs
  {
    hide Exec, Replay;
    Reachable(evs);
    var log := Exec(evs).logs[id];
    PrefixIsLegal(log, n + 2);
    PrefixesNest(log, n + 1);
  }

  lemma {:induction false} PrefixesNest(log: Log, n: nat)
    requires n + 1 <= Length(log)
    ensures Prefix(log, n + 1).Then? && Prefix(log, n + 1).prev == Prefix(log, n)
  {
    if n + 1 < Length(log) { PrefixesNest(log.prev, n); }
  }

  /** Unless a signal arrives, a sleeping or backing-off run is not claimed before its time is up. */
  lemma NeverWakesEarly(evs: seq<Event>, id: RunId, n: nat)
    requires id in Exec(evs).logs && n + 2 <= Length(Exec(evs).logs[id])
    requires Prefix(Exec(evs).logs[id], n + 2).entry.Claimed? && Prefix(Exec(evs).logs[id], n + 1).entry.Performed?
    requires !WaitsAt(Replay(Prefix(Exec(evs).logs[id], n)))
    ensures var log := Exec(evs).logs[id];
            var performed := Prefix(log, n + 1).entry;
            Prefix(log, n + 2).entry.at >= performed.at + AskedDelay(Replay(Prefix(log, n)), performed.outcome)
  {
    hide Exec, Perform, Play, Compile, AskedDelay, Inv;
    LogIsLegal(evs, id);
    var log := Exec(evs).logs[id];
    PrefixIsLegal(log, n + 2);
    PrefixesNest(log, n + 1);
    PrefixesNest(log, n);
    LegalIsWellFormed(Prefix(log, n));
    var e := Prefix(log, n + 1).entry;
    DelayIsScheduled(Replay(Prefix(log, n)), e.claimedAt, e.at, e.outcome);
  }

  /** Unless a signal arrives, a parked run is not claimed before its deadline; without one, never. */
  lemma ParkedRunWakesAtDeadline(evs: seq<Event>, id: RunId, n: nat)
    requires id in Exec(evs).logs && n + 2 <= Length(Exec(evs).logs[id])
    requires Prefix(Exec(evs).logs[id], n + 2).entry.Claimed? && Prefix(Exec(evs).logs[id], n + 1).entry.Performed?
    requires Replay(Prefix(Exec(evs).logs[id], n + 1)).status.Waiting?
    ensures var log := Exec(evs).logs[id];
            var deadline := Replay(Prefix(log, n + 1)).deadline;
            deadline.Some? && Prefix(log, n + 2).entry.at >= deadline.value
  {
    hide Exec, Perform, Play, Compile, Inv;
    LogIsLegal(evs, id);
    var log := Exec(evs).logs[id];
    PrefixIsLegal(log, n + 2);
    PrefixesNest(log, n + 1);
    PrefixesNest(log, n);
    LegalIsWellFormed(Prefix(log, n));
    var e := Prefix(log, n + 1).entry;
    ParkingSetsWakeUp(Replay(Prefix(log, n)), e.claimedAt, e.at, e.outcome);
  }

  lemma LogIsLegal(evs: seq<Event>, id: RunId)
    requires id in Exec(evs).logs
    ensures Legal(Exec(evs).logs[id])
  {
    hide Exec, Replay, Legal;
    Reachable(evs);
  }
}
