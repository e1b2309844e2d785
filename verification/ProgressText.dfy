/** Which runs can still end, read directly off the stored run and the JSON of its steps. */
module ProgressText {
  import opened Wrappers
  import opened Arith
  import opened Json
  import opened Steps
  import opened Store
  import opened Worker
  import opened World
  import opened Interpreter
  import opened Sequential
  import opened Safety
  import opened Progress
  import opened StepText

  /** The time a step may take by itself: a sleep its duration, a wait its timeout. */
  function PauseOf(step: Json): int {
    if step.GetStr("type") == Some("sleep") then Max(step.GetInt("durationMs").GetOr(0), 0)
    else if step.GetStr("type") == Some("waitSignal") then Max(step.GetInt("waitTimeoutMs").GetOr(0), 0)
    else 0
  }

  function PausesFrom(steps: seq<Json>, j: nat): int
    decreases |steps| - j
  {
    if j >= |steps| then 0 else PauseOf(steps[j]) + PausesFrom(steps, j + 1)
  }

  /** All pauses still to come end before the never time; a waiting run's current one ends at its deadline. */
  predicate HasTime(r: Run, now: int) {
    var ready := if r.status.Waiting? then r.waitDeadlineMs.GetOr(now) else r.nextRunAtMs;
    var ahead := PausesFrom(r.steps, if r.status.Waiting? then r.currentStepIndex + 1 else r.currentStepIndex);
    Max(now, ready) + ahead < 0x7FFF_FFFF_FFFF_FFFF
  }

  predicate IsSleep(step: Json) {
    step.GetStr("type") == Some("sleep")
  }

  /** A wait that only a signal not among these could end. */
  ghost predicate WaitsForAnother(step: Json, signals: seq<Signal>) {
    step.GetStr("type") == Some("waitSignal") && step.GetInt("waitTimeoutMs").GetOr(0) == 0 && NoneFits(signals, step)
  }

  /** From step `j` on there is such a wait, with nothing but sleeps before it. */
  ghost predicate OnlySleepsBefore(steps: seq<Json>, signals: seq<Signal>, j: nat) {
    exists k :: j <= k < |steps| && WaitsForAnother(steps[k], signals) && forall i :: j <= i < k ==> IsSleep(steps[i])
  }

  lemma InstrByText(step: Json, defaultRetry: Json)
    ensures var instr := Compile(step, defaultRetry);
            && (instr.Nap? <==> IsSleep(step))
            && (instr.Nap? ==> instr.ms == PauseOf(step))
            && (instr.Await? <==> step.GetStr("type") == Some("waitSignal"))
            && (instr.Await? ==>
                  && instr.signal == SignalName(step)
                  && Max(instr.timeout.GetOr(0), 0) == PauseOf(step)
                  && (instr.timeout.None? <==> step.GetInt("waitTimeoutMs").GetOr(0) == 0))
            && (!instr.Nap? && !instr.Await? ==> PauseOf(step) == 0)
  {
    hide Retry.MaxAttempts, Retry.RetryConfig, ActivityRef, SignalName;
    TextsDiffer();
  }

  lemma {:induction false} AheadByText(src: Source, j: nat)
    requires j <= |src.program|
    ensures Ahead(src, j) == PausesFrom(src.program, j)
    decreases |src.program| - j
  {
    hide Compile, PauseOf;
    if j < |src.program| {
      AheadByText(src, j + 1);
      InstrByText(src.program[j], src.defaultRetry);
    }
  }

  lemma AnotherByText(step: Json, defaultRetry: Json, signals: seq<Signal>)
    requires Compile(step, defaultRetry).Await?
    ensures var instr := Compile(step, defaultRetry);
            WaitsForAnother(step, signals) <==> instr.timeout.None? && FirstMatch(signals, instr.signal).None?
  {
    hide Compile, PauseOf, FirstMatch;
    InstrByText(step, defaultRetry);
    assert forall i :: 0 <= i < |signals| ==>
      (Worker.Named(signals, SignalName(step), i) <==> signals[i].name == Str(step.GetStr("signalName").GetOr("")));
  }

  lemma OneSleepFurther(steps: seq<Json>, signals: seq<Signal>, j: nat)
    requires j < |steps|
    ensures OnlySleepsBefore(steps, signals, j) <==>
      WaitsForAnother(steps[j], signals) || (IsSleep(steps[j]) && OnlySleepsBefore(steps, signals, j + 1))
  {
    hide WaitsForAnother, IsSleep;
    if WaitsForAnother(steps[j], signals) {
    } else if OnlySleepsBefore(steps, signals, j) {
      var k :| j <= k < |steps| && WaitsForAnother(steps[k], signals) && forall i :: j <= i < k ==> IsSleep(steps[i]);
      assert j + 1 <= k && IsSleep(steps[j]);
    }
  }

  lemma {:induction false} SleepsIntoWaitByText(src: Source, inbox: seq<Signal>, j: nat)
    requires j <= |src.program|
    ensures SleepsIntoWait(src, inbox, j) <==> OnlySleepsBefore(src.program, inbox, j)
    decreases |src.program| - j
  {
    hide Compile, FirstMatch, WaitsForAnother, PauseOf;
    if j < |src.program| {
      var step := src.program[j];
      SleepsIntoWaitByText(src, inbox, j + 1);
      OneSleepFurther(src.program, inbox, j);
      InstrByText(step, src.defaultRetry);
      if Compile(step, src.defaultRetry).Await? {
        AnotherByText(step, src.defaultRetry, inbox);
      } else {
        OnlyWaitsWait(step, inbox);
      }
    }
  }

  lemma OnlyWaitsWait(step: Json, signals: seq<Signal>)
    requires step.GetStr("type") != Some("waitSignal")
    ensures !WaitsForAnother(step, signals)
  {
  }

  lemma WaitingIsInside(evs: seq<Event>, id: RunId)
    requires id in Exec(evs).runs && !Terminal(Exec(evs).runs[id].status)
    ensures var r := Exec(evs).runs[id];
            r.currentStepIndex <= |r.steps| && (r.status.Waiting? ==> r.currentStepIndex < |r.steps|)
  {
    hide Exec, Replay, Legal;
    StoredRun(evs, id);
    LegalIsWellFormed(Exec(evs).logs[id]);
  }

  /**
   * In every reachable state, an unfinished run whose pauses end in time can still end without being canceled, unless
   * it has 1024 signals pending and, with nothing but sleeps before it, comes to a wait without timeout for a signal of
   * another name; and then it cannot.
   */
  lemma CanEndByText(evs: seq<Event>, id: RunId)
    requires id in Exec(evs).runs && !Terminal(Exec(evs).runs[id].status)
    requires HasTime(Exec(evs).runs[id], Exec(evs).now)
    ensures var r := Exec(evs).runs[id];
            (exists more :: CancelRun(id) !in more && id in Play(Exec(evs), more).runs
               && var status := Play(Exec(evs), more).runs[id].status; status.Completed? || status.Failed?
                                                                       || status.Canceled?)
            <==> !(|r.signals| >= 1024 && OnlySleepsBefore(r.steps, r.signals, r.currentStepIndex))
  {
    hide Exec, Play, OnlySleepsBefore, SleepsIntoWait, Ahead, PausesFrom;
    var r := Exec(evs).runs[id];
    var m := MachineOf(r);
    WaitingIsInside(evs, id);
    AheadByText(m.src, m.pc);
    if m.status.Waiting? { AheadByText(m.src, m.pc + 1); }
    SleepsIntoWaitByText(m.src, m.inbox, m.pc);
    CanEndExactlyUnlessDoomed(evs, id);
  }
}
