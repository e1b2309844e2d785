/** What a worker decides from a snapshot: the commit it will attempt. */
module Worker {
  import opened Wrappers
  import opened Json
  import opened Steps
  import opened Store
  import Retry

  /**
   * How the activity of the current step ended, as an arbitrary choice of the environment:
   * the decoded output together with whether the resulting context is over the byte limit, or an error.
   */
  datatype Outcome = ActivityOk(output: Json, oversized: bool) | ActivityErr(error: string)

  function Named(signals: seq<Signal>, name: string, k: nat): bool
    requires k < |signals|
  {
    signals[k].name == Str(name)
  }

  /** The position of the first pending signal of this name. */
  function FirstMatch(signals: seq<Signal>, name: string): (k: Option<nat>)
    ensures k.Some? ==> k.value < |signals| && Named(signals, name, k.value)
                        && forall i :: 0 <= i < k.value ==> !Named(signals, name, i)
    ensures k.None? ==> forall i :: 0 <= i < |signals| ==> !Named(signals, name, i)
  {
    if signals == [] then None
    else if Named(signals, name, 0) then Some(0)
    else
      assert forall i :: 0 <= i < |signals| - 1 ==> Named(signals[1..], name, i) == Named(signals, name, i + 1);
      assert forall i :: 0 < i < |signals| ==> Named(signals, name, i) == Named(signals[1..], name, i - 1);
      match FirstMatch(signals[1..], name)
      case None => None
      case Some(k) => Some(k + 1)
  }

  lemma FirstMatchIsUnique(signals: seq<Signal>, name: string, k: nat)
    requires k < |signals| && Named(signals, name, k)
    requires forall i :: 0 <= i < k ==> !Named(signals, name, i)
    ensures FirstMatch(signals, name) == Some(k)
  {
  }

  function Decide(v: RunView, outcome: Outcome): CommitOp {
    var run := v.json;
    var idx := run.currentStepIndex;
    if idx >= |run.steps| then SucceedComplete(None, run.context)
    else
      var step := run.steps[idx];
      match KindOf(step)
      case Activity => DecideActivity(run, step, idx, outcome)
      case Sleep => EnterSleep(SleepRow(step, idx), SleepMs(step), idx + 1)
      case WaitSignal => DecideWait(run, step, idx, v.nowMs)
      case Unknown(ty) => TerminalFailure(step, idx, UnknownStepType(ty))
  }

  function TerminalFailure(step: Json, idx: nat, reason: Reason): CommitOp {
    FailTerminal(FailureRow(step, idx, reason), reason)
  }

  function DecideActivity(run: RunJson, step: Json, idx: nat, outcome: Outcome): CommitOp {
    match ActivityRef(step)
    case None => TerminalFailure(step, idx, NoFunction)
    case Some(functionRef) =>
      match outcome
      case ActivityOk(output, oversized) =>
        var context := run.context[StepName(step, idx) := output];
        var row := ActivitySuccessRow(step, idx, functionRef, run.attempt, output);
        if oversized then TerminalFailure(step, idx, ContextOversized)
        else if idx + 1 >= |run.steps| then SucceedComplete(Some(row), context)
        else SucceedAdvance(row, idx + 1, context)
      case ActivityErr(text) =>
        var retry := Retry.RetryConfig(run.defaultRetry, step);
        var row := ActivityFailureRow(step, idx, functionRef, run.attempt, ActivityError(text));
        if run.attempt + 1 < Retry.MaxAttempts(retry) then
          FailRetry(row, run.attempt + 1, Retry.BackoffMs(retry, run.attempt), ActivityError(text))
        else FailTerminal(row, ActivityError(text))
  }

  function DecideWait(run: RunJson, step: Json, idx: nat, nowMs: int): CommitOp {
    var name := SignalName(step);
    match FirstMatch(run.signals, name)
    case Some(position) =>
      var payload := run.signals[position].payload;
      ConsumeSignal(WaitRow(step, idx, payload), idx + 1, run.context[StepName(step, idx) := payload], position)
    case None =>
      if run.status.Waiting? then
        if run.waitDeadlineMs.Some? && nowMs >= run.waitDeadlineMs.value then
          TerminalFailure(step, idx, SignalWaitTimeout(name))
        else ReparkWait
      else ParkWait(WaitTimeout(step))
  }
}
