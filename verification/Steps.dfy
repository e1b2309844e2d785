/** Step definitions and the rows the engine records about them. */
module Steps {
  import opened Wrappers
  import opened Json

  /** A step's `type`; an absent or empty type means an activity. */
  datatype Kind = Activity | Sleep | WaitSignal | Unknown(ty: string)

  function KindOf(step: Json): Kind {
    var ty := step.GetStr("type").GetOr("");
    if ty == "" || ty == "activity" then Activity
    else if ty == "sleep" then Sleep
    else if ty == "waitSignal" then WaitSignal
    else Unknown(ty)
  }

  function Decimal(n: nat): string {
    var digit := [('0' as int + n % 10) as char];
    if n < 10 then digit else Decimal(n / 10) + digit
  }

  function StepName(step: Json, idx: nat): string {
    match step.GetStr("name")
    case Some(n) => if n != "" then n else "step-" + Decimal(idx)
    case None => "step-" + Decimal(idx)
  }

  function ActivityRef(step: Json): Option<string> {
    var id := step.GetStr("functionId").GetOr("");
    var slug := step.GetStr("functionSlug").GetOr("");
    if id != "" then Some(id)
    else if slug != "" then Some(slug)
    else None
  }

  function SignalName(step: Json): string {
    step.GetStr("signalName").GetOr("")
  }

  /** A wait timeout of 0, or none given, means "wait forever". */
  function WaitTimeout(step: Json): Option<int> {
    var ms := step.GetInt("waitTimeoutMs").GetOr(0);
    if ms == 0 then None else Some(ms)
  }

  function SleepMs(step: Json): int {
    step.GetInt("durationMs").GetOr(0)
  }

  datatype RowStatus = StepSucceeded | StepFailed

  /** Why a step failed; the text that the engine formats from it is not modelled. */
  datatype Reason =
    | ActivityError(text: string)
    | NoFunction
    | ContextOversized
    | UnknownStepType(ty: string)
    | SignalWaitTimeout(signal: string)

  datatype StepRow = StepRow(
    index: nat,
    name: string,
    kind: Kind,
    functionRef: string,
    attempt: nat,
    status: RowStatus,
    input: Option<Json>,
    output: Option<Json>,
    error: Option<Reason>,
    durationMs: Option<int>)

  /** The row of a failure that is not an activity's own: it always says attempt 0. */
  function FailureRow(step: Json, idx: nat, reason: Reason): StepRow {
    StepRow(idx, StepName(step, idx), KindOf(step), "", 0, StepFailed, None, None, Some(reason), None)
  }

  function ActivityInput(step: Json): Json {
    step.Get("input").GetOr(Obj(map[]))
  }

  function ActivitySuccessRow(step: Json, idx: nat, functionRef: string, attempt: nat, output: Json): StepRow {
    StepRow(idx, StepName(step, idx), Activity, functionRef, attempt, StepSucceeded,
            Some(ActivityInput(step)), Some(output), None, None)
  }

  function ActivityFailureRow(step: Json, idx: nat, functionRef: string, attempt: nat, reason: Reason): StepRow {
    StepRow(idx, StepName(step, idx), Activity, functionRef, attempt, StepFailed,
            Some(ActivityInput(step)), None, Some(reason), None)
  }

  function SleepRow(step: Json, idx: nat): StepRow {
    StepRow(idx, StepName(step, idx), Sleep, "", 0, StepSucceeded,
            Some(Obj(map["durationMs" := Int(SleepMs(step))])), None, None, Some(0))
  }

  function WaitRow(step: Json, idx: nat, payload: Json): StepRow {
    StepRow(idx, StepName(step, idx), WaitSignal, "", 0, StepSucceeded,
            Some(Obj(map["signalName" := Str(SignalName(step))])), Some(payload), None, Some(0))
  }
}
