/**
 * The sequential meaning of a workflow: one machine, one thread, no versions, leases, snapshots or
 * conflicts. A log of what happened to a run is executed entry by entry on this machine.
 */
module Interpreter {
  import opened Wrappers
  import opened Arith
  import opened Json
  import opened Steps
  import opened Store
  import opened Worker
  import Retry

  /** What a run is created from. */
  datatype Source = Source(program: seq<Json>, defaultRetry: Json, input: Json, key: Option<string>, bornAt: int)

  datatype Machine = Machine(
    src: Source,
    status: Status,
    pc: nat,
    attempt: nat,
    env: map<string, Json>,
    inbox: seq<Signal>,
    deadline: Option<int>,
    wakeAt: int,
    history: seq<StepRow>,
    error: Option<Reason>,
    touchedAt: int)

  /** A `Performed` entry is a claim's step: `claimedAt` is the claim's clock, `at` the commit's. */
  datatype Entry =
    | Claimed(at: int, leaseMs: int)
    | Performed(claimedAt: int, at: int, outcome: Outcome)
    | Delivered(signal: Signal, at: int)
    | Stopped(at: int)

  datatype Log =
    | Born(src: Source)
    | Then(prev: Log, entry: Entry)

  /** A step read once into the instruction it stands for. */
  datatype Instr =
    | Call(target: Option<string>, retry: Json, allowed: nat)
    | Nap(ms: nat)
    | Await(signal: string, timeout: Option<int>)
    | Bad(ty: string)

  function Compile(step: Json, defaultRetry: Json): (instr: Instr)
    ensures instr.Call? ==> instr.allowed >= 1
  {
    match KindOf(step)
    case Activity =>
      var retry := Retry.RetryConfig(defaultRetry, step);
      Call(ActivityRef(step), retry, Retry.MaxAttempts(retry))
    case Sleep => Nap(Max(SleepMs(step), 0))
    case WaitSignal => Await(SignalName(step), WaitTimeout(step))
    case Unknown(ty) => Bad(ty)
  }

  function InstrAt(m: Machine, j: nat): Instr
    requires j < |m.src.program|
  {
    Compile(m.src.program[j], m.src.defaultRetry)
  }

  predicate Active(m: Machine) { !Terminal(m.status) }

  /** End the run in failure at the current step; the step's own row says so unless given. */
  function Fail(m: Machine, reason: Reason, at: int): Machine
    requires m.pc < |m.src.program|
  {
    FailWith(m, FailureRow(m.src.program[m.pc], m.pc, reason), reason, at)
  }

  function FailWith(m: Machine, row: StepRow, reason: Reason, at: int): Machine {
    m.(status := Failed, history := m.history + [row], error := Some(reason), touchedAt := at)
  }

  /** Leave the current step behind and sleep until `wakeAt`. */
  function Proceed(m: Machine, row: StepRow, wakeAt: int, at: int): Machine {
    m.(status := Running, pc := m.pc + 1, attempt := 0, history := m.history + [row], wakeAt := wakeAt, touchedAt := at)
  }

  function Finish(m: Machine, at: int): Machine {
    m.(status := Completed, error := None, touchedAt := at)
  }

  /** Bind the current step's name in the context. */
  function Bind(m: Machine, value: Json): Machine
    requires m.pc < |m.src.program|
  {
    m.(env := m.env[StepName(m.src.program[m.pc], m.pc) := value])
  }

  function PerformCall(m: Machine, instr: Instr, at: int, outcome: Outcome): Machine
    requires m.pc < |m.src.program| && instr.Call?
  {
    var step := m.src.program[m.pc];
    if instr.target.None? then Fail(m, NoFunction, at)
    else
      match outcome
      case ActivityOk(output, oversized) =>
        var row := ActivitySuccessRow(step, m.pc, instr.target.value, m.attempt, output);
        if oversized then Fail(m, ContextOversized, at)
        else if m.pc + 1 == |m.src.program| then Finish(Bind(m, output).(history := m.history + [row]), at)
        else Proceed(Bind(m, output), row, at, at)
      case ActivityErr(text) =>
        var row := ActivityFailureRow(step, m.pc, instr.target.value, m.attempt, ActivityError(text));
        if m.attempt + 1 == instr.allowed then FailWith(m, row, ActivityError(text), at)
        else m.(status := Running, attempt := m.attempt + 1, history := m.history + [row],
                error := Some(ActivityError(text)), wakeAt := at + Retry.Delay(instr.retry, m.attempt), touchedAt := at)
  }

  function PerformAwait(m: Machine, instr: Instr, claimedAt: int, at: int): Machine
    requires m.pc < |m.src.program| && instr.Await?
  {
    match FirstMatch(m.inbox, instr.signal)
    case Some(k) =>
      var payload := m.inbox[k].payload;
      var taken := Bind(m, payload).(inbox := m.inbox[..k] + m.inbox[k + 1..], deadline := None);
      Proceed(taken, WaitRow(m.src.program[m.pc], m.pc, payload), at, at)
    case None =>
      if !m.status.Waiting? then
        var deadline := if instr.timeout.Some? then Some(at + instr.timeout.value) else None;
        m.(status := Waiting, deadline := deadline, wakeAt := deadline.GetOr(NEVER), touchedAt := at)
      else if m.deadline.None? || claimedAt < m.deadline.value then
        m.(wakeAt := m.deadline.GetOr(NEVER), touchedAt := at)
      else Fail(m, SignalWaitTimeout(instr.signal), at)
  }

  /** One atomic step of the current instruction. */
  function Perform(m: Machine, claimedAt: int, at: int, outcome: Outcome): Machine {
    if m.pc >= |m.src.program| then Finish(m, at)
    else
      var instr := InstrAt(m, m.pc);
      match instr
      case Call(_, _, _) => PerformCall(m, instr, at, outcome)
      case Nap(ms) => Proceed(m, SleepRow(m.src.program[m.pc], m.pc), at + ms, at)
      case Await(_, _) => PerformAwait(m, instr, claimedAt, at)
      case Bad(ty) => Fail(m, UnknownStepType(ty), at)
  }

  function Next(m: Machine, e: Entry): Machine {
    match e
    case Claimed(_, _) => if m.status.Pending? then m.(status := Running) else m
    case Performed(claimedAt, at, outcome) => Perform(m, claimedAt, at, outcome)
    case Delivered(signal, at) => m.(inbox := m.inbox + [signal], wakeAt := at, touchedAt := at)
    case Stopped(at) => m.(status := Canceled, touchedAt := at)
  }

  function Replay(log: Log): Machine {
    match log
    case Born(src) => Machine(src, Pending, 0, 0, map[], [], None, src.bornAt, [], None, src.bornAt)
    case Then(prev, e) => Next(Replay(prev), e)
  }

  function Length(log: Log): nat {
    if log.Born? then 0 else 1 + Length(log.prev)
  }

  /** When the lease of the last claim runs out, unless a commit or a signal ended it (then 0). */
  function LeaseEnd(log: Log): int {
    match log
    case Born(_) => 0
    case Then(_, Claimed(at, leaseMs)) => at + leaseMs
    case Then(_, Performed(_, _, _)) => 0
    case Then(_, Delivered(_, _)) => 0
    case Then(prev, Stopped(_)) => LeaseEnd(prev)
  }

  predicate Admissible(m: Machine, e: Entry) {
    match e
    case Claimed(at, _) => m.wakeAt <= at < NEVER
    case Performed(claimedAt, at, _) => m.wakeAt <= claimedAt < NEVER && m.touchedAt <= at
    case Delivered(_, at) => |m.inbox| < MAX_PENDING_SIGNALS && m.touchedAt <= at
    case Stopped(at) => m.touchedAt <= at
  }

  /**
   * The logs that can happen: nothing follows a terminal entry; a claim waits for the wake-up time and
   * for the previous lease; a performed step stands directly behind the claim that paid for it.
   */
  ghost predicate Legal(log: Log) {
    match log
    case Born(src) => src.program != []
    case Then(prev, e) =>
      && Legal(prev)
      && Active(Replay(prev))
      && Admissible(Replay(prev), e)
      && (e.Claimed? ==> LeaseEnd(prev) <= e.at)
      && (e.Performed? ==> prev.Then? && prev.entry.Claimed? && prev.entry.at == e.claimedAt)
  }

  /** The log as it was after its first `n` entries. */
  function Prefix(log: Log, n: nat): (p: Log)
    requires n <= Length(log)
    ensures Length(p) == n
  {
    if n == Length(log) then log else Prefix(log.prev, n)
  }

  lemma {:induction false} PrefixIsLegal(log: Log, n: nat)
    requires Legal(log) && n <= Length(log)
    ensures Legal(Prefix(log, n))
  {
    if n < Length(log) { PrefixIsLegal(log.prev, n); }
  }
}
