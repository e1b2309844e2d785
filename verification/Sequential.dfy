/** Properties of the sequential machine, proved for every legal log by induction over its entries. */
module Sequential {
  import opened Wrappers
  import opened Arith
  import opened Json
  import opened Steps
  import opened Store
  import opened Worker
  import opened Interpreter
  import Retry

  // ---- basic shape ----

  /** How many rows a step may leave: its allowed attempts, or one if it is not an activity. */
  function Allowed(instr: Instr): nat {
    if instr.Call? then instr.allowed else 1
  }

  predicate WaitsAt(m: Machine) {
    m.pc < |m.src.program| && InstrAt(m, m.pc).Await?
  }

  ghost predicate WellFormed(m: Machine) {
    && m.src.program != []
    && m.pc <= |m.src.program|
    && (m.pc == |m.src.program| ==> m.attempt == 0)
    && (m.pc < |m.src.program| ==> m.attempt < Allowed(InstrAt(m, m.pc)))
    && (m.status.Waiting? ==> WaitsAt(m))
    && (!m.status.Waiting? && Active(m) ==> m.deadline.None?)
    && |m.inbox| <= MAX_PENDING_SIGNALS
    && m.src.bornAt <= m.touchedAt
  }

  lemma CallIsWellFormed(m: Machine, at: int, outcome: Outcome)
    requires WellFormed(m) && Active(m) && m.touchedAt <= at
    requires m.pc < |m.src.program| && InstrAt(m, m.pc).Call?
    ensures var n := PerformCall(m, InstrAt(m, m.pc), at, outcome); WellFormed(n) && n.src == m.src
  {
    hide Compile, StepName, KindOf, FailureRow, ActivitySuccessRow, ActivityFailureRow;
  }

  lemma AwaitIsWellFormed(m: Machine, claimedAt: int, at: int)
    requires WellFormed(m) && Active(m) && m.touchedAt <= at && WaitsAt(m)
    ensures var n := PerformAwait(m, InstrAt(m, m.pc), claimedAt, at); WellFormed(n) && n.src == m.src
  {
    hide Compile, StepName, KindOf, FailureRow, WaitRow;
  }

  lemma NextIsWellFormed(m: Machine, e: Entry)
    requires WellFormed(m) && Active(m) && Admissible(m, e)
    ensures WellFormed(Next(m, e)) && Next(m, e).src == m.src
  {
    hide Compile, StepName, KindOf, PerformCall, PerformAwait, FailureRow, SleepRow;
    if e.Performed? && WaitsAt(m) {
      AwaitIsWellFormed(m, e.claimedAt, e.at);
    } else if e.Performed? && m.pc < |m.src.program| && InstrAt(m, m.pc).Call? {
      CallIsWellFormed(m, e.at, e.outcome);
    }
  }

  lemma {:induction false} LegalIsWellFormed(log: Log)
    requires Legal(log)
    ensures WellFormed(Replay(log))
  {
    if log.Then? {
      LegalIsWellFormed(log.prev);
      NextIsWellFormed(Replay(log.prev), log.entry);
    }
  }

  /** The program a run executes, its input and its key never change. */
  lemma {:induction false} SourceIsFixed(log: Log, n: nat)
    requires n <= Length(log)
    ensures Replay(log).src == Replay(Prefix(log, n)).src
  {
    hide Next;
    if n < Length(log) {
      SourceIsFixed(log.prev, n);
      var _ := NextAppends(Replay(log.prev), log.entry);
    }
  }

  // ---- context is the replay of history ----

  /** Succeeded activities and waits bind their name. */
  predicate Binds(row: StepRow) {
    row.status.StepSucceeded? && (row.kind.Activity? || row.kind.WaitSignal?)
  }

  /** The bindings that rows leave behind: name to output, the last row of a name winning. */
  function Bindings(rows: seq<StepRow>): map<string, Json> {
    if rows == [] then map[]
    else
      var before, row := Bindings(rows[..|rows| - 1]), rows[|rows| - 1];
      if Binds(row) then before[row.name := row.output.GetOr(Null)] else before
  }

  ghost predicate Appends(m: Machine, n: Machine, row: Option<StepRow>) {
    && n.src == m.src
    && (row.None? ==> n.history == m.history)
    && (row.Some? ==> n.history == m.history + [row.value] && n.history[|m.history|] == row.value)
    && (row.Some? ==> m.pc < |m.src.program| && row.value.index == m.pc)
  }

  lemma CallAppends(m: Machine, at: int, outcome: Outcome) returns (row: Option<StepRow>)
    requires m.pc < |m.src.program| && InstrAt(m, m.pc).Call?
    ensures Appends(m, PerformCall(m, InstrAt(m, m.pc), at, outcome), row)
  {
    hide Compile, StepName, KindOf;
    row := Some(PerformCall(m, InstrAt(m, m.pc), at, outcome).history[|m.history|]);
  }

  lemma AwaitAppends(m: Machine, claimedAt: int, at: int) returns (row: Option<StepRow>)
    requires WaitsAt(m)
    ensures Appends(m, PerformAwait(m, InstrAt(m, m.pc), claimedAt, at), row)
  {
    hide Compile, StepName, KindOf;
    var n := PerformAwait(m, InstrAt(m, m.pc), claimedAt, at);
    row := if |n.history| > |m.history| then Some(n.history[|m.history|]) else None;
  }

  /** An entry appends at most one row to the history, and that row is about the current step. */
  lemma NextAppends(m: Machine, e: Entry) returns (row: Option<StepRow>)
    ensures Appends(m, Next(m, e), row)
  {
    hide Compile, StepName, KindOf, PerformCall, PerformAwait;
    if e.Performed? && WaitsAt(m) {
      row := AwaitAppends(m, e.claimedAt, e.at);
    } else if e.Performed? && m.pc < |m.src.program| && InstrAt(m, m.pc).Call? {
      row := CallAppends(m, e.at, e.outcome);
    } else {
      var n := Next(m, e);
      row := if |n.history| > |m.history| then Some(n.history[|m.history|]) else None;
    }
  }

  lemma BindingsSnoc(rows: seq<StepRow>, row: StepRow)
    ensures Bindings(rows + [row])
         == if Binds(row) then Bindings(rows)[row.name := row.output.GetOr(Null)] else Bindings(rows)
  {
    assert (rows + [row])[..|rows|] == rows;
  }

  lemma CallKeepsBindings(m: Machine, at: int, outcome: Outcome)
    requires m.env == Bindings(m.history) && m.pc < |m.src.program| && InstrAt(m, m.pc).Call?
    ensures var n := PerformCall(m, InstrAt(m, m.pc), at, outcome); n.env == Bindings(n.history)
  {
    hide Compile, StepName, KindOf, Bindings;
    var row := CallAppends(m, at, outcome);
    if row.Some? { BindingsSnoc(m.history, row.value); }
  }

  lemma AwaitKeepsBindings(m: Machine, claimedAt: int, at: int)
    requires m.env == Bindings(m.history) && WaitsAt(m)
    ensures var n := PerformAwait(m, InstrAt(m, m.pc), claimedAt, at); n.env == Bindings(n.history)
  {
    hide Compile, StepName, KindOf, Bindings, FirstMatch;
    var row := AwaitAppends(m, claimedAt, at);
    if row.Some? { BindingsSnoc(m.history, row.value); }
  }

  lemma NextKeepsBindings(m: Machine, e: Entry)
    requires m.env == Bindings(m.history)
    ensures Next(m, e).env == Bindings(Next(m, e).history)
  {
    hide Compile, StepName, KindOf, Bindings, PerformCall, PerformAwait;
    if e.Performed? && m.pc < |m.src.program| && InstrAt(m, m.pc).Call? {
      CallKeepsBindings(m, e.at, e.outcome);
    } else if e.Performed? && WaitsAt(m) {
      AwaitKeepsBindings(m, e.claimedAt, e.at);
    } else {
      var row := NextAppends(m, e);
      if row.Some? { BindingsSnoc(m.history, row.value); }
    }
  }

  lemma {:induction false} ContextIsReplayOfHistory(log: Log)
    ensures Replay(log).env == Bindings(Replay(log).history)
  {
    if log.Then? {
      ContextIsReplayOfHistory(log.prev);
      NextKeepsBindings(Replay(log.prev), log.entry);
    }
  }

  // ---- history shape ----

  /** Where a worker must be after recording these rows: the step it is at and the attempts it has failed there. */
  datatype Place = At(pc: nat, attempt: nat) | Nowhere

  function Advance(place: Place, row: StepRow): Place {
    match place
    case Nowhere => Nowhere
    case At(pc, attempt) =>
      if row.index != pc || row.attempt != attempt then Nowhere
      else if row.status.StepSucceeded? then At(pc + 1, 0)
      else At(pc, attempt + 1)
  }

  function Walk(rows: seq<StepRow>): Place {
    if rows == [] then At(0, 0) else Advance(Walk(rows[..|rows| - 1]), rows[|rows| - 1])
  }

  ghost predicate HistoryShape(m: Machine) {
    var rows := m.history;
    match m.status
    case Completed => Walk(rows) == At(|m.src.program|, 0)
    case Failed =>
      && rows != []
      && Walk(rows[..|rows| - 1]) == At(m.pc, m.attempt)
      && m.pc < |m.src.program|
      && rows[|rows| - 1].index == m.pc
      && rows[|rows| - 1].status.StepFailed?
    case _ => Walk(rows) == At(m.pc, m.attempt)
  }

  lemma WalkSnoc(rows: seq<StepRow>, row: StepRow)
    ensures Walk(rows + [row]) == Advance(Walk(rows), row)
  {
    assert (rows + [row])[..|rows|] == rows;
  }

  lemma CallKeepsShape(m: Machine, at: int, outcome: Outcome)
    requires WellFormed(m) && Active(m) && HistoryShape(m) && m.pc < |m.src.program| && InstrAt(m, m.pc).Call?
    ensures HistoryShape(PerformCall(m, InstrAt(m, m.pc), at, outcome))
  {
    hide Compile, StepName, KindOf, Walk;
    var n := PerformCall(m, InstrAt(m, m.pc), at, outcome);
    var row := n.history[|m.history|];
    assert n.history[..|m.history|] == m.history;
    assert n.history == m.history + [row];
    WalkSnoc(m.history, row);
  }

  lemma AwaitKeepsShape(m: Machine, claimedAt: int, at: int)
    requires WellFormed(m) && Active(m) && HistoryShape(m) && WaitsAt(m)
    ensures HistoryShape(PerformAwait(m, InstrAt(m, m.pc), claimedAt, at))
  {
    hide Compile, StepName, KindOf, FirstMatch, Walk;
    var n := PerformAwait(m, InstrAt(m, m.pc), claimedAt, at);
    if |n.history| > |m.history| {
      WalkSnoc(m.history, n.history[|m.history|]);
      assert n.history[..|m.history|] == m.history;
    }
  }

  lemma NextKeepsShape(m: Machine, e: Entry)
    requires WellFormed(m) && Active(m) && HistoryShape(m)
    ensures HistoryShape(Next(m, e))
  {
    hide Compile, StepName, KindOf, PerformCall, PerformAwait, Walk;
    if e.Performed? && m.pc < |m.src.program| && InstrAt(m, m.pc).Call? {
      CallKeepsShape(m, e.at, e.outcome);
    } else if e.Performed? && WaitsAt(m) {
      AwaitKeepsShape(m, e.claimedAt, e.at);
    } else {
      var row := NextAppends(m, e);
      if row.Some? {
        WalkSnoc(m.history, row.value);
        assert (m.history + [row.value])[..|m.history|] == m.history;
      }
    }
  }

  lemma {:induction false} LegalHistoryShape(log: Log)
    requires Legal(log)
    ensures HistoryShape(Replay(log))
  {
    if log.Then? {
      LegalHistoryShape(log.prev);
      LegalIsWellFormed(log.prev);
      NextKeepsShape(Replay(log.prev), log.entry);
    }
  }

  /** The indices of the succeeded rows, in order. */
  function SucceededIndices(rows: seq<StepRow>): seq<nat> {
    if rows == [] then []
    else
      var row := rows[|rows| - 1];
      SucceededIndices(rows[..|rows| - 1]) + (if row.status.StepSucceeded? then [row.index] else [])
  }

  /** The attempt numbers of the failed rows of step `j`, in order. */
  function FailedAttempts(rows: seq<StepRow>, j: nat): seq<nat> {
    if rows == [] then []
    else
      var row := rows[|rows| - 1];
      FailedAttempts(rows[..|rows| - 1], j)
      + (if row.status.StepFailed? && row.index == j then [row.attempt] else [])
  }

  function RowsAt(rows: seq<StepRow>, j: nat): nat {
    if rows == [] then 0
    else RowsAt(rows[..|rows| - 1], j) + (if rows[|rows| - 1].index == j then 1 else 0)
  }

  function UpTo(n: nat): seq<nat> {
    seq(n, i => i)
  }

  /** What a walk that ends at (pc, attempt) says about its rows. */
  lemma {:induction false} WalkMeans(rows: seq<StepRow>)
    requires Walk(rows).At?
    ensures var place := Walk(rows);
            && SucceededIndices(rows) == UpTo(place.pc)
            && FailedAttempts(rows, place.pc) == UpTo(place.attempt)
            && RowsAt(rows, place.pc) == place.attempt
            && forall j :: j > place.pc ==> RowsAt(rows, j) == 0 && FailedAttempts(rows, j) == []
  {
    if rows != [] {
      WalkMeans(rows[..|rows| - 1]);
      var before := Walk(rows[..|rows| - 1]);
      assert UpTo(before.pc + 1) == UpTo(before.pc) + [before.pc];
      assert UpTo(before.attempt + 1) == UpTo(before.attempt) + [before.attempt];
      forall j | j > Walk(rows).pc ensures RowsAt(rows, j) == 0 && FailedAttempts(rows, j) == [] {
        assert RowsAt(rows[..|rows| - 1], j) == 0 && FailedAttempts(rows[..|rows| - 1], j) == [];
      }
    }
  }

  ghost predicate RowsWithinBounds(m: Machine) {
    forall j :: 0 <= j < |m.src.program| ==> RowsAt(m.history, j) <= Allowed(InstrAt(m, j))
  }

  lemma RowsAtSnoc(rows: seq<StepRow>, row: StepRow, j: nat)
    ensures RowsAt(rows + [row], j) == RowsAt(rows, j) + (if row.index == j then 1 else 0)
  {
    assert (rows + [row])[..|rows|] == rows;
  }

  lemma NextKeepsRowsBounded(m: Machine, e: Entry)
    requires WellFormed(m) && Active(m) && HistoryShape(m) && RowsWithinBounds(m)
    ensures RowsWithinBounds(Next(m, e))
  {
    hide Compile, StepName, KindOf, Next, RowsAt;
    var row := NextAppends(m, e);
    WalkMeans(m.history);
    forall j | 0 <= j < |m.src.program| ensures RowsAt(Next(m, e).history, j) <= Allowed(InstrAt(m, j)) {
      if row.Some? { RowsAtSnoc(m.history, row.value, j); }
    }
  }

  /** No step ever collects more rows than the attempts it is allowed. */
  lemma {:induction false} RowsPerStepAreBounded(log: Log)
    requires Legal(log)
    ensures RowsWithinBounds(Replay(log))
  {
    if log.Then? {
      RowsPerStepAreBounded(log.prev);
      LegalIsWellFormed(log.prev);
      LegalHistoryShape(log.prev);
      NextKeepsRowsBounded(Replay(log.prev), log.entry);
    }
  }

  // ---- outputs stay readable ----

  /** A row's name and kind are those of the step it is about. */
  predicate NamesStep(src: Source, row: StepRow) {
    row.index < |src.program| && row.name == StepName(src.program[row.index], row.index)
      && row.kind == KindOf(src.program[row.index])
  }

  lemma NextNamesStep(m: Machine, e: Entry) returns (row: Option<StepRow>)
    ensures Appends(m, Next(m, e), row) && (row.Some? ==> NamesStep(m.src, row.value))
  {
    hide StepName, KindOf, FirstMatch, ActivityRef, SignalName, SleepMs;
    row := NextAppends(m, e);
  }

  lemma {:induction false} RowsNameTheirSteps(log: Log)
    ensures forall row <- Replay(log).history :: NamesStep(Replay(log).src, row)
  {
    hide Next, NamesStep;
    if log.Then? {
      RowsNameTheirSteps(log.prev);
      var _ := NextNamesStep(Replay(log.prev), log.entry);
    }
  }

  lemma {:induction false} SucceededRowsAreBehind(rows: seq<StepRow>)
    requires Walk(rows).At?
    ensures forall row <- rows :: row.status.StepSucceeded? ==> row.index < Walk(rows).pc
  {
    if rows != [] {
      SucceededRowsAreBehind(rows[..|rows| - 1]);
      assert rows == rows[..|rows| - 1] + [rows[|rows| - 1]];
    }
  }

  predicate DistinctNames(program: seq<Json>) {
    forall i, j :: 0 <= i < j < |program| ==> StepName(program[i], i) != StepName(program[j], j)
  }

  ghost predicate KeepsOutputs(m: Machine) {
    forall row <- m.history :: Binds(row) ==> row.name in m.env && m.env[row.name] == row.output.GetOr(Null)
  }

  lemma NextKeepsOutputs(m: Machine, e: Entry)
    requires Active(m) && HistoryShape(m) && m.env == Bindings(m.history) && KeepsOutputs(m)
    requires (forall row <- m.history :: NamesStep(m.src, row)) && DistinctNames(m.src.program)
    ensures KeepsOutputs(Next(m, e))
  {
    hide Next, StepName, KindOf, Bindings, Walk;
    var row := NextNamesStep(m, e);
    NextKeepsBindings(m, e);
    if row.Some? {
      BindingsSnoc(m.history, row.value);
      SucceededRowsAreBehind(m.history);
    }
  }

  /** If no two steps share a name, every output ever recorded is still in the context, under its step's name. */
  lemma {:induction false} OutputsAreKept(log: Log)
    requires Legal(log) && DistinctNames(Replay(log).src.program)
    ensures KeepsOutputs(Replay(log))
  {
    hide Next, NamesStep, DistinctNames;
    if log.Then? {
      SourceIsFixed(log, Length(log.prev));
      OutputsAreKept(log.prev);
      RowsNameTheirSteps(log.prev);
      ContextIsReplayOfHistory(log.prev);
      LegalHistoryShape(log.prev);
      NextKeepsOutputs(Replay(log.prev), log.entry);
    }
  }

  /** What a decimal numeral means. */
  function Numeral(s: string): int {
    if s == [] then 0 else 10 * Numeral(s[..|s| - 1]) + (s[|s| - 1] as int - '0' as int)
  }

  lemma {:induction false} DecimalReadsBack(n: nat)
    ensures Numeral(Decimal(n)) == n
  {
    var s := Decimal(n);
    if n >= 10 {
      DecimalReadsBack(n / 10);
      assert s[..|s| - 1] == Decimal(n / 10);
    } else {
      assert s[..0] == [];
    }
  }

  /** Steps without names get distinct ones. */
  lemma UnnamedStepsAreDistinct(program: seq<Json>)
    requires forall step <- program :: step.GetStr("name").GetOr("") == ""
    ensures DistinctNames(program)
  {
    forall i, j | 0 <= i < j < |program| ensures StepName(program[i], i) != StepName(program[j], j) {
      DecimalReadsBack(i);
      DecimalReadsBack(j);
      assert StepName(program[i], i)[|"step-"|..] == Decimal(i) && StepName(program[j], j)[|"step-"|..] == Decimal(j);
    }
  }

  // ---- signals ----

  function OfName(signals: seq<Signal>, name: Json): seq<Signal> {
    if signals == [] then []
    else if signals[0].name == name then [signals[0]] + OfName(signals[1..], name)
    else OfName(signals[1..], name)
  }

  lemma {:induction false} OfNameConcat(a: seq<Signal>, b: seq<Signal>, name: Json)
    ensures OfName(a + b, name) == OfName(a, name) + OfName(b, name)
  {
    if a == [] {
      assert a + b == b;
    } else {
      OfNameConcat(a[1..], b, name);
      assert (a + b)[1..] == a[1..] + b;
    }
  }

  lemma {:induction false} OfNameEmpty(signals: seq<Signal>, name: Json)
    requires forall i :: 0 <= i < |signals| ==> signals[i].name != name
    ensures OfName(signals, name) == []
  {
    if signals != [] { OfNameEmpty(signals[1..], name); }
  }

  /** One signal is of its own name only; with concatenation this says what `OfName` keeps, and in which order. */
  lemma OfNameOne(signal: Signal, name: Json)
    ensures OfName([signal], name) == if signal.name == name then [signal] else []
  {
  }

  function Accepted(log: Log): seq<Signal> {
    match log
    case Born(_) => []
    case Then(prev, e) => Accepted(prev) + (if e.Delivered? then [e.signal] else [])
  }

  /** The signals that the history says were consumed: one per succeeded wait row. */
  function Consumed(rows: seq<StepRow>): seq<Signal> {
    if rows == [] then []
    else
      var row := rows[|rows| - 1];
      Consumed(rows[..|rows| - 1]) + SignalOf(row)
  }

  lemma TakingFirstOfName(signals: seq<Signal>, signal: string, name: Json)
    requires FirstMatch(signals, signal).Some?
    ensures var k := FirstMatch(signals, signal).value;
            OfName(signals, name) == OfName([signals[k]], name) + OfName(signals[..k] + signals[k + 1..], name)
  {
    var k := FirstMatch(signals, signal).value;
    forall i | 0 <= i < k ensures signals[i].name != signals[k].name {
      assert !Named(signals, signal, i) && Named(signals, signal, k);
    }
    var before, after := signals[..k], signals[k + 1..];
    assert signals == before + ([signals[k]] + after);
    OfNameConcat(before, [signals[k]] + after, name);
    OfNameConcat([signals[k]], after, name);
    OfNameConcat(before, after, name);
    if name == signals[k].name { OfNameEmpty(before, name); }
  }

  function SignalOf(row: StepRow): seq<Signal> {
    if row.status.StepSucceeded? && row.kind.WaitSignal?
    then [Signal(row.input.GetOr(Null).Get("signalName").GetOr(Null), row.output.GetOr(Null))] else []
  }

  lemma ConsumedSnoc(rows: seq<StepRow>, row: StepRow)
    ensures Consumed(rows + [row]) == Consumed(rows) + SignalOf(row)
  {
    assert (rows + [row])[..|rows|] == rows;
  }

  lemma WaitRowNamesTheSignal(step: Json, defaultRetry: Json, idx: nat, payload: Json)
    requires Compile(step, defaultRetry).Await?
    ensures SignalOf(WaitRow(step, idx, payload)) == [Signal(Str(Compile(step, defaultRetry).signal), payload)]
  {
  }

  /** A wait that matches takes the first signal of its name, and its row remembers that very signal. */
  lemma AwaitTakesFirstMatch(m: Machine, claimedAt: int, at: int)
    requires WaitsAt(m) && Matching(m).Some?
    ensures var k, n := Matching(m).value, PerformAwait(m, InstrAt(m, m.pc), claimedAt, at);
            n.inbox == m.inbox[..k] + m.inbox[k + 1..] && Consumed(n.history) == Consumed(m.history) + [m.inbox[k]]
  {
    hide Compile, StepName, KindOf, Consumed, WaitRow, SignalOf;
    var k := Matching(m).value;
    ConsumedSnoc(m.history, WaitRow(m.src.program[m.pc], m.pc, m.inbox[k].payload));
    WaitRowNamesTheSignal(m.src.program[m.pc], m.src.defaultRetry, m.pc, m.inbox[k].payload);
  }

  /** Nothing else touches the inbox, except a delivery. */
  lemma OthersLeaveInbox(m: Machine, e: Entry)
    requires !e.Delivered? && !(e.Performed? && Matching(m).Some?)
    ensures Next(m, e).inbox == m.inbox && Consumed(Next(m, e).history) == Consumed(m.history)
  {
    hide Compile, StepName, KindOf, FirstMatch, Consumed;
    var row := NextAppends(m, e);
    if row.Some? { ConsumedSnoc(m.history, row.value); }
  }

  /**
   * Signals of any one name leave in the order they came, and none is lost or made up: what was accepted
   * is what the history consumed followed by what is still pending.
   */
  lemma {:induction false} SignalsAreConserved(log: Log, name: Json)
    ensures var m := Replay(log);
            OfName(Accepted(log), name) == OfName(Consumed(m.history), name) + OfName(m.inbox, name)
  {
    if log.Then? {
      SignalsAreConserved(log.prev, name);
      NextConserves(Accepted(log.prev), Replay(log.prev), log.entry, name);
    }
  }

  lemma NextConserves(accepted: seq<Signal>, m: Machine, e: Entry, name: Json)
    requires OfName(accepted, name) == OfName(Consumed(m.history), name) + OfName(m.inbox, name)
    ensures var n := Next(m, e);
            OfName(accepted + (if e.Delivered? then [e.signal] else []), name)
            == OfName(Consumed(n.history), name) + OfName(n.inbox, name)
  {
    hide Compile, StepName, KindOf, Consumed, OfName;
    if e.Delivered? {
      OfNameConcat(accepted, [e.signal], name);
      OfNameConcat(m.inbox, [e.signal], name);
    } else {
      assert accepted + [] == accepted;
      if e.Performed? && Matching(m).Some? {
        var k := Matching(m).value;
        AwaitTakesFirstMatch(m, e.claimedAt, e.at);
        TakingFirstOfName(m.inbox, InstrAt(m, m.pc).signal, name);
        OfNameConcat(Consumed(m.history), [m.inbox[k]], name);
      } else {
        OthersLeaveInbox(m, e);
      }
    }
  }

  // ---- waiting ----

  function Matching(m: Machine): Option<nat> {
    if WaitsAt(m) then FirstMatch(m.inbox, InstrAt(m, m.pc).signal) else None
  }

  /** A waiting run that could proceed is already due: its wake-up time is no later than its last change. */
  ghost predicate WakesInTime(m: Machine) {
    m.status.Waiting? && Matching(m).Some? ==> m.wakeAt <= m.touchedAt
  }

  lemma AwaitWakesInTime(m: Machine, claimedAt: int, at: int)
    requires WellFormed(m) && Active(m) && WaitsAt(m)
    ensures WakesInTime(PerformAwait(m, InstrAt(m, m.pc), claimedAt, at))
  {
    hide Compile, StepName, KindOf, FirstMatch, FailureRow, WaitRow;
  }

  lemma CallDoesNotWait(m: Machine, at: int, outcome: Outcome)
    requires WellFormed(m) && Active(m) && m.pc < |m.src.program| && InstrAt(m, m.pc).Call?
    ensures !PerformCall(m, InstrAt(m, m.pc), at, outcome).status.Waiting?
  {
    hide Compile, StepName, KindOf, FailureRow, ActivitySuccessRow, ActivityFailureRow;
  }

  lemma NextWakesInTime(m: Machine, e: Entry)
    requires WellFormed(m) && Active(m) && Admissible(m, e) && WakesInTime(m)
    ensures WakesInTime(Next(m, e))
  {
    hide Compile, StepName, KindOf, FirstMatch, PerformCall, PerformAwait;
    if e.Performed? && m.pc < |m.src.program| && InstrAt(m, m.pc).Call? {
      CallDoesNotWait(m, e.at, e.outcome);
    } else if e.Performed? && WaitsAt(m) {
      AwaitWakesInTime(m, e.claimedAt, e.at);
    }
  }

  lemma {:induction false} NoLostWakeup(log: Log)
    requires Legal(log)
    ensures WakesInTime(Replay(log))
  {
    hide Next, WakesInTime, WellFormed, Admissible;
    if log.Then? {
      NoLostWakeup(log.prev);
      LegalIsWellFormed(log.prev);
      NextWakesInTime(Replay(log.prev), log.entry);
    } else {
      BornWakesInTime(log);
    }
  }

  lemma BornWakesInTime(log: Log)
    requires log.Born?
    ensures WakesInTime(Replay(log))
  {
  }

  /** When a waiting run was first parked at its current step. */
  function ParkedAt(log: Log): int
    requires Replay(log).status.Waiting?
  {
    if Replay(log.prev).status.Waiting? then ParkedAt(log.prev)
    else if log.entry.Performed? then log.entry.at else 0
  }

  /** The deadline is set once, when the wait is first parked, from that moment and the step's timeout. */
  lemma {:induction false} DeadlineIsFixed(log: Log)
    requires Legal(log) && Replay(log).status.Waiting?
    ensures WaitsAt(Replay(log))
    ensures var m := Replay(log);
            m.deadline == DeadlineFrom(InstrAt(m, m.pc).timeout, ParkedAt(log))
  {
    LegalIsWellFormed(log);
    LegalIsWellFormed(log.prev);
    if Replay(log.prev).status.Waiting? { DeadlineIsFixed(log.prev); }
    WaitingStaysPut(Replay(log.prev), log.entry);
  }

  function DeadlineFrom(timeout: Option<int>, parkedAt: int): Option<int> {
    if timeout.Some? then Some(parkedAt + timeout.value) else None
  }

  lemma WaitingStaysPut(m: Machine, e: Entry)
    requires WellFormed(m) && Active(m) && Next(m, e).status.Waiting?
    ensures var n := Next(m, e);
            && n.src == m.src && n.pc == m.pc && WaitsAt(m)
            && (m.status.Waiting? ==> n.deadline == m.deadline)
            && (!m.status.Waiting? ==> e.Performed? && n.deadline == DeadlineFrom(InstrAt(m, m.pc).timeout, e.at))
  {
    hide Compile, StepName, KindOf, FirstMatch;
  }

  /** A wait step fails exactly when it was parked, nothing matches, and the claim saw the deadline passed. */
  lemma WaitTimesOutExactly(m: Machine, claimedAt: int, at: int, outcome: Outcome)
    requires Active(m) && WaitsAt(m)
    ensures Perform(m, claimedAt, at, outcome).status.Failed?
        <==> m.status.Waiting? && Matching(m).None? && m.deadline.Some? && claimedAt >= m.deadline.value
    ensures Perform(m, claimedAt, at, outcome).pc == m.pc + 1 <==> Matching(m).Some?
    ensures Matching(m).Some? ==>
      Perform(m, claimedAt, at, outcome).inbox == m.inbox[..Matching(m).value] + m.inbox[Matching(m).value + 1..]
  {
  }

  /** The delay that a performed step asks for before the run may be claimed again. */
  function AskedDelay(m: Machine, outcome: Outcome): nat {
    if m.pc >= |m.src.program| then 0
    else
      match InstrAt(m, m.pc)
      case Nap(ms) => ms
      case Call(target, retry, allowed) =>
        if target.Some? && outcome.ActivityErr? && m.attempt + 1 < allowed then Retry.Delay(retry, m.attempt) else 0
      case _ => 0
  }

  lemma ParkingSetsWakeUp(m: Machine, claimedAt: int, at: int, outcome: Outcome)
    requires WellFormed(m) && Active(m) && Perform(m, claimedAt, at, outcome).status.Waiting?
    ensures var n := Perform(m, claimedAt, at, outcome); n.wakeAt == n.deadline.GetOr(NEVER)
  {
    hide Compile, StepName, KindOf, FirstMatch;
  }

  lemma DelayIsScheduled(m: Machine, claimedAt: int, at: int, outcome: Outcome)
    requires WellFormed(m) && Active(m) && !WaitsAt(m) && Active(Perform(m, claimedAt, at, outcome))
    ensures Perform(m, claimedAt, at, outcome).wakeAt == at + AskedDelay(m, outcome)
  {
    hide Compile, StepName, KindOf;
  }

  // ---- backoff over a whole step ----

  /** All the backoff that the failed attempts of step `j` have asked for so far. */
  function BackoffAsked(log: Log, j: nat): nat {
    match log
    case Born(_) => 0
    case Then(prev, e) =>
      BackoffAsked(prev, j)
      + (if e.Performed? && CallsAt(Replay(prev), j) then AskedDelay(Replay(prev), e.outcome) else 0)
  }

  predicate CallsAt(m: Machine, j: nat) {
    m.pc == j && j < |m.src.program| && InstrAt(m, j).Call?
  }

  /**
   * Before a step it has asked for nothing, at the step for the delays of its failed attempts, and never for more
   * than all of them.
   */
  ghost predicate BackoffAdds(m: Machine, j: nat, asked: nat) {
    j < |m.src.program| && InstrAt(m, j).Call? ==>
      var instr := InstrAt(m, j);
      && (m.pc < j ==> asked == 0)
      && (m.pc == j ==> asked == Retry.TotalDelay(instr.retry, m.attempt))
      && asked <= Retry.TotalDelay(instr.retry, instr.allowed - 1)
  }

  /** How an entry moves the program counter and the attempts of the current step. */
  lemma EntryMoves(m: Machine, e: Entry)
    requires WellFormed(m) && Active(m) && Admissible(m, e)
    ensures var n := Next(m, e);
            && n.src == m.src
            && ((n.pc == m.pc && n.attempt == m.attempt) || (n.pc == m.pc + 1 && n.attempt == 0)
                || (e.Performed? && CallsAt(m, m.pc) && n.pc == m.pc && n.attempt == m.attempt + 1))
    ensures e.Performed? && CallsAt(m, m.pc) ==>
            var n := Next(m, e);
            AskedDelay(m, e.outcome)
              == if n.pc == m.pc && n.attempt == m.attempt + 1
                 then Retry.Delay(InstrAt(m, m.pc).retry, m.attempt) else 0
  {
    hide Compile, StepName, KindOf, FirstMatch, FailureRow, ActivitySuccessRow, ActivityFailureRow, SleepRow, WaitRow,
      Retry.Delay;
    NextIsWellFormed(m, e);
  }

  lemma {:induction false} TotalDelayGrows(retry: Json, a: nat, b: nat)
    requires a <= b
    ensures Retry.TotalDelay(retry, a) <= Retry.TotalDelay(retry, b)
    decreases b
  {
    if a < b { TotalDelayGrows(retry, a, b - 1); }
  }

  lemma {:induction false} BackoffAddsUp(log: Log, j: nat)
    requires Legal(log)
    ensures BackoffAdds(Replay(log), j, BackoffAsked(log, j))
  {
    hide Compile, Next, AskedDelay, Retry.Delay;
    if log.Then? {
      var m, n := Replay(log.prev), Replay(log);
      BackoffAddsUp(log.prev, j);
      LegalIsWellFormed(log.prev);
      LegalIsWellFormed(log);
      EntryMoves(m, log.entry);
      if j < |m.src.program| && InstrAt(m, j).Call? && n.pc == j {
        TotalDelayGrows(InstrAt(m, j).retry, n.attempt, InstrAt(m, j).allowed - 1);
      }
    }
  }

  /** One step's scheduled backoff, over all its attempts, is at most one cap per retry it is allowed. */
  lemma StepBackoffIsBounded(log: Log, j: nat)
    requires Legal(log)
    requires j < |Replay(log).src.program| && InstrAt(Replay(log), j).Call?
    ensures var instr := InstrAt(Replay(log), j);
            BackoffAsked(log, j) <= (instr.allowed - 1) * Max(Retry.Cap(instr.retry), 0)
  {
    hide Compile, Replay, BackoffAsked, Retry.TotalDelay, Retry.Cap;
    BackoffAddsUp(log, j);
    Retry.TotalDelayIsBounded(InstrAt(Replay(log), j).retry, InstrAt(Replay(log), j).allowed - 1);
  }

  // ---- finitely many commits ----

  function Commits(log: Log): nat {
    if log.Born? then 0 else Commits(log.prev) + (if log.entry.Performed? then 1 else 0)
  }

  /** The commits of a log, one by one: the places of its performed steps. */
  function CommitPlaces(log: Log): set<nat> {
    set n: nat | n < Length(log) && PerformedAt(log, n)
  }

  predicate PerformedAt(log: Log, n: nat) {
    n < Length(log) && Prefix(log, n + 1).entry.Performed?
  }

  lemma PlacesGrow(log: Log)
    requires log.Then?
    ensures CommitPlaces(log) ==
      CommitPlaces(log.prev) + (if log.entry.Performed? then {Length(log.prev)} else {})
    ensures Length(log.prev) !in CommitPlaces(log.prev)
  {
    var last := Length(log.prev);
    var grown := CommitPlaces(log.prev) + (if log.entry.Performed? then {last} else {});
    forall n: nat ensures n in CommitPlaces(log) <==> n in grown {
      PlaceStays(log, n);
    }
  }

  lemma PlaceStays(log: Log, n: nat)
    requires log.Then?
    ensures PerformedAt(log, n) <==> PerformedAt(log.prev, n) || (n == Length(log.prev) && log.entry.Performed?)
  {
    if n < Length(log.prev) {
      assert Prefix(log, n + 1) == Prefix(log.prev, n + 1);
    } else if n == Length(log.prev) {
      assert Prefix(log, n + 1) == log;
    }
  }

  lemma {:induction false} CommitsAreCounted(log: Log)
    ensures Commits(log) == |CommitPlaces(log)|
    ensures |Replay(log).history| <= Commits(log)
  {
    hide Next, CommitPlaces;
    if log.Then? {
      CommitsAreCounted(log.prev);
      PlacesGrow(log);
      var _ := NextAppends(Replay(log.prev), log.entry);
      RowsNeedCommits(Replay(log.prev), log.entry);
    } else {
      NothingIsCommitted(log);
    }
  }

  lemma NothingIsCommitted(log: Log)
    requires log.Born?
    ensures CommitPlaces(log) == {}
  {
  }

  lemma RowsNeedCommits(m: Machine, e: Entry)
    ensures !e.Performed? ==> Next(m, e).history == m.history
  {
    hide Perform;
  }

  function StepCost(instr: Instr): nat {
    if instr.Await? then 2 else Allowed(instr)
  }

  function CostFrom(program: seq<Json>, defaultRetry: Json, j: nat): nat
    requires j <= |program|
    decreases |program| - j
  {
    if j == |program| then 0 else StepCost(Compile(program[j], defaultRetry)) + CostFrom(program, defaultRetry, j + 1)
  }

  /** Commits a run can still make without another signal. */
  function Left(m: Machine): int
    requires m.pc <= |m.src.program|
  {
    if !Active(m) then 0
    else if m.pc == |m.src.program| then 1
    else
      StepCost(InstrAt(m, m.pc)) - (if m.status.Waiting? then 1 else m.attempt)
      + CostFrom(m.src.program, m.src.defaultRetry, m.pc + 1) + 1
  }

  /** A parked run that a signal has re-armed may spend one commit on parking itself again. */
  function Armed(m: Machine): nat {
    if m.status.Waiting? && m.wakeAt != m.deadline.GetOr(NEVER) then 1 else 0
  }

  lemma {:induction false} CommitsArePaidFor(log: Log)
    requires Legal(log)
    ensures WellFormed(Replay(log))
    ensures var m := Replay(log);
            Commits(log) + Left(m) + Armed(m)
              <= CostFrom(m.src.program, m.src.defaultRetry, 0) + |Accepted(log)| + 1
  {
    hide Next, Armed;
    LegalIsWellFormed(log);
    if log.Then? {
      hide Left;
      CommitsArePaidFor(log.prev);
      NextSpends(Replay(log.prev), log.entry);
    } else {
      BirthBudget(log.src);
    }
  }

  lemma BirthBudget(src: Source)
    requires src.program != []
    ensures var m := Replay(Born(src));
            Left(m) + Armed(m) == CostFrom(src.program, src.defaultRetry, 0) + 1
  {
    hide Compile;
  }

  lemma NextSpends(m: Machine, e: Entry)
    requires WellFormed(m) && Active(m) && Admissible(m, e)
    ensures var n := Next(m, e);
            && n.src == m.src && WellFormed(n)
            && Left(n) + Armed(n) + (if e.Performed? then 1 else 0)
               <= Left(m) + Armed(m) + (if e.Delivered? then 1 else 0)
  {
    hide Compile, Perform, CostFrom;
    NextIsWellFormed(m, e);
    if e.Performed? {
      PerformSpends(m, e.claimedAt, e.at, e.outcome);
    }
  }

  /** The potential drops by at least one at every performed step. */
  lemma PerformSpends(m: Machine, claimedAt: int, at: int, outcome: Outcome)
    requires WellFormed(m) && Active(m) && m.wakeAt <= claimedAt < NEVER && m.touchedAt <= at
    ensures var n := Perform(m, claimedAt, at, outcome);
            n.src == m.src && WellFormed(n) && Left(n) + Armed(n) < Left(m) + Armed(m)
  {
    hide Compile, StepName, KindOf, FirstMatch, CostFrom, FailureRow, ActivitySuccessRow, ActivityFailureRow, SleepRow,
      WaitRow, Retry.Delay;
    NextIsWellFormed(m, Performed(claimedAt, at, outcome));
    var n := Perform(m, claimedAt, at, outcome);
    CostIsPaidInOrder(m, n);
  }

  lemma CostIsPaidInOrder(m: Machine, n: Machine)
    requires m.src == n.src && m.pc <= n.pc <= m.pc + 1 && n.pc <= |m.src.program|
    ensures m.pc < |m.src.program| ==>
      CostFrom(m.src.program, m.src.defaultRetry, m.pc + 1) >= 0
    ensures n.pc < |m.src.program| ==>
      CostFrom(m.src.program, m.src.defaultRetry, n.pc)
      == StepCost(InstrAt(m, n.pc)) + CostFrom(m.src.program, m.src.defaultRetry, n.pc + 1)
  {
    hide Compile;
  }

  /**
   * A run makes at most (sum of allowed attempts over activities) + (sleeps) + 2 * (waits)
   * + (steps of unknown type) + (signals accepted) + 1 commits.
   */
  lemma FinitelyManyCommits(log: Log)
    requires Legal(log)
    ensures var m := Replay(log);
            Commits(log) <= CostFrom(m.src.program, m.src.defaultRetry, 0) + |Accepted(log)| + 1
  {
    CommitsArePaidFor(log);
    var m := Replay(log);
    assert Left(m) >= 0;
  }
}
