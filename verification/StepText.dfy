/** What an accepted commit does to its run, read directly off the JSON of the step. */
module StepText {
  import opened Wrappers
  import opened Arith
  import opened Json
  import opened Steps
  import opened Store
  import opened Worker
  import opened World
  import opened Interpreter
  import opened Sequential
  import opened Safety
  import Retry

  // ---- texts ----

  /** A step's type is a string; no string, or the empty one, makes it an activity. */
  function TypeText(step: Json): string {
    step.GetStr("type").GetOr("")
  }

  predicate IsActivity(step: Json) {
    step.GetStr("type").None? || step.GetStr("type") == Some("") || step.GetStr("type") == Some("activity")
  }

  /** The name a step goes by: its own if it is not empty, else one made of its index. */
  predicate GoesBy(step: Json, idx: nat, name: string) {
    if step.GetStr("name").Some? && step.GetStr("name").value != "" then name == step.GetStr("name").value
    else name == "step-" + Decimal(idx)
  }

  /** The setting under `key`: the step's own retry object first, then the workflow's default. */
  function Setting(defaultRetry: Json, step: Json, key: string): Option<Json> {
    var own := step.Get("retry").GetOr(Null);
    if own.Get(key).Some? then own.Get(key) else defaultRetry.Get(key)
  }

  predicate OtherType(ty: string) {
    ty != "" && ty != "activity" && ty != "sleep" && ty != "waitSignal"
  }

  lemma KindsByText(step: Json)
    ensures step.GetStr("type") == Some("sleep") ==> KindOf(step) == Sleep
    ensures step.GetStr("type") == Some("waitSignal") ==> KindOf(step) == WaitSignal
    ensures IsActivity(step) ==> KindOf(step) == Activity
    ensures forall ty | step.GetStr("type") == Some(ty) && OtherType(ty) :: KindOf(step) == Unknown(ty)
  {
    TextsDiffer();
  }

  lemma TextsDiffer()
    ensures "sleep" != "waitSignal" && "sleep" != "activity" && "activity" != "waitSignal"
    ensures "sleep" != "" && "activity" != "" && "waitSignal" != ""
  {
    assert |"sleep"| == 5 && |"waitSignal"| == 10 && |"activity"| == 8;
  }

  lemma NameByText(step: Json, idx: nat, name: string)
    requires GoesBy(step, idx, name)
    ensures StepName(step, idx) == name
  {
    hide Decimal;
  }

  /** Decimal numerals have digits only and no leading zero; what they mean is the number they are made of. */
  lemma {:induction false} DecimalIsCanonical(n: nat)
    ensures |Decimal(n)| > 0 && forall c <- Decimal(n) :: '0' <= c <= '9'
    ensures n < 10 <==> |Decimal(n)| == 1
    ensures n > 0 ==> Decimal(n)[0] != '0'
  {
    if n >= 10 { DecimalIsCanonical(n / 10); }
  }

  // ---- every accepted commit ----

  ghost predicate Accepts(w: World, v: RunView) {
    v in w.views && v.id in w.runs && w.runs[v.id].version == v.version
  }

  function After(w: World, v: RunView, outcome: Outcome): Table {
    Step(w, WorkerCommit(v, outcome)).runs
  }

  lemma CommitApplies(evs: seq<Event>, v: RunView, outcome: Outcome)
    requires Accepts(Exec(evs), v)
    ensures var w := Exec(evs); var r := w.runs[v.id];
            && v.json == ToJson(r) && !Terminal(r.status)
            && After(w, v, outcome) == w.runs[v.id := Apply(r, Decide(v, outcome), w.now)]
  {
    hide Decide, Apply, Exec, Play, Perform, Legal, Issued, Inv;
    CommitIsOneAtomicStep(evs, v, outcome);
  }

  /** The step an accepted view is at. */
  ghost predicate AtStep(w: World, v: RunView, step: Json, name: string) {
    Accepts(w, v)
    && var r := w.runs[v.id];
       r.currentStepIndex < |r.steps| && r.steps[r.currentStepIndex] == step && GoesBy(step, r.currentStepIndex, name)
  }

  /** The run as it is now, and what every accepted commit does to it: no lease, touched now, one version up. */
  function Touched(w: World, v: RunView): Run
    requires v.id in w.runs
  {
    var r := w.runs[v.id];
    r.(leaseUntilMs := 0, updatedAt := w.now, version := r.version + 1)
  }

  function Fails(r: Run, row: StepRow, reason: Reason): Run {
    r.(status := Failed, error := Some(reason), stepRuns := r.stepRuns + [row])
  }

  // ---- sleep ----

  /** A sleep moves on at once and wakes up after "durationMs"; none, or a negative one, is no time. */
  lemma SleepCommit(evs: seq<Event>, v: RunView, outcome: Outcome, step: Json, name: string)
    requires AtStep(Exec(evs), v, step, name) && step.GetStr("type") == Some("sleep")
    ensures var w := Exec(evs); var r, ms := Touched(w, v), step.GetInt("durationMs").GetOr(0);
            var row := StepRow(r.currentStepIndex, name, Sleep, "", 0, StepSucceeded,
                               Some(Obj(map["durationMs" := Int(ms)])), None, None, Some(0));
            After(w, v, outcome) == w.runs[v.id :=
              r.(status := Running, currentStepIndex := r.currentStepIndex + 1, attempt := 0,
                 stepRuns := r.stepRuns + [row], nextRunAtMs := w.now + (if ms > 0 then ms else 0))]
  {
    hide Exec, After, KindOf, StepName, GoesBy, DecideActivity, DecideWait;
    CommitApplies(evs, v, outcome);
    KindsByText(step);
    NameByText(step, v.json.currentStepIndex, name);
  }

  // ---- wait ----

  /** With the first signal of "signalName" at `k`: that one is taken, bound and recorded, and the run moves on. */
  lemma WaitCommitTakes(evs: seq<Event>, v: RunView, outcome: Outcome, step: Json, name: string, k: nat)
    requires AtStep(Exec(evs), v, step, name) && step.GetStr("type") == Some("waitSignal")
    requires var signals, wanted := Exec(evs).runs[v.id].signals, Str(step.GetStr("signalName").GetOr(""));
             k < |signals| && signals[k].name == wanted && forall i :: 0 <= i < k ==> signals[i].name != wanted
    ensures var w := Exec(evs); var r := Touched(w, v); var payload := r.signals[k].payload;
            var row := StepRow(r.currentStepIndex, name, WaitSignal, "", 0, StepSucceeded,
                               Some(Obj(map["signalName" := r.signals[k].name])), Some(payload), None, Some(0));
            After(w, v, outcome) == w.runs[v.id :=
              r.(status := Running, currentStepIndex := r.currentStepIndex + 1, attempt := 0,
                 signals := r.signals[..k] + r.signals[k + 1..], context := r.context[name := payload],
                 waitDeadlineMs := None, stepRuns := r.stepRuns + [row], nextRunAtMs := w.now)]
  {
    hide Exec, After, KindOf, StepName, GoesBy, DecideActivity, FirstMatch;
    CommitApplies(evs, v, outcome);
    KindsByText(step);
    NameByText(step, v.json.currentStepIndex, name);
    FirstMatchIsUnique(v.json.signals, SignalName(step), k);
  }

  ghost predicate NoneFits(signals: seq<Signal>, step: Json) {
    forall i :: 0 <= i < |signals| ==> signals[i].name != Str(step.GetStr("signalName").GetOr(""))
  }

  lemma NoneMatches(signals: seq<Signal>, step: Json)
    requires NoneFits(signals, step)
    ensures FirstMatch(signals, SignalName(step)).None?
  {
    hide FirstMatch;
    assert forall i :: 0 <= i < |signals| ==> !Worker.Named(signals, SignalName(step), i);
  }

  /** Without such a signal a run parks: until "waitTimeoutMs" from now, or for ever if that is 0 or not there. */
  lemma WaitCommitParks(evs: seq<Event>, v: RunView, outcome: Outcome, step: Json, name: string)
    requires AtStep(Exec(evs), v, step, name) && step.GetStr("type") == Some("waitSignal")
    requires NoneFits(Exec(evs).runs[v.id].signals, step) && !Exec(evs).runs[v.id].status.Waiting?
    ensures var w := Exec(evs); var r, ms := Touched(w, v), step.GetInt("waitTimeoutMs").GetOr(0);
            After(w, v, outcome) == w.runs[v.id :=
              if ms == 0 then r.(status := Waiting, waitDeadlineMs := None, nextRunAtMs := 0x7FFF_FFFF_FFFF_FFFF)
              else r.(status := Waiting, waitDeadlineMs := Some(w.now + ms), nextRunAtMs := w.now + ms)]
  {
    hide Exec, After, KindOf, StepName, GoesBy, DecideActivity, FirstMatch;
    CommitApplies(evs, v, outcome);
    KindsByText(step);
    NoneMatches(v.json.signals, step);
  }

  /** A run parked before fails if its claim's clock had reached the deadline, and else keeps the deadline it has. */
  lemma WaitCommitAgain(evs: seq<Event>, v: RunView, outcome: Outcome, step: Json, name: string)
    requires AtStep(Exec(evs), v, step, name) && step.GetStr("type") == Some("waitSignal")
    requires NoneFits(Exec(evs).runs[v.id].signals, step) && Exec(evs).runs[v.id].status.Waiting?
    ensures var w := Exec(evs); var r, reason := Touched(w, v), SignalWaitTimeout(step.GetStr("signalName").GetOr(""));
            var row := StepRow(r.currentStepIndex, name, WaitSignal, "", 0, StepFailed, None, None, Some(reason), None);
            After(w, v, outcome) == w.runs[v.id :=
              if r.waitDeadlineMs.None? then r.(nextRunAtMs := 0x7FFF_FFFF_FFFF_FFFF)
              else if v.nowMs < r.waitDeadlineMs.value then r.(nextRunAtMs := r.waitDeadlineMs.value)
              else Fails(r, row, reason)]
  {
    hide Exec, After, KindOf, StepName, GoesBy, DecideActivity, FirstMatch;
    CommitApplies(evs, v, outcome);
    KindsByText(step);
    NameByText(step, v.json.currentStepIndex, name);
    NoneMatches(v.json.signals, step);
  }

  // ---- activity ----

  /** The function an activity runs: "functionId", or else "functionSlug"; an empty one is none. */
  function FunctionText(step: Json): string {
    var id := step.GetStr("functionId").GetOr("");
    if id != "" then id else step.GetStr("functionSlug").GetOr("")
  }

  lemma RefByText(step: Json)
    ensures ActivityRef(step) == if FunctionText(step) == "" then None else Some(FunctionText(step))
  {
  }

  /** Without a function to run, the run fails. */
  lemma ActivityCommitNeedsFunction(evs: seq<Event>, v: RunView, outcome: Outcome, step: Json, name: string)
    requires AtStep(Exec(evs), v, step, name) && IsActivity(step) && FunctionText(step) == ""
    ensures var w := Exec(evs); var r := Touched(w, v);
            var reason := NoFunction;
            var row := StepRow(r.currentStepIndex, name, Activity, "", 0, StepFailed, None, None, Some(reason), None);
            After(w, v, outcome) == w.runs[v.id := Fails(r, row, reason)]
  {
    hide Exec, After, KindOf, StepName, GoesBy, ActivityRef, DecideWait;
    CommitApplies(evs, v, outcome);
    KindsByText(step);
    NameByText(step, v.json.currentStepIndex, name);
    RefByText(step);
  }

  /** A success binds the output to the step's name; the last step completes the run, any other moves on at once. */
  lemma ActivityCommitSucceeds(evs: seq<Event>, v: RunView, output: Json, step: Json, name: string)
    requires AtStep(Exec(evs), v, step, name) && IsActivity(step) && FunctionText(step) != ""
    ensures var w := Exec(evs); var r := Touched(w, v);
            var row := StepRow(r.currentStepIndex, name, Activity, FunctionText(step), r.attempt, StepSucceeded,
                               Some(step.Get("input").GetOr(Obj(map[]))), Some(output), None, None);
            var r' := r.(context := r.context[name := output], stepRuns := r.stepRuns + [row]);
            After(w, v, ActivityOk(output, false)) == w.runs[v.id :=
              if r.currentStepIndex + 1 == |r.steps| then r'.(status := Completed, error := None)
              else r'.(status := Running, currentStepIndex := r.currentStepIndex + 1, attempt := 0,
                       nextRunAtMs := w.now)]
  {
    hide Exec, After, KindOf, StepName, GoesBy, ActivityRef, DecideWait;
    CommitApplies(evs, v, ActivityOk(output, false));
    KindsByText(step);
    NameByText(step, v.json.currentStepIndex, name);
    RefByText(step);
  }

  /** An output that makes the context too large fails the run and binds nothing. */
  lemma ActivityCommitOverflows(evs: seq<Event>, v: RunView, output: Json, step: Json, name: string)
    requires AtStep(Exec(evs), v, step, name) && IsActivity(step) && FunctionText(step) != ""
    ensures var w := Exec(evs); var r, reason := Touched(w, v), ContextOversized;
            var row := StepRow(r.currentStepIndex, name, Activity, "", 0, StepFailed, None, None, Some(reason), None);
            After(w, v, ActivityOk(output, true)) == w.runs[v.id := Fails(r, row, reason)]
  {
    hide Exec, After, KindOf, StepName, GoesBy, ActivityRef, DecideWait;
    CommitApplies(evs, v, ActivityOk(output, true));
    KindsByText(step);
    NameByText(step, v.json.currentStepIndex, name);
    RefByText(step);
  }

  /** How many attempts the settings allow: "maxAttempts", 3 if not there, from 1 to 1000. */
  function Attempts(defaultRetry: Json, step: Json): int {
    match Setting(defaultRetry, step, "maxAttempts")
    case Some(Int(n)) => if !(-0x8000_0000_0000_0000 <= n < 0x8000_0000_0000_0000) then 3
                         else if n < 1 then 1 else if n > 1000 then 1000 else n
    case _ => 3
  }

  lemma AttemptsByText(defaultRetry: Json, step: Json)
    ensures Retry.MaxAttempts(Retry.RetryConfig(defaultRetry, step)) == Attempts(defaultRetry, step)
  {
    hide Retry.RetryConfig;
    Retry.StepOverridesDefault(defaultRetry, step, "maxAttempts");
  }

  /** An object that has these settings, and so the backoff that follows from them. */
  ghost predicate HasSettings(retry: Json, defaultRetry: Json, step: Json) {
    forall key :: retry.Get(key) == Setting(defaultRetry, step, key)
  }

  lemma ConfigHasSettings(defaultRetry: Json, step: Json)
    ensures HasSettings(Retry.RetryConfig(defaultRetry, step), defaultRetry, step)
  {
    hide Retry.RetryConfig;
    forall key ensures Retry.RetryConfig(defaultRetry, step).Get(key) == Setting(defaultRetry, step, key) {
      Retry.StepOverridesDefault(defaultRetry, step, key);
    }
  }

  lemma SameSettingsSameBackoff(a: Json, b: Json, attempt: nat)
    requires forall key :: a.Get(key) == b.Get(key)
    ensures Retry.BackoffMs(a, attempt) == Retry.BackoffMs(b, attempt)
  {
    hide Retry.Pow, Retry.ScaledBackoff;
    assert a.Get("backoffMs") == b.Get("backoffMs") && a.Get("backoffFactor") == b.Get("backoffFactor");
    assert a.Get("maxBackoffMs") == b.Get("maxBackoffMs");
  }

  /** A failure is recorded under its attempt, and retried after the backoff of the settings while attempts are left. */
  lemma ActivityCommitFails(evs: seq<Event>, v: RunView, text: string, step: Json, name: string, retry: Json)
    requires AtStep(Exec(evs), v, step, name) && IsActivity(step) && FunctionText(step) != ""
    requires HasSettings(retry, Exec(evs).runs[v.id].defaultRetry, step)
    ensures var w := Exec(evs); var r, reason := Touched(w, v), ActivityError(text);
            var row := StepRow(r.currentStepIndex, name, Activity, FunctionText(step), r.attempt, StepFailed,
                               Some(step.Get("input").GetOr(Obj(map[]))), None, Some(reason), None);
            var backoff := Retry.BackoffMs(retry, r.attempt);
            After(w, v, ActivityErr(text)) == w.runs[v.id :=
              if r.attempt + 1 < Attempts(r.defaultRetry, step) then
                r.(status := Running, attempt := r.attempt + 1, error := Some(reason), stepRuns := r.stepRuns + [row],
                   nextRunAtMs := w.now + (if backoff > 0 then backoff else 0))
              else Fails(r, row, reason)]
  {
    hide Exec, After, KindOf, StepName, GoesBy, ActivityRef, DecideWait, Retry.MaxAttempts, Retry.BackoffMs,
      Retry.RetryConfig, Attempts, Setting;
    CommitApplies(evs, v, ActivityErr(text));
    KindsByText(step);
    NameByText(step, v.json.currentStepIndex, name);
    RefByText(step);
    var defaultRetry := v.json.defaultRetry;
    AttemptsByText(defaultRetry, step);
    ConfigHasSettings(defaultRetry, step);
    SameSettingsSameBackoff(Retry.RetryConfig(defaultRetry, step), retry, v.json.attempt);
  }

  // ---- anything else ----

  /** A step of any other type fails the run. */
  lemma UnknownCommitFails(evs: seq<Event>, v: RunView, outcome: Outcome, step: Json, name: string, ty: string)
    requires AtStep(Exec(evs), v, step, name) && step.GetStr("type") == Some(ty)
    requires OtherType(ty)
    ensures var w := Exec(evs); var r, reason := Touched(w, v), UnknownStepType(ty);
            var idx := r.currentStepIndex;
            var row := StepRow(idx, name, Unknown(ty), "", 0, StepFailed, None, None, Some(reason), None);
            After(w, v, outcome) == w.runs[v.id := Fails(r, row, reason)]
  {
    hide Exec, After, KindOf, StepName, GoesBy, DecideActivity, DecideWait;
    CommitApplies(evs, v, outcome);
    KindsByText(step);
    NameByText(step, v.json.currentStepIndex, name);
  }

  /** Behind the last step there is only the end. */
  lemma LastCommitCompletes(evs: seq<Event>, v: RunView, outcome: Outcome)
    requires Accepts(Exec(evs), v) && Exec(evs).runs[v.id].currentStepIndex >= |Exec(evs).runs[v.id].steps|
    ensures var w := Exec(evs);
            After(w, v, outcome) == w.runs[v.id := Touched(w, v).(status := Completed, error := None)]
  {
    hide Exec, After, DecideActivity, DecideWait;
    CommitApplies(evs, v, outcome);
  }

  // ---- how many commits a run can make ----

  /** What a step may cost in commits: an activity its attempts, a wait two, anything else one. */
  function CommitsFor(step: Json, defaultRetry: Json): int {
    if IsActivity(step) then Attempts(defaultRetry, step)
    else if step.GetStr("type") == Some("waitSignal") then 2
    else 1
  }

  function CommitsForAll(steps: seq<Json>, defaultRetry: Json): int {
    if steps == [] then 0 else CommitsFor(steps[0], defaultRetry) + CommitsForAll(steps[1..], defaultRetry)
  }

  lemma CostByText(step: Json, defaultRetry: Json)
    ensures StepCost(Compile(step, defaultRetry)) == CommitsFor(step, defaultRetry)
  {
    hide KindOf, Retry.MaxAttempts, Retry.RetryConfig, Attempts;
    KindsByText(step);
    AttemptsByText(defaultRetry, step);
    TextsDiffer();
  }

  lemma {:induction false} CostsByText(steps: seq<Json>, defaultRetry: Json, j: nat)
    requires j <= |steps|
    ensures CostFrom(steps, defaultRetry, j) == CommitsForAll(steps[j..], defaultRetry)
    decreases |steps| - j
  {
    hide Compile, CommitsFor;
    if j < |steps| {
      CostsByText(steps, defaultRetry, j + 1);
      CostByText(steps[j], defaultRetry);
      assert steps[j..][1..] == steps[j + 1..];
    }
  }

  /** Every stored run has made at most as many commits as its steps may cost, one per signal accepted, and one. */
  lemma CommitsAreBoundedByText(evs: seq<Event>, id: RunId)
    requires id in Exec(evs).runs
    ensures var w := Exec(evs);
            && id in w.logs
            && |CommitPlaces(w.logs[id])|
               <= CommitsForAll(w.runs[id].steps, w.runs[id].defaultRetry) + |Accepted(w.logs[id])| + 1
  {
    hide Exec, Replay, Legal, CommitsForAll, CommitPlaces;
    StoredRun(evs, id);
    CommitsAreBounded(evs, id);
    CommitsAreCounted(Exec(evs).logs[id]);
    CostsByText(Exec(evs).runs[id].steps, Exec(evs).runs[id].defaultRetry, 0);
  }
}
