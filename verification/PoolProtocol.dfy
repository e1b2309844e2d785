/**
 * Callers, the slot table, the drivers and the children, interleaved one critical section or message at
 * a time. A child answers every request line with one line, in any order it likes; text is arbitrary.
 */
module PoolProtocol {
  import opened Wrappers
  import opened ChildRunner

  type CallId = nat

  const CHANNEL_CAPACITY: nat := 16

  datatype Request = Request(call: CallId, payload: string)
  datatype Answer = Answer(request: Request, text: string)

  datatype Outcome = Success(answer: Answer) | Failure

  /** Where a caller is inside `invoke_worker`; `Sending` and `Waiting` name the worker whose channel it holds. */
  datatype Stage = Ensuring | Spawning | Sending(to: WorkerId) | Waiting(on: WorkerId) | Done(outcome: Outcome)

  datatype Call = Call(key: string, command: string, payload: string, stage: Stage)

  /** A driver serves; then leaves its loop, clears its `alive` flag, and finally drops its end of the channel. */
  datatype Phase = Serving | Leaving | Dying | Gone

  /** `accepted` and `answers` remember, in order, what the channel took and which lines the driver read. */
  datatype Worker = Worker(
    command: string,
    phase: Phase,
    queue: seq<CallId>,
    current: Option<CallId>,
    asked: seq<Request>,
    out: seq<Answer>,
    accepted: seq<CallId>,
    answers: seq<Answer>)

  datatype Pool = Pool(slots: Slots, workers: map<WorkerId, Worker>, calls: map<CallId, Call>)

  /** `DropSlot` is `destroy`, and the `delete_worker` of a failed caller: it may come at any time. */
  datatype Event =
    | Invoke(call: CallId, key: string, command: string, payload: string)
    | TryReuse(call: CallId, now: int)
    | Spawn(call: CallId, worker: WorkerId, idleMs: nat, now: int)
    | SpawnFails(call: CallId)
    | Send(call: CallId)
    | Timeout(call: CallId)
    | DropSlot(key: string)
    | Touch(key: string, now: int)
    | Reap(now: int)
    | Take(worker: WorkerId)
    | TakeFails(worker: WorkerId)
    | ChildAnswers(worker: WorkerId, pick: nat, text: string)
    | Read(worker: WorkerId)
    | ReadFails(worker: WorkerId)
    | Retire(worker: WorkerId)
    | Wind(worker: WorkerId)

  predicate At(p: Pool, call: CallId, stage: Stage) {
    call in p.calls && p.calls[call].stage == stage
  }

  function Move(p: Pool, call: CallId, stage: Stage): Pool
    requires call in p.calls
  {
    p.(calls := p.calls[call := p.calls[call].(stage := stage)])
  }

  /** A reply reaches its caller only while the caller still waits for this worker. */
  function Reply(p: Pool, worker: WorkerId, call: CallId, outcome: Outcome): Pool {
    if At(p, call, Waiting(worker)) then Move(p, call, Done(outcome)) else p
  }

  function SetWorker(p: Pool, id: WorkerId, w: Worker): Pool {
    p.(workers := p.workers[id := w])
  }

  /** The workers whose `alive` flag is still set. */
  function Alive(p: Pool): set<WorkerId> {
    set w | w in p.workers && (p.workers[w].phase.Serving? || p.workers[w].phase.Leaving?)
  }

  function AfterTryReuse(p: Pool, call: CallId, now: int): Pool
    requires At(p, call, Ensuring)
  {
    var c := p.calls[call];
    if Reusable(p.slots, c.command, c.key, Alive(p)) then
      var slot := p.slots[c.key];
      Move(p, call, Sending(slot.worker)).(slots := p.slots[c.key := slot.(lastUsed := now)])
    else Move(p, call, Spawning).(slots := p.slots - {c.key})
  }

  function AfterSpawn(p: Pool, call: CallId, worker: WorkerId, idleMs: nat, now: int): Pool
    requires At(p, call, Spawning)
  {
    var c := p.calls[call];
    SetWorker(Move(p, call, Sending(worker)), worker, Worker(c.command, Serving, [], None, [], [], [], []))
      .(slots := p.slots[c.key := Slot(c.command, worker, idleMs, now)])
  }

  /** A closed channel fails the caller; a full one makes it wait its turn. */
  function AfterSend(p: Pool, call: CallId): Pool
    requires call in p.calls && p.calls[call].stage.Sending?
  {
    var id := p.calls[call].stage.to;
    if id !in p.workers || p.workers[id].phase.Gone? then Move(p, call, Done(Failure))
    else if |p.workers[id].queue| >= CHANNEL_CAPACITY then p
    else
      var w := p.workers[id];
      SetWorker(Move(p, call, Waiting(id)), id, w.(queue := w.queue + [call], accepted := w.accepted + [call]))
  }

  /** The driver takes the oldest invocation and writes its payload as one request line. */
  function AfterTake(p: Pool, id: WorkerId): Pool
    requires id in p.workers && p.workers[id].queue != []
  {
    var w := p.workers[id];
    var call := w.queue[0];
    if call !in p.calls then p
    else
      var request := Request(call, p.calls[call].payload);
      SetWorker(p, id, w.(queue := w.queue[1..], current := Some(call), asked := w.asked + [request]))
  }

  function AfterAnswer(w: Worker, pick: nat, text: string): Worker
    requires pick < |w.asked|
  {
    w.(asked := w.asked[..pick] + w.asked[pick + 1..], out := w.out + [Answer(w.asked[pick], text)])
  }

  /** The next line from the child goes to the caller of the current invocation, whoever it answers. */
  function AfterRead(p: Pool, id: WorkerId): Pool
    requires id in p.workers && p.workers[id].current.Some? && p.workers[id].out != []
  {
    var w := p.workers[id];
    SetWorker(Reply(p, id, w.current.value, Success(w.out[0])), id,
              w.(current := None, out := w.out[1..], answers := w.answers + [w.out[0]]))
  }

  /** Nobody can reach the worker any more: no slot, no clone of its channel. */
  predicate Abandoned(p: Pool, id: WorkerId) {
    (forall key :: key in p.slots ==> p.slots[key].worker != id)
    && forall c :: c in p.calls ==> p.calls[c].stage != Sending(id) && p.calls[c].stage != Waiting(id)
  }

  /** Dropping the channel drops the reply ends of everything still queued. */
  function AfterWind(p: Pool, id: WorkerId): Pool
    requires id in p.workers
  {
    var w := p.workers[id];
    match w.phase
    case Serving => p
    case Leaving => SetWorker(p, id, w.(phase := Dying))
    case Dying =>
      SetWorker(p, id, w.(phase := Gone)).(calls :=
        map c | c in p.calls :: if p.calls[c].stage == Waiting(id) then p.calls[c].(stage := Done(Failure))
          else p.calls[c])
    case Gone => p
  }

  predicate Busy(p: Pool, id: WorkerId) {
    id in p.workers && p.workers[id].phase.Serving? && p.workers[id].current.Some?
  }

  predicate Free(p: Pool, id: WorkerId) {
    id in p.workers && p.workers[id].phase.Serving? && p.workers[id].current.None?
  }

  function Step(p: Pool, ev: Event): Pool {
    match ev
    case Invoke(call, key, command, payload) =>
      if call in p.calls then p else p.(calls := p.calls[call := Call(key, command, payload, Ensuring)])
    case TryReuse(call, now) => if At(p, call, Ensuring) then AfterTryReuse(p, call, now) else p
    case Spawn(call, worker, idleMs, now) =>
      if At(p, call, Spawning) && worker !in p.workers then AfterSpawn(p, call, worker, idleMs, now) else p
    case SpawnFails(call) => if At(p, call, Spawning) then Move(p, call, Done(Failure)) else p
    case Send(call) => if call in p.calls && p.calls[call].stage.Sending? then AfterSend(p, call) else p
    case Timeout(call) =>
      if call in p.calls && p.calls[call].stage.Waiting? then Move(p, call, Done(Failure)) else p
    case DropSlot(key) => p.(slots := p.slots - {key})
    case Touch(key, now) =>
      if key in p.slots then p.(slots := p.slots[key := p.slots[key].(lastUsed := now)]) else p
    case Reap(now) => p.(slots := Reaped(p.slots, Alive(p), now))
    case Take(worker) => if Free(p, worker) && p.workers[worker].queue != [] then AfterTake(p, worker) else p
    case TakeFails(worker) =>
      if Free(p, worker) && p.workers[worker].queue != [] then
        var w := p.workers[worker];
        SetWorker(Reply(p, worker, w.queue[0], Failure), worker, w.(queue := w.queue[1..], phase := Leaving))
      else p
    case ChildAnswers(worker, pick, text) =>
      if worker in p.workers && pick < |p.workers[worker].asked| then
        SetWorker(p, worker, AfterAnswer(p.workers[worker], pick, text))
      else p
    case Read(worker) => if Busy(p, worker) && p.workers[worker].out != [] then AfterRead(p, worker) else p
    case ReadFails(worker) =>
      if Busy(p, worker) then
        var w := p.workers[worker];
        SetWorker(Reply(p, worker, w.current.value, Failure), worker, w.(current := None, phase := Leaving))
      else p
    case Retire(worker) =>
      if Free(p, worker) && p.workers[worker].queue == [] && Abandoned(p, worker) then
        SetWorker(p, worker, p.workers[worker].(phase := Leaving))
      else p
    case Wind(worker) => if worker in p.workers then AfterWind(p, worker) else p
  }

  function Play(p: Pool, evs: seq<Event>): Pool {
    if evs == [] then p else Step(Play(p, evs[..|evs| - 1]), evs[|evs| - 1])
  }

  function Exec(evs: seq<Event>): Pool {
    Play(Pool(map[], map[], map[]), evs)
  }

  // ---- the invariant ----

  function CallsOf(answers: seq<Answer>): seq<CallId> {
    seq(|answers|, i requires 0 <= i < |answers| => answers[i].request.call)
  }

  function Pending(w: Worker): seq<CallId> {
    if w.current.Some? then [w.current.value] else []
  }

  predicate Own(p: Pool, request: Request) {
    request.call in p.calls && request.payload == p.calls[request.call].payload
  }

  /** A serving worker's child owes at most one line, and it is about the invocation the driver waits for. */
  predicate InStep(p: Pool, w: Worker) {
    match w.current
    case None => w.asked == [] && w.out == []
    case Some(call) =>
      || (|w.asked| == 1 && w.out == [] && w.asked[0].call == call && Own(p, w.asked[0]))
      || (w.asked == [] && |w.out| == 1 && w.out[0].request.call == call && Own(p, w.out[0].request))
  }

  predicate WorkerOk(p: Pool, w: Worker) {
    && |w.queue| <= CHANNEL_CAPACITY
    && (w.phase.Serving? ==> InStep(p, w) && w.accepted == CallsOf(w.answers) + Pending(w) + w.queue)
    && CallsOf(w.answers) <= w.accepted
  }

  predicate CallOk(p: Pool, id: CallId, c: Call) {
    match c.stage
    case Sending(w) => w in p.workers && p.workers[w].command == c.command
    case Waiting(w) => w in p.workers && p.workers[w].command == c.command
    case Done(Success(answer)) => answer.request == Request(id, c.payload)
    case _ => true
  }

  ghost predicate Inv(p: Pool) {
    && (forall w :: w in p.workers ==> WorkerOk(p, p.workers[w]))
    && (forall c :: c in p.calls ==> CallOk(p, c, p.calls[c]))
    && Backed(p, p.slots)
  }

  /** Every slot names an existing worker and remembers its command. */
  predicate Backed(p: Pool, slots: Slots) {
    forall key :: key in slots ==>
      slots[key].worker in p.workers && p.workers[slots[key].worker].command == slots[key].command
  }

  /** Calls keep their key, command and payload, and workers their command; `Done` is for good. */
  predicate Grows(p: Pool, q: Pool) {
    && (forall c :: c in p.calls ==>
          && c in q.calls && q.calls[c].payload == p.calls[c].payload && q.calls[c].command == p.calls[c].command
          && (p.calls[c].stage.Done? ==> q.calls[c].stage == p.calls[c].stage))
    && (forall w :: w in p.workers ==> w in q.workers && q.workers[w].command == p.workers[w].command)
  }

  lemma GrowsIsTransitive(p: Pool, q: Pool, r: Pool)
    requires Grows(p, q) && Grows(q, r)
    ensures Grows(p, r)
  {
  }

  lemma WorkerStaysOk(p: Pool, q: Pool, w: Worker)
    requires WorkerOk(p, w) && Grows(p, q)
    ensures WorkerOk(q, w)
  {
  }

  /** Each building block of a step keeps the invariant: a caller moves on, a worker changes, slots change. */
  lemma MoveKeepsInv(p: Pool, call: CallId, stage: Stage)
    requires Inv(p) && call in p.calls && !p.calls[call].stage.Done?
    requires CallOk(p, call, p.calls[call].(stage := stage))
    ensures Inv(Move(p, call, stage)) && Grows(p, Move(p, call, stage))
  {
    hide WorkerOk;
    var q := Move(p, call, stage);
    forall w | w in q.workers ensures WorkerOk(q, q.workers[w]) { WorkerStaysOk(p, q, p.workers[w]); }
  }

  lemma SetWorkerKeepsInv(p: Pool, id: WorkerId, w: Worker)
    requires Inv(p) && WorkerOk(p, w) && (id in p.workers ==> p.workers[id].command == w.command)
    ensures Inv(SetWorker(p, id, w)) && Grows(p, SetWorker(p, id, w))
  {
    hide WorkerOk;
    var q := SetWorker(p, id, w);
    forall i | i in q.workers ensures WorkerOk(q, q.workers[i]) {
      WorkerStaysOk(p, q, q.workers[i]);
    }
  }

  lemma SlotsKeepInv(p: Pool, slots: Slots)
    requires Inv(p) && Backed(p, slots)
    ensures Inv(p.(slots := slots)) && Grows(p, p.(slots := slots))
  {
    hide WorkerOk;
    var q := p.(slots := slots);
    forall w | w in q.workers ensures WorkerOk(q, q.workers[w]) { WorkerStaysOk(p, q, p.workers[w]); }
  }

  lemma ReplyKeepsInv(p: Pool, id: WorkerId, call: CallId, outcome: Outcome)
    requires Inv(p)
    requires outcome.Success? && call in p.calls ==> outcome.answer.request == Request(call, p.calls[call].payload)
    ensures Inv(Reply(p, id, call, outcome)) && Grows(p, Reply(p, id, call, outcome))
    ensures Reply(p, id, call, outcome).workers == p.workers
  {
    hide Inv, WorkerOk;
    if At(p, call, Waiting(id)) { MoveKeepsInv(p, call, Done(outcome)); }
  }

  lemma InvokeStep(p: Pool, ev: Event)
    requires Inv(p) && ev.Invoke?
    ensures Inv(Step(p, ev)) && Grows(p, Step(p, ev))
  {
    hide WorkerOk;
    var q := Step(p, ev);
    forall w | w in q.workers ensures WorkerOk(q, q.workers[w]) { WorkerStaysOk(p, q, p.workers[w]); }
  }

  lemma EnsureStep(p: Pool, call: CallId, now: int)
    requires Inv(p) && At(p, call, Ensuring)
    ensures Inv(AfterTryReuse(p, call, now)) && Grows(p, AfterTryReuse(p, call, now))
  {
    hide WorkerOk;
    var q := AfterTryReuse(p, call, now);
    var moved := Move(p, call, q.calls[call].stage);
    MoveKeepsInv(p, call, q.calls[call].stage);
    SlotsKeepInv(moved, q.slots);
    GrowsIsTransitive(p, moved, q);
  }

  lemma SpawnStep(p: Pool, call: CallId, worker: WorkerId, idleMs: nat, now: int)
    requires Inv(p) && At(p, call, Spawning) && worker !in p.workers
    ensures Inv(AfterSpawn(p, call, worker, idleMs, now)) && Grows(p, AfterSpawn(p, call, worker, idleMs, now))
  {
    SlotsAreBacked(p);
    hide Inv;
    var newborn := Worker(p.calls[call].command, Serving, [], None, [], [], [], []);
    var spawned := SetWorker(p, worker, newborn);
    SetWorkerKeepsInv(p, worker, newborn);
    MoveKeepsInv(spawned, call, Sending(worker));
    var moved := Move(spawned, call, Sending(worker));
    SlotsKeepInv(moved, p.slots[p.calls[call].key := Slot(p.calls[call].command, worker, idleMs, now)]);
    GrowsIsTransitive(p, spawned, moved);
    GrowsIsTransitive(p, moved, AfterSpawn(p, call, worker, idleMs, now));
  }

  lemma SlotsAreBacked(p: Pool)
    requires Inv(p)
    ensures Backed(p, p.slots)
  {
  }

  lemma EnqueueStep(p: Pool, call: CallId, id: WorkerId)
    requires Inv(p) && At(p, call, Sending(id)) && id in p.workers && |p.workers[id].queue| < CHANNEL_CAPACITY
    ensures var w := p.workers[id];
            var w' := w.(queue := w.queue + [call], accepted := w.accepted + [call]);
            var q := SetWorker(Move(p, call, Waiting(id)), id, w');
            Inv(q) && Grows(p, q)
  {
    var w := p.workers[id];
    assert CallOk(p, call, p.calls[call]) && WorkerOk(p, w);
    hide Inv;
    var moved := Move(p, call, Waiting(id));
    MoveKeepsInv(p, call, Waiting(id));
    WorkerStaysOk(p, moved, w);
    assert CallsOf(w.answers) + Pending(w) + (w.queue + [call]) == (CallsOf(w.answers) + Pending(w) + w.queue) + [call];
    var w' := w.(queue := w.queue + [call], accepted := w.accepted + [call]);
    assert WorkerOk(moved, w');
    SetWorkerKeepsInv(moved, id, w');
    GrowsIsTransitive(p, moved, SetWorker(moved, id, w'));
  }

  lemma TakeStep(p: Pool, id: WorkerId)
    requires Inv(p) && Free(p, id) && p.workers[id].queue != []
    ensures Inv(AfterTake(p, id)) && Grows(p, AfterTake(p, id))
  {
    var w := p.workers[id];
    assert WorkerOk(p, w);
    hide Inv;
    if w.queue[0] in p.calls {
      assert [w.queue[0]] + w.queue[1..] == w.queue;
      assert CallsOf(w.answers) + [] + w.queue == CallsOf(w.answers) + [w.queue[0]] + w.queue[1..];
      SetWorkerKeepsInv(p, id, AfterTake(p, id).workers[id]);
    }
  }

  lemma AnswerStep(p: Pool, id: WorkerId, pick: nat, text: string)
    requires Inv(p) && id in p.workers && pick < |p.workers[id].asked|
    ensures var q := SetWorker(p, id, AfterAnswer(p.workers[id], pick, text)); Inv(q) && Grows(p, q)
  {
    assert WorkerOk(p, p.workers[id]);
    hide Inv;
    SetWorkerKeepsInv(p, id, AfterAnswer(p.workers[id], pick, text));
  }

  /** The line read is the answer to the current invocation, so the caller gets its own. */
  lemma ReadStep(p: Pool, id: WorkerId)
    requires Inv(p) && Busy(p, id) && p.workers[id].out != []
    ensures Inv(AfterRead(p, id)) && Grows(p, AfterRead(p, id))
  {
    var w := p.workers[id];
    assert WorkerOk(p, w);
    hide Inv;
    var call := w.current.value;
    assert w.out[0].request.call == call && Own(p, w.out[0].request);
    var replied := Reply(p, id, call, Success(w.out[0]));
    ReplyKeepsInv(p, id, call, Success(w.out[0]));
    assert CallsOf(w.answers + [w.out[0]]) == CallsOf(w.answers) + [call];
    var w' := w.(current := None, out := w.out[1..], answers := w.answers + [w.out[0]]);
    assert WorkerOk(replied, w');
    SetWorkerKeepsInv(replied, id, w');
    GrowsIsTransitive(p, replied, AfterRead(p, id));
  }

  /** A driver that stops serving, with or without failing the caller at hand. */
  lemma StopStep(p: Pool, id: WorkerId, call: CallId, w: Worker)
    requires Inv(p) && id in p.workers && !w.phase.Serving? && w.command == p.workers[id].command
    requires |w.queue| <= |p.workers[id].queue| && w.accepted == p.workers[id].accepted
      && w.answers == p.workers[id].answers
    ensures var q := SetWorker(Reply(p, id, call, Failure), id, w); Inv(q) && Grows(p, q)
    ensures Inv(SetWorker(p, id, w)) && Grows(p, SetWorker(p, id, w))
  {
    assert WorkerOk(p, p.workers[id]);
    hide Inv;
    var replied := Reply(p, id, call, Failure);
    ReplyKeepsInv(p, id, call, Failure);
    assert WorkerOk(replied, w) && WorkerOk(p, w);
    SetWorkerKeepsInv(replied, id, w);
    SetWorkerKeepsInv(p, id, w);
    GrowsIsTransitive(p, replied, SetWorker(replied, id, w));
  }

  lemma WindStep(p: Pool, id: WorkerId)
    requires Inv(p) && id in p.workers
    ensures Inv(AfterWind(p, id)) && Grows(p, AfterWind(p, id))
  {
    var w := p.workers[id];
    match w.phase {
      case Leaving => StopStep(p, id, 0, w.(phase := Dying));
      case Dying =>
        StopStep(p, id, 0, w.(phase := Gone));
        CloseStep(SetWorker(p, id, w.(phase := Gone)), id);
        GrowsIsTransitive(p, SetWorker(p, id, w.(phase := Gone)), AfterWind(p, id));
      case _ =>
    }
  }

  lemma CloseStep(p: Pool, id: WorkerId)
    requires Inv(p)
    ensures var q := p.(calls := map c | c in p.calls ::
                          if p.calls[c].stage == Waiting(id) then p.calls[c].(stage := Done(Failure)) else p.calls[c]);
            Inv(q) && Grows(p, q)
  {
    hide WorkerOk;
    var q := p.(calls := map c | c in p.calls ::
                  if p.calls[c].stage == Waiting(id) then p.calls[c].(stage := Done(Failure)) else p.calls[c]);
    forall w | w in q.workers ensures WorkerOk(q, q.workers[w]) { WorkerStaysOk(p, q, p.workers[w]); }
    forall c | c in q.calls ensures CallOk(q, c, q.calls[c]) { assert CallOk(p, c, p.calls[c]); }
  }

  lemma StepKeepsInv(p: Pool, ev: Event)
    requires Inv(p)
    ensures Inv(Step(p, ev)) && Grows(p, Step(p, ev))
  {
    hide Inv, AfterTake, AfterRead, AfterWind, AfterAnswer, AfterTryReuse, AfterSpawn, Reply, SetWorker, Move,
      Abandoned, Grows, Reaped;
    if Step(p, ev) == p {
      GrowsIsReflexive(p);
    } else {
      match ev {
        case Invoke(_, _, _, _) => InvokeStep(p, ev);
        case TryReuse(call, now) => EnsureStep(p, call, now);
        case Spawn(call, worker, idleMs, now) => SpawnStep(p, call, worker, idleMs, now);
        case SpawnFails(call) => MoveKeepsInv(p, call, Done(Failure));
        case Send(call) =>
          if p.calls[call].stage.to !in p.workers || p.workers[p.calls[call].stage.to].phase.Gone? {
            MoveKeepsInv(p, call, Done(Failure));
          } else {
            EnqueueStep(p, call, p.calls[call].stage.to);
          }
        case Timeout(call) => MoveKeepsInv(p, call, Done(Failure));
        case DropSlot(key) =>
          SlotsAreBacked(p);
          SlotsKeepInv(p, p.slots - {key});
        case Touch(key, now) =>
          SlotsAreBacked(p);
          SlotsKeepInv(p, p.slots[key := p.slots[key].(lastUsed := now)]);
        case Reap(now) =>
          ReapedIsBacked(p, now);
          SlotsKeepInv(p, Reaped(p.slots, Alive(p), now));
        case Take(worker) => TakeStep(p, worker);
        case TakeFails(worker) =>
          var w := p.workers[worker];
          StopStep(p, worker, w.queue[0], w.(queue := w.queue[1..], phase := Leaving));
        case ChildAnswers(worker, pick, text) => AnswerStep(p, worker, pick, text);
        case Read(worker) => ReadStep(p, worker);
        case ReadFails(worker) =>
          var w := p.workers[worker];
          StopStep(p, worker, w.current.value, w.(current := None, phase := Leaving));
        case Retire(worker) => StopStep(p, worker, 0, p.workers[worker].(phase := Leaving));
        case Wind(worker) => WindStep(p, worker);
      }
    }
  }

  lemma ReapedIsBacked(p: Pool, now: int)
    requires Inv(p)
    ensures Backed(p, Reaped(p.slots, Alive(p), now))
  {
    hide WorkerOk, CallOk, Alive, Expired;
  }

  lemma GrowsIsReflexive(p: Pool)
    ensures Grows(p, p)
  {
  }

  lemma {:induction false} PlayKeepsInv(p: Pool, evs: seq<Event>)
    requires Inv(p)
    ensures Inv(Play(p, evs)) && Grows(p, Play(p, evs))
  {
    hide Inv, Step;
    if evs != [] {
      PlayKeepsInv(p, evs[..|evs| - 1]);
      StepKeepsInv(Play(p, evs[..|evs| - 1]), evs[|evs| - 1]);
    }
  }

  lemma Reachable(evs: seq<Event>)
    ensures Inv(Exec(evs))
  {
    PlayKeepsInv(Pool(map[], map[], map[]), evs);
  }

  // ---- what callers may rely on ----

  /**
   * A successful invocation returns the line that its own child wrote for its own payload, whatever other
   * callers timed out, and whatever was reaped, destroyed or replaced meanwhile.
   */
  lemma OkRepliesAreOwn(evs: seq<Event>, call: CallId)
    requires call in Exec(evs).calls && Exec(evs).calls[call].stage.Done?
      && Exec(evs).calls[call].stage.outcome.Success?
    ensures Exec(evs).calls[call].stage.outcome.answer.request == Request(call, Exec(evs).calls[call].payload)
  {
    hide Exec;
    Reachable(evs);
    assert CallOk(Exec(evs), call, Exec(evs).calls[call]);
  }

  /** An invocation has at most one outcome: once it is done, nothing changes it. */
  lemma OutcomesAreFinal(evs: seq<Event>, more: seq<Event>, call: CallId)
    requires call in Exec(evs).calls && Exec(evs).calls[call].stage.Done?
    ensures call in Play(Exec(evs), more).calls
      && Play(Exec(evs), more).calls[call].stage == Exec(evs).calls[call].stage
  {
    hide Exec, Inv, Play;
    Reachable(evs);
    PlayKeepsInv(Exec(evs), more);
  }

  /** A caller only ever holds the channel of a worker that runs the command it asked for. */
  lemma ServedByOwnCommand(evs: seq<Event>, call: CallId, worker: WorkerId)
    requires call in Exec(evs).calls
    requires Exec(evs).calls[call].stage == Sending(worker) || Exec(evs).calls[call].stage == Waiting(worker)
    ensures worker in Exec(evs).workers && Exec(evs).workers[worker].command == Exec(evs).calls[call].command
  {
    hide Exec;
    Reachable(evs);
    assert CallOk(Exec(evs), call, Exec(evs).calls[call]);
  }

  /** Drivers are first in, first out: the k-th line read answers the k-th invocation the channel accepted. */
  lemma AnswersComeInOrder(evs: seq<Event>, worker: WorkerId, k: nat)
    requires worker in Exec(evs).workers && k < |Exec(evs).workers[worker].answers|
    ensures var w := Exec(evs).workers[worker]; k < |w.accepted| && w.answers[k].request.call == w.accepted[k]
  {
    hide Exec;
    Reachable(evs);
    var w := Exec(evs).workers[worker];
    assert WorkerOk(Exec(evs), w);
    assert CallsOf(w.answers)[k] == w.answers[k].request.call;
  }

  /** While a driver serves, its child has at most one request line that is not yet read back. */
  lemma AtMostOneOutstanding(evs: seq<Event>, worker: WorkerId)
    requires worker in Exec(evs).workers && Exec(evs).workers[worker].phase.Serving?
    ensures var w := Exec(evs).workers[worker];
            |w.asked| + |w.out| == (if w.current.Some? then 1 else 0) && |w.queue| <= 16
  {
    hide Exec;
    Reachable(evs);
    assert WorkerOk(Exec(evs), Exec(evs).workers[worker]);
  }

  // ---- nobody is forgotten ----

  /** A waiting caller is in its worker's queue or at the head of it, and the worker's driver has not finished. */
  predicate Awaited(p: Pool, call: CallId, worker: WorkerId) {
    worker in p.workers && !p.workers[worker].phase.Gone?
    && (call in p.workers[worker].queue || p.workers[worker].current == Some(call))
  }

  predicate Remembers(p: Pool) {
    forall call :: call in p.calls && p.calls[call].stage.Waiting? ==> Awaited(p, call, p.calls[call].stage.on)
  }

  lemma CallersStayRemembered(p: Pool, ev: Event)
    requires Remembers(p)
    requires !ev.Spawn? && !ev.Send? && !ev.Take? && !ev.TakeFails? && !ev.Read? && !ev.ReadFails? && !ev.Wind?
    ensures Remembers(Step(p, ev))
  {
    hide Reaped, Reusable, Alive, Abandoned;
    var q := Step(p, ev);
    forall call | call in q.calls && q.calls[call].stage.Waiting? ensures Awaited(q, call, q.calls[call].stage.on) {
      assert call in p.calls && p.calls[call].stage == q.calls[call].stage;
    }
  }

  lemma AdmissionStaysRemembered(p: Pool, ev: Event)
    requires Remembers(p) && (ev.Spawn? || ev.Send? || ev.Take?)
    ensures Remembers(Step(p, ev))
  {
    var q := Step(p, ev);
    forall call | call in q.calls && q.calls[call].stage.Waiting? ensures Awaited(q, call, q.calls[call].stage.on) {
      assert p.calls[call].stage == q.calls[call].stage ==> Awaited(p, call, p.calls[call].stage.on);
    }
  }

  lemma ServiceStaysRemembered(p: Pool, ev: Event)
    requires Remembers(p) && (ev.TakeFails? || ev.Read? || ev.ReadFails? || ev.Wind?)
    ensures Remembers(Step(p, ev))
  {
    var q := Step(p, ev);
    forall call | call in q.calls && q.calls[call].stage.Waiting? ensures Awaited(q, call, q.calls[call].stage.on) {
      assert Awaited(p, call, p.calls[call].stage.on);
    }
  }

  lemma {:induction false} RunsRemember(evs: seq<Event>)
    ensures Remembers(Exec(evs))
  {
    hide Step, Remembers;
    if evs == [] {
      NobodyWaitsAtFirst();
    } else {
      var ev := evs[|evs| - 1];
      RunsRemember(evs[..|evs| - 1]);
      if ev.Spawn? || ev.Send? || ev.Take? {
        AdmissionStaysRemembered(Exec(evs[..|evs| - 1]), ev);
      } else if ev.TakeFails? || ev.Read? || ev.ReadFails? || ev.Wind? {
        ServiceStaysRemembered(Exec(evs[..|evs| - 1]), ev);
      } else {
        CallersStayRemembered(Exec(evs[..|evs| - 1]), ev);
      }
    }
  }

  lemma NobodyWaitsAtFirst()
    ensures Remembers(Exec([]))
  {
  }

  /**
   * In every reachable state a waiting caller is queued or being served at a worker whose driver has not finished; and
   * when that driver finishes, everyone still waiting for it fails at that moment.
   */
  lemma WaitersAreNeverForgotten(evs: seq<Event>, call: CallId, worker: WorkerId)
    requires At(Exec(evs), call, Waiting(worker))
    ensures var p := Exec(evs);
            && worker in p.workers && !p.workers[worker].phase.Gone?
            && (call in p.workers[worker].queue || p.workers[worker].current == Some(call))
            && (p.workers[worker].phase.Dying? ==> At(Step(p, Wind(worker)), call, Done(Failure)))
  {
    hide Exec;
    RunsRemember(evs);
    assert Awaited(Exec(evs), call, worker);
  }

  /**
   * A driver leaves its loop exactly when writing a request or reading a reply fails, or when it is idle and nothing
   * can reach it: no slot names it, nobody is about to send to it or waits for it.
   */
  lemma ServingEndsExactly(p: Pool, ev: Event, worker: WorkerId)
    requires worker in p.workers && p.workers[worker].phase.Serving?
    ensures worker in Step(p, ev).workers
    ensures var w := p.workers[worker];
            !Step(p, ev).workers[worker].phase.Serving? <==>
              || (ev == TakeFails(worker) && w.current.None? && w.queue != [])
              || (ev == ReadFails(worker) && w.current.Some?)
              || (ev == Retire(worker) && w.current.None? && w.queue == []
                  && (forall key :: key in p.slots ==> p.slots[key].worker != worker)
                  && forall call :: call in p.calls ==>
                       p.calls[call].stage != Sending(worker) && p.calls[call].stage != Waiting(worker))
  {
    hide Reaped, Reusable, Alive;
  }

  /** A failed exchange fails the caller whose turn it was, and nobody else. */
  lemma FailureIsTold(p: Pool, worker: WorkerId, ev: Event, call: CallId)
    requires (ev == TakeFails(worker) && Free(p, worker) && p.workers[worker].queue != []
              && call == p.workers[worker].queue[0])
          || (ev == ReadFails(worker) && Busy(p, worker) && p.workers[worker].current == Some(call))
    ensures Step(p, ev).calls.Keys == p.calls.Keys
    ensures forall c :: c in p.calls ==>
      Step(p, ev).calls[c].stage ==
        if c == call && p.calls[c].stage == Waiting(worker) then Done(Failure) else p.calls[c].stage
  {
  }

  /** Only a spawn, a reuse or a send makes a worker reachable again, and none of them finds an abandoned one. */
  lemma CallersKeepAbandoned(p: Pool, ev: Event, worker: WorkerId)
    requires worker in p.workers && Abandoned(p, worker) && (ev.TryReuse? || ev.Spawn? || ev.Send?)
    ensures worker in Step(p, ev).workers && Abandoned(Step(p, ev), worker)
  {
    hide Alive, Expired, AfterTake, AfterRead, AfterWind, AfterAnswer, Reply, Reaped;
  }

  lemma DriversKeepAbandoned(p: Pool, ev: Event, worker: WorkerId)
    requires worker in p.workers && Abandoned(p, worker) && !ev.TryReuse? && !ev.Spawn? && !ev.Send?
    ensures worker in Step(p, ev).workers && Abandoned(Step(p, ev), worker)
  {
    hide Alive, Expired, AfterTryReuse, AfterSpawn, AfterSend, AfterAnswer;
  }

  lemma StepKeepsAbandoned(p: Pool, ev: Event, worker: WorkerId)
    requires worker in p.workers && Abandoned(p, worker)
    ensures worker in Step(p, ev).workers && Abandoned(Step(p, ev), worker)
  {
    hide Step, Abandoned;
    if ev.TryReuse? || ev.Spawn? || ev.Send? {
      CallersKeepAbandoned(p, ev, worker);
    } else {
      DriversKeepAbandoned(p, ev, worker);
    }
  }

  /** A driver that retired because nothing could reach it is never reached again, so retiring fails nobody. */
  lemma {:induction false} RetirementFailsNobody(p: Pool, worker: WorkerId, more: seq<Event>)
    requires worker in p.workers && p.workers[worker].phase.Serving?
    requires !Step(p, Retire(worker)).workers[worker].phase.Serving?
    ensures var q := Play(Step(p, Retire(worker)), more);
            && worker in q.workers
            && (forall key :: key in q.slots ==> q.slots[key].worker != worker)
            && (forall call :: call in q.calls ==>
                  q.calls[call].stage != Sending(worker) && q.calls[call].stage != Waiting(worker))
  {
    if more == [] {
      StepKeepsAbandoned(p, Retire(worker), worker);
    } else {
      hide Step;
      var n := |more| - 1;
      RetirementFailsNobody(p, worker, more[..n]);
      StepKeepsAbandoned(Play(Step(p, Retire(worker)), more[..n]), more[n], worker);
    }
  }

  // ---- what the steps do ----

  /** A reap leaves exactly the slots of workers that are still up and were used recently enough, as they are. */
  lemma ReapKeeps(p: Pool, now: int, key: string)
    ensures key in Step(p, Reap(now)).slots <==>
      && key in p.slots
      && p.slots[key].worker in p.workers
      && (p.workers[p.slots[key].worker].phase.Serving? || p.workers[p.slots[key].worker].phase.Leaving?)
      && now - p.slots[key].lastUsed <= p.slots[key].idleMs
    ensures key in Step(p, Reap(now)).slots ==> Step(p, Reap(now)).slots[key] == p.slots[key]
  {
  }

  /** A caller reuses the slot's worker if it is up and runs the same command; else it clears the slot and spawns. */
  lemma ReuseChooses(p: Pool, call: CallId, now: int)
    requires At(p, call, Ensuring)
    ensures var t, c := Step(p, TryReuse(call, now)), p.calls[call];
            var up := c.key in p.slots && p.slots[c.key].command == c.command && p.slots[c.key].worker in p.workers
                      && (p.workers[p.slots[c.key].worker].phase.Serving?
                          || p.workers[p.slots[c.key].worker].phase.Leaving?);
            && (up ==> At(t, call, Sending(p.slots[c.key].worker))
                       && t.slots == p.slots[c.key := p.slots[c.key].(lastUsed := now)])
            && (!up ==> At(t, call, Spawning) && t.slots == p.slots - {c.key})
  {
  }

  /** Once its slot is dropped, the next caller of a key spawns a new worker, whatever the old one is doing. */
  lemma DroppedSlotIsNotReused(p: Pool, key: string, call: CallId, now: int)
    requires At(p, call, Ensuring) && p.calls[call].key == key
    ensures At(Step(Step(p, DropSlot(key)), TryReuse(call, now)), call, Spawning)
    ensures forall other :: other in p.slots && other != key ==>
      other in Step(p, DropSlot(key)).slots && Step(p, DropSlot(key)).slots[other] == p.slots[other]
  {
  }

  /** A slot touched at `at` outlives every reap up to its idle window later, as long as its driver is up. */
  lemma TouchedSlotSurvives(p: Pool, key: string, at: int, now: int)
    requires key in p.slots && p.slots[key].worker in p.workers && p.workers[p.slots[key].worker].phase.Serving?
    ensures key in Step(Step(p, Touch(key, at)), Reap(now)).slots <==> now - at <= p.slots[key].idleMs
  {
    ReapKeeps(Step(p, Touch(key, at)), now, key);
  }

  lemma FailedSpawnFailsCaller(p: Pool, call: CallId)
    requires At(p, call, Spawning)
    ensures Step(p, SpawnFails(call)) == p.(calls := p.calls[call := p.calls[call].(stage := Done(Failure))])
  {
  }

  /** A worker that waits for nothing, with nothing queued. */
  ghost predicate Idle(p: Pool, worker: WorkerId) {
    worker in p.workers && p.workers[worker].phase.Serving? && p.workers[worker].current.None?
    && p.workers[worker].queue == [] && p.workers[worker].asked == [] && p.workers[worker].out == []
  }

  function Exchange(call: CallId, worker: WorkerId, text: string): seq<Event> {
    [Send(call), Take(worker), ChildAnswers(worker, 0, text), Read(worker)]
  }

  lemma {:induction false} PlayConcat(p: Pool, a: seq<Event>, b: seq<Event>)
    ensures Play(p, a + b) == Play(Play(p, a), b)
  {
    hide Step;
    if b == [] {
      assert a + b == a;
    } else {
      PlayConcat(p, a, b[..|b| - 1]);
      assert (a + b)[..|a + b| - 1] == a + b[..|b| - 1];
    }
  }

  lemma PlayFirst(p: Pool, ev: Event, rest: seq<Event>)
    ensures Play(p, [ev] + rest) == Play(Step(p, ev), rest)
  {
    hide Step;
    PlayConcat(p, [ev], rest);
    assert [ev][..0] == [];
  }

  lemma SendAndTake(p: Pool, call: CallId, worker: WorkerId)
    requires call in p.calls && At(p, call, Sending(worker)) && Idle(p, worker)
    ensures var t := Step(Step(p, Send(call)), Take(worker));
            && At(t, call, Waiting(worker)) && worker in t.workers && t.workers[worker].phase.Serving?
            && t.workers[worker].current == Some(call) && t.workers[worker].out == []
            && t.workers[worker].asked == [Request(call, p.calls[call].payload)]
  {
    assert [] + [call] == [call] && [call][1..] == [];
    assert [] + [Request(call, p.calls[call].payload)] == [Request(call, p.calls[call].payload)];
  }

  lemma AnswerAndRead(p: Pool, call: CallId, worker: WorkerId, request: Request, text: string)
    requires At(p, call, Waiting(worker)) && worker in p.workers && p.workers[worker].phase.Serving?
    requires p.workers[worker].current == Some(call)
    requires p.workers[worker].out == [] && p.workers[worker].asked == [request]
    ensures At(Step(Step(p, ChildAnswers(worker, 0, text)), Read(worker)), call, Done(Success(Answer(request, text))))
  {
    assert [] + [Answer(request, text)] == [Answer(request, text)];
  }

  lemma ExchangeSucceeds(p: Pool, call: CallId, worker: WorkerId, text: string)
    requires call in p.calls && At(p, call, Sending(worker)) && Idle(p, worker)
    ensures var answer := Answer(Request(call, p.calls[call].payload), text);
            At(Play(p, Exchange(call, worker, text)), call, Done(Success(answer)))
  {
    hide Step;
    SendAndTake(p, call, worker);
    var t := Step(Step(p, Send(call)), Take(worker));
    AnswerAndRead(t, call, worker, Request(call, p.calls[call].payload), text);
    var a, b, c, d := Send(call), Take(worker), ChildAnswers(worker, 0, text), Read(worker);
    assert Exchange(call, worker, text) == [a] + ([b] + ([c] + ([d] + [])));
    PlayFirst(p, a, [b] + ([c] + ([d] + [])));
    PlayFirst(Step(p, a), b, [c] + ([d] + []));
    PlayFirst(t, c, [d] + []);
    PlayFirst(Step(t, c), d, []);
  }

  /** From any reachable state, a call without a warm worker gets a new one and its answer, if nothing interferes. */
  lemma ColdCallSucceeds(evs: seq<Event>, call: CallId, key: string, command: string, payload: string,
                         worker: WorkerId, idleMs: nat, now: int, text: string)
    requires call !in Exec(evs).calls && worker !in Exec(evs).workers && key !in Exec(evs).slots
    ensures var start := [Invoke(call, key, command, payload), TryReuse(call, now), Spawn(call, worker, idleMs, now)];
            At(Play(Exec(evs), start + Exchange(call, worker, text)), call,
               Done(Success(Answer(Request(call, payload), text))))
  {
    hide Exec, Step;
    var p := Exec(evs);
    var a, b, c := Invoke(call, key, command, payload), TryReuse(call, now), Spawn(call, worker, idleMs, now);
    SpawnSteps(p, call, key, command, payload, worker, idleMs, now);
    PlayConcat(p, [a, b, c], Exchange(call, worker, text));
    assert [a, b, c] == [a] + ([b] + ([c] + []));
    PlayFirst(p, a, [b] + ([c] + []));
    PlayFirst(Step(p, a), b, [c] + []);
    PlayFirst(Step(Step(p, a), b), c, []);
    ExchangeSucceeds(Step(Step(Step(p, a), b), c), call, worker, text);
  }

  lemma SpawnSteps(p: Pool, call: CallId, key: string, command: string, payload: string,
                   worker: WorkerId, idleMs: nat, now: int)
    requires call !in p.calls && worker !in p.workers && key !in p.slots
    ensures var t := Step(Step(Step(p, Invoke(call, key, command, payload)), TryReuse(call, now)),
                          Spawn(call, worker, idleMs, now));
            && call in t.calls && t.calls[call].payload == payload && At(t, call, Sending(worker)) && Idle(t, worker)
            && key in t.slots && t.slots[key] == Slot(command, worker, idleMs, now)
  {
  }

  /** A call with a warm worker that is free reuses it and gets its answer, if nothing interferes. */
  lemma WarmCallSucceeds(evs: seq<Event>, call: CallId, key: string, payload: string, now: int, text: string)
    requires call !in Exec(evs).calls && key in Exec(evs).slots
    requires var p := Exec(evs); var worker := p.slots[key].worker;
             worker in p.workers && p.workers[worker].phase.Serving?
             && p.workers[worker].current.None? && p.workers[worker].queue == []
    ensures var slot := Exec(evs).slots[key];
            var start := [Invoke(call, key, slot.command, payload), TryReuse(call, now)];
            At(Play(Exec(evs), start + Exchange(call, slot.worker, text)), call,
               Done(Success(Answer(Request(call, payload), text))))
  {
    hide Exec, Step;
    var p := Exec(evs);
    var slot := p.slots[key];
    Reachable(evs);
    assert WorkerOk(p, p.workers[slot.worker]);
    var a, b := Invoke(call, key, slot.command, payload), TryReuse(call, now);
    ReuseSteps(p, call, key, payload, now);
    PlayConcat(p, [a, b], Exchange(call, slot.worker, text));
    assert [a, b] == [a] + ([b] + []);
    PlayFirst(p, a, [b] + []);
    PlayFirst(Step(p, a), b, []);
    ExchangeSucceeds(Step(Step(p, a), b), call, slot.worker, text);
  }

  lemma ReuseSteps(p: Pool, call: CallId, key: string, payload: string, now: int)
    requires call !in p.calls && key in p.slots && Idle(p, p.slots[key].worker)
    ensures var slot := p.slots[key];
            var t := Step(Step(p, Invoke(call, key, slot.command, payload)), TryReuse(call, now));
            call in t.calls && t.calls[call].payload == payload && At(t, call, Sending(slot.worker))
            && Idle(t, slot.worker)
  {
  }

  /** A channel takes an invocation as long as fewer than 16 are queued and its driver has not gone. */
  lemma SendIsAccepted(p: Pool, call: CallId, worker: WorkerId)
    requires At(p, call, Sending(worker)) && worker in p.workers
    ensures var t := Step(p, Send(call));
            && (At(t, call, Waiting(worker)) <==> !p.workers[worker].phase.Gone? && |p.workers[worker].queue| < 16)
            && (At(t, call, Done(Failure)) <==> p.workers[worker].phase.Gone?)
  {
  }

  /** A caller that gives up is done with a failure; its request stays where it is. */
  lemma TimeoutGivesUp(p: Pool, call: CallId, worker: WorkerId)
    requires At(p, call, Waiting(worker))
    ensures At(Step(p, Timeout(call)), call, Done(Failure)) && Step(p, Timeout(call)).workers == p.workers
  {
  }
}
