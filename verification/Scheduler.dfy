/** The in-flight counter of the scheduler: one loop claims and spawns, tasks end at any moment in between. */
module Scheduler {
  import opened Wrappers
  import opened Arith

  /** A claimed view; every claim issues new ones. */
  type View = nat

  /**
   * The loop has read `free` slots, or holds `queue` views it claimed but has not spawned; `counted` is set
   * between counting the next task in and spawning it. `ended` tasks are done but not yet counted out.
   */
  datatype State = State(
    inflight: int,
    free: Option<nat>,
    queue: seq<View>,
    counted: bool,
    tasks: set<View>,
    ended: set<View>,
    gone: set<View>)

  datatype Event =
    | ReadFree
    | Claim(batch: nat, views: seq<View>)
    | CountIn
    | Spawn
    | End(view: View)
    | CountOut(view: View)

  predicate Distinct(views: seq<View>) {
    forall i, j :: 0 <= i < j < |views| ==> views[i] != views[j]
  }

  function Claimed(s: State): set<View> {
    (set v | v in s.queue) + s.tasks + s.ended + s.gone
  }

  function Init(): State {
    State(0, None, [], false, {}, {}, {})
  }

  function Step(maxInflight: nat, s: State, ev: Event): State {
    match ev
    case ReadFree =>
      if s.queue != [] then s
      else if s.inflight >= maxInflight then s.(free := None)
      else s.(free := Some(maxInflight - s.inflight))
    case Claim(batch, views) =>
      if s.free.None? || s.queue != [] || |views| > Min(s.free.value, batch) || !Distinct(views)
         || (exists v :: v in views && v in Claimed(s)) then s
      else s.(free := None, queue := views)
    case CountIn => if s.queue == [] || s.counted then s else s.(inflight := s.inflight + 1, counted := true)
    case Spawn =>
      if !s.counted || s.queue == [] then s
      else s.(queue := s.queue[1..], counted := false, tasks := s.tasks + {s.queue[0]})
    case End(view) => if view in s.tasks then s.(tasks := s.tasks - {view}, ended := s.ended + {view}) else s
    case CountOut(view) =>
      if view in s.ended then s.(inflight := s.inflight - 1, ended := s.ended - {view}, gone := s.gone + {view}) else s
  }

  function Exec(maxInflight: nat, evs: seq<Event>): State {
    if evs == [] then Init() else Step(maxInflight, Exec(maxInflight, evs[..|evs| - 1]), evs[|evs| - 1])
  }

  function One(b: bool): nat { if b then 1 else 0 }

  /** Every view is in one place, the counter counts, and what is still to come fits under the limit. */
  ghost predicate Inv(maxInflight: nat, s: State) {
    && Distinct(s.queue)
    && (forall v :: v in s.queue ==> v !in s.tasks && v !in s.ended && v !in s.gone)
    && s.tasks !! s.ended && s.tasks !! s.gone && s.ended !! s.gone
    && (s.counted ==> s.queue != [])
    && s.inflight == |s.tasks| + |s.ended| + One(s.counted)
    && s.inflight + |s.queue| - One(s.counted) <= maxInflight
    && (s.free.Some? ==> s.queue == [] && s.inflight + s.free.value <= maxInflight)
  }

  lemma ClaimKeepsInv(maxInflight: nat, s: State, batch: nat, views: seq<View>)
    requires Inv(maxInflight, s)
    ensures Inv(maxInflight, Step(maxInflight, s, Claim(batch, views)))
    ensures Claimed(s) <= Claimed(Step(maxInflight, s, Claim(batch, views)))
  {
    if Step(maxInflight, s, Claim(batch, views)) != s {
      forall v | v in views ensures v !in s.tasks && v !in s.ended && v !in s.gone { assert v !in Claimed(s); }
    }
  }

  lemma SpawnKeepsInv(maxInflight: nat, s: State)
    requires Inv(maxInflight, s)
    ensures Inv(maxInflight, Step(maxInflight, s, Spawn))
    ensures Claimed(s) <= Claimed(Step(maxInflight, s, Spawn))
  {
    if s.counted {
      var head, tail := s.queue[0], s.queue[1..];
      assert head in s.queue && head !in tail;
      assert s.queue == [head] + tail;
      assert forall v :: v in tail ==> v in s.queue;
    }
  }

  lemma EndKeepsInv(maxInflight: nat, s: State, v: View)
    requires Inv(maxInflight, s)
    ensures Inv(maxInflight, Step(maxInflight, s, End(v)))
    ensures Claimed(s) <= Claimed(Step(maxInflight, s, End(v)))
  {
    if v in s.tasks {
      assert |s.tasks - {v}| == |s.tasks| - 1 && |s.ended + {v}| == |s.ended| + 1;
    }
  }

  lemma CountOutKeepsInv(maxInflight: nat, s: State, v: View)
    requires Inv(maxInflight, s)
    ensures Inv(maxInflight, Step(maxInflight, s, CountOut(v)))
    ensures Claimed(s) <= Claimed(Step(maxInflight, s, CountOut(v)))
  {
    if v in s.ended {
      assert |s.ended - {v}| == |s.ended| - 1;
    }
  }

  lemma StepKeepsInv(maxInflight: nat, s: State, ev: Event)
    requires Inv(maxInflight, s)
    ensures Inv(maxInflight, Step(maxInflight, s, ev))
    ensures Claimed(s) <= Claimed(Step(maxInflight, s, ev))
  {
    match ev
    case ReadFree =>
    case Claim(batch, views) => ClaimKeepsInv(maxInflight, s, batch, views);
    case CountIn =>
    case Spawn => SpawnKeepsInv(maxInflight, s);
    case End(v) => EndKeepsInv(maxInflight, s, v);
    case CountOut(v) => CountOutKeepsInv(maxInflight, s, v);
  }

  /** At every moment live tasks are at most the counter, and the counter at most the limit; no view has two tasks. */
  lemma {:induction false} InflightIsBounded(maxInflight: nat, evs: seq<Event>)
    ensures Inv(maxInflight, Exec(maxInflight, evs))
    ensures var s := Exec(maxInflight, evs); |s.tasks| <= s.inflight <= maxInflight
  {
    if evs != [] {
      InflightIsBounded(maxInflight, evs[..|evs| - 1]);
      StepKeepsInv(maxInflight, Exec(maxInflight, evs[..|evs| - 1]), evs[|evs| - 1]);
    }
  }

  /** Where one step may take a view: never back, and into a task only as the head of the queue. */
  ghost predicate Forward(s: State, t: State, spawned: bool, v: View) {
    && (v in s.tasks ==> v in t.tasks || v in t.ended)
    && (v in s.ended ==> v in t.ended || v in t.gone)
    && (v in s.gone ==> v in t.gone)
    && (v in t.queue ==> v in s.queue)
    && (v in t.tasks ==> v in s.tasks || (spawned && s.queue != [] && v == s.queue[0]))
  }

  lemma ClaimedViewStaysInPlace(maxInflight: nat, s: State, batch: nat, views: seq<View>, v: View)
    requires v in Claimed(s)
    ensures Forward(s, Step(maxInflight, s, Claim(batch, views)), false, v)
  {
    var t := Step(maxInflight, s, Claim(batch, views));
    if t != s {
      assert t.queue == views && v !in views;
    }
  }

  lemma StepGoesForward(maxInflight: nat, s: State, ev: Event, v: View)
    requires v in Claimed(s)
    ensures Forward(s, Step(maxInflight, s, ev), ev.Spawn?, v)
  {
    match ev
    case ReadFree =>
    case Claim(batch, views) => ClaimedViewStaysInPlace(maxInflight, s, batch, views, v);
    case CountIn =>
    case Spawn =>
    case End(_) =>
    case CountOut(_) =>
  }

  /** A claimed view is spawned exactly once: it only moves forward, from the queue to a task to its end. */
  lemma ViewsMoveForward(maxInflight: nat, evs: seq<Event>, ev: Event, v: View)
    requires v in Claimed(Exec(maxInflight, evs))
    ensures var s := Exec(maxInflight, evs);
            var t := Step(maxInflight, s, ev);
            v in Claimed(t) && Forward(s, t, ev.Spawn?, v)
  {
    hide *;
    InflightIsBounded(maxInflight, evs);
    StepKeepsInv(maxInflight, Exec(maxInflight, evs), ev);
    StepGoesForward(maxInflight, Exec(maxInflight, evs), ev, v);
  }

  /** How often a view was made a task. */
  function Spawns(maxInflight: nat, evs: seq<Event>, v: View): nat {
    if evs == [] then 0
    else
      var before, ev := Exec(maxInflight, evs[..|evs| - 1]), evs[|evs| - 1];
      Spawns(maxInflight, evs[..|evs| - 1], v)
      + One(ev.Spawn? && before.counted && before.queue != [] && before.queue[0] == v)
  }

  /** Spawned views, whatever became of their tasks. */
  predicate Spawned(s: State, v: View) {
    v in s.tasks || v in s.ended || v in s.gone
  }

  lemma StepSpawns(maxInflight: nat, s: State, ev: Event, v: View)
    requires Inv(maxInflight, s)
    ensures One(Spawned(Step(maxInflight, s, ev), v))
         == One(Spawned(s, v)) + One(ev.Spawn? && s.counted && s.queue != [] && s.queue[0] == v)
  {
    match ev
    case ReadFree =>
    case Claim(_, _) =>
    case CountIn =>
    case Spawn =>
    case End(_) =>
    case CountOut(_) =>
  }

  /**
   * Over a whole history every view is spawned at most once, and exactly once unless it still waits or was never
   * claimed.
   */
  lemma {:induction false} EachViewIsSpawnedOnce(maxInflight: nat, evs: seq<Event>, v: View)
    ensures Spawns(maxInflight, evs, v) <= 1
    ensures var s := Exec(maxInflight, evs);
            Spawns(maxInflight, evs, v) == 1 <==> v in Claimed(s) && v !in s.queue
  {
    hide Step;
    InflightIsBounded(maxInflight, evs);
    if evs != [] {
      EachViewIsSpawnedOnce(maxInflight, evs[..|evs| - 1], v);
      InflightIsBounded(maxInflight, evs[..|evs| - 1]);
      StepSpawns(maxInflight, Exec(maxInflight, evs[..|evs| - 1]), evs[|evs| - 1], v);
    }
  }

  /** From any state with nothing queued and a slot free, a claimed view runs as a task and gives its slot back. */
  lemma FreeSlotRunsView(maxInflight: nat, evs: seq<Event>, batch: nat, v: View)
    requires var s := Exec(maxInflight, evs); s.queue == [] && s.inflight < maxInflight && v !in Claimed(s)
    requires batch > 0
    ensures var s := Exec(maxInflight, evs);
            var running := Step(maxInflight, Step(maxInflight, Step(maxInflight, Step(maxInflight, s, ReadFree),
                                Claim(batch, [v])), CountIn), Spawn);
            var ended := Step(maxInflight, Step(maxInflight, running, End(v)), CountOut(v));
            && running.tasks == s.tasks + {v} && running.inflight == s.inflight + 1
            && ended.tasks == s.tasks && ended.inflight == s.inflight
  {
    hide Exec;
    InflightIsBounded(maxInflight, evs);
    var s := Exec(maxInflight, evs);
    assert v !in s.tasks;
    FreeSlotSteps(maxInflight, s, batch, v);
  }

  lemma FreeSlotSteps(maxInflight: nat, s: State, batch: nat, v: View)
    requires s.queue == [] && s.inflight < maxInflight && v !in Claimed(s) && batch > 0 && !s.counted
    ensures var running := Step(maxInflight, Step(maxInflight, Step(maxInflight, Step(maxInflight, s, ReadFree),
                                Claim(batch, [v])), CountIn), Spawn);
            var ended := Step(maxInflight, Step(maxInflight, running, End(v)), CountOut(v));
            && running.tasks == s.tasks + {v} && running.inflight == s.inflight + 1
            && ended.tasks == s.tasks && ended.inflight == s.inflight
  {
    var s1 := Step(maxInflight, s, ReadFree);
    var s2 := Step(maxInflight, s1, Claim(batch, [v]));
    assert s2.queue == [v];
    var s4 := Step(maxInflight, Step(maxInflight, s2, CountIn), Spawn);
    assert s4.tasks == s.tasks + {v};
    assert (s.tasks + {v}) - {v} == s.tasks by { assert v !in s.tasks; }
  }
}
