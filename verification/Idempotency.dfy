/**
 * Starting a run under an idempotency key, on several replicas with a store each: look up, claim at the
 * authority, look again, insert. Each is a separate critical section; claims expire and runs are evicted at any time.
 */
module Idempotency {
  type RunId = nat
  type ReplicaId = nat
  type StarterId = nat

  /** A configured coordinator grants a key to one holder at a time; without one, every claim is granted. */
  datatype Authority = Coordinator | NoCoordinator

  datatype Outcome = Started(run: RunId) | Existing(run: RunId) | AlreadyClaimed | Failed

  datatype Stage = Looking | Claiming | Checking | Inserting | Finished(outcome: Outcome)

  datatype Starter = Starter(replica: ReplicaId, key: string, stage: Stage)

  datatype Place = Place(replica: ReplicaId, key: string)

  /** `live` is what the stores hold now; `placed` remembers every run ever inserted. */
  datatype System = System(
    live: set<RunId>,
    placed: map<RunId, Place>,
    claims: map<string, StarterId>,
    starters: map<StarterId, Starter>)

  /** `hit` is the run that a lookup happens to find, if any matches. */
  datatype Event =
    | Begin(starter: StarterId, replica: ReplicaId, key: string)
    | Lookup(starter: StarterId, hit: RunId)
    | Claim(starter: StarterId)
    | Unavailable(starter: StarterId)
    | BadDefinition(starter: StarterId)
    | Recheck(starter: StarterId, hit: RunId)
    | Insert(starter: StarterId, id: RunId)
    | Expire(key: string)
    | Evict(id: RunId)

  function Init(): System {
    System({}, map[], map[], map[])
  }

  predicate At(s: System, starter: StarterId, stage: Stage) {
    starter in s.starters && s.starters[starter].stage == stage
  }

  function Move(s: System, starter: StarterId, stage: Stage): System
    requires starter in s.starters
  {
    s.(starters := s.starters[starter := s.starters[starter].(stage := stage)])
  }

  predicate Matches(s: System, id: RunId, replica: ReplicaId, key: string) {
    id in s.live && id in s.placed && s.placed[id] == Place(replica, key)
  }

  predicate NoMatch(s: System, replica: ReplicaId, key: string) {
    forall id <- s.live :: !Matches(s, id, replica, key)
  }

  function Look(s: System, starter: StarterId, hit: RunId, next: Stage): System
    requires starter in s.starters
  {
    var p := s.starters[starter];
    if Matches(s, hit, p.replica, p.key) then Move(s, starter, Finished(Existing(hit)))
    else if NoMatch(s, p.replica, p.key) then Move(s, starter, next)
    else s
  }

  /** The holder of a claim is still creating: between winning the claim and finishing. */
  predicate Creating(s: System, key: string) {
    key in s.claims && (At(s, s.claims[key], Checking) || At(s, s.claims[key], Inserting))
  }

  predicate Grants(authority: Authority, s: System, key: string) {
    authority.NoCoordinator? || key !in s.claims
  }

  function Step(authority: Authority, s: System, ev: Event): System {
    match ev
    case Begin(starter, replica, key) =>
      if starter in s.starters then s
      else s.(starters := s.starters[starter := Starter(replica, key, if key == "" then Inserting else Looking)])
    case Lookup(starter, hit) => if At(s, starter, Looking) then Look(s, starter, hit, Claiming) else s
    case Claim(starter) =>
      if !At(s, starter, Claiming) then s
      else if !Grants(authority, s, s.starters[starter].key) then Move(s, starter, Finished(AlreadyClaimed))
      else Move(s, starter, Checking).(claims := s.claims[s.starters[starter].key := starter])
    case Unavailable(starter) => if At(s, starter, Claiming) then Move(s, starter, Finished(Failed)) else s
    case BadDefinition(starter) =>
      if At(s, starter, Checking) || At(s, starter, Inserting) then Move(s, starter, Finished(Failed)) else s
    case Recheck(starter, hit) => if At(s, starter, Checking) then Look(s, starter, hit, Inserting) else s
    case Insert(starter, id) =>
      if !At(s, starter, Inserting) || id in s.placed then s
      else
        var p := s.starters[starter];
        Move(s, starter, Finished(Started(id)))
          .(live := s.live + {id}, placed := s.placed[id := Place(p.replica, p.key)])
    case Expire(key) => s.(claims := s.claims - {key})
    case Evict(id) => s.(live := s.live - {id})
  }

  function Play(authority: Authority, s: System, evs: seq<Event>): System {
    if evs == [] then s else Step(authority, Play(authority, s, evs[..|evs| - 1]), evs[|evs| - 1])
  }

  function Exec(authority: Authority, evs: seq<Event>): System {
    Play(authority, Init(), evs)
  }

  // ---- what holds under any authority ----

  predicate StarterOk(s: System, p: Starter) {
    match p.stage
    case Finished(Started(run)) => run in s.placed && s.placed[run] == Place(p.replica, p.key)
    case Finished(Existing(run)) => run in s.placed && s.placed[run] == Place(p.replica, p.key)
    case Finished(_) => true
    case Inserting => true
    case _ => p.key != ""
  }

  ghost predicate Inv(s: System) {
    && (forall p <- s.starters :: StarterOk(s, s.starters[p]))
    && s.live <= s.placed.Keys
    && forall key <- s.claims :: s.claims[key] in s.starters && s.starters[s.claims[key]].key == key
  }

  lemma LookKeepsInv(s: System, starter: StarterId, hit: RunId, next: Stage)
    requires Inv(s) && starter in s.starters
    requires (At(s, starter, Looking) && next == Claiming) || (At(s, starter, Checking) && next == Inserting)
    ensures Inv(Look(s, starter, hit, next))
  {
    var t := Look(s, starter, hit, next);
    forall p | p in t.starters ensures StarterOk(t, t.starters[p]) { assert StarterOk(s, s.starters[p]); }
  }

  lemma StepKeepsInv(authority: Authority, s: System, ev: Event)
    requires Inv(s)
    ensures Inv(Step(authority, s, ev))
  {
    match ev
    case Lookup(starter, hit) => if At(s, starter, Looking) { LookKeepsInv(s, starter, hit, Claiming); }
    case Recheck(starter, hit) => if At(s, starter, Checking) { LookKeepsInv(s, starter, hit, Inserting); }
    case _ => OthersKeepInv(authority, s, ev);
  }

  lemma OthersKeepInv(authority: Authority, s: System, ev: Event)
    requires Inv(s) && !ev.Lookup? && !ev.Recheck?
    ensures Inv(Step(authority, s, ev))
  {
    hide Look;
    var t := Step(authority, s, ev);
    forall p | p in t.starters ensures StarterOk(t, t.starters[p]) {
      if p in s.starters { assert StarterOk(s, s.starters[p]); }
    }
  }

  lemma {:induction false} Reachable(authority: Authority, evs: seq<Event>)
    ensures Inv(Exec(authority, evs))
  {
    if evs != [] {
      Reachable(authority, evs[..|evs| - 1]);
      StepKeepsInv(authority, Exec(authority, evs[..|evs| - 1]), evs[|evs| - 1]);
    }
  }

  predicate Succeeded(s: System, starter: StarterId) {
    starter in s.starters && s.starters[starter].stage.Finished?
    && (s.starters[starter].stage.outcome.Started? || s.starters[starter].stage.outcome.Existing?)
  }

  /** At the moment a start succeeds, the run it returns is live under its own key on its own replica. */
  lemma SuccessReturnsLiveRun(authority: Authority, evs: seq<Event>, ev: Event, p: StarterId)
    requires p in Exec(authority, evs).starters && !Succeeded(Exec(authority, evs), p)
    requires Succeeded(Step(authority, Exec(authority, evs), ev), p)
    ensures var t := Step(authority, Exec(authority, evs), ev);
            Matches(t, t.starters[p].stage.outcome.run, t.starters[p].replica, t.starters[p].key)
  {
    hide Exec;
  }

  // ---- a coordinator whose claims outlive the creations they protect ----

  /** In this history the claim of `key` never expires while its holder is creating. */
  predicate ClaimOutlivesCreation(evs: seq<Event>, key: string) {
    evs == []
    || (ClaimOutlivesCreation(evs[..|evs| - 1], key)
        && (evs[|evs| - 1] == Expire(key) ==> !Creating(Exec(Coordinator, evs[..|evs| - 1]), key)))
  }

  /** Whoever is creating under `key` holds its claim, and who is about to insert found nothing. */
  predicate HoldsClaim(s: System, id: StarterId, p: Starter) {
    match p.stage
    case Checking => p.key in s.claims && s.claims[p.key] == id
    case Inserting => p.key in s.claims && s.claims[p.key] == id && NoMatch(s, p.replica, p.key)
    case _ => true
  }

  ghost predicate KeyInv(s: System, key: string) {
    && (forall p <- s.starters :: s.starters[p].key == key ==> HoldsClaim(s, p, s.starters[p]))
    && forall i, j | i in s.live && j in s.live && i in s.placed && j in s.placed ::
         s.placed[i] == s.placed[j] && s.placed[i].key == key ==> i == j
  }

  lemma InsertKeepsKey(s: System, starter: StarterId, id: RunId, key: string)
    requires Inv(s) && KeyInv(s, key) && key != "" && At(s, starter, Inserting) && id !in s.placed
    ensures KeyInv(Step(Coordinator, s, Insert(starter, id)), key)
  {
    var t := Step(Coordinator, s, Insert(starter, id));
    var p := s.starters[starter];
    forall q | q in t.starters && t.starters[q].key == key ensures HoldsClaim(t, q, t.starters[q]) {
      assert HoldsClaim(s, q, s.starters[q]);
    }
    if p.key == key {
      assert HoldsClaim(s, starter, p);
      forall i | i in s.live ensures s.placed[i] != Place(p.replica, p.key) {
        assert !Matches(s, i, p.replica, p.key);
      }
    }
  }

  lemma LookKeepsKey(s: System, starter: StarterId, hit: RunId, next: Stage, key: string)
    requires KeyInv(s, key) && starter in s.starters
    requires (At(s, starter, Looking) && next == Claiming) || (At(s, starter, Checking) && next == Inserting)
    ensures KeyInv(Look(s, starter, hit, next), key)
  {
    var t := Look(s, starter, hit, next);
    forall q | q in t.starters && t.starters[q].key == key ensures HoldsClaim(t, q, t.starters[q]) {
      assert HoldsClaim(s, q, s.starters[q]);
    }
  }

  lemma ClaimKeepsKey(s: System, starter: StarterId, key: string)
    requires KeyInv(s, key)
    ensures KeyInv(Step(Coordinator, s, Claim(starter)), key)
  {
    var t := Step(Coordinator, s, Claim(starter));
    forall q | q in t.starters && t.starters[q].key == key ensures HoldsClaim(t, q, t.starters[q]) {
      assert HoldsClaim(s, q, s.starters[q]);
    }
  }

  lemma OthersKeepKey(s: System, ev: Event, key: string)
    requires KeyInv(s, key) && key != "" && !ev.Insert? && !ev.Lookup? && !ev.Recheck? && !ev.Claim?
    requires ev == Expire(key) ==> !Creating(s, key)
    ensures KeyInv(Step(Coordinator, s, ev), key)
  {
    hide Look, Grants;
    var t := Step(Coordinator, s, ev);
    forall q | q in t.starters && t.starters[q].key == key ensures HoldsClaim(t, q, t.starters[q]) {
      if q in s.starters { assert HoldsClaim(s, q, s.starters[q]); }
    }
  }

  lemma StepKeepsKey(s: System, ev: Event, key: string)
    requires Inv(s) && KeyInv(s, key) && key != ""
    requires ev == Expire(key) ==> !Creating(s, key)
    ensures KeyInv(Step(Coordinator, s, ev), key)
  {
    hide KeyInv, Inv, Look, Creating;
    match ev
    case Lookup(starter, hit) => if At(s, starter, Looking) { LookKeepsKey(s, starter, hit, Claiming, key); }
    case Recheck(starter, hit) => if At(s, starter, Checking) { LookKeepsKey(s, starter, hit, Inserting, key); }
    case Insert(starter, id) =>
      if At(s, starter, Inserting) && id !in s.placed { InsertKeepsKey(s, starter, id, key); }
    case Claim(starter) => ClaimKeepsKey(s, starter, key);
    case _ => OthersKeepKey(s, ev, key);
  }

  lemma {:induction false} KeyReachable(evs: seq<Event>, key: string)
    requires key != "" && ClaimOutlivesCreation(evs, key)
    ensures KeyInv(Exec(Coordinator, evs), key)
  {
    hide Step;
    if evs != [] {
      KeyReachable(evs[..|evs| - 1], key);
      Reachable(Coordinator, evs[..|evs| - 1]);
      StepKeepsKey(Exec(Coordinator, evs[..|evs| - 1]), evs[|evs| - 1], key);
    }
  }

  /**
   * If the claim of a key outlives each creation under it, a replica never holds two live runs of that key,
   * however starts, later expiries and evictions interleave.
   */
  lemma OneLiveRunPerKey(evs: seq<Event>, key: string, i: RunId, j: RunId)
    requires key != "" && ClaimOutlivesCreation(evs, key)
    requires i in Exec(Coordinator, evs).live && j in Exec(Coordinator, evs).live
    ensures i in Exec(Coordinator, evs).placed && j in Exec(Coordinator, evs).placed
    ensures var placed := Exec(Coordinator, evs).placed; placed[i] == placed[j] && placed[i].key == key ==> i == j
  {
    hide Exec, ClaimOutlivesCreation;
    Reachable(Coordinator, evs);
    KeyReachable(evs, key);
  }

  /** Successful starts with one key on one replica return the same run, as long as what they returned is still live. */
  lemma StartsAgree(evs: seq<Event>, p: StarterId, q: StarterId)
    requires Succeeded(Exec(Coordinator, evs), p) && Succeeded(Exec(Coordinator, evs), q)
    requires var s := Exec(Coordinator, evs);
             s.starters[p].replica == s.starters[q].replica && s.starters[p].key == s.starters[q].key != ""
    requires ClaimOutlivesCreation(evs, Exec(Coordinator, evs).starters[p].key)
    requires var s := Exec(Coordinator, evs);
             s.starters[p].stage.outcome.run in s.live && s.starters[q].stage.outcome.run in s.live
    ensures var s := Exec(Coordinator, evs);
            s.starters[p].stage.outcome.run == s.starters[q].stage.outcome.run
  {
    hide Exec, ClaimOutlivesCreation;
    Reachable(Coordinator, evs);
    var s := Exec(Coordinator, evs);
    assert StarterOk(s, s.starters[p]) && StarterOk(s, s.starters[q]);
    OneLiveRunPerKey(evs, s.starters[p].key, s.starters[p].stage.outcome.run, s.starters[q].stage.outcome.run);
  }

  // ---- one run over all replicas ----

  predicate HasLive(s: System, key: string) {
    exists id <- s.live :: id in s.placed && s.placed[id].key == key
  }

  /** In this history the claim of `key` never expires during a creation, nor while a run of that key is live. */
  predicate ClaimOutlivesRun(evs: seq<Event>, key: string) {
    evs == []
    || (ClaimOutlivesRun(evs[..|evs| - 1], key)
        && (evs[|evs| - 1] == Expire(key) ==>
              var s := Exec(Coordinator, evs[..|evs| - 1]); !Creating(s, key) && !HasLive(s, key)))
  }

  /** Each of these runs that has the key was started by the one who holds the claim. */
  ghost predicate Covers(s: System, ids: set<RunId>, key: string) {
    forall id <- ids :: id in s.placed && s.placed[id].key == key ==>
      key in s.claims && At(s, s.claims[key], Finished(Started(id)))
  }

  lemma InsertKeepsCover(s: System, ids: set<RunId>, starter: StarterId, id: RunId, key: string)
    requires KeyInv(s, key) && Covers(s, ids, key) && At(s, starter, Inserting) && id !in s.placed
    requires ids <= s.placed.Keys
    ensures Covers(Step(Coordinator, s, Insert(starter, id)), ids + {id}, key)
  {
    var t := Step(Coordinator, s, Insert(starter, id));
    assert s.starters[starter].key == key ==> HoldsClaim(s, starter, s.starters[starter]);
    forall other | other in ids && s.placed[other].key == key
      ensures key in t.claims && At(t, t.claims[key], Finished(Started(other)))
    {
      assert At(s, s.claims[key], Finished(Started(other)));
    }
  }

  lemma OthersKeepCover(s: System, ids: set<RunId>, ev: Event, key: string)
    requires Covers(s, ids, key) && !ev.Insert?
    requires ev == Expire(key) ==> forall id <- ids :: id in s.placed ==> s.placed[id].key != key
    ensures Covers(Step(Coordinator, s, ev), ids, key)
  {
    var t := Step(Coordinator, s, ev);
    forall id | id in ids && id in t.placed && t.placed[id].key == key
      ensures key in t.claims && At(t, t.claims[key], Finished(Started(id)))
    {
      assert At(s, s.claims[key], Finished(Started(id)));
    }
  }

  lemma StepKeepsCovered(s: System, ids: set<RunId>, ev: Event, key: string)
    requires KeyInv(s, key) && Covers(s, ids, key) && ids <= s.placed.Keys
    requires ev == Expire(key) ==> forall id <- ids :: s.placed[id].key != key
    ensures var t := Step(Coordinator, s, ev); Covers(t, ids + (t.placed.Keys - s.placed.Keys), key)
  {
    hide KeyInv, Covers, At;
    var t := Step(Coordinator, s, ev);
    if ev.Insert? && At(s, ev.starter, Inserting) && ev.id !in s.placed {
      InsertKeepsCover(s, ids, ev.starter, ev.id, key);
      assert t.placed.Keys - s.placed.Keys == {ev.id};
    } else if ev.Insert? {
      assert t == s && ids + (t.placed.Keys - s.placed.Keys) == ids;
    } else {
      OthersKeepCover(s, ids, ev, key);
      assert ids + (t.placed.Keys - s.placed.Keys) == ids;
    }
  }

  lemma LiveIsOldOrNew(s: System, ev: Event)
    ensures var t := Step(Coordinator, s, ev); t.live <= s.live + (t.placed.Keys - s.placed.Keys)
    ensures var t := Step(Coordinator, s, ev); t.placed.Keys == s.placed.Keys + (t.placed.Keys - s.placed.Keys)
  {
  }

  lemma FewerAreCovered(s: System, ids: set<RunId>, fewer: set<RunId>, key: string)
    requires Covers(s, ids, key) && fewer <= ids
    ensures Covers(s, fewer, key)
  {
  }

  ghost predicate Covered(s: System, key: string) {
    Covers(s, s.live, key)
  }

  lemma {:induction false} CoveredReachable(evs: seq<Event>, key: string)
    requires key != "" && ClaimOutlivesRun(evs, key)
    ensures ClaimOutlivesCreation(evs, key) && Covered(Exec(Coordinator, evs), key)
  {
    hide Step, Covers, KeyInv;
    if evs == [] {
      NothingIsCovered(key);
    } else {
      CoveredReachable(evs[..|evs| - 1], key);
      KeyReachable(evs[..|evs| - 1], key);
      Reachable(Coordinator, evs[..|evs| - 1]);
      var s, t := Exec(Coordinator, evs[..|evs| - 1]), Exec(Coordinator, evs);
      StepKeepsCovered(s, s.live, evs[|evs| - 1], key);
      LiveIsOldOrNew(s, evs[|evs| - 1]);
      FewerAreCovered(t, s.live + (t.placed.Keys - s.placed.Keys), t.live, key);
    }
  }

  lemma NothingIsCovered(key: string)
    ensures Covered(Init(), key)
  {
  }

  /** If its claim outlives each creation and each live run, a key has at most one live run over all replicas. */
  lemma OneLiveRunAnywhere(evs: seq<Event>, key: string, i: RunId, j: RunId)
    requires key != "" && ClaimOutlivesRun(evs, key)
    requires i in Exec(Coordinator, evs).live && j in Exec(Coordinator, evs).live
    ensures i in Exec(Coordinator, evs).placed && j in Exec(Coordinator, evs).placed
    ensures Exec(Coordinator, evs).placed[i].key == key == Exec(Coordinator, evs).placed[j].key ==> i == j
  {
    hide Exec, ClaimOutlivesRun;
    Reachable(Coordinator, evs);
    CoveredReachable(evs, key);
  }

  // ---- two runs of one key, at any two times ----

  ghost predicate EverCovered(s: System, key: string) {
    Covers(s, s.placed.Keys, key)
  }

  lemma {:induction false} EverCoveredReachable(evs: seq<Event>, key: string)
    requires key != "" && Expire(key) !in evs
    ensures ClaimOutlivesCreation(evs, key) && EverCovered(Exec(Coordinator, evs), key)
  {
    hide Step, Covers, KeyInv;
    if evs == [] {
      NothingWasCovered(key);
    } else {
      var before := evs[..|evs| - 1];
      EverCoveredReachable(before, key);
      KeyReachable(before, key);
      Reachable(Coordinator, before);
      var s := Exec(Coordinator, before);
      StepKeepsCovered(s, s.placed.Keys, evs[|evs| - 1], key);
      LiveIsOldOrNew(s, evs[|evs| - 1]);
    }
  }

  lemma NothingWasCovered(key: string)
    ensures EverCovered(Init(), key)
  {
  }

  /** A second run of one key, on whatever replica and however much later, needs an expiry of that key's claim. */
  lemma SecondRunNeedsExpiry(evs: seq<Event>, i: RunId, j: RunId)
    requires i in Exec(Coordinator, evs).placed && j in Exec(Coordinator, evs).placed && i != j
    requires Exec(Coordinator, evs).placed[i].key == Exec(Coordinator, evs).placed[j].key != ""
    ensures Expire(Exec(Coordinator, evs).placed[i].key) in evs
  {
    hide Exec;
    var key := Exec(Coordinator, evs).placed[i].key;
    if Expire(key) !in evs { EverCoveredReachable(evs, key); }
  }

  // ---- what happens otherwise ----

  lemma {:induction false} PlayConcat(authority: Authority, s: System, a: seq<Event>, b: seq<Event>)
    ensures Play(authority, s, a + b) == Play(authority, Play(authority, s, a), b)
  {
    hide Step;
    if b == [] {
      assert a + b == a;
    } else {
      PlayConcat(authority, s, a, b[..|b| - 1]);
      assert (a + b)[..|a + b| - 1] == a + b[..|b| - 1];
    }
  }

  lemma {:induction false} FreshId(ids: set<nat>) returns (n: nat)
    ensures forall id <- ids :: id < n
  {
    if ids == {} {
      n := 0;
    } else {
      var id :| id in ids;
      var above := FreshId(ids - {id});
      n := if id < above then above else id + 1;
      forall other | other in ids ensures other < n { assert other == id || other in ids - {id}; }
    }
  }

  /** A new start that finds nothing and is granted its claim gets as far as inserting. */
  function Approach(starter: StarterId, replica: ReplicaId, key: string): seq<Event> {
    [Begin(starter, replica, key), Lookup(starter, 0), Claim(starter), Recheck(starter, 0)]
  }

  lemma ApproachInserts(authority: Authority, s: System, starter: StarterId, replica: ReplicaId, key: string)
    requires starter !in s.starters && key != "" && NoMatch(s, replica, key) && Grants(authority, s, key)
    ensures Play(authority, s, Approach(starter, replica, key))
         == s.(starters := s.starters[starter := Starter(replica, key, Inserting)], claims := s.claims[key := starter])
  {
    hide Step, NoMatch, Matches;
    var evs := Approach(starter, replica, key);
    var s1 := s.(starters := s.starters[starter := Starter(replica, key, Looking)]);
    var s2 := s.(starters := s.starters[starter := Starter(replica, key, Claiming)]);
    var s3 := s.(starters := s.starters[starter := Starter(replica, key, Checking)],
                 claims := s.claims[key := starter]);
    assert evs[..3][..2] == evs[..2] && evs[..2][..1] == evs[..1] && evs[..1][..0] == [];
    BeginSteps(authority, s, starter, replica, key);
    LookSteps(authority, s, s1, starter, replica, key);
    ClaimSteps(authority, s, s2, starter, replica, key);
    RecheckSteps(authority, s, s3, starter, replica, key);
    assert Play(authority, s, evs[..1]) == s1;
    assert Play(authority, s, evs[..2]) == s2;
    assert Play(authority, s, evs[..3]) == s3;
  }

  lemma BeginSteps(authority: Authority, s: System, starter: StarterId, replica: ReplicaId, key: string)
    requires starter !in s.starters && key != ""
    ensures Step(authority, s, Begin(starter, replica, key))
         == s.(starters := s.starters[starter := Starter(replica, key, Looking)])
  {
  }

  lemma LookSteps(authority: Authority, s: System, s1: System, starter: StarterId, replica: ReplicaId, key: string)
    requires NoMatch(s, replica, key)
    requires s1 == s.(starters := s.starters[starter := Starter(replica, key, Looking)])
    ensures Step(authority, s1, Lookup(starter, 0))
         == s.(starters := s.starters[starter := Starter(replica, key, Claiming)])
  {
    StillNoMatch(s, s1, replica, key);
  }

  lemma StillNoMatch(s: System, t: System, replica: ReplicaId, key: string)
    requires NoMatch(s, replica, key) && t.live == s.live && t.placed == s.placed
    ensures NoMatch(t, replica, key) && forall id :: !Matches(t, id, replica, key)
  {
    forall id | id in t.live ensures !Matches(t, id, replica, key) { assert !Matches(s, id, replica, key); }
  }

  lemma ClaimSteps(authority: Authority, s: System, s2: System, starter: StarterId, replica: ReplicaId, key: string)
    requires Grants(authority, s, key)
    requires s2 == s.(starters := s.starters[starter := Starter(replica, key, Claiming)])
    ensures Step(authority, s2, Claim(starter))
         == s.(starters := s.starters[starter := Starter(replica, key, Checking)], claims := s.claims[key := starter])
  {
  }

  lemma RecheckSteps(authority: Authority, s: System, s3: System, starter: StarterId, replica: ReplicaId, key: string)
    requires NoMatch(s, replica, key)
    requires s3 == s.(starters := s.starters[starter := Starter(replica, key, Checking)],
                      claims := s.claims[key := starter])
    ensures Step(authority, s3, Recheck(starter, 0))
         == s.(starters := s.starters[starter := Starter(replica, key, Inserting)], claims := s.claims[key := starter])
  {
    StillNoMatch(s, s3, replica, key);
  }

  ghost predicate TwoLive(s: System, i: RunId, j: RunId, key: string) {
    i != j && i in s.live && j in s.live && i in s.placed && j in s.placed
    && s.placed[i].key == key && s.placed[j].key == key
  }

  lemma InsertSteps(authority: Authority, s: System, starter: StarterId, id: RunId)
    requires At(s, starter, Inserting) && id !in s.placed
    ensures var t, p := Step(authority, s, Insert(starter, id)), s.starters[starter];
            t.live == s.live + {id} && t.placed == s.placed[id := Place(p.replica, p.key)]
            && t.starters == s.starters[starter := p.(stage := Finished(Started(id)))]
  {
  }

  /**
   * From any reachable state, a live run whose claim is gone, or was never exclusive, can be joined by a second one
   * of its key on any replica that does not have the first; nothing needs to expire or be evicted on the way.
   */
  lemma LostClaimAdmitsSecondRun(authority: Authority, evs: seq<Event>, run: RunId, replica: ReplicaId)
    returns (more: seq<Event>, other: RunId)
    requires run in Exec(authority, evs).live && run in Exec(authority, evs).placed
    requires var s := Exec(authority, evs); var key := s.placed[run].key;
             key != "" && Grants(authority, s, key) && NoMatch(s, replica, key)
    ensures TwoLive(Play(authority, Exec(authority, evs), more), run, other, Exec(authority, evs).placed[run].key)
    ensures Play(authority, Exec(authority, evs), more).placed[other].replica == replica
    ensures forall ev <- more :: !ev.Expire? && !ev.Evict?
  {
    hide Exec, Step, Play, NoMatch, Grants;
    var s := Exec(authority, evs);
    var key := s.placed[run].key;
    var starter := FreshId(s.starters.Keys);
    other := FreshId(s.placed.Keys);
    assert starter !in s.starters.Keys && other !in s.placed.Keys;
    more := Approach(starter, replica, key) + [Insert(starter, other)];
    ApproachInserts(authority, s, starter, replica, key);
    PlayConcat(authority, s, Approach(starter, replica, key), [Insert(starter, other)]);
    var t := Play(authority, s, Approach(starter, replica, key));
    OneStep(authority, t, Insert(starter, other));
    InsertSteps(authority, t, starter, other);
  }

  lemma OneStep(authority: Authority, s: System, ev: Event)
    ensures Play(authority, s, [ev]) == Step(authority, s, ev)
  {
    assert [ev][..0] == [];
  }

  lemma TwoSteps(authority: Authority, s: System, a: Event, b: Event)
    ensures Play(authority, s, [a, b]) == Step(authority, Step(authority, s, a), b)
  {
    hide Step;
    PlayConcat(authority, s, [a], [b]);
    OneStep(authority, s, a);
    OneStep(authority, Step(authority, s, a), b);
    assert [a, b] == [a] + [b];
  }

  /** So a claim must outlive every live run of its key: whenever it expires earlier, a second run can follow. */
  lemma EarlyExpiryAdmitsSecondRun(evs: seq<Event>, run: RunId, replica: ReplicaId)
    returns (more: seq<Event>, other: RunId)
    requires run in Exec(Coordinator, evs).live && run in Exec(Coordinator, evs).placed
    requires var s := Exec(Coordinator, evs); s.placed[run].key != "" && NoMatch(s, replica, s.placed[run].key)
    ensures var key := Exec(Coordinator, evs).placed[run].key;
            && TwoLive(Play(Coordinator, Exec(Coordinator, evs), [Expire(key)] + more), run, other, key)
            && forall ev <- more :: !ev.Expire? && !ev.Evict?
  {
    hide Step, NoMatch, Matches;
    var s := Exec(Coordinator, evs);
    var key := s.placed[run].key;
    PlayConcat(Coordinator, Init(), evs, [Expire(key)]);
    OneStep(Coordinator, s, Expire(key));
    ExpirySteps(Coordinator, s, key);
    StillNoMatch(s, s.(claims := s.claims - {key}), replica, key);
    more, other := LostClaimAdmitsSecondRun(Coordinator, evs + [Expire(key)], run, replica);
    PlayConcat(Coordinator, s, [Expire(key)], more);
  }

  lemma InsertingAdmitsTwin(authority: Authority, evs: seq<Event>, p: StarterId)
    returns (more: seq<Event>, i: RunId, j: RunId)
    requires At(Exec(authority, evs), p, Inserting)
    requires var s := Exec(authority, evs); var starter := s.starters[p];
             starter.key != "" && Grants(authority, s, starter.key) && NoMatch(s, starter.replica, starter.key)
    ensures var starter := Exec(authority, evs).starters[p];
            var t := Play(authority, Exec(authority, evs), more);
            TwoLive(t, i, j, starter.key) && t.placed[i] == t.placed[j] == Place(starter.replica, starter.key)
    ensures forall ev <- more :: !ev.Expire? && !ev.Evict?
  {
    hide Exec, Step, Play, NoMatch, Grants;
    var s := Exec(authority, evs);
    var key, replica := s.starters[p].key, s.starters[p].replica;
    var q := FreshId(s.starters.Keys);
    i := FreshId(s.placed.Keys);
    j := i + 1;
    assert q !in s.starters.Keys && i !in s.placed.Keys && j !in s.placed.Keys;
    more := Approach(q, replica, key) + [Insert(q, i), Insert(p, j)];
    ApproachInserts(authority, s, q, replica, key);
    PlayConcat(authority, s, Approach(q, replica, key), [Insert(q, i), Insert(p, j)]);
    var t := Play(authority, s, Approach(q, replica, key));
    TwoSteps(authority, t, Insert(q, i), Insert(p, j));
    InsertSteps(authority, t, q, i);
    InsertSteps(authority, Step(authority, t, Insert(q, i)), p, j);
  }

  lemma RecheckPasses(authority: Authority, s: System, p: StarterId)
    requires At(s, p, Checking) && NoMatch(s, s.starters[p].replica, s.starters[p].key)
    ensures Step(authority, s, Recheck(p, 0)) == Move(s, p, Inserting)
    ensures NoMatch(Move(s, p, Inserting), s.starters[p].replica, s.starters[p].key)
  {
    StillNoMatch(s, Move(s, p, Inserting), s.starters[p].replica, s.starters[p].key);
    StillNoMatch(s, s, s.starters[p].replica, s.starters[p].key);
  }

  /**
   * From any reachable state, a start that is creating and whose claim is gone, or was never exclusive, can be
   * overtaken by another one on its own replica, which then holds two live runs of the key.
   */
  lemma LostClaimAdmitsTwin(authority: Authority, evs: seq<Event>, p: StarterId)
    returns (more: seq<Event>, i: RunId, j: RunId)
    requires At(Exec(authority, evs), p, Checking) || At(Exec(authority, evs), p, Inserting)
    requires var s := Exec(authority, evs); var starter := s.starters[p];
             starter.key != "" && Grants(authority, s, starter.key) && NoMatch(s, starter.replica, starter.key)
    ensures var starter := Exec(authority, evs).starters[p];
            var t := Play(authority, Exec(authority, evs), more);
            TwoLive(t, i, j, starter.key) && t.placed[i] == t.placed[j] == Place(starter.replica, starter.key)
    ensures forall ev <- more :: !ev.Expire? && !ev.Evict?
  {
    hide Step, NoMatch, Matches;
    var s := Exec(authority, evs);
    if At(s, p, Inserting) {
      more, i, j := InsertingAdmitsTwin(authority, evs, p);
    } else {
      RecheckPasses(authority, s, p);
      PlayConcat(authority, Init(), evs, [Recheck(p, 0)]);
      OneStep(authority, s, Recheck(p, 0));
      var rest;
      rest, i, j := InsertingAdmitsTwin(authority, evs + [Recheck(p, 0)], p);
      more := [Recheck(p, 0)] + rest;
      PlayConcat(authority, s, [Recheck(p, 0)], rest);
    }
  }

  // ---- exactly when a claim may expire ----

  predicate AtMostOneLive(s: System, key: string) {
    forall i, j | i in s.live && j in s.live && i in s.placed && j in s.placed ::
      s.placed[i].key == key == s.placed[j].key ==> i == j
  }

  /** Whatever follows, and as long as the key's next claim does not expire too, it has at most one live run. */
  ghost predicate StaysSingle(evs: seq<Event>, key: string) {
    forall more | Expire(key) !in more :: AtMostOneLive(Exec(Coordinator, evs + more), key)
  }

  lemma {:induction false} OutlivesWithoutExpiry(evs: seq<Event>, more: seq<Event>, key: string)
    requires ClaimOutlivesRun(evs, key) && Expire(key) !in more
    ensures ClaimOutlivesRun(evs + more, key)
  {
    hide Exec;
    if more == [] {
      assert evs + more == evs;
    } else {
      OutlivesWithoutExpiry(evs, more[..|more| - 1], key);
      assert (evs + more)[..|evs + more| - 1] == evs + more[..|more| - 1];
      assert more[|more| - 1] in more;
    }
  }

  lemma SafeExpiryStaysSingle(evs: seq<Event>, key: string)
    requires key != "" && ClaimOutlivesRun(evs, key)
    requires !Creating(Exec(Coordinator, evs), key) && !HasLive(Exec(Coordinator, evs), key)
    ensures StaysSingle(evs + [Expire(key)], key)
  {
    hide Exec, Creating, HasLive;
    assert (evs + [Expire(key)])[..|evs|] == evs;
    hide ClaimOutlivesRun;
    forall more | Expire(key) !in more ensures AtMostOneLive(Exec(Coordinator, evs + [Expire(key)] + more), key) {
      OutlivesWithoutExpiry(evs + [Expire(key)], more, key);
      forall i, j | i in Exec(Coordinator, evs + [Expire(key)] + more).live
                    && j in Exec(Coordinator, evs + [Expire(key)] + more).live
      {
        OneLiveRunAnywhere(evs + [Expire(key)] + more, key, i, j);
      }
    }
  }

  /** A replica that has no live run at all. */
  lemma EmptyReplica(s: System, key: string) returns (replica: ReplicaId)
    ensures NoMatch(s, replica, key)
  {
    var used := set id | id in s.placed :: s.placed[id].replica;
    replica := FreshId(used);
    forall id | id in s.live ensures !Matches(s, id, replica, key) {
      if id in s.placed { assert s.placed[id].replica in used; }
    }
  }

  lemma TwoAreNotOne(evs: seq<Event>, more: seq<Event>, i: RunId, j: RunId, key: string)
    requires TwoLive(Play(Coordinator, Exec(Coordinator, evs), more), i, j, key)
    requires forall ev <- more :: !ev.Expire?
    ensures !StaysSingle(evs, key)
  {
    hide Step;
    PlayConcat(Coordinator, Init(), evs, more);
    assert !AtMostOneLive(Exec(Coordinator, evs + more), key);
  }

  lemma ExpiryUnderRunIsUnsafe(evs: seq<Event>, key: string)
    requires key != "" && HasLive(Exec(Coordinator, evs), key)
    ensures !StaysSingle(evs + [Expire(key)], key)
  {
    hide Step, NoMatch, StaysSingle, Grants;
    var s := Exec(Coordinator, evs);
    var run :| run in s.live && run in s.placed && s.placed[run].key == key;
    var replica := EmptyReplica(s, key);
    var more, other := EarlyExpiryAdmitsSecondRun(evs, run, replica);
    PlayConcat(Coordinator, s, [Expire(key)], more);
    PlayConcat(Coordinator, Init(), evs, [Expire(key)]);
    TwoAreNotOne(evs + [Expire(key)], more, run, other, key);
  }

  lemma ExpiryUnderCreationIsUnsafe(evs: seq<Event>, key: string)
    requires key != "" && Creating(Exec(Coordinator, evs), key) && !HasLive(Exec(Coordinator, evs), key)
    ensures !StaysSingle(evs + [Expire(key)], key)
  {
    var s := Exec(Coordinator, evs);
    var lapsed := evs + [Expire(key)];
    var p := s.claims[key];
    Reachable(Coordinator, evs);
    assert s.starters[p].key == key;
    hide Step, StaysSingle, Play;
    PlayConcat(Coordinator, Init(), evs, [Expire(key)]);
    OneStep(Coordinator, s, Expire(key));
    ExpirySteps(Coordinator, s, key);
    var more, i, j := LostClaimAdmitsTwin(Coordinator, lapsed, p);
    TwoAreNotOne(lapsed, more, i, j, key);
  }

  /**
   * In any history in which the claim of a key has lasted long enough so far, letting it expire now is safe if and
   * only if nobody is creating under it and no run of the key is live, on any replica.
   */
  lemma ClaimMayExpireExactlyWhen(evs: seq<Event>, key: string)
    requires key != "" && ClaimOutlivesRun(evs, key)
    ensures StaysSingle(evs + [Expire(key)], key)
        <==> !Creating(Exec(Coordinator, evs), key) && !HasLive(Exec(Coordinator, evs), key)
  {
    hide StaysSingle, Exec, Creating, HasLive, ClaimOutlivesRun;
    if HasLive(Exec(Coordinator, evs), key) {
      ExpiryUnderRunIsUnsafe(evs, key);
    } else if Creating(Exec(Coordinator, evs), key) {
      ExpiryUnderCreationIsUnsafe(evs, key);
    } else {
      SafeExpiryStaysSingle(evs, key);
    }
  }

  // ---- three histories from an empty store ----

  lemma FirstApproach(authority: Authority, key: string)
    requires key != ""
    ensures Exec(authority, Approach(0, 0, key))
         == System({}, map[], map[key := 0], map[0 := Starter(0, key, Inserting)])
  {
    hide Play;
    ApproachInserts(authority, Init(), 0, 0, key);
  }

  /** The claim expires after the first run was started: another replica starts a second one. */
  lemma ExpiryAdmitsSecondRun(key: string) returns (evs: seq<Event>, i: RunId, j: RunId)
    requires key != ""
    ensures TwoLive(Exec(Coordinator, evs), i, j, key)
    ensures ClaimOutlivesCreation(evs, key)
  {
    hide Step, ClaimOutlivesCreation;
    var started := Approach(0, 0, key) + [Insert(0, 0), Expire(key)];
    FirstApproach(Coordinator, key);
    PlayConcat(Coordinator, Init(), Approach(0, 0, key), [Insert(0, 0), Expire(key)]);
    var s := Exec(Coordinator, Approach(0, 0, key));
    TwoSteps(Coordinator, s, Insert(0, 0), Expire(key));
    var t := System({0}, map[0 := Place(0, key)], map[key := 0], map[0 := Starter(0, key, Finished(Started(0)))]);
    InsertSteps(Coordinator, s, 0, 0);
    InsertKeepsClaims(Coordinator, s, 0, 0);
    assert Step(Coordinator, s, Insert(0, 0)) == t;
    ExpirySteps(Coordinator, t, key);
    var more;
    i := 0;
    more, j := LostClaimAdmitsSecondRun(Coordinator, started, 0, 1);
    evs := started + more;
    PlayConcat(Coordinator, Init(), started, more);
    assert ClaimOutlivesCreation(evs, key) by {
      assert started[..5] == Approach(0, 0, key) + [Insert(0, 0)];
      PlayConcat(Coordinator, Init(), Approach(0, 0, key), [Insert(0, 0)]);
      OneStep(Coordinator, s, Insert(0, 0));
      OneExpiry(started[..5], key);
      assert started == started[..5] + [Expire(key)];
      NoMoreExpiries(started, more, key);
    }
  }

  lemma InsertKeepsClaims(authority: Authority, s: System, starter: StarterId, id: RunId)
    ensures Step(authority, s, Insert(starter, id)).claims == s.claims
  {
  }

  lemma ExpirySteps(authority: Authority, s: System, key: string)
    ensures Step(authority, s, Expire(key)) == s.(claims := s.claims - {key})
  {
  }

  /** A first expiry, at a moment when nobody is creating. */
  lemma OneExpiry(evs: seq<Event>, key: string)
    requires (forall ev <- evs :: !ev.Expire?) && !Creating(Exec(Coordinator, evs), key)
    ensures ClaimOutlivesCreation(evs + [Expire(key)], key)
  {
    hide Exec;
    assert [] + evs == evs;
    NoMoreExpiries([], evs, key);
    assert (evs + [Expire(key)])[..|evs|] == evs;
  }

  lemma {:induction false} NoMoreExpiries(evs: seq<Event>, more: seq<Event>, key: string)
    requires ClaimOutlivesCreation(evs, key) && forall ev <- more :: !ev.Expire?
    ensures ClaimOutlivesCreation(evs + more, key)
  {
    hide Exec;
    if more == [] {
      assert evs + more == evs;
    } else {
      NoMoreExpiries(evs, more[..|more| - 1], key);
      assert (evs + more)[..|evs + more| - 1] == evs + more[..|more| - 1];
    }
  }

  /** The claim expires while the first start is about to insert: its own replica ends with two live runs. */
  lemma ExpiryDuringCreationAdmitsTwin(key: string) returns (evs: seq<Event>, i: RunId, j: RunId)
    requires key != ""
    ensures TwoLive(Exec(Coordinator, evs), i, j, key)
    ensures Exec(Coordinator, evs).placed[i] == Exec(Coordinator, evs).placed[j]
  {
    hide Step;
    var lapsed := Approach(0, 0, key) + [Expire(key)];
    FirstApproach(Coordinator, key);
    PlayConcat(Coordinator, Init(), Approach(0, 0, key), [Expire(key)]);
    OneStep(Coordinator, Exec(Coordinator, Approach(0, 0, key)), Expire(key));
    ExpirySteps(Coordinator, Exec(Coordinator, Approach(0, 0, key)), key);
    var more;
    more, i, j := LostClaimAdmitsTwin(Coordinator, lapsed, 0);
    evs := lapsed + more;
    PlayConcat(Coordinator, Init(), lapsed, more);
  }

  /** Without a coordinator nothing has to expire: two concurrent starts on one replica both insert. */
  lemma NoCoordinatorAdmitsTwin(key: string) returns (evs: seq<Event>, i: RunId, j: RunId)
    requires key != ""
    ensures TwoLive(Exec(NoCoordinator, evs), i, j, key)
    ensures Exec(NoCoordinator, evs).placed[i] == Exec(NoCoordinator, evs).placed[j]
    ensures forall ev <- evs :: !ev.Expire?
  {
    hide Step;
    FirstApproach(NoCoordinator, key);
    var more;
    more, i, j := LostClaimAdmitsTwin(NoCoordinator, Approach(0, 0, key), 0);
    evs := Approach(0, 0, key) + more;
    PlayConcat(NoCoordinator, Init(), Approach(0, 0, key), more);
  }

  // ---- what one start does when nothing interrupts it ----

  /** All the sections of one start, with the same run at hand for both lookups. */
  function Whole(starter: StarterId, replica: ReplicaId, key: string, hit: RunId, id: RunId): seq<Event> {
    [Begin(starter, replica, key), Lookup(starter, hit), Claim(starter), Recheck(starter, hit), Insert(starter, id)]
  }

  function InStage(s: System, starter: StarterId, replica: ReplicaId, key: string, stage: Stage): System {
    s.(starters := s.starters[starter := Starter(replica, key, stage)])
  }

  lemma PlayFive(authority: Authority, s: System, a: Event, b: Event, c: Event, d: Event, e: Event)
    ensures Play(authority, s, [a, b, c, d, e]) ==
      Step(authority, Step(authority, Step(authority, Step(authority, Step(authority, s, a), b), c), d), e)
  {
    hide Step;
    var evs := [a, b, c, d, e];
    assert evs[..4] == [a, b, c, d] && evs[..4][..3] == [a, b, c] && [a, b, c][..2] == [a, b] && [a, b][..1] == [a];
    assert [a][..0] == [];
    assert Play(authority, s, [a]) == Step(authority, s, a);
    assert Play(authority, s, [a, b]) == Step(authority, Step(authority, s, a), b);
    assert Play(authority, s, [a, b, c]) == Step(authority, Step(authority, Step(authority, s, a), b), c);
    assert [a, b, c, d][..3] == [a, b, c];
  }

  lemma FinishedIsSettled(authority: Authority, s: System, starter: StarterId, hit: RunId, id: RunId)
    requires starter in s.starters && s.starters[starter].stage.Finished?
    ensures Step(authority, s, Claim(starter)) == s
    ensures Step(authority, s, Recheck(starter, hit)) == s
    ensures Step(authority, s, Insert(starter, id)) == s
  {
  }

  lemma StartFindsRun(authority: Authority, s: System, starter: StarterId, replica: ReplicaId, key: string, hit: RunId,
                      id: RunId)
    requires starter !in s.starters && key != "" && Matches(s, hit, replica, key)
    ensures Play(authority, s, Whole(starter, replica, key, hit, id))
         == InStage(s, starter, replica, key, Finished(Existing(hit)))
  {
    var found := InStage(s, starter, replica, key, Finished(Existing(hit)));
    assert Step(authority, InStage(s, starter, replica, key, Looking), Lookup(starter, hit)) == found;
    BeginSteps(authority, s, starter, replica, key);
    hide Step;
    FinishedIsSettled(authority, found, starter, hit, id);
    PlayFive(authority, s, Begin(starter, replica, key), Lookup(starter, hit), Claim(starter), Recheck(starter, hit),
             Insert(starter, id));
  }

  lemma LookupGoesOn(authority: Authority, s: System, starter: StarterId, replica: ReplicaId, key: string, hit: RunId)
    requires NoMatch(s, replica, key)
    ensures Step(authority, InStage(s, starter, replica, key, Looking), Lookup(starter, hit))
         == InStage(s, starter, replica, key, Claiming)
    ensures Step(authority, InStage(s, starter, replica, key, Checking), Recheck(starter, hit))
         == InStage(s, starter, replica, key, Inserting)
  {
    StillNoMatch(s, InStage(s, starter, replica, key, Looking), replica, key);
    StillNoMatch(s, InStage(s, starter, replica, key, Checking), replica, key);
  }

  lemma StartIsRefused(s: System, starter: StarterId, replica: ReplicaId, key: string, hit: RunId, id: RunId)
    requires starter !in s.starters && key != "" && NoMatch(s, replica, key) && key in s.claims
    ensures Play(Coordinator, s, Whole(starter, replica, key, hit, id))
         == InStage(s, starter, replica, key, Finished(AlreadyClaimed))
  {
    var refused := InStage(s, starter, replica, key, Finished(AlreadyClaimed));
    LookupGoesOn(Coordinator, s, starter, replica, key, hit);
    BeginSteps(Coordinator, s, starter, replica, key);
    assert Step(Coordinator, InStage(s, starter, replica, key, Claiming), Claim(starter)) == refused;
    hide Step;
    FinishedIsSettled(Coordinator, refused, starter, hit, id);
    PlayFive(Coordinator, s, Begin(starter, replica, key), Lookup(starter, hit), Claim(starter), Recheck(starter, hit),
             Insert(starter, id));
  }

  lemma StartCreates(authority: Authority, s: System, starter: StarterId, replica: ReplicaId, key: string, hit: RunId,
                     id: RunId)
    requires starter !in s.starters && key != "" && id !in s.placed
    requires NoMatch(s, replica, key) && Grants(authority, s, key)
    ensures Play(authority, s, Whole(starter, replica, key, hit, id))
         == InStage(s, starter, replica, key, Finished(Started(id)))
              .(live := s.live + {id}, placed := s.placed[id := Place(replica, key)],
                claims := s.claims[key := starter])
  {
    var held := s.(claims := s.claims[key := starter]);
    StillNoMatch(s, held, replica, key);
    LookupGoesOn(authority, s, starter, replica, key, hit);
    LookupGoesOn(authority, held, starter, replica, key, hit);
    BeginSteps(authority, s, starter, replica, key);
    ClaimSteps(authority, s, InStage(s, starter, replica, key, Claiming), starter, replica, key);
    StartInserts(authority, held, starter, replica, key, id);
    hide Step;
    PlayFive(authority, s, Begin(starter, replica, key), Lookup(starter, hit), Claim(starter), Recheck(starter, hit),
             Insert(starter, id));
  }

  lemma StartInserts(authority: Authority, s: System, starter: StarterId, replica: ReplicaId, key: string, id: RunId)
    requires id !in s.placed
    ensures Step(authority, InStage(s, starter, replica, key, Inserting), Insert(starter, id))
         == InStage(s, starter, replica, key, Finished(Started(id)))
              .(live := s.live + {id}, placed := s.placed[id := Place(replica, key)])
  {
  }

  lemma KeylessStart(authority: Authority, s: System, starter: StarterId, replica: ReplicaId, hit: RunId, id: RunId)
    requires starter !in s.starters && id !in s.placed
    ensures Play(authority, s, Whole(starter, replica, "", hit, id))
         == InStage(s, starter, replica, "", Finished(Started(id)))
              .(live := s.live + {id}, placed := s.placed[id := Place(replica, "")])
  {
    var ready := InStage(s, starter, replica, "", Inserting);
    assert Step(authority, s, Begin(starter, replica, "")) == ready;
    assert Step(authority, ready, Lookup(starter, hit)) == ready;
    assert Step(authority, ready, Claim(starter)) == ready;
    assert Step(authority, ready, Recheck(starter, hit)) == ready;
    StartInserts(authority, s, starter, replica, "", id);
    hide Step;
    PlayFive(authority, s, Begin(starter, replica, ""), Lookup(starter, hit), Claim(starter), Recheck(starter, hit),
             Insert(starter, id));
  }

  /**
   * A start that nothing interrupts: without a key it always creates; with one it returns a live run of that key on
   * its replica if there is one, is refused while a coordinator holds a claim, and creates and claims otherwise.
   */
  lemma UninterruptedStart(authority: Authority, s: System, starter: StarterId, replica: ReplicaId, key: string,
                           hit: RunId, id: RunId)
    requires starter !in s.starters && id !in s.placed
    requires (exists r :: r in s.live && r in s.placed && s.placed[r] == Place(replica, key))
             ==> hit in s.live && hit in s.placed && s.placed[hit] == Place(replica, key)
    ensures var t := Play(authority, s, Whole(starter, replica, key, hit, id));
            var found := hit in s.live && hit in s.placed && s.placed[hit] == Place(replica, key);
            var created := key == "" || (!found && (authority == NoCoordinator || key !in s.claims));
            && starter in t.starters
            && t.starters[starter].stage == Finished(
                 if created then Started(id) else if found then Existing(hit) else AlreadyClaimed)
            && t.live == (if created then s.live + {id} else s.live)
            && t.placed == (if created then s.placed[id := Place(replica, key)] else s.placed)
            && t.claims == (if created && key != "" then s.claims[key := starter] else s.claims)
  {
    hide Play, Whole, Step;
    if key == "" {
      KeylessStart(authority, s, starter, replica, hit, id);
    } else if Matches(s, hit, replica, key) {
      StartFindsRun(authority, s, starter, replica, key, hit, id);
    } else {
      assert NoMatch(s, replica, key);
      if Grants(authority, s, key) {
        StartCreates(authority, s, starter, replica, key, hit, id);
      } else {
        StartIsRefused(s, starter, replica, key, hit, id);
      }
    }
  }

  // ---- what a failed start leaves behind ----

  /** A start that is granted its claim and then fails on a bad definition. */
  function Spoiled(starter: StarterId, replica: ReplicaId, key: string): seq<Event> {
    Approach(starter, replica, key) + [BadDefinition(starter)]
  }

  lemma SpoiledStartFails(authority: Authority, s: System, starter: StarterId, replica: ReplicaId, key: string)
    requires starter !in s.starters && key != "" && NoMatch(s, replica, key) && Grants(authority, s, key)
    ensures Play(authority, s, Spoiled(starter, replica, key))
         == InStage(s, starter, replica, key, Finished(Failed)).(claims := s.claims[key := starter])
  {
    ApproachInserts(authority, s, starter, replica, key);
    var evs := Spoiled(starter, replica, key);
    assert evs[..|evs| - 1] == Approach(starter, replica, key);
  }

  lemma {:induction false} ClaimsOnlyExpire(s: System, more: seq<Event>, key: string)
    requires key in s.claims && Expire(key) !in more
    ensures key in Play(Coordinator, s, more).claims
  {
    if more != [] { ClaimsOnlyExpire(s, more[..|more| - 1], key); }
  }

  /**
   * A start that fails after its claim was granted creates nothing but keeps the claim: until that expires, an
   * uninterrupted start with the key is refused on every replica without a live run of it.
   */
  lemma FailedStartBlocksKey(s: System, first: StarterId, replica: ReplicaId, key: string, more: seq<Event>,
                             second: StarterId, elsewhere: ReplicaId, id: RunId)
    requires first !in s.starters && key != "" && NoMatch(s, replica, key) && key !in s.claims
    requires Expire(key) !in more
    requires var t := Play(Coordinator, Play(Coordinator, s, Spoiled(first, replica, key)), more);
             second !in t.starters && id !in t.placed && NoMatch(t, elsewhere, key)
    ensures var failed := Play(Coordinator, s, Spoiled(first, replica, key));
            var t := Play(Coordinator, failed, more);
            && At(failed, first, Finished(Failed)) && failed.live == s.live && failed.placed == s.placed
            && At(Play(Coordinator, t, Whole(second, elsewhere, key, id, id)), second, Finished(AlreadyClaimed))
  {
    hide Play, Step, Whole, Spoiled, NoMatch;
    SpoiledStartFails(Coordinator, s, first, replica, key);
    ClaimsOnlyExpire(Play(Coordinator, s, Spoiled(first, replica, key)), more, key);
    StartIsRefused(Play(Coordinator, Play(Coordinator, s, Spoiled(first, replica, key)), more), second, elsewhere, key,
                   id, id);
  }

  /** An evicted run no longer answers for its key: the next start creates a new one, unless the claim is still held. */
  lemma EvictionForgetsKey(authority: Authority, s: System, former: RunId, starter: StarterId, replica: ReplicaId,
                           key: string, id: RunId)
    requires starter !in s.starters && id !in s.placed && key != ""
    requires forall r :: r in s.live && r in s.placed && s.placed[r] == Place(replica, key) ==> r == former
    ensures var t := Play(authority, Step(authority, s, Evict(former)), Whole(starter, replica, key, former, id));
            && former !in Step(authority, s, Evict(former)).live
            && At(t, starter, Finished(
                 if authority == NoCoordinator || key !in s.claims then Started(id) else AlreadyClaimed))
  {
    hide Play, Whole;
    UninterruptedStart(authority, Step(authority, s, Evict(former)), starter, replica, key, former, id);
  }
}
