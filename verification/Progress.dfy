/**
 * Which runs can still end without being canceled. Signals that nobody waits for are never dropped, and a full inbox
 * refuses the one that somebody does wait for; so a run can get stuck, and this says exactly which ones do.
 */
module Progress {
  import opened Wrappers
  import opened Arith
  import opened Json
  import opened Steps
  import opened Store
  import opened Worker
  import opened Interpreter
  import opened Sequential
  import opened World
  import opened Safety

  // ---- one run, as a log ----

  /** Nothing but a signal could wake the run, and its inbox refuses signals. */
  predicate Blocked(m: Machine) {
    m.wakeAt >= NEVER && |m.inbox| >= MAX_PENDING_SIGNALS
  }

  ghost predicate HasNext(log: Log) {
    exists e :: Legal(Then(log, e)) && !e.Stopped?
  }

  /** An unfinished run has a legal next entry other than a cancellation exactly when it is not blocked. */
  lemma NextExistsUnlessBlocked(log: Log)
    requires Legal(log) && Active(Replay(log))
    ensures HasNext(log) <==> !Blocked(Replay(log))
  {
    hide Next;
    var m := Replay(log);
    if |m.inbox| < MAX_PENDING_SIGNALS {
      assert Legal(Then(log, Delivered(Signal(Null, Null), m.touchedAt)));
    } else if log.Then? && log.entry.Claimed? {
      ClaimLeavesTimes(log);
      assert Legal(Then(log, Performed(log.entry.at, m.touchedAt, ActivityErr(""))));
    } else if m.wakeAt < NEVER {
      NoLeaseUnlessClaimed(log);
      assert Legal(Then(log, Claimed(Max(m.wakeAt, 0), 0)));
    } else {
      NothingFollowsBlocked(log);
    }
  }

  lemma NothingFollowsBlocked(log: Log)
    requires Legal(log) && Active(Replay(log)) && Blocked(Replay(log))
    ensures forall e :: Legal(Then(log, e)) ==> e.Stopped?
  {
    hide Next, Perform;
    forall e ensures Legal(Then(log, e)) ==> e.Stopped? {
      if Legal(Then(log, e)) { NextIsAdmissible(log, e); }
    }
  }

  lemma NextIsAdmissible(log: Log, e: Entry)
    requires Legal(Then(log, e))
    ensures Admissible(Replay(log), e)
  {
    hide Next, Admissible;
  }

  lemma ClaimLeavesTimes(log: Log)
    requires Legal(log) && log.Then? && log.entry.Claimed?
    ensures Replay(log).wakeAt <= log.entry.at < NEVER
  {
  }

  lemma NoLeaseUnlessClaimed(log: Log)
    requires Legal(log) && Active(Replay(log)) && !(log.Then? && log.entry.Claimed?)
    ensures LeaseEnd(log) == 0
  {
  }

  /** What the program still does with its time from step `j` on: its sleeps and the timeouts of its waits. */
  function Ahead(src: Source, j: nat): nat
    requires j <= |src.program|
    decreases |src.program| - j
  {
    if j == |src.program| then 0
    else
      var rest := Ahead(src, j + 1);
      match Compile(src.program[j], src.defaultRetry)
      case Nap(ms) => ms + rest
      case Await(_, timeout) => Max(timeout.GetOr(0), 0) + rest
      case _ => rest
  }

  /** Everything still to be slept or waited for is over before the never time. */
  predicate Fits(m: Machine, now: int)
    requires m.pc <= |m.src.program|
  {
    if m.status.Waiting? then
      m.pc < |m.src.program| && Max(now, m.deadline.GetOr(now)) + Ahead(m.src, m.pc + 1) < NEVER
    else Max(now, m.wakeAt) + Ahead(m.src, m.pc) < NEVER
  }

  /** From step `j` on, nothing but sleeps comes before a wait without timeout for a signal that is not there. */
  predicate SleepsIntoWait(src: Source, inbox: seq<Signal>, j: nat)
    requires j <= |src.program|
    decreases |src.program| - j
  {
    j < |src.program|
    && match Compile(src.program[j], src.defaultRetry) {
         case Nap(_) => SleepsIntoWait(src, inbox, j + 1)
         case Await(signal, timeout) => timeout.None? && FirstMatch(inbox, signal).None?
         case _ => false
       }
  }

  predicate Doomed(m: Machine)
    requires m.pc <= |m.src.program|
  {
    |m.inbox| >= MAX_PENDING_SIGNALS && SleepsIntoWait(m.src, m.inbox, m.pc)
  }

  // ---- a doomed run stays doomed ----

  lemma AwaitStaysDoomed(m: Machine, claimedAt: int, at: int)
    requires WellFormed(m) && Active(m) && WaitsAt(m) && Doomed(m)
    requires m.status.Waiting? ==> m.deadline.None?
    ensures var n := PerformAwait(m, InstrAt(m, m.pc), claimedAt, at);
            Active(n) && n.src == m.src && n.pc == m.pc && n.inbox == m.inbox
  {
    hide Compile, StepName, KindOf, FirstMatch;
  }

  lemma DoomStays(m: Machine, e: Entry)
    requires WellFormed(m) && Active(m) && Admissible(m, e) && !e.Stopped? && Doomed(m)
    requires m.status.Waiting? ==> m.deadline.None?
    ensures var n := Next(m, e); Active(n) && n.src == m.src && n.pc <= |n.src.program| && Doomed(n)
  {
    hide Compile, StepName, KindOf, FirstMatch, PerformCall, PerformAwait, SleepRow;
    if e.Performed? && WaitsAt(m) { AwaitStaysDoomed(m, e.claimedAt, e.at); }
  }

  lemma TimeoutGivesDeadline(log: Log)
    requires Legal(log) && Replay(log).status.Waiting?
    ensures WaitsAt(Replay(log))
    ensures Replay(log).deadline.None? <==> InstrAt(Replay(log), Replay(log).pc).timeout.None?
  {
    hide Replay, Legal, Compile, ParkedAt;
    DeadlineIsFixed(log);
  }

  lemma DoomedHasNoDeadline(log: Log)
    requires Legal(log) && Active(Replay(log)) && Replay(log).pc <= |Replay(log).src.program| && Doomed(Replay(log))
    ensures Replay(log).status.Waiting? ==> Replay(log).deadline.None?
  {
    hide Replay, Legal, Compile, FirstMatch;
    if Replay(log).status.Waiting? { TimeoutGivesDeadline(log); }
  }

  // ---- any other run gets closer to its end with each step ----

  /** An activity that returns too much ends the run. */
  const GIVE_UP := ActivityOk(Null, true)

  function Measure(m: Machine): nat
    requires m.pc <= |m.src.program|
  {
    2 * (|m.src.program| - m.pc) + (if m.status.Waiting? then 0 else 1)
  }

  /** What holds of a waiting machine: when it wakes, and that it has a deadline exactly if its step has a timeout. */
  ghost predicate Sound(m: Machine) {
    && WellFormed(m) && WakesInTime(m)
    && (m.status.Waiting? ==>
          && (m.deadline.None? <==> InstrAt(m, m.pc).timeout.None?)
          && (m.wakeAt == m.deadline.GetOr(NEVER) || m.wakeAt <= m.touchedAt))
  }

  lemma WakeTimesOf(m: Machine, e: Entry)
    requires WellFormed(m) && Active(m) && Admissible(m, e) && Next(m, e).status.Waiting?
    requires m.status.Waiting? ==> m.wakeAt == m.deadline.GetOr(NEVER) || m.wakeAt <= m.touchedAt
    ensures var n := Next(m, e); n.wakeAt == n.deadline.GetOr(NEVER) || n.wakeAt <= n.touchedAt
  {
    hide Compile, StepName, KindOf, FirstMatch;
  }

  lemma {:induction false} WaitingWakes(log: Log)
    requires Legal(log) && Replay(log).status.Waiting?
    ensures var m := Replay(log); m.wakeAt == m.deadline.GetOr(NEVER) || m.wakeAt <= m.touchedAt
  {
    hide Next, Admissible;
    if log.Then? {
      LegalIsWellFormed(log.prev);
      if Replay(log.prev).status.Waiting? { WaitingWakes(log.prev); }
      WakeTimesOf(Replay(log.prev), log.entry);
    }
  }

  lemma LegalIsSound(log: Log)
    requires Legal(log)
    ensures Sound(Replay(log))
  {
    hide Replay, Legal, Compile, WakesInTime;
    LegalIsWellFormed(log);
    NoLostWakeup(log);
    if Replay(log).status.Waiting? {
      WaitingWakes(log);
      TimeoutGivesDeadline(log);
    }
  }

  /** The run is over, or it still has time, is still not doomed, and is no farther from its end. */
  predicate Hopeful(m: Machine, n: Machine, now: int)
    requires m.pc <= |m.src.program|
  {
    n.status.Completed? || n.status.Failed?
    || (Active(n) && n.src == m.src && n.pc <= |n.src.program|
        && Fits(n, now) && !Doomed(n) && Measure(n) <= Measure(m))
  }

  lemma CallEnds(m: Machine, at: int)
    requires m.pc < |m.src.program| && InstrAt(m, m.pc).Call?
    ensures PerformCall(m, InstrAt(m, m.pc), at, GIVE_UP).status.Failed?
  {
    hide Compile, StepName, KindOf, FailureRow;
  }

  predicate WaitIsOver(m: Machine, claimedAt: int) {
    m.status.Waiting? && (Matching(m).Some? || (m.deadline.Some? && m.deadline.value <= claimedAt))
  }

  lemma AwaitIsHopeful(m: Machine, claimedAt: int, at: int)
    requires Sound(m) && Active(m) && WaitsAt(m) && m.wakeAt <= claimedAt <= at && Fits(m, at) && !Doomed(m)
    ensures var n := PerformAwait(m, InstrAt(m, m.pc), claimedAt, at);
            && Hopeful(m, n, at)
            && (Active(n) && !(m.status.Waiting? && n.status.Waiting?) ==> Measure(n) < Measure(m))
            && (WaitIsOver(m, claimedAt) ==> !n.status.Waiting?)
  {
    hide Compile, StepName, KindOf, FirstMatch, FailureRow, WaitRow;
  }

  /** One performed step, with whatever activity there is giving up. */
  lemma PerformIsHopeful(m: Machine, claimedAt: int, at: int)
    requires Sound(m) && Active(m) && m.wakeAt <= claimedAt <= at && Fits(m, at) && !Doomed(m)
    ensures var n := Perform(m, claimedAt, at, GIVE_UP);
            && Hopeful(m, n, at)
            && (Active(n) && !(m.status.Waiting? && n.status.Waiting?) ==> Measure(n) < Measure(m))
            && (WaitIsOver(m, claimedAt) ==> !n.status.Waiting?)
  {
    hide Compile, StepName, KindOf, FirstMatch, PerformCall, PerformAwait, SleepRow, GIVE_UP;
    if WaitsAt(m) {
      AwaitIsHopeful(m, claimedAt, at);
    } else if m.pc < |m.src.program| && InstrAt(m, m.pc).Call? {
      CallEnds(m, at);
    }
  }

  // ---- the system ----

  /** The view of a run's last claim is at hand as long as nothing else has happened to the run. */
  ghost predicate Held(w: World) {
    && 0 <= w.now
    && forall id <- w.logs :: w.logs[id].Then? && w.logs[id].entry.Claimed? ==>
         w.logs[id].entry.at <= w.now && HasView(w, id, Length(w.logs[id]))
  }

  ghost predicate HasView(w: World, id: RunId, version: nat) {
    exists v <- w.views :: v.id == id && v.version == version
  }

  lemma ClaimGivesView(w: World, limit: nat, leaseMs: int, at: int, id: RunId)
    requires Inv(w) && at <= w.now && id in w.logs && id in Ids(Chosen(w.runs, limit, at))
    ensures HasView(AfterClaim(w, limit, leaseMs, at), id, Length(w.logs[id]) + 1)
  {
    hide Chosen, Replay, Legal;
    ClaimIsExact(w.runs, limit, at);
    InvAt(w, id);
    var v := ViewOf(Leased(w.runs[id], leaseMs, at), at);
    assert v in AfterClaim(w, limit, leaseMs, at).views;
  }

  lemma ClaimKeepsHeld(w: World, limit: nat, leaseMs: int, at: int)
    requires Inv(w) && Held(w) && at <= w.now
    ensures Held(AfterClaim(w, limit, leaseMs, at))
  {
    hide Inv, Chosen, HasView, LeaseAll, ViewOf;
    var t := AfterClaim(w, limit, leaseMs, at);
    forall id | id in t.logs && t.logs[id].Then? && t.logs[id].entry.Claimed?
      ensures t.logs[id].entry.at <= t.now && HasView(t, id, Length(t.logs[id]))
    {
      if id in Ids(Chosen(w.runs, limit, at)) {
        ClaimGivesView(w, limit, leaseMs, at, id);
      } else {
        MoreViews(w, t, id, Length(w.logs[id]));
      }
    }
  }

  lemma MoreViews(w: World, t: World, id: RunId, version: nat)
    requires w.views <= t.views && HasView(w, id, version)
    ensures HasView(t, id, version)
  {
  }

  lemma StepKeepsHeld(w: World, ev: Event)
    requires Inv(w) && Held(w)
    ensures Held(Step(w, ev))
  {
    hide Inv, HasView, Decide, CommitTo, Deliver, Cancel, Retained, AfterClaim;
    var t := Step(w, ev);
    if ev.ClaimDue? && ev.at <= w.now {
      ClaimKeepsHeld(w, ev.limit, ev.leaseMs, ev.at);
    } else {
      forall id | id in t.logs && t.logs[id].Then? && t.logs[id].entry.Claimed?
        ensures t.logs[id].entry.at <= t.now && HasView(t, id, Length(t.logs[id]))
      {
        assert id in w.logs && t.logs[id] == w.logs[id];
        MoreViews(w, t, id, Length(w.logs[id]));
      }
    }
  }

  lemma {:induction false} HeldReachable(evs: seq<Event>)
    ensures Held(Exec(evs))
  {
    hide Step, Inv;
    if evs == [] {
      NothingIsHeld();
    } else {
      HeldReachable(evs[..|evs| - 1]);
      Reachable(evs[..|evs| - 1]);
      StepKeepsHeld(Exec(evs[..|evs| - 1]), evs[|evs| - 1]);
    }
  }

  lemma NothingIsHeld()
    ensures Held(Init())
  {
  }

  /** A system at work on an unfinished run `id`. */
  ghost predicate Working(w: World, id: RunId) {
    Inv(w) && Held(w) && id in w.runs && id in w.logs && Active(Replay(w.logs[id]))
  }

  /** One step has appended exactly this entry to the run. */
  ghost predicate Appended(w: World, ev: Event, id: RunId, e: Entry) {
    var t := Step(w, ev);
    && id in w.logs && id in t.logs && t.logs[id] == Then(w.logs[id], e)
    && t.now == w.now && Inv(t) && Held(t) && id in t.runs
  }

  lemma StepKeepsBoth(w: World, ev: Event)
    requires Inv(w) && Held(w)
    ensures Inv(Step(w, ev)) && Held(Step(w, ev))
  {
    hide Inv, Held, Step;
    StepKeepsInv(w, ev);
    StepKeepsHeld(w, ev);
  }

  /** The worker that holds the last claim's view commits it. */
  lemma CommitHeld(w: World, id: RunId) returns (ev: Event)
    requires Working(w, id) && w.logs[id].Then? && w.logs[id].entry.Claimed?
    ensures !ev.CancelRun? && w.logs[id].entry.at <= w.now
    ensures Appended(w, ev, id, Performed(w.logs[id].entry.at, w.now, GIVE_UP))
  {
    hide Replay, Legal, Decide, Apply, GIVE_UP;
    var log := w.logs[id];
    assert HasView(w, id, Length(log));
    var v :| v in w.views && v.id == id && v.version == Length(log);
    ev := WorkerCommit(v, GIVE_UP);
    InvAt(w, id);
    ViewIsIssued(w, v);
    StepKeepsBoth(w, ev);
  }

  lemma AllAreChosen(runs: Table, now: int, id: RunId)
    requires id in runs && Due(runs[id], now)
    ensures id in Ids(Chosen(runs, |runs|, now))
  {
    var due := DueIds(runs, now);
    SortedIsSorted(due);
    Subset(due, runs.Keys);
    assert Chosen(runs, |runs|, now) == Sorted(due);
  }

  lemma {:induction false} Subset(a: set<RunId>, b: set<RunId>)
    requires a <= b
    ensures |a| <= |b|
  {
    if a != {} {
      var x :| x in a;
      Subset(a - {x}, b - {x});
    }
  }

  lemma ClaimNow(w: World, id: RunId) returns (ev: Event)
    requires Working(w, id) && Replay(w.logs[id]).wakeAt <= w.now && LeaseEnd(w.logs[id]) <= w.now
    ensures !ev.CancelRun? && Appended(w, ev, id, Claimed(w.now, 0))
  {
    hide Replay, Legal, Chosen;
    ev := ClaimDue(|w.runs|, 0, w.now);
    InvAt(w, id);
    AllAreChosen(w.runs, w.now, id);
    StepKeepsBoth(w, ev);
  }

  lemma DeliverNow(w: World, id: RunId, signal: Signal) returns (ev: Event)
    requires Working(w, id) && |Replay(w.logs[id]).inbox| < MAX_PENDING_SIGNALS
    ensures !ev.CancelRun? && Appended(w, ev, id, Delivered(signal, w.now))
  {
    hide Replay, Legal;
    ev := DeliverSignal(id, signal);
    InvAt(w, id);
    StepKeepsBoth(w, ev);
  }

  lemma WaitUntil(w: World, id: RunId, time: int) returns (ev: Event)
    requires Working(w, id) && w.now <= time < NEVER
    ensures !ev.CancelRun?
    ensures var t := Step(w, ev); Working(t, id) && t.logs == w.logs && t.now == time
  {
    hide Replay, Legal, Inv, Held;
    ev := Tick(time - w.now);
    StepKeepsBoth(w, ev);
    TickSteps(w, time - w.now);
  }

  lemma TickSteps(w: World, ms: nat)
    requires w.now + ms < NEVER
    ensures Step(w, Tick(ms)) == w.(now := w.now + ms)
  {
  }

  // ---- driving a run to its end ----

  /** The run can still be driven to its end. */
  ghost predicate Promising(w: World, id: RunId) {
    id in w.logs && Working(w, id) && HasHope(Replay(w.logs[id]), w.now)
  }

  predicate HasHope(m: Machine, now: int) {
    m.pc <= |m.src.program| && Fits(m, now) && !Doomed(m)
  }

  predicate Unclaimed(log: Log) {
    !(log.Then? && log.entry.Claimed?)
  }

  ghost predicate Ended(w: World, id: RunId) {
    Inv(w) && id in w.runs && id in w.logs && !Active(Replay(w.logs[id]))
  }

  predicate NoCancel(evs: seq<Event>) {
    forall ev <- evs :: !ev.CancelRun?
  }

  lemma {:induction false} PlayConcat(w: World, a: seq<Event>, b: seq<Event>)
    ensures Play(w, a + b) == Play(Play(w, a), b)
  {
    hide Step;
    if b == [] {
      assert a + b == a;
    } else {
      PlayConcat(w, a, b[..|b| - 1]);
      assert (a + b)[..|a + b| - 1] == a + b[..|b| - 1];
    }
  }

  lemma PlayFirst(w: World, ev: Event, rest: seq<Event>)
    ensures Play(w, [ev] + rest) == Play(Step(w, ev), rest)
  {
    hide Step;
    PlayConcat(w, [ev], rest);
    assert [ev][..0] == [];
  }

  function Distance(m: Machine): nat {
    if m.pc <= |m.src.program| then Measure(m) else 0
  }

  /** The run has ended, or it can still be driven there and is at most this far from its end. */
  ghost predicate Within(w: World, id: RunId, distance: int) {
    Ended(w, id) || (Promising(w, id) && Unclaimed(w.logs[id]) && Distance(Replay(w.logs[id])) <= distance)
  }

  /** The next step will leave the current place for good. */
  predicate StepsOn(m: Machine, claimedAt: int) {
    m.status.Waiting? ==> WaitIsOver(m, claimedAt)
  }

  lemma LogIsSound(w: World, id: RunId)
    requires Inv(w) && id in w.logs
    ensures Legal(w.logs[id]) && Sound(Replay(w.logs[id])) && Replay(w.logs[id]).touchedAt <= w.now
    ensures !Unclaimed(w.logs[id]) ==> Replay(w.logs[id]).wakeAt <= w.logs[id].entry.at
    ensures Active(Replay(w.logs[id])) && Unclaimed(w.logs[id]) ==> LeaseEnd(w.logs[id]) == 0
  {
    hide Replay, Sound, LeaseEnd;
    var log := w.logs[id];
    LegalIsSound(log);
    if !Unclaimed(log) { ClaimLeavesTimes(log); } else if Active(Replay(log)) { NoLeaseUnlessClaimed(log); }
  }

  lemma HopefulIsNearer(m: Machine, n: Machine, now: int)
    requires m.pc <= |m.src.program| && Hopeful(m, n, now)
    ensures !Active(n) || (HasHope(n, now) && Distance(n) <= Distance(m))
  {
    hide Fits, Doomed, Measure;
  }

  lemma StepsOnIsNearer(m: Machine, claimedAt: int, at: int)
    requires Sound(m) && Active(m) && m.wakeAt <= claimedAt <= at && HasHope(m, at)
    ensures var n := Perform(m, claimedAt, at, GIVE_UP);
            && (!Active(n) || (HasHope(n, at) && Distance(n) <= Distance(m)))
            && (Active(n) && StepsOn(m, claimedAt) ==> Distance(n) < Distance(m))
  {
    hide Perform, Fits, Doomed, Measure, GIVE_UP, Sound, WaitIsOver;
    PerformIsHopeful(m, claimedAt, at);
    HopefulIsNearer(m, Perform(m, claimedAt, at, GIVE_UP), at);
  }

  /** Commit what is claimed: the run is over, or it is no farther from its end, and nearer if the step moves on. */
  lemma SettleClaim(w: World, id: RunId) returns (ev: Event)
    requires Promising(w, id) && !Unclaimed(w.logs[id])
    ensures !ev.CancelRun?
    ensures Within(Step(w, ev), id, Distance(Replay(w.logs[id])))
    ensures StepsOn(Replay(w.logs[id]), w.logs[id].entry.at) ==>
              Within(Step(w, ev), id, Distance(Replay(w.logs[id])) - 1)
  {
    hide Inv, Held, Step, Legal, Perform, GIVE_UP, HasHope, Sound, StepsOn, Distance;
    var log := w.logs[id];
    ev := CommitHeld(w, id);
    LogIsSound(w, id);
    StepsOnIsNearer(Replay(log), log.entry.at, w.now);
  }

  /** A signal that its wait can use leaves a run with time and hope, and due at once. */
  lemma SignalKeepsHope(m: Machine, signal: Signal, now: int)
    requires Sound(m) && Active(m) && HasHope(m, now) && WaitsAt(m) && Matching(m).None? && m.touchedAt <= now
    requires |m.inbox| < MAX_PENDING_SIGNALS && signal.name == Str(InstrAt(m, m.pc).signal)
    ensures var n := Next(m, Delivered(signal, now));
            && HasHope(n, now) && Active(n) && Distance(n) == Distance(m)
            && WaitsAt(n) && Matching(n).Some? && n.wakeAt == now
  {
    hide Compile, Ahead;
    var n := Next(m, Delivered(signal, now));
    assert n.inbox[|m.inbox|] == signal;
    assert Named(n.inbox, InstrAt(m, m.pc).signal, |m.inbox|);
  }

  /** When the next claim of an unclaimed run should come: as soon as it is due, or at its deadline. */
  function ClaimTime(m: Machine, now: int): int {
    if m.status.Waiting? && Matching(m).None? then Max(now, m.deadline.GetOr(now)) else Max(now, m.wakeAt)
  }

  lemma ClaimTimeIsReached(m: Machine, now: int)
    requires Sound(m) && Active(m) && HasHope(m, now) && m.touchedAt <= now < NEVER
    requires WaitsAt(m) && Matching(m).None? ==> |m.inbox| >= MAX_PENDING_SIGNALS
    ensures var time := ClaimTime(m, now);
            now <= time < NEVER && m.wakeAt <= time && StepsOn(m, time) && HasHope(m, time)
  {
    hide Compile, Ahead, FirstMatch;
  }

  /** Claim an unclaimed run whose time has come, and let it take that step. */
  lemma ClaimThenSettle(w: World, id: RunId) returns (claim: Event, commit: Event)
    requires Promising(w, id) && Unclaimed(w.logs[id])
    requires Replay(w.logs[id]).wakeAt <= w.now && StepsOn(Replay(w.logs[id]), w.now)
    ensures !claim.CancelRun? && !commit.CancelRun?
    ensures Within(Step(Step(w, claim), commit), id, Distance(Replay(w.logs[id])) - 1)
  {
    hide Step, Legal, HasHope, Sound, StepsOn, Distance, Inv, Held, Replay, Next, LeaseEnd;
    PromisingFacts(w, id);
    claim := ClaimNow(w, id);
    ReplayThen(w.logs[id], Claimed(w.now, 0));
    ClaimedKeepsHope(Replay(w.logs[id]), w.now, w.now);
    commit := SettleClaim(Step(w, claim), id);
  }

  lemma ClaimAndSettle(w: World, id: RunId) returns (evs: seq<Event>)
    requires Promising(w, id) && Unclaimed(w.logs[id])
    requires var m := Replay(w.logs[id]); WaitsAt(m) && Matching(m).None? ==> |m.inbox| >= MAX_PENDING_SIGNALS
    ensures NoCancel(evs) && Within(Play(w, evs), id, Distance(Replay(w.logs[id])) - 1)
  {
    hide Step, Legal, HasHope, Sound, StepsOn, Distance, WaitsAt, Matching, ClaimTime, Inv, Held, Replay, Working,
      LeaseEnd;
    PromisingFacts(w, id);
    var m := Replay(w.logs[id]);
    var time := ClaimTime(m, w.now);
    ClaimTimeIsReached(m, w.now);
    var tick := WaitUntil(w, id, time);
    var claim, commit := ClaimThenSettle(Step(w, tick), id);
    evs := [tick, claim, commit];
    ThreeEvents(w, tick, claim, commit);
  }

  lemma PromisingFacts(w: World, id: RunId)
    requires Promising(w, id)
    ensures Working(w, id) && 0 <= w.now < NEVER
    ensures var m := Replay(w.logs[id]); Sound(m) && Active(m) && HasHope(m, w.now) && m.touchedAt <= w.now
    ensures Unclaimed(w.logs[id]) ==> LeaseEnd(w.logs[id]) == 0
  {
    hide Replay, Sound, LeaseEnd, HasHope, Legal;
    InvBounds(w);
    LogIsSound(w, id);
  }

  lemma InvBounds(w: World)
    requires Inv(w) && Held(w)
    ensures 0 <= w.now < NEVER
  {
  }

  lemma ReplayThen(log: Log, e: Entry)
    ensures Replay(Then(log, e)) == Next(Replay(log), e)
  {
  }

  /** A claim changes nothing that matters here. */
  lemma ClaimedKeepsHope(m: Machine, time: int, now: int)
    requires Active(m) && HasHope(m, now) && StepsOn(m, time)
    ensures var n := Next(m, Claimed(time, 0));
            Active(n) && HasHope(n, now) && StepsOn(n, time) && Distance(n) == Distance(m)
  {
    hide Compile, Ahead, FirstMatch;
  }

  lemma ThreeEvents(w: World, a: Event, b: Event, c: Event)
    ensures Play(w, [a, b, c]) == Step(Step(Step(w, a), b), c)
  {
    hide Step;
    assert [a, b, c] == [a] + ([b] + [c]) && [c] == [c] + [];
    PlayFirst(w, a, [b] + [c]);
    PlayFirst(Step(w, a), b, [c]);
    PlayFirst(Step(Step(w, a), b), c, []);
  }

  /** An unclaimed run takes one step towards its end, after the signal it waits for if there is room for it. */
  lemma DriveOnce(w: World, id: RunId) returns (evs: seq<Event>)
    requires Promising(w, id) && Unclaimed(w.logs[id])
    ensures NoCancel(evs) && Within(Play(w, evs), id, Distance(Replay(w.logs[id])) - 1)
  {
    hide Step, Legal, HasHope, Sound, Distance, WaitsAt, Matching, Inv, Held, Compile;
    var m := Replay(w.logs[id]);
    if WaitsAt(m) && Matching(m).None? && |m.inbox| < MAX_PENDING_SIGNALS {
      LogIsSound(w, id);
      WaitsAtAwait(m);
      var signal := Signal(Str(InstrAt(m, m.pc).signal), Null);
      var deliver := DeliverNow(w, id, signal);
      SignalKeepsHope(m, signal, w.now);
      hide Replay;
      ReplayThen(w.logs[id], Delivered(signal, w.now));
      var rest := ClaimAndSettle(Step(w, deliver), id);
      evs := [deliver] + rest;
      PlayFirst(w, deliver, rest);
    } else {
      evs := ClaimAndSettle(w, id);
    }
  }

  lemma WaitsAtAwait(m: Machine)
    requires WaitsAt(m)
    ensures m.pc < |m.src.program| && InstrAt(m, m.pc).Await?
  {
    hide Compile;
  }

  lemma {:induction false} DriveToEnd(w: World, id: RunId) returns (evs: seq<Event>)
    requires Promising(w, id) && Unclaimed(w.logs[id])
    ensures NoCancel(evs) && Ended(Play(w, evs), id)
    decreases Distance(Replay(w.logs[id]))
  {
    hide Step, Legal, HasHope, Distance, Working, Replay, Unclaimed, Ended;
    evs := DriveOnce(w, id);
    if !Ended(Play(w, evs), id) {
      DistanceIsNat(Replay(w.logs[id]));
      var rest := DriveToEnd(Play(w, evs), id);
      PlayConcat(w, evs, rest);
      evs := evs + rest;
    }
  }

  lemma DistanceIsNat(m: Machine)
    ensures Distance(m) >= 0
  {
  }

  /** From any promising state some events other than a cancellation end the run. */
  lemma PromiseIsKept(w: World, id: RunId) returns (evs: seq<Event>)
    requires Promising(w, id)
    ensures NoCancel(evs) && Ended(Play(w, evs), id)
  {
    hide Step, Legal, HasHope, Distance, Inv, Held, Replay, StepsOn, Ended, Working;
    if Unclaimed(w.logs[id]) {
      evs := DriveToEnd(w, id);
    } else {
      var commit := SettleClaim(w, id);
      var rest := [];
      if !Ended(Step(w, commit), id) { rest := DriveToEnd(Step(w, commit), id); }
      evs := [commit] + rest;
      PlayFirst(w, commit, rest);
    }
  }

  // ---- a doomed or blocked run never ends by itself ----

  lemma StepAppends(w: World, ev: Event, id: RunId)
    requires id in w.logs
    ensures id in Step(w, ev).logs
    ensures var log := Step(w, ev).logs[id];
            log == w.logs[id] || (log.Then? && log.prev == w.logs[id] && (log.entry.Stopped? ==> ev == CancelRun(id)))
  {
    hide Decide, Apply, Chosen;
  }

  lemma DoomedStep(w: World, ev: Event, id: RunId)
    requires Inv(w) && id in w.logs && Active(Replay(w.logs[id])) && ev != CancelRun(id)
    requires Replay(w.logs[id]).pc <= |Replay(w.logs[id]).src.program| && Doomed(Replay(w.logs[id]))
    ensures var t := Step(w, ev);
            && Inv(t) && id in t.logs && Active(Replay(t.logs[id]))
            && Replay(t.logs[id]).pc <= |Replay(t.logs[id]).src.program| && Doomed(Replay(t.logs[id]))
  {
    hide Step, Doomed, Next, Inv, Admissible;
    StepKeepsInv(w, ev);
    StepAppends(w, ev, id);
    var log, log' := w.logs[id], Step(w, ev).logs[id];
    if log' != log {
      InvLegal(Step(w, ev), id);
      NextIsAdmissible(log, log'.entry);
      LegalIsWellFormed(log);
      DoomedHasNoDeadline(log);
      DoomStays(Replay(log), log'.entry);
    }
  }

  lemma InvLegal(w: World, id: RunId)
    requires Inv(w) && id in w.logs
    ensures Legal(w.logs[id]) && (Active(Replay(w.logs[id])) ==> id in w.runs)
  {
    hide Replay, Legal;
  }

  lemma {:induction false} DoomedPlay(w: World, more: seq<Event>, id: RunId)
    requires Inv(w) && id in w.logs && Active(Replay(w.logs[id])) && CancelRun(id) !in more
    requires Replay(w.logs[id]).pc <= |Replay(w.logs[id]).src.program| && Doomed(Replay(w.logs[id]))
    ensures var t := Play(w, more);
            && Inv(t) && id in t.logs && Active(Replay(t.logs[id]))
            && Replay(t.logs[id]).pc <= |Replay(t.logs[id]).src.program| && Doomed(Replay(t.logs[id]))
  {
    hide Step, Doomed, Inv, Replay;
    if more != [] {
      DoomedPlay(w, more[..|more| - 1], id);
      assert more[|more| - 1] in more;
      DoomedStep(Play(w, more[..|more| - 1]), more[|more| - 1], id);
    }
  }

  lemma NoCancelMeans(evs: seq<Event>, id: RunId)
    requires NoCancel(evs)
    ensures CancelRun(id) !in evs
  {
  }

  ghost predicate CanEnd(w: World, id: RunId) {
    exists more :: CancelRun(id) !in more && id in Play(w, more).runs && Terminal(Play(w, more).runs[id].status)
  }

  /**
   * A run that has time left can still complete or fail if and only if it is not doomed: unless its inbox is full and
   * nothing but sleeps comes before a wait without timeout for a signal that is not in it.
   */
  lemma CanEndExactlyUnlessDoomed(evs: seq<Event>, id: RunId)
    requires id in Exec(evs).runs && !Terminal(Exec(evs).runs[id].status)
    requires var r := Exec(evs).runs[id]; r.currentStepIndex <= |r.steps| && Fits(MachineOf(r), Exec(evs).now)
    ensures CanEnd(Exec(evs), id) <==> !Doomed(MachineOf(Exec(evs).runs[id]))
  {
    hide Exec, Step, Doomed, Fits, Replay, Legal, Play, GIVE_UP;
    var w := Exec(evs);
    Reachable(evs);
    HeldReachable(evs);
    InvAt(w, id);
    if Doomed(MachineOf(w.runs[id])) {
      forall more | CancelRun(id) !in more
        ensures !(id in Play(w, more).runs && Terminal(Play(w, more).runs[id].status))
      {
        DoomedPlay(w, more, id);
        if id in Play(w, more).runs { InvAt(Play(w, more), id); }
      }
    } else {
      var more := PromiseIsKept(w, id);
      InvAt(Play(w, more), id);
      NoCancelMeans(more, id);
    }
  }

  lemma {:induction false} BlockedPlay(w: World, more: seq<Event>, id: RunId)
    requires Inv(w) && id in w.logs && Active(Replay(w.logs[id])) && Blocked(Replay(w.logs[id]))
    requires CancelRun(id) !in more
    ensures Inv(Play(w, more)) && id in Play(w, more).logs && Play(w, more).logs[id] == w.logs[id]
  {
    hide Step, Blocked, Inv, Replay, Legal;
    if more != [] {
      var init, ev := more[..|more| - 1], more[|more| - 1];
      BlockedPlay(w, init, id);
      assert ev in more;
      StepKeepsInv(Play(w, init), ev);
      StepAppends(Play(w, init), ev, id);
      InvLegal(w, id);
      InvLegal(Step(Play(w, init), ev), id);
      NothingFollowsBlocked(w.logs[id]);
    }
  }

  /** Nothing but a cancellation ever changes a blocked run again. */
  lemma BlockedRunNeverMoves(evs: seq<Event>, more: seq<Event>, id: RunId)
    requires id in Exec(evs).runs && !Terminal(Exec(evs).runs[id].status) && CancelRun(id) !in more
    requires Blocked(MachineOf(Exec(evs).runs[id]))
    ensures id in Play(Exec(evs), more).runs && Play(Exec(evs), more).runs[id] == Exec(evs).runs[id]
  {
    hide Exec, Step, Replay, Legal, Play, Blocked;
    var w := Exec(evs);
    Reachable(evs);
    InvAt(w, id);
    BlockedPlay(w, more, id);
    InvLegal(Play(w, more), id);
    InvAt(Play(w, more), id);
  }

  /** Within its time, a blocked run is one that waits without deadline for a signal that is not in its full inbox. */
  lemma BlockedRunsWait(evs: seq<Event>, id: RunId)
    requires id in Exec(evs).runs && !Terminal(Exec(evs).runs[id].status)
    requires var r := Exec(evs).runs[id]; r.currentStepIndex <= |r.steps| && Fits(MachineOf(r), Exec(evs).now)
    ensures var r := Exec(evs).runs[id];
            Blocked(MachineOf(r)) <==>
              && r.status.Waiting? && r.waitDeadlineMs.None? && r.nextRunAtMs == NEVER
              && |r.signals| == MAX_PENDING_SIGNALS
    ensures Blocked(MachineOf(Exec(evs).runs[id])) ==> Doomed(MachineOf(Exec(evs).runs[id]))
  {
    hide Exec, Replay, Legal, Compile, FirstMatch, Ahead;
    var w := Exec(evs);
    Reachable(evs);
    InvAt(w, id);
    LegalIsSound(w.logs[id]);
  }

  // ---- how a run gets doomed ----

  /** A run is created, and then receives the same signal over and over. */
  function Flooded(id: RunId, steps: seq<Json>, signal: Signal, times: nat): seq<Event> {
    if times == 0 then [CreateRun(id, steps, Null, Null, None, 0)]
    else Flooded(id, steps, signal, times - 1) + [DeliverSignal(id, signal)]
  }

  function Copies(signal: Signal, times: nat): seq<Signal> {
    if times == 0 then [] else Copies(signal, times - 1) + [signal]
  }

  lemma {:induction false} CopiesMatchNothing(signal: Signal, times: nat, name: string)
    requires signal.name != Str(name)
    ensures |Copies(signal, times)| == times && FirstMatch(Copies(signal, times), name).None?
    ensures forall i :: 0 <= i < times ==> Copies(signal, times)[i] == signal
  {
    if times > 0 { CopiesMatchNothing(signal, times - 1, name); }
    assert forall i :: 0 <= i < times ==> !Named(Copies(signal, times), name, i);
  }

  ghost predicate Waterline(w: World, id: RunId, steps: seq<Json>, signals: seq<Signal>) {
    id in w.runs && w.runs[id].status.Pending? && w.runs[id].currentStepIndex == 0
    && w.runs[id].steps == steps && w.runs[id].defaultRetry == Null && w.runs[id].signals == signals
  }

  lemma FirstEvent(ev: Event)
    ensures Exec([ev]) == Step(Init(), ev)
  {
    hide Step;
    PlayFirst(Init(), ev, []);
    assert [ev] + [] == [ev];
  }

  lemma CreationFills(id: RunId, steps: seq<Json>)
    requires steps != []
    ensures Waterline(Step(Init(), CreateRun(id, steps, Null, Null, None, 0)), id, steps, [])
  {
  }

  lemma SignalFills(w: World, id: RunId, steps: seq<Json>, signals: seq<Signal>, signal: Signal)
    requires Waterline(w, id, steps, signals) && |signals| < MAX_PENDING_SIGNALS
    ensures Waterline(Step(w, DeliverSignal(id, signal)), id, steps, signals + [signal])
  {
  }

  lemma {:induction false} FloodFills(id: RunId, steps: seq<Json>, signal: Signal, times: nat, name: string)
    requires steps != [] && times <= MAX_PENDING_SIGNALS && signal.name != Str(name)
    ensures Waterline(Exec(Flooded(id, steps, signal, times)), id, steps, Copies(signal, times))
  {
    hide Step, Waterline;
    var evs := Flooded(id, steps, signal, times);
    if times == 0 {
      FirstEvent(evs[0]);
      assert evs == [evs[0]];
      CreationFills(id, steps);
    } else {
      FloodFills(id, steps, signal, times - 1, name);
      CopiesMatchNothing(signal, times - 1, name);
      assert evs[..|evs| - 1] == Flooded(id, steps, signal, times - 1);
      SignalFills(Exec(evs[..|evs| - 1]), id, steps, Copies(signal, times - 1), signal);
    }
  }

  /** Any program that begins with a wait without timeout is doomed by 1024 signals of any other name. */
  lemma OtherSignalsDoom(id: RunId, steps: seq<Json>, signal: Signal)
    requires steps != [] && Compile(steps[0], Null).Await? && Compile(steps[0], Null).timeout.None?
    requires signal.name != Str(Compile(steps[0], Null).signal)
    ensures var w := Exec(Flooded(id, steps, signal, MAX_PENDING_SIGNALS));
            && id in w.runs && !Terminal(w.runs[id].status) && w.runs[id].currentStepIndex <= |w.runs[id].steps|
            && Doomed(MachineOf(w.runs[id]))
  {
    hide Exec, Flooded, Compile, FirstMatch;
    FloodFills(id, steps, signal, MAX_PENDING_SIGNALS, Compile(steps[0], Null).signal);
    CopiesMatchNothing(signal, MAX_PENDING_SIGNALS, Compile(steps[0], Null).signal);
  }
}
