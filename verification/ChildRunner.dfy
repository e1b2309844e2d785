/** The table of warm workers: one method per critical section of the pool's lock. */
module ChildRunner {
  import opened Wrappers

  /** Identifies a worker's channel; a clone of the channel still names the same worker. */
  type WorkerId = nat

  datatype Slot = Slot(command: string, worker: WorkerId, idleMs: nat, lastUsed: int)

  type Slots = map<string, Slot>

  predicate Reusable(slots: Slots, command: string, key: string, alive: set<WorkerId>) {
    key in slots && slots[key].command == command && slots[key].worker in alive
  }

  /** Idle past its window, on a clock that never counts below zero, or its child is gone. */
  predicate Expired(slot: Slot, alive: set<WorkerId>, now: int) {
    slot.worker !in alive || (if now < slot.lastUsed then 0 else now - slot.lastUsed) > slot.idleMs
  }

  /** What one reap leaves in the table. */
  function Reaped(slots: Slots, alive: set<WorkerId>, now: int): Slots {
    map key | key in slots && !Expired(slots[key], alive, now) :: slots[key]
  }

  function Without(slots: Slots, keys: set<string>): Slots {
    slots - keys
  }

  class ChildRunner {
    var workers: Slots
    var destroys: nat

    constructor ()
      ensures workers == map[] && destroys == 0
    {
      workers, destroys := map[], 0;
    }

    /** The first half of `ensure_worker`: a live worker with the same command is reused, any other is dropped. */
    method TryReuse(command: string, key: string, alive: set<WorkerId>, now: int) returns (tx: Option<WorkerId>)
      modifies this
      ensures destroys == old(destroys)
      ensures tx.Some? <==> Reusable(old(workers), command, key, alive)
      ensures tx.Some? <==>
        key in old(workers) && old(workers)[key].command == command && old(workers)[key].worker in alive
      ensures tx.Some? ==> tx.value == old(workers)[key].worker
      ensures tx.Some? ==> workers == old(workers)[key := old(workers)[key].(lastUsed := now)]
      ensures tx.None? ==> workers == old(workers) - {key}
    {
      if key in workers {
        var w := workers[key];
        if w.command == command && w.worker in alive {
          workers := workers[key := w.(lastUsed := now)];
          return Some(w.worker);
        }
        workers := workers - {key};
      }
      tx := None;
    }

    /** The second half: the freshly spawned worker takes the slot, whoever holds it by now. */
    method InsertSpawned(command: string, key: string, idleMs: nat, worker: WorkerId, now: int)
      modifies this
      ensures workers == old(workers)[key := Slot(command, worker, idleMs, now)] && destroys == old(destroys)
    {
      workers := workers[key := Slot(command, worker, idleMs, now)];
    }

    method UpdateLastUsed(key: string, now: int)
      modifies this
      ensures destroys == old(destroys)
      ensures workers ==
        if key in old(workers) then old(workers)[key := old(workers)[key].(lastUsed := now)] else old(workers)
    {
      if key in workers {
        workers := workers[key := workers[key].(lastUsed := now)];
      }
    }

    method DeleteWorker(key: string)
      modifies this
      ensures workers == old(workers) - {key} && destroys == old(destroys)
    {
      workers := workers - {key};
    }

    method Destroy(key: string) returns (found: bool)
      modifies this
      ensures found <==> key in old(workers)
      ensures workers == old(workers) - {key} && destroys == old(destroys) + (if found then 1 else 0)
    {
      found := key in workers;
      if found {
        workers := workers - {key};
        destroys := destroys + 1;
      }
    }

    /** Collect the keys of expired workers, then remove them one by one, counting each. */
    method ReapIdle(alive: set<WorkerId>, now: int)
      modifies this
      ensures workers == Reaped(old(workers), alive, now)
      ensures forall key <- old(workers) ::
                var slot := old(workers)[key];
                key !in workers <==> slot.worker !in alive || now - slot.lastUsed > slot.idleMs
      ensures forall key <- workers :: key in old(workers) && workers[key] == old(workers)[key]
      ensures destroys == old(destroys) + |old(workers).Keys - workers.Keys|
    {
      hide Expired, Reaped, Without;
      var dead := set key | key in workers && Expired(workers[key], alive, now);
      ghost var start := workers;
      var rest := dead;
      NothingRemoved(start, dead);
      while rest != {}
        invariant rest <= dead && dead <= start.Keys
        invariant workers == Without(start, dead - rest)
        invariant destroys + |rest| == old(destroys) + |dead|
        decreases |rest|
      {
        var key :| key in rest;
        RemoveOneMore(start, dead, rest, key);
        workers := workers - {key};
        destroys := destroys + 1;
        rest := rest - {key};
      }
      assert dead - rest == dead;
      RemovingDeadIsReaping(start, dead, alive, now);
      ReapedMeans(start, alive, now);
    }
  }

  lemma NothingRemoved(start: Slots, dead: set<string>)
    ensures Without(start, dead - dead) == start
  {
  }

  lemma ReapedMeans(start: Slots, alive: set<WorkerId>, now: int)
    ensures forall key <- start ::
              key !in Reaped(start, alive, now) <==>
                start[key].worker !in alive || now - start[key].lastUsed > start[key].idleMs
    ensures forall key <- Reaped(start, alive, now) :: key in start && Reaped(start, alive, now)[key] == start[key]
  {
  }

  lemma RemovingDeadIsReaping(start: Slots, dead: set<string>, alive: set<WorkerId>, now: int)
    requires dead == set key | key in start && Expired(start[key], alive, now)
    ensures Without(start, dead) == Reaped(start, alive, now)
    ensures start.Keys - Without(start, dead).Keys == dead
  {
  }

  lemma RemoveOneMore(start: Slots, dead: set<string>, rest: set<string>, key: string)
    requires rest <= dead <= start.Keys && key in rest
    ensures Without(start, dead - rest) - {key} == Without(start, dead - (rest - {key}))
    ensures |rest - {key}| == |rest| - 1
  {
    assert dead - (rest - {key}) == (dead - rest) + {key};
  }
}
