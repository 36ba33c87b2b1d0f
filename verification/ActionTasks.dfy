/** The action runtime as the shared object its tasks update: the busy set, the semaphore, the tasks. */
module ActionTasks {
  import opened Basics
  import opened ActionRuntime

  class EdgeActions {
    const cfg: Config
    var registry: Registry
    var now: nat
    var busy: set<string>
    var permits: nat
    var queue: seq<nat>
    var tasks: map<nat, Task>
    var nextId: nat
    ghost var trace: seq<Event>

    ghost function View(): State
      reads this
    {
      State(cfg, registry, now, busy, permits, queue, tasks, nextId)
    }

    /** Every object is the state of a run, so whatever holds in every run holds of it. */
    ghost predicate Valid()
      reads this
    {
      View() == Run(cfg, trace)
    }

    constructor (cfg: Config)
      ensures Valid() && View() == Init(cfg)
    {
      this.cfg := cfg;
      registry, now, busy, permits, queue, tasks, nextId := map[], 0, {}, Slots(cfg), [], map[], 0;
      trace := [];
    }

    ghost method Log(e: Event)
      requires Valid()
      modifies this`trace
      ensures trace == old(trace) + [e]
      ensures Run(cfg, trace) == Step(View(), e)
    {
      AfterSnoc(Init(cfg), trace, e);
      trace := trace + [e];
    }

    /** A task that does not wait is not in the queue. */
    lemma NotWaiting(id: nat)
      requires Valid() && id in tasks && !tasks[id].phase.WaitingSlot?
      ensures Without(queue, id) == queue
    {
      RunInv(cfg, trace);
      NotQueued(queue, id);
    }

    /** Take the lock of a device, unless it is taken. */
    method Acquire(key: string) returns (acquired: bool)
      modifies this`busy
      ensures acquired == (key !in old(busy))
      ensures busy == (if acquired then old(busy) + {key} else old(busy))
    {
      acquired := key !in busy;
      if acquired {
        busy := busy + {key};
      }
    }

    /** The lock guard is dropped. */
    method Unlock(key: string)
      modifies this`busy
      ensures busy == old(busy) - {key}
    {
      busy := busy - {key};
    }

    method Spawn(t: Task)
      modifies this`tasks, this`nextId
      ensures tasks == old(tasks)[old(nextId) := t] && nextId == old(nextId) + 1
    {
      tasks := tasks[nextId := t];
      nextId := nextId + 1;
    }

    /** The request is turned down. */
    method TurnDown(key: string)
      modifies this`tasks, this`nextId
      ensures View() == Refuse(old(View()), key)
    {
      Spawn(Task(key, Services, now, now, Rejected, Some(Reply(now, false))));
    }

    /** The action begins under its lock, with its delay or in the queue for a slot. */
    method Begin(key: string, plan: Plan)
      requires key in busy
      modifies this`tasks, this`nextId, this`queue
      ensures View() == Admit(old(View()), key, plan)
    {
      var phase;
      if plan.Reset? && plan.delaySecs > 0 {
        phase := Delaying(now + plan.delaySecs);
      } else {
        phase := WaitingSlot(now + Timeout(cfg));
        queue := queue + [nextId];
      }
      Spawn(Task(key, plan, now, now, phase, None));
      assert busy == busy + {key};
    }

    /** Taking the lock first makes no difference. */
    lemma LockedFirst(s: State, key: string, plan: Plan)
      ensures Admit(s.(busy := s.busy + {key}), key, plan) == Admit(s, key, plan)
    {
      assert s.busy + {key} + {key} == s.busy + {key};
    }

    method Enter(r: Request)
      modifies this`busy, this`tasks, this`nextId, this`queue
      ensures View() == ExecuteStep(old(View()), r)
    {
      var plan := PlanOf(cfg, registry, r);
      var key := LockKey(cfg.edgeId, registry, r.deviceId);
      if plan.Err? {
        TurnDown(key);
        return;
      }
      var locked := Acquire(key);
      if locked {
        LockedFirst(old(View()), key, plan.value);
        Begin(key, plan.value);
      } else {
        TurnDown(key);
      }
    }

    /** The synchronous start of an action, up to its first await. */
    method Start(r: Request) returns (id: nat)
      requires Valid()
      modifies this
      ensures Valid() && trace == old(trace) + [Execute(r)]
      ensures View() == Step(old(View()), Execute(r))
      ensures id == old(nextId) && id in tasks
      ensures tasks[id].phase.Delaying? ==>
                r.actionType.PowerCycle? && tasks[id].phase.until == now + ParseDelay(r.delay) > now
      ensures tasks[id].phase.WaitingSlot? ==>
                queue == old(queue) + [id] && (r.actionType.PowerCycle? ==> ParseDelay(r.delay) == 0)
    {
      Log(Execute(r));
      id := nextId;
      Enter(r);
      OnlyPowerCyclesWait(old(View()), r, View());
    }

    lemma PlannedDelay(cfg: Config, registry: Registry, r: Request, delay: nat)
      requires PlanOf(cfg, registry, r).Ok? && delay == ParseDelay(r.delay)
      ensures PlanOf(cfg, registry, r).value.Reset? ==>
                PlanOf(cfg, registry, r).value.delaySecs == if r.actionType.PowerCycle? then delay else 0
      ensures r.actionType.PowerCycle? ==> PlanOf(cfg, registry, r).value.Reset?
    {
    }

    lemma AdmittedPhase(s: State, key: string, plan: Plan, t: State)
      requires t == Admit(s, key, plan)
      ensures s.nextId in t.tasks && t.now == s.now
      ensures t.tasks[s.nextId].phase ==
              if plan.Reset? && plan.delaySecs > 0 then Delaying(s.now + plan.delaySecs)
              else WaitingSlot(s.now + Timeout(s.cfg))
      ensures t.tasks[s.nextId].phase.WaitingSlot? ==> t.queue == s.queue + [s.nextId]
    {
    }

    lemma OnlyPowerCyclesWait(s: State, r: Request, t: State)
      requires t == ExecuteStep(s, r)
      ensures s.nextId in t.tasks && t.now == s.now
      ensures t.tasks[s.nextId].phase.Delaying? ==>
                r.actionType.PowerCycle? && t.tasks[s.nextId].phase.until == s.now + ParseDelay(r.delay) > s.now
      ensures t.tasks[s.nextId].phase.WaitingSlot? ==>
                t.queue == s.queue + [s.nextId] && (r.actionType.PowerCycle? ==> ParseDelay(r.delay) == 0)
    {
      var plan := PlanOf(s.cfg, s.registry, r);
      if plan.Ok? {
        PlannedDelay(s.cfg, s.registry, r, ParseDelay(r.delay));
        AdmittedPhase(s, LockKey(s.cfg.edgeId, s.registry, r.deviceId), plan.value,
                      Admit(s, LockKey(s.cfg.edgeId, s.registry, r.deviceId), plan.value));
      }
    }

    /** The delay of a power cycle is over. */
    method WakeUp(id: nat)
      requires Valid() && id in tasks && tasks[id].phase.Delaying? && now >= tasks[id].phase.until
      modifies this
      ensures Valid() && trace == old(trace) + [On(id, Wake)]
      ensures View() == Step(old(View()), On(id, Wake))
    {
      Log(On(id, Wake));
      queue := queue + [id];
      tasks := tasks[id := tasks[id].(phase := WaitingSlot(tasks[id].startedAt + Timeout(cfg)))];
    }

    /** The semaphore hands a permit to the action that has waited longest. */
    method TakeSlot(id: nat)
      requires Valid() && id in tasks && permits > 0 && queue != [] && queue[0] == id && tasks[id].phase.WaitingSlot?
      modifies this
      ensures Valid() && trace == old(trace) + [On(id, Grant)]
      ensures View() == Step(old(View()), On(id, Grant))
    {
      Log(On(id, Grant));
      permits := permits - 1;
      queue := queue[1..];
      var phase;
      match tasks[id].plan {
        case Reset(_) => phase := DriverCall(tasks[id].startedAt + Timeout(cfg));
        case Services => phase := RunningInline(now + Timeout(cfg));
        case Script => phase := RunningInline(now + Timeout(cfg) + cfg.grace);
      }
      tasks := tasks[id := tasks[id].(phase := phase, grantedAt := now)];
    }

    /** No slot became free in time: the device lock is dropped on return. */
    method GiveUp(id: nat)
      requires Valid() && id in tasks && tasks[id].phase.WaitingSlot? && now >= tasks[id].phase.due
      requires id !in Served(View())
      modifies this
      ensures Valid() && trace == old(trace) + [On(id, SlotTimeout)]
      ensures View() == Step(old(View()), On(id, SlotTimeout))
    {
      Log(On(id, SlotTimeout));
      queue := Without(queue, id);
      Unlock(tasks[id].key);
      tasks := tasks[id := tasks[id].(phase := Done, reply := Some(Reply(now, false)))];
    }

    /** Services or script are done: both guards go out of scope. */
    method EndInline(id: nat)
      requires Valid() && id in tasks && tasks[id].phase.RunningInline?
      modifies this
      ensures Valid() && trace == old(trace) + [On(id, InlineEnd)]
      ensures View() == Step(old(View()), On(id, InlineEnd))
    {
      NotWaiting(id);
      Log(On(id, InlineEnd));
      Unlock(tasks[id].key);
      permits := permits + 1;
      tasks := tasks[id := tasks[id].(phase := Done, reply := Some(Reply(now, true)))];
    }

    /** The blocking driver call returns and drops both guards; a caller still waiting is answered. */
    method ReturnFromDriver(id: nat)
      requires Valid() && id in tasks && (tasks[id].phase.DriverCall? || tasks[id].phase.Detached?)
      modifies this
      ensures Valid() && trace == old(trace) + [On(id, DriverReturn)]
      ensures View() == Step(old(View()), On(id, DriverReturn))
    {
      NotWaiting(id);
      Log(On(id, DriverReturn));
      Unlock(tasks[id].key);
      permits := permits + 1;
      var reply := tasks[id].reply;
      if tasks[id].phase.DriverCall? {
        reply := Some(Reply(now, true));
      }
      tasks := tasks[id := tasks[id].(phase := Done, reply := reply)];
    }

    /** The caller stops waiting; the guards stay with the blocking call. */
    method LeaveDriver(id: nat)
      requires Valid() && id in tasks && tasks[id].phase.DriverCall? && now >= tasks[id].phase.due
      modifies this
      ensures Valid() && trace == old(trace) + [On(id, DriverTimeout)]
      ensures View() == Step(old(View()), On(id, DriverTimeout))
    {
      Log(On(id, DriverTimeout));
      tasks := tasks[id := tasks[id].(phase := Detached, reply := Some(Reply(now, true)))];
    }

    /** The task is dropped at whatever await it is in. */
    method Abort(id: nat)
      requires Valid() && id in tasks && HoldsLock(tasks[id].phase) && !tasks[id].phase.Detached?
      modifies this
      ensures Valid() && trace == old(trace) + [On(id, Cancel)]
      ensures View() == Step(old(View()), On(id, Cancel))
    {
      Log(On(id, Cancel));
      if tasks[id].phase.DriverCall? {
        tasks := tasks[id := tasks[id].(phase := Detached)];
      } else {
        queue := Without(queue, id);
        Unlock(tasks[id].key);
        if HoldsSlot(tasks[id].phase) {
          permits := permits + 1;
        }
        tasks := tasks[id := tasks[id].(phase := Done)];
      }
    }

    /** A second passes. */
    method Elapse()
      requires Valid() && MayTick(View())
      modifies this
      ensures Valid() && trace == old(trace) + [Tick]
      ensures View() == Step(old(View()), Tick)
    {
      Log(Tick);
      now := now + 1;
    }

    /** The device manager changes the set of managed devices. */
    method Manage(devices: Registry)
      requires Valid()
      modifies this
      ensures Valid() && trace == old(trace) + [SetRegistry(devices)]
      ensures View() == Step(old(View()), SetRegistry(devices))
    {
      Log(SetRegistry(devices));
      registry := devices;
    }
  }
}

/** Capped capture of a process stream (crates/nimon-edge/src/action.rs:496-514). */
module OutputCapture {

  type Byte = b: int | 0 <= b < 256

  function Flatten(chunks: seq<seq<Byte>>): seq<Byte> {
    if chunks == [] then [] else Flatten(chunks[..|chunks| - 1]) + chunks[|chunks| - 1]
  }

  class Captured {
    var buf: seq<Byte>
    var truncated: bool

    constructor ()
      ensures buf == [] && !truncated
    {
      buf, truncated := [], false;
    }

    /** Whatever the chunking, the sink ends up with the first `cap` bytes and knows if there were more. */
    method ReadInto(chunks: seq<seq<Byte>>, cap: nat)
      requires buf == [] && !truncated
      modifies this
      ensures var stream := Flatten(chunks);
              && buf == (if |stream| <= cap then stream else stream[..cap])
              && truncated == (|stream| > cap)
    {
      var k := 0;
      while k < |chunks|
        invariant k <= |chunks|
        invariant var stream := Flatten(chunks[..k]);
                  && buf == (if |stream| <= cap then stream else stream[..cap])
                  && truncated == (|stream| > cap)
      {
        assert chunks[..k + 1][..k] == chunks[..k];
        var chunk := chunks[k];
        var room := if cap > |buf| then cap - |buf| else 0;
        if |chunk| > room {
          truncated := true;
        }
        buf := buf + chunk[..if |chunk| < room then |chunk| else room];
        k := k + 1;
      }
      assert chunks[..k] == chunks;
    }
  }
}
