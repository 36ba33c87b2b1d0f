/**
 Edge-side remediation actions (crates/nimon-edge/src/action.rs): which lock an action takes, and
 the life of concurrent actions over a set of device locks and a counting semaphore.

 Time is a whole number of seconds. A timer fires at its due time: the clock does not pass a due
 time while its owner is still waiting for it. A free permit goes to the first in the queue of the
 semaphore before the clock moves on.
 */
module ActionRuntime {
  import opened Basics

  // ------------------------------------------------------------------ ids and lock keys

  datatype LocalDevice = LocalDevice(daqmxName: Option<string>, isSimulated: bool)

  type Registry = map<string, LocalDevice>

  predicate Prefixed(edgeId: string, deviceId: string) { edgeId + ":" <= deviceId }

  /** The registry id of a managed device, given its full id or its bare local name. */
  function ResolveId(edgeId: string, registry: Registry, deviceId: string): Option<string> {
    if deviceId in registry then Some(deviceId)
    else if Prefixed(edgeId, deviceId) then None
    else if edgeId + ":" + deviceId in registry then Some(edgeId + ":" + deviceId)
    else None
  }

  function LockKey(edgeId: string, registry: Registry, deviceId: string): string {
    var id := ResolveId(edgeId, registry, deviceId);
    if id.Some? then id.value else deviceId
  }

  /**
   Bare and full id take the same lock exactly when the device is managed and the bare name cannot
   be mistaken: it is not itself an id of the registry and does not look like a full id.
   */
  lemma BareAndFullShareALock(edgeId: string, registry: Registry, local: string)
    ensures LockKey(edgeId, registry, local) == LockKey(edgeId, registry, edgeId + ":" + local)
       <==> && edgeId + ":" + local in registry
            && local !in registry
            && !Prefixed(edgeId, local)
  {
    var full := edgeId + ":" + local;
    assert |full| > |local|;
    assert full[..|edgeId| + 1] == edgeId + ":";
    assert Prefixed(edgeId, full);
  }

  /** A resolved id is always a managed device, and managed full ids resolve to themselves. */
  lemma ResolvedIsManaged(edgeId: string, registry: Registry, deviceId: string)
    ensures ResolveId(edgeId, registry, deviceId).Some? ==> ResolveId(edgeId, registry, deviceId).value in registry
    ensures deviceId in registry ==> LockKey(edgeId, registry, deviceId) == deviceId
    ensures ResolveId(edgeId, registry, deviceId).Some? ==>
              var key := LockKey(edgeId, registry, deviceId); LockKey(edgeId, registry, key) == key
  {
  }

  // ------------------------------------------------------------------ validated plans

  const MAX_POWER_CYCLE_DELAY_SECS := 300

  predicate AllDigits(s: string) { s != [] && forall i :: 0 <= i < |s| ==> '0' <= s[i] <= '9' }

  /** An unsigned 64-bit number: an optional plus sign, then digits, in range. */
  function ParseU64(s: string): Option<nat> {
    var digits := if s != [] && s[0] == '+' then s[1..] else s;
    if AllDigits(digits) && NumberOf(digits) < 0x1_0000_0000_0000_0000 then Some(NumberOf(digits)) else None
  }

  function ParseDelay(parameter: Option<string>): (delay: nat)
    ensures delay <= MAX_POWER_CYCLE_DELAY_SECS
  {
    var n := if parameter.Some? then ParseU64(Trim(parameter.value)) else None;
    if n.None? then 0 else if n.value < MAX_POWER_CYCLE_DELAY_SECS then n.value else MAX_POWER_CYCLE_DELAY_SECS
  }

  /** A written delay is read back, capped; one too large for the type counts as no delay at all. */
  lemma DelayAsWritten(n: nat)
    ensures ParseDelay(Some(Decimal(n))) ==
              if n >= 0x1_0000_0000_0000_0000 then 0
              else if n < MAX_POWER_CYCLE_DELAY_SECS then n
              else MAX_POWER_CYCLE_DELAY_SECS
  {
    NumberOfDecimal(n);
    assert Trim(Decimal(n)) == Decimal(n);
  }

  /** The body of `RestartServices` and `CustomScript` is validated elsewhere; only the verdict matters here. */
  datatype ActionType = PowerCycle | ResetDriver | RestartServices(valid: bool) | CustomScript(valid: bool)

  datatype Request = Request(deviceId: string, actionType: ActionType, delay: Option<string>)

  datatype Plan = Reset(delaySecs: nat) | Services | Script

  /** `grace`: how long a script may still take once its own timeout struck (kill and output readers). */
  datatype Config = Config(edgeId: string, timeoutSecs: nat, maxConcurrent: nat, daqmxEnabled: bool, grace: nat)

  function Timeout(cfg: Config): (t: nat)
    ensures t >= 1
  {
    if cfg.timeoutSecs < 1 then 1 else cfg.timeoutSecs
  }

  function Slots(cfg: Config): (n: nat)
    ensures n >= 1
  {
    if cfg.maxConcurrent < 1 then 1 else cfg.maxConcurrent
  }

  datatype Rejection = DaqmxDisabled | NotManaged | Simulated | NoDaqmxName | DelayTooLong | InvalidBody

  function PlanOf(cfg: Config, registry: Registry, r: Request): Result<Plan, Rejection> {
    match r.actionType
    case RestartServices(valid) => if valid then Ok(Services) else Err(InvalidBody)
    case CustomScript(valid) => if valid then Ok(Script) else Err(InvalidBody)
    case _ =>
      var id := ResolveId(cfg.edgeId, registry, r.deviceId);
      if !cfg.daqmxEnabled then Err(DaqmxDisabled)
      else if id.None? then Err(NotManaged)
      else if registry[id.value].isSimulated then Err(Simulated)
      else if registry[id.value].daqmxName.None? then Err(NoDaqmxName)
      else
        var delay := if r.actionType.PowerCycle? then ParseDelay(r.delay) else 0;
        if delay > 0 && delay >= Timeout(cfg) then Err(DelayTooLong) else Ok(Reset(delay))
  }

  /** An accepted reset targets a managed device and leaves time for itself after its delay. */
  lemma AcceptedResets(cfg: Config, registry: Registry, r: Request)
    requires PlanOf(cfg, registry, r).Ok? && PlanOf(cfg, registry, r).value.Reset?
    ensures LockKey(cfg.edgeId, registry, r.deviceId) in registry
    ensures !registry[LockKey(cfg.edgeId, registry, r.deviceId)].isSimulated
    ensures PlanOf(cfg, registry, r).value.delaySecs < Timeout(cfg)
  {
  }

  // ------------------------------------------------------------------ state

  /** What the caller was told, and when. */
  datatype Reply = Reply(at: nat, ran: bool)

  datatype Phase =
    | Rejected                     // failed validation, or the device was busy
    | Delaying(until: nat)
    | WaitingSlot(due: nat)
    | RunningInline(due: nat)      // services or script
    | DriverCall(due: nat)         // the caller still waits for the driver
    | Detached                     // the caller is gone, the driver call is not
    | Done

  predicate HoldsLock(p: Phase) { !p.Rejected? && !p.Done? }

  predicate HoldsSlot(p: Phase) { p.RunningInline? || p.DriverCall? || p.Detached? }

  datatype Task = Task(key: string, plan: Plan, startedAt: nat, grantedAt: nat, phase: Phase, reply: Option<Reply>)

  datatype State = State(
    cfg: Config,
    registry: Registry,
    now: nat,
    busy: set<string>,
    permits: nat,
    queue: seq<nat>,       // who waits for a slot, in the order of the semaphore
    tasks: map<nat, Task>,
    nextId: nat)

  function Init(cfg: Config): State { State(cfg, map[], 0, {}, Slots(cfg), [], map[], 0) }

  datatype TaskEvent = Wake | Grant | SlotTimeout | InlineEnd | DriverReturn | DriverTimeout | Cancel

  datatype Event =
    | SetRegistry(registry: Registry)
    | Execute(request: Request)
    | Tick
    | On(id: nat, what: TaskEvent)

  /** An event that is not possible in `s` leaves it unchanged. */
  function Step(s: State, e: Event): State {
    match e
    case SetRegistry(registry) => s.(registry := registry)
    case Execute(r) => ExecuteStep(s, r)
    case Tick => if MayTick(s) then s.(now := s.now + 1) else s
    case On(id, what) => if id in s.tasks then TaskStep(s, id, what) else s
  }

  function TaskStep(s: State, id: nat, what: TaskEvent): State
    requires id in s.tasks
  {
    var t := s.tasks[id];
    match what
    case Wake =>
      if t.phase.Delaying? && s.now >= t.phase.until
      then Put(s.(queue := s.queue + [id]), id, t.(phase := WaitingSlot(t.startedAt + Timeout(s.cfg)))) else s
    case Grant =>
      if t.phase.WaitingSlot? && s.permits > 0 && s.queue != [] && s.queue[0] == id
      then Put(s.(permits := s.permits - 1, queue := s.queue[1..]), id, Granted(s, t)) else s
    case SlotTimeout =>
      if t.phase.WaitingSlot? && s.now >= t.phase.due && id !in Served(s) then Release(s, id, false) else s
    case InlineEnd => if t.phase.RunningInline? then Release(s, id, true) else s
    case DriverReturn => if t.phase.DriverCall? || t.phase.Detached? then Release(s, id, true) else s
    case DriverTimeout =>
      if t.phase.DriverCall? && s.now >= t.phase.due
      then Put(s, id, t.(phase := Detached, reply := Some(Reply(s.now, true)))) else s
    case Cancel =>
      if t.phase.DriverCall? then Put(s, id, t.(phase := Detached))
      else if t.phase.Detached? || !HoldsLock(t.phase) then s
      else Abandon(s, id)
  }

  function ExecuteStep(s: State, r: Request): State {
    var plan := PlanOf(s.cfg, s.registry, r);
    var key := LockKey(s.cfg.edgeId, s.registry, r.deviceId);
    if plan.Err? || key in s.busy then Refuse(s, key) else Admit(s, key, plan.value)
  }

  function Refuse(s: State, key: string): State {
    Put(s, s.nextId, Task(key, Services, s.now, s.now, Rejected, Some(Reply(s.now, false))))
      .(nextId := s.nextId + 1)
  }

  /** The device is locked; a delay is waited out before a slot is asked for. */
  function Admit(s: State, key: string, plan: Plan): State {
    var phase :=
      if plan.Reset? && plan.delaySecs > 0 then Delaying(s.now + plan.delaySecs)
      else WaitingSlot(s.now + Timeout(s.cfg));
    Put(s, s.nextId, Task(key, plan, s.now, s.now, phase, None))
      .(nextId := s.nextId + 1, busy := s.busy + {key},
        queue := if phase.WaitingSlot? then s.queue + [s.nextId] else s.queue)
  }

  /** Those in the queue for whom there is a permit: they get it, even if their time is up by now. */
  function Served(s: State): seq<nat> { if s.permits < |s.queue| then s.queue[..s.permits] else s.queue }

  function Without(queue: seq<nat>, id: nat): seq<nat> {
    if queue == [] then []
    else if queue[0] == id then queue[1..]
    else [queue[0]] + Without(queue[1..], id)
  }

  function Put(s: State, id: nat, t: Task): State { s.(tasks := s.tasks[id := t]) }

  function Granted(s: State, t: Task): Task {
    var phase :=
      match t.plan
      case Reset(_) => DriverCall(t.startedAt + Timeout(s.cfg))
      case Services => RunningInline(s.now + Timeout(s.cfg))
      case Script => RunningInline(s.now + Timeout(s.cfg) + s.cfg.grace);
    t.(phase := phase, grantedAt := s.now)
  }

  /** Both guards are dropped, as far as held; the caller is answered if it still waits. */
  function Release(s: State, id: nat, ran: bool): State
    requires id in s.tasks
  {
    var t := s.tasks[id];
    var reply := if t.phase.Detached? then t.reply else Some(Reply(s.now, ran));
    Put(s, id, t.(phase := Done, reply := reply))
      .(busy := s.busy - {t.key}, permits := if HoldsSlot(t.phase) then s.permits + 1 else s.permits,
        queue := Without(s.queue, id))
  }

  /** The task is dropped at an await: both guards go, nobody is answered. */
  function Abandon(s: State, id: nat): State
    requires id in s.tasks
  {
    var t := s.tasks[id];
    Put(s, id, t.(phase := Done))
      .(busy := s.busy - {t.key}, permits := if HoldsSlot(t.phase) then s.permits + 1 else s.permits,
        queue := Without(s.queue, id))
  }

  predicate TimersPending(s: State) {
    forall id | id in s.tasks :: Due(s.tasks[id].phase).Some? ==> s.now < Due(s.tasks[id].phase).value
  }

  /** Time may pass: no timer is due, and no permit waits for being taken. */
  predicate MayTick(s: State) { TimersPending(s) && (s.permits == 0 || s.queue == []) }

  function Due(p: Phase): Option<nat> {
    match p
    case Delaying(until) => Some(until)
    case WaitingSlot(due) => Some(due)
    case RunningInline(due) => Some(due)
    case DriverCall(due) => Some(due)
    case _ => None
  }

  function After(s: State, events: seq<Event>): State {
    if events == [] then s else Step(After(s, events[..|events| - 1]), events[|events| - 1])
  }

  /** Every event sequence is a run of a fresh runtime. */
  function Run(cfg: Config, events: seq<Event>): State { After(Init(cfg), events) }

  // ------------------------------------------------------------------ what every step keeps

  ghost function SlotHolders(tasks: map<nat, Task>): set<nat> {
    set id | id in tasks && HoldsSlot(tasks[id].phase)
  }

  /** `busy` is exactly the keys of the live guards, one guard per key. */
  ghost predicate LocksAgree(s: State) {
    && (forall id | id in s.tasks :: HoldsLock(s.tasks[id].phase) ==> s.tasks[id].key in s.busy)
    && (forall k | k in s.busy :: exists id :: id in s.tasks && HoldsLock(s.tasks[id].phase) && s.tasks[id].key == k)
    && (forall i, j | i in s.tasks && j in s.tasks ::
          HoldsLock(s.tasks[i].phase) && HoldsLock(s.tasks[j].phase) && s.tasks[i].key == s.tasks[j].key ==> i == j)
    && (forall id | id in s.tasks :: id < s.nextId)
  }

  ghost predicate SlotsAgree(s: State) { s.permits + |SlotHolders(s.tasks)| == Slots(s.cfg) }

  /** The deadline by which a task answers, if it is not cancelled. */
  function AnswerBy(cfg: Config, t: Task): nat {
    match t.plan
    case Reset(_) => t.startedAt + Timeout(cfg)
    case Services => t.grantedAt + Timeout(cfg)
    case Script => t.grantedAt + Timeout(cfg) + cfg.grace
  }

  ghost predicate OnTime(s: State, t: Task) {
    && t.startedAt <= t.grantedAt <= s.now
    && (HoldsLock(t.phase) || t.reply.Some? ==> t.grantedAt <= t.startedAt + Timeout(s.cfg))
    && (Due(t.phase).Some? ==> s.now <= Due(t.phase).value && t.reply.None?)
    && (t.phase.Delaying? ==> t.plan.Reset? && t.phase.until < t.startedAt + Timeout(s.cfg))
    && (t.phase.WaitingSlot? ==> t.phase.due == t.startedAt + Timeout(s.cfg))
    && (t.phase.RunningInline? ==> !t.plan.Reset? && t.phase.due == AnswerBy(s.cfg, t))
    && (t.phase.DriverCall? || t.phase.Detached? ==> t.plan.Reset?)
    && (t.phase.DriverCall? ==> t.phase.due == AnswerBy(s.cfg, t))
    && (t.reply.Some? ==>
          t.reply.value.at <= if t.reply.value.ran then AnswerBy(s.cfg, t) else t.startedAt + Timeout(s.cfg))
  }

  ghost predicate Distinct(queue: seq<nat>) { forall i, j :: 0 <= i < j < |queue| ==> queue[i] != queue[j] }

  /** The queue holds exactly the tasks that wait for a slot. */
  ghost predicate QueueAgrees(s: State) {
    && Distinct(s.queue)
    && (forall id :: id in s.queue <==> id in s.tasks && s.tasks[id].phase.WaitingSlot?)
  }

  ghost predicate Inv(s: State) {
    && LocksAgree(s)
    && SlotsAgree(s)
    && QueueAgrees(s)
    && forall id | id in s.tasks :: OnTime(s, s.tasks[id])
  }

  // -- one lemma per kind of change

  lemma OneMoreSlotHolder(tasks: map<nat, Task>, id: nat, t: Task)
    ensures var before := id in tasks && HoldsSlot(tasks[id].phase);
            |SlotHolders(tasks[id := t])| ==
              |SlotHolders(tasks)| - (if before then 1 else 0) + (if HoldsSlot(t.phase) then 1 else 0)
  {
    var others := SlotHolders(tasks) - {id};
    assert SlotHolders(tasks) == if id in tasks && HoldsSlot(tasks[id].phase) then others + {id} else others;
    assert SlotHolders(tasks[id := t]) == if HoldsSlot(t.phase) then others + {id} else others;
  }

  /** A task moves on while it keeps its lock, or while it never had one. */
  lemma PutKeepsLocks(s: State, id: nat, t: Task)
    requires LocksAgree(s) && id in s.tasks
    requires t.key == s.tasks[id].key && HoldsLock(t.phase) == HoldsLock(s.tasks[id].phase)
    ensures LocksAgree(Put(s, id, t))
  {
    var u := Put(s, id, t);
    forall k | k in u.busy
      ensures exists j :: j in u.tasks && HoldsLock(u.tasks[j].phase) && u.tasks[j].key == k
    {
      var j :| j in s.tasks && HoldsLock(s.tasks[j].phase) && s.tasks[j].key == k;
      assert j in u.tasks && HoldsLock(u.tasks[j].phase) && u.tasks[j].key == k;
    }
  }

  /** A task lets go of its lock. */
  lemma DropKeepsLocks(s: State, id: nat, t: Task)
    requires LocksAgree(s) && id in s.tasks && HoldsLock(s.tasks[id].phase)
    requires t.key == s.tasks[id].key && !HoldsLock(t.phase)
    ensures LocksAgree(Put(s, id, t).(busy := s.busy - {t.key}))
  {
    var u := Put(s, id, t).(busy := s.busy - {t.key});
    forall k | k in u.busy
      ensures exists j :: j in u.tasks && HoldsLock(u.tasks[j].phase) && u.tasks[j].key == k
    {
      var j :| j in s.tasks && HoldsLock(s.tasks[j].phase) && s.tasks[j].key == k;
      assert j in u.tasks && HoldsLock(u.tasks[j].phase) && u.tasks[j].key == k;
    }
  }

  /** `t` is a new task, which takes a free key or none. */
  ghost predicate Started(s: State, t: Task, u: State) {
    && u.cfg == s.cfg && u.now == s.now && u.permits == s.permits
    && u.tasks == s.tasks[s.nextId := t] && u.nextId == s.nextId + 1
    && !HoldsSlot(t.phase) && (HoldsLock(t.phase) ==> t.key !in s.busy)
    && u.busy == (if HoldsLock(t.phase) then s.busy + {t.key} else s.busy)
    && u.queue == if t.phase.WaitingSlot? then s.queue + [s.nextId] else s.queue
  }

  lemma NewKeepsLocks(s: State, t: Task, u: State)
    requires LocksAgree(s) && Started(s, t, u)
    ensures LocksAgree(u)
  {
    forall k | k in u.busy
      ensures exists j :: j in u.tasks && HoldsLock(u.tasks[j].phase) && u.tasks[j].key == k
    {
      if k in s.busy {
        var j :| j in s.tasks && HoldsLock(s.tasks[j].phase) && s.tasks[j].key == k;
        assert j in u.tasks && HoldsLock(u.tasks[j].phase) && u.tasks[j].key == k;
      } else {
        assert s.nextId in u.tasks && HoldsLock(u.tasks[s.nextId].phase) && u.tasks[s.nextId].key == k;
      }
    }
  }

  lemma NewKeepsSlots(s: State, t: Task, u: State)
    requires LocksAgree(s) && SlotsAgree(s) && Started(s, t, u)
    ensures SlotsAgree(u)
  {
    OneMoreSlotHolder(s.tasks, s.nextId, t);
    assert s.nextId !in s.tasks;
  }

  lemma NewKeepsQueue(s: State, t: Task, u: State)
    requires LocksAgree(s) && QueueAgrees(s) && Started(s, t, u)
    ensures QueueAgrees(u)
  {
    assert s.nextId !in s.queue;
    QueueMoves(s, u, s.nextId);
  }

  lemma NewKeepsTime(s: State, t: Task, u: State)
    requires (forall id | id in s.tasks :: OnTime(s, s.tasks[id])) && Started(s, t, u) && OnTime(u, t)
    ensures forall id | id in u.tasks :: OnTime(u, u.tasks[id])
  {
    assert forall id | id in s.tasks :: OnTime(s, s.tasks[id]) ==> OnTime(u, s.tasks[id]);
  }

  lemma NewKeeps(s: State, t: Task, u: State)
    requires Inv(s) && Started(s, t, u) && OnTime(u, t)
    ensures Inv(u)
  {
    NewKeepsLocks(s, t, u);
    NewKeepsSlots(s, t, u);
    NewKeepsQueue(s, t, u);
    NewKeepsTime(s, t, u);
  }

  lemma {:induction false} WithoutOne(queue: seq<nat>, id: nat)
    requires Distinct(queue)
    ensures Distinct(Without(queue, id)) && forall x :: x in Without(queue, id) <==> x in queue && x != id
  {
    if queue != [] && queue[0] != id {
      WithoutOne(queue[1..], id);
      var rest := Without(queue[1..], id);
      assert forall x :: x in queue <==> x == queue[0] || x in queue[1..];
      assert queue[0] !in queue[1..];
      assert Without(queue, id) == [queue[0]] + rest;
    }
  }

  lemma {:induction false} NotQueued(queue: seq<nat>, id: nat)
    requires id !in queue
    ensures Without(queue, id) == queue
  {
    if queue != [] {
      NotQueued(queue[1..], id);
      assert queue == [queue[0]] + queue[1..];
    }
  }

  /** One task has moved on, and the queue with it. */
  lemma QueueMoves(s: State, u: State, id: nat)
    requires QueueAgrees(s) && id in u.tasks && u.tasks.Keys == s.tasks.Keys + {id}
    requires forall j | j in s.tasks :: j != id ==> u.tasks[j] == s.tasks[j]
    requires Distinct(u.queue) && (id in u.queue <==> u.tasks[id].phase.WaitingSlot?)
    requires forall j :: j != id ==> (j in u.queue <==> j in s.queue)
    ensures QueueAgrees(u)
  {
  }

  lemma RefuseKeeps(s: State, key: string, u: State)
    requires Inv(s) && u == Refuse(s, key)
    ensures Inv(u)
  {
    NewKeeps(s, u.tasks[s.nextId], u);
  }

  lemma AdmitKeeps(s: State, key: string, plan: Plan, u: State)
    requires Inv(s) && key !in s.busy && u == Admit(s, key, plan)
    requires plan.Reset? ==> plan.delaySecs == 0 || plan.delaySecs < Timeout(s.cfg)
    ensures Inv(u)
  {
    NewKeeps(s, u.tasks[s.nextId], u);
  }

  lemma ExecuteKeeps(s: State, r: Request)
    requires Inv(s)
    ensures Inv(ExecuteStep(s, r))
  {
    var plan := PlanOf(s.cfg, s.registry, r);
    var key := LockKey(s.cfg.edgeId, s.registry, r.deviceId);
    if plan.Err? || key in s.busy {
      RefuseKeeps(s, key, ExecuteStep(s, r));
    } else {
      if plan.value.Reset? { AcceptedResets(s.cfg, s.registry, r); }
      AdmitKeeps(s, key, plan.value, ExecuteStep(s, r));
    }
  }

  lemma TaskStepKeepsLocks(s: State, id: nat, what: TaskEvent)
    requires Inv(s) && id in s.tasks
    ensures LocksAgree(TaskStep(s, id, what))
  {
    var u := TaskStep(s, id, what);
    if HoldsLock(u.tasks[id].phase) == HoldsLock(s.tasks[id].phase) {
      PutKeepsLocks(s, id, u.tasks[id]);
      assert u == s || u == Put(s, id, u.tasks[id]).(permits := u.permits, queue := u.queue);
    } else {
      DropKeepsLocks(s, id, u.tasks[id]);
    }
  }

  lemma TaskStepKeepsSlots(s: State, id: nat, what: TaskEvent)
    requires Inv(s) && id in s.tasks
    ensures SlotsAgree(TaskStep(s, id, what))
  {
    var u := TaskStep(s, id, what);
    OneMoreSlotHolder(s.tasks, id, u.tasks[id]);
    assert s.tasks[id := s.tasks[id]] == s.tasks;
  }

  lemma TaskStepKeepsQueue(s: State, id: nat, what: TaskEvent)
    requires Inv(s) && id in s.tasks
    ensures QueueAgrees(TaskStep(s, id, what))
  {
    var u := TaskStep(s, id, what);
    TouchesOneTask(s, id, what);
    OwnPlaceInQueue(s, id, what, u);
    QueueMoves(s, u, id);
  }

  lemma OwnPlaceInQueue(s: State, id: nat, what: TaskEvent, u: State)
    requires QueueAgrees(s) && id in s.tasks && u == TaskStep(s, id, what)
    ensures Distinct(u.queue) && (id in u.queue <==> u.tasks[id].phase.WaitingSlot?)
    ensures forall j :: j != id ==> (j in u.queue <==> j in s.queue)
  {
    match what
    case Wake => if s.tasks[id].phase.Delaying? { OneMoreInQueue(s.queue, id); }
    case Grant => if s.queue != [] { BehindTheHead(s.queue); }
    case _ => WithoutOne(s.queue, id);
  }

  lemma BehindTheHead(queue: seq<nat>)
    requires Distinct(queue) && queue != []
    ensures Distinct(queue[1..]) && forall j :: j in queue[1..] <==> j in queue && j != queue[0]
  {
    assert queue == [queue[0]] + queue[1..];
  }

  lemma OneMoreInQueue(queue: seq<nat>, id: nat)
    requires Distinct(queue) && id !in queue
    ensures Distinct(queue + [id]) && forall j :: j in queue + [id] <==> j in queue || j == id
  {
  }

  lemma TaskStepKeepsTime(s: State, id: nat, what: TaskEvent)
    requires Inv(s) && id in s.tasks
    ensures var u := TaskStep(s, id, what); forall j | j in u.tasks :: OnTime(u, u.tasks[j])
  {
    OwnTimeKept(s, id, what);
    TouchesOneTask(s, id, what);
    OthersOnTime(s, TaskStep(s, id, what), id);
  }

  lemma TouchesOneTask(s: State, id: nat, what: TaskEvent)
    requires id in s.tasks
    ensures var u := TaskStep(s, id, what);
            && u.cfg == s.cfg && u.now == s.now && u.tasks.Keys == s.tasks.Keys
            && forall j | j in u.tasks :: j != id ==> u.tasks[j] == s.tasks[j]
  {
  }

  lemma OthersOnTime(s: State, u: State, id: nat)
    requires u.cfg == s.cfg && u.now == s.now && u.tasks.Keys == s.tasks.Keys && id in u.tasks
    requires forall j | j in u.tasks :: j != id ==> u.tasks[j] == s.tasks[j]
    requires OnTime(u, u.tasks[id]) && forall j | j in s.tasks :: OnTime(s, s.tasks[j])
    ensures forall j | j in u.tasks :: OnTime(u, u.tasks[j])
  {
    forall j | j in u.tasks && j != id
      ensures OnTime(u, u.tasks[j])
    {
      assert OnTime(s, s.tasks[j]);
    }
  }

  lemma OwnTimeKept(s: State, id: nat, what: TaskEvent)
    requires id in s.tasks && OnTime(s, s.tasks[id])
    ensures var u := TaskStep(s, id, what); id in u.tasks && OnTime(u, u.tasks[id])
  {
  }

  lemma TickKeeps(s: State)
    requires Inv(s)
    ensures Inv(Step(s, Tick))
  {
    if MayTick(s) {
      var u := s.(now := s.now + 1);
      forall id | id in u.tasks
        ensures OnTime(u, u.tasks[id])
      {
        assert OnTime(s, s.tasks[id]);
      }
      assert LocksAgree(u);
    }
  }

  lemma StepKeepsInv(s: State, e: Event)
    requires Inv(s)
    ensures Inv(Step(s, e))
  {
    match e
    case SetRegistry(registry) =>
      var u := s.(registry := registry);
      assert LocksAgree(u);
      assert forall id | id in u.tasks :: OnTime(s, u.tasks[id]) ==> OnTime(u, u.tasks[id]);
    case Execute(r) => ExecuteKeeps(s, r);
    case Tick => TickKeeps(s);
    case On(id, what) =>
      if id in s.tasks {
        TaskStepKeepsLocks(s, id, what);
        TaskStepKeepsSlots(s, id, what);
        TaskStepKeepsQueue(s, id, what);
        TaskStepKeepsTime(s, id, what);
      }
  }

  lemma NextKeepsConfig(s: State, e: Event, t: State)
    requires t == Step(s, e)
    ensures t.cfg == s.cfg
  {
  }

  lemma NextKeepsInv(s: State, e: Event, t: State)
    requires Inv(s) && t == Step(s, e)
    ensures Inv(t) && t.cfg == s.cfg
  {
    StepKeepsInv(s, e);
    NextKeepsConfig(s, e, t);
  }

  lemma {:induction false} AfterKeepsInv(s: State, events: seq<Event>)
    requires Inv(s)
    ensures Inv(After(s, events)) && After(s, events).cfg == s.cfg
  {
    if events != [] {
      AfterKeepsInv(s, events[..|events| - 1]);
      NextKeepsInv(After(s, events[..|events| - 1]), events[|events| - 1], After(s, events));
    }
  }

  lemma RunInv(cfg: Config, events: seq<Event>)
    ensures Inv(Run(cfg, events)) && Run(cfg, events).cfg == cfg
  {
    assert SlotHolders(Init(cfg).tasks) == {};
    AfterKeepsInv(Init(cfg), events);
  }

  // ------------------------------------------------------------------ what holds in every run

  /** One action per device, and never more slots out than configured, in every interleaving. */
  lemma EveryRun(cfg: Config, events: seq<Event>)
    ensures var s := Run(cfg, events);
            && s.busy == (set id | id in s.tasks && HoldsLock(s.tasks[id].phase) :: s.tasks[id].key)
            && (forall i, j | i in s.tasks && j in s.tasks ::
                  HoldsLock(s.tasks[i].phase) && HoldsLock(s.tasks[j].phase) && s.tasks[i].key == s.tasks[j].key ==>
                    i == j)
            && s.permits + |SlotHolders(s.tasks)| == if cfg.maxConcurrent == 0 then 1 else cfg.maxConcurrent
  {
    RunInv(cfg, events);
  }

  /** When nothing is live every lock and slot is back; delays and waits never hold a slot at all. */
  lemma NothingLeaks(cfg: Config, events: seq<Event>)
    ensures var s := Run(cfg, events);
            && ((forall id | id in s.tasks :: !HoldsLock(s.tasks[id].phase)) ==>
                  s.busy == {} && s.permits == Slots(cfg))
            && ((forall id | id in s.tasks :: HoldsLock(s.tasks[id].phase) ==>
                   s.tasks[id].phase.Delaying? || s.tasks[id].phase.WaitingSlot?) ==> s.permits == Slots(cfg))
  {
    RunInv(cfg, events);
    var s := Run(cfg, events);
    if forall id | id in s.tasks :: HoldsLock(s.tasks[id].phase) ==>
         s.tasks[id].phase.Delaying? || s.tasks[id].phase.WaitingSlot? {
      assert SlotHolders(s.tasks) == {};
    }
    if forall id | id in s.tasks :: !HoldsLock(s.tasks[id].phase) {
      assert SlotHolders(s.tasks) == {};
      assert s.busy == {};
    }
  }

  /** Some live action holds the lock `key`. */
  ghost predicate Locked(s: State, key: string) {
    exists id :: id in s.tasks && HoldsLock(s.tasks[id].phase) && s.tasks[id].key == key
  }

  /** A request gets its device lock exactly when it is valid and no live action holds that lock. */
  lemma AdmittedIffFree(cfg: Config, events: seq<Event>, r: Request)
    ensures var s := Run(cfg, events);
            var t := Step(s, Execute(r)).tasks[s.nextId];
            && t.key == LockKey(cfg.edgeId, s.registry, r.deviceId)
            && (HoldsLock(t.phase) <==> PlanOf(cfg, s.registry, r).Ok? && !Locked(s, t.key))
            && (!HoldsLock(t.phase) ==> t.reply == Some(Reply(s.now, false)))
  {
    RunInv(cfg, events);
  }

  /** An action on a device under its bare name is refused while one under its full id is live. */
  lemma BareNameIsExcludedToo(cfg: Config, events: seq<Event>, r: Request, local: string)
    requires var s := Run(cfg, events);
             && cfg.edgeId + ":" + local in s.registry && local !in s.registry && !Prefixed(cfg.edgeId, local)
             && Locked(s, cfg.edgeId + ":" + local)
    requires r.deviceId == local
    ensures var s := Run(cfg, events); Step(s, Execute(r)).tasks[s.nextId].phase.Rejected?
  {
    var s := Run(cfg, events);
    AdmittedIffFree(cfg, events, r);
    BareAndFullShareALock(cfg.edgeId, s.registry, local);
    ResolvedIsManaged(cfg.edgeId, s.registry, cfg.edgeId + ":" + local);
  }

  lemma ExecuteLeavesOthers(s: State, q: Request, id: nat, t: State)
    requires Inv(s) && id in s.tasks && t == ExecuteStep(s, q)
    ensures id in t.tasks && t.tasks[id] == s.tasks[id]
  {
    assert id < s.nextId;
  }

  lemma DetachedStaysDetached(s: State, id: nat, e: Event)
    requires Inv(s) && id in s.tasks && s.tasks[id].phase.Detached?
    requires e != On(id, DriverReturn)
    ensures id in Step(s, e).tasks && Step(s, e).tasks[id] == s.tasks[id]
  {
    if e.Execute? {
      ExecuteLeavesOthers(s, e.request, id, Step(s, e));
    } else if e.On? && e.id in s.tasks && e.id != id {
      TouchesOneTask(s, e.id, e.what);
    }
  }

  lemma DetachedHoldsBoth(s: State, id: nat)
    requires Inv(s) && id in s.tasks && s.tasks[id].phase.Detached?
    ensures s.tasks[id].key in s.busy && id in SlotHolders(s.tasks)
    ensures var v := Step(s, On(id, DriverReturn));
            v.tasks[id].phase.Done? && v.busy == s.busy - {s.tasks[id].key} && v.permits == s.permits + 1
  {
  }

  /**
   A driver call that outlived its caller keeps the device locked, through whatever else happens,
   until that very call returns; and then it gives both guards back.
   */
  lemma {:induction false} DetachedHoldsOn(s: State, id: nat, events: seq<Event>)
    requires Inv(s) && id in s.tasks && s.tasks[id].phase.Detached?
    requires On(id, DriverReturn) !in events
    ensures var u := After(s, events);
            && id in u.tasks && u.tasks[id] == s.tasks[id] && u.tasks[id].key in u.busy
            && id in SlotHolders(u.tasks)
            && var v := Step(u, On(id, DriverReturn));
               v.tasks[id].phase.Done? && v.busy == u.busy - {u.tasks[id].key} && v.permits == u.permits + 1
  {
    if events != [] {
      var before := events[..|events| - 1];
      DetachedHoldsOn(s, id, before);
      AfterKeepsInv(s, before);
      DetachedStaysDetached(After(s, before), id, events[|events| - 1]);
    }
    AfterKeepsInv(s, events);
    DetachedHoldsBoth(After(s, events), id);
  }

  /**
   The time budget. Everything that is answered without having run is answered, and every slot is
   granted, within the action timeout of the start. A reset, its delay included, answers within it,
   too; services answer within that time of being granted their slot, scripts after the grace besides.
   */
  lemma AnswersInTime(cfg: Config, events: seq<Event>, id: nat)
    requires id in Run(cfg, events).tasks && Run(cfg, events).tasks[id].reply.Some?
    ensures var t := Run(cfg, events).tasks[id];
            var answered, ran := t.reply.value.at, t.reply.value.ran;
            && t.startedAt <= t.grantedAt <= t.startedAt + Timeout(cfg)
            && (!ran || t.plan.Reset? ==> answered <= t.startedAt + Timeout(cfg))
            && (ran && !t.plan.Reset? ==>
                  answered <= t.grantedAt + Timeout(cfg) + if t.plan.Script? then cfg.grace else 0)
  {
    RunInv(cfg, events);
    var s := Run(cfg, events);
    assert OnTime(s, s.tasks[id]);
  }

  lemma AfterSnoc(s: State, events: seq<Event>, e: Event)
    ensures After(s, events + [e]) == Step(After(s, events), e)
  {
    assert (events + [e])[..|events|] == events;
  }

  /** What the owner of a timer does when it is up. */
  function OnTimer(p: Phase): TaskEvent {
    match p
    case Delaying(_) => Wake
    case WaitingSlot(_) => SlotTimeout
    case RunningInline(_) => InlineEnd
    case _ => DriverTimeout
  }
}
