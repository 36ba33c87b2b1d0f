/**
 What becomes of a request, told from its own fields and from the events of the run: which requests
 are admitted, how long a power cycle waits, who gets a slot, who is answered and when, and what a
 cancellation leaves (crates/nimon-edge/src/action.rs:160-300 and 379-434).
 */
module ActionLaws {
  import opened Basics
  import opened ActionRuntime
  import opened ActionRuns

  // ------------------------------------------------------------------ the delay as text

  predicate Spaces(s: string) { forall i :: 0 <= i < |s| ==> IsSpace(s[i]) }

  /** Digits, behind a plus sign or not, with space around them or not. */
  predicate IsNumber(text: string, a: string, sign: string, digits: string, b: string) {
    text == a + (sign + digits) + b && Spaces(a) && Spaces(b) && (sign == "" || sign == "+") && AllDigits(digits)
  }

  lemma TrimFirst(c: char, rest: string)
    requires IsSpace(c)
    ensures Trim([c] + rest) == Trim(rest)
  {
    assert ([c] + rest)[1..] == rest;
  }

  lemma TrimLast(rest: string, c: char)
    requires IsSpace(c) && rest != [] && !IsSpace(rest[0])
    ensures Trim(rest + [c]) == Trim(rest)
  {
    assert (rest + [c])[..|rest|] == rest && (rest + [c])[0] == rest[0];
  }

  /** A text that neither begins nor ends with space. */
  predicate Tight(s: string) { s != [] && !IsSpace(s[0]) && !IsSpace(s[|s| - 1]) }

  lemma TrimOneMore(core: string, rest: string, last: char)
    requires Tight(core) && IsSpace(last) && Trim(core + rest) == core
    ensures Trim(core + (rest + [last])) == core
  {
    TrimLast(core + rest, last);
    assert core + (rest + [last]) == core + rest + [last];
  }

  lemma {:induction false} TrimBack(core: string, b: string)
    requires Spaces(b) && Tight(core)
    ensures Trim(core + b) == core
  {
    if b == [] {
      assert core + b == core;
    } else {
      TrimBack(core, b[..|b| - 1]);
      TrimOneMore(core, b[..|b| - 1], b[|b| - 1]);
      assert b == b[..|b| - 1] + [b[|b| - 1]];
    }
  }

  lemma FirstThenRest(a: string, text: string)
    requires a != []
    ensures a + text == [a[0]] + (a[1..] + text)
  {
  }

  lemma {:induction false} TrimAround(a: string, text: string)
    requires Spaces(a)
    ensures Trim(a + text) == Trim(text)
  {
    if a == [] {
      assert a + text == text;
    } else {
      TrimAround(a[1..], text);
      TrimFirst(a[0], a[1..] + text);
      FirstThenRest(a, text);
    }
  }

  /** The number in seconds, but never more than five minutes; beyond 64 bits it is as good as none. */
  function Seconds(n: nat): nat { if n >= 0x1_0000_0000_0000_0000 then 0 else if n < 300 then n else 300 }

  lemma DigitsParse(sign: string, digits: string)
    requires (sign == "" || sign == "+") && AllDigits(digits)
    ensures ParseU64(sign + digits) ==
            if NumberOf(digits) < 0x1_0000_0000_0000_0000 then Some(NumberOf(digits)) else None
  {
    if sign == "" {
      assert sign + digits == digits;
    } else {
      assert (sign + digits)[1..] == digits;
    }
  }

  lemma TrimWithin(a: string, core: string, b: string)
    requires Spaces(a) && Tight(core) && Spaces(b)
    ensures Trim(a + core + b) == core
  {
    assert a + core + b == a + (core + b);
    TrimAround(a, core + b);
    TrimBack(core, b);
  }

  lemma NumbersAreTight(sign: string, digits: string)
    requires (sign == "" || sign == "+") && AllDigits(digits)
    ensures Tight(sign + digits)
  {
    var core := sign + digits;
    assert core[0] == if sign == "" then digits[0] else '+';
    assert core[|core| - 1] == digits[|digits| - 1];
  }

  lemma TrimNumber(text: string, a: string, sign: string, digits: string, b: string)
    requires IsNumber(text, a, sign, digits, b)
    ensures Trim(text) == sign + digits
  {
    NumbersAreTight(sign, digits);
    TrimWithin(a, sign + digits, b);
  }

  /** A text that is a number gives that many seconds. */
  lemma NumberIsDelay(text: string, a: string, sign: string, digits: string, b: string)
    requires IsNumber(text, a, sign, digits, b)
    ensures ParseDelay(Some(text)) == Seconds(NumberOf(digits))
  {
    TrimNumber(text, a, sign, digits, b);
    DigitsParse(sign, digits);
  }

  /** And any other text, or none, gives no delay. */
  lemma OnlyNumbersDelay(parameter: Option<string>)
    requires ParseDelay(parameter) > 0
    ensures parameter.Some?
    ensures var core := Trim(parameter.value); AllDigits(core) || (core != [] && core[0] == '+' && AllDigits(core[1..]))
  {
  }

  // ------------------------------------------------------------------ which requests are valid

  /** The managed device that the request is about: by its own id, or by its bare name. */
  ghost predicate RefersTo(edgeId: string, registry: Registry, name: string, id: string) {
    && id in registry
    && (id == name || (id == edgeId + ":" + name && name !in registry && !(edgeId + ":" <= name)))
  }

  /** A real device that the driver knows by name, and a delay that leaves time for the reset. */
  ghost predicate ResetAllowed(cfg: Config, registry: Registry, name: string, delay: nat) {
    && cfg.daqmxEnabled && (delay == 0 || delay < cfg.timeoutSecs)
    && exists id :: RefersTo(cfg.edgeId, registry, name, id)
                    && !registry[id].isSimulated && registry[id].daqmxName.Some?
  }

  /** Only a power cycle waits. */
  ghost predicate Valid(cfg: Config, registry: Registry, r: Request) {
    match r.actionType
    case PowerCycle => ResetAllowed(cfg, registry, r.deviceId, ParseDelay(r.delay))
    case ResetDriver => ResetAllowed(cfg, registry, r.deviceId, 0)
    case RestartServices(valid) => valid
    case CustomScript(valid) => valid
  }

  lemma ReferenceResolves(edgeId: string, registry: Registry, name: string, id: string)
    ensures RefersTo(edgeId, registry, name, id) <==> ResolveId(edgeId, registry, name) == Some(id)
  {
  }

  lemma AllowedIff(cfg: Config, registry: Registry, name: string, delay: nat)
    ensures ResetAllowed(cfg, registry, name, delay) <==>
            && cfg.daqmxEnabled && (delay == 0 || delay < Timeout(cfg))
            && var id := ResolveId(cfg.edgeId, registry, name);
               id.Some? && id.value in registry && !registry[id.value].isSimulated && registry[id.value].daqmxName.Some?
  {
    forall id
      ensures RefersTo(cfg.edgeId, registry, name, id) <==> ResolveId(cfg.edgeId, registry, name) == Some(id)
    {
      ReferenceResolves(cfg.edgeId, registry, name, id);
    }
  }

  /** What is carried out for a valid request. */
  lemma PlanIff(cfg: Config, registry: Registry, r: Request)
    ensures PlanOf(cfg, registry, r).Ok? <==> Valid(cfg, registry, r)
    ensures Valid(cfg, registry, r) ==>
              var plan := PlanOf(cfg, registry, r).value;
              && (r.actionType.PowerCycle? ==> plan == Reset(ParseDelay(r.delay)))
              && (r.actionType.ResetDriver? ==> plan == Reset(0))
              && (r.actionType.RestartServices? ==> plan == Services)
              && (r.actionType.CustomScript? ==> plan == Script)
  {
    AllowedIff(cfg, registry, r.deviceId, ParseDelay(r.delay));
    AllowedIff(cfg, registry, r.deviceId, 0);
  }

  /** In every run a request is admitted exactly if it is valid and nothing live holds its lock. */
  lemma AdmittedIff(cfg: Config, events: seq<Event>, r: Request)
    ensures var s := Run(cfg, events); var t := Step(s, Execute(r));
            && s.nextId !in s.tasks && s.nextId in t.tasks
            && (HoldsLock(t.tasks[s.nextId].phase) <==>
                  Valid(cfg, s.registry, r) && !Locked(s, LockKey(cfg.edgeId, s.registry, r.deviceId)))
            && (!HoldsLock(t.tasks[s.nextId].phase) ==> t.tasks[s.nextId].reply == Some(Reply(s.now, false)))
            && t.tasks[s.nextId].startedAt == s.now
  {
    var s := Run(cfg, events);
    RunInv(cfg, events);
    AdmittedIffFree(cfg, events, r);
    PlanIff(cfg, s.registry, r);
  }

  // ------------------------------------------------------------------ a delay is waited out

  /** A reset asks for its slot, and gets it, no earlier than its delay has passed. */
  ghost predicate Waited(s: State, t: Task) {
    t.plan.Reset? ==>
      && (t.phase.Delaying? ==> t.phase.until == t.startedAt + t.plan.delaySecs)
      && (t.phase.WaitingSlot? ==> s.now >= t.startedAt + t.plan.delaySecs)
      && (HoldsSlot(t.phase) || (t.reply.Some? && t.reply.value.ran) ==>
            s.now >= t.grantedAt >= t.startedAt + t.plan.delaySecs)
  }

  ghost predicate AllWaited(s: State) { forall id | id in s.tasks :: Waited(s, s.tasks[id]) }

  lemma OwnWaited(s: State, id: nat, what: TaskEvent, t: State)
    requires id in s.tasks && OnTime(s, s.tasks[id]) && Waited(s, s.tasks[id]) && t == TaskStep(s, id, what)
    ensures id in t.tasks && Waited(t, t.tasks[id])
  {
  }

  lemma TaskWaited(s: State, id: nat, what: TaskEvent, t: State)
    requires AllWaited(s) && Inv(s) && id in s.tasks && t == TaskStep(s, id, what)
    ensures AllWaited(t)
  {
    TouchesOneTask(s, id, what);
    OwnWaited(s, id, what, t);
    forall j | j in t.tasks
      ensures Waited(t, t.tasks[j])
    {
      assert j != id ==> t.tasks[j] == s.tasks[j] && Waited(s, s.tasks[j]);
    }
  }

  lemma StartWaited(s: State, r: Request, t: State)
    requires AllWaited(s) && Inv(s) && t == Step(s, Execute(r))
    ensures AllWaited(t)
  {
    forall j | j in t.tasks
      ensures Waited(t, t.tasks[j])
    {
      assert j != s.nextId ==> t.tasks[j] == s.tasks[j] && Waited(s, s.tasks[j]);
    }
  }

  lemma StepWaited(s: State, e: Event, t: State)
    requires AllWaited(s) && Inv(s) && t == Step(s, e)
    ensures AllWaited(t)
  {
    if e.Execute? {
      StartWaited(s, e.request, t);
    } else if e.On? {
      if e.id in s.tasks {
        TaskWaited(s, e.id, e.what, t);
      }
    } else {
      assert t.tasks == s.tasks && forall id | id in s.tasks :: Waited(s, s.tasks[id]) ==> Waited(t, s.tasks[id]);
    }
  }

  lemma {:induction false} AfterWaited(s: State, events: seq<Event>)
    requires AllWaited(s) && Inv(s)
    ensures AllWaited(After(s, events))
  {
    if events != [] {
      var init := events[..|events| - 1];
      AfterWaited(s, init);
      AfterKeepsInv(s, init);
      StepWaited(After(s, init), events[|events| - 1], After(s, events));
    }
  }

  /** The slot of task `id`, if it has had one, was granted no earlier than `delay` after its start. */
  ghost predicate NoSlotBefore(s: State, id: nat, delay: nat) {
    && id in s.tasks
    && (HoldsSlot(s.tasks[id].phase) || (s.tasks[id].reply.Some? && s.tasks[id].reply.value.ran) ==>
          s.tasks[id].grantedAt >= s.tasks[id].startedAt + delay)
  }

  /** Whatever happens after it was admitted, a power cycle gets no slot before its delay is over. */
  lemma PowerCycleWaits(cfg: Config, events: seq<Event>, r: Request, more: seq<Event>)
    requires var s := Run(cfg, events);
             Valid(cfg, s.registry, r) && !Locked(s, LockKey(cfg.edgeId, s.registry, r.deviceId))
    requires r.actionType.PowerCycle?
    ensures var s := Run(cfg, events); NoSlotBefore(After(Step(s, Execute(r)), more), s.nextId, ParseDelay(r.delay))
  {
    var s := Run(cfg, events);
    var t := Step(s, Execute(r));
    RunInv(cfg, events);
    AdmittedIff(cfg, events, r);
    PlanIff(cfg, s.registry, r);
    NextKeepsInv(s, Execute(r), t);
    AfterWaited(Init(cfg), events);
    StepWaited(s, Execute(r), t);
    AfterWaited(t, more);
    AfterSameTask(t, more, s.nextId);
    assert Waited(After(t, more), After(t, more).tasks[s.nextId]);
  }

  /** In particular with its delay in decimal: at least that many seconds, up to 300. */
  lemma WrittenDelayIsWaited(cfg: Config, events: seq<Event>, r: Request, n: nat, more: seq<Event>)
    requires var s := Run(cfg, events);
             Valid(cfg, s.registry, r) && !Locked(s, LockKey(cfg.edgeId, s.registry, r.deviceId))
    requires r.actionType.PowerCycle? && r.delay == Some(Decimal(n)) && n < 0x1_0000_0000_0000_0000
    ensures var s := Run(cfg, events);
            NoSlotBefore(After(Step(s, Execute(r)), more), s.nextId, if n < 300 then n else 300)
  {
    PowerCycleWaits(cfg, events, r, more);
    DelayAsWritten(n);
  }

  /** Everything else, and a power cycle without a delay, is in the queue for a slot from its start. */
  lemma OthersQueueAtOnce(cfg: Config, events: seq<Event>, r: Request)
    requires var s := Run(cfg, events);
             Valid(cfg, s.registry, r) && !Locked(s, LockKey(cfg.edgeId, s.registry, r.deviceId))
    ensures var s := Run(cfg, events); var t := Step(s, Execute(r));
            if r.actionType.PowerCycle? && ParseDelay(r.delay) > 0
            then t.tasks[s.nextId].phase == Delaying(s.now + ParseDelay(r.delay)) && t.queue == s.queue
            else t.tasks[s.nextId].phase.WaitingSlot? && t.queue == s.queue + [s.nextId]
  {
    var s := Run(cfg, events);
    RunInv(cfg, events);
    AdmittedIff(cfg, events, r);
    PlanIff(cfg, s.registry, r);
  }

  // ------------------------------------------------------------------ what each event does to a task

  lemma {:induction false} ServedIff(queue: seq<nat>, permits: nat, id: nat)
    requires id in queue
    ensures id in (if permits < |queue| then queue[..permits] else queue) <==> Ahead(queue, id) < permits
  {
    if queue[0] == id {
      assert permits > 0 && permits < |queue| ==> queue[..permits][0] == id;
    } else {
      assert queue == [queue[0]] + queue[1..];
      if permits > 0 {
        ServedIff(queue[1..], permits - 1, id);
        assert permits < |queue| ==> queue[..permits] == [queue[0]] + queue[1..][..permits - 1];
      } else {
        AheadWithin(queue, id);
      }
    }
  }

  lemma {:induction false} AheadWithin(queue: seq<nat>, id: nat)
    requires id in queue
    ensures Ahead(queue, id) < |queue|
  {
    if queue[0] != id {
      AheadWithin(queue[1..], id);
    }
  }

  /** Its time for a slot is up, and as many wait before it as there are permits. */
  ghost predicate TimeIsUp(s: State, id: nat)
    requires id in s.tasks
  {
    && s.tasks[id].phase.WaitingSlot? && s.now >= s.tasks[id].startedAt + Timeout(s.cfg)
    && id in s.queue && Ahead(s.queue, id) >= s.permits
  }

  ghost predicate GivesUp(s: State, id: nat, e: Event)
    requires id in s.tasks
  {
    e == On(id, SlotTimeout) && TimeIsUp(s, id)
  }

  predicate BodyEndsBy(s: State, id: nat, e: Event)
    requires id in s.tasks
  {
    e == On(id, InlineEnd) && s.tasks[id].phase.RunningInline?
  }

  predicate DriverEndsBy(s: State, id: nat, e: Event)
    requires id in s.tasks
  {
    e == On(id, DriverReturn) && (s.tasks[id].phase.DriverCall? || s.tasks[id].phase.Detached?)
  }

  /** The caller's time is up while the driver is still at it. */
  predicate LeavesDriver(s: State, id: nat, e: Event)
    requires id in s.tasks
  {
    e == On(id, DriverTimeout) && s.tasks[id].phase.DriverCall? && s.now >= s.tasks[id].startedAt + Timeout(s.cfg)
  }

  lemma UntouchedTask(s: State, e: Event, id: nat, t: State)
    requires Inv(s) && id in s.tasks && t == Step(s, e) && !(e.On? && e.id == id)
    ensures id in t.tasks && t.tasks[id] == s.tasks[id]
  {
    if e.Execute? {
      ExecuteLeavesOthers(s, e.request, id, t);
    } else if e.On? && e.id in s.tasks {
      TouchesOneTask(s, e.id, e.what);
    }
  }

  /** What matters to a task of the state that it is in. */
  ghost predicate InOrder(s: State, id: nat) {
    && id in s.tasks && OnTime(s, s.tasks[id])
    && (s.tasks[id].phase.WaitingSlot? ==>
          (s.now >= s.tasks[id].phase.due && id !in Served(s) <==> TimeIsUp(s, id)))
  }

  lemma AllInOrder(s: State, id: nat)
    requires Inv(s) && id in s.tasks
    ensures InOrder(s, id)
  {
    assert OnTime(s, s.tasks[id]);
    if s.tasks[id].phase.WaitingSlot? {
      assert id in s.queue;
      ServedIff(s.queue, s.permits, id);
    }
  }

  lemma OwnAnswer(s: State, what: TaskEvent, id: nat, t: State)
    requires InOrder(s, id) && t == TaskStep(s, id, what)
    ensures id in t.tasks
    ensures s.tasks[id].reply.Some? ==> t.tasks[id].reply == s.tasks[id].reply
    ensures s.tasks[id].reply.None? ==>
              var e := On(id, what);
              t.tasks[id].reply ==
              if GivesUp(s, id, e) || BodyEndsBy(s, id, e) || LeavesDriver(s, id, e)
                 || (DriverEndsBy(s, id, e) && s.tasks[id].phase.DriverCall?)
              then Some(Reply(s.now, HoldsSlot(s.tasks[id].phase))) else None
  {
  }

  /**
   A caller is answered exactly when its task gives up, its body or its driver call ends, or its time
   with the driver is up: at that instant, as having run exactly if it held a slot, and once only.
   */
  lemma AnsweredIff(s: State, e: Event, id: nat, t: State)
    requires Inv(s) && id in s.tasks && t == Step(s, e)
    ensures id in t.tasks
    ensures s.tasks[id].reply.Some? ==> t.tasks[id].reply == s.tasks[id].reply
    ensures s.tasks[id].reply.None? ==>
              t.tasks[id].reply ==
              if GivesUp(s, id, e) || BodyEndsBy(s, id, e) || LeavesDriver(s, id, e)
                 || (DriverEndsBy(s, id, e) && s.tasks[id].phase.DriverCall?)
              then Some(Reply(s.now, HoldsSlot(s.tasks[id].phase))) else None
  {
    if e.On? && e.id == id {
      AllInOrder(s, id);
      OwnAnswer(s, e.what, id, t);
    } else {
      UntouchedTask(s, e, id, t);
    }
  }

  lemma OwnSlot(s: State, what: TaskEvent, id: nat, t: State)
    requires id in s.tasks && !HoldsSlot(s.tasks[id].phase) && t == TaskStep(s, id, what)
    requires s.queue != [] && s.queue[0] == id ==> s.tasks[id].phase.WaitingSlot?
    ensures id in t.tasks
    ensures HoldsSlot(t.tasks[id].phase) <==> what == Grant && s.permits > 0 && s.queue != [] && s.queue[0] == id
    ensures HoldsSlot(t.tasks[id].phase) ==>
              t.tasks[id].grantedAt == s.now && (t.tasks[id].phase.DriverCall? <==> s.tasks[id].plan.Reset?)
  {
  }

  /** A task takes a slot exactly when it is first in the queue and a permit is free. */
  lemma SlotTakenIff(s: State, e: Event, id: nat, t: State)
    requires Inv(s) && id in s.tasks && !HoldsSlot(s.tasks[id].phase) && t == Step(s, e)
    ensures id in t.tasks
    ensures HoldsSlot(t.tasks[id].phase) <==>
            e == On(id, Grant) && s.permits > 0 && s.queue != [] && s.queue[0] == id
    ensures HoldsSlot(t.tasks[id].phase) ==>
              t.tasks[id].grantedAt == s.now && (t.tasks[id].phase.DriverCall? <==> s.tasks[id].plan.Reset?)
  {
    if e.On? && e.id == id {
      assert s.queue != [] ==> s.queue[0] in s.queue;
      OwnSlot(s, e.what, id, t);
    } else {
      UntouchedTask(s, e, id, t);
    }
  }

  lemma OwnRelease(s: State, what: TaskEvent, id: nat, t: State)
    requires InOrder(s, id) && HoldsLock(s.tasks[id].phase) && t == TaskStep(s, id, what)
    ensures id in t.tasks
    ensures !HoldsLock(t.tasks[id].phase) <==>
            var e := On(id, what);
            || GivesUp(s, id, e) || BodyEndsBy(s, id, e) || DriverEndsBy(s, id, e)
            || (what == Cancel && !s.tasks[id].phase.DriverCall? && !s.tasks[id].phase.Detached?)
    ensures !HoldsLock(t.tasks[id].phase) ==>
              s.tasks[id].key !in t.busy && t.permits == s.permits + if HoldsSlot(s.tasks[id].phase) then 1 else 0
  {
  }

  /** Its locks and slots are given back exactly when it gives up, ends, or is cancelled outside the driver. */
  lemma ReleasedIff(s: State, e: Event, id: nat, t: State)
    requires Inv(s) && id in s.tasks && HoldsLock(s.tasks[id].phase) && t == Step(s, e)
    ensures id in t.tasks
    ensures !HoldsLock(t.tasks[id].phase) <==>
            || GivesUp(s, id, e) || BodyEndsBy(s, id, e) || DriverEndsBy(s, id, e)
            || (e == On(id, Cancel) && !s.tasks[id].phase.DriverCall? && !s.tasks[id].phase.Detached?)
    ensures !HoldsLock(t.tasks[id].phase) ==>
              s.tasks[id].key !in t.busy && t.permits == s.permits + if HoldsSlot(s.tasks[id].phase) then 1 else 0
  {
    if e.On? && e.id == id {
      AllInOrder(s, id);
      OwnRelease(s, e.what, id, t);
    } else {
      UntouchedTask(s, e, id, t);
    }
  }

  lemma OwnDetachment(s: State, what: TaskEvent, id: nat, t: State)
    requires InOrder(s, id) && !s.tasks[id].phase.Detached? && t == TaskStep(s, id, what)
    ensures id in t.tasks
    ensures t.tasks[id].phase.Detached? <==>
            (what == Cancel && s.tasks[id].phase.DriverCall?) || LeavesDriver(s, id, On(id, what))
  {
  }

  /** A driver call goes on without its caller exactly when the caller is cancelled or its time is up. */
  lemma DetachedIff(s: State, e: Event, id: nat, t: State)
    requires Inv(s) && id in s.tasks && !s.tasks[id].phase.Detached? && t == Step(s, e)
    ensures id in t.tasks
    ensures t.tasks[id].phase.Detached? <==>
            (e == On(id, Cancel) && s.tasks[id].phase.DriverCall?) || LeavesDriver(s, id, e)
  {
    if e.On? && e.id == id {
      AllInOrder(s, id);
      OwnDetachment(s, e.what, id, t);
    } else {
      UntouchedTask(s, e, id, t);
    }
  }
}
