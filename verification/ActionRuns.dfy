/**
 Exact conditions on whole runs of the action runtime: when an action may take longer than the
 action timeout (crates/nimon-edge/src/action.rs:14-18), and when two actions can be live on one
 device (lines 12-13).
 */
module ActionRuns {
  import opened Basics
  import opened ActionRuntime

  // ------------------------------------------------------------------ runs

  lemma {:induction false} AfterTwo(s: State, a: seq<Event>, b: seq<Event>)
    ensures After(s, a + b) == After(After(s, a), b)
  {
    if b == [] {
      assert a + b == a;
    } else {
      var init, e := b[..|b| - 1], b[|b| - 1];
      AfterTwo(s, a, init);
      assert a + b == (a + init) + [e] && b == init + [e];
      AfterSnoc(s, a + init, e);
      AfterSnoc(After(s, a), init, e);
    }
  }

  lemma AfterCons(s: State, e: Event, rest: seq<Event>)
    ensures After(s, [e] + rest) == After(Step(s, e), rest)
  {
    AfterTwo(s, [e], rest);
    assert [] + [e] == [e];
    AfterSnoc(s, [], e);
  }

  /** What a task was started with stays. */
  ghost predicate SameTask(t: Task, u: Task) { u.key == t.key && u.plan == t.plan && u.startedAt == t.startedAt }

  lemma TaskStepSameTask(s: State, other: nat, what: TaskEvent, id: nat, t: State)
    requires id in s.tasks && other in s.tasks && t == TaskStep(s, other, what)
    ensures id in t.tasks && SameTask(s.tasks[id], t.tasks[id])
  {
    TouchesOneTask(s, other, what);
  }

  lemma StepSameTask(s: State, e: Event, id: nat, t: State)
    requires Inv(s) && id in s.tasks && t == Step(s, e)
    ensures id in t.tasks && SameTask(s.tasks[id], t.tasks[id])
  {
    if e.Execute? {
      ExecuteLeavesOthers(s, e.request, id, t);
    } else if e.On? && e.id in s.tasks {
      TaskStepSameTask(s, e.id, e.what, id, t);
    }
  }

  lemma {:induction false} AfterSameTask(s: State, events: seq<Event>, id: nat)
    requires Inv(s) && id in s.tasks
    ensures id in After(s, events).tasks && SameTask(s.tasks[id], After(s, events).tasks[id])
  {
    if events != [] {
      var init, e := events[..|events| - 1], events[|events| - 1];
      AfterSameTask(s, init, id);
      AfterKeepsInv(s, init);
      StepSameTask(After(s, init), e, id, After(s, events));
    }
  }

  // ------------------------------------------------------------------ the place in the queue

  /** How many wait before `id`. */
  function Ahead(queue: seq<nat>, id: nat): nat
    requires id in queue
  {
    if queue[0] == id then 0 else 1 + Ahead(queue[1..], id)
  }

  lemma {:induction false} AheadOfLast(queue: seq<nat>, id: nat)
    requires id !in queue
    ensures Ahead(queue + [id], id) == |queue|
  {
    if queue != [] {
      assert (queue + [id])[1..] == queue[1..] + [id];
      AheadOfLast(queue[1..], id);
    }
  }

  lemma {:induction false} AheadStays(queue: seq<nat>, id: nat, other: nat)
    requires id in queue
    ensures Ahead(queue + [other], id) == Ahead(queue, id)
  {
    if queue[0] != id {
      assert (queue + [other])[1..] == queue[1..] + [other];
      AheadStays(queue[1..], id, other);
    }
  }

  lemma {:induction false} AheadShrinks(queue: seq<nat>, id: nat, other: nat)
    requires id in queue && other != id
    ensures id in Without(queue, other) && Ahead(Without(queue, other), id) <= Ahead(queue, id)
  {
    if queue[0] != id {
      if queue[0] != other {
        AheadShrinks(queue[1..], id, other);
        var rest := Without(queue[1..], other);
        assert Without(queue, other) == [queue[0]] + rest && ([queue[0]] + rest)[1..] == rest;
      }
    } else {
      assert Without(queue, other) == [id] + Without(queue[1..], other);
    }
  }

  /** Bodies whose time is up: each of them frees its slot before the clock moves on. */
  ghost function Ending(s: State): set<nat> {
    set id | id in s.tasks && s.tasks[id].phase.RunningInline? && s.tasks[id].phase.due <= s.now
  }

  /** A slot is free, or becomes free at this very instant, for one more action. */
  ghost predicate SlotLeft(s: State) { s.permits + |Ending(s)| > |s.queue| }

  /** One for the task in the queue. */
  ghost predicate SlotFor(s: State, id: nat)
    requires id in s.queue
  {
    s.permits + |Ending(s)| > Ahead(s.queue, id)
  }

  predicate IsEnding(now: nat, t: Task) { t.phase.RunningInline? && t.phase.due <= now }

  lemma OneMoreEnding(s: State, u: State, id: nat)
    requires id in u.tasks && u.tasks == s.tasks[id := u.tasks[id]] && u.now == s.now
    ensures var before := id in s.tasks && IsEnding(s.now, s.tasks[id]);
            |Ending(u)| == |Ending(s)| - (if before then 1 else 0) + (if IsEnding(s.now, u.tasks[id]) then 1 else 0)
  {
    var others := Ending(s) - {id};
    assert Ending(s) == if id in s.tasks && IsEnding(s.now, s.tasks[id]) then others + {id} else others;
    assert Ending(u) == if IsEnding(s.now, u.tasks[id]) then others + {id} else others;
  }

  // ------------------------------------------------------------------ a slot left means an answer in time

  /** The task has its slot since it asked, or still waits for one that is there for it. */
  ghost predicate Prompt(s: State, id: nat) {
    && id in s.tasks
    && if s.tasks[id].phase.WaitingSlot? then id in s.queue && s.now == s.tasks[id].startedAt && SlotFor(s, id)
       else !s.tasks[id].phase.Delaying? && s.tasks[id].grantedAt == s.tasks[id].startedAt
  }

  lemma OthersPrompt(s: State, other: nat, what: TaskEvent, id: nat, u: State)
    requires Inv(s) && other in s.tasks && other != id && Prompt(s, id) && u == TaskStep(s, other, what)
    ensures Prompt(u, id)
  {
    if s.tasks[id].phase.WaitingSlot? && u != s {
      OneMoreEnding(s, u, other);
      assert OnTime(s, s.tasks[other]);
      match what
      case Wake => AheadStays(s.queue, id, other);
      case Grant => assert Ahead(s.queue[1..], id) == Ahead(s.queue, id) - 1;
      case _ => AheadShrinks(s.queue, id, other);
    }
  }

  lemma OwnPrompt(s: State, what: TaskEvent, id: nat, u: State)
    requires Inv(s) && Prompt(s, id) && u == TaskStep(s, id, what)
    ensures Prompt(u, id)
  {
    assert OnTime(s, s.tasks[id]);
  }

  lemma ExecutePrompt(s: State, r: Request, id: nat, u: State)
    requires Inv(s) && Prompt(s, id) && u == ExecuteStep(s, r)
    ensures Prompt(u, id)
  {
    assert id < s.nextId;
    if s.tasks[id].phase.WaitingSlot? {
      OneMoreEnding(s, u, s.nextId);
      AheadStays(s.queue, id, s.nextId);
    }
  }

  lemma TickPrompt(s: State, id: nat, u: State)
    requires Inv(s) && Prompt(s, id) && u == Step(s, Tick)
    ensures Prompt(u, id)
  {
    if MayTick(s) {
      assert Ending(s) == {};
    }
  }

  lemma StepPrompt(s: State, e: Event, id: nat, u: State)
    requires Inv(s) && Prompt(s, id) && u == Step(s, e)
    ensures Prompt(u, id)
  {
    match e
    case SetRegistry(_) => assert Ending(u) == Ending(s);
    case Execute(r) => ExecutePrompt(s, r, id, u);
    case Tick => TickPrompt(s, id, u);
    case On(other, what) =>
      if other in s.tasks {
        if other == id {
          OwnPrompt(s, what, id, u);
        } else {
          OthersPrompt(s, other, what, id, u);
        }
      }
  }

  lemma {:induction false} StaysPrompt(s: State, events: seq<Event>, id: nat)
    requires Inv(s) && Prompt(s, id)
    ensures Prompt(After(s, events), id)
  {
    if events != [] {
      var init, e := events[..|events| - 1], events[|events| - 1];
      StaysPrompt(s, init, id);
      AfterKeepsInv(s, init);
      StepPrompt(After(s, init), e, id, After(s, events));
    }
  }

  // ------------------------------------------------------------------ no slot left means a late answer is possible

  /** The task waits for a slot. */
  ghost predicate Waits(s: State, id: nat) { Inv(s) && id in s.tasks && s.tasks[id].phase.WaitingSlot? }

  /** Another moment of the same instant, in which the task still waits as before. */
  ghost predicate StillWaits(s: State, t: State, id: nat) {
    && Waits(s, id) && Waits(t, id) && t.tasks[id] == s.tasks[id] && t.now == s.now && t.cfg == s.cfg
  }

  lemma OneStep(s: State, id: nat, what: TaskEvent) returns (t: State)
    requires Inv(s) && id in s.tasks
    ensures t == TaskStep(s, id, what) && t == Step(s, On(id, what)) && Inv(t) && t.cfg == s.cfg && t.now == s.now
    ensures t.tasks.Keys == s.tasks.Keys && forall j | j in s.tasks :: j != id ==> t.tasks[j] == s.tasks[j]
  {
    t := TaskStep(s, id, what);
    NextKeepsInv(s, On(id, what), t);
    TouchesOneTask(s, id, what);
  }

  lemma Prepend(s: State, e: Event, t: State, rest: seq<Event>) returns (more: seq<Event>)
    requires t == Step(s, e)
    ensures After(s, more) == After(t, rest)
  {
    more := [e] + rest;
    AfterCons(s, e, rest);
  }

  lemma StillWaitsChain(s: State, t: State, u: State, id: nat)
    requires StillWaits(s, t, id) && StillWaits(t, u, id)
    ensures StillWaits(s, u, id)
  {
  }

  /** A free permit goes to the head of the queue, which is not the task. */
  lemma ServeHead(s: State, id: nat) returns (t: State)
    requires Waits(s, id) && !SlotFor(s, id) && s.permits > 0
    ensures s.queue != [] && t == Step(s, On(s.queue[0], Grant))
    ensures StillWaits(s, t, id) && !SlotFor(t, id)
    ensures |Ending(t)| == |Ending(s)| && t.permits == s.permits - 1
  {
    t := OneStep(s, s.queue[0], Grant);
    HeadServed(s, t);
    assert Ahead(s.queue[1..], id) == Ahead(s.queue, id) - 1;
  }

  lemma HeadServed(s: State, t: State)
    requires QueueAgrees(s) && s.queue != [] && s.permits > 0 && t == TaskStep(s, s.queue[0], Grant)
    ensures t.permits == s.permits - 1 && t.queue == s.queue[1..] && |Ending(t)| == |Ending(s)|
  {
    assert s.queue[0] in s.queue;
    OneMoreEnding(s, t, s.queue[0]);
  }

  lemma BodyEnds(s: State, j: nat, t: State)
    requires QueueAgrees(s) && j in Ending(s) && t == TaskStep(s, j, InlineEnd)
    ensures t.permits == s.permits + 1 && t.queue == s.queue && |Ending(t)| == |Ending(s)| - 1
  {
    NotQueued(s.queue, j);
    OneMoreEnding(s, t, j);
  }

  /** A body that is due ends. */
  lemma EndBody(s: State, id: nat, j: nat) returns (t: State)
    requires Waits(s, id) && !SlotFor(s, id) && s.permits == 0 && j in Ending(s)
    ensures t == Step(s, On(j, InlineEnd)) && StillWaits(s, t, id) && !SlotFor(t, id)
    ensures |Ending(t)| == |Ending(s)| - 1 && t.permits == 1
  {
    t := OneStep(s, j, InlineEnd);
    BodyEnds(s, j, t);
  }

  /** Bodies that are due end, and what they free goes to those ahead. */
  lemma {:induction false} UseUp(s: State, id: nat) returns (more: seq<Event>)
    requires Waits(s, id) && !SlotFor(s, id)
    ensures var t := After(s, more); StillWaits(s, t, id) && t.permits == 0 && Ending(t) == {}
    decreases 2 * |Ending(s)| + s.permits
  {
    if s.permits > 0 {
      var t := ServeHead(s, id);
      var rest := UseUp(t, id);
      more := Prepend(s, On(s.queue[0], Grant), t, rest);
      StillWaitsChain(s, t, After(t, rest), id);
    } else if Ending(s) != {} {
      var j :| j in Ending(s);
      var t := EndBody(s, id, j);
      var rest := UseUp(t, id);
      more := Prepend(s, On(j, InlineEnd), t, rest);
      StillWaitsChain(s, t, After(t, rest), id);
    } else {
      more := [];
    }
  }

  /** Whose timer is up. */
  ghost function Overdue(s: State): set<nat> {
    set id | id in s.tasks && Due(s.tasks[id].phase).Some? && Due(s.tasks[id].phase).value <= s.now
  }

  lemma TimerFires(s: State, j: nat, t: State)
    requires Inv(s) && s.permits == 0 && Ending(s) == {} && j in Overdue(s)
    requires t == TaskStep(s, j, OnTimer(s.tasks[j].phase))
    ensures t.permits == 0 && j !in Overdue(t) && !t.tasks[j].phase.RunningInline?
  {
    assert OnTime(s, s.tasks[j]);
    assert s.tasks[j].phase.RunningInline? ==> j in Ending(s);
  }

  lemma OneLessOverdue(s: State, j: nat, t: State)
    requires j in Overdue(s) && t.now == s.now && t.tasks.Keys == s.tasks.Keys
    requires forall k | k in s.tasks :: k != j ==> t.tasks[k] == s.tasks[k]
    requires j !in Overdue(t) && !t.tasks[j].phase.RunningInline? && Ending(s) == {}
    ensures Overdue(t) == Overdue(s) - {j} && Ending(t) == {}
  {
    assert forall k | k in Ending(t) :: k in Ending(s);
  }

  lemma FireTimer(s: State, id: nat, j: nat) returns (t: State)
    requires Waits(s, id) && s.permits == 0 && Ending(s) == {} && id !in Overdue(s) && j in Overdue(s)
    ensures t == Step(s, On(j, OnTimer(s.tasks[j].phase)))
    ensures StillWaits(s, t, id) && t.permits == 0 && Ending(t) == {}
    ensures Overdue(t) == Overdue(s) - {j}
  {
    t := OneStep(s, j, OnTimer(s.tasks[j].phase));
    TimerFires(s, j, t);
    OneLessOverdue(s, j, t);
  }

  /** All timers of the instant fire. */
  lemma {:induction false} FireTimers(s: State, id: nat) returns (more: seq<Event>)
    requires Waits(s, id) && s.permits == 0 && Ending(s) == {} && id !in Overdue(s)
    ensures var t := After(s, more); StillWaits(s, t, id) && t.permits == 0 && TimersPending(t)
    decreases |Overdue(s)|
  {
    if Overdue(s) == {} {
      assert forall j | j in s.tasks && Due(s.tasks[j].phase).Some? :: j !in Overdue(s);
      more := [];
    } else {
      var j :| j in Overdue(s);
      var t := FireTimer(s, id, j);
      var rest := FireTimers(t, id);
      more := Prepend(s, On(j, OnTimer(s.tasks[j].phase)), t, rest);
      StillWaitsChain(s, t, After(t, rest), id);
    }
  }

  /** Without a slot for it the task can be kept waiting into the next second. */
  lemma WaitASecond(s: State, id: nat) returns (more: seq<Event>)
    requires Waits(s, id) && !SlotFor(s, id) && s.now < s.tasks[id].phase.due
    ensures var t := After(s, more);
            Waits(t, id) && t.tasks[id] == s.tasks[id] && t.now == s.now + 1 && t.cfg == s.cfg
  {
    var first := UseUp(s, id);
    var t := After(s, first);
    var second := FireTimers(t, id);
    var u := After(t, second);
    AfterTwo(s, first, second);
    AfterSnoc(s, first + second, Tick);
    NextKeepsInv(u, Tick, Step(u, Tick));
    more := first + second + [Tick];
  }

  // ------------------------------------------------------------------ time goes on

  /** What timers, bodies and the semaphore do of themselves: nobody is cancelled, and no driver comes back. */
  predicate OfItself(e: Event) { e.On? && e.what in {Wake, Grant, SlotTimeout, InlineEnd, DriverTimeout} }

  ghost predicate AllOfThemselves(events: seq<Event>) { forall e | e in events :: OfItself(e) }

  /** How many such events a task has before it, at most. */
  function EventsLeft(p: Phase): nat {
    match p
    case Delaying(_) => 3
    case WaitingSlot(_) => 2
    case RunningInline(_) => 1
    case DriverCall(_) => 1
    case _ => 0
  }

  /** One element for each of them. */
  ghost function Left(s: State): set<(nat, nat)> {
    set id, k | id in s.tasks && k in {0, 1, 2} && k < EventsLeft(s.tasks[id].phase) :: (id, k)
  }

  lemma FewerLeft(s: State, id: nat, t: State)
    requires id in s.tasks && t.tasks.Keys == s.tasks.Keys
    requires forall j | j in s.tasks :: j != id ==> t.tasks[j] == s.tasks[j]
    requires EventsLeft(t.tasks[id].phase) < EventsLeft(s.tasks[id].phase)
    ensures |Left(t)| < |Left(s)|
  {
    var gone := (id, EventsLeft(t.tasks[id].phase));
    assert gone in Left(s) && gone !in Left(t);
    Smaller(Left(t), Left(s), gone);
  }

  lemma Smaller(a: set<(nat, nat)>, b: set<(nat, nat)>, x: (nat, nat))
    requires a <= b && x in b && x !in a
    ensures |a| < |b|
  {
    var rest := b - {x};
    assert a <= rest;
    Subset(a, rest);
  }

  lemma HeadActs(s: State, id: nat, t: State)
    requires QueueAgrees(s) && s.permits > 0 && s.queue != [] && id == s.queue[0]
    requires id in s.tasks && t == TaskStep(s, id, Grant)
    ensures EventsLeft(t.tasks[id].phase) < EventsLeft(s.tasks[id].phase)
  {
    assert id in s.queue;
  }

  lemma TimerActs(s: State, id: nat, t: State)
    requires id in s.tasks && Due(s.tasks[id].phase).Some? && s.now >= Due(s.tasks[id].phase).value
    requires s.permits == 0 || s.queue == []
    requires t == TaskStep(s, id, OnTimer(s.tasks[id].phase))
    ensures EventsLeft(t.tasks[id].phase) < EventsLeft(s.tasks[id].phase)
  {
  }

  /** Who acts while the clock stands still, and how. */
  lemma SomebodyActs(s: State) returns (id: nat, what: TaskEvent)
    requires Inv(s) && !MayTick(s)
    ensures id in s.tasks && OfItself(On(id, what))
    ensures EventsLeft(TaskStep(s, id, what).tasks[id].phase) < EventsLeft(s.tasks[id].phase)
  {
    if s.permits > 0 && s.queue != [] {
      id, what := s.queue[0], Grant;
      assert id in s.queue;
      HeadActs(s, id, TaskStep(s, id, Grant));
    } else {
      id :| id in s.tasks && Due(s.tasks[id].phase).Some? && s.now >= Due(s.tasks[id].phase).value;
      what := OnTimer(s.tasks[id].phase);
      TimerActs(s, id, TaskStep(s, id, what));
    }
  }

  /** All that is due happens, until the clock may move. */
  lemma {:induction false} Until(s: State) returns (more: seq<Event>)
    requires Inv(s)
    ensures AllOfThemselves(more)
    ensures var t := After(s, more); Inv(t) && MayTick(t) && t.now == s.now
    decreases |Left(s)|
  {
    if MayTick(s) {
      more := [];
    } else {
      var id, what := SomebodyActs(s);
      var t := OneStep(s, id, what);
      FewerLeft(s, id, t);
      var rest := Until(t);
      more := [On(id, what)] + rest;
      AfterCons(s, On(id, what), rest);
    }
  }

  /**
   Time never gets stuck: from every reachable state some timers, ends of bodies and grants lead,
   within the same second, to one in which the clock moves on.
   */
  lemma ClockMovesOn(cfg: Config, events: seq<Event>)
    ensures var s := Run(cfg, events);
            exists more :: AllOfThemselves(more) && After(s, more).now == s.now
                           && After(s, more + [Tick]).now == s.now + 1
  {
    var s := Run(cfg, events);
    RunInv(cfg, events);
    var more := Until(s);
    AfterSnoc(s, more, Tick);
  }

  // ------------------------------------------------------------------ a task that is left alone

  ghost function OthersLive(s: State, id: nat): set<nat> {
    set j | j in s.tasks && j != id && HoldsLock(s.tasks[j].phase)
  }

  /** How a task comes to an end at once. */
  function AtOnce(p: Phase): TaskEvent {
    if p.RunningInline? then InlineEnd else if p.DriverCall? || p.Detached? then DriverReturn else Cancel
  }

  lemma EndsAtOnce(s: State, j: nat, t: State)
    requires j in s.tasks && HoldsLock(s.tasks[j].phase) && t == TaskStep(s, j, AtOnce(s.tasks[j].phase))
    ensures !HoldsLock(t.tasks[j].phase)
  {
  }

  lemma EndOther(s: State, id: nat, j: nat) returns (t: State)
    requires Waits(s, id) && j in OthersLive(s, id)
    ensures t == Step(s, On(j, AtOnce(s.tasks[j].phase)))
    ensures StillWaits(s, t, id) && OthersLive(t, id) == OthersLive(s, id) - {j}
  {
    t := OneStep(s, j, AtOnce(s.tasks[j].phase));
    EndsAtOnce(s, j, t);
  }

  /** All others end. */
  lemma {:induction false} EndOthers(s: State, id: nat) returns (more: seq<Event>)
    requires Waits(s, id)
    ensures var t := After(s, more); StillWaits(s, t, id) && OthersLive(t, id) == {}
    decreases |OthersLive(s, id)|
  {
    if OthersLive(s, id) == {} {
      more := [];
    } else {
      var j :| j in OthersLive(s, id);
      var t := EndOther(s, id, j);
      var rest := EndOthers(t, id);
      more := Prepend(s, On(j, AtOnce(s.tasks[j].phase)), t, rest);
      StillWaitsChain(s, t, After(t, rest), id);
    }
  }

  /** The only live task is in its body. */
  ghost predicate Alone(s: State, id: nat) {
    Inv(s) && id in s.tasks && OthersLive(s, id) == {} && s.tasks[id].phase.RunningInline?
  }

  lemma AloneMayTick(s: State, id: nat)
    requires Alone(s, id) && s.now < s.tasks[id].phase.due
    ensures MayTick(s)
  {
    assert forall j | j in s.tasks && j != id :: j !in OthersLive(s, id);
    if s.queue != [] {
      OnlyOneQueued(s, id, s.queue[0]);
    }
  }

  lemma OnlyOneQueued(s: State, id: nat, j: nat)
    requires QueueAgrees(s) && OthersLive(s, id) == {} && j in s.queue
    ensures j == id
  {
    assert j != id ==> j in OthersLive(s, id);
  }

  function Ticks(k: nat): seq<Event> { seq(k, _ => Tick) }

  lemma {:induction false} RunsToItsEnd(s: State, id: nat, k: nat)
    requires Alone(s, id) && s.now + k == s.tasks[id].phase.due
    ensures var t := After(s, Ticks(k)); t.tasks == s.tasks && t.now == s.now + k
    decreases k
  {
    if k > 0 {
      AloneMayTick(s, id);
      var t := Step(s, Tick);
      NextKeepsInv(s, Tick, t);
      RunsToItsEnd(t, id, k - 1);
      AfterCons(s, Tick, Ticks(k - 1));
      assert Ticks(k) == [Tick] + Ticks(k - 1);
    }
  }

  /** How long the body of a services or script action may take. */
  function Length(cfg: Config, plan: Plan): nat { Timeout(cfg) + if plan.Script? then cfg.grace else 0 }

  lemma AloneInQueue(s: State, id: nat)
    requires Waits(s, id) && OthersLive(s, id) == {}
    ensures s.queue == [id] && s.permits == Slots(s.cfg)
  {
    assert SlotHolders(s.tasks) == {} by {
      assert forall j | j in SlotHolders(s.tasks) :: j in OthersLive(s, id);
    }
    if |s.queue| > 1 {
      assert s.queue[0] != s.queue[1];
      OnlyOneQueued(s, id, s.queue[0]);
      OnlyOneQueued(s, id, s.queue[1]);
    } else {
      assert id in s.queue;
    }
  }

  lemma GrantedAlone(s: State, id: nat, t: State)
    requires Waits(s, id) && OthersLive(s, id) == {} && !s.tasks[id].plan.Reset? && t == TaskStep(s, id, Grant)
    ensures Alone(t, id) && t.now == s.now && t.tasks[id].phase.due == s.now + Length(s.cfg, s.tasks[id].plan)
    ensures SameTask(s.tasks[id], t.tasks[id])
  {
    AloneInQueue(s, id);
    NextKeepsInv(s, On(id, Grant), t);
    assert OthersLive(t, id) == {};
  }

  /** The task has run and been answered. */
  ghost predicate Answered(s: State, id: nat, t: Task, at: nat) {
    id in s.tasks && SameTask(t, s.tasks[id]) && s.tasks[id].reply == Some(Reply(at, true))
  }

  /** It is in its body. */
  ghost predicate InItsBody(s: State, id: nat, t: Task, at: nat) {
    s.now == at && id in s.tasks && SameTask(t, s.tasks[id]) && s.tasks[id].phase.RunningInline?
  }

  lemma EndsItself(s: State, id: nat, t: Task, at: nat, u: State)
    requires InItsBody(s, id, t, at) && u == Step(s, On(id, InlineEnd))
    ensures Answered(u, id, t, at)
  {
  }

  lemma EndsAfter(s: State, events: seq<Event>, id: nat, t: Task, at: nat)
    requires InItsBody(After(s, events), id, t, at)
    ensures Answered(After(s, events + [On(id, InlineEnd)]), id, t, at)
  {
    AfterSnoc(s, events, On(id, InlineEnd));
    EndsItself(After(s, events), id, t, at, After(s, events + [On(id, InlineEnd)]));
  }

  lemma StaysInItsBody(s: State, id: nat, t: Task, length: nat)
    requires Alone(s, id) && SameTask(t, s.tasks[id]) && s.tasks[id].phase.due == s.now + length
    ensures InItsBody(After(s, Ticks(length)), id, t, s.now + length)
  {
    RunsToItsEnd(s, id, length);
  }

  lemma EndsAfterGrant(s: State, id: nat, t: State, task: Task, length: nat) returns (more: seq<Event>)
    requires t == Step(s, On(id, Grant)) && InItsBody(After(t, Ticks(length)), id, task, s.now + length)
    ensures Answered(After(s, more), id, task, s.now + length)
  {
    EndsAfter(t, Ticks(length), id, task, s.now + length);
    more := Prepend(s, On(id, Grant), t, Ticks(length) + [On(id, InlineEnd)]);
  }

  lemma GrantedAndEnds(s: State, id: nat, t: State, length: nat)
    requires Waits(s, id) && OthersLive(s, id) == {} && !s.tasks[id].plan.Reset?
    requires t == TaskStep(s, id, Grant) && length == Length(s.cfg, s.tasks[id].plan)
    ensures InItsBody(After(t, Ticks(length)), id, s.tasks[id], s.now + length)
  {
    GrantedAlone(s, id, t);
    StaysInItsBody(t, id, s.tasks[id], length);
  }

  /** Granted, the only task runs for the whole of its time, and ends. */
  lemma RunsAlone(s: State, id: nat) returns (more: seq<Event>)
    requires Waits(s, id) && OthersLive(s, id) == {} && !s.tasks[id].plan.Reset?
    ensures Answered(After(s, more), id, s.tasks[id], s.now + Length(s.cfg, s.tasks[id].plan))
  {
    var length := Length(s.cfg, s.tasks[id].plan);
    var t := TaskStep(s, id, Grant);
    GrantedAndEnds(s, id, t, length);
    more := EndsAfterGrant(s, id, t, s.tasks[id], length);
  }

  /** A task that waits can be granted its slot now and take all the time it has. */
  lemma TakesItsTime(s: State, id: nat) returns (more: seq<Event>)
    requires Waits(s, id) && !s.tasks[id].plan.Reset?
    ensures Answered(After(s, more), id, s.tasks[id], s.now + Length(s.cfg, s.tasks[id].plan))
  {
    var first := EndOthers(s, id);
    var second := RunsAlone(After(s, first), id);
    AfterTwo(s, first, second);
    more := first + second;
  }

  // ------------------------------------------------------------------ the exact condition

  /** The action was answered later than the action timeout after its start. */
  predicate Late(s: State, id: nat) {
    && id in s.tasks && s.tasks[id].reply.Some?
    && s.tasks[id].reply.value.at > s.tasks[id].startedAt + Timeout(s.cfg)
  }

  ghost predicate MayBeLate(s: State, id: nat) { exists more: seq<Event> :: Late(After(s, more), id) }

  /** The request is valid, and nothing live holds its lock. */
  ghost predicate Admissible(s: State, r: Request) {
    PlanOf(s.cfg, s.registry, r).Ok? && LockKey(s.cfg.edgeId, s.registry, r.deviceId) !in s.busy
  }

  /** What the request becomes when it is admitted. */
  lemma Admitted(s: State, r: Request, u: State)
    requires Inv(s) && Admissible(s, r) && u == Step(s, Execute(r))
    ensures var id, plan := s.nextId, PlanOf(s.cfg, s.registry, r).value;
            && Inv(u) && u.cfg == s.cfg && u.now == s.now && id in u.tasks
            && u.tasks[id].plan == plan && u.tasks[id].startedAt == s.now
            && (!plan.Reset? ==>
                  Waits(u, id) && u.queue == s.queue + [id] && u.tasks[id].phase.due == s.now + Timeout(s.cfg))
  {
    NextKeepsInv(s, Execute(r), u);
  }

  lemma SlotForNewcomer(s: State, r: Request, u: State)
    requires Inv(s) && Admissible(s, r) && u == Step(s, Execute(r)) && !PlanOf(s.cfg, s.registry, r).value.Reset?
    ensures s.nextId in u.queue && (SlotFor(u, s.nextId) <==> SlotLeft(s))
  {
    Admitted(s, r, u);
    AheadOfLast(s.queue, s.nextId);
    OneMoreEnding(s, u, s.nextId);
  }

  /** Resets are never late, and others are not if a slot is left for them and they get no grace. */
  lemma NotLate(s: State, r: Request, u: State, more: seq<Event>)
    requires Inv(s) && Admissible(s, r) && u == Step(s, Execute(r))
    requires var plan := PlanOf(s.cfg, s.registry, r).value;
             plan.Reset? || (SlotLeft(s) && (plan.Script? ==> s.cfg.grace == 0))
    ensures !Late(After(u, more), s.nextId)
  {
    var id, v := s.nextId, After(u, more);
    Admitted(s, r, u);
    AfterSameTask(u, more, id);
    AfterKeepsInv(u, more);
    assert OnTime(v, v.tasks[id]);
    if !u.tasks[id].plan.Reset? {
      SlotForNewcomer(s, r, u);
      StaysPrompt(u, more, id);
    }
  }

  /** Otherwise there is a run in which the action is late. */
  lemma CanBeLate(s: State, r: Request, u: State) returns (more: seq<Event>)
    requires Inv(s) && Admissible(s, r) && u == Step(s, Execute(r)) && !PlanOf(s.cfg, s.registry, r).value.Reset?
    requires !SlotLeft(s) || (PlanOf(s.cfg, s.registry, r).value.Script? && s.cfg.grace > 0)
    ensures Late(After(u, more), s.nextId)
  {
    var id := s.nextId;
    Admitted(s, r, u);
    if SlotLeft(s) {
      more := TakesItsTime(u, id);
      AfterKeepsInv(u, more);
    } else {
      SlotForNewcomer(s, r, u);
      var first := WaitASecond(u, id);
      var second := TakesItsTime(After(u, first), id);
      AfterTwo(u, first, second);
      more := first + second;
      AfterKeepsInv(u, more);
    }
  }

  /**
   The documented bound, exactly: in some run an action is answered later than the action timeout
   after its start if and only if it is no reset, and no slot is left for it at its start or it is a
   script and scripts have a grace period.
   */
  lemma LateIff(cfg: Config, events: seq<Event>, r: Request)
    requires Admissible(Run(cfg, events), r)
    ensures var s := Run(cfg, events); var plan := PlanOf(s.cfg, s.registry, r).value;
            MayBeLate(Step(s, Execute(r)), s.nextId) <==>
            !plan.Reset? && (!SlotLeft(s) || (plan.Script? && s.cfg.grace > 0))
  {
    var s := Run(cfg, events);
    var u := Step(s, Execute(r));
    var plan := PlanOf(s.cfg, s.registry, r).value;
    RunInv(cfg, events);
    if !plan.Reset? && (!SlotLeft(s) || (plan.Script? && s.cfg.grace > 0)) {
      var more := CanBeLate(s, r, u);
      assert Late(After(u, more), s.nextId);
    } else {
      forall more: seq<Event>
        ensures !Late(After(u, more), s.nextId)
      {
        NotLate(s, r, u, more);
      }
    }
  }

  // ------------------------------------------------------------------ twice the timeout

  /** A valid request on the device that is called `n`. */
  function Work(n: nat, script: bool): Request {
    Request(Decimal(n), if script then CustomScript(true) else RestartServices(true), None)
  }

  /** `k` actions have been started and granted their slots, at the very beginning. */
  function Filling(k: nat): seq<Event> {
    if k == 0 then [] else Filling(k - 1) + [Execute(Work(k - 1, false))] + [On(k - 1, Grant)]
  }

  ghost predicate NumberedBelow(busy: set<string>, k: nat) {
    forall x | x in busy :: exists i: nat :: i < k && x == Decimal(i)
  }

  ghost predicate Filled(cfg: Config, s: State, k: nat) {
    && s.cfg == cfg && s.registry == map[] && s.now == 0 && s.nextId == k && s.queue == []
    && s.permits == Slots(cfg) - k
    && NumberedBelow(s.busy, k)
    && (forall i | i in s.tasks :: i < k && s.tasks[i].phase == RunningInline(Timeout(cfg)))
  }

  lemma OneMoreFilled(cfg: Config, s: State, k: nat, t: State, u: State)
    requires Filled(cfg, s, k) && k < Slots(cfg)
    requires t == Step(s, Execute(Work(k, false))) && u == Step(t, On(k, Grant))
    ensures Filled(cfg, u, k + 1)
  {
    NewDevice(s, k, false);
    assert t.busy == s.busy + {Decimal(k)} && t.queue == [k];
  }

  lemma NewDevice(s: State, k: nat, script: bool)
    requires s.registry == map[] && NumberedBelow(s.busy, k)
    ensures Admissible(s, Work(k, script)) && LockKey(s.cfg.edgeId, s.registry, Decimal(k)) == Decimal(k)
  {
    if Decimal(k) in s.busy {
      var i: nat :| i < k && Decimal(k) == Decimal(i);
      DecimalInjective(k, i);
    }
  }

  lemma {:induction false} AllFilled(cfg: Config, k: nat)
    requires k <= Slots(cfg)
    ensures Filled(cfg, Run(cfg, Filling(k)), k)
  {
    if k > 0 {
      AllFilled(cfg, k - 1);
      FillOneMore(cfg, Filling(k - 1), k - 1);
    }
  }

  lemma FillOneMore(cfg: Config, filling: seq<Event>, k: nat)
    requires Filled(cfg, Run(cfg, filling), k) && k < Slots(cfg)
    ensures Filled(cfg, Run(cfg, filling + [Execute(Work(k, false))] + [On(k, Grant)]), k + 1)
  {
    var start, grant := Execute(Work(k, false)), On(k, Grant);
    AfterSnoc(Init(cfg), filling, start);
    AfterSnoc(Init(cfg), filling + [start], grant);
    OneMoreFilled(cfg, Run(cfg, filling), k, Run(cfg, filling + [start]), Run(cfg, filling + [start] + [grant]));
  }

  /** All slots are taken and no timer is due for a while. */
  ghost predicate FullUntil(s: State, due: nat) {
    s.permits == 0 && forall i | i in s.tasks && Due(s.tasks[i].phase).Some? :: Due(s.tasks[i].phase).value >= due
  }

  lemma OneSecond(s: State, due: nat, t: State)
    requires Inv(s) && FullUntil(s, due) && s.now < due && t == Step(s, Tick)
    ensures Inv(t) && FullUntil(t, due) && t.tasks == s.tasks && t.now == s.now + 1 && t.cfg == s.cfg
  {
    assert MayTick(s);
    NextKeepsInv(s, Tick, t);
  }

  lemma {:induction false} TimePasses(s: State, due: nat, k: nat)
    requires Inv(s) && FullUntil(s, due) && s.now + k == due
    ensures var t := After(s, Ticks(k)); Inv(t) && t.tasks == s.tasks && t.now == due && t.cfg == s.cfg
    decreases k
  {
    if k > 0 {
      var t := Step(s, Tick);
      OneSecond(s, due, t);
      TimePasses(t, due, k - 1);
      AfterCons(s, Tick, Ticks(k - 1));
      assert Ticks(k) == [Tick] + Ticks(k - 1);
    }
  }

  lemma LastOneWaits(cfg: Config, s: State, script: bool, t: State)
    requires Inv(s) && Filled(cfg, s, Slots(cfg)) && t == Step(s, Execute(Work(Slots(cfg), script)))
    ensures var id, plan := Slots(cfg), if script then Script else Services;
            && Waits(t, id) && t.now == 0 && t.cfg == cfg && t.tasks[id].plan == plan && t.tasks[id].startedAt == 0
  {
    NewDevice(s, Slots(cfg), script);
    Admitted(s, Work(Slots(cfg), script), t);
  }

  lemma LastOneIsFull(cfg: Config, s: State, script: bool, t: State)
    requires Inv(s) && Filled(cfg, s, Slots(cfg)) && t == Step(s, Execute(Work(Slots(cfg), script)))
    ensures FullUntil(t, Timeout(cfg))
  {
    NewDevice(s, Slots(cfg), script);
  }

  /** The last request has waited for as long as it may. */
  ghost predicate WaitedInVain(cfg: Config, s: State, script: bool) {
    var id := Slots(cfg);
    && Waits(s, id) && s.now == Timeout(cfg) && s.cfg == cfg
    && s.tasks[id].plan == (if script then Script else Services) && s.tasks[id].startedAt == 0
  }

  lemma WaitsInVain(cfg: Config, script: bool) returns (events: seq<Event>)
    ensures WaitedInVain(cfg, Run(cfg, events), script)
  {
    var full, start := Filling(Slots(cfg)), Execute(Work(Slots(cfg), script));
    var s := Run(cfg, full);
    AllFilled(cfg, Slots(cfg));
    RunInv(cfg, full);
    var t := Step(s, start);
    LastOneWaits(cfg, s, script, t);
    LastOneIsFull(cfg, s, script, t);
    TimePasses(t, Timeout(cfg), Timeout(cfg));
    AfterSnoc(Init(cfg), full, start);
    AfterTwo(Init(cfg), full + [start], Ticks(Timeout(cfg)));
    events := full + [start] + Ticks(Timeout(cfg));
  }

  /** The action was answered twice the action timeout after its start, a script after its grace besides. */
  ghost predicate TookTwice(cfg: Config, s: State, id: nat, script: bool) {
    && id in s.tasks && s.tasks[id].plan == (if script then Script else Services)
    && s.tasks[id].reply
       == Some(Reply(s.tasks[id].startedAt + 2 * Timeout(cfg) + (if script then cfg.grace else 0), true))
  }

  lemma AnsweredTwice(cfg: Config, s: State, t: State, id: nat, script: bool)
    requires id in s.tasks && s.now == Timeout(cfg)
    requires s.tasks[id].plan == (if script then Script else Services) && s.tasks[id].startedAt == 0
    requires Answered(t, id, s.tasks[id], s.now + Length(cfg, s.tasks[id].plan))
    ensures TookTwice(cfg, t, id, script)
  {
  }

  lemma RunsAsLongAgain(cfg: Config, s: State, script: bool) returns (more: seq<Event>)
    requires WaitedInVain(cfg, s, script)
    ensures TookTwice(cfg, After(s, more), Slots(cfg), script)
  {
    more := TakesItsTime(s, Slots(cfg));
    AnsweredTwice(cfg, s, After(s, more), Slots(cfg), script);
  }

  /**
   For every configuration there is a run in which an action takes twice the action timeout, and a
   script the grace on top: nothing smaller bounds services and scripts.
   */
  lemma TwiceTheTimeout(cfg: Config, script: bool) returns (events: seq<Event>)
    ensures TookTwice(cfg, Run(cfg, events), Slots(cfg), script)
  {
    var first := WaitsInVain(cfg, script);
    var second := RunsAsLongAgain(cfg, Run(cfg, first), script);
    AfterTwo(Init(cfg), first, second);
    events := first + second;
  }

  // ------------------------------------------------------------------ two names of one device

  function FullId(edgeId: string, local: string): string { edgeId + ":" + local }

  /** The device goes by its local name and by its full id. */
  predicate Names(edgeId: string, local: string, name: string) { name == local || name == FullId(edgeId, local) }

  /** The request is locked under the bare name: its registry does not lead from there to the full id. */
  predicate LocksBareName(edgeId: string, registry: Registry, local: string, name: string) {
    name == local && !(FullId(edgeId, local) in registry && local !in registry && !Prefixed(edgeId, local))
  }

  lemma KeyOfName(edgeId: string, registry: Registry, local: string, name: string)
    requires Names(edgeId, local, name)
    ensures LockKey(edgeId, registry, name) ==
            if LocksBareName(edgeId, registry, local, name) then local else FullId(edgeId, local)
  {
    assert FullId(edgeId, local)[..|edgeId| + 1] == edgeId + ":";
  }

  /** No live action but `id` holds the lock. */
  ghost predicate HeldByNoOther(s: State, id: nat, key: string) {
    forall j | j in s.tasks && j != id && HoldsLock(s.tasks[j].phase) :: s.tasks[j].key != key
  }

  lemma AdmittedBesides(s: State, id: nat, r: Request)
    requires Inv(s) && id in s.tasks && HoldsLock(s.tasks[id].phase) && PlanOf(s.cfg, s.registry, r).Ok?
    requires HeldByNoOther(s, id, LockKey(s.cfg.edgeId, s.registry, r.deviceId))
    ensures Admissible(s, r) <==> LockKey(s.cfg.edgeId, s.registry, r.deviceId) != s.tasks[id].key
  {
  }

  /** An action keeps the lock that the registry of its start led to. */
  lemma KeyOfItsStart(cfg: Config, before: seq<Event>, q: Request, later: seq<Event>)
    ensures var s0, s := Run(cfg, before), Run(cfg, before + [Execute(q)] + later);
            && Inv(s) && s.cfg == cfg && s0.nextId in s.tasks
            && s.tasks[s0.nextId].key == LockKey(cfg.edgeId, s0.registry, q.deviceId)
  {
    var s0 := Run(cfg, before);
    var s1 := Step(s0, Execute(q));
    RunInv(cfg, before);
    RunInv(cfg, before + [Execute(q)] + later);
    AfterTwo(Init(cfg), before + [Execute(q)], later);
    AfterSnoc(Init(cfg), before, Execute(q));
    NextKeepsInv(s0, Execute(q), s1);
    AfterSameTask(s1, later, s0.nextId);
  }

  /**
   While an action on a device is live, whatever the registry has gone through since, a valid request
   for the same device is admitted exactly if one of the two is locked under the bare name and the
   other under the full id.
   */
  lemma TwoActionsIff(cfg: Config, before: seq<Event>, q: Request, later: seq<Event>, r: Request, local: string)
    requires Names(cfg.edgeId, local, q.deviceId) && Names(cfg.edgeId, local, r.deviceId)
    requires var id, s := Run(cfg, before).nextId, Run(cfg, before + [Execute(q)] + later);
             && id in s.tasks && HoldsLock(s.tasks[id].phase) && PlanOf(cfg, s.registry, r).Ok?
             && HeldByNoOther(s, id, LockKey(cfg.edgeId, s.registry, r.deviceId))
    ensures var s0, s := Run(cfg, before), Run(cfg, before + [Execute(q)] + later);
            Admissible(s, r) <==>
            LocksBareName(cfg.edgeId, s0.registry, local, q.deviceId)
            != LocksBareName(cfg.edgeId, s.registry, local, r.deviceId)
  {
    var s0, s := Run(cfg, before), Run(cfg, before + [Execute(q)] + later);
    KeyOfItsStart(cfg, before, q, later);
    KeyOfName(cfg.edgeId, s0.registry, local, q.deviceId);
    KeyOfName(cfg.edgeId, s.registry, local, r.deviceId);
    AdmittedBesides(s, s0.nextId, r);
    assert |FullId(cfg.edgeId, local)| > |local|;
  }

  /** An edge registers its devices under their full ids only. */
  predicate FullIdsOnly(edgeId: string, registry: Registry) { forall x | x in registry :: Prefixed(edgeId, x) }

  /** Resets are not affected: of two of them on one device never both are live. */
  lemma ResetsExclude(cfg: Config, before: seq<Event>, q: Request, later: seq<Event>, r: Request, local: string)
    requires Names(cfg.edgeId, local, q.deviceId) && Names(cfg.edgeId, local, r.deviceId)
    requires !Prefixed(cfg.edgeId, local)
    requires var s0 := Run(cfg, before);
             FullIdsOnly(cfg.edgeId, s0.registry)
             && PlanOf(cfg, s0.registry, q).Ok? && PlanOf(cfg, s0.registry, q).value.Reset?
    requires var s := Run(cfg, before + [Execute(q)] + later);
             FullIdsOnly(cfg.edgeId, s.registry)
             && PlanOf(cfg, s.registry, r).Ok? && PlanOf(cfg, s.registry, r).value.Reset?
    requires var id, s := Run(cfg, before).nextId, Run(cfg, before + [Execute(q)] + later);
             id in s.tasks && HoldsLock(s.tasks[id].phase)
    ensures !Admissible(Run(cfg, before + [Execute(q)] + later), r)
  {
    var s0, s := Run(cfg, before), Run(cfg, before + [Execute(q)] + later);
    if HeldByNoOther(s, s0.nextId, LockKey(cfg.edgeId, s.registry, r.deviceId)) {
      TwoActionsIff(cfg, before, q, later, r, local);
    } else {
      RunInv(cfg, before + [Execute(q)] + later);
    }
  }

  /** But a restart under the bare name of a device that is not managed yet does not exclude one that comes later. */
  lemma TwoActionsHappen(cfg: Config, local: string, device: LocalDevice)
    requires !Prefixed(cfg.edgeId, local)
    ensures var r := Request(local, RestartServices(true), None);
            var s := Run(cfg, [] + [Execute(r)] + [SetRegistry(map[FullId(cfg.edgeId, local) := device])]);
            0 in s.tasks && HoldsLock(s.tasks[0].phase) && Admissible(s, r)
  {
    var r := Request(local, RestartServices(true), None);
    var managed := map[FullId(cfg.edgeId, local) := device];
    AfterSnoc(Init(cfg), [], Execute(r));
    AfterSnoc(Init(cfg), [] + [Execute(r)], SetRegistry(managed));
    assert |FullId(cfg.edgeId, local)| > |local|;
    KeyOfName(cfg.edgeId, map[], local, local);
    KeyOfName(cfg.edgeId, managed, local, local);
    var s := Step(Init(cfg), Execute(r));
    assert s.busy == {local};
  }
}
