/**
 What every caller of the library cache is told, and that every caller is told something
 (crates/nimon-ni/src/common.rs:173-226), in terms of the loads so far.
 */
module LibReturns {
  import opened Basics
  import opened LibCache

  // ------------------------------------------------------------------ what the loads come to

  /** The library that has been loaded, if one has. */
  function Loaded(loads: seq<Load>): Option<Lib> {
    if loads == [] then None
    else
      match loads[|loads| - 1].ending
      case Some(Succeeded(lib)) => Some(lib)
      case _ => Loaded(loads[..|loads| - 1])
  }

  /** When the last load failed that did, and why. */
  function LastFailure(loads: seq<Load>): Option<(int, string)> {
    if loads == [] then None
    else
      match loads[|loads| - 1].ending
      case Some(Failed(at, message)) => Some((at, message))
      case _ => LastFailure(loads[..|loads| - 1])
  }

  /** Both caches hold what they stand for. */
  ghost predicate CachesAgree(s: State) {
    s.ok == Loaded(s.loads) && (s.ok.None? ==> s.failure == LastFailure(s.loads))
  }

  lemma LastLoad(loads: seq<Load>, last: Load)
    ensures Loaded(loads + [last]) ==
            match last.ending case Some(Succeeded(lib)) => Some(lib) case _ => Loaded(loads)
    ensures LastFailure(loads + [last]) ==
            match last.ending case Some(Failed(at, message)) => Some((at, message)) case _ => LastFailure(loads)
  {
    assert (loads + [last])[..|loads|] == loads;
  }

  lemma LoadBegun(s: State, t: State, load: Load)
    requires CachesAgree(s) && load.ending.None? && t.loads == s.loads + [load]
    requires t.ok == s.ok && t.failure == s.failure
    ensures CachesAgree(t)
  {
    LastLoad(s.loads, load);
  }

  lemma LoadEnded(s: State, t: State, init: seq<Load>, last: Load, ending: Ending)
    requires CachesAgree(s) && s.ok.None? && s.loads == init + [last] && last.ending.None?
    requires t.loads == init + [last.(ending := Some(ending))]
    requires t.ok == if ending.Succeeded? then Some(ending.lib) else None
    requires !ending.Succeeded? ==>
               t.failure == if ending.Failed? then Some((ending.at, ending.message)) else s.failure
    ensures CachesAgree(t)
  {
    LastLoad(init, last);
    LastLoad(init, last.(ending := Some(ending)));
  }

  /** How the event ends the load that is going on. */
  function EndingOf(s: State, e: Event): Ending
    requires e.LoadOk? || e.LoadErr? || e.LoadPanic?
  {
    match e
    case LoadOk(_, lib) => Succeeded(lib)
    case LoadErr(_, message) => Failed(s.now, message)
    case LoadPanic(_) => Panicked
  }

  lemma RunEnded(retry: nat, s: State, e: Event, t: State)
    requires Inv(retry, s) && CachesAgree(s) && (e.LoadOk? || e.LoadErr? || e.LoadPanic?)
    requires Runs(s, e.t) && t == Step(retry, s, e)
    ensures CachesAgree(t)
  {
    var n := |s.loads| - 1;
    assert s.loads == s.loads[..n] + [s.loads[n]];
    assert t.loads == s.loads[..n] + [s.loads[n].(ending := Some(EndingOf(s, e)))];
    LoadEnded(s, t, s.loads[..n], s.loads[n], EndingOf(s, e));
  }

  lemma CachesKept(retry: nat, s: State, e: Event, t: State)
    requires Inv(retry, s) && CachesAgree(s) && t == Step(retry, s, e)
    ensures CachesAgree(t)
  {
    if t.loads != s.loads {
      if e.Acquire? {
        LoadBegun(s, t, Load(s.now, None));
      } else {
        RunEnded(retry, s, e, t);
      }
    }
  }

  lemma {:induction false} CachesOfRun(retry: nat, now: int, events: seq<Event>)
    ensures CachesAgree(After(retry, Init(now), events))
  {
    if events != [] {
      var init := events[..|events| - 1];
      CachesOfRun(retry, now, init);
      RunInv(retry, now, init);
      CachesKept(retry, After(retry, Init(now), init), events[|events| - 1], After(retry, Init(now), events));
    }
  }

  // ------------------------------------------------------------------ who is told what

  /** The thread has the lock, or can have it now. */
  predicate HasTurn(s: State, t: nat) { t in s.threads && s.threads[t].Waiting? && s.holder.None? }

  predicate IsLoading(s: State, t: nat) { t in s.threads && s.threads[t].Loading? }

  /** Whom an event lets return, and with what. */
  function Returned(retry: nat, s: State, e: Event): Option<(nat, Answer)> {
    var lib, failure := Loaded(s.loads), LastFailure(s.loads);
    match e
    case Call(t) => if t !in s.threads && lib.Some? then Some((t, Got(lib.value))) else None
    case Acquire(t) =>
      if !HasTurn(s, t) then None
      else if lib.Some? then Some((t, Got(lib.value)))
      else if failure.Some? && s.now < failure.value.0 + retry then Some((t, Refused(failure.value.1)))
      else None
    case LoadOk(t, loaded) => if IsLoading(s, t) then Some((t, Got(loaded))) else None
    case LoadErr(t, message) => if IsLoading(s, t) then Some((t, Refused(message))) else None
    case _ => None
  }

  /**
   In every run: a caller returns with the loaded library at once, lock or no lock; with the last
   failure, if that is too recent to try again; and with the outcome of its own load. It is then out.
   */
  lemma ReturnsIff(retry: nat, now: int, events: seq<Event>, e: Event)
    ensures var s := After(retry, Init(now), events); var t := Step(retry, s, e);
            match Returned(retry, s, e)
            case Some(answer) => t.answers == s.answers + [answer] && answer.0 !in t.threads
            case None => t.answers == s.answers
  {
    RunInv(retry, now, events);
    CachesOfRun(retry, now, events);
    var s := After(retry, Init(now), events);
    if e.LoadOk? && IsLoading(s, e.t) {
      assert s.ok.None?;
    }
  }

  // ------------------------------------------------------------------ nobody is lost

  /** The event lets a thread in that was not there, or out by a panic. */
  predicate Enters(s: State, e: Event) { e.Call? && e.t !in s.threads }

  predicate Panics(s: State, e: Event) { e.LoadPanic? && IsLoading(s, e.t) }

  function Entered(retry: nat, now: int, events: seq<Event>): nat {
    if events == [] then 0
    else
      var init := events[..|events| - 1];
      Entered(retry, now, init) + if Enters(After(retry, Init(now), init), events[|events| - 1]) then 1 else 0
  }

  function Unwound(retry: nat, now: int, events: seq<Event>): nat {
    if events == [] then 0
    else
      var init := events[..|events| - 1];
      Unwound(retry, now, init) + if Panics(After(retry, Init(now), init), events[|events| - 1]) then 1 else 0
  }

  /** Calls are the returns, the panics and those still inside. */
  ghost predicate Accounted(s: State, entered: int, unwound: int) {
    |s.answers| + |s.threads.Keys| + unwound == entered
  }

  lemma CallMoves(retry: nat, s: State, t: nat, u: State)
    requires u == Step(retry, s, Call(t))
    ensures |u.answers| + |u.threads.Keys| == |s.answers| + |s.threads.Keys| + if t !in s.threads then 1 else 0
  {
    assert (s.threads[t := Waiting]).Keys == s.threads.Keys + {t};
    assert t !in s.threads ==> (s.threads - {t}).Keys == s.threads.Keys;
  }

  lemma OneOut(threads: map<nat, Phase>, t: nat)
    requires t in threads
    ensures |(threads - {t}).Keys| == |threads.Keys| - 1
    ensures |threads[t := Loading].Keys| == |threads.Keys|
  {
    assert (threads - {t}).Keys == threads.Keys - {t};
    assert threads[t := Loading].Keys == threads.Keys;
  }

  lemma TurnMoves(retry: nat, s: State, e: Event, u: State)
    requires OneLoader(s) && !e.Call? && !e.Tick? && u == Step(retry, s, e)
    ensures |u.answers| + |u.threads.Keys| + (if Panics(s, e) then 1 else 0) == |s.answers| + |s.threads.Keys|
  {
    if e.t in s.threads {
      OneOut(s.threads, e.t);
    }
  }

  lemma CallsMove(retry: nat, s: State, e: Event, t: State, entered: int, unwound: int)
    requires Inv(retry, s) && t == Step(retry, s, e) && Accounted(s, entered, unwound)
    ensures Accounted(t, entered + (if Enters(s, e) then 1 else 0), unwound + if Panics(s, e) then 1 else 0)
  {
    if e.Call? {
      CallMoves(retry, s, e.t, t);
    } else if !e.Tick? {
      TurnMoves(retry, s, e, t);
    }
  }

  /** In every run every call has returned, has panicked, or is still inside: none is lost, and none counted twice. */
  lemma {:induction false} EveryCallReturns(retry: nat, now: int, events: seq<Event>)
    ensures Accounted(After(retry, Init(now), events), Entered(retry, now, events), Unwound(retry, now, events))
  {
    if events != [] {
      var init, e := events[..|events| - 1], events[|events| - 1];
      EveryCallReturns(retry, now, init);
      RunInv(retry, now, init);
      CallsMove(retry, After(retry, Init(now), init), e, After(retry, Init(now), events),
                Entered(retry, now, init), Unwound(retry, now, init));
    }
  }

  // ------------------------------------------------------------------ the clock

  function Ticked(events: seq<Event>): nat {
    if events == [] then 0
    else
      var e := events[|events| - 1];
      Ticked(events[..|events| - 1]) + if e.Tick? then e.d else 0
  }

  lemma ClockMoves(retry: nat, s: State, e: Event)
    ensures Step(retry, s, e).now == s.now + if e.Tick? then e.d else 0
  {
  }

  /** The clock that the retry time is measured by moves by its ticks and by nothing else. */
  lemma {:induction false} ClockOfRun(retry: nat, now: int, events: seq<Event>)
    ensures After(retry, Init(now), events).now == now + Ticked(events)
  {
    if events != [] {
      var init := events[..|events| - 1];
      ClockOfRun(retry, now, init);
      ClockMoves(retry, After(retry, Init(now), init), events[|events| - 1]);
    }
  }
}
