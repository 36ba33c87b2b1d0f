/**
 The database writer's account of a run against the events of the run: what was sent while somebody
 could send is what was accepted, whatever the worker was doing (crates/nimon-hub/src/db_writer.rs:14-23).
 */
module DbLedger {
  import opened Basics
  import opened DbWriter

  // ------------------------------------------------------------------ what the events come to

  /** A handle is left, and the worker has not stopped. */
  predicate Open(s: State) { s.handles > 0 && !s.phase.Stopped? }

  predicate HasRoom(s: State) { |s.low| + s.reserved < s.capacity }

  /** The priority writes that were submitted while the writer was open. */
  function Sent(lowCapacity: nat, events: seq<Event>): seq<Op> {
    if events == [] then []
    else
      var init, e := events[..|events| - 1], events[|events| - 1];
      Sent(lowCapacity, init) + if e.Submit? && Open(Run(lowCapacity, init)) then [e.op] else []
  }

  /** The low writes for which there was room, and the barriers of flushes that had a place. */
  function LowSent(lowCapacity: nat, events: seq<Event>): seq<Op> {
    if events == [] then []
    else
      var init, e := events[..|events| - 1], events[|events| - 1];
      var s := Run(lowCapacity, init);
      LowSent(lowCapacity, init) +
      if e.SubmitLow? && Open(s) && HasRoom(s) then [e.op]
      else if e.SendBarrier? && s.reserved > 0 && !s.phase.Stopped? then [Op(e.tag, true)]
      else []
  }

  /** What every `submit_low` was told. */
  function Told(lowCapacity: nat, events: seq<Event>): seq<Verdict> {
    if events == [] then []
    else
      var init, e := events[..|events| - 1], events[|events| - 1];
      var s := Run(lowCapacity, init);
      Told(lowCapacity, init) +
      if !e.SubmitLow? || s.handles == 0 then []
      else [if s.phase.Stopped? then Closed else if HasRoom(s) then Accepted else Full]
  }

  /** How the operations ended that were running. */
  function Endings(lowCapacity: nat, events: seq<Event>): seq<Outcome> {
    if events == [] then []
    else
      var init, e := events[..|events| - 1], events[|events| - 1];
      Endings(lowCapacity, init) + if e.Finish? && Run(lowCapacity, init).phase.Running? then [e.outcome] else []
  }

  /** Flushes that have got a place when there was room, and have neither used it nor given up. */
  function Flushing(lowCapacity: nat, events: seq<Event>): int {
    if events == [] then 0
    else
      var init, e := events[..|events| - 1], events[|events| - 1];
      var s := Run(lowCapacity, init);
      Flushing(lowCapacity, init) +
      if e.Reserve? && Open(s) && HasRoom(s) then 1
      else if (e.SendBarrier? || e.CancelFlush?) && s.reserved > 0 then -1
      else 0
  }

  /** One handle at first, one more for every clone of one, one less for every drop; a flush keeps the last one. */
  function Handles(lowCapacity: nat, events: seq<Event>): int {
    if events == [] then 1
    else
      var init, e := events[..|events| - 1], events[|events| - 1];
      var s := Run(lowCapacity, init);
      Handles(lowCapacity, init) +
      if e.CloneHandle? && s.handles > 0 then 1
      else if e.DropHandle? && (s.handles > 1 || (s.handles == 1 && s.reserved == 0)) then -1
      else 0
  }

  /** The worker was killed before it had stopped. */
  ghost predicate WasKilled(lowCapacity: nat, events: seq<Event>) {
    exists n :: 0 <= n < |events| && KilledAt(lowCapacity, events, n)
  }

  ghost predicate KilledAt(lowCapacity: nat, events: seq<Event>, n: nat)
    requires n < |events|
  {
    events[n].Kill? && !Run(lowCapacity, events[..n]).phase.Stopped?
  }

  // ------------------------------------------------------------------ the account agrees

  ghost predicate Agrees(lowCapacity: nat, events: seq<Event>) {
    var s := Run(lowCapacity, events);
    && s.hist.high == Sent(lowCapacity, events)
    && LowOps(s.hist.low) == LowSent(lowCapacity, events)
    && s.hist.verdicts == Told(lowCapacity, events)
    && s.hist.outcomes == Endings(lowCapacity, events)
    && s.reserved == Flushing(lowCapacity, events)
    && s.handles == Handles(lowCapacity, events)
    && (s.hist.killed <==> WasKilled(lowCapacity, events))
  }

  lemma KilledSnoc(lowCapacity: nat, init: seq<Event>, e: Event)
    ensures WasKilled(lowCapacity, init + [e]) <==>
            WasKilled(lowCapacity, init) || (e.Kill? && !Run(lowCapacity, init).phase.Stopped?)
  {
    var events := init + [e];
    assert events[..|init|] == init && events[|init|] == e;
    assert forall n :: 0 <= n < |init| ==> events[..n] == init[..n] && events[n] == init[n];
    if e.Kill? && !Run(lowCapacity, init).phase.Stopped? {
      assert KilledAt(lowCapacity, events, |init|);
    }
    if WasKilled(lowCapacity, init) {
      var n :| 0 <= n < |init| && KilledAt(lowCapacity, init, n);
      assert KilledAt(lowCapacity, events, n);
    }
    if WasKilled(lowCapacity, events) {
      var n :| 0 <= n < |events| && KilledAt(lowCapacity, events, n);
      assert n < |init| ==> KilledAt(lowCapacity, init, n);
    }
  }

  lemma HistoryMoves(s: State, e: Event, t: State)
    requires t == Step(s, e)
    ensures t.hist.high == s.hist.high + if e.Submit? && Open(s) then [e.op] else []
    ensures t.hist.outcomes == s.hist.outcomes + if e.Finish? && s.phase.Running? then [e.outcome] else []
    ensures t.hist.killed <==> s.hist.killed || (e.Kill? && !s.phase.Stopped?)
  {
  }

  lemma LowLaneMoves(s: State, e: Event, t: State)
    requires t == Step(s, e)
    ensures LowOps(t.hist.low) ==
            LowOps(s.hist.low) + (if e.SubmitLow? && Open(s) && HasRoom(s) then [e.op]
                                  else if e.SendBarrier? && s.reserved > 0 && !s.phase.Stopped? then [Op(e.tag, true)]
                                  else [])
    ensures t.hist.verdicts ==
            s.hist.verdicts + (if !e.SubmitLow? || s.handles == 0 then []
                               else [if s.phase.Stopped? then Closed else if HasRoom(s) then Accepted else Full])
  {
    if t.hist.low != s.hist.low {
      LowOpsSnoc(s.hist.low, t.hist.low[|s.hist.low|]);
    }
  }

  lemma CountersMove(s: State, e: Event, t: State)
    requires t == Step(s, e)
    ensures t.reserved == s.reserved + if e.Reserve? && Open(s) && HasRoom(s) then 1
                                       else if (e.SendBarrier? || e.CancelFlush?) && s.reserved > 0 then -1 else 0
    ensures t.handles ==
            s.handles + if e.CloneHandle? && s.handles > 0 then 1
                        else if e.DropHandle? && (s.handles > 1 || (s.handles == 1 && s.reserved == 0)) then -1 else 0
  {
  }

  lemma AgreesSnoc(lowCapacity: nat, events: seq<Event>, t: State)
    requires events != [] && t == Run(lowCapacity, events) && Agrees(lowCapacity, events[..|events| - 1])
    ensures Agrees(lowCapacity, events)
  {
    var init, e := events[..|events| - 1], events[|events| - 1];
    var s := Run(lowCapacity, init);
    assert events == init + [e];
    HistoryMoves(s, e, t);
    LowLaneMoves(s, e, t);
    CountersMove(s, e, t);
    KilledSnoc(lowCapacity, init, e);
  }

  /**
   In every run exactly what was submitted while the writer was open has been accepted, in order;
   every `submit_low` has been answered for what it found; operations have ended as they did; and
   places and handles balance.
   */
  lemma {:induction false} AccountOfRun(lowCapacity: nat, events: seq<Event>)
    ensures Agrees(lowCapacity, events)
  {
    if events != [] {
      AccountOfRun(lowCapacity, events[..|events| - 1]);
      AgreesSnoc(lowCapacity, events, Run(lowCapacity, events));
    }
  }

  /** So no priority write is ever lost, unless the worker is killed: it has finished, runs, or is queued. */
  lemma NothingSentIsLost(lowCapacity: nat, events: seq<Event>)
    requires !WasKilled(lowCapacity, events)
    ensures var s := Run(lowCapacity, events);
            && Ops(s.hist.highDone) + RunningIn(s, false) + s.high == Sent(lowCapacity, events)
            && Ops(s.hist.lowDone) + RunningIn(s, true) + s.low == LowSent(lowCapacity, events)
  {
    AccountOfRun(lowCapacity, events);
    RunInv(lowCapacity, events);
  }

  /** A worker that was killed has stopped, and has dropped what was queued. */
  lemma KilledHasStopped(lowCapacity: nat, events: seq<Event>)
    requires WasKilled(lowCapacity, events)
    ensures var s := Run(lowCapacity, events); s.phase.Stopped? && s.high == [] && s.low == []
  {
    AccountOfRun(lowCapacity, events);
    RunInv(lowCapacity, events);
  }

  // ------------------------------------------------------------------ the worker does not idle

  /** The worker at the select, once it has polled: the priority lane, then the low one or the drain. */
  function Polled(s: State): State {
    var t := Step(s, PollHigh);
    if t.phase.HighEmpty? then Step(t, PollLow) else if t.phase.Draining? then Step(t, DrainNext) else t
  }

  /**
   In every run a worker at the select starts the oldest priority write, if there is one, and else
   the oldest low one; with nothing to do it stays at the select as long as there are handles.
   */
  lemma OldestIsServed(lowCapacity: nat, events: seq<Event>)
    requires Run(lowCapacity, events).phase.AtSelect?
    ensures var s := Run(lowCapacity, events); var t := Polled(s);
            && (s.high != [] ==>
                  && t.phase.Running? && t.phase.op == s.high[0] && !t.phase.low
                  && t.high == s.high[1..] && t.low == s.low)
            && (s.high == [] && s.low != [] ==>
                  && t.phase.Running? && t.phase.op == s.low[0] && t.phase.low
                  && t.low == s.low[1..] && t.high == [])
            && (s.high == [] && s.low == [] ==> if s.handles == 0 then t.phase.Stopped? else t.phase.AtSelect?)
  {
    RunInv(lowCapacity, events);
  }
}
