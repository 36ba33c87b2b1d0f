/**
 What every call and callback of the poller leads to (web/src/lib/store.ts:83-150), in terms of the
 requests, timers and callbacks that are then outstanding and of the events so far.
 */
module PollerTurns {
  import opened Basics
  import opened Poller

  // ------------------------------------------------------------------ a fetch, now

  /** One fetch more is under way, it is the one in flight, and no timer is set. */
  ghost predicate FetchesNow(s: State, t: State) {
    && t.timer.None? && t.pending == {}
    && exists id :: id !in s.fetches && t.inFlight == Some(id) && Live(t) == Live(s) + {id} && Awaited(t, id)
  }

  /** Nothing more is asked of the server. */
  ghost predicate NoNewFetch(s: State, t: State) { t.fetches.Keys <= s.fetches.Keys && Live(t) <= Live(s) }

  lemma NewFetch(s: State, u: State, t: State)
    requires forall id | id in s.fetches :: id < s.nextId
    requires OneTimer(u) && u.fetches == s.fetches && u.nextId == s.nextId && t == StartFetch(u)
    ensures FetchesNow(s, t)
  {
    var id := s.nextId;
    assert id !in s.fetches && t.inFlight == Some(id) && Awaited(t, id);
    assert Live(t) == Live(s) + {id};
  }

  /** With nothing in flight a refresh fetches, timer or not; else it only takes note. */
  lemma RefreshFetches(events: seq<Event>)
    requires NoOverlap(events)
    ensures var s, t := Run(events), Step(Run(events), Refresh);
            if s.inFlight.None? then FetchesNow(s, t) else NoNewFetch(s, t) && t == s.(again := true)
  {
    RunGood(events);
    var s := Run(events);
    if s.inFlight.None? {
      NewFetch(s, s, Step(s, Refresh));
    }
  }

  /** Starting fetches at once, unless the poller is started. */
  lemma StartFetches(events: seq<Event>)
    requires NoOverlap(events)
    ensures var s, t := Run(events), Step(Run(events), Start);
            if s.running then t == s else t.running && FetchesNow(s, t)
  {
    RunGood(events);
    var s := Run(events);
    if !s.running {
      NewFetch(s, s.(running := true), Step(s, Start));
    }
  }

  /** So does the timer. */
  lemma TimerFetches(events: seq<Event>, id: nat)
    requires NoOverlap(events) && id in Run(events).pending
    ensures FetchesNow(Run(events), Step(Run(events), Fire(id)))
  {
    RunGood(events);
    var s := Run(events);
    var id := s.nextId;
    var t := Step(s, Fire(s.timer.value));
    assert id !in s.fetches && t.inFlight == Some(id) && Awaited(t, id);
    assert Live(t) == Live(s) + {id};
  }

  /** Stopping leaves neither a timer nor a fetch that is wanted. */
  lemma StopStops(events: seq<Event>)
    requires NoOverlap(events)
    ensures var s, t := Run(events), Step(Run(events), Stop);
            !t.running && t.pending == {} && t.timer.None? && Live(t) == {} && t.fetches.Keys == s.fetches.Keys
  {
    RunGood(events);
    NoneLive(Step(Run(events), Stop));
  }

  /** A fetch that is answered or fails is wound up next. */
  lemma AnswersSettle(s: State, e: Event)
    requires (e.Resolve? || e.Reject?) && Awaited(s, e.id)
    ensures var t := Step(s, e);
            && e.id in t.fetches && t.fetches[e.id].settled && t.fetches[e.id].aborted == s.fetches[e.id].aborted
            && Live(t) == Live(s) && t.pending == s.pending && t.running == s.running && t.inFlight == s.inFlight
  {
  }

  // ------------------------------------------------------------------ after a fetch

  /** The end of a fetch that was wanted. */
  predicate Ends(s: State, e: Event) {
    e.Finally? && e.id in s.fetches && s.fetches[e.id].settled && !s.fetches[e.id].aborted
  }

  /** A refresh that found something in flight. */
  predicate Coalesces(s: State, e: Event) { e.Refresh? && s.inFlight.Some? }

  ghost predicate CoalescesAt(events: seq<Event>, n: nat)
    requires n < |events|
  {
    Coalesces(Run(events[..n]), events[n])
  }

  ghost predicate EndsAt(events: seq<Event>, n: nat)
    requires n < |events|
  {
    Ends(Run(events[..n]), events[n])
  }

  /** A refresh has coalesced since a fetch that was wanted last ended. */
  ghost predicate Requested(events: seq<Event>) {
    exists n :: 0 <= n < |events| && CoalescesAt(events, n) && forall m :: n < m < |events| ==> !EndsAt(events, m)
  }

  lemma RequestedSnoc(init: seq<Event>, e: Event)
    ensures Requested(init + [e]) <==>
            Coalesces(Run(init), e) || (Requested(init) && !Ends(Run(init), e))
  {
    var events := init + [e];
    assert events[..|init|] == init && events[|init|] == e;
    forall n | 0 <= n < |init|
      ensures CoalescesAt(events, n) == CoalescesAt(init, n) && EndsAt(events, n) == EndsAt(init, n)
    {
      assert events[..n] == init[..n] && events[n] == init[n];
    }
    assert CoalescesAt(events, |init|) == Coalesces(Run(init), e) && EndsAt(events, |init|) == Ends(Run(init), e);
    if Requested(init) && !Ends(Run(init), e) {
      var n :| 0 <= n < |init| && CoalescesAt(init, n) && forall m :: n < m < |init| ==> !EndsAt(init, m);
      assert CoalescesAt(events, n) && forall m :: n < m < |events| ==> !EndsAt(events, m);
    }
    if Requested(events) && !Coalesces(Run(init), e) {
      var n :| 0 <= n < |events| && CoalescesAt(events, n) && forall m :: n < m < |events| ==> !EndsAt(events, m);
      assert n < |init| && CoalescesAt(init, n);
      assert forall m :: n < m < |init| ==> EndsAt(init, m) == EndsAt(events, m);
      assert !EndsAt(events, |init|);
    }
  }

  /** The poller remembers exactly that. */
  lemma {:induction false} RemembersIff(events: seq<Event>)
    ensures Run(events).again <==> Requested(events)
  {
    if events != [] {
      var init, e := events[..|events| - 1], events[|events| - 1];
      RemembersIff(init);
      assert events == init + [e];
      RequestedSnoc(init, e);
    }
  }

  lemma WindUpLeads(s: State, id: nat, t: State)
    requires Good(s) && Ends(s, Finally(id)) && t == Step(s, Finally(id))
    ensures s.running && s.again ==> FetchesNow(s.(fetches := s.fetches - {id}), t)
    ensures s.running && !s.again ==> t.pending != {} && Live(t) == {} && NoNewFetch(s, t)
    ensures !s.running ==> t.pending == {} && Live(t) == {} && NoNewFetch(s, t)
  {
    var u := s.(inFlight := None, ctrl := None, fetches := s.fetches - {id}, again := false);
    assert Live(u) == {} by {
      NoneLive(u);
    }
    if s.running && s.again {
      NewFetch(s.(fetches := s.fetches - {id}), u, t);
    } else {
      assert Live(t) == Live(u);
    }
  }

  /**
   When a fetch that was wanted ends, a started poller fetches again at once exactly if a refresh has
   coalesced since the last such end, and else sets its timer; a stopped one does neither.
   */
  lemma EndLeads(events: seq<Event>, id: nat)
    requires NoOverlap(events) && Ends(Run(events), Finally(id))
    ensures var s, t := Run(events), Step(Run(events), Finally(id));
            if s.running && Requested(events) then FetchesNow(s.(fetches := s.fetches - {id}), t)
            else Live(t) == {} && NoNewFetch(s, t) && (t.pending != {} <==> s.running)
  {
    RunGood(events);
    RemembersIff(events);
    WindUpLeads(Run(events), id, Step(Run(events), Finally(id)));
  }

  // ------------------------------------------------------------------ started or not

  /** The last call of the two was a start. */
  function Started(events: seq<Event>): bool {
    if events == [] then false
    else
      match events[|events| - 1]
      case Start => true
      case Stop => false
      case _ => Started(events[..|events| - 1])
  }

  lemma {:induction false} RunningIff(events: seq<Event>)
    ensures Run(events).running <==> Started(events)
  {
    if events != [] {
      RunningIff(events[..|events| - 1]);
      KeepsRunning(Run(events[..|events| - 1]), events[|events| - 1]);
    }
  }

  lemma KeepsRunning(s: State, e: Event)
    ensures Step(s, e).running == if e.Start? then true else if e.Stop? then false else s.running
  {
  }
}
