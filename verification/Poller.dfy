/**
 The dashboard's poller (web/src/lib/store.ts): timer, fetch, abort and coalescing, at the
 granularity of the event loop. A fetch settles in one step (its body runs) and is wound up in a
 later one (its `finally` callback), with anything in between.
 */
module Poller {
  import opened Basics

  // ------------------------------------------------------------------ state

  /** A response: an object identity and its JSON text. */
  datatype Payload = Payload(ref: nat, json: string)

  /** What components see. */
  datatype Res = Res(data: Option<Payload>, error: Option<string>, updatedAt: Option<int>, stale: bool, loading: bool)

  /** A fetch whose `finally` has not run yet. */
  datatype Fetch = Fetch(aborted: bool, settled: bool)

  datatype State = State(
    running: bool,
    timer: Option<nat>,
    ctrl: Option<nat>,
    inFlight: Option<nat>,
    again: bool,
    lastJson: string,
    res: Res,
    fetches: map<nat, Fetch>,  // the environment: requests and callbacks still to come
    pending: set<nat>,         // the environment: timers that will fire
    nextId: nat)

  const INIT := State(false, None, None, None, false, "", Res(None, None, None, false, true), map[], {}, 0)

  datatype Event =
    | Start
    | Stop
    | Refresh
    | Fire(timerId: nat)
    | Resolve(id: nat, payload: Payload, now: int)
    | Reject(id: nat, error: string, isAbortError: bool)
    | Finally(id: nat)

  /** An event that is not possible in `s` leaves it unchanged. */
  function Step(s: State, e: Event): State {
    match e
    case Start => if s.running then s else StartFetch(s.(running := true))
    case Stop =>
      ClearTimer(s).(running := false, ctrl := None,
                     fetches := if s.ctrl.Some? then Abort(s.fetches, s.ctrl.value) else s.fetches)
    case Refresh => if s.inFlight.Some? then s.(again := true) else StartFetch(s)
    case Fire(t) => if t in s.pending then StartFetch(s.(pending := s.pending - {t})) else s
    case Resolve(id, p, now) =>
      if !Awaited(s, id) then s
      else if s.fetches[id].aborted then Settle(s, id)
      else Settle(s, id).(lastJson := p.json, res := Fetched(s, p, now))
    case Reject(id, error, isAbortError) =>
      if !Awaited(s, id) then s
      else if s.fetches[id].aborted || isAbortError then Settle(s, id)
      else Settle(s, id).(res := s.res.(error := Some(error), stale := s.res.data.Some?, loading := false))
    case Finally(id) => if id in s.fetches && s.fetches[id].settled then WindUp(s, id) else s
  }

  predicate Awaited(s: State, id: nat) { id in s.fetches && !s.fetches[id].settled }

  function ClearTimer(s: State): State {
    s.(timer := None, pending := if s.timer.Some? then s.pending - {s.timer.value} else s.pending)
  }

  function StartFetch(s: State): State {
    ClearTimer(s).(ctrl := Some(s.nextId), inFlight := Some(s.nextId),
                   fetches := s.fetches[s.nextId := Fetch(false, false)], nextId := s.nextId + 1)
  }

  function Abort(fetches: map<nat, Fetch>, id: nat): map<nat, Fetch> {
    if id in fetches then fetches[id := fetches[id].(aborted := true)] else fetches
  }

  function Settle(s: State, id: nat): State
    requires id in s.fetches
  {
    s.(fetches := s.fetches[id := s.fetches[id].(settled := true)])
  }

  function Fetched(s: State, p: Payload, now: int): Res {
    var keep := p.json == s.lastJson && s.res.data.Some?;
    Res(if keep then s.res.data else Some(p), None, Some(now), false, false)
  }

  function WindUp(s: State, id: nat): State
    requires id in s.fetches
  {
    var t := s.(inFlight := if s.inFlight == Some(id) then None else s.inFlight,
                ctrl := if s.ctrl == Some(id) then None else s.ctrl,
                fetches := s.fetches - {id});
    if s.fetches[id].aborted then t
    else if s.again then
      if s.running then StartFetch(t.(again := false)) else t.(again := false)
    else Schedule(t)
  }

  function Schedule(s: State): State {
    if !s.running then s
    else s.(timer := Some(s.nextId), pending := s.pending + {s.nextId}, nextId := s.nextId + 1)
  }

  function After(s: State, events: seq<Event>): State {
    if events == [] then s else Step(After(s, events[..|events| - 1]), events[|events| - 1])
  }

  function Run(events: seq<Event>): State { After(INIT, events) }

  lemma AfterSnoc(s: State, events: seq<Event>, e: Event)
    ensures After(s, events + [e]) == Step(After(s, events), e)
  {
    assert (events + [e])[..|events|] == events;
  }

  // ------------------------------------------------------------------ the invariant

  /** Fetches nobody has aborted. */
  ghost function Live(s: State): set<nat> { set id | id in s.fetches && !s.fetches[id].aborted }

  ghost predicate OneFetch(s: State) {
    && (forall id | id in s.fetches :: id < s.nextId)
    && (forall id | id in s.fetches :: !s.fetches[id].aborted ==> s.inFlight == Some(id) && s.ctrl == Some(id))
    && (s.ctrl.Some? ==> s.ctrl.value in s.fetches && !s.fetches[s.ctrl.value].aborted)
    && (s.inFlight.Some? ==> s.inFlight.value in s.fetches)
    && (s.running && s.inFlight.Some? ==> !s.fetches[s.inFlight.value].aborted)
  }

  ghost predicate OneTimer(s: State) {
    && s.pending == (if s.timer.Some? then {s.timer.value} else {})
    && (s.timer.Some? ==> s.running && s.ctrl.None? && s.timer.value < s.nextId)
  }

  /** While started, the poller is always about to do something. */
  ghost predicate NeverStalls(s: State) { s.running ==> s.ctrl.Some? || s.timer.Some? }

  ghost predicate Consistent(s: State) {
    && (s.res.error.None? ==> !s.res.stale)
    && (s.res.error.Some? ==> s.res.stale == s.res.data.Some?)
    && (s.res.loading ==> s.res.data.None? && s.res.error.None?)
    && (s.res.data.Some? ==> s.res.updatedAt.Some? && s.res.data.value.json == s.lastJson)
  }

  ghost predicate Good(s: State) { OneFetch(s) && OneTimer(s) && NeverStalls(s) && Consistent(s) }

  /** `start()` while a fetch begun by an earlier `refresh()` is still alive: it does not look at `inFlight`. */
  ghost predicate Overlaps(s: State, e: Event) { e.Start? && !s.running && Live(s) != {} }

  /** Two fetches are alive at once. */
  ghost predicate TwoLive(s: State) {
    exists i, j :: i != j && i in Live(s) && j in Live(s)
  }

  lemma StartFetchKeeps(s: State)
    requires Consistent(s) && ClearTimer(s).pending == {}
    requires forall id | id in s.fetches :: id < s.nextId && s.fetches[id].aborted
    ensures Good(StartFetch(s))
  {
  }

  lemma NoneLive(s: State)
    ensures Live(s) == {} <==> forall id | id in s.fetches :: s.fetches[id].aborted
  {
    assert forall id | id in s.fetches && !s.fetches[id].aborted :: id in Live(s);
  }

  lemma StopKeeps(s: State)
    requires Good(s)
    ensures Good(Step(s, Stop))
  {
  }

  lemma SettleKeeps(s: State, e: Event)
    requires Good(s)
    requires e.Resolve? || e.Reject?
    ensures Good(Step(s, e))
  {
    var id := e.id;
    if Awaited(s, id) {
      SettledKeeps(s, id, Step(s, e));
    }
  }

  lemma SettledKeeps(s: State, id: nat, u: State)
    requires Good(s) && id in s.fetches && Consistent(u)
    requires u == Settle(s, id).(lastJson := u.lastJson, res := u.res)
    ensures Good(u)
  {
  }

  lemma WindUpKeeps(s: State, id: nat)
    requires Good(s) && id in s.fetches
    ensures Good(WindUp(s, id))
  {
    if !s.fetches[id].aborted {
      var t := s.(inFlight := None, ctrl := None, fetches := s.fetches - {id}, again := false);
      assert forall i | i in t.fetches :: t.fetches[i].aborted;
      StartFetchKeeps(t);
    }
  }

  /** A step keeps everything exactly when it is not an overlapping start; that one makes two live fetches. */
  lemma StepGoodIff(s: State, e: Event)
    requires Good(s)
    ensures Good(Step(s, e)) <==> !Overlaps(s, e)
    ensures Overlaps(s, e) ==> TwoLive(Step(s, e))
  {
    NoneLive(s);
    match e
    case Start =>
      if Overlaps(s, e) {
        var l :| l in Live(s);
        var t := Step(s, e);
        assert l in Live(t) && s.nextId in Live(t) && l != s.nextId;
      } else if !s.running {
        StartFetchKeeps(s.(running := true));
      }
    case Stop => StopKeeps(s);
    case Refresh => if s.inFlight.None? { StartFetchKeeps(s); }
    case Fire(t) => if t in s.pending { StartFetchKeeps(s.(pending := s.pending - {t})); }
    case Finally(id) => if id in s.fetches && s.fetches[id].settled { WindUpKeeps(s, id); }
    case _ => SettleKeeps(s, e);
  }

  /** No start of the run overlaps a fetch that is still alive. */
  ghost predicate NoOverlap(events: seq<Event>) {
    forall i :: 0 <= i < |events| ==> !Overlaps(Run(events[..i]), events[i])
  }

  /** Refreshes only while started, the discipline of the dashboard's own callers. */
  ghost predicate RefreshOnlyWhileStarted(events: seq<Event>) {
    forall i :: 0 <= i < |events| && events[i].Refresh? ==> Run(events[..i]).running
  }

  lemma {:induction false} RunGood(events: seq<Event>)
    requires NoOverlap(events)
    ensures Good(Run(events))
  {
    if events != [] {
      var before, e := events[..|events| - 1], events[|events| - 1];
      assert forall i :: 0 <= i < |before| ==> before[..i] == events[..i];
      RunGood(before);
      StepGoodIff(Run(before), e);
    }
  }

  /** Refreshing only while started rules overlaps out: a poller that is not started then has no live fetch. */
  lemma {:induction false} DisciplineSuffices(events: seq<Event>)
    requires RefreshOnlyWhileStarted(events)
    ensures NoOverlap(events)
    ensures !Run(events).running ==> Live(Run(events)) == {}
  {
    if events != [] {
      var before, e := events[..|events| - 1], events[|events| - 1];
      assert forall i :: 0 <= i < |before| ==> before[..i] == events[..i] && before[i] == events[i];
      DisciplineSuffices(before);
      RunGood(before);
      forall i | 0 <= i < |events|
        ensures !Overlaps(Run(events[..i]), events[i])
      {
        assert i < |before| ==> !Overlaps(Run(before[..i]), before[i]);
        assert i == |before| ==> events[..i] == before;
      }
      assert events[..|before|] == before && (e.Refresh? ==> Run(before).running);
      StoppedHasNoneLive(Run(before), e);
    }
  }

  lemma StoppedHasNoneLive(s: State, e: Event)
    requires Good(s) && (!s.running ==> Live(s) == {}) && (e.Refresh? ==> s.running)
    ensures !Step(s, e).running ==> Live(Step(s, e)) == {}
  {
    var t := Step(s, e);
    NoneLive(s);
    NoneLive(t);
  }

  // ------------------------------------------------------------------ what holds in every such run

  /**
   At most one un-aborted fetch, at most one timer, never both; a started poller always has one of
   the two, so polling never dies; and the published resource is consistent.
   */
  lemma EveryRun(events: seq<Event>)
    requires NoOverlap(events)
    ensures var s := Run(events);
            && (forall i, j :: i in Live(s) && j in Live(s) ==> i == j)
            && (forall t, u :: t in s.pending && u in s.pending ==> t == u)
            && (s.pending == {} || Live(s) == {})
            && (s.running ==> s.pending != {} || Live(s) != {})
            && (s.pending != {} ==> s.running)
            && Consistent(s)
  {
    RunGood(events);
    var s := Run(events);
    if s.ctrl.Some? { assert s.ctrl.value in Live(s); }
    if s.timer.Some? { assert s.timer.value in s.pending; }
  }

  /** Without the discipline there is a run with two live fetches. */
  lemma OverlapHappens()
    ensures TwoLive(Run([Refresh, Start]))
  {
    assert [Refresh, Start][..1] == [Refresh] && [Refresh][..0] == [];
    var s := Run([Refresh, Start]);
    assert 0 in Live(s) && 1 in Live(s);
  }

  /** An aborted fetch publishes nothing, schedules nothing and starts nothing, whenever its callbacks come. */
  lemma AbortedIsInert(s: State, e: Event)
    requires e.Resolve? || e.Reject? || e.Finally?
    requires e.id in s.fetches && s.fetches[e.id].aborted
    ensures var t := Step(s, e);
            && t.res == s.res && t.lastJson == s.lastJson
            && t.timer == s.timer && t.pending == s.pending
            && Live(t) == Live(s) && t.nextId == s.nextId
  {
    var t := Step(s, e);
    assert forall id | id in Live(t) :: id in Live(s);
    assert forall id | id in Live(s) :: id != e.id && id in Live(t);
  }

  // ------------------------------------------------------------------ what is shown

  /** How a fetch that was still wanted ended. */
  datatype Outcome = Response(payload: Payload) | Failure(error: string)

  function OutcomeOf(s: State, e: Event): Option<Outcome> {
    match e
    case Resolve(id, p, _) => if Awaited(s, id) && !s.fetches[id].aborted then Some(Response(p)) else None
    case Reject(id, error, isAbortError) =>
      if Awaited(s, id) && !s.fetches[id].aborted && !isAbortError then Some(Failure(error)) else None
    case _ => None
  }

  function Extended(outs: seq<Outcome>, o: Option<Outcome>): seq<Outcome> {
    if o.Some? then outs + [o.value] else outs
  }

  function Outcomes(events: seq<Event>): seq<Outcome> {
    if events == [] then []
    else
      var before := events[..|events| - 1];
      Extended(Outcomes(before), OutcomeOf(Run(before), events[|events| - 1]))
  }

  /** Response `k` has the text of every later one, and the one before it had another. */
  ghost predicate FirstOfItsText(outs: seq<Outcome>, k: int) {
    && 0 <= k < |outs| && outs[k].Response?
    && (forall j :: k < j < |outs| && outs[j].Response? ==> outs[j].payload.json == outs[k].payload.json)
    && (forall j :: 0 <= j < k && outs[j].Response? && (forall i :: j < i < k ==> outs[i].Failure?) ==>
          outs[j].payload.json != outs[k].payload.json)
  }

  ghost predicate ShowsData(data: Option<Payload>, outs: seq<Outcome>) {
    if data.None? then forall j :: 0 <= j < |outs| ==> outs[j].Failure?
    else exists k :: FirstOfItsText(outs, k) && outs[k].payload == data.value
  }

  ghost predicate Shows(s: State, outs: seq<Outcome>) {
    var res := s.res;
    && Consistent(s) && ShowsData(res.data, outs)
    && res.error == (if outs != [] && outs[|outs| - 1].Failure? then Some(outs[|outs| - 1].error) else None)
    && res.stale == (res.error.Some? && res.data.Some?)
    && res.loading == (outs == [])
  }

  lemma NewText(outs: seq<Outcome>, p: Payload, k: int)
    requires FirstOfItsText(outs, k) && outs[k].payload.json != p.json
    ensures FirstOfItsText(outs + [Response(p)], |outs|)
  {
    var all := outs + [Response(p)];
    forall j | 0 <= j < |outs| && all[j].Response? && (forall i :: j < i < |outs| ==> all[i].Failure?)
      ensures all[j].payload.json != p.json
    {
      assert outs[j] == all[j] && outs[k] == all[k];
      assert j >= k;
    }
  }

  lemma SameText(outs: seq<Outcome>, o: Outcome, k: int)
    requires FirstOfItsText(outs, k) && (o.Response? ==> o.payload.json == outs[k].payload.json)
    ensures FirstOfItsText(outs + [o], k)
  {
    var all := outs + [o];
    assert forall j :: 0 <= j < |outs| ==> all[j] == outs[j];
    forall j | 0 <= j < k && all[j].Response? && (forall i :: j < i < k ==> all[i].Failure?)
      ensures all[j].payload.json != all[k].payload.json
    {
      assert forall i :: j < i < k ==> outs[i] == all[i];
    }
  }

  lemma DataAfterResponse(data: Option<Payload>, outs: seq<Outcome>, p: Payload)
    requires ShowsData(data, outs)
    ensures ShowsData(if data.Some? && data.value.json == p.json then data else Some(p), outs + [Response(p)])
  {
    var all := outs + [Response(p)];
    if data.None? {
      assert FirstOfItsText(all, |outs|);
    } else {
      var k :| FirstOfItsText(outs, k) && outs[k].payload == data.value;
      if p.json == data.value.json {
        SameText(outs, Response(p), k);
        assert all[k] == outs[k];
      } else {
        NewText(outs, p, k);
        assert all[|outs|].payload == p;
      }
    }
  }

  lemma DataAfterFailure(data: Option<Payload>, outs: seq<Outcome>, error: string)
    requires ShowsData(data, outs)
    ensures ShowsData(data, outs + [Failure(error)])
  {
    if data.Some? {
      var k :| FirstOfItsText(outs, k) && outs[k].payload == data.value;
      SameText(outs, Failure(error), k);
      assert (outs + [Failure(error)])[k] == outs[k];
    }
  }

  lemma ResponseShown(s: State, outs: seq<Outcome>, p: Payload, now: int)
    requires Shows(s, outs)
    ensures Shows(s.(lastJson := p.json, res := Fetched(s, p, now)), outs + [Response(p)])
  {
    DataAfterResponse(s.res.data, outs, p);
  }

  lemma FailureShown(s: State, outs: seq<Outcome>, error: string)
    requires Shows(s, outs)
    ensures Shows(s.(res := s.res.(error := Some(error), stale := s.res.data.Some?, loading := false)),
                  outs + [Failure(error)])
  {
    DataAfterFailure(s.res.data, outs, error);
  }

  /** Nothing but the text and what is shown matters. */
  lemma SameShown(s: State, t: State, outs: seq<Outcome>)
    requires Shows(s, outs) && t.res == s.res && t.lastJson == s.lastJson
    ensures Shows(t, outs)
  {
  }

  lemma OutcomeShown(s: State, outs: seq<Outcome>, e: Event)
    requires Shows(s, outs)
    ensures Shows(Step(s, e), Extended(outs, OutcomeOf(s, e)))
  {
    match OutcomeOf(s, e)
    case Some(Response(p)) =>
      ResponseShown(s, outs, p, e.now);
      SameShown(s.(lastJson := p.json, res := Fetched(s, p, e.now)), Step(s, e), outs + [Response(p)]);
    case Some(Failure(error)) =>
      FailureShown(s, outs, error);
      SameShown(s.(res := Step(s, e).res), Step(s, e), outs + [Failure(error)]);
    case None => SameShown(s, Step(s, e), outs);
  }

  /**
   In every run, disciplined or not, the data shown is the last response that was still wanted, as
   the object that first carried that text; an error is shown exactly if a failure came after it.
   */
  lemma {:induction false} ShowsTheLatest(events: seq<Event>)
    ensures Shows(Run(events), Outcomes(events))
  {
    if events != [] {
      var before := events[..|events| - 1];
      ShowsTheLatest(before);
      OutcomeShown(Run(before), Outcomes(before), events[|events| - 1]);
    }
  }

  // ------------------------------------------------------------------ coalesced refreshes

  ghost predicate NoOverlapFrom(s: State, events: seq<Event>) {
    forall i :: 0 <= i < |events| ==> !Overlaps(After(s, events[..i]), events[i])
  }

  /** While the fetch `l` is live, the poller knows that it has been asked to fetch again. */
  ghost predicate Asked(s: State, l: nat) {
    Good(s) && l in s.fetches && (l in Live(s) ==> s.again)
  }

  lemma OthersFinish(s: State, l: nat, id: nat)
    requires Good(s) && l in Live(s) && id in s.fetches && id != l
    ensures WindUp(s, id) == s.(fetches := s.fetches - {id}) && l in Live(WindUp(s, id))
  {
    assert s.fetches[id].aborted;
  }

  /** A live fetch goes only by a stop or its own end, and until then the request stays. */
  lemma WantedStep(s: State, l: nat, e: Event)
    requires Good(s) && l in Live(s) && s.again && e != Finally(l) && !Overlaps(s, e)
    ensures var t := Step(s, e);
            && l in t.fetches && t.nextId >= s.nextId
            && (l in Live(t) <==> e != Stop)
            && (l in Live(t) ==> t.running == s.running && t.again)
  {
    if e.Finally? && e.id in s.fetches {
      OthersFinish(s, l, e.id);
    }
  }

  lemma AbortedWindUp(s: State, l: nat, id: nat)
    requires l in s.fetches && s.fetches[l].aborted && l < s.nextId && id in s.fetches && id != l
    ensures var t := WindUp(s, id); l in t.fetches && t.fetches[l].aborted && t.nextId >= s.nextId
  {
  }

  /** An aborted fetch stays aborted. */
  lemma AbortedStep(s: State, l: nat, e: Event)
    requires l in s.fetches && s.fetches[l].aborted && l < s.nextId && e != Finally(l)
    ensures var t := Step(s, e); l in t.fetches && t.fetches[l].aborted && t.nextId >= s.nextId
  {
    if e.Finally? && e.id in s.fetches {
      AbortedWindUp(s, l, e.id);
    }
  }

  lemma AskedStep(s: State, l: nat, e: Event)
    requires Asked(s, l) && e != Finally(l) && !Overlaps(s, e)
    ensures var t := Step(s, e);
            && Asked(t, l) && t.nextId >= s.nextId
            && (l in Live(t) <==> l in Live(s) && e != Stop)
            && (l in Live(t) ==> t.running == s.running)
  {
    StepGoodIff(s, e);
    if l in Live(s) {
      WantedStep(s, l, e);
    } else {
      AbortedStep(s, l, e);
    }
  }

  lemma NoOverlapSplit(s: State, before: seq<Event>, e: Event)
    requires NoOverlapFrom(s, before + [e])
    ensures NoOverlapFrom(s, before) && !Overlaps(After(s, before), e)
  {
    var events := before + [e];
    assert events[..|before|] == before;
    forall i | 0 <= i < |before|
      ensures !Overlaps(After(s, before[..i]), before[i])
    {
      assert before[..i] == events[..i];
    }
  }

  lemma {:induction false} AskedStays(s: State, l: nat, events: seq<Event>)
    requires Asked(s, l) && Finally(l) !in events && NoOverlapFrom(s, events)
    ensures var t := After(s, events);
            && Asked(t, l) && t.nextId >= s.nextId
            && (l in Live(t) <==> l in Live(s) && Stop !in events)
            && (l in Live(t) ==> t.running == s.running)
  {
    if events != [] {
      var before, e := events[..|events| - 1], events[|events| - 1];
      assert events == before + [e];
      NoOverlapSplit(s, before, e);
      AskedStays(s, l, before);
      AskedStep(After(s, before), l, e);
    }
  }

  /** What the end of fetch `l` leads to, if it is followed by another exactly if `wanted`. */
  ghost predicate Followed(s: State, l: nat, wanted: bool) {
    && l in s.fetches
    && (s.fetches[l].settled ==>
          var u := Step(s, Finally(l));
          && (s.nextId in Live(u) <==> wanted)
          && (wanted ==> u.inFlight == Some(s.nextId) && !u.again))
  }

  lemma WoundUp(s: State, l: nat)
    requires Asked(s, l)
    ensures Followed(s, l, s.running && l in Live(s))
  {
  }

  lemma AskedIff(s: State, l: nat, events: seq<Event>)
    requires Asked(s, l) && Finally(l) !in events && NoOverlapFrom(s, events)
    ensures var t := After(s, events);
            t.nextId >= s.nextId && Followed(t, l, s.running && l in Live(s) && Stop !in events)
  {
    AskedStays(s, l, events);
    WoundUp(After(s, events), l);
  }

  lemma RefreshAsks(s: State, l: nat)
    requires Good(s) && s.inFlight == Some(l)
    ensures var t := Step(s, Refresh);
            Asked(t, l) && Live(t) == Live(s) && t.running == s.running && t.nextId == s.nextId
  {
  }

  /**
   A refresh that coalesces into the fetch `l` is followed, when `l` is wound up, by a fetch that is
   newer than the refresh exactly if `l` was wanted when the refresh came, by a started poller, and
   no stop comes in between; an aborted fetch is wound up without a look at the request.
   */
  lemma CoalescedRefreshIff(s: State, l: nat, events: seq<Event>)
    requires Good(s) && s.inFlight == Some(l)
    requires Finally(l) !in events && NoOverlapFrom(Step(s, Refresh), events)
    ensures var t := After(Step(s, Refresh), events);
            t.nextId >= s.nextId && Followed(t, l, s.running && l in Live(s) && Stop !in events)
  {
    RefreshAsks(s, l);
    AskedIff(Step(s, Refresh), l, events);
  }
}
