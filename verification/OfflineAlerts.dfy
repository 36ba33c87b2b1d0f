/**
 Alerts under the id of the offline alert (crates/nimon-hub/src/alert/manager.rs:909-1030 and
 1803-1834). Resolved by hand they are not held; instead their edge is latched.
 */
module OfflineAlerts {
  import opened Basics
  import opened Rules
  import opened AlertManager
  import opened AlertLaws
  import opened AlertHolds
  import opened AlertReopening
  import opened EdgeSocket
  import AlertRuns
  import AlertCaps

  // ------------------------------------------------------------------ the latch of the offline alert

  /** The event shows that the edge is alive. */
  ghost predicate Sees(cfg: Config, s: State, e: Event, edge: string) {
    match e
    case StatusReport(reporting, _, _, _) => reporting == edge
    case EdgeSeen(seen) => seen == edge
    case RunSweep(sessions, _, _) => Sweeps(cfg, s, e) && HeardOf(cfg, s.core.now, sessions, edge)
    case _ => false
  }

  /** A live session of the edge has been heard from lately. */
  ghost predicate HeardOf(cfg: Config, now: int, sessions: seq<(string, int)>, edge: string) {
    exists i :: 0 <= i < |sessions| && IsRecent(cfg, now, sessions[i], edge)
  }

  predicate IsRecent(cfg: Config, now: int, session: (string, int), edge: string) {
    cfg.edgeOfflineAfterSecs > 0 && session.0 == edge && now - session.1 <= 1000 * cfg.edgeOfflineAfterSecs
  }

  /** An offline alert of the edge is resolved by hand. */
  predicate Latches(s: State, e: Event, edge: string) {
    && e.ResolveAlert? && IsActiveId(s.core, e.id)
    && s.core.book[e.id].key.rule == EDGE_OFFLINE && s.core.book[e.id].key.edge == edge
  }

  lemma {:induction false} SessionsUnlatch(cfg: Config, s: State, sessions: seq<(string, int)>, edge: string)
    ensures var t := SeeSessions(s, cfg, sessions);
            && t.core.now == s.core.now
            && (edge in t.latched <==> edge in s.latched && !HeardOf(cfg, s.core.now, sessions, edge))
    decreases |sessions|
  {
    if sessions != [] {
      var first, last := sessions[0].0, sessions[0].1;
      var recent := cfg.edgeOfflineAfterSecs > 0 && s.core.now - last <= 1000 * cfg.edgeOfflineAfterSecs;
      var t := if recent then MarkEdgeSeen(s, first, last)
        else s.(edges := s.edges[first := Later(s.edges, first, last)]);
      SessionsUnlatch(cfg, t, sessions[1..], edge);
      FirstHeardOf(cfg, s.core.now, sessions, edge);
    }
  }

  lemma FirstHeardOf(cfg: Config, now: int, sessions: seq<(string, int)>, edge: string)
    requires sessions != []
    ensures HeardOf(cfg, now, sessions, edge) <==>
            IsRecent(cfg, now, sessions[0], edge) || HeardOf(cfg, now, sessions[1..], edge)
  {
    if HeardOf(cfg, now, sessions, edge) {
      var i :| 0 <= i < |sessions| && IsRecent(cfg, now, sessions[i], edge);
      if i > 0 {
        assert sessions[1..][i - 1] == sessions[i];
      }
    }
    if HeardOf(cfg, now, sessions[1..], edge) {
      var i :| 0 <= i < |sessions[1..]| && IsRecent(cfg, now, sessions[1..][i], edge);
      assert sessions[i + 1] == sessions[1..][i];
    }
  }

  lemma {:induction false} DevicesKeepLatches(cfg: Config, s: State, order: seq<string>)
    ensures SweepDevices(s, cfg, order).latched == s.latched
    decreases |order|
  {
    if order != [] {
      DevicesKeepLatches(cfg, if order[0] in s.devices
        then s.(core := EvaluateRules(s.core, cfg, ContextOf(s, order[0]), true, |cfg.rules|)) else s, order[1..]);
    }
  }

  lemma {:induction false} OfflineKeepsLatches(cfg: Config, s: State, order: seq<string>)
    ensures OpenOffline(s, cfg, order).latched == s.latched
    decreases |order|
  {
    if order != [] {
      var key := Key(EDGE_OFFLINE, order[0], "");
      OfflineKeepsLatches(cfg, if IsSilent(s, cfg, order[0]) && order[0] !in s.latched && key !in s.core.active
        then s.(core := Open(s.core, key, s.core.now)) else s, order[1..]);
    }
  }

  lemma SweepUnlatches(cfg: Config, s: State, e: Event, edge: string, t: State)
    requires e.RunSweep? && t == OnSweep(s, cfg, e.sessions, e.deviceOrder, e.edgeOrder)
    ensures edge in t.latched <==> edge in s.latched && !HeardOf(cfg, s.core.now, e.sessions, edge)
  {
    SessionsUnlatch(cfg, s, e.sessions, edge);
    DevicesKeepLatches(cfg, SeeSessions(s, cfg, e.sessions), e.deviceOrder);
    OfflineKeepsLatches(cfg, BeforeOffline(s, cfg, e.sessions, e.deviceOrder), e.edgeOrder);
  }

  lemma StatusUnlatches(cfg: Config, s: State, e: Event, t: State)
    requires e.StatusReport? && t == Step(cfg, s, e)
    ensures t.latched == s.latched - {e.edge}
  {
  }

  lemma OtherEventsLatch(cfg: Config, s: State, e: Event, edge: string, t: State)
    requires !e.RunSweep? && !e.StatusReport? && t == Step(cfg, s, e)
    ensures edge in t.latched <==> (edge in s.latched && !Sees(cfg, s, e, edge)) || Latches(s, e, edge)
  {
  }

  /** What takes the place of a hold for the offline alert: it stays closed until the edge is seen, and no longer. */
  lemma LatchedIff(cfg: Config, s: State, e: Event, edge: string, t: State)
    requires t == Step(cfg, s, e)
    ensures edge in t.latched <==> (edge in s.latched && !Sees(cfg, s, e, edge)) || Latches(s, e, edge)
  {
    if e.RunSweep? {
      if Sweeps(cfg, s, e) {
        SweepUnlatches(cfg, s, e, edge, t);
      }
    } else if e.StatusReport? {
      StatusUnlatches(cfg, s, e, t);
    } else {
      OtherEventsLatch(cfg, s, e, edge, t);
    }
  }

  // ------------------------------------------------------------------ the latch over whole runs

  /** Event `n` of the run shows that the edge is alive. */
  ghost predicate SeesAt(cfg: Config, now: int, events: seq<Event>, n: nat, edge: string)
    requires n < |events|
  {
    Sees(cfg, Run(cfg, now, events[..n]), events[n], edge)
  }

  /** Event `n` of the run resolves an offline alert of the edge by hand. */
  ghost predicate LatchesAt(cfg: Config, now: int, events: seq<Event>, n: nat, edge: string)
    requires n < |events|
  {
    Latches(Run(cfg, now, events[..n]), events[n], edge)
  }

  ghost predicate SeenAfter(cfg: Config, now: int, events: seq<Event>, n: nat, edge: string) {
    exists m :: n < m < |events| && SeesAt(cfg, now, events, m, edge)
  }

  /** The edge has been seen since the last resolution of that kind, if there was one. */
  ghost predicate SeenSince(cfg: Config, now: int, events: seq<Event>, edge: string) {
    forall n | 0 <= n < |events| && LatchesAt(cfg, now, events, n, edge) :: SeenAfter(cfg, now, events, n, edge)
  }

  /** What the events before the last one were stays as it was. */
  lemma Earlier(cfg: Config, now: int, init: seq<Event>, e: Event, n: nat, edge: string)
    requires n < |init|
    ensures SeesAt(cfg, now, init + [e], n, edge) == SeesAt(cfg, now, init, n, edge)
    ensures LatchesAt(cfg, now, init + [e], n, edge) == LatchesAt(cfg, now, init, n, edge)
  {
    assert (init + [e])[..n] == init[..n];
  }

  lemma LastEvent(cfg: Config, now: int, init: seq<Event>, e: Event, edge: string)
    ensures SeesAt(cfg, now, init + [e], |init|, edge) == Sees(cfg, Run(cfg, now, init), e, edge)
    ensures LatchesAt(cfg, now, init + [e], |init|, edge) == Latches(Run(cfg, now, init), e, edge)
  {
    assert (init + [e])[..|init|] == init;
  }

  lemma SeenAfterSnoc(cfg: Config, now: int, init: seq<Event>, e: Event, n: nat, edge: string)
    requires n < |init|
    ensures SeenAfter(cfg, now, init + [e], n, edge) <==>
            SeenAfter(cfg, now, init, n, edge) || Sees(cfg, Run(cfg, now, init), e, edge)
  {
    LastEvent(cfg, now, init, e, edge);
    if SeenAfter(cfg, now, init, n, edge) {
      var m :| n < m < |init| && SeesAt(cfg, now, init, m, edge);
      Earlier(cfg, now, init, e, m, edge);
      assert SeesAt(cfg, now, init + [e], m, edge);
    }
    if SeenAfter(cfg, now, init + [e], n, edge) && !Sees(cfg, Run(cfg, now, init), e, edge) {
      var m :| n < m < |init + [e]| && SeesAt(cfg, now, init + [e], m, edge);
      Earlier(cfg, now, init, e, m, edge);
      assert SeesAt(cfg, now, init, m, edge);
    }
  }

  lemma SeenSinceSnoc(cfg: Config, now: int, init: seq<Event>, e: Event, edge: string)
    ensures SeenSince(cfg, now, init + [e], edge) <==>
            && !Latches(Run(cfg, now, init), e, edge)
            && (SeenSince(cfg, now, init, edge) || Sees(cfg, Run(cfg, now, init), e, edge))
  {
    LastEvent(cfg, now, init, e, edge);
    forall n | 0 <= n < |init|
      ensures LatchesAt(cfg, now, init + [e], n, edge) == LatchesAt(cfg, now, init, n, edge)
      ensures SeenAfter(cfg, now, init + [e], n, edge) <==>
              SeenAfter(cfg, now, init, n, edge) || Sees(cfg, Run(cfg, now, init), e, edge)
    {
      Earlier(cfg, now, init, e, n, edge);
      SeenAfterSnoc(cfg, now, init, e, n, edge);
    }
    assert !SeenAfter(cfg, now, init + [e], |init|, edge);
  }

  /** In every run an edge is latched exactly if it has not been seen since a resolution of that kind. */
  lemma {:induction false} LatchedInRunIff(cfg: Config, now: int, events: seq<Event>, edge: string)
    ensures edge in Run(cfg, now, events).latched <==> !SeenSince(cfg, now, events, edge)
  {
    if events != [] {
      var init, e := events[..|events| - 1], events[|events| - 1];
      LatchedInRunIff(cfg, now, init, edge);
      LatchedIff(cfg, Run(cfg, now, init), e, edge, Run(cfg, now, events));
      SeenSinceSnoc(cfg, now, init, e, edge);
      assert events == init + [e];
    }
  }

  // ------------------------------------------------------------------ when the offline alert re-opens

  function OfflineKey(edge: string): Key { Key(EDGE_OFFLINE, edge, "") }

  /** When its live sessions are counted, the edge has been silent for too long. */
  predicate SilentAt(cfg: Config, s: State, e: Event, edge: string)
    requires e.RunSweep?
  {
    IsSilent(SeeSessions(s, cfg, e.sessions), cfg, edge)
  }

  /** The edge has been heard from lately enough. */
  predicate Heard(cfg: Config, s: State, edge: string) {
    edge in s.edges && s.core.now - s.edges[edge] <= 1000 * cfg.edgeOfflineAfterSecs
  }

  /** An edge that a live session was heard from is not silent; and no session opens an offline alert. */
  lemma {:induction false} SessionsHear(cfg: Config, s: State, sessions: seq<(string, int)>, edge: string)
    ensures var t := SeeSessions(s, cfg, sessions);
            && t.core.now == s.core.now && t.devices == s.devices && t.core.active.Keys <= s.core.active.Keys
            && (Heard(cfg, s, edge) || HeardOf(cfg, s.core.now, sessions, edge) ==> Heard(cfg, t, edge))
    decreases |sessions|
  {
    if sessions != [] {
      var first, last := sessions[0].0, sessions[0].1;
      var recent := cfg.edgeOfflineAfterSecs > 0 && s.core.now - last <= 1000 * cfg.edgeOfflineAfterSecs;
      var t := if recent then MarkEdgeSeen(s, first, last)
        else s.(edges := s.edges[first := Later(s.edges, first, last)]);
      FirstHeardOf(cfg, s.core.now, sessions, edge);
      SessionsHear(cfg, t, sessions[1..], edge);
    }
  }

  lemma FireNowKeepsClosed(cfg: Config, c: Core, r: ManagedRule, other: Key, since: int, key: Key)
    requires key !in c.active && key != other
    ensures key !in FireNow(c, cfg, r, other, since).active
  {
  }

  lemma RuleKeepsClosed(cfg: Config, c: Core, r: ManagedRule, ctx: Context, sweep: bool, key: Key, d: Core)
    requires key !in c.active && key.device != ctx.deviceId && d == EvaluateRule(c, cfg, r, ctx, sweep)
    ensures key !in d.active
  {
    var other := Key(r.rule.id, ctx.edgeId, ctx.deviceId);
    if Window(r).None? {
      FireNowKeepsClosed(cfg, c, r, other, c.now, key);
    } else {
      FireNowKeepsClosed(cfg, Breach(c, other), r, other, Breach(c, other).breach[other], key);
    }
  }

  predicate Closed(c: Core, key: Key) { key !in c.active }

  lemma OneMoreRuleKeepsClosed(cfg: Config, c: Core, ctx: Context, sweep: bool, n: nat, key: Key)
    requires 0 < n <= |cfg.rules| && key.device != ctx.deviceId
    requires Closed(EvaluateRules(c, cfg, ctx, sweep, n - 1), key)
    ensures Closed(EvaluateRules(c, cfg, ctx, sweep, n), key)
  {
    RuleKeepsClosed(cfg, EvaluateRules(c, cfg, ctx, sweep, n - 1), cfg.rules[n - 1], ctx, sweep, key,
                    EvaluateRules(c, cfg, ctx, sweep, n));
  }

  lemma {:induction false} RulesKeepClosed(cfg: Config, c: Core, ctx: Context, sweep: bool, n: nat, key: Key)
    requires Closed(c, key) && key.device != ctx.deviceId && n <= |cfg.rules|
    ensures Closed(EvaluateRules(c, cfg, ctx, sweep, n), key)
  {
    if n > 0 {
      RulesKeepClosed(cfg, c, ctx, sweep, n - 1, key);
      OneMoreRuleKeepsClosed(cfg, c, ctx, sweep, n, key);
    }
  }

  /** Rules are about devices, which have names. */
  lemma {:induction false} DevicesKeepClosed(cfg: Config, s: State, order: seq<string>, edge: string)
    requires "" !in s.devices && OfflineKey(edge) !in s.core.active
    ensures var t := SweepDevices(s, cfg, order);
            OfflineKey(edge) !in t.core.active && t.core.now == s.core.now && t.edges == s.edges
    decreases |order|
  {
    if order != [] {
      if order[0] in s.devices {
        var ctx := ContextOf(s, order[0]);
        RulesKeepClosed(cfg, s.core, ctx, true, |cfg.rules|, OfflineKey(edge));
        AlertRuns.RulesKeepNow(cfg, s.core, ctx, true, |cfg.rules|);
        DevicesKeepClosed(cfg, s.(core := EvaluateRules(s.core, cfg, ctx, true, |cfg.rules|)), order[1..], edge);
      } else {
        DevicesKeepClosed(cfg, s, order[1..], edge);
      }
    }
  }

  /** What a sweep finds when it comes to the offline alerts. */
  lemma FoundBySweep(cfg: Config, s: State, e: Event, edge: string, b: State)
    requires e.RunSweep? && b == BeforeOffline(s, cfg, e.sessions, e.deviceOrder)
    requires "" !in s.devices && OfflineKey(edge) !in s.core.active
    ensures OfflineKey(edge) !in b.core.active
    ensures IsSilent(b, cfg, edge) <==> SilentAt(cfg, s, e, edge)
    ensures edge in b.latched <==> edge in s.latched && !HeardOf(cfg, s.core.now, e.sessions, edge)
  {
    var t := SeeSessions(s, cfg, e.sessions);
    SessionsHear(cfg, s, e.sessions, edge);
    SessionsUnlatch(cfg, s, e.sessions, edge);
    DevicesKeepClosed(cfg, t, e.deviceOrder, edge);
    DevicesKeepLatches(cfg, t, e.deviceOrder);
  }

  lemma SweepOpensIff(cfg: Config, s: State, e: Event, edge: string, t: State)
    requires e.RunSweep? && Sweeps(cfg, s, e) && t == Step(cfg, s, e)
    requires "" !in s.devices && OfflineKey(edge) !in s.core.active
    ensures OfflineKey(edge) in t.core.active <==> SilentAt(cfg, s, e, edge) && edge !in s.latched
  {
    FoundBySweep(cfg, s, e, edge, BeforeOffline(s, cfg, e.sessions, e.deviceOrder));
    SessionsHear(cfg, s, e.sessions, edge);
    AlertRuns.SweepSettles(cfg, s, e.sessions, e.deviceOrder, e.edgeOrder);
  }

  /**
   A sweep opens the offline alert of an edge, or opens it again, if and only if the edge is silent
   and has been seen since the last time an offline alert of it was resolved by hand. Cooldowns play no part.
   */
  lemma OfflineReopensIff(cfg: Config, now: int, events: seq<Event>, e: Event, edge: string)
    requires AllAdmitted(events) && e.RunSweep? && Sweeps(cfg, Run(cfg, now, events), e)
    requires OfflineKey(edge) !in Run(cfg, now, events).core.active
    ensures OfflineKey(edge) in Run(cfg, now, events + [e]).core.active <==>
            SilentAt(cfg, Run(cfg, now, events), e, edge) && SeenSince(cfg, now, events, edge)
  {
    var s := Run(cfg, now, events);
    EveryAlertIsOwned(cfg, now, events);
    assert "" !in s.devices by {
      if "" in s.devices {
        DevicesAreNamed(s.devices[""].edge, "");
      }
    }
    LatchedInRunIff(cfg, now, events, edge);
    RunSnoc(cfg, now, events, e);
    SweepOpensIff(cfg, s, e, edge, Run(cfg, now, events + [e]));
  }

  // ------------------------------------------------------------------ two runs

  /** No more is known than at most one edge, and no alert is active. */
  ghost predicate Idle(s: State, edge: string, book: seq<Record>) {
    && s.core.active == map[] && s.core.hold == map[] && s.core.lifted == {} && s.core.book == book
    && s.devices == map[] && s.predictions == map[] && s.edges.Keys <= {edge}
    && (edge in s.edges ==> s.edges[edge] <= s.core.now)
  }

  lemma SeenIdle(cfg: Config, s: State, edge: string, book: seq<Record>, t: State)
    requires Idle(s, edge, book) && t == Step(cfg, s, EdgeSeen(edge))
    ensures Idle(t, edge, book) && t.core.now == s.core.now && t.edges == map[edge := s.core.now] && edge !in t.latched
  {
    assert End(s.core, {OfflineKey(edge)}, false).book == book;
  }

  /** The record of an alert that opened at `at`. */
  function Opened(key: Key, at: int): Record { Record(key, at, [Fired(at, true)], None, None) }

  /** That alert is the only one that is active. */
  ghost predicate OnlyOpen(s: State, key: Key, edge: string, book: seq<Record>) {
    && s.core.active == map[key := Active(|book|, s.core.now, s.core.now, false)]
    && s.core.hold == map[] && s.core.lifted == {} && s.core.book == book + [Opened(key, s.core.now)]
    && s.edges.Keys <= {edge} && s.predictions == map[] && (edge in s.edges ==> s.edges[edge] <= s.core.now)
  }

  lemma SilenceFound(cfg: Config, s: State, edge: string, book: seq<Record>, t: State)
    requires Idle(s, edge, book) && cfg.edgeOfflineAfterSecs > 0 && edge !in s.latched
    requires edge in s.edges && s.edges[edge] + AlertCaps.Long(cfg) == s.core.now
    requires t == Step(cfg, s, RunSweep([], [], [edge]))
    ensures OnlyOpen(t, OfflineKey(edge), edge, book) && t.devices == map[] && t.core.now == s.core.now
  {
    NothingOpenToSweep(cfg, s, []);
    assert s.edges.Keys == {edge} && [edge][0] == edge;
    assert IsOrderOf([edge], s.edges.Keys) && IsOrderOf([], s.devices.Keys);
    var o := s.(core := Open(s.core, OfflineKey(edge), s.core.now));
    assert [edge][1..] == [] && OpenOffline(o, cfg, []) == o;
    assert OpenOffline(s, cfg, [edge]) == o;
    assert Stale(o, cfg) == {};
    NothingHeldToForget(cfg, o, t);
  }

  lemma NothingHeldToForget(cfg: Config, o: State, t: State)
    requires o.core.hold == map[] && o.devices == map[] && t == Prune(ForgetAll(o, cfg, {}), cfg)
    ensures t.core.active == o.core.active && t.core.book == o.core.book && t.core.now == o.core.now
    ensures t.core.hold == map[] && t.core.lifted == o.core.lifted
    ensures t.devices == map[] && t.predictions == o.predictions
    ensures t.edges.Keys <= o.edges.Keys && forall e | e in t.edges :: t.edges[e] == o.edges[e]
  {
    var f := ForgetAll(o, cfg, {});
    assert f.core.lifted == o.core.lifted && f.core.hold == map[];
  }

  /** The edge is seen, and then silent for too long. */
  function SeenThenSilent(cfg: Config, edge: string): seq<Event> {
    [EdgeSeen(edge), Elapse(AlertCaps.Long(cfg)), RunSweep([], [], [edge])]
  }

  lemma RunThree(cfg: Config, now: int, events: seq<Event>, a: Event, b: Event, c: Event)
    ensures Run(cfg, now, events + [a, b, c]) == Step(cfg, Step(cfg, Step(cfg, Run(cfg, now, events), a), b), c)
  {
    RunFrom(cfg, now, events, a, b);
    RunSnoc(cfg, now, events + [a, b], c);
    assert events + [a, b, c] == events + [a, b] + [c];
  }

  lemma SilenceOpens(cfg: Config, events: seq<Event>, edge: string, book: seq<Record>)
    requires cfg.edgeOfflineAfterSecs > 0 && Idle(Run(cfg, 0, events), edge, book)
    ensures var t := Run(cfg, 0, events + SeenThenSilent(cfg, edge));
            && OnlyOpen(t, OfflineKey(edge), edge, book) && t.devices == map[]
            && t.core.now == Run(cfg, 0, events).core.now + AlertCaps.Long(cfg)
  {
    var s := Run(cfg, 0, events);
    var long, sweep := Elapse(AlertCaps.Long(cfg)), RunSweep([], [], [edge]);
    RunThree(cfg, 0, events, EdgeSeen(edge), long, sweep);
    var seen := Step(cfg, s, EdgeSeen(edge));
    SeenIdle(cfg, s, edge, book, seen);
    SilentIdle(cfg, seen, edge, book, AlertCaps.Long(cfg), Step(cfg, seen, long));
    SilenceFound(cfg, Step(cfg, seen, long), edge, book, Step(cfg, Step(cfg, seen, long), sweep));
  }

  lemma SilentIdle(cfg: Config, s: State, edge: string, book: seq<Record>, ms: nat, t: State)
    requires Idle(s, edge, book) && t == Step(cfg, s, Elapse(ms))
    ensures Idle(t, edge, book) && t.core.now == s.core.now + ms && t.edges == s.edges && t.latched == s.latched
  {
  }

  /** The record of an alert that was opened and resolved by hand at `at`. */
  function Resolved(key: Key, at: int): Record { Opened(key, at).(ended := Some(Ending(at, true))) }

  lemma ResolvedIdle(cfg: Config, s: State, edge: string, t: State)
    requires OnlyOpen(s, OfflineKey(edge), edge, []) && s.devices == map[] && t == Step(cfg, s, ResolveAlert(0))
    ensures Idle(t, edge, [Resolved(OfflineKey(edge), s.core.now)]) && t.core.now == s.core.now
  {
    assert IsOpen(s.core, 0);
  }

  lemma OpenAgain(s: State, key: Key, edge: string, at: int)
    requires OnlyOpen(s, key, edge, [Resolved(key, at)])
    ensures Reopened(s, key, at, s.core.now)
  {
  }

  /** The edge goes silent, and its alert is resolved by hand. */
  function SilentOnce(cfg: Config, edge: string): seq<Event> { [] + SeenThenSilent(cfg, edge) + [ResolveAlert(0)] }

  /** After that run the alert has been resolved by hand just now, and nothing else has happened. */
  ghost predicate ResolvedAfter(cfg: Config, events: seq<Event>, edge: string, at: int) {
    var s := Run(cfg, 0, events);
    s.core.now == at && Idle(s, edge, [Resolved(OfflineKey(edge), at)])
  }

  /** After that run it is open again, since `when`. */
  ghost predicate ReopenedAfter(cfg: Config, events: seq<Event>, edge: string, at: int, when: int) {
    Reopened(Run(cfg, 0, events), OfflineKey(edge), at, when)
  }

  lemma SilentOnceState(cfg: Config, edge: string)
    requires cfg.edgeOfflineAfterSecs > 0
    ensures ResolvedAfter(cfg, SilentOnce(cfg, edge), edge, AlertCaps.Long(cfg))
  {
    var once := [] + SeenThenSilent(cfg, edge);
    SilenceOpens(cfg, [], edge, []);
    RunSnoc(cfg, 0, once, ResolveAlert(0));
    ResolvedIdle(cfg, Run(cfg, 0, once), edge, Run(cfg, 0, SilentOnce(cfg, edge)));
  }

  /** After that it goes silent again. */
  function SilentTwice(cfg: Config, edge: string): seq<Event> { SilentOnce(cfg, edge) + SeenThenSilent(cfg, edge) }

  lemma SilenceAdmitted(cfg: Config, edge: string)
    requires Registers(edge)
    ensures AllAdmitted(SilentTwice(cfg, edge))
  {
    assert AllAdmitted(SeenThenSilent(cfg, edge));
  }

  lemma SilenceReopens(cfg: Config, events: seq<Event>, edge: string, at: int)
    requires cfg.edgeOfflineAfterSecs > 0 && ResolvedAfter(cfg, events, edge, at)
    ensures ReopenedAfter(cfg, events + SeenThenSilent(cfg, edge), edge, at, at + AlertCaps.Long(cfg))
  {
    SilenceOpens(cfg, events, edge, [Resolved(OfflineKey(edge), at)]);
    OpenAgain(Run(cfg, 0, events + SeenThenSilent(cfg, edge)), OfflineKey(edge), edge, at);
  }

  /** When the edge goes silent again the offline alert re-opens, however long its cooldown. */
  lemma OfflineAlertReopens(cfg: Config, edge: string)
    requires cfg.edgeOfflineAfterSecs > 0 && Registers(edge)
    ensures AllAdmitted(SilentTwice(cfg, edge))
    ensures ReopenedAfter(cfg, SilentTwice(cfg, edge), edge, AlertCaps.Long(cfg), 2 * AlertCaps.Long(cfg))
  {
    SilenceAdmitted(cfg, edge);
    SilentOnceState(cfg, edge);
    SilenceReopens(cfg, SilentOnce(cfg, edge), edge, AlertCaps.Long(cfg));
  }

  /** The verdict of a threshold rule depends on the metrics alone. */
  lemma MetricsFire(r: AlertRule, a: Context, b: Context, s: int, t: int)
    requires r.condition.MetricThreshold? && a.metrics == b.metrics
    ensures RuleEvaluate(r, a, s) == RuleEvaluate(r, b, t)
  {
  }

  /** The only rule there is, on one metric, without a window and with a cap above zero, fires on those metrics. */
  ghost predicate OnlyRule(cfg: Config, r: ManagedRule, metrics: map<string, MetricValue>) {
    && cfg.rules == [r] && r.rule.condition.MetricThreshold? && Window(r).None? && Cap(cfg, r) > 0
    && RuleEvaluate(r.rule, Context("", "", Warning, None, metrics, 0, []), 0)
  }

  lemma RuleOpens(cfg: Config, c: Core, r: ManagedRule, ctx: Context, d: Core)
    requires OnlyRule(cfg, r, ctx.metrics) && c.active == map[] && c.hold == map[]
    requires d == EvaluateRules(c, cfg, ctx, false, |cfg.rules|)
    ensures d == Open(c, Key(r.rule.id, ctx.edgeId, ctx.deviceId), c.now)
  {
    MetricsFire(r.rule, ctx, Context("", "", Warning, None, ctx.metrics, 0, []), c.now, 0);
    RuleNeverBoth(r.rule, ctx, c.now);
    assert EvaluateRules(c, cfg, ctx, false, 0) == c;
    assert d == EvaluateRule(c, cfg, r, ctx, false);
    assert c.(hold := c.hold - {Key(r.rule.id, ctx.edgeId, ctx.deviceId)}) == c;
    assert Firing(c, r.rule.id) == {};
  }

  /** Nothing is active or held. */
  ghost predicate NothingOpen(s: State, book: seq<Record>) {
    s.core.active == map[] && s.core.hold == map[] && s.core.lifted == {} && s.core.book == book
  }

  lemma StatusOpens(cfg: Config, s: State, r: ManagedRule, edge: string, device: string,
                    metrics: map<string, MetricValue>, book: seq<Record>, t: State)
    requires OnlyRule(cfg, r, metrics) && NothingOpen(s, book)
    requires t == Step(cfg, s, StatusReport(edge, device, Warning, metrics))
    ensures var key := Key(r.rule.id, edge, device);
            && t.core.now == s.core.now && t.core.hold == map[] && t.core.lifted == {}
            && t.core.active == map[key := Active(|book|, s.core.now, s.core.now, false)]
            && t.core.book == book + [Opened(key, s.core.now)]
  {
    var seen := MarkEdgeSeen(s, edge, s.core.now).core;
    assert seen == s.core;
    RuleOpens(cfg, seen, r, ReportContext(s, edge, device, Warning, metrics), t.core);
  }

  lemma ResolvedNothingOpen(cfg: Config, s: State, key: Key, t: State)
    requires key.rule == EDGE_OFFLINE && t == Step(cfg, s, ResolveAlert(0))
    requires s.core.active == map[key := Active(0, s.core.now, s.core.now, false)]
    requires s.core.hold == map[] && s.core.lifted == {} && s.core.book == [Opened(key, s.core.now)]
    ensures NothingOpen(t, [Resolved(key, s.core.now)]) && t.core.now == s.core.now
  {
    assert IsOpen(s.core, 0);
  }

  /** A breach is reported, its alert is resolved by hand, and the breach is reported again. */
  function BreachTwice(edge: string, device: string, metrics: map<string, MetricValue>): seq<Event> {
    var breach := StatusReport(edge, device, Warning, metrics);
    [breach, ResolveAlert(0), breach]
  }

  /** What the three come to, one after the other. */
  function Twice(cfg: Config, breach: Event): State {
    Step(cfg, Step(cfg, Step(cfg, Init(0), breach), ResolveAlert(0)), breach)
  }

  lemma TwiceReopens(cfg: Config, r: ManagedRule, edge: string, device: string, metrics: map<string, MetricValue>)
    requires OnlyRule(cfg, r, metrics) && r.rule.id == EDGE_OFFLINE
    ensures var t := Twice(cfg, StatusReport(edge, device, Warning, metrics));
            Reopened(t, Key(EDGE_OFFLINE, edge, device), 0, 0) && t.core.lifted == {}
  {
    var breach, key := StatusReport(edge, device, Warning, metrics), Key(EDGE_OFFLINE, edge, device);
    var s := Step(cfg, Init(0), breach);
    var t := Step(cfg, s, ResolveAlert(0));
    StatusOpens(cfg, Init(0), r, edge, device, metrics, [], s);
    ResolvedNothingOpen(cfg, s, key, t);
    StatusOpens(cfg, t, r, edge, device, metrics, [Resolved(key, 0)], Step(cfg, t, breach));
  }

  lemma RunTwice(cfg: Config, breach: Event)
    ensures Run(cfg, 0, [breach, ResolveAlert(0), breach]) == Twice(cfg, breach)
  {
    RunThree(cfg, 0, [], breach, ResolveAlert(0), breach);
    assert [] + [breach, ResolveAlert(0), breach] == [breach, ResolveAlert(0), breach];
  }

  lemma BreachTwiceReopens(cfg: Config, r: ManagedRule, edge: string, device: string,
                           metrics: map<string, MetricValue>)
    requires OnlyRule(cfg, r, metrics) && r.rule.id == EDGE_OFFLINE
    ensures var t := Run(cfg, 0, BreachTwice(edge, device, metrics));
            Reopened(t, Key(EDGE_OFFLINE, edge, device), 0, 0) && t.core.lifted == {}
  {
    RunTwice(cfg, StatusReport(edge, device, Warning, metrics));
    TwiceReopens(cfg, r, edge, device, metrics);
  }

  /** The alert of a rule under that id re-opens at the instant it was resolved, with nothing forgotten. */
  lemma OfflineRuleReopens(cfg: Config, r: ManagedRule, edge: string, device: string, metrics: map<string, MetricValue>)
    requires OnlyRule(cfg, r, metrics) && r.rule.id == EDGE_OFFLINE && Registers(edge) && Owns(edge, device)
    ensures var events := BreachTwice(edge, device, metrics);
            && AllAdmitted(events) && !LiftedInRun(cfg, 0, events, 0)
            && Reopened(Run(cfg, 0, events), Key(EDGE_OFFLINE, edge, device), 0, 0)
  {
    BreachTwiceReopens(cfg, r, edge, device, metrics);
    LiftedInRunIff(cfg, 0, BreachTwice(edge, device, metrics), 0);
  }
}
