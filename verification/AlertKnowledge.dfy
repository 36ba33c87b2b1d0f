/**
 What the alert manager knows of devices, predictions and edges, told from the events of the run
 (crates/nimon-hub/src/alert/manager.rs:857-1080, 1626-1642 and 1860-1990).
 */
module AlertKnowledge {
  import opened Basics
  import opened Rules
  import opened AlertManager
  import opened AlertLaws
  import opened AlertHolds
  import opened OfflineAlerts
  import AlertRuns

  // ------------------------------------------------------------------ settings

  function AtLeast(n: int, least: int): int { if n < least then least else n }

  /** Settings are in minutes, hours and seconds, and have least values; a rule's own go before the general ones. */
  lemma SettingsMean(cfg: Config, r: ManagedRule, id: string)
    requires UniqueRules(cfg)
    ensures r in cfg.rules ==> Cooldown(cfg, r.rule.id) == 60000 * AtLeast(r.cooldownMinutes, 0)
    ensures (forall q | q in cfg.rules :: q.rule.id != id) ==>
              Cooldown(cfg, id) == 60000 * AtLeast(cfg.defaultCooldownMinutes, 0)
    ensures r.maxFiring == None ==> Cap(cfg, r) == cfg.maxFiring
    ensures r.maxFiring != None ==> r.maxFiring == Some(Cap(cfg, r))
    ensures Retention(cfg) == 3600000 * AtLeast(cfg.retentionHours, 1)
    ensures Window(r) == match r.rule.condition
                         case MetricThreshold(_, _, _, Some(minutes), _) => Some(60000 * minutes)
                         case _ => None
  {
    if r in cfg.rules {
      Unique(cfg.rules, r);
    }
  }

  // ------------------------------------------------------------------ the clock

  function Elapsed(events: seq<Event>): nat {
    if events == [] then 0
    else
      var e := events[|events| - 1];
      Elapsed(events[..|events| - 1]) + if e.Elapse? then e.ms else 0
  }

  lemma SweepKeepsClock(cfg: Config, s: State, e: Event, t: State)
    requires UniqueRules(cfg) && Inv(cfg, s.core) && e.RunSweep? && t == Step(cfg, s, e)
    ensures t.core.now == s.core.now
  {
    if Sweeps(cfg, s, e) {
      AtPruningHands(cfg, s, e);
      assert t.core.now == AtPruning(cfg, s, e).core.now;
    }
  }

  lemma StatusKeepsClock(cfg: Config, s: State, e: Event, t: State)
    requires e.StatusReport? && t == Step(cfg, s, e)
    ensures t.core.now == s.core.now
  {
    AlertRuns.RulesKeepNow(cfg, MarkEdgeSeen(s, e.edge, s.core.now).core,
                           ReportContext(s, e.edge, e.device, e.status, e.metrics), false, |cfg.rules|);
  }

  lemma OthersMoveClock(cfg: Config, s: State, e: Event, t: State)
    requires !e.RunSweep? && !e.StatusReport? && t == Step(cfg, s, e)
    ensures t.core.now == s.core.now + if e.Elapse? then e.ms else 0
  {
  }

  lemma ClockMoves(cfg: Config, s: State, e: Event, t: State)
    requires UniqueRules(cfg) && Inv(cfg, s.core) && t == Step(cfg, s, e)
    ensures t.core.now == s.core.now + if e.Elapse? then e.ms else 0
  {
    if e.StatusReport? {
      StatusKeepsClock(cfg, s, e, t);
    } else if e.RunSweep? {
      SweepKeepsClock(cfg, s, e, t);
    } else {
      OthersMoveClock(cfg, s, e, t);
    }
  }

  /** In every run the clock has moved by what has elapsed. */
  lemma {:induction false} ClockOfRun(cfg: Config, now: int, events: seq<Event>)
    requires UniqueRules(cfg)
    ensures Run(cfg, now, events).core.now == now + Elapsed(events)
  {
    if events != [] {
      var init := events[..|events| - 1];
      ClockOfRun(cfg, now, init);
      RunInv(cfg, now, init);
      ClockMoves(cfg, Run(cfg, now, init), events[|events| - 1], Run(cfg, now, events));
    }
  }

  // ------------------------------------------------------------------ devices

  /** The device has said nothing for longer than the retention, and no alert about it is active on its edge. */
  ghost predicate IsGivenUp(cfg: Config, s: State, e: Event, device: string)
    requires device in s.devices && e.RunSweep?
  {
    && Sweeps(cfg, s, e) && s.core.now - s.devices[device].lastSeen > 3600000 * AtLeast(cfg.retentionHours, 1)
    && forall k | k in AtPruning(cfg, s, e).core.active :: k.device == device ==> k.edge != s.devices[device].edge
  }

  /** Its edge has removed it, or a sweep gives it up. */
  ghost predicate IsForgotten(cfg: Config, s: State, e: Event, device: string)
    requires device in s.devices
  {
    match e
    case DeviceRemoved(edge, removed) => removed == device && s.devices[device].edge == edge
    case RunSweep(_, _, _) => IsGivenUp(cfg, s, e, device)
    case _ => false
  }

  predicate IsReport(e: Event, device: string) { e.StatusReport? && e.device == device }

  lemma SweepKnows(cfg: Config, s: State, e: Event)
    requires e.RunSweep?
    ensures var o := AtPruning(cfg, s, e); o.devices == s.devices && o.core.now == s.core.now
  {
    var t := SeeSessions(s, cfg, e.sessions);
    SessionsHear(cfg, s, e.sessions, "");
    DevicesKnow(cfg, t, e.deviceOrder);
    AlertRuns.OfflineOpened(cfg, BeforeOffline(s, cfg, e.sessions, e.deviceOrder), e.edgeOrder);
  }

  lemma {:induction false} DevicesKnow(cfg: Config, s: State, order: seq<string>)
    ensures var t := SweepDevices(s, cfg, order);
            && t.devices == s.devices && t.core.now == s.core.now
            && t.edges == s.edges && t.predictions == s.predictions
    decreases |order|
  {
    if order != [] {
      if order[0] in s.devices {
        var ctx := ContextOf(s, order[0]);
        AlertRuns.RulesKeepNow(cfg, s.core, ctx, true, |cfg.rules|);
        DevicesKnow(cfg, s.(core := EvaluateRules(s.core, cfg, ctx, true, |cfg.rules|)), order[1..]);
      } else {
        DevicesKnow(cfg, s, order[1..]);
      }
    }
  }

  lemma GivenUpIff(cfg: Config, s: State, e: Event, device: string)
    requires e.RunSweep? && Sweeps(cfg, s, e) && device in s.devices
    ensures IsGivenUp(cfg, s, e, device) <==> device in Stale(AtPruning(cfg, s, e), cfg)
  {
    SweepKnows(cfg, s, e);
  }

  lemma DeviceMoves(cfg: Config, s: State, e: Event, device: string, t: State)
    requires t == Step(cfg, s, e)
    ensures device in t.devices <==> IsReport(e, device) || (device in s.devices && !IsForgotten(cfg, s, e, device))
    ensures device in t.devices ==>
              t.devices[device] == if IsReport(e, device) then Known(e.edge, e.status, e.metrics, s.core.now)
                                   else s.devices[device]
  {
    if e.RunSweep? {
      if Sweeps(cfg, s, e) {
        SweepKnows(cfg, s, e);
        if device in s.devices {
          GivenUpIff(cfg, s, e, device);
        }
      }
    } else if e.ResolveAlert? {
      assert t.devices == s.devices;
    }
  }

  ghost predicate ReportsAt(events: seq<Event>, n: nat, device: string)
    requires n < |events|
  {
    IsReport(events[n], device)
  }

  ghost predicate ForgetsAt(cfg: Config, now: int, events: seq<Event>, n: nat, device: string)
    requires n < |events|
  {
    var s := Run(cfg, now, events[..n]);
    device in s.devices && IsForgotten(cfg, s, events[n], device)
  }

  /** Event `n` is the last report about the device, and it has not been forgotten since. */
  ghost predicate LastReport(cfg: Config, now: int, events: seq<Event>, n: nat, device: string)
    requires n < |events|
  {
    && ReportsAt(events, n, device)
    && forall m :: n < m < |events| ==> !ReportsAt(events, m, device) && !ForgetsAt(cfg, now, events, m, device)
  }

  lemma LastReportSnoc(cfg: Config, now: int, init: seq<Event>, e: Event, n: nat, device: string)
    requires n < |init|
    ensures LastReport(cfg, now, init + [e], n, device) <==>
            && LastReport(cfg, now, init, n, device) && !IsReport(e, device)
            && !(device in Run(cfg, now, init).devices && IsForgotten(cfg, Run(cfg, now, init), e, device))
  {
    var events := init + [e];
    assert events[..|init|] == init && events[|init|] == e && events[n] == init[n];
    forall m | 0 <= m < |init|
      ensures ReportsAt(events, m, device) == ReportsAt(init, m, device)
      ensures ForgetsAt(cfg, now, events, m, device) == ForgetsAt(cfg, now, init, m, device)
    {
      assert events[..m] == init[..m] && events[m] == init[m];
    }
    if LastReport(cfg, now, events, n, device) {
      assert !ReportsAt(events, |init|, device) && !ForgetsAt(cfg, now, events, |init|, device);
    }
  }

  ghost predicate TellsReport(cfg: Config, now: int, events: seq<Event>, n: nat, known: Known)
    requires n < |events|
  {
    && events[n].StatusReport?
    && known == Known(events[n].edge, events[n].status, events[n].metrics, Run(cfg, now, events[..n]).core.now)
  }

  /** What is known of a device is what its last report said, and when, unless it has been forgotten since. */
  ghost predicate KnownAsReported(cfg: Config, now: int, events: seq<Event>, device: string) {
    var devices := Run(cfg, now, events).devices;
    if device in devices
    then exists n :: 0 <= n < |events| && LastReport(cfg, now, events, n, device)
                     && TellsReport(cfg, now, events, n, devices[device])
    else forall n :: 0 <= n < |events| ==> !LastReport(cfg, now, events, n, device)
  }

  lemma KnownSnoc(cfg: Config, now: int, init: seq<Event>, e: Event, device: string)
    requires KnownAsReported(cfg, now, init, device)
    ensures KnownAsReported(cfg, now, init + [e], device)
  {
    var events := init + [e];
    var s, t := Run(cfg, now, init), Run(cfg, now, events);
    RunSnoc(cfg, now, init, e);
    DeviceMoves(cfg, s, e, device, t);
    assert events[..|init|] == init && events[|init|] == e;
    if IsReport(e, device) {
      assert LastReport(cfg, now, events, |init|, device) && TellsReport(cfg, now, events, |init|, t.devices[device]);
    } else if device in t.devices {
      var n :| 0 <= n < |init| && LastReport(cfg, now, init, n, device)
               && TellsReport(cfg, now, init, n, s.devices[device]);
      LastReportSnoc(cfg, now, init, e, n, device);
      assert events[..n] == init[..n] && TellsReport(cfg, now, events, n, t.devices[device]);
    } else {
      forall n | 0 <= n < |events|
        ensures !LastReport(cfg, now, events, n, device)
      {
        if n < |init| {
          LastReportSnoc(cfg, now, init, e, n, device);
        } else {
          assert !ReportsAt(events, n, device);
        }
      }
    }
  }

  lemma {:induction false} KnownIsReported(cfg: Config, now: int, events: seq<Event>, device: string)
    ensures KnownAsReported(cfg, now, events, device)
  {
    if events != [] {
      var init := events[..|events| - 1];
      KnownIsReported(cfg, now, init, device);
      KnownSnoc(cfg, now, init, events[|events| - 1], device);
      assert events == init + [events[|events| - 1]];
    }
  }

  // ------------------------------------------------------------------ predictions

  function PredictionsOf(s: State, device: string): seq<Stored> {
    if device in s.predictions then s.predictions[device] else []
  }

  ghost predicate OnePerType(stored: seq<Stored>) {
    forall i, j :: 0 <= i < j < |stored| ==> stored[i].info.predictionType != stored[j].info.predictionType
  }

  lemma {:induction false} Remembered(stored: seq<Stored>, p: Stored, x: Stored)
    requires OnePerType(stored)
    ensures OnePerType(Remember(stored, p))
    ensures x in Remember(stored, p) <==>
            x == p || (x in stored && x.info.predictionType != p.info.predictionType)
  {
    if stored != [] {
      var first, rest := stored[0], stored[1..];
      assert stored == [first] + rest;
      if first.info.predictionType == p.info.predictionType {
        assert forall y | y in rest :: y.info.predictionType != p.info.predictionType;
      } else {
        Remembered(rest, p, x);
        forall j | 0 <= j < |Remember(rest, p)|
          ensures Remember(rest, p)[j].info.predictionType != first.info.predictionType
        {
          var y := Remember(rest, p)[j];
          Remembered(rest, p, y);
          assert y == p || y in rest;
        }
      }
    }
  }

  lemma {:induction false} Unexpiring(stored: seq<Stored>, now: int, ttl: int, x: Stored)
    ensures x in Unexpired(stored, now, ttl) <==> x in stored && now - x.at <= ttl
    ensures OnePerType(stored) ==> OnePerType(Unexpired(stored, now, ttl))
  {
    if stored != [] {
      var first, rest := stored[0], stored[1..];
      var kept := Unexpired(rest, now, ttl);
      assert stored == [first] + rest;
      Unexpiring(rest, now, ttl, x);
      forall j | 0 <= j < |kept| && OnePerType(stored)
        ensures kept[j].info.predictionType != first.info.predictionType
      {
        Unexpiring(rest, now, ttl, kept[j]);
        assert kept[j] in rest;
      }
    }
  }

  ghost predicate AllOnePerType(s: State) { forall d | d in s.predictions :: OnePerType(s.predictions[d]) }

  lemma SweepPredictions(cfg: Config, s: State, e: Event, device: string, x: Stored, t: State)
    requires e.RunSweep? && Sweeps(cfg, s, e) && t == Step(cfg, s, e) && AllOnePerType(s)
    ensures AllOnePerType(t)
    ensures x in PredictionsOf(t, device) <==>
            && x in PredictionsOf(s, device) && s.core.now - x.at <= 60000 * AtLeast(cfg.predictionTtlMinutes, 1)
            && (device in s.devices ==> !IsGivenUp(cfg, s, e, device))
  {
    var u := SeeSessions(s, cfg, e.sessions);
    SessionsPredict(cfg, s, e.sessions);
    SessionsHear(cfg, s, e.sessions, "");
    DevicesKnow(cfg, u, e.deviceOrder);
    var b := BeforeOffline(s, cfg, e.sessions, e.deviceOrder);
    OfflinePredicts(cfg, b, e.edgeOrder);
    SweepKnows(cfg, s, e);
    if device in s.devices {
      GivenUpIff(cfg, s, e, device);
    }
    var ttl := AtLeastOneMinute(cfg.predictionTtlMinutes);
    Unexpiring(PredictionsOf(s, device), s.core.now, ttl, x);
    forall d | d in t.predictions
      ensures OnePerType(t.predictions[d])
    {
      Unexpiring(s.predictions[d], s.core.now, ttl, x);
    }
  }

  lemma SessionsPredict(cfg: Config, s: State, sessions: seq<(string, int)>)
    ensures SeeSessions(s, cfg, sessions).predictions == s.predictions
    decreases |sessions|
  {
    if sessions != [] {
      var edge, last := sessions[0].0, sessions[0].1;
      var recent := cfg.edgeOfflineAfterSecs > 0 && s.core.now - last <= 1000 * cfg.edgeOfflineAfterSecs;
      SessionsPredict(cfg, if recent then MarkEdgeSeen(s, edge, last)
                           else s.(edges := s.edges[edge := Later(s.edges, edge, last)]), sessions[1..]);
    }
  }

  lemma OfflinePredicts(cfg: Config, s: State, order: seq<string>)
    ensures OpenOffline(s, cfg, order).predictions == s.predictions
    decreases |order|
  {
    if order != [] {
      var key := Key(EDGE_OFFLINE, order[0], "");
      OfflinePredicts(cfg, if IsSilent(s, cfg, order[0]) && order[0] !in s.latched && key !in s.core.active
                           then s.(core := Open(s.core, key, s.core.now)) else s, order[1..]);
    }
  }

  /** The predictions of that device that an event leaves, apart from one that it brings. */
  ghost predicate LeavesPrediction(cfg: Config, s: State, e: Event, device: string, x: Stored) {
    match e
    case PredictionReport(_, about, info) => about == device ==> x.info.predictionType != info.predictionType
    case DeviceRemoved(edge, removed) =>
      removed == device ==> device in s.devices && s.devices[device].edge != edge
    case RunSweep(_, _, _) =>
      Sweeps(cfg, s, e) ==>
        && s.core.now - x.at <= 60000 * AtLeast(cfg.predictionTtlMinutes, 1)
        && (device in s.devices ==> !IsGivenUp(cfg, s, e, device))
    case _ => true
  }

  /** Of every device the newest prediction of each type is kept, as long as it lasts and its device does. */
  lemma PredictionMoves(cfg: Config, s: State, e: Event, device: string, x: Stored, t: State)
    requires AllOnePerType(s) && t == Step(cfg, s, e)
    ensures AllOnePerType(t)
    ensures x in PredictionsOf(t, device) <==>
            || (e.PredictionReport? && e.device == device && x == Stored(e.info, s.core.now))
            || (x in PredictionsOf(s, device) && LeavesPrediction(cfg, s, e, device, x))
  {
    if e.RunSweep? {
      if Sweeps(cfg, s, e) {
        SweepPredictions(cfg, s, e, device, x, t);
      }
    } else if e.PredictionReport? {
      assert t.predictions ==
             s.predictions[e.device := Remember(PredictionsOf(s, e.device), Stored(e.info, s.core.now))];
      Remembered(PredictionsOf(s, e.device), Stored(e.info, s.core.now), x);
    } else if !e.DeviceRemoved? {
      OthersPredict(cfg, s, e, t);
    }
  }

  lemma OthersPredict(cfg: Config, s: State, e: Event, t: State)
    requires t == Step(cfg, s, e) && !e.RunSweep? && !e.PredictionReport? && !e.DeviceRemoved?
    ensures t.predictions == s.predictions
  {
  }

  lemma {:induction false} RunOnePerType(cfg: Config, now: int, events: seq<Event>)
    ensures AllOnePerType(Run(cfg, now, events))
  {
    if events != [] {
      var init, e := events[..|events| - 1], events[|events| - 1];
      RunOnePerType(cfg, now, init);
      PredictionMoves(cfg, Run(cfg, now, init), e, "", Stored(PredictionInfo("", NaN, None), 0), Run(cfg, now, events));
    }
  }

  /** The same for whole runs. */
  lemma PredictionsOfRun(cfg: Config, now: int, events: seq<Event>, e: Event, device: string, x: Stored)
    ensures var s := Run(cfg, now, events);
            x in PredictionsOf(Run(cfg, now, events + [e]), device) <==>
            || (e.PredictionReport? && e.device == device && x == Stored(e.info, s.core.now))
            || (x in PredictionsOf(s, device) && LeavesPrediction(cfg, s, e, device, x))
  {
    RunOnePerType(cfg, now, events);
    RunSnoc(cfg, now, events, e);
    PredictionMoves(cfg, Run(cfg, now, events), e, device, x, Run(cfg, now, events + [e]));
  }

  // ------------------------------------------------------------------ what rules are judged by

  /** A report is judged as it stands, with the state the device was last known in and its predictions. */
  lemma ReportIsJudged(s: State, edge: string, device: string, status: HealthStatus, metrics: map<string, MetricValue>)
    ensures var ctx := ReportContext(s, edge, device, status, metrics);
            && ctx.deviceId == device && ctx.edgeId == edge && ctx.metrics == metrics && ctx.lastPoll == s.core.now
            && ctx.currentStatus == status
            && (forall was ::
                  ctx.previousStatus == Some(was) <==> device in s.devices && s.devices[device].status == was)
            && (forall p :: p in ctx.predictions <==> exists x :: x in PredictionsOf(s, device) && x.info == p)
  {
    var ctx := ReportContext(s, edge, device, status, metrics);
    InfosIff(s, device, ctx.predictions);
  }

  /** A sweep judges a device by its last report. */
  lemma SweepJudges(s: State, device: string)
    requires device in s.devices
    ensures var ctx, known := ContextOf(s, device), s.devices[device];
            && ctx.deviceId == device && ctx.edgeId == known.edge && ctx.metrics == known.metrics
            && ctx.lastPoll == known.lastSeen
            && ctx.currentStatus == known.status && ctx.previousStatus == Some(known.status)
            && (forall p :: p in ctx.predictions <==> exists x :: x in PredictionsOf(s, device) && x.info == p)
  {
    InfosIff(s, device, ContextOf(s, device).predictions);
  }

  lemma InfosIff(s: State, device: string, infos: seq<PredictionInfo>)
    requires infos == PredictionsFor(s, device)
    ensures forall p :: p in infos <==> exists x :: x in PredictionsOf(s, device) && x.info == p
  {
    var stored := PredictionsOf(s, device);
    assert |infos| == |stored| && forall i :: 0 <= i < |stored| ==> infos[i] == stored[i].info;
    forall p | p in infos
      ensures exists x :: x in stored && x.info == p
    {
      var i :| 0 <= i < |infos| && infos[i] == p;
      assert stored[i] in stored && stored[i].info == p;
    }
    forall x | x in stored
      ensures x.info in infos
    {
      var i :| 0 <= i < |stored| && stored[i] == x;
      assert infos[i] == x.info;
    }
  }

  // ------------------------------------------------------------------ edges

  /** Its latest of these times, if there is any. */
  ghost predicate Latest(sessions: seq<(string, int)>, edges: map<string, int>, edge: string, at: int) {
    && (edge in edges ==> edges[edge] <= at)
    && (forall i :: 0 <= i < |sessions| && sessions[i].0 == edge ==> sessions[i].1 <= at)
    && ((edge in edges && edges[edge] == at) || exists i :: 0 <= i < |sessions| && sessions[i] == (edge, at))
  }

  ghost predicate Heard(sessions: seq<(string, int)>, edges: map<string, int>, edge: string) {
    edge in edges || exists i :: 0 <= i < |sessions| && sessions[i].0 == edge
  }

  lemma FirstLatest(sessions: seq<(string, int)>, edges: map<string, int>, more: map<string, int>, edge: string)
    requires sessions != []
    requires more == edges[sessions[0].0 := Later(edges, sessions[0].0, sessions[0].1)]
    ensures Heard(sessions, edges, edge) <==> Heard(sessions[1..], more, edge)
    ensures forall at :: Latest(sessions[1..], more, edge, at) ==> Latest(sessions, edges, edge, at)
  {
    assert sessions == [sessions[0]] + sessions[1..];
    if Heard(sessions, edges, edge) && edge !in more {
      var i :| 0 <= i < |sessions| && sessions[i].0 == edge;
      assert sessions[1..][i - 1].0 == edge;
    }
    if Heard(sessions[1..], more, edge) && edge !in more {
      var i :| 0 <= i < |sessions[1..]| && sessions[1..][i].0 == edge;
      assert sessions[i + 1].0 == edge;
    }
    if edge == sessions[0].0 {
      assert sessions[0].0 == edge;
    }
    forall at | Latest(sessions[1..], more, edge, at)
      ensures Latest(sessions, edges, edge, at)
    {
      forall i | 0 <= i < |sessions| && sessions[i].0 == edge
        ensures sessions[i].1 <= at
      {
        assert i > 0 ==> sessions[1..][i - 1] == sessions[i];
      }
      if edge in more && more[edge] == at {
        if !(edge in edges && edges[edge] == at) {
          assert sessions[0] == (edge, at);
        }
      } else {
        var i :| 0 <= i < |sessions[1..]| && sessions[1..][i] == (edge, at);
        assert sessions[i + 1] == (edge, at);
      }
    }
  }

  lemma {:induction false} SessionsTell(cfg: Config, s: State, sessions: seq<(string, int)>, edge: string)
    ensures var t := SeeSessions(s, cfg, sessions);
            && (edge in t.edges <==> Heard(sessions, s.edges, edge))
            && (edge in t.edges ==> Latest(sessions, s.edges, edge, t.edges[edge]))
    decreases |sessions|
  {
    if sessions != [] {
      var first, last := sessions[0].0, sessions[0].1;
      var recent := cfg.edgeOfflineAfterSecs > 0 && s.core.now - last <= 1000 * cfg.edgeOfflineAfterSecs;
      var u := if recent then MarkEdgeSeen(s, first, last)
        else s.(edges := s.edges[first := Later(s.edges, first, last)]);
      SessionsTell(cfg, u, sessions[1..], edge);
      FirstLatest(sessions, s.edges, u.edges, edge);
    }
  }

  /** The sessions that an event counts as signs of life, and when. */
  function SignsOf(s: State, e: Event): seq<(string, int)> {
    match e
    case StatusReport(edge, _, _, _) => [(edge, s.core.now)]
    case EdgeSeen(edge) => [(edge, s.core.now)]
    case EdgeDisconnected(edge) => if edge in s.edges then [] else [(edge, s.core.now)]
    case RunSweep(sessions, _, _) => sessions
    case _ => []
  }

  lemma OneSign(edges: map<string, int>, first: string, at: int, edge: string)
    ensures var more := edges[first := Later(edges, first, at)];
            && (edge in more <==> Heard([(first, at)], edges, edge))
            && (edge in more ==> Latest([(first, at)], edges, edge, more[edge]))
  {
    assert [(first, at)][0] == (first, at);
  }

  lemma NoSign(edges: map<string, int>, edge: string)
    ensures edge in edges <==> Heard([], edges, edge)
    ensures edge in edges ==> Latest([], edges, edge, edges[edge])
  {
  }

  /** What a sweep leaves of the edges, before it drops those not heard of within the retention. */
  lemma SweptEdges(cfg: Config, s: State, e: Event, t: State)
    requires e.RunSweep? && Sweeps(cfg, s, e) && t == Step(cfg, s, e)
    ensures var u := SeeSessions(s, cfg, e.sessions);
            && (forall x :: x in t.edges <==>
                  x in u.edges && s.core.now - u.edges[x] <= 3600000 * AtLeast(cfg.retentionHours, 1))
            && (forall x | x in t.edges :: t.edges[x] == u.edges[x])
  {
    var u := SeeSessions(s, cfg, e.sessions);
    SessionsHear(cfg, s, e.sessions, "");
    DevicesKnow(cfg, u, e.deviceOrder);
    AlertRuns.OfflineOpened(cfg, BeforeOffline(s, cfg, e.sessions, e.deviceOrder), e.edgeOrder);
  }

  /** An edge is known by its latest sign of life; a sweep drops those of which that is older than the retention. */
  lemma EdgeMoves(cfg: Config, s: State, e: Event, edge: string, t: State)
    requires t == Step(cfg, s, e) && (e.RunSweep? ==> Sweeps(cfg, s, e))
    ensures edge in t.edges ==> Latest(SignsOf(s, e), s.edges, edge, t.edges[edge])
    ensures edge in t.edges <==>
            && Heard(SignsOf(s, e), s.edges, edge)
            && (e.RunSweep? ==> exists at :: Latest(SignsOf(s, e), s.edges, edge, at)
                                            && s.core.now - at <= 3600000 * AtLeast(cfg.retentionHours, 1))
  {
    if e.RunSweep? {
      SessionsTell(cfg, s, e.sessions, edge);
      SweptEdges(cfg, s, e, t);
      LatestIsOne(e.sessions, s.edges, edge);
    } else if e.StatusReport? || e.EdgeSeen? {
      OneSign(s.edges, e.edge, s.core.now, edge);
    } else if e.EdgeDisconnected? && e.edge !in s.edges {
      OneSign(s.edges, e.edge, s.core.now, edge);
    } else {
      OthersKeepEdges(cfg, s, e, t);
      NoSign(s.edges, edge);
    }
  }

  lemma LatestIsOne(sessions: seq<(string, int)>, edges: map<string, int>, edge: string)
    ensures forall a, b :: Latest(sessions, edges, edge, a) && Latest(sessions, edges, edge, b) ==> a == b
  {
  }

  lemma OthersKeepEdges(cfg: Config, s: State, e: Event, t: State)
    requires t == Step(cfg, s, e) && !e.RunSweep? && !e.StatusReport? && !e.EdgeSeen?
    requires e.EdgeDisconnected? ==> e.edge in s.edges
    ensures t.edges == s.edges
  {
  }
}
