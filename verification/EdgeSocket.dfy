/**
 What of an edge's messages the hub's socket lets through to the alert manager
 (crates/nimon-hub/src/server/ws.rs:225-330, 445-452 and 541-599), and what follows for its alerts.
 */
module EdgeSocket {
  import opened Basics
  import opened Rules
  import opened AlertManager
  import opened DeviceIdentity

  // ------------------------------------------------------------------ owners

  /** A device of the edge goes by the edge's name, a colon and a name of its own; or it is the edge itself. */
  predicate Owns(edge: string, device: string) {
    device == edge || (Begins(edge, device) && |device| > |edge| + 1)
  }

  /** The ids that edges give to their devices are theirs. */
  lemma OwnsIff(edge: string, device: string)
    ensures Owns(edge, device) <==> device == edge || exists key :: key != "" && device == DeviceId(edge, key)
  {
    if Begins(edge, device) && |device| > |edge| + 1 {
      assert device == DeviceId(edge, device[|edge| + 1..]);
    }
  }

  lemma ShorterBegins(e: string, f: string, d: string)
    requires |e| < |f| && Begins(e, d) && f <= d
    ensures Begins(e, f)
  {
    assert d[..|f|][..|e| + 1] == d[..|e| + 1] == e + [':'];
  }

  lemma OwnersBegin(e: string, f: string, d: string)
    requires Owns(e, d) && Owns(f, d)
    ensures e == f || Begins(e, f) || Begins(f, e)
  {
    if |e| < |f| {
      ShorterBegins(e, f, d);
    } else if |f| < |e| {
      ShorterBegins(f, e, d);
    } else {
      assert d[..|e|] == e && d[..|f|] == f;
    }
  }

  /** Two edges own a device in common exactly when they are the same, or one begins the other. */
  lemma SharedIff(e: string, f: string)
    ensures (exists d :: Owns(e, d) && Owns(f, d)) <==> e == f || Begins(e, f) || Begins(f, e)
  {
    var key := "k";
    if e == f {
      assert Owns(e, e);
    } else if Begins(e, f) {
      assert Owns(e, DeviceId(f, key)) && Owns(f, DeviceId(f, key));
    } else if Begins(f, e) {
      assert Owns(e, DeviceId(e, key)) && Owns(f, DeviceId(e, key));
    }
    forall d | Owns(e, d) && Owns(f, d)
      ensures e == f || Begins(e, f) || Begins(f, e)
    {
      OwnersBegin(e, f, d);
    }
  }

  /** So edges without colons have nothing in common. */
  lemma PlainEdgesShareNothing(e: string, f: string, d: string)
    requires ':' !in e && ':' !in f && Owns(e, d) && Owns(f, d)
    ensures e == f
  {
    NoColonBeginsNothing(e, f);
    NoColonBeginsNothing(f, e);
    OwnersBegin(e, f, d);
  }

  // ------------------------------------------------------------------ what is let through

  /** The name of an edge is not blank. */
  predicate Registers(edge: string) { exists c | c in edge :: !IsSpace(c) }

  /** Payloads carry the name under which their connection has registered, and devices that it owns. */
  predicate Admits(e: Event) {
    match e
    case StatusReport(edge, device, _, _) => Registers(edge) && Owns(edge, device)
    case EdgeAlert(edge, device, _) => Registers(edge) && Owns(edge, device)
    case PredictionReport(edge, device, _) => Registers(edge) && Owns(edge, device)
    case DeviceRemoved(edge, device) => Registers(edge) && Owns(edge, device)
    case EdgeSeen(edge) => Registers(edge)
    case EdgeDisconnected(edge) => Registers(edge)
    case RunSweep(sessions, _, _) => forall session | session in sessions :: Registers(session.0)
    case _ => true
  }

  /** The runs of the manager behind the socket. */
  ghost predicate AllAdmitted(events: seq<Event>) { forall i :: 0 <= i < |events| ==> Admits(events[i]) }

  /** So no device goes by the empty name, under which the offline alerts of edges are kept. */
  lemma DevicesAreNamed(edge: string, device: string)
    requires Registers(edge) && Owns(edge, device)
    ensures device != ""
  {
  }

  // ------------------------------------------------------------------ whose alerts there are

  /** An alert is about a device that its edge owns, or is the offline alert of the edge. */
  predicate Accounted(key: Key) { Owns(key.edge, key.device) || (key.rule == EDGE_OFFLINE && key.device == "") }

  ghost predicate OwnAlerts(c: Core) { forall i :: 0 <= i < |c.book| ==> Accounted(c.book[i].key) }

  ghost predicate OwnDevices(devices: map<string, Known>) {
    forall d | d in devices :: Registers(devices[d].edge) && Owns(devices[d].edge, d)
  }

  lemma OpenOwn(c: Core, key: Key, since: int)
    requires OwnAlerts(c) && Accounted(key)
    ensures OwnAlerts(Open(c, key, since))
  {
  }

  lemma EndOwn(c: Core, doomed: set<Key>, manual: bool)
    requires OwnAlerts(c)
    ensures OwnAlerts(End(c, doomed, manual))
  {
    assert forall i :: 0 <= i < |c.book| ==> End(c, doomed, manual).book[i].key == c.book[i].key;
  }

  lemma AgainOwn(c: Core, key: Key)
    requires OwnAlerts(c) && key in c.active
    ensures OwnAlerts(Refire(c, key)) && OwnAlerts(Acknowledge(c, key))
  {
  }

  lemma FireNowOwn(cfg: Config, c: Core, r: ManagedRule, key: Key, since: int)
    requires OwnAlerts(c) && Accounted(key)
    ensures OwnAlerts(FireNow(c, cfg, r, key, since))
  {
    if key in c.active {
      AgainOwn(c, key);
    } else {
      OpenOwn(c.(hold := c.hold - {key}), key, since);
    }
  }

  lemma ReportOwn(cfg: Config, c: Core, key: Key)
    requires OwnAlerts(c) && Accounted(key)
    ensures OwnAlerts(Report(c, cfg, key))
  {
    if key in c.active {
      AgainOwn(c, key);
    } else {
      OpenOwn(c.(hold := c.hold - {key}), key, c.now);
    }
  }

  lemma EvaluateOwn(cfg: Config, c: Core, r: ManagedRule, ctx: Context, sweep: bool, d: Core)
    requires OwnAlerts(c) && Owns(ctx.edgeId, ctx.deviceId) && d == EvaluateRule(c, cfg, r, ctx, sweep)
    ensures OwnAlerts(d)
  {
    var key := Key(r.rule.id, ctx.edgeId, ctx.deviceId);
    EndOwn(Quiet(c, key), {key}, false);
    if Window(r).None? {
      FireNowOwn(cfg, c, r, key, c.now);
    } else {
      FireNowOwn(cfg, Breach(c, key), r, key, Breach(c, key).breach[key]);
    }
  }

  lemma OneMoreRuleOwn(cfg: Config, c: Core, ctx: Context, sweep: bool, n: nat)
    requires 0 < n <= |cfg.rules| && Owns(ctx.edgeId, ctx.deviceId)
    requires OwnAlerts(EvaluateRules(c, cfg, ctx, sweep, n - 1))
    ensures OwnAlerts(EvaluateRules(c, cfg, ctx, sweep, n))
  {
    EvaluateOwn(cfg, EvaluateRules(c, cfg, ctx, sweep, n - 1), cfg.rules[n - 1], ctx, sweep,
                EvaluateRules(c, cfg, ctx, sweep, n));
  }

  lemma {:induction false} RulesOwn(cfg: Config, c: Core, ctx: Context, sweep: bool, n: nat)
    requires OwnAlerts(c) && Owns(ctx.edgeId, ctx.deviceId) && n <= |cfg.rules|
    ensures OwnAlerts(EvaluateRules(c, cfg, ctx, sweep, n))
  {
    if n > 0 {
      RulesOwn(cfg, c, ctx, sweep, n - 1);
      OneMoreRuleOwn(cfg, c, ctx, sweep, n);
    }
  }

  /** Alerts and devices of the manager belong to the edges that reported them. */
  ghost predicate Own(s: State) { OwnAlerts(s.core) && OwnDevices(s.devices) }

  lemma SeenOwn(s: State, edge: string, at: int)
    requires Own(s)
    ensures Own(MarkEdgeSeen(s, edge, at))
  {
    EndOwn(s.core, {Key(EDGE_OFFLINE, edge, "")}, false);
  }

  lemma StatusOwn(cfg: Config, s: State, edge: string, device: string, status: HealthStatus,
                  metrics: map<string, MetricValue>)
    requires Own(s) && Registers(edge) && Owns(edge, device)
    ensures Own(OnStatus(s, cfg, edge, device, status, metrics))
  {
    var seen := MarkEdgeSeen(s, edge, s.core.now).core;
    var ctx := ReportContext(s, edge, device, status, metrics);
    SeenOwn(s, edge, s.core.now);
    RulesOwn(cfg, seen, ctx, false, |cfg.rules|);
    var c := EvaluateRules(seen, cfg, ctx, false, |cfg.rules|);
    EndOwn(c, ActiveWhere(c, edge, device, EDGE_PREFIX), false);
  }

  lemma {:induction false} SessionsOwn(cfg: Config, s: State, sessions: seq<(string, int)>)
    requires Own(s)
    ensures Own(SeeSessions(s, cfg, sessions))
    decreases |sessions|
  {
    if sessions != [] {
      var edge, last := sessions[0].0, sessions[0].1;
      var recent := cfg.edgeOfflineAfterSecs > 0 && s.core.now - last <= 1000 * cfg.edgeOfflineAfterSecs;
      SeenOwn(s, edge, last);
      SessionsOwn(cfg, if recent then MarkEdgeSeen(s, edge, last)
                       else s.(edges := s.edges[edge := Later(s.edges, edge, last)]), sessions[1..]);
    }
  }

  lemma {:induction false} DevicesOwn(cfg: Config, s: State, order: seq<string>)
    requires Own(s)
    ensures Own(SweepDevices(s, cfg, order))
    decreases |order|
  {
    if order != [] {
      if order[0] in s.devices {
        var ctx := ContextOf(s, order[0]);
        RulesOwn(cfg, s.core, ctx, true, |cfg.rules|);
        DevicesOwn(cfg, s.(core := EvaluateRules(s.core, cfg, ctx, true, |cfg.rules|)), order[1..]);
      } else {
        DevicesOwn(cfg, s, order[1..]);
      }
    }
  }

  lemma {:induction false} OfflineOwn(cfg: Config, s: State, order: seq<string>)
    requires Own(s)
    ensures Own(OpenOffline(s, cfg, order))
    decreases |order|
  {
    if order != [] {
      var key := Key(EDGE_OFFLINE, order[0], "");
      OpenOwn(s.core, key, s.core.now);
      OfflineOwn(cfg, if IsSilent(s, cfg, order[0]) && order[0] !in s.latched && key !in s.core.active
                      then s.(core := Open(s.core, key, s.core.now)) else s, order[1..]);
    }
  }

  lemma BeforeOfflineOwn(cfg: Config, s: State, sessions: seq<(string, int)>, deviceOrder: seq<string>)
    requires Own(s)
    ensures Own(BeforeOffline(s, cfg, sessions, deviceOrder))
  {
    SessionsOwn(cfg, s, sessions);
    DevicesOwn(cfg, SeeSessions(s, cfg, sessions), deviceOrder);
    var e := ExpirePredictions(SweepDevices(SeeSessions(s, cfg, sessions), cfg, deviceOrder), cfg);
    EndOwn(e.core, Expired(e.core, cfg), false);
  }

  lemma ForgottenOwn(cfg: Config, s: State, gone: set<string>)
    requires Own(s)
    ensures Own(ForgetAll(s, cfg, gone)) && Own(Prune(s, cfg))
  {
  }

  lemma SweepOwn(cfg: Config, s: State, sessions: seq<(string, int)>, deviceOrder: seq<string>,
                 edgeOrder: seq<string>)
    requires Own(s)
    ensures Own(OnSweep(s, cfg, sessions, deviceOrder, edgeOrder))
  {
    var b := BeforeOffline(s, cfg, sessions, deviceOrder);
    var o := OpenOffline(b, cfg, edgeOrder);
    BeforeOfflineOwn(cfg, s, sessions, deviceOrder);
    OfflineOwn(cfg, b, edgeOrder);
    ForgottenOwn(cfg, o, Stale(o, cfg));
    ForgottenOwn(cfg, ForgetAll(o, cfg, Stale(o, cfg)), {});
  }

  lemma RemovedOwn(cfg: Config, s: State, edge: string, device: string)
    requires Own(s)
    ensures Own(OnRemoved(s, cfg, edge, device))
  {
    var f := if device in s.devices && s.devices[device].edge != edge then s else ForgetAll(s, cfg, {device});
    ForgottenOwn(cfg, s, {device});
    EndOwn(f.core, ActiveWhere(f.core, edge, device, ""), false);
  }

  lemma AcknowledgedOwn(cfg: Config, s: State, id: nat, t: State)
    requires Own(s) && t == Step(cfg, s, AcknowledgeAlert(id))
    ensures Own(t)
  {
    if IsActiveId(s.core, id) {
      AgainOwn(s.core, s.core.book[id].key);
    }
  }

  lemma ResolvedOwn(cfg: Config, s: State, id: nat, t: State)
    requires Own(s) && t == Step(cfg, s, ResolveAlert(id))
    ensures Own(t)
  {
    if IsActiveId(s.core, id) {
      var key := s.core.book[id].key;
      EndOwn(s.core, {key}, true);
      EndOwn(s.core.(hold := s.core.hold[key := s.core.now]), {key}, true);
    }
  }

  lemma ReportsOwn(cfg: Config, s: State, e: Event, t: State)
    requires Own(s) && Admits(e) && (e.EdgeAlert? || e.PredictionReport?) && t == Step(cfg, s, e)
    ensures Own(t)
  {
    if e.EdgeAlert? {
      ReportOwn(cfg, s.core,
                Key(EDGE_PREFIX + if e.metric.Some? then e.metric.value else "device-alert", e.edge, e.device));
    } else {
      ReportOwn(cfg, s.core, Key(PREDICTION_PREFIX + e.info.predictionType, e.edge, e.device));
    }
  }

  lemma StepOwn(cfg: Config, s: State, e: Event, t: State)
    requires Own(s) && Admits(e) && t == Step(cfg, s, e)
    ensures Own(t)
  {
    match e
    case StatusReport(edge, device, status, metrics) => StatusOwn(cfg, s, edge, device, status, metrics);
    case EdgeSeen(edge) => SeenOwn(s, edge, s.core.now);
    case DeviceRemoved(edge, device) => RemovedOwn(cfg, s, edge, device);
    case RunSweep(sessions, deviceOrder, edgeOrder) => SweepOwn(cfg, s, sessions, deviceOrder, edgeOrder);
    case AcknowledgeAlert(id) => AcknowledgedOwn(cfg, s, id, t);
    case ResolveAlert(id) => ResolvedOwn(cfg, s, id, t);
    case EdgeAlert(_, _, _) => ReportsOwn(cfg, s, e, t);
    case PredictionReport(_, _, _) => ReportsOwn(cfg, s, e, t);
    case _ =>
  }

  /** In every run behind the socket each alert is about a device that its edge owns, or about the edge itself. */
  lemma {:induction false} EveryAlertIsOwned(cfg: Config, now: int, events: seq<Event>)
    requires AllAdmitted(events)
    ensures Own(Run(cfg, now, events))
  {
    if events != [] {
      var init, e := events[..|events| - 1], events[|events| - 1];
      EveryAlertIsOwned(cfg, now, init);
      StepOwn(cfg, Run(cfg, now, init), e, Run(cfg, now, events));
    }
  }
}
