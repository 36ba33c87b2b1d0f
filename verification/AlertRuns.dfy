/** What the README promises of alerts, for whole runs of the alert manager (README.md:443-454). */
module AlertRuns {
  import opened Basics
  import opened Rules
  import opened AlertManager
  import opened AlertLaws

  // ------------------------------------------------------------------ single alerts

  /**
   Of every alert in every run: its fires are at least a cooldown apart; exactly those before its
   acknowledgement notify and act; a rule that suppresses repeats fires it once; and a rule with a
   window opens it only after a breach of that length without a quiet look.
   */
  lemma EveryAlert(cfg: Config, now: int, events: seq<Event>, i: nat)
    requires UniqueRules(cfg) && i < |Run(cfg, now, events).core.book|
    ensures var c := Run(cfg, now, events).core;
            && Orderly(c.book[i], c.now)
            && Spaced(cfg, c.book[i]) && Silenced(c.book[i]) && Once(cfg, c.book[i])
            && Sustained(cfg, c.book[i], c.quiet)
  {
    RunInv(cfg, now, events);
    var c := Run(cfg, now, events).core;
    assert Lawful(cfg, c.book[i], c.quiet);
  }

  /** One alert per rule, edge and device at a time: of two of the same key one is over before the other opens. */
  lemma OneAtATime(cfg: Config, now: int, events: seq<Event>, i: nat, j: nat)
    requires UniqueRules(cfg) && i < j < |Run(cfg, now, events).core.book|
    requires var b := Run(cfg, now, events).core.book; b[i].key == b[j].key
    ensures var b := Run(cfg, now, events).core.book;
            b[i].ended.Some? && b[j].fires != [] && b[i].ended.value.at <= b[j].fires[0].at
  {
    RunInv(cfg, now, events);
    var c := Run(cfg, now, events).core;
    assert Apart(c.book[i], c.book[j]) && Orderly(c.book[j], c.now);
  }

  // ------------------------------------------------------------------ edges keep to themselves

  /** Nothing of the alerts of other edges has changed. */
  ghost predicate OnlyEdge(c: Core, d: Core, edge: string) {
    && |c.book| <= |d.book|
    && (forall k: Key | k.edge != edge :: (k in c.active <==> k in d.active)
                                          && (k in c.active ==> d.active[k] == c.active[k]))
    && (forall i :: 0 <= i < |c.book| && c.book[i].key.edge != edge ==> d.book[i] == c.book[i])
    && (forall i :: 0 <= i < |c.book| ==> d.book[i].key == c.book[i].key)
  }

  lemma OnlyEdgeChains(c: Core, d: Core, e: Core, edge: string)
    requires OnlyEdge(c, d, edge) && OnlyEdge(d, e, edge)
    ensures OnlyEdge(c, e, edge)
  {
    assert forall i :: 0 <= i < |c.book| ==> d.book[i].key == c.book[i].key && e.book[i].key == d.book[i].key;
  }

  /** Active alerts are filed under their own key. */
  ghost predicate Filed(c: Core) {
    forall k | k in c.active :: c.active[k].id < |c.book| && c.book[c.active[k].id].key == k
  }

  lemma EndOnlyEdge(c: Core, doomed: set<Key>, manual: bool, edge: string)
    requires Filed(c) && forall k | k in doomed :: k.edge == edge
    ensures OnlyEdge(c, End(c, doomed, manual), edge) && Filed(End(c, doomed, manual))
  {
  }

  lemma RefireOnlyEdge(c: Core, key: Key)
    requires Filed(c) && key in c.active
    ensures OnlyEdge(c, Refire(c, key), key.edge) && Filed(Refire(c, key))
  {
  }

  lemma OpenOnlyEdge(c: Core, key: Key, since: int)
    requires Filed(c)
    ensures OnlyEdge(c, Open(c, key, since), key.edge) && Filed(Open(c, key, since))
  {
  }

  lemma FireNowOnlyEdge(cfg: Config, c: Core, r: ManagedRule, key: Key, since: int)
    requires Filed(c)
    ensures OnlyEdge(c, FireNow(c, cfg, r, key, since), key.edge) && Filed(FireNow(c, cfg, r, key, since))
  {
    if key in c.active {
      RefireOnlyEdge(c, key);
    } else {
      OpenOnlyEdge(c.(hold := c.hold - {key}), key, since);
    }
  }

  lemma FireOnlyEdge(cfg: Config, c: Core, r: ManagedRule, key: Key)
    requires Filed(c)
    ensures OnlyEdge(c, FireRule(c, cfg, r, key), key.edge) && Filed(FireRule(c, cfg, r, key))
  {
    if Window(r).None? {
      FireNowOnlyEdge(cfg, c, r, key, c.now);
    } else {
      FireNowOnlyEdge(cfg, Breach(c, key), r, key, Breach(c, key).breach[key]);
    }
  }

  lemma EvaluateOnlyEdge(cfg: Config, c: Core, r: ManagedRule, ctx: Context, sweep: bool)
    requires Filed(c)
    ensures OnlyEdge(c, EvaluateRule(c, cfg, r, ctx, sweep), ctx.edgeId) && Filed(EvaluateRule(c, cfg, r, ctx, sweep))
  {
    var key := Key(r.rule.id, ctx.edgeId, ctx.deviceId);
    EndOnlyEdge(Quiet(c, key), {key}, false, ctx.edgeId);
    FireOnlyEdge(cfg, c, r, key);
  }

  lemma {:induction false} RulesOnlyEdge(cfg: Config, c: Core, ctx: Context, sweep: bool, n: nat)
    requires Filed(c) && n <= |cfg.rules|
    ensures var d := EvaluateRules(c, cfg, ctx, sweep, n); OnlyEdge(c, d, ctx.edgeId) && Filed(d)
  {
    if n > 0 {
      RulesOnlyEdge(cfg, c, ctx, sweep, n - 1);
      OneMoreRule(cfg, c, EvaluateRules(c, cfg, ctx, sweep, n - 1), cfg.rules[n - 1], ctx, sweep);
    }
  }

  lemma OneMoreRule(cfg: Config, c: Core, d: Core, r: ManagedRule, ctx: Context, sweep: bool)
    requires OnlyEdge(c, d, ctx.edgeId) && Filed(d)
    ensures var e := EvaluateRule(d, cfg, r, ctx, sweep); OnlyEdge(c, e, ctx.edgeId) && Filed(e)
  {
    var e := EvaluateRule(d, cfg, r, ctx, sweep);
    EvaluateOnlyEdge(cfg, d, r, ctx, sweep);
    OnlyEdgeChains(c, d, e, ctx.edgeId);
  }

  lemma ReportOnlyEdge(cfg: Config, c: Core, key: Key)
    requires Filed(c)
    ensures OnlyEdge(c, Report(c, cfg, key), key.edge)
  {
  }

  lemma StatusOnlyEdge(cfg: Config, s: State, edge: string, device: string, status: HealthStatus,
                       metrics: map<string, MetricValue>)
    requires Filed(s.core)
    ensures OnlyEdge(s.core, OnStatus(s, cfg, edge, device, status, metrics).core, edge)
  {
    var seen := MarkEdgeSeen(s, edge, s.core.now).core;
    EndOnlyEdge(s.core, {Key(EDGE_OFFLINE, edge, "")}, false, edge);
    var ctx := ReportContext(s, edge, device, status, metrics);
    RulesOnlyEdge(cfg, seen, ctx, false, |cfg.rules|);
    var e := EvaluateRules(seen, cfg, ctx, false, |cfg.rules|);
    OnlyEdgeChains(s.core, seen, e, edge);
    EndOnlyEdge(e, ActiveWhere(e, edge, device, EDGE_PREFIX), false, edge);
    OnlyEdgeChains(s.core, e, End(e, ActiveWhere(e, edge, device, EDGE_PREFIX), false), edge);
  }

  /** What one edge reports never touches the alerts of another, not even for the same device id. */
  lemma EdgesKeepToThemselves(cfg: Config, s: State, e: Event)
    requires Filed(s.core)
    requires || e.StatusReport? || e.EdgeAlert? || e.PredictionReport?
             || e.EdgeSeen? || e.EdgeDisconnected? || e.DeviceRemoved?
    ensures OnlyEdge(s.core, Step(cfg, s, e).core, e.edge)
  {
    match e
    case StatusReport(edge, device, status, metrics) => StatusOnlyEdge(cfg, s, edge, device, status, metrics);
    case EdgeAlert(edge, device, metric) =>
      ReportOnlyEdge(cfg, s.core,
                     Key(EDGE_PREFIX + if metric.Some? then metric.value else "device-alert", edge, device));
    case PredictionReport(edge, device, info) =>
      ReportOnlyEdge(cfg, s.core, Key(PREDICTION_PREFIX + info.predictionType, edge, device));
    case EdgeSeen(edge) => EndOnlyEdge(s.core, {Key(EDGE_OFFLINE, edge, "")}, false, edge);
    case EdgeDisconnected(edge) =>
    case DeviceRemoved(edge, device) =>
      var f := if device in s.devices && s.devices[device].edge != edge then s else ForgetAll(s, cfg, {device});
      EndOnlyEdge(f.core, ActiveWhere(f.core, edge, device, ""), false, edge);
  }

  lemma AlwaysFiled(cfg: Config, now: int, events: seq<Event>)
    requires UniqueRules(cfg)
    ensures Filed(Run(cfg, now, events).core)
  {
    RunInv(cfg, now, events);
    var c := Run(cfg, now, events).core;
    assert forall k | k in c.active :: BookedAs(c, k);
  }

  // ------------------------------------------------------------------ what a device report settles

  /** Nothing outside that key has changed. */
  ghost predicate OnlyKey(c: Core, d: Core, key: Key) {
    && d.now == c.now
    && (forall k: Key | k != key :: (k in c.active <==> k in d.active) && (k in c.hold <==> k in d.hold)
                                    && (k in c.breach <==> k in d.breach))
    && (forall k: Key | k != key && k in c.active :: d.active[k] == c.active[k])
    && (forall k: Key | k != key && k in c.hold :: d.hold[k] == c.hold[k])
    && (forall k: Key | k != key && k in c.breach :: d.breach[k] == c.breach[k])
  }

  lemma RefireOnlyKey(c: Core, key: Key)
    requires key in c.active
    ensures OnlyKey(c, Touch(c, key), key) && OnlyKey(c, Refire(c, key), key)
  {
  }

  lemma OpenOnlyKey(c: Core, key: Key, since: int)
    ensures var h := c.(hold := c.hold - {key}); OnlyKey(c, h, key) && OnlyKey(c, Open(h, key, since), key)
  {
  }

  lemma FireNowOnlyKey(cfg: Config, c: Core, r: ManagedRule, key: Key, since: int)
    ensures OnlyKey(c, FireNow(c, cfg, r, key, since), key)
  {
    if key in c.active {
      RefireOnlyKey(c, key);
    } else {
      OpenOnlyKey(c, key, since);
    }
  }

  lemma FireOnlyKey(cfg: Config, c: Core, r: ManagedRule, key: Key)
    ensures OnlyKey(c, FireRule(c, cfg, r, key), key)
  {
    if Window(r).None? {
      FireNowOnlyKey(cfg, c, r, key, c.now);
    } else {
      FireNowOnlyKey(cfg, Breach(c, key), r, key, Breach(c, key).breach[key]);
    }
  }

  lemma EvaluateOnlyKey(cfg: Config, c: Core, r: ManagedRule, ctx: Context, sweep: bool)
    ensures OnlyKey(c, EvaluateRule(c, cfg, r, ctx, sweep), Key(r.rule.id, ctx.edgeId, ctx.deviceId))
  {
    FireOnlyKey(cfg, c, r, Key(r.rule.id, ctx.edgeId, ctx.deviceId));
  }

  lemma RuleKeepsNow(cfg: Config, c: Core, r: ManagedRule, ctx: Context, sweep: bool, d: Core)
    requires d == EvaluateRule(c, cfg, r, ctx, sweep)
    ensures d.now == c.now
  {
    EvaluateOnlyKey(cfg, c, r, ctx, sweep);
  }

  lemma {:induction false} RulesKeepNow(cfg: Config, c: Core, ctx: Context, sweep: bool, n: nat)
    requires n <= |cfg.rules|
    ensures EvaluateRules(c, cfg, ctx, sweep, n).now == c.now
  {
    if n > 0 {
      RulesKeepNow(cfg, c, ctx, sweep, n - 1);
      RuleKeepsNow(cfg, EvaluateRules(c, cfg, ctx, sweep, n - 1), cfg.rules[n - 1], ctx, sweep,
                   EvaluateRules(c, cfg, ctx, sweep, n));
    }
  }

  /** The alert is there, and has fired as lately as its cooldown demands. */
  ghost predicate UpToDate(cfg: Config, c: Core, key: Key, suppressRepeat: bool) {
    && key in c.active && c.active[key].lastReported == c.now
    && (suppressRepeat || c.now - c.active[key].lastFired < Cooldown(cfg, key.rule) || c.active[key].lastFired == c.now)
  }

  /** Why a rule that fires may be without one: its window, a hold, or its cap. */
  ghost predicate Excused(cfg: Config, c: Core, r: ManagedRule, key: Key) {
    || (Window(r).Some? && key in c.breach && c.now - c.breach[key] < Window(r).value)
    || (key !in c.active && (HoldIsOn(c, cfg, key) || FiringCount(c, r.rule.id) >= Cap(cfg, r)))
  }

  /** The alert of a rule is in line with what the rule says. */
  ghost predicate Settled(cfg: Config, c: Core, r: ManagedRule, ctx: Context) {
    var key := Key(r.rule.id, ctx.edgeId, ctx.deviceId);
    && (RuleIsCleared(r.rule, ctx, c.now) ==> key !in c.active)
    && (RuleEvaluate(r.rule, ctx, c.now) ==> UpToDate(cfg, c, key, r.suppressRepeat) || Excused(cfg, c, r, key))
  }

  lemma FireNowSettles(cfg: Config, c: Core, r: ManagedRule, key: Key, since: int)
    requires key.rule == r.rule.id
    ensures var d := FireNow(c, cfg, r, key, since);
            UpToDate(cfg, d, key, r.suppressRepeat)
            || (key !in d.active && (HoldIsOn(d, cfg, key) || FiringCount(d, r.rule.id) >= Cap(cfg, r)))
  {
  }

  lemma EvaluateSettles(cfg: Config, c: Core, r: ManagedRule, ctx: Context)
    ensures Settled(cfg, EvaluateRule(c, cfg, r, ctx, false), r, ctx)
  {
    var key := Key(r.rule.id, ctx.edgeId, ctx.deviceId);
    var d := EvaluateRule(c, cfg, r, ctx, false);
    RuleNeverBoth(r.rule, ctx, c.now);
    EvaluateOnlyKey(cfg, c, r, ctx, false);
    if !RuleIsCleared(r.rule, ctx, c.now) && RuleEvaluate(r.rule, ctx, c.now) {
      if Window(r).None? {
        FireNowSettles(cfg, c, r, key, c.now);
      } else if c.now - Breach(c, key).breach[key] >= Window(r).value {
        FireNowSettles(cfg, Breach(c, key), r, key, Breach(c, key).breach[key]);
      }
    }
  }

  lemma StaysSettled(cfg: Config, c: Core, d: Core, r: ManagedRule, other: Key, ctx: Context)
    requires Settled(cfg, c, r, ctx) && OnlyKey(c, d, other) && other.rule != r.rule.id
    ensures Settled(cfg, d, r, ctx)
  {
    assert Firing(d, r.rule.id) == Firing(c, r.rule.id);
  }

  lemma {:induction false} RulesSettle(cfg: Config, c: Core, ctx: Context, n: nat, i: nat)
    requires UniqueRules(cfg) && i < n <= |cfg.rules|
    ensures Settled(cfg, EvaluateRules(c, cfg, ctx, false, n), cfg.rules[i], ctx)
  {
    var d := EvaluateRules(c, cfg, ctx, false, n - 1);
    if i == n - 1 {
      EvaluateSettles(cfg, d, cfg.rules[i], ctx);
    } else {
      var last := cfg.rules[n - 1];
      RulesSettle(cfg, c, ctx, n - 1, i);
      OtherRuleSettles(cfg, d, cfg.rules[i], last, ctx, EvaluateRules(c, cfg, ctx, false, n));
    }
  }

  lemma OtherRuleSettles(cfg: Config, d: Core, r: ManagedRule, other: ManagedRule, ctx: Context, e: Core)
    requires Settled(cfg, d, r, ctx) && other.rule.id != r.rule.id && e == EvaluateRule(d, cfg, other, ctx, false)
    ensures Settled(cfg, e, r, ctx)
  {
    EvaluateOnlyKey(cfg, d, other, ctx, false);
    StaysSettled(cfg, d, e, r, Key(other.rule.id, ctx.edgeId, ctx.deviceId), ctx);
  }

  /**
   After a device report every configured rule is settled: where it is cleared there is no alert;
   where it fires there is one, re-fired if its cooldown is over, unless its window, a hold or its
   cap stands against it. And a healthy device has no edge alerts left.
   */
  lemma ReportSettles(cfg: Config, s: State, edge: string, device: string, status: HealthStatus,
                      metrics: map<string, MetricValue>, i: nat)
    requires UniqueRules(cfg) && i < |cfg.rules| && !(EDGE_PREFIX <= cfg.rules[i].rule.id)
    ensures var t := Step(cfg, s, StatusReport(edge, device, status, metrics));
            && Settled(cfg, t.core, cfg.rules[i], ReportContext(s, edge, device, status, metrics))
            && (status.Healthy? ==> ActiveWhere(t.core, edge, device, EDGE_PREFIX) == {})
  {
    var seen := MarkEdgeSeen(s, edge, s.core.now).core;
    var ctx := ReportContext(s, edge, device, status, metrics);
    RulesSettle(cfg, seen, ctx, |cfg.rules|, i);
    RulesKeepNow(cfg, seen, ctx, false, |cfg.rules|);
    var c := EvaluateRules(seen, cfg, ctx, false, |cfg.rules|);
    EndEdgeAlertsSettled(cfg, c, cfg.rules[i], ctx, edge, device);
  }

  lemma EndEdgeAlertsSettled(cfg: Config, c: Core, r: ManagedRule, ctx: Context, edge: string, device: string)
    requires Settled(cfg, c, r, ctx) && !(EDGE_PREFIX <= r.rule.id)
    ensures Settled(cfg, End(c, ActiveWhere(c, edge, device, EDGE_PREFIX), false), r, ctx)
  {
    assert Firing(End(c, ActiveWhere(c, edge, device, EDGE_PREFIX), false), r.rule.id) == Firing(c, r.rule.id);
  }

  // ------------------------------------------------------------------ what a sweep settles

  lemma {:induction false} OfflineOpened(cfg: Config, s: State, order: seq<string>)
    ensures var t := OpenOffline(s, cfg, order);
            && t.edges == s.edges && t.latched == s.latched && t.devices == s.devices && t.core.now == s.core.now
            && (forall k | k in s.core.active :: k in t.core.active && t.core.active[k] == s.core.active[k])
            && (forall k | k in t.core.active :: k in s.core.active ||
                  (k.rule == EDGE_OFFLINE && k.device == "" && IsSilent(s, cfg, k.edge) && k.edge !in s.latched))
            && (forall e | e in order :: IsSilent(s, cfg, e) && e !in s.latched ==>
                  Key(EDGE_OFFLINE, e, "") in t.core.active)
    decreases |order|
  {
    if order != [] {
      var key := Key(EDGE_OFFLINE, order[0], "");
      var u := if IsSilent(s, cfg, order[0]) && order[0] !in s.latched && key !in s.core.active
        then s.(core := Open(s.core, key, s.core.now)) else s;
      OfflineOpened(cfg, u, order[1..]);
      forall e | e in order && IsSilent(s, cfg, e) && e !in s.latched
        ensures Key(EDGE_OFFLINE, e, "") in OpenOffline(s, cfg, order).core.active
      {
        assert e == order[0] || e in order[1..];
        assert IsSilent(u, cfg, e);
      }
      assert forall e :: IsSilent(u, cfg, e) <==> IsSilent(s, cfg, e);
    }
  }

  /**
   After a sweep an edge has an offline alert if it had one or is silent, unless its last one was
   resolved by hand; and no edge alert or prediction alert is left that was not reported in time.
   */
  lemma SweepSettles(cfg: Config, s: State, sessions: seq<(string, int)>, deviceOrder: seq<string>,
                     edgeOrder: seq<string>)
    requires var b := BeforeOffline(s, cfg, sessions, deviceOrder); IsOrderOf(edgeOrder, b.edges.Keys)
    ensures var b := BeforeOffline(s, cfg, sessions, deviceOrder);
            var c := OnSweep(s, cfg, sessions, deviceOrder, edgeOrder).core;
            && (forall e: string :: var key := Key(EDGE_OFFLINE, e, "");
                  key in c.active <==> key in b.core.active || (IsSilent(b, cfg, e) && e !in b.latched))
            && Expired(c, cfg) == {}
  {
    var b := BeforeOffline(s, cfg, sessions, deviceOrder);
    var o := OpenOffline(b, cfg, edgeOrder);
    OfflineOpened(cfg, b, edgeOrder);
    var c := OnSweep(s, cfg, sessions, deviceOrder, edgeOrder).core;
    assert c.active == o.core.active && c.now == o.core.now;
    assert EDGE_PREFIX[0] != EDGE_OFFLINE[0] && PREDICTION_PREFIX[0] != EDGE_OFFLINE[0];
    forall k | k in Expired(c, cfg)
      ensures k in Expired(b.core, cfg)
    {
      assert k.rule != EDGE_OFFLINE;
    }
    NothingExpired(ExpirePredictions(SweepDevices(SeeSessions(s, cfg, sessions), cfg, deviceOrder), cfg).core, cfg);
    forall e: string
      ensures Key(EDGE_OFFLINE, e, "") in c.active <==>
              Key(EDGE_OFFLINE, e, "") in b.core.active || (IsSilent(b, cfg, e) && e !in b.latched)
    {
      assert IsSilent(b, cfg, e) ==> e in b.edges && e in edgeOrder;
    }
  }

  lemma NothingExpired(c: Core, cfg: Config)
    ensures Expired(End(c, Expired(c, cfg), false), cfg) == {}
  {
  }
}
