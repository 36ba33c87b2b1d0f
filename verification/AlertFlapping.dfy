/**
 Hysteresis at work in the manager (README.md:447-449): in a whole run, with sweeps, other devices,
 other edges and acknowledgements in between, the alerts of one threshold rule on one device are no
 more than its latch opens, and so are bounded by the movement of the metric.
 */
module AlertFlapping {
  import opened Basics
  import opened Rules
  import opened AlertManager
  import opened AlertLaws
  import AlertLatch
  import AlertRuns

  // ------------------------------------------------------------------ the alerts of one key

  /** All alerts there have been of that key. */
  function Ids(c: Core, key: Key): set<nat> { set i | 0 <= i < |c.book| && c.book[i].key == key }

  /** As far as the key is concerned nothing has happened. */
  ghost predicate Untouched(c: Core, d: Core, key: Key) {
    && (key in d.active <==> key in c.active) && Ids(d, key) == Ids(c, key) && d.now == c.now
  }

  lemma EndElsewhere(c: Core, doomed: set<Key>, manual: bool, key: Key)
    requires key !in doomed
    ensures Untouched(c, End(c, doomed, manual), key)
  {
  }

  lemma OpenElsewhere(c: Core, other: Key, since: int, key: Key)
    requires other != key
    ensures Untouched(c, Open(c, other, since), key)
  {
  }

  lemma RefireCounts(c: Core, other: Key, key: Key)
    requires AlertRuns.Filed(c) && other in c.active
    ensures Untouched(c, Refire(c, other), key)
  {
  }

  lemma FireNowElsewhere(cfg: Config, c: Core, r: ManagedRule, other: Key, since: int, key: Key)
    requires AlertRuns.Filed(c) && other != key
    ensures Untouched(c, FireNow(c, cfg, r, other, since), key)
  {
    if other in c.active {
      RefireCounts(c, other, key);
    } else {
      OpenElsewhere(c.(hold := c.hold - {other}), other, since, key);
    }
  }

  lemma EvaluateElsewhere(cfg: Config, c: Core, r: ManagedRule, ctx: Context, sweep: bool, key: Key)
    requires AlertRuns.Filed(c) && key != Key(r.rule.id, ctx.edgeId, ctx.deviceId)
    ensures Untouched(c, EvaluateRule(c, cfg, r, ctx, sweep), key)
  {
    var other := Key(r.rule.id, ctx.edgeId, ctx.deviceId);
    EndElsewhere(Quiet(c, other), {other}, false, key);
    if Window(r).None? {
      FireNowElsewhere(cfg, c, r, other, c.now, key);
    } else {
      FireNowElsewhere(cfg, Breach(c, other), r, other, Breach(c, other).breach[other], key);
    }
  }

  lemma UntouchedChains(c: Core, d: Core, e: Core, key: Key)
    requires Untouched(c, d, key) && Untouched(d, e, key)
    ensures Untouched(c, e, key)
  {
  }

  /** Since `from` nothing has happened as far as the key is concerned. */
  ghost predicate Quiescent(from: Core, d: Core, key: Key) { Untouched(from, d, key) && AlertRuns.Filed(d) }

  /** Rules `m` to `n`, in order. */
  function EvaluateFrom(d: Core, cfg: Config, ctx: Context, sweep: bool, m: nat, n: nat): Core
    requires m <= n <= |cfg.rules|
    decreases n
  {
    if m == n then d else EvaluateRule(EvaluateFrom(d, cfg, ctx, sweep, m, n - 1), cfg, cfg.rules[n - 1], ctx, sweep)
  }

  lemma {:induction false} EvaluateOnwards(cfg: Config, c: Core, d: Core, ctx: Context, sweep: bool, m: nat, n: nat)
    requires m <= n <= |cfg.rules| && d == EvaluateRules(c, cfg, ctx, sweep, m)
    ensures EvaluateRules(c, cfg, ctx, sweep, n) == EvaluateFrom(d, cfg, ctx, sweep, m, n)
    decreases n
  {
    if m < n {
      EvaluateOnwards(cfg, c, d, ctx, sweep, m, n - 1);
    }
  }

  lemma {:induction false} FromElsewhere(cfg: Config, d: Core, ctx: Context, sweep: bool, m: nat, n: nat, key: Key)
    requires AlertRuns.Filed(d) && m <= n <= |cfg.rules|
    requires forall k :: m <= k < n ==> key != Key(cfg.rules[k].rule.id, ctx.edgeId, ctx.deviceId)
    ensures Quiescent(d, EvaluateFrom(d, cfg, ctx, sweep, m, n), key)
    decreases n
  {
    if m < n {
      FromElsewhere(cfg, d, ctx, sweep, m, n - 1, key);
      OneMoreElsewhere(cfg, d, EvaluateFrom(d, cfg, ctx, sweep, m, n - 1), cfg.rules[n - 1], ctx, sweep, key,
                       EvaluateFrom(d, cfg, ctx, sweep, m, n));
    }
  }

  /** Rules `m` to `n` are about other keys. */
  lemma RulesElsewhere(cfg: Config, c: Core, ctx: Context, sweep: bool, m: nat, n: nat, key: Key)
    requires AlertRuns.Filed(c) && m <= n <= |cfg.rules|
    requires forall k :: m <= k < n ==> key != Key(cfg.rules[k].rule.id, ctx.edgeId, ctx.deviceId)
    ensures Untouched(EvaluateRules(c, cfg, ctx, sweep, m), EvaluateRules(c, cfg, ctx, sweep, n), key)
  {
    AlertRuns.RulesOnlyEdge(cfg, c, ctx, sweep, m);
    var d := EvaluateRules(c, cfg, ctx, sweep, m);
    EvaluateOnwards(cfg, c, d, ctx, sweep, m, n);
    FromElsewhere(cfg, d, ctx, sweep, m, n, key);
  }

  lemma OneMoreElsewhere(cfg: Config, c: Core, d: Core, r: ManagedRule, ctx: Context, sweep: bool, key: Key, e: Core)
    requires Quiescent(c, d, key) && key != Key(r.rule.id, ctx.edgeId, ctx.deviceId)
    requires e == EvaluateRule(d, cfg, r, ctx, sweep)
    ensures Quiescent(c, e, key)
  {
    EvaluateElsewhere(cfg, d, r, ctx, sweep, key);
    AlertRuns.EvaluateOnlyEdge(cfg, d, r, ctx, sweep);
    UntouchedChains(c, d, e, key);
  }

  /** Of all rules only rule `p` matters to its key. */
  lemma OneRuleMatters(cfg: Config, c: Core, ctx: Context, sweep: bool, p: nat, key: Key)
    returns (before: Core, after: Core)
    requires AlertRuns.Filed(c) && UniqueRules(cfg) && p < |cfg.rules|
    requires key == Key(cfg.rules[p].rule.id, ctx.edgeId, ctx.deviceId)
    ensures Untouched(c, before, key) && AlertRuns.Filed(before)
    ensures after == EvaluateRule(before, cfg, cfg.rules[p], ctx, sweep)
    ensures Untouched(after, EvaluateRules(c, cfg, ctx, sweep, |cfg.rules|), key)
  {
    before := EvaluateRules(c, cfg, ctx, sweep, p);
    after := EvaluateRule(before, cfg, cfg.rules[p], ctx, sweep);
    RulesElsewhere(cfg, c, ctx, sweep, 0, p, key);
    AlertRuns.RulesOnlyEdge(cfg, c, ctx, sweep, p);
    RulesElsewhere(cfg, c, ctx, sweep, p + 1, |cfg.rules|, key);
  }

  // ------------------------------------------------------------------ what one report does to its key

  /** Openings of the latch pay for the alerts of the key; a latch that is on without an alert has paid for one. */
  ghost predicate Paid(c: Core, key: Key, latch: AlertLatch.Latch) {
    && |Ids(c, key)| + (if latch.on && key !in c.active then 1 else 0) <= latch.fires
    && (key in c.active ==> latch.on)
  }

  lemma UntouchedStaysPaid(c: Core, d: Core, key: Key, latch: AlertLatch.Latch)
    requires Paid(c, key, latch) && Untouched(c, d, key)
    ensures Paid(d, key, latch)
  {
  }

  lemma FireNowPaid(cfg: Config, c: Core, r: ManagedRule, key: Key, since: int, latch: AlertLatch.Latch)
    requires AlertRuns.Filed(c) && Paid(c, key, latch) && latch.on
    ensures Paid(FireNow(c, cfg, r, key, since), key, latch)
  {
    if key in c.active {
      RefireCounts(c, key, key);
    } else {
      var h := c.(hold := c.hold - {key});
      assert Ids(Open(h, key, since), key) == Ids(c, key) + {|c.book|};
    }
  }

  lemma FirePaid(cfg: Config, c: Core, r: ManagedRule, key: Key, latch: AlertLatch.Latch)
    requires AlertRuns.Filed(c) && Paid(c, key, latch) && latch.on
    ensures Paid(FireRule(c, cfg, r, key), key, latch)
  {
    if Window(r).None? {
      FireNowPaid(cfg, c, r, key, c.now, latch);
    } else {
      var b := Breach(c, key);
      assert Ids(b, key) == Ids(c, key);
      FireNowPaid(cfg, b, r, key, b.breach[key], latch);
    }
  }

  lemma EndPaid(c: Core, key: Key, latch: AlertLatch.Latch)
    requires |Ids(c, key)| <= latch.fires
    ensures Paid(End(Quiet(c, key), {key}, false), key, latch.(on := false))
  {
    assert Ids(End(Quiet(c, key), {key}, false), key) == Ids(c, key);
  }

  /** One sample moves latch and alert together. */
  lemma EvaluatePaid(cfg: Config, c: Core, r: ManagedRule, ctx: Context, latch: AlertLatch.Latch)
    requires AlertRuns.Filed(c) && r.rule.enabled
    requires Paid(c, Key(r.rule.id, ctx.edgeId, ctx.deviceId), latch)
    ensures Paid(EvaluateRule(c, cfg, r, ctx, false), Key(r.rule.id, ctx.edgeId, ctx.deviceId),
                 AlertLatch.Observe(latch, r.rule.condition, AlertLatch.Sample(ctx, c.now)))
  {
    var key := Key(r.rule.id, ctx.edgeId, ctx.deviceId);
    if RuleIsCleared(r.rule, ctx, c.now) {
      EndPaid(c, key, latch);
    } else if RuleEvaluate(r.rule, ctx, c.now) {
      var next := AlertLatch.Next(latch, true, false);
      assert Paid(c, key, next);
      FirePaid(cfg, c, r, key, next);
    } else {
      assert Untouched(c, Quiet(c, key), key);
    }
  }

  // ------------------------------------------------------------------ everything else leaves the key alone

  /** No alert of an edge, which its next report ends, and none that a sweep ends when it is overdue. */
  predicate OwnKind(key: Key) {
    && !(EDGE_PREFIX <= key.rule) && !(PREDICTION_PREFIX <= key.rule)
    && (key.rule == EDGE_OFFLINE ==> key.device != "")
  }

  lemma ReportElsewhere(cfg: Config, c: Core, other: Key, key: Key)
    requires AlertRuns.Filed(c) && other != key
    ensures Untouched(c, Report(c, cfg, other), key)
  {
    if other in c.active {
      RefireCounts(c, other, key);
    } else {
      OpenElsewhere(c.(hold := c.hold - {other}), other, c.now, key);
    }
  }

  lemma StatusElsewhere(cfg: Config, s: State, edge: string, device: string, status: HealthStatus,
                        metrics: map<string, MetricValue>, key: Key)
    requires AlertRuns.Filed(s.core) && OwnKind(key) && (edge != key.edge || device != key.device)
    ensures Untouched(s.core, OnStatus(s, cfg, edge, device, status, metrics).core, key)
  {
    var seen := MarkEdgeSeen(s, edge, s.core.now).core;
    EndElsewhere(s.core, {Key(EDGE_OFFLINE, edge, "")}, false, key);
    var ctx := ReportContext(s, edge, device, status, metrics);
    RulesElsewhere(cfg, seen, ctx, false, 0, |cfg.rules|, key);
    var e := EvaluateRules(seen, cfg, ctx, false, |cfg.rules|);
    EndElsewhere(e, ActiveWhere(e, edge, device, EDGE_PREFIX), false, key);
  }

  lemma RemovedElsewhere(cfg: Config, s: State, edge: string, device: string, key: Key)
    requires edge != key.edge || device != key.device
    ensures Untouched(s.core, OnRemoved(s, cfg, edge, device).core, key)
  {
    var f := if device in s.devices && s.devices[device].edge != edge then s else ForgetAll(s, cfg, {device});
    assert Ids(f.core, key) == Ids(s.core, key);
    EndElsewhere(f.core, ActiveWhere(f.core, edge, device, ""), false, key);
  }

  lemma {:induction false} SessionsElsewhere(cfg: Config, s: State, sessions: seq<(string, int)>, key: Key)
    requires AlertRuns.Filed(s.core) && OwnKind(key)
    ensures var t := SeeSessions(s, cfg, sessions);
            Untouched(s.core, t.core, key) && AlertRuns.Filed(t.core) && t.devices == s.devices
    decreases |sessions|
  {
    if sessions != [] {
      var edge, last := sessions[0].0, sessions[0].1;
      var recent := cfg.edgeOfflineAfterSecs > 0 && s.core.now - last <= 1000 * cfg.edgeOfflineAfterSecs;
      EndElsewhere(s.core, {Key(EDGE_OFFLINE, edge, "")}, false, key);
      SessionsElsewhere(cfg, if recent then MarkEdgeSeen(s, edge, last)
                             else s.(edges := s.edges[edge := Later(s.edges, edge, last)]), sessions[1..], key);
    }
  }

  lemma {:induction false} OfflineElsewhere(cfg: Config, s: State, order: seq<string>, key: Key)
    requires OwnKind(key)
    ensures Untouched(s.core, OpenOffline(s, cfg, order).core, key)
    decreases |order|
  {
    if order != [] {
      var other := Key(EDGE_OFFLINE, order[0], "");
      OpenElsewhere(s.core, other, s.core.now, key);
      OfflineElsewhere(cfg, if IsSilent(s, cfg, order[0]) && order[0] !in s.latched && other !in s.core.active
                            then s.(core := Open(s.core, other, s.core.now)) else s, order[1..], key);
    }
  }

  // ------------------------------------------------------------------ sweeps

  /** The verdict of a threshold rule depends on the metrics alone. */
  lemma MetricsDecide(c: RuleCondition, a: Context, b: Context, s: int, t: int)
    requires c.MetricThreshold? && a.metrics == b.metrics
    ensures IsCleared(c, a, s) == IsCleared(c, b, t)
  {
  }

  lemma RuleLeavesAlone(cfg: Config, c: Core, r: ManagedRule, ctx: Context)
    requires r.rule.enabled && r.rule.condition.MetricThreshold?
    requires IsCleared(r.rule.condition, ctx, c.now) ==> Key(r.rule.id, ctx.edgeId, ctx.deviceId) !in c.active
    ensures Untouched(c, EvaluateRule(c, cfg, r, ctx, true), Key(r.rule.id, ctx.edgeId, ctx.deviceId))
  {
    var key := Key(r.rule.id, ctx.edgeId, ctx.deviceId);
    assert Ids(End(Quiet(c, key), {key}, false), key) == Ids(c, key);
  }

  /** A sweep never opens the alert of a threshold rule, and finds none to resolve that its latch has not let go. */
  lemma SweepLeavesAlone(cfg: Config, c: Core, ctx: Context, p: nat, latch: AlertLatch.Latch)
    requires AlertRuns.Filed(c) && UniqueRules(cfg) && p < |cfg.rules|
    requires var r := cfg.rules[p]; r.rule.enabled && r.rule.condition.MetricThreshold?
    requires var key := Key(cfg.rules[p].rule.id, ctx.edgeId, ctx.deviceId); Paid(c, key, latch)
    requires IsCleared(cfg.rules[p].rule.condition, ctx, c.now) ==> !latch.on
    ensures Untouched(c, EvaluateRules(c, cfg, ctx, true, |cfg.rules|),
                      Key(cfg.rules[p].rule.id, ctx.edgeId, ctx.deviceId))
  {
    var key := Key(cfg.rules[p].rule.id, ctx.edgeId, ctx.deviceId);
    var before, after := OneRuleMatters(cfg, c, ctx, true, p, key);
    RuleLeavesAlone(cfg, before, cfg.rules[p], ctx);
    UntouchedChains(c, before, after, key);
    UntouchedChains(c, after, EvaluateRules(c, cfg, ctx, true, |cfg.rules|), key);
  }

  /** The rule that is followed, on the device that is followed. */
  ghost predicate Followed(cfg: Config, p: nat, key: Key) {
    && UniqueRules(cfg) && p < |cfg.rules|
    && var r := cfg.rules[p];
       r.rule.enabled && r.rule.condition.MetricThreshold? && key.rule == r.rule.id && OwnKind(key)
  }

  /** What a sweep judges the device by is what its latch was shown last. */
  ghost predicate Shown(cfg: Config, p: nat, key: Key, s: State, latch: AlertLatch.Latch)
    requires p < |cfg.rules|
  {
    key.device in s.devices && s.devices[key.device].edge == key.edge ==>
      IsCleared(cfg.rules[p].rule.condition, ContextOf(s, key.device), s.core.now) ==> !latch.on
  }

  lemma {:induction false} DevicesLeaveAlone(cfg: Config, p: nat, key: Key, s: State, order: seq<string>,
                                               latch: AlertLatch.Latch)
    requires AlertRuns.Filed(s.core) && Followed(cfg, p, key)
    requires Paid(s.core, key, latch) && Shown(cfg, p, key, s, latch)
    ensures Untouched(s.core, SweepDevices(s, cfg, order).core, key)
    decreases |order|
  {
    if order != [] {
      if order[0] in s.devices {
        var ctx := ContextOf(s, order[0]);
        var u := s.(core := EvaluateRules(s.core, cfg, ctx, true, |cfg.rules|));
        AlertRuns.RulesOnlyEdge(cfg, s.core, ctx, true, |cfg.rules|);
        if order[0] == key.device && ctx.edgeId == key.edge {
          SweepLeavesAlone(cfg, s.core, ctx, p, latch);
        } else {
          RulesElsewhere(cfg, s.core, ctx, true, 0, |cfg.rules|, key);
        }
        if key.device in s.devices {
          MetricsDecide(cfg.rules[p].rule.condition, ContextOf(u, key.device), ContextOf(s, key.device),
                        u.core.now, s.core.now);
        }
        UntouchedStaysPaid(s.core, u.core, key, latch);
        DevicesLeaveAlone(cfg, p, key, u, order[1..], latch);
        UntouchedChains(s.core, u.core, SweepDevices(u, cfg, order[1..]).core, key);
      } else {
        DevicesLeaveAlone(cfg, p, key, s, order[1..], latch);
      }
    }
  }

  lemma SweepStaysPaid(cfg: Config, p: nat, key: Key, s: State, e: Event, latch: AlertLatch.Latch)
    requires e.RunSweep? && AlertRuns.Filed(s.core) && Followed(cfg, p, key)
    requires Paid(s.core, key, latch) && Shown(cfg, p, key, s, latch)
    ensures Untouched(s.core, OnSweep(s, cfg, e.sessions, e.deviceOrder, e.edgeOrder).core, key)
  {
    var t := SeeSessions(s, cfg, e.sessions);
    SessionsElsewhere(cfg, s, e.sessions, key);
    PredictionsSeen(cfg, p, key, s, t, latch);
    DevicesLeaveAlone(cfg, p, key, t, e.deviceOrder, latch);
    var x := ExpirePredictions(SweepDevices(t, cfg, e.deviceOrder), cfg);
    EndElsewhere(x.core, Expired(x.core, cfg), false, key);
    var b := BeforeOffline(s, cfg, e.sessions, e.deviceOrder);
    OfflineElsewhere(cfg, b, e.edgeOrder, key);
    var o := OpenOffline(b, cfg, e.edgeOrder);
    var last := OnSweep(s, cfg, e.sessions, e.deviceOrder, e.edgeOrder).core;
    assert last.active == o.core.active && last.book == o.core.book && last.now == o.core.now;
    UntouchedChains(s.core, t.core, x.core, key);
    UntouchedChains(s.core, x.core, b.core, key);
    UntouchedChains(s.core, b.core, o.core, key);
    UntouchedChains(s.core, o.core, last, key);
  }

  lemma PredictionsSeen(cfg: Config, p: nat, key: Key, s: State, t: State, latch: AlertLatch.Latch)
    requires Followed(cfg, p, key) && Shown(cfg, p, key, s, latch) && t.devices == s.devices
    requires Paid(s.core, key, latch) && Untouched(s.core, t.core, key)
    ensures Shown(cfg, p, key, t, latch) && Paid(t.core, key, latch)
  {
    if key.device in s.devices {
      MetricsDecide(cfg.rules[p].rule.condition, ContextOf(t, key.device), ContextOf(s, key.device),
                    t.core.now, s.core.now);
    }
  }

  // ------------------------------------------------------------------ runs

  /** What the latch of the key is shown in a run: every report of the device by its edge. */
  function Samples(cfg: Config, now: int, events: seq<Event>, key: Key): seq<AlertLatch.Sample> {
    if events == [] then []
    else
      var init, e := events[..|events| - 1], events[|events| - 1];
      var s := Run(cfg, now, init);
      Samples(cfg, now, init, key) +
      if e.StatusReport? && e.edge == key.edge && e.device == key.device
      then [AlertLatch.Sample(ReportContext(s, e.edge, e.device, e.status, e.metrics), s.core.now)] else []
  }

  /** Alerts of the key end by their rule alone: neither by hand nor with their device. */
  ghost predicate LeftToItsRule(cfg: Config, now: int, events: seq<Event>, key: Key) {
    events != [] ==>
      var init, e := events[..|events| - 1], events[|events| - 1];
      var c := Run(cfg, now, init).core;
      && LeftToItsRule(cfg, now, init, key)
      && (e.DeviceRemoved? ==> e.edge != key.edge || e.device != key.device)
      && (e.ResolveAlert? && IsActiveId(c, e.id) ==> c.book[e.id].key != key)
  }

  lemma StatusPaid(cfg: Config, p: nat, key: Key, s: State, status: HealthStatus, metrics: map<string, MetricValue>,
                   latch: AlertLatch.Latch)
    requires AlertRuns.Filed(s.core) && Followed(cfg, p, key) && Paid(s.core, key, latch)
    ensures var ctx := ReportContext(s, key.edge, key.device, status, metrics);
            Paid(OnStatus(s, cfg, key.edge, key.device, status, metrics).core, key,
                 AlertLatch.Observe(latch, cfg.rules[p].rule.condition, AlertLatch.Sample(ctx, s.core.now)))
  {
    var seen := MarkEdgeSeen(s, key.edge, s.core.now).core;
    var ctx := ReportContext(s, key.edge, key.device, status, metrics);
    var next := AlertLatch.Observe(latch, cfg.rules[p].rule.condition, AlertLatch.Sample(ctx, s.core.now));
    EndElsewhere(s.core, {Key(EDGE_OFFLINE, key.edge, "")}, false, key);
    UntouchedStaysPaid(s.core, seen, key, latch);
    var before, after := OneRuleMatters(cfg, seen, ctx, false, p, key);
    UntouchedStaysPaid(seen, before, key, latch);
    EvaluatePaid(cfg, before, cfg.rules[p], ctx, latch);
    var e := EvaluateRules(seen, cfg, ctx, false, |cfg.rules|);
    UntouchedStaysPaid(after, e, key, next);
    EndElsewhere(e, ActiveWhere(e, key.edge, key.device, EDGE_PREFIX), false, key);
    UntouchedStaysPaid(e, End(e, ActiveWhere(e, key.edge, key.device, EDGE_PREFIX), false), key, next);
  }

  /** A cleared sample lets the latch go, so the device is now judged as it was shown. */
  lemma StatusShown(cfg: Config, p: nat, key: Key, s: State, status: HealthStatus, metrics: map<string, MetricValue>,
                    latch: AlertLatch.Latch)
    requires Followed(cfg, p, key)
    ensures var ctx := ReportContext(s, key.edge, key.device, status, metrics);
            Shown(cfg, p, key, OnStatus(s, cfg, key.edge, key.device, status, metrics),
                  AlertLatch.Observe(latch, cfg.rules[p].rule.condition, AlertLatch.Sample(ctx, s.core.now)))
  {
    var ctx := ReportContext(s, key.edge, key.device, status, metrics);
    var t := OnStatus(s, cfg, key.edge, key.device, status, metrics);
    MetricsDecide(cfg.rules[p].rule.condition, ContextOf(t, key.device), ctx, t.core.now, s.core.now);
  }

  /** The device is known as it was, or not at all, or by another edge. */
  lemma ShownStays(cfg: Config, p: nat, key: Key, s: State, t: State, latch: AlertLatch.Latch)
    requires Followed(cfg, p, key) && Shown(cfg, p, key, s, latch)
    requires key.device in t.devices && t.devices[key.device].edge == key.edge ==>
               key.device in s.devices && s.devices[key.device] == t.devices[key.device]
    ensures Shown(cfg, p, key, t, latch)
  {
    if key.device in t.devices && t.devices[key.device].edge == key.edge {
      MetricsDecide(cfg.rules[p].rule.condition, ContextOf(t, key.device), ContextOf(s, key.device),
                    t.core.now, s.core.now);
    }
  }

  /** Any event that is not a report of the device and does not end its alert from outside. */
  ghost predicate Aside(s: State, e: Event, key: Key) {
    && (e.StatusReport? || e.DeviceRemoved? ==> e.edge != key.edge || e.device != key.device)
    && (e.ResolveAlert? && IsActiveId(s.core, e.id) ==> s.core.book[e.id].key != key)
  }

  lemma ResolveElsewhere(s: State, id: nat, key: Key)
    requires Aside(s, ResolveAlert(id), key)
    ensures Untouched(s.core, OnResolve(s, id).core, key) && OnResolve(s, id).devices == s.devices
  {
    if IsActiveId(s.core, id) {
      var other := s.core.book[id].key;
      EndElsewhere(s.core, {other}, true, key);
      EndElsewhere(s.core.(hold := s.core.hold[other := s.core.now]), {other}, true, key);
      assert Ids(s.core.(hold := s.core.hold[other := s.core.now]), key) == Ids(s.core, key);
    }
  }

  lemma AcknowledgeElsewhere(c: Core, other: Key, key: Key)
    requires other in c.active
    ensures Untouched(c, Acknowledge(c, other), key)
  {
  }

  lemma ReportsAside(cfg: Config, key: Key, s: State, e: Event)
    requires AlertRuns.Filed(s.core) && OwnKind(key) && Aside(s, e, key)
    requires e.StatusReport? || e.EdgeAlert? || e.PredictionReport? || e.EdgeSeen? || e.EdgeDisconnected?
    ensures Untouched(s.core, Step(cfg, s, e).core, key)
  {
    match e
    case StatusReport(edge, device, status, metrics) => StatusElsewhere(cfg, s, edge, device, status, metrics, key);
    case EdgeAlert(edge, device, metric) =>
      ReportElsewhere(cfg, s.core,
                      Key(EDGE_PREFIX + if metric.Some? then metric.value else "device-alert", edge, device), key);
    case PredictionReport(edge, device, info) =>
      ReportElsewhere(cfg, s.core, Key(PREDICTION_PREFIX + info.predictionType, edge, device), key);
    case EdgeSeen(edge) => EndElsewhere(s.core, {Key(EDGE_OFFLINE, edge, "")}, false, key);
    case EdgeDisconnected(edge) => assert Step(cfg, s, e).core == s.core;
  }

  lemma AsideUntouched(cfg: Config, p: nat, key: Key, s: State, e: Event, latch: AlertLatch.Latch)
    requires AlertRuns.Filed(s.core) && Followed(cfg, p, key)
    requires Paid(s.core, key, latch) && Shown(cfg, p, key, s, latch)
    requires Aside(s, e, key) && !e.Elapse?
    ensures Untouched(s.core, Step(cfg, s, e).core, key)
  {
    if e.RunSweep? {
      if Step(cfg, s, e) != s {
        SweepStaysPaid(cfg, p, key, s, e, latch);
      }
    } else if e.DeviceRemoved? || e.AcknowledgeAlert? || e.ResolveAlert? {
      OperatorsAside(cfg, key, s, e);
    } else {
      ReportsAside(cfg, key, s, e);
    }
  }

  lemma OperatorsAside(cfg: Config, key: Key, s: State, e: Event)
    requires AlertRuns.Filed(s.core) && Aside(s, e, key)
    requires e.DeviceRemoved? || e.AcknowledgeAlert? || e.ResolveAlert?
    ensures Untouched(s.core, Step(cfg, s, e).core, key)
  {
    match e
    case DeviceRemoved(edge, device) => RemovedElsewhere(cfg, s, edge, device, key);
    case AcknowledgeAlert(id) =>
      if IsActiveId(s.core, id) {
        AcknowledgeElsewhere(s.core, s.core.book[id].key, key);
      }
    case ResolveAlert(id) => ResolveElsewhere(s, id, key);
  }

  lemma AsideKeepsKnown(cfg: Config, s: State, e: Event, key: Key)
    requires Aside(s, e, key)
    ensures var t := Step(cfg, s, e);
            key.device in t.devices && t.devices[key.device].edge == key.edge ==>
              key.device in s.devices && s.devices[key.device] == t.devices[key.device]
  {
    if e.ResolveAlert? {
      ResolveElsewhere(s, e.id, key);
    } else if e.RunSweep? {
      SweepKeepsKnown(cfg, s, e.sessions, e.deviceOrder, e.edgeOrder);
    }
  }

  lemma SweepKeepsKnown(cfg: Config, s: State, sessions: seq<(string, int)>, deviceOrder: seq<string>,
                        edgeOrder: seq<string>)
    ensures var t := OnSweep(s, cfg, sessions, deviceOrder, edgeOrder);
            forall d | d in t.devices :: d in s.devices && t.devices[d] == s.devices[d]
  {
    SessionsKeepDevices(cfg, s, sessions);
    DevicesKeepDevices(cfg, SeeSessions(s, cfg, sessions), deviceOrder);
    AlertRuns.OfflineOpened(cfg, BeforeOffline(s, cfg, sessions, deviceOrder), edgeOrder);
  }

  lemma {:induction false} SessionsKeepDevices(cfg: Config, s: State, sessions: seq<(string, int)>)
    ensures SeeSessions(s, cfg, sessions).devices == s.devices
    decreases |sessions|
  {
    if sessions != [] {
      var edge, last := sessions[0].0, sessions[0].1;
      var recent := cfg.edgeOfflineAfterSecs > 0 && s.core.now - last <= 1000 * cfg.edgeOfflineAfterSecs;
      SessionsKeepDevices(cfg, if recent then MarkEdgeSeen(s, edge, last)
                               else s.(edges := s.edges[edge := Later(s.edges, edge, last)]), sessions[1..]);
    }
  }

  lemma {:induction false} DevicesKeepDevices(cfg: Config, s: State, order: seq<string>)
    ensures SweepDevices(s, cfg, order).devices == s.devices
    decreases |order|
  {
    if order != [] {
      DevicesKeepDevices(cfg, if order[0] in s.devices
                              then s.(core := EvaluateRules(s.core, cfg, ContextOf(s, order[0]), true, |cfg.rules|))
                              else s,
                         order[1..]);
    }
  }

  /**
   In every run in which the alerts of the key are left to their rule, there are no more of them
   than its latch has opened, and one is active only while the latch is on.
   */
  lemma {:induction false} AlertsFollowLatch(cfg: Config, p: nat, now: int, events: seq<Event>, key: Key)
    requires Followed(cfg, p, key) && LeftToItsRule(cfg, now, events, key)
    ensures var latch := AlertLatch.After(cfg.rules[p].rule.condition, Samples(cfg, now, events, key));
            var s := Run(cfg, now, events);
            Paid(s.core, key, latch) && Shown(cfg, p, key, s, latch)
  {
    if events == [] {
      assert Ids(Init(now).core, key) == {};
    } else {
      var init, e := events[..|events| - 1], events[|events| - 1];
      var s := Run(cfg, now, init);
      AlertsFollowLatch(cfg, p, now, init, key);
      AlertRuns.AlwaysFiled(cfg, now, init);
      if e.StatusReport? && e.edge == key.edge && e.device == key.device {
        ReportFollows(cfg, p, now, events, key);
      } else {
        StaysPaid(cfg, p, key, s, e, AlertLatch.After(cfg.rules[p].rule.condition, Samples(cfg, now, init, key)));
        assert Samples(cfg, now, events, key) == Samples(cfg, now, init, key);
      }
    }
  }

  lemma ReportFollows(cfg: Config, p: nat, now: int, events: seq<Event>, key: Key)
    requires events != [] && Followed(cfg, p, key)
    requires var e := events[|events| - 1]; e.StatusReport? && e.edge == key.edge && e.device == key.device
    requires var init := events[..|events| - 1]; var s := Run(cfg, now, init);
             AlertRuns.Filed(s.core) &&
             Paid(s.core, key, AlertLatch.After(cfg.rules[p].rule.condition, Samples(cfg, now, init, key)))
    ensures var latch := AlertLatch.After(cfg.rules[p].rule.condition, Samples(cfg, now, events, key));
            var s := Run(cfg, now, events);
            Paid(s.core, key, latch) && Shown(cfg, p, key, s, latch)
  {
    var init, e := events[..|events| - 1], events[|events| - 1];
    var s, samples := Run(cfg, now, init), Samples(cfg, now, init, key);
    var latch := AlertLatch.After(cfg.rules[p].rule.condition, samples);
    var sample := AlertLatch.Sample(ReportContext(s, e.edge, e.device, e.status, e.metrics), s.core.now);
    StatusPaid(cfg, p, key, s, e.status, e.metrics, latch);
    StatusShown(cfg, p, key, s, e.status, e.metrics, latch);
    OneMoreSample(cfg.rules[p].rule.condition, samples, sample);
    assert Samples(cfg, now, events, key) == samples + [sample];
  }

  lemma OneMoreSample(c: RuleCondition, samples: seq<AlertLatch.Sample>, sample: AlertLatch.Sample)
    ensures AlertLatch.After(c, samples + [sample]) == AlertLatch.Observe(AlertLatch.After(c, samples), c, sample)
  {
    assert (samples + [sample])[..|samples|] == samples;
  }

  lemma StaysPaid(cfg: Config, p: nat, key: Key, s: State, e: Event, latch: AlertLatch.Latch)
    requires AlertRuns.Filed(s.core) && Followed(cfg, p, key)
    requires Paid(s.core, key, latch) && Shown(cfg, p, key, s, latch)
    requires Aside(s, e, key)
    ensures Paid(Step(cfg, s, e).core, key, latch) && Shown(cfg, p, key, Step(cfg, s, e), latch)
  {
    AsideKeepsKnown(cfg, s, e, key);
    ShownStays(cfg, p, key, s, Step(cfg, s, e), latch);
    if e.Elapse? {
      assert Ids(Step(cfg, s, e).core, key) == Ids(s.core, key);
    } else {
      AsideUntouched(cfg, p, key, s, e, latch);
      UntouchedStaysPaid(s.core, Step(cfg, s, e).core, key, latch);
    }
  }

  /**
   So hysteresis holds what it promises: k alerts of an ordering rule with margin h on one device
   take a total movement of its metric of at least 2h(k - 1), less 2h per alert that a boolean report ended.
   */
  lemma AlertsCostVariation(cfg: Config, p: nat, now: int, events: seq<Event>, key: Key)
    requires Followed(cfg, p, key) && LeftToItsRule(cfg, now, events, key)
    requires cfg.rules[p].rule.condition.operator.Ordering() && |Ids(Run(cfg, now, events).core, key)| >= 1
    ensures var c := cfg.rules[p].rule.condition;
            AlertLatch.Costs(c, Samples(cfg, now, events, key), |Ids(Run(cfg, now, events).core, key)|)
  {
    AlertsFollowLatch(cfg, p, now, events, key);
    AlertLatch.FewerCostLess(cfg.rules[p].rule.condition, Samples(cfg, now, events, key),
                             |Ids(Run(cfg, now, events).core, key)|);
  }

  /** A metric that hovers, moving less than two margins in all, raises at most one alert. */
  lemma HoveringAlertsOnce(cfg: Config, p: nat, now: int, events: seq<Event>, key: Key)
    requires Followed(cfg, p, key) && LeftToItsRule(cfg, now, events, key)
    requires var c := cfg.rules[p].rule.condition; var samples := Samples(cfg, now, events, key);
             && c.operator.Ordering() && AlertLatch.BooleanEndings(c, samples) == 0
             && AlertLatch.Variation(c.metricName, samples) < 2.0 * Margin(c.hysteresis)
    ensures |Ids(Run(cfg, now, events).core, key)| <= 1
  {
    AlertsFollowLatch(cfg, p, now, events, key);
    AlertLatch.HoveringFiresOnce(cfg.rules[p].rule.condition, Samples(cfg, now, events, key));
  }
}
