/**
 What the alert manager does with reports from outside, and with its rules in a sweep
 (crates/nimon-hub/src/alert/manager.rs:819-1080, 1540-1625 and 1940-1990).
 */
module AlertAnswers {
  import opened Basics
  import opened Rules
  import opened AlertManager
  import opened AlertLaws
  import opened AlertHolds
  import opened AlertKnowledge
  import AlertRuns

  // ------------------------------------------------------------------ reports from outside

  /** The alert is there, reported now, and has fired now or not so long ago; or a hold keeps it closed. */
  ghost predicate Answers(cfg: Config, s: State, key: Key, t: State) {
    && t.core.now == s.core.now && AlertRuns.OnlyKey(s.core, t.core, key)
    && (if key in t.core.active then
          && t.core.active[key].lastReported == s.core.now
          && (t.core.active[key].lastFired == s.core.now
              || s.core.now - t.core.active[key].lastFired < Cooldown(cfg, key.rule))
        else HoldIsOn(s.core, cfg, key) && t.core == s.core)
  }

  lemma ReportAnswers(cfg: Config, s: State, key: Key, t: State)
    requires t.core == Report(s.core, cfg, key)
    ensures Answers(cfg, s, key, t)
  {
    if key in s.core.active {
      AlertRuns.RefireOnlyKey(s.core, key);
    } else {
      AlertRuns.OpenOnlyKey(s.core, key, s.core.now);
    }
  }

  /** An edge alert is answered under the name of its metric, if it has one. */
  lemma EdgeAlertAnswered(cfg: Config, s: State, edge: string, device: string, metric: Option<string>)
    ensures var rule := match metric case Some(name) => "edge:" + name case None => "edge:device-alert";
            Answers(cfg, s, Key(rule, edge, device), Step(cfg, s, EdgeAlert(edge, device, metric)))
  {
    var rule := match metric case Some(name) => "edge:" + name case None => "edge:device-alert";
    assert rule == EDGE_PREFIX + if metric.Some? then metric.value else "device-alert";
    ReportAnswers(cfg, s, Key(rule, edge, device), Step(cfg, s, EdgeAlert(edge, device, metric)));
  }

  /** So is a prediction that is as likely as the threshold demands; any other touches no alert. */
  lemma PredictionAnswered(cfg: Config, s: State, edge: string, device: string, info: PredictionInfo, least: real)
    requires cfg.predictionThreshold == Finite(least)
    ensures var t := Step(cfg, s, PredictionReport(edge, device, info));
            match info.probability
            case Finite(x) => if x >= least then Answers(cfg, s, Key("pred-" + info.predictionType, edge, device), t)
                              else t.core == s.core
            case _ => t.core == s.core
  {
    var t := Step(cfg, s, PredictionReport(edge, device, info));
    if info.probability.Finite? && info.probability.v >= least {
      ReportAnswers(cfg, s, Key("pred-" + info.predictionType, edge, device), t);
    }
  }

  // ------------------------------------------------------------------ rules in a sweep

  function Leaves(c: RuleCondition): set<RuleCondition>
    decreases c, 1
  {
    if c.Composite? then LeavesOfAll(c.conditions) else {c}
  }

  function LeavesOfAll(cs: seq<RuleCondition>): set<RuleCondition>
    decreases cs, 0
  {
    if cs == [] then {} else Leaves(cs[0]) + LeavesOfAll(cs[1..])
  }

  predicate IsTimeLeaf(c: RuleCondition) { c.DeviceOffline? || c.Prediction? }

  /** A condition can come true without a report if silence or a prediction has a part in it, however deep. */
  lemma {:induction false} TimeBasedIff(c: RuleCondition)
    ensures IsTimeBased(c) <==> exists l | l in Leaves(c) :: IsTimeLeaf(l)
    decreases c, 1
  {
    if c.Composite? {
      AnyTimeBasedIff(c.conditions);
    } else {
      assert c in Leaves(c);
    }
  }

  lemma {:induction false} AnyTimeBasedIff(cs: seq<RuleCondition>)
    ensures (exists c | c in cs :: IsTimeBased(c)) <==> exists l | l in LeavesOfAll(cs) :: IsTimeLeaf(l)
    decreases cs, 0
  {
    if cs != [] {
      TimeBasedIff(cs[0]);
      AnyTimeBasedIff(cs[1..]);
      assert cs == [cs[0]] + cs[1..];
    }
  }

  /** When a sweep has come to its device: the alert is resolved if cleared, and there if it takes no report to fire. */
  ghost predicate SettledBySweep(cfg: Config, c: Core, r: ManagedRule, ctx: Context) {
    var key := Key(r.rule.id, ctx.edgeId, ctx.deviceId);
    && (RuleIsCleared(r.rule, ctx, c.now) ==> key !in c.active)
    && (RuleEvaluate(r.rule, ctx, c.now) && (exists l | l in Leaves(r.rule.condition) :: IsTimeLeaf(l)) ==>
          AlertRuns.UpToDate(cfg, c, key, r.suppressRepeat) || AlertRuns.Excused(cfg, c, r, key))
  }

  lemma FireSettles(cfg: Config, c: Core, r: ManagedRule, key: Key)
    requires key.rule == r.rule.id
    ensures var d := FireRule(c, cfg, r, key);
            AlertRuns.UpToDate(cfg, d, key, r.suppressRepeat) || AlertRuns.Excused(cfg, d, r, key)
  {
    AlertRuns.FireOnlyKey(cfg, c, r, key);
    if Window(r).None? {
      AlertRuns.FireNowSettles(cfg, c, r, key, c.now);
    } else if c.now - Breach(c, key).breach[key] >= Window(r).value {
      AlertRuns.FireNowSettles(cfg, Breach(c, key), r, key, Breach(c, key).breach[key]);
    }
  }

  lemma EvaluateSettlesBySweep(cfg: Config, c: Core, r: ManagedRule, ctx: Context, d: Core)
    requires d == EvaluateRule(c, cfg, r, ctx, true)
    ensures SettledBySweep(cfg, d, r, ctx)
  {
    RuleNeverBoth(r.rule, ctx, c.now);
    TimeBasedIff(r.rule.condition);
    AlertRuns.EvaluateOnlyKey(cfg, c, r, ctx, true);
    FireSettles(cfg, c, r, Key(r.rule.id, ctx.edgeId, ctx.deviceId));
  }

  lemma StaysSettledBySweep(cfg: Config, c: Core, d: Core, r: ManagedRule, other: Key, ctx: Context)
    requires SettledBySweep(cfg, c, r, ctx) && AlertRuns.OnlyKey(c, d, other) && other.rule != r.rule.id
    ensures SettledBySweep(cfg, d, r, ctx)
  {
    assert Firing(d, r.rule.id) == Firing(c, r.rule.id);
  }

  lemma OtherRuleInSweep(cfg: Config, d: Core, r: ManagedRule, other: ManagedRule, ctx: Context, e: Core)
    requires SettledBySweep(cfg, d, r, ctx) && other.rule.id != r.rule.id && e == EvaluateRule(d, cfg, other, ctx, true)
    ensures SettledBySweep(cfg, e, r, ctx)
  {
    AlertRuns.EvaluateOnlyKey(cfg, d, other, ctx, true);
    StaysSettledBySweep(cfg, d, e, r, Key(other.rule.id, ctx.edgeId, ctx.deviceId), ctx);
  }

  lemma NextSettlesBySweep(cfg: Config, c: Core, ctx: Context, n: nat, i: nat)
    requires UniqueRules(cfg) && i < n - 1 < |cfg.rules|
    requires SettledBySweep(cfg, EvaluateRules(c, cfg, ctx, true, n - 1), cfg.rules[i], ctx)
    ensures SettledBySweep(cfg, EvaluateRules(c, cfg, ctx, true, n), cfg.rules[i], ctx)
  {
    OtherRuleInSweep(cfg, EvaluateRules(c, cfg, ctx, true, n - 1), cfg.rules[i], cfg.rules[n - 1], ctx,
                     EvaluateRules(c, cfg, ctx, true, n));
  }

  lemma LastSettlesBySweep(cfg: Config, c: Core, ctx: Context, n: nat)
    requires 0 < n <= |cfg.rules|
    ensures SettledBySweep(cfg, EvaluateRules(c, cfg, ctx, true, n), cfg.rules[n - 1], ctx)
  {
    EvaluateSettlesBySweep(cfg, EvaluateRules(c, cfg, ctx, true, n - 1), cfg.rules[n - 1], ctx,
                           EvaluateRules(c, cfg, ctx, true, n));
  }

  lemma {:induction false} RulesSettleBySweep(cfg: Config, c: Core, ctx: Context, n: nat, i: nat)
    requires UniqueRules(cfg) && i < n <= |cfg.rules|
    ensures SettledBySweep(cfg, EvaluateRules(c, cfg, ctx, true, n), cfg.rules[i], ctx)
  {
    if i == n - 1 {
      LastSettlesBySweep(cfg, c, ctx, n);
    } else {
      RulesSettleBySweep(cfg, c, ctx, n - 1, i);
      NextSettlesBySweep(cfg, c, ctx, n, i);
    }
  }

  /** The alert of that key is as it was. */
  ghost predicate SameAlert(c: Core, d: Core, key: Key) {
    (key in d.active <==> key in c.active) && (key in c.active ==> d.active[key] == c.active[key])
  }

  lemma RuleElsewhere(cfg: Config, c: Core, d: Core, r: ManagedRule, ctx: Context, key: Key, e: Core)
    requires SameAlert(c, d, key) && key.device != ctx.deviceId && e == EvaluateRule(d, cfg, r, ctx, true)
    ensures SameAlert(c, e, key)
  {
    AlertRuns.EvaluateOnlyKey(cfg, d, r, ctx, true);
  }

  lemma {:induction false} RulesElsewhere(cfg: Config, c: Core, ctx: Context, n: nat, key: Key)
    requires key.device != ctx.deviceId && n <= |cfg.rules|
    ensures SameAlert(c, EvaluateRules(c, cfg, ctx, true, n), key)
  {
    if n > 0 {
      RulesElsewhere(cfg, c, ctx, n - 1, key);
      RuleElsewhere(cfg, c, EvaluateRules(c, cfg, ctx, true, n - 1), cfg.rules[n - 1], ctx, key,
                    EvaluateRules(c, cfg, ctx, true, n));
    }
  }

  lemma {:induction false} LaterDevices(cfg: Config, s: State, order: seq<string>, key: Key)
    requires key.device !in order
    ensures SameAlert(s.core, SweepDevices(s, cfg, order).core, key)
    decreases |order|
  {
    if order != [] {
      if order[0] in s.devices {
        var ctx := ContextOf(s, order[0]);
        RulesElsewhere(cfg, s.core, ctx, |cfg.rules|, key);
        LaterDevices(cfg, s.(core := EvaluateRules(s.core, cfg, ctx, true, |cfg.rules|)), order[1..], key);
      } else {
        LaterDevices(cfg, s, order[1..], key);
      }
    }
  }

  lemma {:induction false} SweepSplits(cfg: Config, s: State, a: seq<string>, b: seq<string>)
    ensures SweepDevices(s, cfg, a + b) == SweepDevices(SweepDevices(s, cfg, a), cfg, b)
    decreases |a|
  {
    if a == [] {
      assert a + b == b;
    } else {
      assert (a + b)[0] == a[0] && (a + b)[1..] == a[1..] + b;
      SweepSplits(cfg, if a[0] in s.devices
                       then s.(core := EvaluateRules(s.core, cfg, ContextOf(s, a[0]), true, |cfg.rules|)) else s,
                  a[1..], b);
    }
  }

  /**
   A sweep settles every rule on every device that is known, by what is known of it: right after it
   has come to the device; and what comes after it in the sweep leaves the alert as it is.
   */
  lemma SweepSettlesDevices(cfg: Config, s: State, order: seq<string>, m: nat, i: nat)
    requires UniqueRules(cfg) && i < |cfg.rules| && m < |order| && order[m] in s.devices
    requires forall j, k :: 0 <= j < k < |order| ==> order[j] != order[k]
    ensures order[m] in SweepDevices(s, cfg, order[..m]).devices
    ensures var u, t := SweepDevices(s, cfg, order[..m + 1]).core, SweepDevices(s, cfg, order).core;
            var ctx := ContextOf(s, order[m]);
            && SettledBySweep(cfg, u, cfg.rules[i], ctx)
            && SameAlert(u, t, Key(cfg.rules[i].rule.id, ctx.edgeId, order[m]))
  {
    var before := SweepDevices(s, cfg, order[..m]);
    var ctx := ContextOf(s, order[m]);
    DevicesKnow(cfg, s, order[..m]);
    assert ContextOf(before, order[m]) == ctx;
    RulesSettleBySweep(cfg, before.core, ctx, |cfg.rules|, i);
    OneDevice(cfg, before, order[m]);
    assert order[..m + 1] == order[..m] + [order[m]];
    SweepSplits(cfg, s, order[..m], [order[m]]);
    SweepSplits(cfg, s, order[..m + 1], order[m + 1..]);
    assert order == order[..m + 1] + order[m + 1..];
    LaterDevices(cfg, SweepDevices(s, cfg, order[..m + 1]), order[m + 1..],
                 Key(cfg.rules[i].rule.id, ctx.edgeId, order[m]));
  }

  lemma OneDevice(cfg: Config, s: State, device: string)
    requires device in s.devices
    ensures SweepDevices(s, cfg, [device]).core == EvaluateRules(s.core, cfg, ContextOf(s, device), true, |cfg.rules|)
  {
    assert [device][1..] == [];
    var t := s.(core := EvaluateRules(s.core, cfg, ContextOf(s, device), true, |cfg.rules|));
    assert SweepDevices(t, cfg, []) == t;
  }

  /** A rule that takes a report to fire does nothing in a sweep unless it is cleared. */
  lemma OthersWaitForReports(cfg: Config, c: Core, r: ManagedRule, ctx: Context)
    requires !RuleIsCleared(r.rule, ctx, c.now) && forall l | l in Leaves(r.rule.condition) :: !IsTimeLeaf(l)
    ensures EvaluateRule(c, cfg, r, ctx, true) == c
  {
    TimeBasedIff(r.rule.condition);
  }

  // ------------------------------------------------------------------ when an edge is silent

  /** Detection is on, the edge has been heard of, and that is longer ago than it may be silent. */
  lemma SilentMeans(cfg: Config, s: State, edge: string)
    ensures IsSilent(s, cfg, edge) <==>
            && cfg.edgeOfflineAfterSecs > 0 && edge in s.edges
            && s.core.now > s.edges[edge] + 1000 * cfg.edgeOfflineAfterSecs
  {
  }

  /** A device that is forgotten leaves no breach behind, and a sweep none of a device that is not known. */
  lemma BreachesGo(cfg: Config, s: State, e: Event, k: Key, t: State)
    requires t == Step(cfg, s, e) && k in t.core.breach
    ensures e.DeviceRemoved? && k.device == e.device ==> e.device in s.devices && s.devices[e.device].edge != e.edge
    ensures e.RunSweep? && Sweeps(cfg, s, e) ==> k in t.core.active || k.device in t.devices
  {
  }

  // ------------------------------------------------------------------ how long a breach has lasted

  function BreachOf(c: Core, key: Key): Option<int> { if key in c.breach then Some(c.breach[key]) else None }

  /** Since when the rule has fired, after a look at it: since the look at the latest, and not at all if it does not. */
  function SinceAfter(c: Core, r: ManagedRule, ctx: Context): Option<int> {
    var since := BreachOf(c, Key(r.rule.id, ctx.edgeId, ctx.deviceId));
    if !RuleEvaluate(r.rule, ctx, c.now) then None
    else if Window(r).Some? && since.None? then Some(c.now)
    else since
  }

  ghost predicate BreachIs(d: Core, key: Key, since: Option<int>, now: int) {
    BreachOf(d, key) == since && d.now == now
  }

  lemma FireNowBreaches(cfg: Config, c: Core, r: ManagedRule, key: Key, since: int)
    ensures var d := FireNow(c, cfg, r, key, since); d.breach == c.breach && d.now == c.now
  {
  }

  lemma FireBreaches(cfg: Config, c: Core, r: ManagedRule, key: Key, d: Core)
    requires d == FireRule(c, cfg, r, key)
    ensures BreachOf(d, key) == if Window(r).Some? && BreachOf(c, key).None? then Some(c.now) else BreachOf(c, key)
    ensures d.now == c.now
  {
    if Window(r).None? {
      FireNowBreaches(cfg, c, r, key, c.now);
    } else {
      FireNowBreaches(cfg, Breach(c, key), r, key, Breach(c, key).breach[key]);
    }
  }

  lemma LookBreaches(cfg: Config, d: Core, r: ManagedRule, ctx: Context, key: Key, e: Core)
    requires key == Key(r.rule.id, ctx.edgeId, ctx.deviceId) && e == EvaluateRule(d, cfg, r, ctx, false)
    ensures BreachIs(e, key, SinceAfter(d, r, ctx), d.now)
  {
    RuleNeverBoth(r.rule, ctx, d.now);
    if !RuleIsCleared(r.rule, ctx, d.now) && RuleEvaluate(r.rule, ctx, d.now) {
      FireBreaches(cfg, d, r, key, e);
    }
  }

  lemma OwnLook(cfg: Config, c: Core, d: Core, r: ManagedRule, ctx: Context, e: Core)
    requires BreachIs(d, Key(r.rule.id, ctx.edgeId, ctx.deviceId),
                      BreachOf(c, Key(r.rule.id, ctx.edgeId, ctx.deviceId)), c.now)
    requires e == EvaluateRule(d, cfg, r, ctx, false)
    ensures BreachIs(e, Key(r.rule.id, ctx.edgeId, ctx.deviceId), SinceAfter(c, r, ctx), c.now)
  {
    LookBreaches(cfg, d, r, ctx, Key(r.rule.id, ctx.edgeId, ctx.deviceId), e);
  }

  lemma OtherLook(cfg: Config, d: Core, r: ManagedRule, ctx: Context, key: Key, since: Option<int>, now: int, e: Core)
    requires BreachIs(d, key, since, now) && key != Key(r.rule.id, ctx.edgeId, ctx.deviceId)
    requires e == EvaluateRule(d, cfg, r, ctx, false)
    ensures BreachIs(e, key, since, now)
  {
    AlertRuns.EvaluateOnlyKey(cfg, d, r, ctx, false);
  }

  /** After the first `n` rules have been looked at. */
  function SinceThen(cfg: Config, c: Core, ctx: Context, n: nat, i: nat): Option<int>
    requires i < |cfg.rules|
  {
    if i < n then SinceAfter(c, cfg.rules[i], ctx)
    else BreachOf(c, Key(cfg.rules[i].rule.id, ctx.edgeId, ctx.deviceId))
  }

  lemma NextLook(cfg: Config, c: Core, ctx: Context, n: nat, i: nat)
    requires UniqueRules(cfg) && 0 < n <= |cfg.rules| && i < |cfg.rules|
    requires BreachIs(EvaluateRules(c, cfg, ctx, false, n - 1), Key(cfg.rules[i].rule.id, ctx.edgeId, ctx.deviceId),
                      SinceThen(cfg, c, ctx, n - 1, i), c.now)
    ensures BreachIs(EvaluateRules(c, cfg, ctx, false, n), Key(cfg.rules[i].rule.id, ctx.edgeId, ctx.deviceId),
                     SinceThen(cfg, c, ctx, n, i), c.now)
  {
    if i == n - 1 {
      OwnLook(cfg, c, EvaluateRules(c, cfg, ctx, false, n - 1), cfg.rules[i], ctx,
              EvaluateRules(c, cfg, ctx, false, n));
    } else {
      OtherLook(cfg, EvaluateRules(c, cfg, ctx, false, n - 1), cfg.rules[n - 1], ctx,
                Key(cfg.rules[i].rule.id, ctx.edgeId, ctx.deviceId), SinceThen(cfg, c, ctx, n - 1, i), c.now,
                EvaluateRules(c, cfg, ctx, false, n));
    }
  }

  lemma {:induction false} RulesBreach(cfg: Config, c: Core, ctx: Context, n: nat, i: nat)
    requires UniqueRules(cfg) && n <= |cfg.rules| && i < |cfg.rules|
    ensures BreachIs(EvaluateRules(c, cfg, ctx, false, n), Key(cfg.rules[i].rule.id, ctx.edgeId, ctx.deviceId),
                     SinceThen(cfg, c, ctx, n, i), c.now)
  {
    if n > 0 {
      RulesBreach(cfg, c, ctx, n - 1, i);
      NextLook(cfg, c, ctx, n, i);
    }
  }

  /**
   A report begins a breach of a rule with a window, if there is none, lets one that is going on go on
   from where it began, and ends it if the rule does not fire; on other devices it changes nothing.
   */
  lemma ReportBreaches(cfg: Config, s: State, e: Event, i: nat, t: State)
    requires UniqueRules(cfg) && i < |cfg.rules| && e.StatusReport? && t == Step(cfg, s, e)
    ensures var r, ctx := cfg.rules[i], ReportContext(s, e.edge, e.device, e.status, e.metrics);
            var since := BreachOf(s.core, Key(r.rule.id, e.edge, e.device));
            BreachOf(t.core, Key(r.rule.id, e.edge, e.device)) ==
            if !RuleEvaluate(r.rule, ctx, s.core.now) then None
            else if Window(r).Some? && since.None? then Some(s.core.now)
            else since
  {
    RulesBreach(cfg, MarkEdgeSeen(s, e.edge, s.core.now).core,
                ReportContext(s, e.edge, e.device, e.status, e.metrics), |cfg.rules|, i);
  }

  lemma NextOnOther(cfg: Config, c: Core, ctx: Context, n: nat, key: Key)
    requires 0 < n <= |cfg.rules| && (key.edge != ctx.edgeId || key.device != ctx.deviceId)
    requires BreachIs(EvaluateRules(c, cfg, ctx, false, n - 1), key, BreachOf(c, key), c.now)
    ensures BreachIs(EvaluateRules(c, cfg, ctx, false, n), key, BreachOf(c, key), c.now)
  {
    OtherLook(cfg, EvaluateRules(c, cfg, ctx, false, n - 1), cfg.rules[n - 1], ctx, key, BreachOf(c, key), c.now,
              EvaluateRules(c, cfg, ctx, false, n));
  }

  lemma {:induction false} RulesOnOther(cfg: Config, c: Core, ctx: Context, n: nat, key: Key)
    requires n <= |cfg.rules| && (key.edge != ctx.edgeId || key.device != ctx.deviceId)
    ensures BreachIs(EvaluateRules(c, cfg, ctx, false, n), key, BreachOf(c, key), c.now)
  {
    if n > 0 {
      RulesOnOther(cfg, c, ctx, n - 1, key);
      NextOnOther(cfg, c, ctx, n, key);
    }
  }

  lemma ReportsKeepBreaches(cfg: Config, s: State, e: Event, key: Key, t: State)
    requires t == Step(cfg, s, e) && (e.EdgeAlert? || e.PredictionReport?)
    ensures BreachOf(t.core, key) == BreachOf(s.core, key)
  {
  }

  /** Nothing but reports and sweeps of the device, and its removal, touches a breach. */
  lemma OthersKeepBreaches(cfg: Config, s: State, e: Event, key: Key, t: State)
    requires t == Step(cfg, s, e) && !e.RunSweep?
    requires e.StatusReport? ==> key.edge != e.edge || key.device != e.device
    requires e.DeviceRemoved? ==> key.device != e.device
    ensures BreachOf(t.core, key) == BreachOf(s.core, key)
  {
    if e.StatusReport? {
      RulesOnOther(cfg, MarkEdgeSeen(s, e.edge, s.core.now).core,
                   ReportContext(s, e.edge, e.device, e.status, e.metrics), |cfg.rules|, key);
    } else if e.EdgeAlert? || e.PredictionReport? {
      ReportsKeepBreaches(cfg, s, e, key, t);
    }
  }
}
