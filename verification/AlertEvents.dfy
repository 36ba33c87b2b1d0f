/**
 What becomes of an alert, told from the events of the run: when it is acknowledged, and when it ends
 (crates/nimon-hub/src/alert/manager.rs:684-700, 819-1030, 1626-1642 and 1740-1834).
 */
module AlertEvents {
  import opened Basics
  import opened Rules
  import opened AlertManager
  import opened AlertLaws
  import opened AlertHolds
  import opened OfflineAlerts

  // ------------------------------------------------------------------ what a step makes of a record

  /** Acknowledgements are as they were, and new alerts have none. */
  ghost predicate AcksKept(c: Core, d: Core) {
    && |c.book| <= |d.book| && d.now == c.now
    && (forall j :: 0 <= j < |c.book| ==> d.book[j].acknowledged == c.book[j].acknowledged)
    && (forall j :: |c.book| <= j < |d.book| ==> d.book[j].acknowledged.None?)
  }

  /** Record `i`, if there is one, has ended of itself exactly if it was open and `ends`. */
  ghost predicate Becomes(c: Core, d: Core, i: nat, ends: bool) {
    && AcksKept(c, d)
    && (i < |c.book| ==>
          && d.book[i].key == c.book[i].key && c.book[i].fires <= d.book[i].fires
          && d.book[i].ended == if c.book[i].ended.None? && ends then Some(Ending(c.now, false)) else c.book[i].ended)
  }

  lemma BecomesChain(c: Core, d: Core, e: Core, i: nat, first: bool, second: bool)
    requires Becomes(c, d, i, first) && Becomes(d, e, i, second)
    ensures Becomes(c, e, i, first || second)
  {
    forall j | 0 <= j < |c.book|
      ensures e.book[j].acknowledged == c.book[j].acknowledged
    {
      assert d.book[j].acknowledged == c.book[j].acknowledged;
    }
    forall j | |c.book| <= j < |e.book|
      ensures e.book[j].acknowledged.None?
    {
      assert j < |d.book| ==> d.book[j].acknowledged.None?;
    }
  }

  predicate Among(c: Core, i: nat, doomed: set<Key>) { i < |c.book| && c.book[i].key in doomed }

  lemma EndBecomes(c: Core, doomed: set<Key>, i: nat)
    requires Booked(c)
    ensures Becomes(c, End(c, doomed, false), i, Among(c, i, doomed))
  {
    assert forall j :: 0 <= j < |c.book| ==> (c.book[j].ended.None? <==> IsOpen(c, j));
  }

  lemma AgainBecomes(c: Core, key: Key, i: nat)
    requires key in c.active
    ensures Becomes(c, Touch(c, key), i, false) && Becomes(c, Refire(c, key), i, false)
  {
  }

  lemma OpenBecomes(c: Core, key: Key, since: int, i: nat)
    ensures Becomes(c, Open(c, key, since), i, false)
    ensures Becomes(c, Open(c.(hold := c.hold - {key}), key, since), i, false)
  {
  }

  lemma FireNowBecomes(cfg: Config, c: Core, r: ManagedRule, key: Key, since: int, i: nat)
    ensures Becomes(c, FireNow(c, cfg, r, key, since), i, false)
  {
    if key in c.active {
      AgainBecomes(c, key, i);
    } else {
      OpenBecomes(c, key, since, i);
    }
  }

  lemma ReportBecomes(cfg: Config, c: Core, key: Key, i: nat)
    ensures Becomes(c, Report(c, cfg, key), i, false)
  {
    if key in c.active {
      AgainBecomes(c, key, i);
    } else {
      OpenBecomes(c, key, c.now, i);
    }
  }

  lemma FireBecomes(cfg: Config, c: Core, r: ManagedRule, key: Key, i: nat)
    ensures Becomes(c, FireRule(c, cfg, r, key), i, false)
  {
    if Window(r).None? {
      FireNowBecomes(cfg, c, r, key, c.now, i);
    } else {
      FireNowBecomes(cfg, Breach(c, key), r, key, Breach(c, key).breach[key], i);
    }
  }

  /** Alert `i` is that of the rule on that device, and the rule is cleared. */
  ghost predicate ClearedBy(c: Core, i: nat, r: ManagedRule, ctx: Context, now: int) {
    i < |c.book| && c.book[i].key == Key(r.rule.id, ctx.edgeId, ctx.deviceId) && RuleIsCleared(r.rule, ctx, now)
  }

  lemma EvaluateBecomes(cfg: Config, c: Core, r: ManagedRule, ctx: Context, sweep: bool, i: nat, d: Core)
    requires Booked(c) && d == EvaluateRule(c, cfg, r, ctx, sweep)
    ensures Becomes(c, d, i, ClearedBy(c, i, r, ctx, c.now))
  {
    var key := Key(r.rule.id, ctx.edgeId, ctx.deviceId);
    if RuleIsCleared(r.rule, ctx, c.now) {
      EndBecomes(Quiet(c, key), {key}, i);
    } else {
      FireBecomes(cfg, c, r, key, i);
    }
  }

  /** One of the first `n` rules is cleared whose alert it is. */
  ghost predicate ClearedByAny(cfg: Config, c: Core, i: nat, ctx: Context, now: int, n: nat)
    requires n <= |cfg.rules|
  {
    exists k :: 0 <= k < n && ClearedBy(c, i, cfg.rules[k], ctx, now)
  }

  lemma OneMoreCleared(cfg: Config, c: Core, d: Core, i: nat, ctx: Context, n: nat, ends: bool)
    requires 0 < n <= |cfg.rules| && Becomes(c, d, i, ends)
    ensures i < |c.book| ==>
              (ClearedByAny(cfg, c, i, ctx, c.now, n) <==>
               ClearedByAny(cfg, c, i, ctx, c.now, n - 1) || ClearedBy(d, i, cfg.rules[n - 1], ctx, c.now))
  {
    if i < |c.book| && ClearedBy(d, i, cfg.rules[n - 1], ctx, c.now) {
      assert ClearedBy(c, i, cfg.rules[n - 1], ctx, c.now);
    }
    if ClearedByAny(cfg, c, i, ctx, c.now, n) {
      var k :| 0 <= k < n && ClearedBy(c, i, cfg.rules[k], ctx, c.now);
      assert k == n - 1 ==> ClearedBy(d, i, cfg.rules[n - 1], ctx, c.now);
    }
  }

  /** Whether records that are not there yet end does not matter. */
  lemma BecomesSame(c: Core, d: Core, i: nat, ends: bool, also: bool)
    requires Becomes(c, d, i, ends) && (i < |c.book| ==> ends == also)
    ensures Becomes(c, d, i, also)
  {
  }

  lemma OneMoreBecomes(cfg: Config, c: Core, d: Core, ctx: Context, sweep: bool, n: nat, i: nat, e: Core)
    requires 0 < n <= |cfg.rules| && Booked(d) && Becomes(c, d, i, ClearedByAny(cfg, c, i, ctx, c.now, n - 1))
    requires e == EvaluateRule(d, cfg, cfg.rules[n - 1], ctx, sweep)
    ensures Becomes(c, e, i, ClearedByAny(cfg, c, i, ctx, c.now, n))
  {
    var before := ClearedByAny(cfg, c, i, ctx, c.now, n - 1);
    var last := ClearedBy(d, i, cfg.rules[n - 1], ctx, d.now);
    EvaluateBecomes(cfg, d, cfg.rules[n - 1], ctx, sweep, i, e);
    BecomesChain(c, d, e, i, before, last);
    OneMoreCleared(cfg, c, d, i, ctx, n, before);
    BecomesSame(c, e, i, before || last, ClearedByAny(cfg, c, i, ctx, c.now, n));
  }

  lemma NextRuleBecomes(cfg: Config, c: Core, ctx: Context, sweep: bool, n: nat, i: nat)
    requires 0 < n <= |cfg.rules| && Booked(EvaluateRules(c, cfg, ctx, sweep, n - 1))
    requires Becomes(c, EvaluateRules(c, cfg, ctx, sweep, n - 1), i, ClearedByAny(cfg, c, i, ctx, c.now, n - 1))
    ensures Becomes(c, EvaluateRules(c, cfg, ctx, sweep, n), i, ClearedByAny(cfg, c, i, ctx, c.now, n))
  {
    OneMoreBecomes(cfg, c, EvaluateRules(c, cfg, ctx, sweep, n - 1), ctx, sweep, n, i,
                   EvaluateRules(c, cfg, ctx, sweep, n));
  }

  lemma {:induction false} BookedRulesBecome(cfg: Config, c: Core, ctx: Context, sweep: bool, n: nat, i: nat)
    requires n <= |cfg.rules| && forall m | 0 <= m < n :: Booked(EvaluateRules(c, cfg, ctx, sweep, m))
    ensures Becomes(c, EvaluateRules(c, cfg, ctx, sweep, n), i, ClearedByAny(cfg, c, i, ctx, c.now, n))
  {
    if n > 0 {
      BookedRulesBecome(cfg, c, ctx, sweep, n - 1, i);
      NextRuleBecomes(cfg, c, ctx, sweep, n, i);
    }
  }

  lemma RulesBecome(cfg: Config, c: Core, ctx: Context, sweep: bool, n: nat, i: nat)
    requires Inv(cfg, c) && UniqueRules(cfg) && n <= |cfg.rules|
    ensures Becomes(c, EvaluateRules(c, cfg, ctx, sweep, n), i, ClearedByAny(cfg, c, i, ctx, c.now, n))
  {
    forall m | 0 <= m < n
      ensures Booked(EvaluateRules(c, cfg, ctx, sweep, m))
    {
      RulesBooked(cfg, c, ctx, sweep, m);
    }
    BookedRulesBecome(cfg, c, ctx, sweep, n, i);
  }

  // ------------------------------------------------------------------ what ends an alert, event by event

  /** It is the offline alert of the edge. */
  predicate IsOffline(c: Core, i: nat, edge: string) { i < |c.book| && c.book[i].key == Key(EDGE_OFFLINE, edge, "") }

  lemma SeenBecomes(s: State, edge: string, at: int, i: nat)
    requires Booked(s.core)
    ensures Becomes(s.core, MarkEdgeSeen(s, edge, at).core, i, IsOffline(s.core, i, edge))
  {
    EndBecomes(s.core, {Key(EDGE_OFFLINE, edge, "")}, i);
  }

  /** An edge alert on a device that its edge reports healthy. */
  predicate IsEdgeAlert(c: Core, i: nat, edge: string, device: string) {
    && i < |c.book| && c.book[i].key.edge == edge && c.book[i].key.device == device
    && EDGE_PREFIX <= c.book[i].key.rule
  }

  ghost predicate StatusEnds(cfg: Config, s: State, i: nat, e: Event)
    requires e.StatusReport?
  {
    || IsOffline(s.core, i, e.edge)
    || ClearedByAny(cfg, s.core, i, ReportContext(s, e.edge, e.device, e.status, e.metrics), s.core.now, |cfg.rules|)
    || (e.status.Healthy? && IsEdgeAlert(s.core, i, e.edge, e.device))
  }

  lemma HealthyBecomes(c: Core, edge: string, device: string, status: HealthStatus, i: nat, d: Core)
    requires Booked(c)
    requires d == if status.Healthy? then End(c, ActiveWhere(c, edge, device, EDGE_PREFIX), false) else c
    ensures Becomes(c, d, i, status.Healthy? && IsEdgeAlert(c, i, edge, device))
  {
    EndBecomes(c, ActiveWhere(c, edge, device, EDGE_PREFIX), i);
    if i < |c.book| && c.book[i].ended.None? {
      assert IsOpen(c, i);
    }
  }

  lemma StatusBecomes(cfg: Config, s: State, e: Event, i: nat, t: State)
    requires Inv(cfg, s.core) && UniqueRules(cfg) && e.StatusReport? && t == Step(cfg, s, e)
    ensures Becomes(s.core, t.core, i, StatusEnds(cfg, s, i, e))
  {
    var c := s.core;
    var d := MarkEdgeSeen(s, e.edge, c.now).core;
    var ctx := ReportContext(s, e.edge, e.device, e.status, e.metrics);
    var f := EvaluateRules(d, cfg, ctx, false, |cfg.rules|);
    SeenBecomes(s, e.edge, c.now, i);
    SeenKeeps(cfg, s, e.edge, c.now);
    RulesBecome(cfg, d, ctx, false, |cfg.rules|, i);
    RulesBooked(cfg, d, ctx, false, |cfg.rules|);
    HealthyBecomes(f, e.edge, e.device, e.status, i, t.core);
    StatusPartsBecome(cfg, s, e, i, d, f, t.core);
  }

  lemma StatusPartsBecome(cfg: Config, s: State, e: Event, i: nat, d: Core, f: Core, g: Core)
    requires e.StatusReport?
    requires Becomes(s.core, d, i, IsOffline(s.core, i, e.edge))
    requires var ctx := ReportContext(s, e.edge, e.device, e.status, e.metrics);
             Becomes(d, f, i, ClearedByAny(cfg, d, i, ctx, d.now, |cfg.rules|))
    requires Becomes(f, g, i, e.status.Healthy? && IsEdgeAlert(f, i, e.edge, e.device))
    ensures Becomes(s.core, g, i, StatusEnds(cfg, s, i, e))
  {
    var ctx := ReportContext(s, e.edge, e.device, e.status, e.metrics);
    var first := IsOffline(s.core, i, e.edge);
    var second := ClearedByAny(cfg, d, i, ctx, d.now, |cfg.rules|);
    var third := e.status.Healthy? && IsEdgeAlert(f, i, e.edge, e.device);
    BecomesChain(s.core, d, f, i, first, second);
    BecomesChain(s.core, f, g, i, first || second, third);
    if i < |s.core.book| {
      SameRecordCleared(cfg, s.core, d, i, ctx, d.now);
    }
    BecomesSame(s.core, g, i, first || second || third, StatusEnds(cfg, s, i, e));
  }

  lemma SameRecordCleared(cfg: Config, c: Core, d: Core, i: nat, ctx: Context, now: int)
    requires i < |c.book| && i < |d.book| && c.book[i].key == d.book[i].key
    ensures ClearedByAny(cfg, c, i, ctx, now, |cfg.rules|) == ClearedByAny(cfg, d, i, ctx, now, |cfg.rules|)
  {
    assert forall k | 0 <= k < |cfg.rules| ::
        ClearedBy(c, i, cfg.rules[k], ctx, now) == ClearedBy(d, i, cfg.rules[k], ctx, now);
  }

  /** A live session of its edge has been heard from lately enough. */
  ghost predicate SessionEnds(cfg: Config, c: Core, i: nat, sessions: seq<(string, int)>) {
    i < |c.book| && IsOffline(c, i, c.book[i].key.edge) && HeardOf(cfg, c.now, sessions, c.book[i].key.edge)
  }

  lemma {:induction false} SessionsBecome(cfg: Config, s: State, sessions: seq<(string, int)>, i: nat)
    requires Inv(cfg, s.core)
    ensures Becomes(s.core, SeeSessions(s, cfg, sessions).core, i, SessionEnds(cfg, s.core, i, sessions))
    decreases |sessions|
  {
    if sessions != [] {
      var edge, last := sessions[0].0, sessions[0].1;
      var recent := cfg.edgeOfflineAfterSecs > 0 && s.core.now - last <= 1000 * cfg.edgeOfflineAfterSecs;
      var t := if recent then MarkEdgeSeen(s, edge, last) else s.(edges := s.edges[edge := Later(s.edges, edge, last)]);
      SeenBecomes(s, edge, last, i);
      SeenKeeps(cfg, s, edge, last);
      SessionsBecome(cfg, t, sessions[1..], i);
      FirstSessionBecomes(cfg, s.core, t.core, SeeSessions(s, cfg, sessions).core, sessions, i);
    }
  }

  lemma FirstSessionBecomes(cfg: Config, c: Core, d: Core, e: Core, sessions: seq<(string, int)>, i: nat)
    requires sessions != []
    requires var recent := cfg.edgeOfflineAfterSecs > 0 && c.now - sessions[0].1 <= 1000 * cfg.edgeOfflineAfterSecs;
             Becomes(c, d, i, recent && IsOffline(c, i, sessions[0].0))
    requires Becomes(d, e, i, SessionEnds(cfg, d, i, sessions[1..]))
    ensures Becomes(c, e, i, SessionEnds(cfg, c, i, sessions))
  {
    var recent := cfg.edgeOfflineAfterSecs > 0 && c.now - sessions[0].1 <= 1000 * cfg.edgeOfflineAfterSecs;
    var first, rest := recent && IsOffline(c, i, sessions[0].0), SessionEnds(cfg, d, i, sessions[1..]);
    BecomesChain(c, d, e, i, first, rest);
    if i < |c.book| {
      FirstHeardOf(cfg, c.now, sessions, c.book[i].key.edge);
    }
    BecomesSame(c, e, i, first || rest, SessionEnds(cfg, c, i, sessions));
  }

  /** Its device is one of these, and by what is known of that its rule is cleared. */
  ghost predicate DeviceEnds(cfg: Config, s: State, i: nat, order: seq<string>) {
    && i < |s.core.book| && s.core.book[i].key.device in order && s.core.book[i].key.device in s.devices
    && ClearedByAny(cfg, s.core, i, ContextOf(s, s.core.book[i].key.device), s.core.now, |cfg.rules|)
  }

  lemma {:induction false} DevicesBecome(cfg: Config, s: State, order: seq<string>, i: nat)
    requires Inv(cfg, s.core) && UniqueRules(cfg)
    ensures Becomes(s.core, SweepDevices(s, cfg, order).core, i, DeviceEnds(cfg, s, i, order))
    decreases |order|
  {
    if order != [] {
      var t := if order[0] in s.devices
        then s.(core := EvaluateRules(s.core, cfg, ContextOf(s, order[0]), true, |cfg.rules|)) else s;
      if order[0] in s.devices {
        RulesBecome(cfg, s.core, ContextOf(s, order[0]), true, |cfg.rules|, i);
        EvaluateRulesKeeps(cfg, s.core, ContextOf(s, order[0]), true, |cfg.rules|);
      }
      DevicesBecome(cfg, t, order[1..], i);
      FirstDeviceBecomes(cfg, s, t, order, i, SweepDevices(s, cfg, order).core);
    }
  }

  lemma FirstDeviceBecomes(cfg: Config, s: State, t: State, order: seq<string>, i: nat, e: Core)
    requires order != [] && t.devices == s.devices && t.predictions == s.predictions
    requires Becomes(s.core, t.core, i,
                     order[0] in s.devices
                     && ClearedByAny(cfg, s.core, i, ContextOf(s, order[0]), s.core.now, |cfg.rules|))
    requires Becomes(t.core, e, i, DeviceEnds(cfg, t, i, order[1..]))
    ensures Becomes(s.core, e, i, DeviceEnds(cfg, s, i, order))
  {
    var first := order[0] in s.devices
      && ClearedByAny(cfg, s.core, i, ContextOf(s, order[0]), s.core.now, |cfg.rules|);
    var rest := DeviceEnds(cfg, t, i, order[1..]);
    BecomesChain(s.core, t.core, e, i, first, rest);
    if i < |s.core.book| {
      var device := s.core.book[i].key.device;
      assert device in order <==> device == order[0] || device in order[1..];
      if first {
        assert device == order[0];
      }
      if device in s.devices {
        assert ContextOf(t, device) == ContextOf(s, device);
        SameRecordCleared(cfg, s.core, t.core, i, ContextOf(s, device), s.core.now);
      }
    }
    BecomesSame(s.core, e, i, first || rest, DeviceEnds(cfg, s, i, order));
  }

  /** A reported alert has not been reported again for longer than its time, which is a minute at least. */
  ghost predicate Overdue(cfg: Config, c: Core, key: Key) {
    key in c.active &&
    var age := c.now - c.active[key].lastReported;
    || (EDGE_PREFIX <= key.rule && age > 60000 && age > 60000 * cfg.edgeTtlMinutes)
    || (PREDICTION_PREFIX <= key.rule && age > 60000 && age > 60000 * cfg.predictionTtlMinutes)
  }

  /** When a sweep comes to overdue alerts. */
  function AtExpiry(cfg: Config, s: State, e: Event): Core
    requires e.RunSweep?
  {
    SweepDevices(SeeSessions(s, cfg, e.sessions), cfg, e.deviceOrder).core
  }

  ghost predicate SweepEnds(cfg: Config, s: State, i: nat, e: Event)
    requires e.RunSweep?
  {
    && i < |s.core.book|
    && (|| SessionEnds(cfg, s.core, i, e.sessions)
        || DeviceEnds(cfg, s, i, e.deviceOrder)
        || Overdue(cfg, AtExpiry(cfg, s, e), s.core.book[i].key))
  }

  lemma ExpiryBecomes(cfg: Config, c: Core, i: nat)
    requires Booked(c)
    ensures Becomes(c, End(c, Expired(c, cfg), false), i, i < |c.book| && Overdue(cfg, c, c.book[i].key))
  {
    EndBecomes(c, Expired(c, cfg), i);
  }

  lemma {:induction false} OfflineBecomes(cfg: Config, s: State, order: seq<string>, i: nat)
    ensures Becomes(s.core, OpenOffline(s, cfg, order).core, i, false)
    decreases |order|
  {
    if order != [] {
      var key := Key(EDGE_OFFLINE, order[0], "");
      var t := if IsSilent(s, cfg, order[0]) && order[0] !in s.latched && key !in s.core.active
        then s.(core := Open(s.core, key, s.core.now)) else s;
      OpenBecomes(s.core, key, s.core.now, i);
      OfflineBecomes(cfg, t, order[1..], i);
      BecomesChain(s.core, t.core, OpenOffline(s, cfg, order).core, i, false, false);
    }
  }

  lemma SessionsKnow(cfg: Config, s: State, sessions: seq<(string, int)>)
    ensures var t := SeeSessions(s, cfg, sessions); t.devices == s.devices && t.predictions == s.predictions
    decreases |sessions|
  {
    if sessions != [] {
      var edge, last := sessions[0].0, sessions[0].1;
      var recent := cfg.edgeOfflineAfterSecs > 0 && s.core.now - last <= 1000 * cfg.edgeOfflineAfterSecs;
      SessionsKnow(cfg, if recent then MarkEdgeSeen(s, edge, last)
                        else s.(edges := s.edges[edge := Later(s.edges, edge, last)]), sessions[1..]);
    }
  }

  /** Sessions and devices, which come first. */
  lemma SweepBegins(cfg: Config, s: State, e: Event, i: nat)
    requires Inv(cfg, s.core) && UniqueRules(cfg) && e.RunSweep?
    ensures Inv(cfg, AtExpiry(cfg, s, e))
    ensures Becomes(s.core, AtExpiry(cfg, s, e), i,
                    SessionEnds(cfg, s.core, i, e.sessions) || DeviceEnds(cfg, s, i, e.deviceOrder))
  {
    var t := SeeSessions(s, cfg, e.sessions);
    SessionsBecome(cfg, s, e.sessions, i);
    SessionsKeep(cfg, s, e.sessions);
    SessionsKnow(cfg, s, e.sessions);
    DevicesBecome(cfg, t, e.deviceOrder, i);
    SweepDevicesKeep(cfg, t, e.deviceOrder);
    BecomesChain(s.core, t.core, AtExpiry(cfg, s, e), i,
                 SessionEnds(cfg, s.core, i, e.sessions), DeviceEnds(cfg, t, i, e.deviceOrder));
    SameDeviceEnds(cfg, s, t, i, e.deviceOrder);
    BecomesSame(s.core, AtExpiry(cfg, s, e), i,
                SessionEnds(cfg, s.core, i, e.sessions) || DeviceEnds(cfg, t, i, e.deviceOrder),
                SessionEnds(cfg, s.core, i, e.sessions) || DeviceEnds(cfg, s, i, e.deviceOrder));
  }

  lemma SameDeviceEnds(cfg: Config, s: State, t: State, i: nat, order: seq<string>)
    requires t.devices == s.devices && t.predictions == s.predictions && t.core.now == s.core.now
    requires i < |s.core.book| ==> i < |t.core.book| && t.core.book[i].key == s.core.book[i].key
    ensures i < |s.core.book| ==> DeviceEnds(cfg, t, i, order) == DeviceEnds(cfg, s, i, order)
  {
    if i < |s.core.book| && s.core.book[i].key.device in s.devices {
      assert ContextOf(t, s.core.book[i].key.device) == ContextOf(s, s.core.book[i].key.device);
      SameRecordCleared(cfg, s.core, t.core, i, ContextOf(s, s.core.book[i].key.device), s.core.now);
    }
  }

  lemma SweepBecomes(cfg: Config, s: State, e: Event, i: nat, t: State)
    requires Inv(cfg, s.core) && UniqueRules(cfg) && e.RunSweep?
    requires t == OnSweep(s, cfg, e.sessions, e.deviceOrder, e.edgeOrder)
    ensures Becomes(s.core, t.core, i, SweepEnds(cfg, s, i, e))
  {
    var x := AtExpiry(cfg, s, e);
    var b := BeforeOffline(s, cfg, e.sessions, e.deviceOrder);
    var o := OpenOffline(b, cfg, e.edgeOrder);
    SweepBegins(cfg, s, e, i);
    ExpiryBecomes(cfg, x, i);
    OfflineBecomes(cfg, b, e.edgeOrder, i);
    assert t.core.book == o.core.book && t.core.now == o.core.now;
    SweepPartsBecome(cfg, s, e, i, x, b.core, o.core);
  }

  lemma SweepPartsBecome(cfg: Config, s: State, e: Event, i: nat, x: Core, b: Core, o: Core)
    requires e.RunSweep? && x == AtExpiry(cfg, s, e)
    requires Becomes(s.core, x, i, SessionEnds(cfg, s.core, i, e.sessions) || DeviceEnds(cfg, s, i, e.deviceOrder))
    requires Becomes(x, b, i, i < |x.book| && Overdue(cfg, x, x.book[i].key))
    requires Becomes(b, o, i, false)
    ensures Becomes(s.core, o, i, SweepEnds(cfg, s, i, e))
  {
    var first := SessionEnds(cfg, s.core, i, e.sessions) || DeviceEnds(cfg, s, i, e.deviceOrder);
    var second := i < |x.book| && Overdue(cfg, x, x.book[i].key);
    BecomesChain(s.core, x, b, i, first, second);
    BecomesChain(s.core, b, o, i, first || second, false);
    BecomesSame(s.core, o, i, first || second, SweepEnds(cfg, s, i, e));
  }

  lemma RemovalBecomes(cfg: Config, s: State, edge: string, device: string, i: nat, t: State)
    requires Inv(cfg, s.core) && t == OnRemoved(s, cfg, edge, device)
    ensures Becomes(s.core, t.core, i,
                    i < |s.core.book| && s.core.book[i].key.edge == edge && s.core.book[i].key.device == device)
  {
    var f := if device in s.devices && s.devices[device].edge != edge then s else ForgetAll(s, cfg, {device});
    ForgetKeeps(cfg, s, {device});
    EndBecomes(f.core, ActiveWhere(f.core, edge, device, ""), i);
    assert f.core.book == s.core.book && f.core.now == s.core.now && f.core.active == s.core.active;
    if i < |s.core.book| && s.core.book[i].ended.None? {
      assert IsOpen(s.core, i);
    }
  }

  /** The event ends alert `i`, which is open, of itself. */
  ghost predicate Ends(cfg: Config, s: State, i: nat, e: Event) {
    match e
    case StatusReport(_, _, _, _) => StatusEnds(cfg, s, i, e)
    case EdgeSeen(edge) => IsOffline(s.core, i, edge)
    case DeviceRemoved(edge, device) =>
      i < |s.core.book| && s.core.book[i].key.edge == edge && s.core.book[i].key.device == device
    case RunSweep(_, _, _) => Sweeps(cfg, s, e) && SweepEnds(cfg, s, i, e)
    case _ => false
  }

  lemma SameBecomes(c: Core, d: Core, i: nat)
    requires d.book == c.book && d.now == c.now
    ensures Becomes(c, d, i, false)
  {
  }

  lemma QuietEventBecomes(cfg: Config, s: State, e: Event, i: nat, t: State)
    requires e.EdgeAlert? || e.PredictionReport? || e.EdgeDisconnected?
    requires t == Step(cfg, s, e)
    ensures Becomes(s.core, t.core, i, false)
  {
    match e
    case EdgeAlert(edge, device, metric) =>
      ReportBecomes(cfg, s.core,
                    Key(EDGE_PREFIX + if metric.Some? then metric.value else "device-alert", edge, device), i);
    case PredictionReport(edge, device, info) =>
      ReportBecomes(cfg, s.core, Key(PREDICTION_PREFIX + info.predictionType, edge, device), i);
      SameBecomes(s.core, s.core, i);
    case EdgeDisconnected(edge) => SameBecomes(s.core, t.core, i);
  }

  lemma EventBecomes(cfg: Config, s: State, e: Event, i: nat, t: State)
    requires Inv(cfg, s.core) && UniqueRules(cfg) && t == Step(cfg, s, e)
    requires !e.AcknowledgeAlert? && !e.ResolveAlert? && !e.Elapse?
    ensures Becomes(s.core, t.core, i, Ends(cfg, s, i, e))
  {
    match e
    case StatusReport(_, _, _, _) => StatusBecomes(cfg, s, e, i, t);
    case EdgeSeen(edge) => SeenBecomes(s, edge, s.core.now, i);
    case DeviceRemoved(edge, device) => RemovalBecomes(cfg, s, edge, device, i, t);
    case RunSweep(_, _, _) =>
      if Sweeps(cfg, s, e) {
        SweepBecomes(cfg, s, e, i, t);
      } else {
        SameBecomes(s.core, t.core, i);
      }
    case _ => QuietEventBecomes(cfg, s, e, i, t);
  }

  // ------------------------------------------------------------------ what operators do

  lemma EndByHand(c: Core, id: nat, i: nat, d: Core)
    requires Booked(c) && id < |c.book| && IsOpen(c, id) && i < |c.book| && d == End(c, {c.book[id].key}, true)
    ensures |d.book| == |c.book| && d.now == c.now && d.book[i].fires == c.book[i].fires
    ensures d.book[i].ended == if id == i then Some(Ending(c.now, true)) else c.book[i].ended
  {
    assert c.book[i].ended.None? <==> IsOpen(c, i);
  }

  /** Held or latched, the alert ends alike. */
  lemma ResolvedBook(s: State, id: nat, t: State)
    requires IsActiveId(s.core, id) && t == OnResolve(s, id)
    ensures t.core.book == End(s.core, {s.core.book[id].key}, true).book && t.core.now == s.core.now
  {
  }

  /** Only the alert of that id ends by hand, if it is open. */
  lemma ResolutionMakes(cfg: Config, s: State, id: nat, i: nat, t: State)
    requires Booked(s.core) && i < |s.core.book| && t == Step(cfg, s, ResolveAlert(id))
    ensures |t.core.book| == |s.core.book| && t.core.now == s.core.now
    ensures t.core.book[i].fires == s.core.book[i].fires
    ensures t.core.book[i].ended ==
            if id == i && s.core.book[i].ended.None? then Some(Ending(s.core.now, true)) else s.core.book[i].ended
  {
    assert s.core.book[i].ended.None? <==> IsOpen(s.core, i);
    if IsActiveId(s.core, id) {
      ResolvedBook(s, id, t);
      EndByHand(s.core, id, i, End(s.core, {s.core.book[id].key}, true));
    }
  }

  lemma ResolutionKeepsAcks(cfg: Config, s: State, id: nat, t: State)
    requires t == Step(cfg, s, ResolveAlert(id))
    ensures AcksKept(s.core, t.core)
  {
  }

  lemma AcknowledgeOne(c: Core, id: nat, i: nat, d: Core)
    requires id < |c.book| && IsOpen(c, id) && i < |c.book| && d == Acknowledge(c, c.book[id].key)
    ensures |d.book| == |c.book| && d.now == c.now
    ensures d.book[i].fires == c.book[i].fires && d.book[i].ended == c.book[i].ended
    ensures d.book[i].acknowledged ==
            if id == i && c.book[i].acknowledged.None? then Some(|c.book[i].fires|) else c.book[i].acknowledged
  {
  }

  /** Only the alert of that id is acknowledged, if it is open and not acknowledged yet. */
  lemma AcknowledgementMakes(cfg: Config, s: State, id: nat, i: nat, t: State)
    requires Booked(s.core) && i < |s.core.book| && t == Step(cfg, s, AcknowledgeAlert(id))
    ensures |t.core.book| == |s.core.book| && t.core.now == s.core.now
    ensures t.core.book[i].fires == s.core.book[i].fires && t.core.book[i].ended == s.core.book[i].ended
    ensures t.core.book[i].acknowledged ==
            if id == i && s.core.book[i].ended.None? && s.core.book[i].acknowledged.None?
            then Some(|s.core.book[i].fires|) else s.core.book[i].acknowledged
  {
    assert s.core.book[i].ended.None? <==> IsOpen(s.core, i);
    if IsActiveId(s.core, id) {
      AcknowledgeOne(s.core, id, i, t.core);
    }
  }

  // ------------------------------------------------------------------ when an alert ends

  lemma OpenAlertBecomes(cfg: Config, s: State, e: Event, i: nat, t: State)
    requires Inv(cfg, s.core) && UniqueRules(cfg) && t == Step(cfg, s, e)
    requires i < |s.core.book| && s.core.book[i].ended.None?
    ensures i < |t.core.book|
    ensures t.core.book[i].ended ==
            if e == ResolveAlert(i) then Some(Ending(s.core.now, true))
            else if Ends(cfg, s, i, e) then Some(Ending(s.core.now, false)) else None
  {
    if e.ResolveAlert? {
      ResolutionMakes(cfg, s, e.id, i, t);
    } else if e.AcknowledgeAlert? {
      AcknowledgementMakes(cfg, s, e.id, i, t);
    } else if !e.Elapse? {
      EventBecomes(cfg, s, e, i, t);
    }
  }

  /**
   In every run an open alert ends exactly by its resolution by hand; by a report after which its rule
   is cleared, or that says its device healthy if it is an edge alert; with its device; by its edge
   being seen if it is the offline alert; or by a sweep that finds its rule cleared by what is known,
   its edge seen, or it overdue. It says so, and when.
   */
  lemma EndsIff(cfg: Config, now: int, events: seq<Event>, e: Event, i: nat)
    requires UniqueRules(cfg) && i < |Run(cfg, now, events).core.book| && Run(cfg, now, events).core.book[i].ended.None?
    ensures i < |Run(cfg, now, events + [e]).core.book|
    ensures var s := Run(cfg, now, events);
            Run(cfg, now, events + [e]).core.book[i].ended ==
            if e == ResolveAlert(i) then Some(Ending(s.core.now, true))
            else if Ends(cfg, s, i, e) then Some(Ending(s.core.now, false)) else None
  {
    RunInv(cfg, now, events);
    RunSnoc(cfg, now, events, e);
    OpenAlertBecomes(cfg, Run(cfg, now, events), e, i, Run(cfg, now, events + [e]));
  }

  // ------------------------------------------------------------------ when an alert is acknowledged

  /** The event asks for alert `i` to be acknowledged, and it is open. */
  predicate Acknowledges(s: State, e: Event, i: nat) {
    e == AcknowledgeAlert(i) && i < |s.core.book| && s.core.book[i].ended.None?
  }

  ghost predicate AcknowledgesAt(cfg: Config, now: int, events: seq<Event>, n: nat, i: nat)
    requires n < |events|
  {
    Acknowledges(Run(cfg, now, events[..n]), events[n], i)
  }

  /** The first event of that kind came when the alert had fired `k` times. */
  ghost predicate FirstAcknowledged(cfg: Config, now: int, events: seq<Event>, i: nat, k: nat) {
    exists n :: 0 <= n < |events| && FirstAt(cfg, now, events, n, i)
                && |Run(cfg, now, events[..n]).core.book[i].fires| == k
  }

  ghost predicate FirstAt(cfg: Config, now: int, events: seq<Event>, n: nat, i: nat)
    requires n < |events|
  {
    && AcknowledgesAt(cfg, now, events, n, i) && i < |Run(cfg, now, events[..n]).core.book|
    && forall m :: 0 <= m < n ==> !AcknowledgesAt(cfg, now, events, m, i)
  }

  ghost predicate NeverAcknowledged(cfg: Config, now: int, events: seq<Event>, i: nat) {
    forall m :: 0 <= m < |events| ==> !AcknowledgesAt(cfg, now, events, m, i)
  }

  lemma EarlierAcknowledges(cfg: Config, now: int, init: seq<Event>, e: Event, n: nat, i: nat)
    requires n < |init|
    ensures AcknowledgesAt(cfg, now, init + [e], n, i) == AcknowledgesAt(cfg, now, init, n, i)
    ensures Run(cfg, now, (init + [e])[..n]) == Run(cfg, now, init[..n])
  {
    assert (init + [e])[..n] == init[..n] && (init + [e])[n] == init[n];
  }

  lemma NeverSnoc(cfg: Config, now: int, init: seq<Event>, e: Event, i: nat)
    ensures NeverAcknowledged(cfg, now, init + [e], i) <==>
            NeverAcknowledged(cfg, now, init, i) && !Acknowledges(Run(cfg, now, init), e, i)
  {
    var events := init + [e];
    assert events[..|init|] == init && events[|init|] == e;
    assert AcknowledgesAt(cfg, now, events, |init|, i) == Acknowledges(Run(cfg, now, init), e, i);
    forall n | 0 <= n < |init|
      ensures AcknowledgesAt(cfg, now, events, n, i) == AcknowledgesAt(cfg, now, init, n, i)
    {
      EarlierAcknowledges(cfg, now, init, e, n, i);
    }
  }

  lemma FirstSnoc(cfg: Config, now: int, init: seq<Event>, e: Event, i: nat, k: nat)
    ensures FirstAcknowledged(cfg, now, init, i, k) ==> FirstAcknowledged(cfg, now, init + [e], i, k)
    ensures (NeverAcknowledged(cfg, now, init, i) && Acknowledges(Run(cfg, now, init), e, i)
             && k == |Run(cfg, now, init).core.book[i].fires|) ==>
              FirstAcknowledged(cfg, now, init + [e], i, k)
  {
    var events := init + [e];
    forall n | 0 <= n < |init|
      ensures AcknowledgesAt(cfg, now, events, n, i) == AcknowledgesAt(cfg, now, init, n, i)
      ensures Run(cfg, now, events[..n]) == Run(cfg, now, init[..n])
    {
      EarlierAcknowledges(cfg, now, init, e, n, i);
    }
    assert events[..|init|] == init && events[|init|] == e;
    if FirstAcknowledged(cfg, now, init, i, k) {
      var n :| 0 <= n < |init| && FirstAt(cfg, now, init, n, i)
               && |Run(cfg, now, init[..n]).core.book[i].fires| == k;
      assert FirstAt(cfg, now, events, n, i);
    }
    if NeverAcknowledged(cfg, now, init, i) && Acknowledges(Run(cfg, now, init), e, i) {
      assert FirstAt(cfg, now, events, |init|, i);
    }
  }

  lemma AcknowledgementMoves(cfg: Config, s: State, e: Event, i: nat, t: State)
    requires Inv(cfg, s.core) && UniqueRules(cfg) && t == Step(cfg, s, e) && i < |t.core.book|
    ensures i >= |s.core.book| ==> t.core.book[i].acknowledged.None?
    ensures i < |s.core.book| ==>
              t.core.book[i].acknowledged ==
              if Acknowledges(s, e, i) && s.core.book[i].acknowledged.None? then Some(|s.core.book[i].fires|)
              else s.core.book[i].acknowledged
  {
    if e.AcknowledgeAlert? {
      if i < |s.core.book| {
        AcknowledgementMakes(cfg, s, e.id, i, t);
      } else {
        AcknowledgeKeepsLength(cfg, s, e.id, t);
      }
    } else if e.ResolveAlert? {
      ResolutionKeepsAcks(cfg, s, e.id, t);
    } else if !e.Elapse? {
      EventBecomes(cfg, s, e, i, t);
    }
  }

  lemma AcknowledgeKeepsLength(cfg: Config, s: State, id: nat, t: State)
    requires t == Step(cfg, s, AcknowledgeAlert(id))
    ensures |t.core.book| == |s.core.book|
  {
  }

  /** An alert that was not there cannot have been acknowledged. */
  lemma {:induction false} NotThereYet(cfg: Config, now: int, events: seq<Event>, i: nat)
    requires UniqueRules(cfg) && i >= |Run(cfg, now, events).core.book|
    ensures NeverAcknowledged(cfg, now, events, i)
  {
    if events != [] {
      var init, e := events[..|events| - 1], events[|events| - 1];
      assert events == init + [e];
      RunInv(cfg, now, init);
      BookGrows(cfg, Run(cfg, now, init), e, Run(cfg, now, events));
      NotThereYet(cfg, now, init, i);
      NeverSnoc(cfg, now, init, e, i);
    }
  }

  lemma BookGrows(cfg: Config, s: State, e: Event, t: State)
    requires Inv(cfg, s.core) && UniqueRules(cfg) && t == Step(cfg, s, e)
    ensures |s.core.book| <= |t.core.book|
  {
    if e.AcknowledgeAlert? {
      AcknowledgeKeepsLength(cfg, s, e.id, t);
    } else if e.ResolveAlert? {
      ResolutionKeepsAcks(cfg, s, e.id, t);
    } else if !e.Elapse? {
      EventBecomes(cfg, s, e, 0, t);
    }
  }

  /** What the record says is what the events say. */
  ghost predicate TellsAcknowledgement(cfg: Config, now: int, events: seq<Event>, i: nat)
    requires i < |Run(cfg, now, events).core.book|
  {
    match Run(cfg, now, events).core.book[i].acknowledged
    case None => NeverAcknowledged(cfg, now, events, i)
    case Some(k) => FirstAcknowledged(cfg, now, events, i, k) && !NeverAcknowledged(cfg, now, events, i)
  }

  ghost predicate TellsIfThere(cfg: Config, now: int, events: seq<Event>, i: nat) {
    i < |Run(cfg, now, events).core.book| ==> TellsAcknowledgement(cfg, now, events, i)
  }

  lemma TellsSnoc(cfg: Config, now: int, init: seq<Event>, e: Event, i: nat)
    requires UniqueRules(cfg) && TellsIfThere(cfg, now, init, i)
    ensures TellsIfThere(cfg, now, init + [e], i)
  {
    if i < |Run(cfg, now, init + [e]).core.book| {
      TellsNext(cfg, now, init, e, i);
    }
  }

  lemma TellsNext(cfg: Config, now: int, init: seq<Event>, e: Event, i: nat)
    requires UniqueRules(cfg) && TellsIfThere(cfg, now, init, i) && i < |Run(cfg, now, init + [e]).core.book|
    ensures TellsAcknowledgement(cfg, now, init + [e], i)
  {
    var s, t := Run(cfg, now, init), Run(cfg, now, init + [e]);
    RunInv(cfg, now, init);
    RunSnoc(cfg, now, init, e);
    AcknowledgementMoves(cfg, s, e, i, t);
    NeverSnoc(cfg, now, init, e, i);
    if i >= |s.core.book| {
      NotThereYet(cfg, now, init, i);
    }
    match t.core.book[i].acknowledged
    case None =>
    case Some(k) => FirstSnoc(cfg, now, init, e, i, k);
  }

  lemma TellsLast(cfg: Config, now: int, events: seq<Event>, i: nat)
    requires UniqueRules(cfg) && events != [] && TellsIfThere(cfg, now, events[..|events| - 1], i)
    ensures TellsIfThere(cfg, now, events, i)
  {
    assert events == events[..|events| - 1] + [events[|events| - 1]];
    TellsSnoc(cfg, now, events[..|events| - 1], events[|events| - 1], i);
  }

  lemma {:induction false} AlwaysTells(cfg: Config, now: int, events: seq<Event>, i: nat)
    requires UniqueRules(cfg)
    ensures TellsIfThere(cfg, now, events, i)
  {
    if events != [] {
      AlwaysTells(cfg, now, events[..|events| - 1], i);
      TellsLast(cfg, now, events, i);
    }
  }

  /**
   In every run an alert is acknowledged exactly if an acknowledgement of its id came while it was
   open, after as many fires as it had when the first of them came.
   */
  lemma AcknowledgedIff(cfg: Config, now: int, events: seq<Event>, i: nat)
    requires UniqueRules(cfg) && i < |Run(cfg, now, events).core.book|
    ensures TellsAcknowledgement(cfg, now, events, i)
  {
    AlwaysTells(cfg, now, events, i);
  }

  /** So exactly the fires before the first acknowledgement notify and act. */
  lemma SilentAfterAcknowledgement(cfg: Config, now: int, events: seq<Event>, i: nat, k: nat)
    requires UniqueRules(cfg) && i < |Run(cfg, now, events).core.book|
    ensures var fires := Run(cfg, now, events).core.book[i].fires;
            && (NeverAcknowledged(cfg, now, events, i) ==> forall j :: 0 <= j < |fires| ==> fires[j].notified)
            && (FirstAcknowledged(cfg, now, events, i, k) ==>
                  forall j :: 0 <= j < |fires| ==> (fires[j].notified <==> j < k))
  {
    AcknowledgedIff(cfg, now, events, i);
    RunInv(cfg, now, events);
    var c := Run(cfg, now, events).core;
    assert Lawful(cfg, c.book[i], c.quiet);
    if FirstAcknowledged(cfg, now, events, i, k) {
      FirstIsOne(cfg, now, events, i, k, if c.book[i].acknowledged.Some? then c.book[i].acknowledged.value else k);
    }
  }

  lemma FirstIsOne(cfg: Config, now: int, events: seq<Event>, i: nat, k: nat, l: nat)
    requires FirstAcknowledged(cfg, now, events, i, k)
    ensures !NeverAcknowledged(cfg, now, events, i)
    ensures FirstAcknowledged(cfg, now, events, i, l) ==> k == l
  {
  }
}
