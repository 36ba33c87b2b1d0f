/**
 Manual resolutions (README.md:452, crates/nimon-hub/src/alert/manager.rs:1803-1834): what keeps an
 alert that was resolved by hand from re-opening, and exactly what makes the manager forget it.
 */
module AlertHolds {
  import opened Basics
  import opened Rules
  import opened AlertManager
  import opened AlertLaws

  // ------------------------------------------------------------------ resolutions by hand

  /** When the alert was resolved by hand. */
  function ByHand(r: Record): Option<int> {
    if r.ended.Some? && r.ended.value.manual then Some(r.ended.value.at) else None
  }

  /** From when its key has been held for that. Keys under the id of the offline alert are not held at all. */
  function HeldFrom(r: Record): Option<int> { if r.key.rule == EDGE_OFFLINE then None else ByHand(r) }

  /** It is, its cooldown is not over, and nothing has lifted its hold. */
  ghost predicate HoldRuns(cfg: Config, c: Core, i: nat)
    requires i < |c.book|
  {
    WithinHold(cfg, c, i) && i !in c.lifted
  }

  predicate WithinHold(cfg: Config, c: Core, i: nat)
    requires i < |c.book|
  {
    HeldFrom(c.book[i]).Some? && c.now < HeldFrom(c.book[i]).value + Cooldown(cfg, c.book[i].key.rule)
  }

  lemma StillHeldIff(cfg: Config, c: Core, i: nat)
    requires i < |c.book|
    ensures i in StillHeld(c, cfg) <==> WithinHold(cfg, c, i)
  {
  }

  /** What is held for resolutions by hand and what was lifted are the same, and no hold is new. */
  ghost predicate SameHands(c: Core, d: Core) {
    && d.now == c.now && d.lifted == c.lifted && |c.book| <= |d.book|
    && (forall i :: 0 <= i < |c.book| ==> d.book[i].key == c.book[i].key && HeldFrom(d.book[i]) == HeldFrom(c.book[i]))
    && (forall i :: |c.book| <= i < |d.book| ==> HeldFrom(d.book[i]).None?)
    && (forall k | k in d.hold :: k in c.hold && d.hold[k] == c.hold[k])
  }

  lemma SameHandsChain(c: Core, d: Core, e: Core)
    requires SameHands(c, d) && SameHands(d, e)
    ensures SameHands(c, e)
  {
    forall i | 0 <= i < |c.book|
      ensures e.book[i].key == c.book[i].key && HeldFrom(e.book[i]) == HeldFrom(c.book[i])
    {
      assert d.book[i].key == c.book[i].key && HeldFrom(d.book[i]) == HeldFrom(c.book[i]);
    }
    forall i | |c.book| <= i < |e.book|
      ensures HeldFrom(e.book[i]).None?
    {
      assert i < |d.book| ==> HeldFrom(d.book[i]).None?;
    }
  }

  /** Ending alerts otherwise than by hand, or offline alerts by hand. */
  lemma EndHands(c: Core, doomed: set<Key>, manual: bool)
    requires Booked(c) && (manual ==> forall k | k in doomed :: k.rule == EDGE_OFFLINE)
    ensures SameHands(c, End(c, doomed, manual))
  {
    assert forall i :: 0 <= i < |c.book| ==> (c.book[i].ended.None? <==> IsOpen(c, i));
  }

  lemma RefireHands(c: Core, key: Key)
    requires key in c.active
    ensures SameHands(c, Refire(c, key)) && SameHands(c, Touch(c, key)) && SameHands(c, Acknowledge(c, key))
  {
  }

  lemma OpenHands(c: Core, key: Key, since: int)
    ensures SameHands(c, Open(c, key, since)) && SameHands(c, Open(c.(hold := c.hold - {key}), key, since))
  {
  }

  lemma FireNowHands(cfg: Config, c: Core, r: ManagedRule, key: Key, since: int)
    ensures SameHands(c, FireNow(c, cfg, r, key, since))
  {
    if key in c.active {
      RefireHands(c, key);
    } else {
      OpenHands(c, key, since);
    }
  }

  lemma ReportHands(cfg: Config, c: Core, key: Key)
    ensures SameHands(c, Report(c, cfg, key))
  {
    if key in c.active {
      RefireHands(c, key);
    } else {
      OpenHands(c, key, c.now);
    }
  }

  lemma FireHands(cfg: Config, c: Core, r: ManagedRule, key: Key)
    ensures SameHands(c, FireRule(c, cfg, r, key))
  {
    if Window(r).None? {
      FireNowHands(cfg, c, r, key, c.now);
    } else {
      FireNowHands(cfg, Breach(c, key), r, key, Breach(c, key).breach[key]);
    }
  }

  lemma RuleHands(cfg: Config, c: Core, r: ManagedRule, ctx: Context, sweep: bool)
    requires Booked(c)
    ensures SameHands(c, EvaluateRule(c, cfg, r, ctx, sweep))
  {
    var key := Key(r.rule.id, ctx.edgeId, ctx.deviceId);
    EndHands(Quiet(c, key), {key}, false);
    FireHands(cfg, c, r, key);
  }

  lemma OneMoreRuleHands(cfg: Config, c: Core, d: Core, r: ManagedRule, ctx: Context, sweep: bool, e: Core)
    requires SameHands(c, d) && Booked(d) && e == EvaluateRule(d, cfg, r, ctx, sweep)
    ensures SameHands(c, e)
  {
    RuleHands(cfg, d, r, ctx, sweep);
    SameHandsChain(c, d, e);
  }

  lemma RulesBooked(cfg: Config, c: Core, ctx: Context, sweep: bool, n: nat)
    requires Inv(cfg, c) && UniqueRules(cfg) && n <= |cfg.rules|
    ensures Booked(EvaluateRules(c, cfg, ctx, sweep, n))
  {
    EvaluateRulesKeeps(cfg, c, ctx, sweep, n);
  }

  lemma {:induction false} BookedRulesHands(cfg: Config, c: Core, ctx: Context, sweep: bool, n: nat)
    requires n <= |cfg.rules| && forall m | 0 <= m < n :: Booked(EvaluateRules(c, cfg, ctx, sweep, m))
    ensures SameHands(c, EvaluateRules(c, cfg, ctx, sweep, n))
  {
    if n > 0 {
      BookedRulesHands(cfg, c, ctx, sweep, n - 1);
      OneMoreRuleHands(cfg, c, EvaluateRules(c, cfg, ctx, sweep, n - 1), cfg.rules[n - 1], ctx, sweep,
                       EvaluateRules(c, cfg, ctx, sweep, n));
    }
  }

  lemma RulesHands(cfg: Config, c: Core, ctx: Context, sweep: bool, n: nat)
    requires Inv(cfg, c) && UniqueRules(cfg) && n <= |cfg.rules|
    ensures SameHands(c, EvaluateRules(c, cfg, ctx, sweep, n))
  {
    forall m | 0 <= m < n
      ensures Booked(EvaluateRules(c, cfg, ctx, sweep, m))
    {
      RulesBooked(cfg, c, ctx, sweep, m);
    }
    BookedRulesHands(cfg, c, ctx, sweep, n);
  }

  // ------------------------------------------------------------------ the parts of an event

  lemma SeenHands(s: State, edge: string, at: int)
    requires Booked(s.core)
    ensures SameHands(s.core, MarkEdgeSeen(s, edge, at).core)
  {
    EndHands(s.core, {Key(EDGE_OFFLINE, edge, "")}, false);
  }

  lemma StatusHands(cfg: Config, s: State, edge: string, device: string, status: HealthStatus,
                    metrics: map<string, MetricValue>)
    requires Inv(cfg, s.core) && UniqueRules(cfg)
    ensures SameHands(s.core, OnStatus(s, cfg, edge, device, status, metrics).core)
  {
    var seen := MarkEdgeSeen(s, edge, s.core.now).core;
    SeenHands(s, edge, s.core.now);
    SeenKeeps(cfg, s, edge, s.core.now);
    var ctx := ReportContext(s, edge, device, status, metrics);
    var e := EvaluateRules(seen, cfg, ctx, false, |cfg.rules|);
    RulesHands(cfg, seen, ctx, false, |cfg.rules|);
    EvaluateRulesKeeps(cfg, seen, ctx, false, |cfg.rules|);
    SameHandsChain(s.core, seen, e);
    EndHands(e, ActiveWhere(e, edge, device, EDGE_PREFIX), false);
    SameHandsChain(s.core, e, End(e, ActiveWhere(e, edge, device, EDGE_PREFIX), false));
  }

  lemma {:induction false} SessionsHands(cfg: Config, s: State, sessions: seq<(string, int)>)
    requires Inv(cfg, s.core)
    ensures SameHands(s.core, SeeSessions(s, cfg, sessions).core)
    decreases |sessions|
  {
    if sessions != [] {
      var edge, last := sessions[0].0, sessions[0].1;
      var recent := cfg.edgeOfflineAfterSecs > 0 && s.core.now - last <= 1000 * cfg.edgeOfflineAfterSecs;
      var t := if recent then MarkEdgeSeen(s, edge, last) else s.(edges := s.edges[edge := Later(s.edges, edge, last)]);
      SeenHands(s, edge, last);
      SeenKeeps(cfg, s, edge, last);
      SessionsHands(cfg, t, sessions[1..]);
      SameHandsChain(s.core, t.core, SeeSessions(s, cfg, sessions).core);
    }
  }

  lemma {:induction false} DevicesHands(cfg: Config, s: State, order: seq<string>)
    requires Inv(cfg, s.core) && UniqueRules(cfg)
    ensures SameHands(s.core, SweepDevices(s, cfg, order).core)
    decreases |order|
  {
    if order != [] {
      if order[0] in s.devices {
        var ctx := ContextOf(s, order[0]);
        var t := s.(core := EvaluateRules(s.core, cfg, ctx, true, |cfg.rules|));
        RulesHands(cfg, s.core, ctx, true, |cfg.rules|);
        EvaluateRulesKeeps(cfg, s.core, ctx, true, |cfg.rules|);
        DevicesHands(cfg, t, order[1..]);
        SameHandsChain(s.core, t.core, SweepDevices(s, cfg, order).core);
      } else {
        DevicesHands(cfg, s, order[1..]);
      }
    }
  }

  lemma {:induction false} OfflineHands(cfg: Config, s: State, order: seq<string>)
    ensures SameHands(s.core, OpenOffline(s, cfg, order).core)
    decreases |order|
  {
    if order != [] {
      var key := Key(EDGE_OFFLINE, order[0], "");
      var t := if IsSilent(s, cfg, order[0]) && order[0] !in s.latched && key !in s.core.active
        then s.(core := Open(s.core, key, s.core.now)) else s;
      OpenHands(s.core, key, s.core.now);
      OfflineHands(cfg, t, order[1..]);
      SameHandsChain(s.core, t.core, OpenOffline(s, cfg, order).core);
    }
  }

  lemma BeforeOfflineHands(cfg: Config, s: State, sessions: seq<(string, int)>, deviceOrder: seq<string>)
    requires Inv(cfg, s.core) && UniqueRules(cfg)
    ensures SameHands(s.core, BeforeOffline(s, cfg, sessions, deviceOrder).core)
  {
    var t := SeeSessions(s, cfg, sessions);
    var u := SweepDevices(t, cfg, deviceOrder);
    SessionsHands(cfg, s, sessions);
    SessionsKeep(cfg, s, sessions);
    DevicesHands(cfg, t, deviceOrder);
    SweepDevicesKeep(cfg, t, deviceOrder);
    SameHandsChain(s.core, t.core, u.core);
    EndHands(u.core, Expired(u.core, cfg), false);
    SameHandsChain(s.core, u.core, BeforeOffline(s, cfg, sessions, deviceOrder).core);
  }

  /** The state in which a sweep looks for stale devices and for holds to prune. */
  function AtPruning(cfg: Config, s: State, e: Event): State
    requires e.RunSweep?
  {
    OpenOffline(BeforeOffline(s, cfg, e.sessions, e.deviceOrder), cfg, e.edgeOrder)
  }

  lemma AtPruningHands(cfg: Config, s: State, e: Event)
    requires Inv(cfg, s.core) && UniqueRules(cfg) && e.RunSweep?
    ensures SameHands(s.core, AtPruning(cfg, s, e).core) && Inv(cfg, AtPruning(cfg, s, e).core)
  {
    var b := BeforeOffline(s, cfg, e.sessions, e.deviceOrder);
    BeforeOfflineHands(cfg, s, e.sessions, e.deviceOrder);
    BeforeOfflineKeeps(cfg, s, e.sessions, e.deviceOrder);
    OfflineHands(cfg, b, e.edgeOrder);
    OfflineKeeps(cfg, b, e.edgeOrder);
    SameHandsChain(s.core, b.core, AtPruning(cfg, s, e).core);
  }

  // ------------------------------------------------------------------ what stands behind a hold

  /** A resolution by hand that has not been lifted. */
  ghost predicate BackedBy(c: Core, k: Key, j: int)
    requires k in c.hold
  {
    0 <= j < |c.book| && c.book[j].key == k && HeldFrom(c.book[j]) == Some(c.hold[k]) && j !in c.lifted
  }

  ghost predicate Backed(c: Core) {
    && (forall k | k in c.hold :: exists j :: BackedBy(c, k, j))
    && (forall i | i in c.lifted :: i < |c.book| && HeldFrom(c.book[i]).Some?)
  }

  lemma SameHandsBacked(c: Core, d: Core)
    requires Backed(c) && SameHands(c, d)
    ensures Backed(d)
  {
    forall k | k in d.hold
      ensures exists j :: BackedBy(d, k, j)
    {
      var j :| BackedBy(c, k, j);
      assert BackedBy(d, k, j);
    }
  }

  lemma DropHoldsBacked(cfg: Config, c: Core, dropped: set<Key>)
    requires Backed(c)
    ensures Backed(DropHolds(c, cfg, dropped))
  {
    var d := DropHolds(c, cfg, dropped);
    forall k | k in d.hold
      ensures exists j :: BackedBy(d, k, j)
    {
      var j :| BackedBy(c, k, j);
      assert BackedBy(d, k, j);
    }
    forall i | i in d.lifted
      ensures i < |d.book| && HeldFrom(d.book[i]).Some?
    {
      if i !in c.lifted {
        StillHeldIff(cfg, c, i);
      }
    }
  }

  /** The alert `id` is resolved by hand, and its key held from now on. */
  ghost predicate ResolvedNow(c: Core, d: Core, id: nat) {
    && id < |c.book| && |d.book| == |c.book| && d.lifted == c.lifted
    && (forall i :: 0 <= i < |c.book| && i != id ==> d.book[i] == c.book[i])
    && d.book[id].key == c.book[id].key && HeldFrom(c.book[id]).None? && HeldFrom(d.book[id]) == Some(c.now)
    && d.hold == c.hold[c.book[id].key := c.now]
  }

  lemma ResolveHolds(s: State, id: nat)
    requires Booked(s.core) && IsActiveId(s.core, id) && s.core.book[id].key.rule != EDGE_OFFLINE
    ensures ResolvedNow(s.core, OnResolve(s, id).core, id)
  {
    var c := s.core;
    assert forall i :: 0 <= i < |c.book| ==> (c.book[i].ended.None? <==> IsOpen(c, i));
  }

  lemma ResolveBacked(c: Core, d: Core, id: nat)
    requires Backed(c) && ResolvedNow(c, d, id)
    ensures Backed(d)
  {
    var key := c.book[id].key;
    assert BackedBy(d, key, id);
    forall k | k in d.hold && k != key
      ensures exists j :: BackedBy(d, k, j)
    {
      var j :| BackedBy(c, k, j);
      assert BackedBy(d, k, j);
    }
  }

  /** The hold counts from that very resolution. */
  ghost predicate InForce(c: Core, i: nat)
    requires i < |c.book|
  {
    c.book[i].key in c.hold && Some(c.hold[c.book[i].key]) == HeldFrom(c.book[i])
  }

  /** Of two resolutions of one key the cooldown leaves room for one only. */
  lemma BackedByItself(cfg: Config, c: Core, i: nat, j: nat)
    requires i < |c.book| && j < |c.book| && c.book[i].key == c.book[j].key
    requires HoldRuns(cfg, c, i) && HeldFrom(c.book[j]).Some? && HeldFrom(c.book[j]).value >= HeldFrom(c.book[i]).value
    requires Orderly(c.book[i], c.now) && Orderly(c.book[j], c.now)
    requires (i < j ==> Respected(cfg, c, i, j)) && (j < i ==> Apart(c.book[j], c.book[i]))
    ensures HeldFrom(c.book[j]) == HeldFrom(c.book[i])
  {
  }

  /** A hold that runs is in force. */
  lemma RunningHold(cfg: Config, c: Core, i: nat)
    requires Inv(cfg, c) && Backed(c) && i < |c.book| && HoldRuns(cfg, c, i)
    ensures InForce(c, i)
  {
    assert Held(cfg, c, i);
    var j: nat :| BackedBy(c, c.book[i].key, j);
    BackedByItself(cfg, c, i, j);
  }

  // ------------------------------------------------------------------ what lifts a hold

  /** Between the two states exactly the holds that run are lifted for which `forgotten` says so. */
  ghost predicate Lifts(cfg: Config, c: Core, d: Core, i: nat, forgotten: bool)
    requires i < |c.book|
  {
    i in d.lifted <==> i in c.lifted || (HoldRuns(cfg, c, i) && forgotten)
  }

  lemma DropHoldsLifts(cfg: Config, c: Core, dropped: set<Key>, i: nat)
    requires i < |c.book|
    ensures Lifts(cfg, c, DropHolds(c, cfg, dropped), i, c.book[i].key in dropped)
  {
    StillHeldIff(cfg, c, i);
  }

  lemma DevicesDropped(cfg: Config, c: Core, devices: set<string>, i: nat)
    requires i < |c.book| && (HoldRuns(cfg, c, i) ==> InForce(c, i))
    ensures Lifts(cfg, c, DropHolds(c, cfg, HoldsOf(c, devices)), i, c.book[i].key.device in devices)
  {
    DropHoldsLifts(cfg, c, HoldsOf(c, devices), i);
  }

  /** Its resolution is longer ago than the retention. */
  ghost predicate TooOld(cfg: Config, c: Core, i: nat)
    requires i < |c.book|
  {
    HeldFrom(c.book[i]).Some? && c.now - HeldFrom(c.book[i]).value > Retention(cfg)
  }

  lemma OldDropped(cfg: Config, c: Core, i: nat)
    requires i < |c.book| && (HoldRuns(cfg, c, i) ==> InForce(c, i))
    ensures Lifts(cfg, c, DropHolds(c, cfg, OldHolds(c, cfg)), i, TooOld(cfg, c, i))
  {
    DropHoldsLifts(cfg, c, OldHolds(c, cfg), i);
  }

  lemma AnyInForce(cfg: Config, c: Core, i: nat)
    requires Inv(cfg, c) && Backed(c) && i < |c.book|
    ensures HoldRuns(cfg, c, i) ==> InForce(c, i)
  {
    if HoldRuns(cfg, c, i) {
      RunningHold(cfg, c, i);
    }
  }

  /** The event makes the manager forget the resolution of alert `i`. */
  ghost predicate Forgets(cfg: Config, s: State, e: Event, i: nat)
    requires i < |s.core.book|
  {
    var r := s.core.book[i];
    match e
    case DeviceRemoved(edge, device) =>
      r.key.device == device && (device in s.devices ==> s.devices[device].edge == edge)
    case RunSweep(_, _, _) =>
      && Sweeps(cfg, s, e)
      && (r.key.device in Stale(AtPruning(cfg, s, e), cfg) || TooOld(cfg, s.core, i))
    case _ => false
  }

  ghost predicate Sweeps(cfg: Config, s: State, e: Event)
    requires e.RunSweep?
  {
    && IsOrderOf(e.deviceOrder, s.devices.Keys)
    && IsOrderOf(e.edgeOrder, BeforeOffline(s, cfg, e.sessions, e.deviceOrder).edges.Keys)
  }

  lemma SameHandsLifts(cfg: Config, c: Core, d: Core, e: Core, i: nat, forgotten: bool)
    requires i < |c.book| <= |d.book| && Lifts(cfg, c, d, i, forgotten) && SameHands(d, e)
    ensures Lifts(cfg, c, e, i, forgotten)
  {
  }

  lemma ForgettingLifts(cfg: Config, s: State, gone: set<string>, t: State, i: nat)
    requires Inv(cfg, s.core) && Backed(s.core) && i < |s.core.book| && t == ForgetAll(s, cfg, gone)
    ensures t.core.now == s.core.now && t.core.book == s.core.book
    ensures Lifts(cfg, s.core, t.core, i, s.core.book[i].key.device in gone)
  {
    AnyInForce(cfg, s.core, i);
    DevicesDropped(cfg, s.core, gone, i);
  }

  lemma ForgettingBacked(cfg: Config, s: State, gone: set<string>, t: State)
    requires Backed(s.core) && t == ForgetAll(s, cfg, gone)
    ensures Backed(t.core)
  {
    DropHoldsBacked(cfg, s.core, HoldsOf(s.core, gone));
    SameHandsBacked(DropHolds(s.core, cfg, HoldsOf(s.core, gone)), t.core);
  }

  lemma PruningLifts(cfg: Config, s: State, t: State, i: nat)
    requires Inv(cfg, s.core) && Backed(s.core) && i < |s.core.book| && t == Prune(s, cfg)
    ensures Lifts(cfg, s.core, t.core, i, TooOld(cfg, s.core, i))
  {
    AnyInForce(cfg, s.core, i);
    OldDropped(cfg, s.core, i);
  }

  lemma PruningBacked(cfg: Config, s: State, t: State)
    requires Backed(s.core) && t == Prune(s, cfg)
    ensures Backed(t.core)
  {
    DropHoldsBacked(cfg, s.core, OldHolds(s.core, cfg));
    SameHandsBacked(DropHolds(s.core, cfg, OldHolds(s.core, cfg)), t.core);
  }

  /** What a removal forgets, before it ends the alerts of the device. */
  function Forgotten(cfg: Config, s: State, edge: string, device: string): State {
    if device in s.devices && s.devices[device].edge != edge then s else ForgetAll(s, cfg, {device})
  }

  lemma RemovalEnds(cfg: Config, s: State, edge: string, device: string, t: State)
    requires Inv(cfg, s.core) && t == OnRemoved(s, cfg, edge, device)
    ensures SameHands(Forgotten(cfg, s, edge, device).core, t.core)
  {
    var f := Forgotten(cfg, s, edge, device);
    ForgetKeeps(cfg, s, {device});
    EndHands(f.core, ActiveWhere(f.core, edge, device, ""), false);
  }

  lemma RemovalLifts(cfg: Config, s: State, edge: string, device: string, t: State, i: nat)
    requires Inv(cfg, s.core) && Backed(s.core) && i < |s.core.book| && t == OnRemoved(s, cfg, edge, device)
    ensures Lifts(cfg, s.core, t.core, i, Forgets(cfg, s, DeviceRemoved(edge, device), i))
  {
    var f := Forgotten(cfg, s, edge, device);
    RemovalEnds(cfg, s, edge, device, t);
    ForgettingLifts(cfg, s, {device}, ForgetAll(s, cfg, {device}), i);
    SameHandsLifts(cfg, s.core, f.core, t.core, i, Forgets(cfg, s, DeviceRemoved(edge, device), i));
  }

  lemma RemovalBacked(cfg: Config, s: State, edge: string, device: string, t: State)
    requires Inv(cfg, s.core) && Backed(s.core) && t == OnRemoved(s, cfg, edge, device)
    ensures Backed(t.core)
  {
    RemovalEnds(cfg, s, edge, device, t);
    ForgettingBacked(cfg, s, {device}, ForgetAll(s, cfg, {device}));
    SameHandsBacked(Forgotten(cfg, s, edge, device).core, t.core);
  }

  /** Two stages of forgetting, with nothing that counts between them. */
  lemma LiftsChain(cfg: Config, c: Core, d: Core, e: Core, f: Core, i: nat, first: bool, second: bool)
    requires i < |c.book| && SameHands(c, d)
    requires Lifts(cfg, d, e, i, first) && e.now == d.now && e.book == d.book
    requires Lifts(cfg, e, f, i, second)
    ensures Lifts(cfg, c, f, i, first || second)
  {
  }

  lemma SweepLifts(cfg: Config, s: State, e: Event, t: State, i: nat)
    requires Inv(cfg, s.core) && Backed(s.core) && UniqueRules(cfg) && i < |s.core.book|
    requires e.RunSweep? && t == OnSweep(s, cfg, e.sessions, e.deviceOrder, e.edgeOrder)
    ensures var o := AtPruning(cfg, s, e);
            Lifts(cfg, s.core, t.core, i, s.core.book[i].key.device in Stale(o, cfg) || TooOld(cfg, s.core, i))
  {
    var o := AtPruning(cfg, s, e);
    var f := ForgetAll(o, cfg, Stale(o, cfg));
    AtPruningHands(cfg, s, e);
    SameHandsBacked(s.core, o.core);
    ForgettingLifts(cfg, o, Stale(o, cfg), f, i);
    ForgettingBacked(cfg, o, Stale(o, cfg), f);
    ForgetKeeps(cfg, o, Stale(o, cfg));
    PruningLifts(cfg, f, t, i);
    LiftsChain(cfg, s.core, o.core, f.core, t.core, i,
               o.core.book[i].key.device in Stale(o, cfg), TooOld(cfg, f.core, i));
  }

  lemma SweepBacked(cfg: Config, s: State, e: Event, t: State)
    requires Inv(cfg, s.core) && Backed(s.core) && UniqueRules(cfg)
    requires e.RunSweep? && t == OnSweep(s, cfg, e.sessions, e.deviceOrder, e.edgeOrder)
    ensures Backed(t.core)
  {
    var o := AtPruning(cfg, s, e);
    var f := ForgetAll(o, cfg, Stale(o, cfg));
    AtPruningHands(cfg, s, e);
    SameHandsBacked(s.core, o.core);
    ForgettingBacked(cfg, o, Stale(o, cfg), f);
    PruningBacked(cfg, f, t);
  }

  lemma StatusStepHands(cfg: Config, s: State, e: Event, t: State)
    requires Inv(cfg, s.core) && UniqueRules(cfg) && e.StatusReport? && t == Step(cfg, s, e)
    ensures SameHands(s.core, t.core)
  {
    StatusHands(cfg, s, e.edge, e.device, e.status, e.metrics);
  }

  lemma ReportStepHands(cfg: Config, s: State, e: Event, t: State)
    requires (e.EdgeAlert? || e.PredictionReport?) && t == Step(cfg, s, e)
    ensures SameHands(s.core, t.core)
  {
    if e.EdgeAlert? {
      ReportHands(cfg, s.core,
                  Key(EDGE_PREFIX + if e.metric.Some? then e.metric.value else "device-alert", e.edge, e.device));
    } else {
      ReportHands(cfg, s.core, Key(PREDICTION_PREFIX + e.info.predictionType, e.edge, e.device));
    }
  }

  lemma EdgeStepHands(cfg: Config, s: State, e: Event, t: State)
    requires Booked(s.core) && (e.EdgeSeen? || e.EdgeDisconnected? || e.AcknowledgeAlert?) && t == Step(cfg, s, e)
    ensures SameHands(s.core, t.core)
  {
    if e.EdgeSeen? {
      SeenHands(s, e.edge, s.core.now);
    } else if e.AcknowledgeAlert? && IsActiveId(s.core, e.id) {
      RefireHands(s.core, s.core.book[e.id].key);
    }
  }

  /** Neither forgets anything nor resolves by hand. */
  predicate Harmless(e: Event) { !e.DeviceRemoved? && !e.RunSweep? && !e.ResolveAlert? && !e.Elapse? }

  lemma HarmlessHands(cfg: Config, s: State, e: Event, t: State)
    requires Inv(cfg, s.core) && UniqueRules(cfg) && Harmless(e) && t == Step(cfg, s, e)
    ensures SameHands(s.core, t.core)
  {
    if e.StatusReport? {
      StatusStepHands(cfg, s, e, t);
    } else if e.EdgeAlert? || e.PredictionReport? {
      ReportStepHands(cfg, s, e, t);
    } else {
      EdgeStepHands(cfg, s, e, t);
    }
  }

  lemma ResolutionBacked(cfg: Config, s: State, id: nat, t: State)
    requires Inv(cfg, s.core) && Backed(s.core) && t == OnResolve(s, id)
    ensures Backed(t.core) && t.core.lifted == s.core.lifted
  {
    if IsActiveId(s.core, id) {
      if s.core.book[id].key.rule == EDGE_OFFLINE {
        LatchedBacked(s, id, t);
      } else {
        ResolveHolds(s, id);
        ResolveBacked(s.core, t.core, id);
      }
    }
  }

  lemma LatchedBacked(s: State, id: nat, t: State)
    requires Booked(s.core) && Backed(s.core) && t == OnResolve(s, id)
    requires IsActiveId(s.core, id) && s.core.book[id].key.rule == EDGE_OFFLINE
    ensures Backed(t.core) && t.core.lifted == s.core.lifted
  {
    EndHands(s.core, {s.core.book[id].key}, true);
    SameHandsBacked(s.core, t.core);
  }

  lemma ElapseBacked(c: Core, d: Core)
    requires Backed(c) && d == c.(now := d.now)
    ensures Backed(d)
  {
    forall k | k in d.hold
      ensures exists j :: BackedBy(d, k, j)
    {
      var j :| BackedBy(c, k, j);
      assert BackedBy(d, k, j);
    }
  }

  lemma HarmlessBacked(cfg: Config, s: State, e: Event, t: State)
    requires Inv(cfg, s.core) && Backed(s.core) && UniqueRules(cfg) && t == Step(cfg, s, e) && Harmless(e)
    ensures Backed(t.core)
  {
    HarmlessHands(cfg, s, e, t);
    SameHandsBacked(s.core, t.core);
  }

  lemma ForgetfulBacked(cfg: Config, s: State, e: Event, t: State)
    requires Inv(cfg, s.core) && Backed(s.core) && UniqueRules(cfg) && t == Step(cfg, s, e)
    requires e.DeviceRemoved? || e.RunSweep?
    ensures Backed(t.core)
  {
    if e.DeviceRemoved? {
      RemovalBacked(cfg, s, e.edge, e.device, t);
    } else if t != s {
      SweepBacked(cfg, s, e, t);
    }
  }

  lemma ResolvedOrLaterBacked(cfg: Config, s: State, e: Event, t: State)
    requires Inv(cfg, s.core) && Backed(s.core) && t == Step(cfg, s, e)
    requires e.ResolveAlert? || e.Elapse?
    ensures Backed(t.core)
  {
    if e.ResolveAlert? {
      ResolutionBacked(cfg, s, e.id, t);
    } else {
      ElapseBacked(s.core, t.core);
    }
  }

  lemma StepBacked(cfg: Config, s: State, e: Event, t: State)
    requires Inv(cfg, s.core) && Backed(s.core) && UniqueRules(cfg) && t == Step(cfg, s, e)
    ensures Backed(t.core)
  {
    if Harmless(e) {
      HarmlessBacked(cfg, s, e, t);
    } else if e.DeviceRemoved? || e.RunSweep? {
      ForgetfulBacked(cfg, s, e, t);
    } else {
      ResolvedOrLaterBacked(cfg, s, e, t);
    }
  }

  lemma OldLifted(cfg: Config, s: State, e: Event, t: State, i: nat)
    requires Inv(cfg, s.core) && Backed(s.core) && UniqueRules(cfg) && i < |s.core.book| && t == Step(cfg, s, e)
    ensures Lifts(cfg, s.core, t.core, i, Forgets(cfg, s, e, i))
  {
    if Harmless(e) {
      HarmlessHands(cfg, s, e, t);
    } else if e.DeviceRemoved? {
      RemovalLifts(cfg, s, e.edge, e.device, t, i);
    } else if e.ResolveAlert? {
      ResolutionBacked(cfg, s, e.id, t);
    } else if e.RunSweep? && Sweeps(cfg, s, e) {
      SweepLifts(cfg, s, e, t, i);
    }
  }

  lemma DroppedAreOld(cfg: Config, c: Core, dropped: set<Key>, n: nat)
    requires forall i | i in c.lifted :: i < n
    requires forall i :: n <= i < |c.book| ==> HeldFrom(c.book[i]).None?
    ensures forall i | i in DropHolds(c, cfg, dropped).lifted :: i < n
  {
  }

  lemma SweptAreOld(cfg: Config, s: State, e: Event, t: State)
    requires Inv(cfg, s.core) && Backed(s.core) && UniqueRules(cfg)
    requires e.RunSweep? && t == OnSweep(s, cfg, e.sessions, e.deviceOrder, e.edgeOrder)
    ensures forall i | i in t.core.lifted :: i < |s.core.book|
  {
    var o := AtPruning(cfg, s, e);
    var f := ForgetAll(o, cfg, Stale(o, cfg));
    AtPruningHands(cfg, s, e);
    DroppedAreOld(cfg, o.core, HoldsOf(o.core, Stale(o, cfg)), |s.core.book|);
    DroppedAreOld(cfg, f.core, OldHolds(f.core, cfg), |s.core.book|);
  }

  lemma RemovedAreOld(cfg: Config, s: State, e: Event, t: State)
    requires Backed(s.core) && e.DeviceRemoved? && t == Step(cfg, s, e)
    ensures forall i | i in t.core.lifted :: i < |s.core.book|
  {
    DroppedAreOld(cfg, s.core, HoldsOf(s.core, {e.device}), |s.core.book|);
  }

  /** No step lifts the hold of an alert that it opens itself. */
  lemma OnlyOldLifted(cfg: Config, s: State, e: Event, t: State)
    requires Inv(cfg, s.core) && Backed(s.core) && UniqueRules(cfg) && t == Step(cfg, s, e)
    ensures forall i | i in t.core.lifted :: i < |s.core.book|
  {
    if Harmless(e) {
      HarmlessHands(cfg, s, e, t);
    } else if e.DeviceRemoved? {
      RemovedAreOld(cfg, s, e, t);
    } else if e.ResolveAlert? {
      ResolutionBacked(cfg, s, e.id, t);
    } else if e.RunSweep? && t != s {
      SweptAreOld(cfg, s, e, t);
    }
  }

  /** The event makes the manager forget the resolution of alert `i` while its hold runs. */
  ghost predicate LiftedBy(cfg: Config, s: State, e: Event, i: nat) {
    i < |s.core.book| && HoldRuns(cfg, s.core, i) && Forgets(cfg, s, e, i)
  }

  /** A step lifts exactly the holds that run and whose resolution it forgets. */
  lemma LiftedIff(cfg: Config, s: State, e: Event, i: nat, t: State)
    requires Inv(cfg, s.core) && Backed(s.core) && UniqueRules(cfg) && t == Step(cfg, s, e)
    ensures i in t.core.lifted <==> i in s.core.lifted || LiftedBy(cfg, s, e, i)
  {
    OnlyOldLifted(cfg, s, e, t);
    if i < |s.core.book| {
      OldLifted(cfg, s, e, t, i);
    }
  }
}
