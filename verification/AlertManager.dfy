/**
 The hub's alert manager (crates/nimon-hub/src/alert/manager.rs): the life of alerts under device
 reports, edge alerts, predictions, operators and the periodic sweep.

 Everything said about single alerts is kept in a `Book`-keeping half, `Core`: the alerts that are
 active, and a record of every alert there has been. What the manager knows about devices and edges
 is around it. Time is in milliseconds; one event happens at one instant.
 */
module AlertManager {
  import opened Basics
  import opened Rules

  // ------------------------------------------------------------------ configuration

  datatype ManagedRule = ManagedRule(
    rule: AlertRule,
    cooldownMinutes: int,
    suppressRepeat: bool,
    maxFiring: Option<int>)

  datatype Config = Config(
    rules: seq<ManagedRule>,
    defaultCooldownMinutes: int,
    maxFiring: int,
    predictionThreshold: F64,
    predictionTtlMinutes: int,
    edgeTtlMinutes: int,
    edgeOfflineAfterSecs: nat,
    retentionHours: int)

  /** Rule ids are unique, as the configuration makes them. */
  ghost predicate UniqueRules(cfg: Config) {
    forall i, j :: 0 <= i < j < |cfg.rules| ==> cfg.rules[i].rule.id != cfg.rules[j].rule.id
  }

  const EDGE_OFFLINE := "builtin-edge-offline"
  const EDGE_PREFIX := "edge:"
  const PREDICTION_PREFIX := "pred-"

  /** Ids of alerts that the configuration lets something else raise than rules. */
  predicate Foreign(cfg: Config, rule: string) {
    || EDGE_PREFIX <= rule
    || (PREDICTION_PREFIX <= rule && cfg.predictionThreshold != PosInf)
    || (rule == EDGE_OFFLINE && cfg.edgeOfflineAfterSecs > 0)
  }

  function FindRule(rules: seq<ManagedRule>, id: string): (r: Option<ManagedRule>)
    ensures r.Some? ==> r.value in rules && r.value.rule.id == id
    ensures r.None? ==> forall k | k in rules :: k.rule.id != id
  {
    if rules == [] then None
    else if rules[0].rule.id == id then Some(rules[0])
    else FindRule(rules[1..], id)
  }

  function Minutes(n: int): int { 60000 * n }

  function NonNegative(n: int): (r: nat) { if n < 0 then 0 else n }

  /** Milliseconds between fires of one alert, and after a manual resolution. */
  function Cooldown(cfg: Config, rule: string): (ms: int)
    ensures ms >= 0
  {
    var r := FindRule(cfg.rules, rule);
    Minutes(NonNegative(if r.Some? then r.value.cooldownMinutes else cfg.defaultCooldownMinutes))
  }

  function Cap(cfg: Config, r: ManagedRule): int { if r.maxFiring.Some? then r.maxFiring.value else cfg.maxFiring }

  /** How long a breach must last; only a plain threshold rule has such a window. */
  function Window(r: ManagedRule): Option<int> {
    if r.rule.condition.MetricThreshold? && r.rule.condition.durationMinutes.Some?
    then Some(Minutes(r.rule.condition.durationMinutes.value))
    else None
  }

  function Retention(cfg: Config): int { 60 * Minutes(if cfg.retentionHours < 1 then 1 else cfg.retentionHours) }

  function AtLeastOneMinute(n: int): int { Minutes(if n < 1 then 1 else n) }

  // ------------------------------------------------------------------ alerts

  /** One alert per rule, edge and device. */
  datatype Key = Key(rule: string, edge: string, device: string)

  datatype Active = Active(id: nat, lastFired: int, lastReported: int, acknowledged: bool)

  /** A fire sends a notification and runs the rule's action, or does neither. */
  datatype Fired = Fired(at: int, notified: bool)

  datatype Ending = Ending(at: int, manual: bool)

  /**
   What became of one alert: `since`, when its breach began; `acknowledged`, after how many fires;
   `ended`, when and how it was resolved.
   */
  datatype Record = Record(key: Key, since: int, fires: seq<Fired>, acknowledged: Option<nat>, ended: Option<Ending>)

  datatype Core = Core(
    active: map<Key, Active>,
    breach: map<Key, int>,
    hold: map<Key, int>,
    now: int,
    book: seq<Record>,          // of all alerts, by id
    quiet: set<(Key, int)>,     // when a rule was looked at and did not fire
    lifted: set<nat>)           // alerts whose hold was dropped before its time

  function Open(c: Core, key: Key, since: int): Core {
    c.(active := c.active[key := Active(|c.book|, c.now, c.now, false)],
       book := c.book + [Record(key, since, [Fired(c.now, true)], None, None)])
  }

  function Touch(c: Core, key: Key): Core
    requires key in c.active
  {
    c.(active := c.active[key := c.active[key].(lastReported := c.now)])
  }

  /** Silent once acknowledged. */
  function Refire(c: Core, key: Key): Core
    requires key in c.active
  {
    var a := c.active[key];
    c.(active := c.active[key := a.(lastFired := c.now, lastReported := c.now)],
       book := if a.id < |c.book|
               then c.book[a.id := c.book[a.id].(fires := c.book[a.id].fires + [Fired(c.now, !a.acknowledged)])]
               else c.book)
  }

  function Acknowledge(c: Core, key: Key): Core
    requires key in c.active
  {
    var a := c.active[key];
    c.(active := c.active[key := a.(acknowledged := true)],
       book := if a.id < |c.book| && c.book[a.id].acknowledged.None?
               then c.book[a.id := c.book[a.id].(acknowledged := Some(|c.book[a.id].fires|))]
               else c.book)
  }

  /** The record of an alert that is active. */
  predicate IsOpen(c: Core, i: nat)
    requires i < |c.book|
  {
    c.book[i].key in c.active && c.active[c.book[i].key].id == i
  }

  /** Every active alert of those keys is resolved. */
  function End(c: Core, doomed: set<Key>, manual: bool): Core {
    c.(active := map k | k in c.active && k !in doomed :: c.active[k],
       book := seq(|c.book|, i requires 0 <= i < |c.book| =>
                 if IsOpen(c, i) && c.book[i].key in doomed then c.book[i].(ended := Some(Ending(c.now, manual)))
                 else c.book[i]))
  }

  /** A rule was looked at and did not fire: a breach that had begun is over. */
  function Quiet(c: Core, key: Key): Core { c.(breach := c.breach - {key}, quiet := c.quiet + {(key, c.now)}) }

  function Breach(c: Core, key: Key): Core {
    c.(breach := c.breach[key := if key in c.breach then c.breach[key] else c.now])
  }

  /** Manual resolutions whose hold would still be on. */
  function StillHeld(c: Core, cfg: Config): set<nat> {
    set i | 0 <= i < |c.book| && HeldUntil(c, cfg, i) > c.now
  }

  function HeldUntil(c: Core, cfg: Config, i: nat): int
    requires i < |c.book|
  {
    var r := c.book[i];
    if r.ended.Some? && r.ended.value.manual && r.key.rule != EDGE_OFFLINE
    then r.ended.value.at + Cooldown(cfg, r.key.rule) else c.now
  }

  /** The holds of those keys are dropped, run out or not. */
  function DropHolds(c: Core, cfg: Config, dropped: set<Key>): Core {
    c.(hold := map k | k in c.hold && k !in dropped :: c.hold[k],
       lifted := c.lifted + set i | i in StillHeld(c, cfg) && c.book[i].key in dropped)
  }

  function HoldsOf(c: Core, devices: set<string>): set<Key> { set k | k in c.hold && k.device in devices }

  function OldHolds(c: Core, cfg: Config): set<Key> { set k | k in c.hold && c.now - c.hold[k] > Retention(cfg) }

  function FiringCount(c: Core, rule: string): nat { |set k | k in c.active && k.rule == rule| }

  predicate HoldIsOn(c: Core, cfg: Config, key: Key) {
    key in c.hold && c.now - c.hold[key] < Cooldown(cfg, key.rule)
  }

  /** A rule whose condition holds: with a window, only once it has held for that long. */
  function FireRule(c: Core, cfg: Config, r: ManagedRule, key: Key): Core {
    if Window(r).None? then FireNow(c, cfg, r, key, c.now)
    else
      var b := Breach(c, key);
      if c.now - b.breach[key] < Window(r).value then b else FireNow(b, cfg, r, key, b.breach[key])
  }

  function FireNow(c: Core, cfg: Config, r: ManagedRule, key: Key, since: int): Core {
    if key in c.active then
      if r.suppressRepeat || c.now - c.active[key].lastFired < Cooldown(cfg, key.rule) then Touch(c, key)
      else Refire(c, key)
    else if HoldIsOn(c, cfg, key) then c
    else
      var h := c.(hold := c.hold - {key});
      if FiringCount(h, r.rule.id) >= Cap(cfg, r) then h else Open(h, key, since)
  }

  predicate IsTimeBased(c: RuleCondition) {
    match c
    case DeviceOffline(_) => true
    case Prediction(_, _, _) => true
    case Composite(_, conditions) => exists k | k in conditions :: IsTimeBased(k)
    case _ => false
  }

  function EvaluateRule(c: Core, cfg: Config, r: ManagedRule, ctx: Context, sweep: bool): Core {
    var key := Key(r.rule.id, ctx.edgeId, ctx.deviceId);
    if RuleIsCleared(r.rule, ctx, c.now) then End(Quiet(c, key), {key}, false)
    else if sweep && !IsTimeBased(r.rule.condition) then c
    else if RuleEvaluate(r.rule, ctx, c.now) then FireRule(c, cfg, r, key)
    else Quiet(c, key)
  }

  /** The first `n` rules, in order. */
  function EvaluateRules(c: Core, cfg: Config, ctx: Context, sweep: bool, n: nat): Core
    requires n <= |cfg.rules|
  {
    if n == 0 then c else EvaluateRule(EvaluateRules(c, cfg, ctx, sweep, n - 1), cfg, cfg.rules[n - 1], ctx, sweep)
  }

  /** A problem reported from outside, by an edge or a prediction. */
  function Report(c: Core, cfg: Config, key: Key): Core {
    if key in c.active then
      if c.now - c.active[key].lastFired < Cooldown(cfg, key.rule) then Touch(c, key) else Refire(c, key)
    else if HoldIsOn(c, cfg, key) then c
    else Open(c.(hold := c.hold - {key}), key, c.now)
  }

  // ------------------------------------------------------------------ the manager

  /** The last-known state of a device. */
  datatype Known = Known(edge: string, status: HealthStatus, metrics: map<string, MetricValue>, lastSeen: int)

  datatype Stored = Stored(info: PredictionInfo, at: int)

  datatype State = State(
    core: Core,
    latched: set<string>,               // edges whose offline alert was resolved by hand
    devices: map<string, Known>,
    predictions: map<string, seq<Stored>>,
    edges: map<string, int>)            // when each was last seen

  function Init(now: int): State { State(Core(map[], map[], map[], now, [], {}, {}), {}, map[], map[], map[]) }

  datatype Event =
    | Elapse(ms: nat)
    | StatusReport(edge: string, device: string, status: HealthStatus, metrics: map<string, MetricValue>)
    | EdgeAlert(edge: string, device: string, metric: Option<string>)
    | PredictionReport(edge: string, device: string, info: PredictionInfo)
    | EdgeSeen(edge: string)
    | EdgeDisconnected(edge: string)
    | DeviceRemoved(edge: string, device: string)
    | AcknowledgeAlert(id: nat)
    | ResolveAlert(id: nat)
    | RunSweep(sessions: seq<(string, int)>, deviceOrder: seq<string>, edgeOrder: seq<string>)

  function InfosOf(stored: seq<Stored>): (infos: seq<PredictionInfo>)
    ensures |infos| == |stored| && forall i :: 0 <= i < |stored| ==> infos[i] == stored[i].info
  {
    seq(|stored|, i requires 0 <= i < |stored| => stored[i].info)
  }

  function PredictionsFor(s: State, device: string): seq<PredictionInfo> {
    if device in s.predictions then InfosOf(s.predictions[device]) else []
  }

  function ActiveWhere(c: Core, edge: string, device: string, prefix: string): set<Key> {
    set k | k in c.active && k.edge == edge && k.device == device && prefix <= k.rule
  }

  function MarkEdgeSeen(s: State, edge: string, at: int): State {
    s.(edges := s.edges[edge := Later(s.edges, edge, at)],
       latched := s.latched - {edge},
       core := End(s.core, {Key(EDGE_OFFLINE, edge, "")}, false))
  }

  function Later(edges: map<string, int>, edge: string, at: int): int {
    if edge in edges && edges[edge] >= at then edges[edge] else at
  }

  function ContextOf(s: State, device: string): Context
    requires device in s.devices
  {
    var d := s.devices[device];
    Context(device, d.edge, d.status, Some(d.status), d.metrics, d.lastSeen, PredictionsFor(s, device))
  }

  /** What a device report is judged by. */
  function ReportContext(s: State, edge: string, device: string, status: HealthStatus,
                         metrics: map<string, MetricValue>): Context
  {
    var previous := if device in s.devices then Some(s.devices[device].status) else None;
    Context(device, edge, status, previous, metrics, s.core.now, PredictionsFor(s, device))
  }

  function OnStatus(s: State, cfg: Config, edge: string, device: string, status: HealthStatus,
                    metrics: map<string, MetricValue>): State
  {
    var ctx := ReportContext(s, edge, device, status, metrics);
    var known := Known(edge, status, metrics, s.core.now);
    var k := MarkEdgeSeen(s, edge, s.core.now).(devices := s.devices[device := known]);
    var e := k.(core := EvaluateRules(k.core, cfg, ctx, false, |cfg.rules|));
    if status.Healthy? then e.(core := End(e.core, ActiveWhere(e.core, edge, device, EDGE_PREFIX), false)) else e
  }

  function OnEdgeAlert(s: State, cfg: Config, edge: string, device: string, metric: Option<string>): State {
    s.(core := Report(s.core, cfg,
                      Key(EDGE_PREFIX + if metric.Some? then metric.value else "device-alert", edge, device)))
  }

  /** The newest prediction of each type is kept. */
  function Remember(stored: seq<Stored>, p: Stored): seq<Stored> {
    if stored == [] then [p]
    else if stored[0].info.predictionType == p.info.predictionType then [p] + stored[1..]
    else [stored[0]] + Remember(stored[1..], p)
  }

  function OnPrediction(s: State, cfg: Config, edge: string, device: string, info: PredictionInfo): State {
    var stored := if device in s.predictions then s.predictions[device] else [];
    var r := s.(predictions := s.predictions[device := Remember(stored, Stored(info, s.core.now))]);
    if !info.probability.Finite? || Below(info.probability, cfg.predictionThreshold) then r
    else r.(core := Report(r.core, cfg, Key(PREDICTION_PREFIX + info.predictionType, edge, device)))
  }

  /** Everything kept for a device is dropped, its holds on whatever edge included. */
  function ForgetAll(s: State, cfg: Config, gone: set<string>): State {
    var c := DropHolds(s.core, cfg, HoldsOf(s.core, gone));
    s.(devices := map d | d in s.devices && d !in gone :: s.devices[d],
       predictions := map d | d in s.predictions && d !in gone :: s.predictions[d],
       core := c.(breach := map k | k in c.breach && k.device !in gone :: c.breach[k]))
  }

  function OnRemoved(s: State, cfg: Config, edge: string, device: string): State {
    var f := if device in s.devices && s.devices[device].edge != edge then s else ForgetAll(s, cfg, {device});
    f.(core := End(f.core, ActiveWhere(f.core, edge, device, ""), false))
  }

  predicate IsActiveId(c: Core, id: nat) { id < |c.book| && IsOpen(c, id) }

  function OnResolve(s: State, id: nat): State {
    if !IsActiveId(s.core, id) then s
    else
      var key := s.core.book[id].key;
      var held :=
        if key.rule == EDGE_OFFLINE then s.(latched := s.latched + {key.edge})
        else s.(core := s.core.(hold := s.core.hold[key := s.core.now]));
      held.(core := End(held.core, {key}, true))
  }

  // -- the sweep

  /** Live sessions: one heard from lately counts as seen. */
  function SeeSessions(s: State, cfg: Config, sessions: seq<(string, int)>): State
    decreases |sessions|
  {
    if sessions == [] then s
    else
      var edge, last := sessions[0].0, sessions[0].1;
      var recent := cfg.edgeOfflineAfterSecs > 0 && s.core.now - last <= 1000 * cfg.edgeOfflineAfterSecs;
      SeeSessions(if recent then MarkEdgeSeen(s, edge, last)
                  else s.(edges := s.edges[edge := Later(s.edges, edge, last)]), cfg, sessions[1..])
  }

  function SweepDevices(s: State, cfg: Config, order: seq<string>): State
    decreases |order|
  {
    if order == [] then s
    else
      SweepDevices(if order[0] in s.devices
                   then s.(core := EvaluateRules(s.core, cfg, ContextOf(s, order[0]), true, |cfg.rules|)) else s,
                   cfg, order[1..])
  }

  function Unexpired(stored: seq<Stored>, now: int, ttl: int): seq<Stored> {
    if stored == [] then []
    else (if now - stored[0].at <= ttl then [stored[0]] else []) + Unexpired(stored[1..], now, ttl)
  }

  function ExpirePredictions(s: State, cfg: Config): State {
    var ttl := AtLeastOneMinute(cfg.predictionTtlMinutes);
    s.(predictions := map d | d in s.predictions && Unexpired(s.predictions[d], s.core.now, ttl) != []
                        :: Unexpired(s.predictions[d], s.core.now, ttl))
  }

  /** Reported alerts that have not been reported again in time. */
  function Expired(c: Core, cfg: Config): set<Key> {
    set k | k in c.active &&
      ((EDGE_PREFIX <= k.rule && c.now - c.active[k].lastReported > AtLeastOneMinute(cfg.edgeTtlMinutes)) ||
       (PREDICTION_PREFIX <= k.rule && c.now - c.active[k].lastReported > AtLeastOneMinute(cfg.predictionTtlMinutes)))
  }

  predicate IsSilent(s: State, cfg: Config, edge: string) {
    && cfg.edgeOfflineAfterSecs > 0 && edge in s.edges
    && s.core.now - s.edges[edge] > 1000 * cfg.edgeOfflineAfterSecs
  }

  function OpenOffline(s: State, cfg: Config, order: seq<string>): State
    decreases |order|
  {
    if order == [] then s
    else
      var key := Key(EDGE_OFFLINE, order[0], "");
      OpenOffline(if IsSilent(s, cfg, order[0]) && order[0] !in s.latched && key !in s.core.active
                  then s.(core := Open(s.core, key, s.core.now)) else s, cfg, order[1..])
  }

  /** Devices without a report for long, and without an active alert. */
  function Stale(s: State, cfg: Config): set<string> {
    set d | d in s.devices && s.core.now - s.devices[d].lastSeen > Retention(cfg)
            && forall k | k in s.core.active :: k.edge == s.devices[d].edge ==> k.device != d
  }

  function Prune(s: State, cfg: Config): State {
    var c := DropHolds(s.core, cfg, OldHolds(s.core, cfg));
    s.(edges := map e | e in s.edges && s.core.now - s.edges[e] <= Retention(cfg) :: s.edges[e],
       core := c.(breach := map k | k in c.breach && (k in c.active || k.device in s.devices) :: c.breach[k]))
  }

  function BeforeOffline(s: State, cfg: Config, sessions: seq<(string, int)>, deviceOrder: seq<string>): State {
    var e := ExpirePredictions(SweepDevices(SeeSessions(s, cfg, sessions), cfg, deviceOrder), cfg);
    e.(core := End(e.core, Expired(e.core, cfg), false))
  }

  /** A hash map is gone through in some order. */
  predicate IsOrderOf(order: seq<string>, keys: set<string>) {
    && (forall i, j :: 0 <= i < j < |order| ==> order[i] != order[j])
    && (forall x | x in order :: x in keys) && (forall x | x in keys :: x in order)
  }

  function OnSweep(s: State, cfg: Config, sessions: seq<(string, int)>, deviceOrder: seq<string>,
                   edgeOrder: seq<string>): State
  {
    var b := BeforeOffline(s, cfg, sessions, deviceOrder);
    var o := OpenOffline(b, cfg, edgeOrder);
    Prune(ForgetAll(o, cfg, Stale(o, cfg)), cfg)
  }

  /** An event that is not possible in `s` leaves it unchanged. */
  function Step(cfg: Config, s: State, e: Event): State {
    match e
    case Elapse(ms) => s.(core := s.core.(now := s.core.now + ms))
    case StatusReport(edge, device, status, metrics) => OnStatus(s, cfg, edge, device, status, metrics)
    case EdgeAlert(edge, device, metric) => OnEdgeAlert(s, cfg, edge, device, metric)
    case PredictionReport(edge, device, info) => OnPrediction(s, cfg, edge, device, info)
    case EdgeSeen(edge) => MarkEdgeSeen(s, edge, s.core.now)
    case EdgeDisconnected(edge) => if edge in s.edges then s else s.(edges := s.edges[edge := s.core.now])
    case DeviceRemoved(edge, device) => OnRemoved(s, cfg, edge, device)
    case AcknowledgeAlert(id) =>
      if IsActiveId(s.core, id) then s.(core := Acknowledge(s.core, s.core.book[id].key)) else s
    case ResolveAlert(id) => OnResolve(s, id)
    case RunSweep(sessions, deviceOrder, edgeOrder) =>
      if IsOrderOf(deviceOrder, s.devices.Keys)
         && IsOrderOf(edgeOrder, BeforeOffline(s, cfg, sessions, deviceOrder).edges.Keys)
      then OnSweep(s, cfg, sessions, deviceOrder, edgeOrder) else s
  }

  function Run(cfg: Config, now: int, events: seq<Event>): State {
    if events == [] then Init(now)
    else Step(cfg, Run(cfg, now, events[..|events| - 1]), events[|events| - 1])
  }

  lemma RunSnoc(cfg: Config, now: int, events: seq<Event>, e: Event)
    ensures Run(cfg, now, events + [e]) == Step(cfg, Run(cfg, now, events), e)
  {
    assert (events + [e])[..|events|] == events;
  }
}
