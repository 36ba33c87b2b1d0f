/** The alert manager as the actor it is: maps updated in place by message handlers and a periodic sweep. */
module AlertActor {
  import opened Basics
  import opened Rules
  import opened AlertManager
  import opened AlertLaws
  import AlertEvents

  /** Resolving in two goes is resolving at once. */
  lemma EndTwice(c: Core, a: set<Key>, b: set<Key>, manual: bool)
    ensures End(End(c, a, manual), b, manual) == End(c, a + b, manual)
  {
    var once, twice := End(c, a + b, manual), End(End(c, a, manual), b, manual);
    assert once.active == twice.active;
    forall i | 0 <= i < |c.book|
      ensures twice.book[i] == once.book[i]
    {
      assert c.book[i].key in a ==> !IsOpen(End(c, a, manual), i);
    }
    assert once.book == twice.book;
  }

  lemma EndNone(c: Core, manual: bool)
    ensures End(c, {}, manual) == c
  {
    assert End(c, {}, manual).active == c.active && End(c, {}, manual).book == c.book;
  }

  class Manager {
    const cfg: Config
    const born: int
    var active: map<Key, Active>
    var breach: map<Key, int>
    var hold: map<Key, int>
    var latched: set<string>
    var devices: map<string, Known>
    var predictions: map<string, seq<Stored>>
    var edges: map<string, int>
    var now: int
    var nextId: nat
    ghost var book: seq<Record>
    ghost var quiet: set<(Key, int)>
    ghost var lifted: set<nat>
    ghost var trace: seq<Event>

    ghost function Alerts(): Core
      reads this
    {
      Core(active, breach, hold, now, book, quiet, lifted)
    }

    ghost function View(): State
      reads this
    {
      State(Alerts(), latched, devices, predictions, edges)
    }

    ghost predicate Numbered()
      reads this
    {
      nextId == |book|
    }

    /** Every object is the state of a run. */
    ghost predicate Valid()
      reads this
    {
      Numbered() && View() == Run(cfg, born, trace)
    }

    constructor (cfg: Config, now: int)
      ensures Valid() && View() == Init(now) && this.cfg == cfg
    {
      this.cfg, this.born, this.now := cfg, now, now;
      active, breach, hold, latched := map[], map[], map[], {};
      devices, predictions, edges, nextId := map[], map[], map[], 0;
      book, quiet, lifted, trace := [], {}, {}, [];
    }

    ghost method Log(e: Event)
      requires Valid()
      modifies this`trace
      ensures trace == old(trace) + [e]
      ensures Run(cfg, born, trace) == Step(cfg, View(), e)
    {
      RunSnoc(cfg, born, trace, e);
      trace := trace + [e];
    }

    // -- one alert

    method OpenAlert(key: Key, ghost since: int)
      requires Numbered()
      modifies this`active, this`nextId, this`book
      ensures Numbered() && Alerts() == Open(old(Alerts()), key, since)
    {
      active := active[key := Active(nextId, now, now, false)];
      nextId := nextId + 1;
      book := book + [Record(key, since, [Fired(now, true)], None, None)];
    }

    method Reported(key: Key)
      requires key in active
      modifies this`active
      ensures Alerts() == Touch(old(Alerts()), key)
    {
      active := active[key := active[key].(lastReported := now)];
    }

    /** The answer says whether it notifies and acts. */
    method FireAgain(key: Key) returns (loud: bool)
      requires key in active && Numbered()
      modifies this`active, this`book
      ensures Numbered() && Alerts() == Refire(old(Alerts()), key)
      ensures loud == !old(active)[key].acknowledged
    {
      loud := !active[key].acknowledged;
      active := active[key := active[key].(lastFired := now, lastReported := now)];
      book := Refire(old(Alerts()), key).book;
    }

    method ResolveKey(key: Key, ghost manual: bool)
      requires Numbered()
      modifies this`active, this`book
      ensures Numbered() && Alerts() == End(old(Alerts()), {key}, manual)
    {
      ghost var after := End(Alerts(), {key}, manual);
      active := active - {key};
      book := after.book;
      assert active == after.active;
    }

    method ResolveKeys(doomed: set<Key>)
      requires Numbered()
      modifies this`active, this`book
      ensures Numbered() && Alerts() == End(old(Alerts()), doomed, false)
    {
      ghost var before := Alerts();
      var left := doomed;
      EndNone(before, false);
      while left != {}
        invariant left <= doomed && Numbered()
        invariant Alerts() == End(before, doomed - left, false)
        decreases |left|
      {
        var key :| key in left;
        EndTwice(before, doomed - left, {key}, false);
        assert doomed - left + {key} == doomed - (left - {key});
        ResolveKey(key, false);
        left := left - {key};
      }
      assert doomed - {} == doomed;
    }

    // -- rules

    method FireRuleNow(r: ManagedRule, key: Key, ghost since: int)
      requires Numbered()
      modifies this`active, this`hold, this`nextId, this`book
      ensures Numbered() && Alerts() == FireNow(old(Alerts()), cfg, r, key, since)
    {
      if key in active {
        if r.suppressRepeat || now - active[key].lastFired < Cooldown(cfg, key.rule) {
          Reported(key);
        } else {
          var _ := FireAgain(key);
        }
        return;
      }
      if key in hold {
        if now - hold[key] < Cooldown(cfg, key.rule) {
          return;
        }
      }
      hold := hold - {key};
      if |set k | k in active && k.rule == r.rule.id| < Cap(cfg, r) {
        OpenAlert(key, since);
      }
    }

    method Fire(r: ManagedRule, key: Key)
      requires Numbered()
      modifies this`active, this`breach, this`hold, this`nextId, this`book
      ensures Numbered() && Alerts() == FireRule(old(Alerts()), cfg, r, key)
    {
      var window := Window(r);
      if window.Some? {
        if key !in breach {
          breach := breach[key := now];
        }
        assert breach == Breach(old(Alerts()), key).breach;
        if now - breach[key] < window.value {
          return;
        }
        FireRuleNow(r, key, breach[key]);
      } else {
        FireRuleNow(r, key, now);
      }
    }

    method Evaluate(r: ManagedRule, ctx: Context, sweep: bool)
      requires Numbered()
      modifies this`active, this`breach, this`hold, this`nextId, this`book, this`quiet
      ensures Numbered() && Alerts() == EvaluateRule(old(Alerts()), cfg, r, ctx, sweep)
    {
      var key := Key(r.rule.id, ctx.edgeId, ctx.deviceId);
      if RuleIsCleared(r.rule, ctx, now) {
        breach := breach - {key};
        quiet := quiet + {(key, now)};
        ResolveKey(key, false);
      } else if sweep && !IsTimeBased(r.rule.condition) {
      } else if RuleEvaluate(r.rule, ctx, now) {
        Fire(r, key);
      } else {
        breach := breach - {key};
        quiet := quiet + {(key, now)};
      }
    }

    method EvaluateDevice(ctx: Context, sweep: bool)
      requires Numbered()
      modifies this`active, this`breach, this`hold, this`nextId, this`book, this`quiet
      ensures Numbered() && Alerts() == EvaluateRules(old(Alerts()), cfg, ctx, sweep, |cfg.rules|)
    {
      for n := 0 to |cfg.rules|
        invariant Numbered() && Alerts() == EvaluateRules(old(Alerts()), cfg, ctx, sweep, n)
      {
        Evaluate(cfg.rules[n], ctx, sweep);
      }
    }

    /** Edge alerts and predictions. */
    method Ingest(key: Key)
      requires Numbered()
      modifies this`active, this`hold, this`nextId, this`book
      ensures Numbered() && Alerts() == Report(old(Alerts()), cfg, key)
    {
      if key in active {
        if now - active[key].lastFired < Cooldown(cfg, key.rule) {
          Reported(key);
        } else {
          var _ := FireAgain(key);
        }
        return;
      }
      if key in hold {
        if now - hold[key] < Cooldown(cfg, key.rule) {
          return;
        }
      }
      hold := hold - {key};
      OpenAlert(key, now);
    }

    // -- messages

    method Elapses(ms: nat)
      requires Valid()
      modifies this
      ensures Valid() && trace == old(trace) + [Elapse(ms)] && View() == Step(cfg, old(View()), Elapse(ms))
    {
      Log(Elapse(ms));
      now := now + ms;
    }

    method SeeEdge(edge: string, at: int)
      requires Numbered()
      modifies this`active, this`book, this`edges, this`latched
      ensures Numbered() && View() == MarkEdgeSeen(old(View()), edge, at)
    {
      if !(edge in edges && edges[edge] >= at) {
        edges := edges[edge := at];
      }
      assert edges == old(edges)[edge := Later(old(edges), edge, at)];
      latched := latched - {edge};
      ResolveKey(Key(EDGE_OFFLINE, edge, ""), false);
    }

    method HandleStatus(edge: string, device: string, status: HealthStatus, metrics: map<string, MetricValue>)
      requires Valid()
      modifies this
      ensures Valid() && trace == old(trace) + [StatusReport(edge, device, status, metrics)]
      ensures View() == Step(cfg, old(View()), StatusReport(edge, device, status, metrics))
    {
      Log(StatusReport(edge, device, status, metrics));
      TakeStatus(edge, device, status, metrics);
    }

    method TakeStatus(edge: string, device: string, status: HealthStatus, metrics: map<string, MetricValue>)
      requires Numbered()
      modifies this`active, this`breach, this`hold, this`latched, this`devices, this`edges,
               this`nextId, this`book, this`quiet
      ensures Numbered() && View() == OnStatus(old(View()), cfg, edge, device, status, metrics)
    {
      var previous := if device in devices then Some(devices[device].status) else None;
      var infos := if device in predictions then InfosOf(predictions[device]) else [];
      var ctx := Context(device, edge, status, previous, metrics, now, infos);
      assert ctx == ReportContext(View(), edge, device, status, metrics);
      SeeReport(edge, device, status, metrics);
      EvaluateDevice(ctx, false);
      if status == Healthy {
        ResolveEdgeAlerts(edge, device, EDGE_PREFIX);
      }
    }

    /** The edge is alive, and the device in that state. */
    method SeeReport(edge: string, device: string, status: HealthStatus, metrics: map<string, MetricValue>)
      requires Numbered()
      modifies this`active, this`book, this`latched, this`edges, this`devices
      ensures Numbered()
      ensures View() == MarkEdgeSeen(old(View()), edge, now)
                          .(devices := old(devices)[device := Known(edge, status, metrics, now)])
    {
      SeeEdge(edge, now);
      devices := devices[device := Known(edge, status, metrics, now)];
    }

    method ResolveEdgeAlerts(edge: string, device: string, prefix: string)
      requires Numbered()
      modifies this`active, this`book
      ensures Numbered() && Alerts() == End(old(Alerts()), ActiveWhere(old(Alerts()), edge, device, prefix), false)
    {
      ResolveKeys(set k | k in active && k.edge == edge && k.device == device && prefix <= k.rule);
    }

    method HandleEdgeAlert(edge: string, device: string, metric: Option<string>)
      requires Valid()
      modifies this
      ensures Valid() && trace == old(trace) + [EdgeAlert(edge, device, metric)]
      ensures View() == Step(cfg, old(View()), EdgeAlert(edge, device, metric))
    {
      Log(EdgeAlert(edge, device, metric));
      Ingest(Key(EDGE_PREFIX + if metric.Some? then metric.value else "device-alert", edge, device));
    }

    method HandlePrediction(edge: string, device: string, info: PredictionInfo)
      requires Valid()
      modifies this
      ensures Valid() && trace == old(trace) + [PredictionReport(edge, device, info)]
      ensures View() == Step(cfg, old(View()), PredictionReport(edge, device, info))
    {
      Log(PredictionReport(edge, device, info));
      TakePrediction(edge, device, info);
    }

    method TakePrediction(edge: string, device: string, info: PredictionInfo)
      requires Numbered()
      modifies this`active, this`hold, this`predictions, this`nextId, this`book
      ensures Numbered() && View() == OnPrediction(old(View()), cfg, edge, device, info)
    {
      var stored := if device in predictions then predictions[device] else [];
      predictions := predictions[device := Remember(stored, Stored(info, now))];
      if !info.probability.Finite? || Below(info.probability, cfg.predictionThreshold) {
        return;
      }
      Ingest(Key(PREDICTION_PREFIX + info.predictionType, edge, device));
    }

    method HandleEdgeSeen(edge: string)
      requires Valid()
      modifies this
      ensures Valid() && trace == old(trace) + [EdgeSeen(edge)] && View() == Step(cfg, old(View()), EdgeSeen(edge))
    {
      Log(EdgeSeen(edge));
      SeeEdge(edge, now);
    }

    method HandleEdgeDisconnected(edge: string)
      requires Valid()
      modifies this
      ensures Valid() && trace == old(trace) + [EdgeDisconnected(edge)]
      ensures View() == Step(cfg, old(View()), EdgeDisconnected(edge))
    {
      Log(EdgeDisconnected(edge));
      if edge !in edges {
        edges := edges[edge := now];
      }
    }

    method ForgetHolds(gone: set<string>)
      requires Numbered()
      modifies this`hold, this`lifted
      ensures Numbered() && Alerts() == DropHolds(old(Alerts()), cfg, HoldsOf(old(Alerts()), gone))
    {
      ghost var after := DropHolds(Alerts(), cfg, HoldsOf(Alerts(), gone));
      lifted := after.lifted;
      hold := map k | k in hold && k.device !in gone :: hold[k];
      assert hold == after.hold;
    }

    /** Everything kept for those devices goes. */
    method Forget(gone: set<string>)
      requires Numbered()
      modifies this`devices, this`predictions, this`breach, this`hold, this`lifted
      ensures Numbered() && View() == ForgetAll(old(View()), cfg, gone)
    {
      ForgetHolds(gone);
      breach := map k | k in breach && k.device !in gone :: breach[k];
      devices := map d | d in devices && d !in gone :: devices[d];
      predictions := map d | d in predictions && d !in gone :: predictions[d];
    }

    method HandleRemoved(edge: string, device: string)
      requires Valid()
      modifies this
      ensures Valid() && trace == old(trace) + [DeviceRemoved(edge, device)]
      ensures View() == Step(cfg, old(View()), DeviceRemoved(edge, device))
    {
      Log(DeviceRemoved(edge, device));
      if !(device in devices && devices[device].edge != edge) {
        Forget({device});
      }
      ResolveEdgeAlerts(edge, device, "");
    }

    /** The active alert of that id, found by looking at them all. */
    method Find(id: nat) returns (key: Option<Key>)
      requires Booked(Alerts())
      ensures key.Some? <==> IsActiveId(Alerts(), id)
      ensures key.Some? ==> key.value == book[id].key && key.value in active
    {
      var left := active.Keys;
      key := None;
      while left != {}
        invariant left <= active.Keys && key.None?
        invariant forall k | k in active :: k in left || active[k].id != id
        decreases |left|
      {
        var k :| k in left;
        assert BookedAs(Alerts(), k);
        if active[k].id == id {
          return Some(k);
        }
        left := left - {k};
      }
    }

    method HandleAcknowledge(id: nat)
      requires Valid() && UniqueRules(cfg)
      modifies this
      ensures Valid() && trace == old(trace) + [AcknowledgeAlert(id)]
      ensures View() == Step(cfg, old(View()), AcknowledgeAlert(id))
      ensures id < |old(book)| && old(book)[id].ended.None? ==> id < |book| && book[id].acknowledged.Some?
    {
      RunInv(cfg, born, trace);
      ghost var before := View();
      Log(AcknowledgeAlert(id));
      AcknowledgeNow(id);
      if id < |before.core.book| {
        AlertEvents.AcknowledgementMakes(cfg, before, id, id, View());
      }
    }

    method AcknowledgeNow(id: nat)
      requires Numbered() && Booked(Alerts())
      modifies this`active, this`book
      ensures Numbered() && View() == Step(cfg, old(View()), AcknowledgeAlert(id))
    {
      var key := Find(id);
      if key.Some? {
        ghost var after := Acknowledge(Alerts(), key.value);
        active := active[key.value := active[key.value].(acknowledged := true)];
        book := after.book;
      }
    }

    method HandleResolve(id: nat)
      requires Valid() && UniqueRules(cfg)
      modifies this
      ensures Valid() && trace == old(trace) + [ResolveAlert(id)]
      ensures View() == Step(cfg, old(View()), ResolveAlert(id))
    {
      RunInv(cfg, born, trace);
      Log(ResolveAlert(id));
      ResolveNow(id);
    }

    method ResolveNow(id: nat)
      requires Numbered() && Booked(Alerts())
      modifies this`active, this`book, this`hold, this`latched
      ensures Numbered() && View() == OnResolve(old(View()), id)
    {
      var key := Find(id);
      if key.Some? {
        if key.value.rule == EDGE_OFFLINE {
          latched := latched + {key.value.edge};
        } else {
          hold := hold[key.value := now];
        }
        ResolveKey(key.value, true);
      }
    }

    // -- the sweep

    method SweepSessions(sessions: seq<(string, int)>)
      requires Numbered()
      modifies this`active, this`book, this`edges, this`latched
      ensures Numbered() && View() == SeeSessions(old(View()), cfg, sessions)
    {
      for i := 0 to |sessions|
        invariant Numbered()
        invariant SeeSessions(View(), cfg, sessions[i..]) == SeeSessions(old(View()), cfg, sessions)
      {
        assert sessions[i..][1..] == sessions[i + 1..];
        var edge, last := sessions[i].0, sessions[i].1;
        if cfg.edgeOfflineAfterSecs > 0 && now - last <= 1000 * cfg.edgeOfflineAfterSecs {
          SeeEdge(edge, last);
        } else {
          edges := edges[edge := Later(edges, edge, last)];
        }
      }
      assert sessions[|sessions|..] == [];
    }

    method SweepAllDevices(order: seq<string>)
      requires Numbered()
      modifies this`active, this`breach, this`hold, this`nextId, this`book, this`quiet
      ensures Numbered() && View() == SweepDevices(old(View()), cfg, order)
    {
      for i := 0 to |order|
        invariant Numbered()
        invariant SweepDevices(View(), cfg, order[i..]) == SweepDevices(old(View()), cfg, order)
      {
        assert order[i..][1..] == order[i + 1..];
        if order[i] in devices {
          var d := devices[order[i]];
          var infos := if order[i] in predictions then InfosOf(predictions[order[i]]) else [];
          EvaluateDevice(Context(order[i], d.edge, d.status, Some(d.status), d.metrics, d.lastSeen, infos), true);
        }
      }
      assert order[|order|..] == [];
    }

    method ExpireAll()
      requires Numbered()
      modifies this`active, this`book, this`predictions
      ensures Numbered()
      ensures var e := ExpirePredictions(old(View()), cfg);
              View() == e.(core := End(e.core, Expired(e.core, cfg), false))
    {
      var ttl := AtLeastOneMinute(cfg.predictionTtlMinutes);
      predictions := map d | d in predictions && Unexpired(predictions[d], now, ttl) != []
                       :: Unexpired(predictions[d], now, ttl);
      var edgeTtl := AtLeastOneMinute(cfg.edgeTtlMinutes);
      ResolveKeys(set k | k in active &&
        ((EDGE_PREFIX <= k.rule && now - active[k].lastReported > edgeTtl) ||
         (PREDICTION_PREFIX <= k.rule && now - active[k].lastReported > ttl)));
    }

    method OpenSilentEdges(order: seq<string>)
      requires Numbered()
      modifies this`active, this`nextId, this`book
      ensures Numbered() && View() == OpenOffline(old(View()), cfg, order)
    {
      for i := 0 to |order|
        invariant Numbered()
        invariant OpenOffline(View(), cfg, order[i..]) == OpenOffline(old(View()), cfg, order)
      {
        assert order[i..][1..] == order[i + 1..];
        var edge := order[i];
        var key := Key(EDGE_OFFLINE, edge, "");
        if cfg.edgeOfflineAfterSecs > 0 && edge in edges && now - edges[edge] > 1000 * cfg.edgeOfflineAfterSecs
           && edge !in latched && key !in active {
          OpenAlert(key, now);
        }
      }
      assert order[|order|..] == [];
    }

    method DropOld()
      requires Numbered()
      modifies this`edges, this`hold, this`breach, this`lifted
      ensures Numbered() && View() == Prune(old(View()), cfg)
    {
      edges := map e | e in edges && now - edges[e] <= Retention(cfg) :: edges[e];
      PruneHolds();
      breach := map k | k in breach && (k in active || k.device in devices) :: breach[k];
    }

    method PruneHolds()
      requires Numbered()
      modifies this`hold, this`lifted
      ensures Numbered() && Alerts() == DropHolds(old(Alerts()), cfg, OldHolds(old(Alerts()), cfg))
    {
      ghost var after := DropHolds(Alerts(), cfg, OldHolds(Alerts(), cfg));
      lifted := after.lifted;
      hold := map k | k in hold && now - hold[k] <= Retention(cfg) :: hold[k];
      assert hold == after.hold;
    }

    method Sweep(sessions: seq<(string, int)>, deviceOrder: seq<string>, edgeOrder: seq<string>)
      requires Valid() && IsOrderOf(deviceOrder, devices.Keys)
      requires IsOrderOf(edgeOrder, BeforeOffline(View(), cfg, sessions, deviceOrder).edges.Keys)
      modifies this
      ensures Valid() && trace == old(trace) + [RunSweep(sessions, deviceOrder, edgeOrder)]
      ensures View() == Step(cfg, old(View()), RunSweep(sessions, deviceOrder, edgeOrder))
    {
      Log(RunSweep(sessions, deviceOrder, edgeOrder));
      SweepAll(sessions, deviceOrder, edgeOrder);
    }

    method SweepAll(sessions: seq<(string, int)>, deviceOrder: seq<string>, edgeOrder: seq<string>)
      requires Numbered()
      modifies this`active, this`breach, this`hold, this`latched, this`devices, this`predictions, this`edges,
               this`nextId, this`book, this`quiet, this`lifted
      ensures Numbered() && View() == OnSweep(old(View()), cfg, sessions, deviceOrder, edgeOrder)
    {
      SweepSessions(sessions);
      SweepAllDevices(deviceOrder);
      ExpireAll();
      assert View() == BeforeOffline(old(View()), cfg, sessions, deviceOrder);
      OpenSilentEdges(edgeOrder);
      ForgetStale();
      DropOld();
    }

    method ForgetStale()
      requires Numbered()
      modifies this`devices, this`predictions, this`breach, this`hold, this`lifted
      ensures Numbered() && View() == ForgetAll(old(View()), cfg, Stale(old(View()), cfg))
    {
      Forget(set d | d in devices && now - devices[d].lastSeen > Retention(cfg)
                     && forall k | k in active :: k.edge == devices[d].edge ==> k.device != d);
    }
  }
}
