/** When an alert that was resolved by hand re-opens before its cooldown is over, over whole runs. */
module AlertReopening {
  import opened Basics
  import opened Rules
  import opened AlertManager
  import opened AlertLaws
  import opened AlertHolds
  import opened EdgeSocket
  import DeviceIdentity

  // ------------------------------------------------------------------ what was lifted in a run

  lemma {:induction false} RunBacked(cfg: Config, now: int, events: seq<Event>)
    requires UniqueRules(cfg)
    ensures Backed(Run(cfg, now, events).core)
  {
    if events != [] {
      var init := events[..|events| - 1];
      RunBacked(cfg, now, init);
      RunInv(cfg, now, init);
      StepBacked(cfg, Run(cfg, now, init), events[|events| - 1], Run(cfg, now, events));
    }
  }

  /** Some event of the run lifted the hold of alert `i`. */
  ghost predicate LiftedInRun(cfg: Config, now: int, events: seq<Event>, i: nat) {
    exists n :: 0 <= n < |events| && LiftedBy(cfg, Run(cfg, now, events[..n]), events[n], i)
  }

  lemma LiftedInRunSnoc(cfg: Config, now: int, init: seq<Event>, e: Event, i: nat)
    ensures LiftedInRun(cfg, now, init + [e], i)
       <==> LiftedInRun(cfg, now, init, i) || LiftedBy(cfg, Run(cfg, now, init), e, i)
  {
    var events := init + [e];
    assert events[..|init|] == init;
    assert forall n :: 0 <= n < |init| ==> events[..n] == init[..n] && events[n] == init[n];
  }

  lemma LiftedInOneMoreEvent(cfg: Config, now: int, init: seq<Event>, e: Event, i: nat)
    requires UniqueRules(cfg)
    requires i in Run(cfg, now, init).core.lifted <==> LiftedInRun(cfg, now, init, i)
    ensures i in Run(cfg, now, init + [e]).core.lifted <==> LiftedInRun(cfg, now, init + [e], i)
  {
    RunInv(cfg, now, init);
    RunBacked(cfg, now, init);
    RunSnoc(cfg, now, init, e);
    LiftedInRunSnoc(cfg, now, init, e, i);
    LiftedIff(cfg, Run(cfg, now, init), e, i, Run(cfg, now, init + [e]));
  }

  /** The hold of an alert has been lifted exactly if, while it ran, some event made the manager forget it. */
  lemma {:induction false} LiftedInRunIff(cfg: Config, now: int, events: seq<Event>, i: nat)
    requires UniqueRules(cfg)
    ensures i in Run(cfg, now, events).core.lifted <==> LiftedInRun(cfg, now, events, i)
  {
    if events != [] {
      var init, e := events[..|events| - 1], events[|events| - 1];
      LiftedInRunIff(cfg, now, init, i);
      LiftedInOneMoreEvent(cfg, now, init, e, i);
      assert events == init + [e];
    }
  }

  // ------------------------------------------------------------------ when an alert re-opens

  predicate LastOfItsKey(c: Core, i: nat)
    requires i < |c.book|
  {
    forall j :: i < j < |c.book| ==> c.book[j].key != c.book[i].key
  }

  lemma ClosedSince(cfg: Config, c: Core, i: nat)
    requires Inv(cfg, c) && i < |c.book| && c.book[i].ended.Some? && LastOfItsKey(c, i)
    ensures c.book[i].key !in c.active
  {
    var k := c.book[i].key;
    if k in c.active {
      assert BookedAs(c, k);
      var j := c.active[k].id;
      assert c.book[j].ended.None? <==> IsOpen(c, j);
      assert Orderly(c.book[i], c.now) && (j < i ==> Apart(c.book[j], c.book[i]));
      OpenIsLater(c, i, j);
    }
  }

  lemma OpenIsLater(c: Core, i: nat, j: nat)
    requires i < |c.book| && j < |c.book| && c.book[j].key == c.book[i].key
    requires c.book[i].ended.Some? && c.book[i].fires != [] && c.book[j].ended.None?
    requires j < i ==> Apart(c.book[j], c.book[i])
    ensures i < j
  {
  }

  lemma BackedByEarlier(c: Core, i: nat) returns (j: nat)
    requires Backed(c) && i < |c.book| && i in c.lifted && LastOfItsKey(c, i) && c.book[i].key in c.hold
    ensures j < i && BackedBy(c, c.book[i].key, j)
  {
    j :| BackedBy(c, c.book[i].key, j);
  }

  lemma LiftedIsNotHeld(cfg: Config, c: Core, i: nat)
    requires Inv(cfg, c) && Backed(c) && i < |c.book| && i in c.lifted && LastOfItsKey(c, i)
    ensures !HoldIsOn(c, cfg, c.book[i].key)
  {
    var k := c.book[i].key;
    if k in c.hold {
      var j := BackedByEarlier(c, i);
      LaterAlertOutlasts(cfg, c, j, i);
    }
  }

  lemma LaterAlertOutlasts(cfg: Config, c: Core, j: nat, i: nat)
    requires Inv(cfg, c) && j < i < |c.book| && c.book[j].key == c.book[i].key
    requires HeldFrom(c.book[j]).Some? && j !in c.lifted
    ensures c.now >= HeldFrom(c.book[j]).value + Cooldown(cfg, c.book[j].key.rule)
  {
    assert Respected(cfg, c, j, i) && Orderly(c.book[i], c.now);
  }

  /** The alert was resolved by hand, and its cooldown is not over. */
  predicate InCooldown(cfg: Config, c: Core, i: nat)
    requires i < |c.book|
  {
    ByHand(c.book[i]).Some? && c.now < ByHand(c.book[i]).value + Cooldown(cfg, c.book[i].key.rule)
  }

  lemma NeverHeld(c: Core, key: Key)
    requires Backed(c) && key.rule == EDGE_OFFLINE
    ensures key !in c.hold
  {
  }

  /**
   Inside the cooldown of the last alert of a key, resolved by hand, a hold is on exactly if the key
   is one that is held, and the hold was not lifted.
   */
  lemma HoldIsOnIff(cfg: Config, c: Core, i: nat)
    requires Inv(cfg, c) && Backed(c) && i < |c.book| && InCooldown(cfg, c, i) && LastOfItsKey(c, i)
    ensures c.book[i].key !in c.active
    ensures HoldIsOn(c, cfg, c.book[i].key) <==> c.book[i].key.rule != EDGE_OFFLINE && i !in c.lifted
  {
    ClosedSince(cfg, c, i);
    if c.book[i].key.rule == EDGE_OFFLINE {
      NeverHeld(c, c.book[i].key);
    } else if i in c.lifted {
      LiftedIsNotHeld(cfg, c, i);
    } else {
      RunningHold(cfg, c, i);
    }
  }

  /** A report from outside opens a key that is closed exactly if no hold is on. */
  lemma ReportOpensIff(cfg: Config, c: Core, key: Key)
    requires key !in c.active
    ensures key in Report(c, cfg, key).active <==> !HoldIsOn(c, cfg, key)
  {
  }

  /** A rule that fires does so if there is room for one more alert, besides. */
  lemma RuleOpensIff(cfg: Config, c: Core, r: ManagedRule, key: Key, since: int)
    requires key !in c.active && key.rule == r.rule.id
    ensures key in FireNow(c, cfg, r, key, since).active <==>
            !HoldIsOn(c, cfg, key) && FiringCount(c, r.rule.id) < Cap(cfg, r)
  {
    assert Firing(c.(hold := c.hold - {key}), r.rule.id) == Firing(c, r.rule.id);
  }

  /** In the run the last alert of its key was resolved by hand, and its cooldown is not over. */
  ghost predicate ResolvedLately(cfg: Config, now: int, events: seq<Event>, i: nat) {
    var c := Run(cfg, now, events).core;
    UniqueRules(cfg) && i < |c.book| && InCooldown(cfg, c, i) && LastOfItsKey(c, i)
  }

  /** Nothing holds the key of alert `i`: it was never held, or some event of the run lifted the hold. */
  ghost predicate Unheld(cfg: Config, now: int, events: seq<Event>, i: nat) {
    var book := Run(cfg, now, events).core.book;
    i < |book| && (book[i].key.rule == EDGE_OFFLINE || LiftedInRun(cfg, now, events, i))
  }

  /** A report, which never has the id of the offline alert, re-opens such an alert exactly if its hold was lifted. */
  lemma ReportReopensIff(cfg: Config, now: int, events: seq<Event>, i: nat)
    requires ResolvedLately(cfg, now, events, i)
    ensures var c := Run(cfg, now, events).core; var key := c.book[i].key;
            key in Report(c, cfg, key).active <==> Unheld(cfg, now, events, i)
  {
    var c := Run(cfg, now, events).core;
    RunInv(cfg, now, events);
    RunBacked(cfg, now, events);
    HoldIsOnIff(cfg, c, i);
    ReportOpensIff(cfg, c, c.book[i].key);
    LiftedInRunIff(cfg, now, events, i);
  }

  /** And so does its rule, when it fires, if its cap allows. */
  lemma RuleReopensIff(cfg: Config, now: int, events: seq<Event>, i: nat, r: ManagedRule, since: int)
    requires ResolvedLately(cfg, now, events, i) && Run(cfg, now, events).core.book[i].key.rule == r.rule.id
    ensures var c := Run(cfg, now, events).core; var key := c.book[i].key;
            key in FireNow(c, cfg, r, key, since).active <==>
            Unheld(cfg, now, events, i) && FiringCount(c, r.rule.id) < Cap(cfg, r)
  {
    var c := Run(cfg, now, events).core;
    RunInv(cfg, now, events);
    RunBacked(cfg, now, events);
    HoldIsOnIff(cfg, c, i);
    RuleOpensIff(cfg, c, r, c.book[i].key, since);
    LiftedInRunIff(cfg, now, events, i);
  }

  /** A rule of that id opens whenever it fires with room under its cap, whatever was resolved by hand, and when. */
  lemma OfflineIdIsNeverHeld(cfg: Config, now: int, events: seq<Event>, r: ManagedRule, key: Key, since: int)
    requires UniqueRules(cfg) && r.rule.id == EDGE_OFFLINE == key.rule && key !in Run(cfg, now, events).core.active
    ensures var c := Run(cfg, now, events).core;
            key in FireNow(c, cfg, r, key, since).active <==> FiringCount(c, EDGE_OFFLINE) < Cap(cfg, r)
  {
    var c := Run(cfg, now, events).core;
    RunBacked(cfg, now, events);
    NeverHeld(c, key);
    RuleOpensIff(cfg, c, r, key, since);
  }

  /** Whatever happens, an alert does not re-open inside the cooldown unless nothing holds its key. */
  lemma ManualResolutionHolds(cfg: Config, now: int, events: seq<Event>, i: nat, j: nat)
    requires UniqueRules(cfg) && i < j < |Run(cfg, now, events).core.book|
    requires var b := Run(cfg, now, events).core.book; b[i].key == b[j].key && ByHand(b[i]).Some?
    ensures var b := Run(cfg, now, events).core.book;
            && b[j].fires != []
            && (b[j].fires[0].at < ByHand(b[i]).value + Cooldown(cfg, b[i].key.rule) ==> Unheld(cfg, now, events, i))
  {
    RunInv(cfg, now, events);
    LiftedInRunIff(cfg, now, events, i);
    var c := Run(cfg, now, events).core;
    assert Respected(cfg, c, i, j) && Orderly(c.book[j], c.now);
  }

  // ------------------------------------------------------------------ the three ways to forget a resolution

  const REPORTED := EDGE_PREFIX + "device-alert"

  /** One alert there was, which has been resolved by hand. */
  ghost predicate OnlyResolved(s: State, key: Key, at: int) {
    && s.core.active == map[] && s.core.hold == map[key := at] && s.core.lifted == {}
    && s.core.book == [Record(key, at, [Fired(at, true)], None, Some(Ending(at, true)))]
  }

  lemma OpenedAndResolved(cfg: Config, s: State, edge: string, device: string, t: State, u: State)
    requires s.core.active == map[] && s.core.hold == map[] && s.core.book == [] && s.core.lifted == {}
    requires t == Step(cfg, s, EdgeAlert(edge, device, None)) && u == Step(cfg, t, ResolveAlert(0))
    ensures OnlyResolved(u, Key(REPORTED, edge, device), s.core.now)
    ensures u.core.now == s.core.now && u.devices == s.devices && u.edges == s.edges && u.predictions == s.predictions
  {
    var key, at := Key(REPORTED, edge, device), s.core.now;
    assert t.core.active == map[key := Active(0, at, at, false)];
    assert t.core.book == [Record(key, at, [Fired(at, true)], None, None)];
    assert IsOpen(t.core, 0) && EDGE_PREFIX[0] != EDGE_OFFLINE[0];
  }

  /** The second alert of the key has opened at `when`; the first was resolved by hand. */
  ghost predicate Reopened(s: State, key: Key, at: int, when: int) {
    && |s.core.book| == 2 && s.core.book[0].key == s.core.book[1].key == key
    && ByHand(s.core.book[0]) == Some(at) && s.core.book[1].fires == [Fired(when, true)]
    && key in s.core.active
  }

  /** All trace of the hold is gone. */
  ghost predicate Forgotten(s: State, key: Key, at: int) {
    && s.core.active == map[] && s.core.hold == map[]
    && s.core.book == [Record(key, at, [Fired(at, true)], None, Some(Ending(at, true)))]
  }

  /** Then nothing stands in the way of the next report. */
  lemma ForgottenReopens(cfg: Config, s: State, edge: string, device: string, at: int, t: State)
    requires Forgotten(s, Key(REPORTED, edge, device), at) && t == Step(cfg, s, EdgeAlert(edge, device, None))
    ensures Reopened(t, Key(REPORTED, edge, device), at, s.core.now)
  {
  }

  lemma RunTwo(cfg: Config, now: int, events: seq<Event>, b: Event, t: State)
    requires t == Run(cfg, now, events)
    ensures Run(cfg, now, events + [b]) == Step(cfg, t, b)
  {
    RunSnoc(cfg, now, events, b);
  }

  lemma RunFrom(cfg: Config, now: int, events: seq<Event>, a: Event, b: Event)
    ensures Run(cfg, now, events + [a, b]) == Step(cfg, Step(cfg, Run(cfg, now, events), a), b)
  {
    RunSnoc(cfg, now, events, a);
    assert events + [a, b] == events + [a] + [b];
    RunTwo(cfg, now, events + [a], b, Step(cfg, Run(cfg, now, events), a));
  }

  lemma RemovalForgets(cfg: Config, s: State, other: string, key: Key, at: int, t: State)
    requires OnlyResolved(s, key, at) && s.devices == map[] && t == Step(cfg, s, DeviceRemoved(other, key.device))
    ensures Forgotten(t, key, at) && t.core.now == s.core.now
  {
  }

  /** The report and the resolution of one alert. */
  function Raised(edge: string, device: string): seq<Event> { [EdgeAlert(edge, device, None), ResolveAlert(0)] }

  lemma RaisedFirst(cfg: Config, edge: string, device: string)
    ensures var s := Run(cfg, 0, Raised(edge, device));
            && OnlyResolved(s, Key(REPORTED, edge, device), 0)
            && s.core.now == 0 && s.devices == map[] && s.edges == map[] && s.predictions == map[]
  {
    var alert := EdgeAlert(edge, device, None);
    RunFrom(cfg, 0, [], alert, ResolveAlert(0));
    assert [] + Raised(edge, device) == Raised(edge, device);
    var t := Step(cfg, Init(0), alert);
    OpenedAndResolved(cfg, Init(0), edge, device, t, Step(cfg, t, ResolveAlert(0)));
  }

  /** What the socket lets through, as long as the edge has a name and owns the device. */
  lemma RaisedAdmitted(edge: string, device: string)
    requires Registers(edge) && Owns(edge, device)
    ensures AllAdmitted(Raised(edge, device)) && Admits(EdgeAlert(edge, device, None))
  {
  }

  /** A removal by an edge that owns the device, be it the alert's or not: it re-opens as soon as it was resolved. */
  lemma RemovalReopens(cfg: Config, edge: string, other: string, device: string)
    requires Registers(edge) && Registers(other) && Owns(edge, device) && Owns(other, device)
    ensures var events := Raised(edge, device) + [DeviceRemoved(other, device), EdgeAlert(edge, device, None)];
            AllAdmitted(events) && Reopened(Run(cfg, 0, events), Key(REPORTED, edge, device), 0, 0)
  {
    var alert := EdgeAlert(edge, device, None);
    var s := Run(cfg, 0, Raised(edge, device));
    RunFrom(cfg, 0, Raised(edge, device), DeviceRemoved(other, device), alert);
    RaisedAdmitted(edge, device);
    RaisedFirst(cfg, edge, device);
    var t := Step(cfg, s, DeviceRemoved(other, device));
    RemovalForgets(cfg, s, other, Key(REPORTED, edge, device), 0, t);
    ForgottenReopens(cfg, t, edge, device, 0, Step(cfg, t, alert));
  }

  /** Behind the socket, after that run, a removal by `other` lifts the hold of alert `i`, which is one of `edge`. */
  ghost predicate LiftsForeign(cfg: Config, now: int, events: seq<Event>, edge: string, other: string,
                               device: string, i: nat)
  {
    var s := Run(cfg, now, events);
    && AllAdmitted(events) && Admits(DeviceRemoved(other, device))
    && i < |s.core.book| && s.core.book[i].key.edge == edge && LiftedBy(cfg, s, DeviceRemoved(other, device), i)
  }

  lemma OnlyOwnersLift(cfg: Config, now: int, events: seq<Event>, edge: string, other: string, device: string, i: nat)
    requires LiftsForeign(cfg, now, events, edge, other, device, i)
    ensures Owns(edge, device) && Owns(other, device)
  {
    EveryAlertIsOwned(cfg, now, events);
    assert Accounted(Run(cfg, now, events).core.book[i].key);
  }

  lemma FreshHoldIsLifted(cfg: Config, s: State, other: string, key: Key)
    requires OnlyResolved(s, key, s.core.now) && s.devices == map[]
    requires key.rule == REPORTED && Cooldown(cfg, REPORTED) > 0
    ensures LiftedBy(cfg, s, DeviceRemoved(other, key.device), 0)
  {
    assert EDGE_PREFIX[0] != EDGE_OFFLINE[0];
  }

  lemma OwnersLift(cfg: Config, edge: string, other: string, device: string)
    requires Registers(edge) && Registers(other) && Owns(edge, device) && Owns(other, device)
    requires Cooldown(cfg, REPORTED) > 0
    ensures LiftsForeign(cfg, 0, Raised(edge, device), edge, other, device, 0)
  {
    RaisedAdmitted(edge, device);
    RaisedFirst(cfg, edge, device);
    FreshHoldIsLifted(cfg, Run(cfg, 0, Raised(edge, device)), other, Key(REPORTED, edge, device));
  }

  /**
   Between two edges, exactly: a removal by one can lift a hold of the other's alerts if and only if
   they are the same, or the name of one, with a colon behind it, begins that of the other.
   */
  lemma RemovalLiftsBetweenIff(cfg: Config, edge: string, other: string)
    requires Registers(edge) && Registers(other) && Cooldown(cfg, REPORTED) > 0
    ensures (exists now, events, device, i :: LiftsForeign(cfg, now, events, edge, other, device, i)) <==>
            edge == other || DeviceIdentity.Begins(edge, other) || DeviceIdentity.Begins(other, edge)
  {
    SharedIff(edge, other);
    if exists d :: Owns(edge, d) && Owns(other, d) {
      var d :| Owns(edge, d) && Owns(other, d);
      OwnersLift(cfg, edge, other, d);
    }
    forall now, events, device, i | LiftsForeign(cfg, now, events, edge, other, device, i)
      ensures Owns(edge, device) && Owns(other, device)
    {
      OnlyOwnersLift(cfg, now, events, edge, other, device, i);
    }
  }

  /** Just longer than the retention. */
  function Expiry(cfg: Config): nat { Retention(cfg) + 1 }

  lemma OldForgets(cfg: Config, s: State, key: Key, at: int, t: State)
    requires OnlyResolved(s, key, at) && s.devices == map[] && s.edges == map[] && s.predictions == map[]
    requires s.core.now - at > Retention(cfg) && t == Step(cfg, s, RunSweep([], [], []))
    ensures Forgotten(t, key, at) && t.core.now == s.core.now
  {
    NothingOpenToSweep(cfg, s, []);
    assert OpenOffline(s, cfg, []) == s && Stale(s, cfg) == {};
    assert ForgetAll(s, cfg, {}).core.hold == s.core.hold;
  }

  /** Without active alerts and predictions a sweep has nothing to do before it looks for what to forget. */
  lemma NothingOpenToSweep(cfg: Config, s: State, deviceOrder: seq<string>)
    requires s.core.active == map[] && s.predictions == map[]
    requires deviceOrder == [] || (cfg.rules == [] && |deviceOrder| == 1)
    ensures BeforeOffline(s, cfg, [], deviceOrder) == s
  {
    var d := SweepDevices(s, cfg, deviceOrder);
    if deviceOrder != [] {
      assert SweepDevices(s, cfg, deviceOrder[1..]) == s;
    }
    assert d == s;
    assert ExpirePredictions(d, cfg).predictions == map[];
    assert End(s.core, Expired(s.core, cfg), false) == s.core;
  }

  function RaisedLongAgo(cfg: Config, edge: string, device: string): seq<Event> {
    Raised(edge, device) + [Elapse(Expiry(cfg))]
  }

  lemma LongAfter(cfg: Config, s: State, key: Key, t: State)
    requires OnlyResolved(s, key, 0) && s.core.now == 0 && t == Step(cfg, s, Elapse(Expiry(cfg)))
    ensures OnlyResolved(t, key, 0) && t.core.now == Expiry(cfg)
    ensures t.devices == s.devices && t.edges == s.edges && t.predictions == s.predictions
  {
  }

  lemma RaisedLongAgoState(cfg: Config, edge: string, device: string)
    ensures var s := Run(cfg, 0, RaisedLongAgo(cfg, edge, device));
            && OnlyResolved(s, Key(REPORTED, edge, device), 0)
            && s.core.now == Expiry(cfg) && s.devices == map[] && s.edges == map[] && s.predictions == map[]
  {
    RaisedFirst(cfg, edge, device);
    RunSnoc(cfg, 0, Raised(edge, device), Elapse(Expiry(cfg)));
    LongAfter(cfg, Run(cfg, 0, Raised(edge, device)), Key(REPORTED, edge, device),
              Run(cfg, 0, RaisedLongAgo(cfg, edge, device)));
  }

  /** A cooldown longer than the retention: the sweep prunes the hold before its time. */
  lemma PruningReopens(cfg: Config, edge: string, device: string)
    requires Registers(edge) && Owns(edge, device)
    ensures var events := RaisedLongAgo(cfg, edge, device) + [RunSweep([], [], []), EdgeAlert(edge, device, None)];
            AllAdmitted(events) && Reopened(Run(cfg, 0, events), Key(REPORTED, edge, device), 0, Expiry(cfg))
  {
    var alert, later := EdgeAlert(edge, device, None), RaisedLongAgo(cfg, edge, device);
    RaisedAdmitted(edge, device);
    RaisedLongAgoState(cfg, edge, device);
    RunFrom(cfg, 0, later, RunSweep([], [], []), alert);
    var s := Run(cfg, 0, later);
    var t := Step(cfg, s, RunSweep([], [], []));
    OldForgets(cfg, s, Key(REPORTED, edge, device), 0, t);
    ForgottenReopens(cfg, t, edge, device, 0, Step(cfg, t, alert));
  }

  lemma StaleForgets(cfg: Config, s: State, key: Key, at: int, t: State)
    requires cfg.rules == [] && cfg.edgeOfflineAfterSecs == 0
    requires OnlyResolved(s, key, at) && s.predictions == map[] && s.edges.Keys == {key.edge}
    requires s.devices.Keys == {key.device} && s.core.now - s.devices[key.device].lastSeen > Retention(cfg)
    requires t == Step(cfg, s, RunSweep([], [key.device], [key.edge]))
    ensures Forgotten(t, key, at) && t.core.now == s.core.now
  {
    NothingOpenToSweep(cfg, s, [key.device]);
    assert [key.edge][1..] == [] && OpenOffline(s, cfg, []) == s;
    OnlyStale(cfg, s, key.device);
    DeviceForgotten(cfg, s, key, at, Prune(ForgetAll(s, cfg, {key.device}), cfg));
  }

  lemma OnlyStale(cfg: Config, s: State, device: string)
    requires s.core.active == map[] && s.devices.Keys == {device}
    requires s.core.now - s.devices[device].lastSeen > Retention(cfg)
    ensures Stale(s, cfg) == {device}
  {
    assert device in Stale(s, cfg);
    assert forall d | d in Stale(s, cfg) :: d in s.devices.Keys;
  }

  lemma DeviceForgotten(cfg: Config, s: State, key: Key, at: int, t: State)
    requires OnlyResolved(s, key, at) && t == Prune(ForgetAll(s, cfg, {key.device}), cfg)
    ensures Forgotten(t, key, at) && t.core.now == s.core.now
  {
    assert ForgetAll(s, cfg, {key.device}).core.hold == map[];
  }

  /** A device that has not reported for longer than the retention. */
  function LongSilent(cfg: Config, edge: string, device: string): seq<Event> {
    [] + [StatusReport(edge, device, Healthy, map[]), Elapse(Expiry(cfg))]
  }

  lemma LongSilentState(cfg: Config, edge: string, device: string)
    requires cfg.rules == []
    ensures var s := Run(cfg, 0, LongSilent(cfg, edge, device));
            && s.core == Init(0).core.(now := Expiry(cfg)) && s.predictions == map[]
            && s.devices == map[device := Known(edge, Healthy, map[], 0)] && s.edges == map[edge := 0]
  {
    RunFrom(cfg, 0, [], StatusReport(edge, device, Healthy, map[]), Elapse(Expiry(cfg)));
    var t := Step(cfg, Init(0), StatusReport(edge, device, Healthy, map[]));
    assert t.core == Init(0).core;
  }

  function RaisedWhenSilent(cfg: Config, edge: string, device: string): seq<Event> {
    LongSilent(cfg, edge, device) + Raised(edge, device)
  }

  /** The device has been silent for too long when its alert is raised and resolved. */
  ghost predicate SilentResolved(cfg: Config, s: State, edge: string, device: string) {
    && OnlyResolved(s, Key(REPORTED, edge, device), Expiry(cfg)) && s.core.now == Expiry(cfg)
    && s.devices == map[device := Known(edge, Healthy, map[], 0)] && s.edges == map[edge := 0]
    && s.predictions == map[]
  }

  lemma RaisedWhenSilentState(cfg: Config, edge: string, device: string)
    requires cfg.rules == []
    ensures SilentResolved(cfg, Run(cfg, 0, RaisedWhenSilent(cfg, edge, device)), edge, device)
  {
    var alert, silent := EdgeAlert(edge, device, None), LongSilent(cfg, edge, device);
    LongSilentState(cfg, edge, device);
    RunFrom(cfg, 0, silent, alert, ResolveAlert(0));
    var s := Run(cfg, 0, silent);
    var t := Step(cfg, s, alert);
    OpenedAndResolved(cfg, s, edge, device, t, Step(cfg, t, ResolveAlert(0)));
  }

  lemma GivenUp(cfg: Config, s: State, edge: string, device: string, t: State)
    requires cfg.rules == [] && cfg.edgeOfflineAfterSecs == 0 && SilentResolved(cfg, s, edge, device)
    requires t == Step(cfg, s, RunSweep([], [device], [edge]))
    ensures Forgotten(t, Key(REPORTED, edge, device), Expiry(cfg)) && t.core.now == Expiry(cfg)
  {
    StaleForgets(cfg, s, Key(REPORTED, edge, device), Expiry(cfg), t);
  }

  lemma WhenSilentAdmitted(cfg: Config, edge: string, device: string)
    requires Registers(edge) && Owns(edge, device)
    ensures AllAdmitted(RaisedWhenSilent(cfg, edge, device)) && Admits(EdgeAlert(edge, device, None))
  {
    RaisedAdmitted(edge, device);
  }

  /** A device that is given up: even with short cooldowns its alert re-opens at the instant it was resolved. */
  lemma StalenessReopens(cfg: Config, edge: string, device: string)
    requires cfg.rules == [] && cfg.edgeOfflineAfterSecs == 0 && Registers(edge) && Owns(edge, device)
    ensures var events := RaisedWhenSilent(cfg, edge, device)
                          + [RunSweep([], [device], [edge]), EdgeAlert(edge, device, None)];
            AllAdmitted(events) && Reopened(Run(cfg, 0, events), Key(REPORTED, edge, device), Expiry(cfg), Expiry(cfg))
  {
    var alert, sweep := EdgeAlert(edge, device, None), RunSweep([], [device], [edge]);
    var before := RaisedWhenSilent(cfg, edge, device);
    WhenSilentAdmitted(cfg, edge, device);
    RaisedWhenSilentState(cfg, edge, device);
    RunFrom(cfg, 0, before, sweep, alert);
    var s := Run(cfg, 0, before);
    var t := Step(cfg, s, sweep);
    GivenUp(cfg, s, edge, device, t);
    ForgottenReopens(cfg, t, edge, device, Expiry(cfg), Step(cfg, t, alert));
  }
}
