/** The cap on the alerts of a rule (README.md:446), and the rule ids for which it holds. */
module AlertCaps {
  import opened Basics
  import opened Rules
  import opened AlertManager
  import opened AlertLaws
  import AlertRuns
  import opened EdgeSocket
  import DeviceIdentity
  import opened RuleSlug

  /** The cap of a rule holds in every run, provided nothing but the rule raises alerts of its id. */
  lemma CapsHold(cfg: Config, now: int, events: seq<Event>, r: ManagedRule)
    requires UniqueRules(cfg) && r in cfg.rules && !Foreign(cfg, r.rule.id)
    ensures FiringCount(Run(cfg, now, events).core, r.rule.id) <= NonNegative(Cap(cfg, r))
  {
    RunInv(cfg, now, events);
  }

  // ------------------------------------------------------------------ alerts in any number

  const EDGE := "edge"

  /** One of the devices of that edge. */
  function DeviceOf(name: string): string { DeviceIdentity.DeviceId(EDGE, name) }

  /** Where the alerts of that id are put: on as many edges, or on as many devices of one edge. */
  function Place(id: string, name: string): Key {
    if id == EDGE_OFFLINE then Key(id, name, "") else Key(id, EDGE, DeviceOf(name))
  }

  function Places(id: string, n: nat): set<Key> { set i | 0 <= i < n :: Place(id, Decimal(i)) }

  lemma NewPlace(id: string, n: nat)
    ensures Place(id, Decimal(n)) !in Places(id, n) && Places(id, n + 1) == Places(id, n) + {Place(id, Decimal(n))}
  {
    forall i | 0 <= i < n
      ensures Place(id, Decimal(i)) != Place(id, Decimal(n))
    {
      DeviceIdentity.DeviceIdInjective(EDGE, Decimal(i), EDGE, Decimal(n));
      if Decimal(i) == Decimal(n) {
        DecimalInjective(i, n);
      }
    }
  }

  lemma {:induction false} PlacesCounted(id: string, n: nat)
    ensures |Places(id, n)| == n
  {
    if n > 0 {
      PlacesCounted(id, n - 1);
      NewPlace(id, n - 1);
    }
  }

  lemma AllFiring(c: Core, id: string, n: nat)
    requires Places(id, n) <= c.active.Keys
    ensures FiringCount(c, id) >= n
  {
    PlacesCounted(id, n);
    Subset(Places(id, n), Firing(c, id));
  }

  // ------------------------------------------------------------------ reports from outside

  predicate Reported(cfg: Config, id: string) {
    EDGE_PREFIX <= id || (PREDICTION_PREFIX <= id && cfg.predictionThreshold != PosInf)
  }

  /** Certain, or as likely as it takes. */
  function Probability(cfg: Config): F64 {
    if cfg.predictionThreshold.Finite? && cfg.predictionThreshold.v > 1.0 then cfg.predictionThreshold else Finite(1.0)
  }

  /** A report about the device that raises an alert of that id. */
  function ReportOf(cfg: Config, id: string, device: string): Event
    requires Reported(cfg, id)
  {
    if EDGE_PREFIX <= id then EdgeAlert(EDGE, device, Some(id[|EDGE_PREFIX|..]))
    else PredictionReport(EDGE, device, PredictionInfo(id[|PREDICTION_PREFIX|..], Probability(cfg), None))
  }

  /** One report each for `n` devices. */
  function Reports(cfg: Config, id: string, n: nat): seq<Event>
    requires Reported(cfg, id)
  {
    if n == 0 then [] else Reports(cfg, id, n - 1) + [ReportOf(cfg, id, DeviceOf(Decimal(n - 1)))]
  }

  lemma ReportOpens(cfg: Config, s: State, id: string, device: string)
    requires Reported(cfg, id) && s.core.hold == map[] && Key(id, EDGE, device) !in s.core.active
    ensures var d := Step(cfg, s, ReportOf(cfg, id, device)).core;
            d.hold == map[] && d.active.Keys == s.core.active.Keys + {Key(id, EDGE, device)}
  {
    if EDGE_PREFIX <= id {
      assert EDGE_PREFIX + id[|EDGE_PREFIX|..] == id;
    } else {
      assert PREDICTION_PREFIX + id[|PREDICTION_PREFIX|..] == id;
      assert !Below(Probability(cfg), cfg.predictionThreshold);
    }
  }

  /** Nothing is active but the alerts in `n` places, and nothing is held. */
  ghost predicate PiledUp(s: State, id: string, n: nat) {
    s.core.hold == map[] && s.core.active.Keys == Places(id, n)
  }

  lemma OneMoreReport(cfg: Config, s: State, id: string, n: nat, t: State)
    requires Reported(cfg, id) && PiledUp(s, id, n) && t == Step(cfg, s, ReportOf(cfg, id, DeviceOf(Decimal(n))))
    ensures PiledUp(t, id, n + 1)
  {
    assert EDGE_OFFLINE[0] != EDGE_PREFIX[0] && EDGE_OFFLINE[0] != PREDICTION_PREFIX[0];
    NewPlace(id, n);
    ReportOpens(cfg, s, id, DeviceOf(Decimal(n)));
  }

  lemma {:induction false} ReportsPileUp(cfg: Config, id: string, n: nat)
    requires Reported(cfg, id)
    ensures PiledUp(Run(cfg, 0, Reports(cfg, id, n)), id, n)
  {
    if n > 0 {
      var before := Reports(cfg, id, n - 1);
      ReportsPileUp(cfg, id, n - 1);
      RunSnoc(cfg, 0, before, ReportOf(cfg, id, DeviceOf(Decimal(n - 1))));
      OneMoreReport(cfg, Run(cfg, 0, before), id, n - 1, Run(cfg, 0, Reports(cfg, id, n)));
    }
  }

  lemma {:induction false} ReportsAdmitted(cfg: Config, id: string, n: nat)
    requires Reported(cfg, id)
    ensures AllAdmitted(Reports(cfg, id, n))
  {
    if n > 0 {
      ReportsAdmitted(cfg, id, n - 1);
      assert Owns(EDGE, DeviceOf(Decimal(n - 1)));
      assert EDGE[0] in EDGE;
    }
  }

  // ------------------------------------------------------------------ silent edges

  function Names(n: nat): (names: seq<string>)
    ensures |names| == n && forall i :: 0 <= i < n ==> names[i] == Decimal(i)
  {
    seq(n, i requires 0 <= i < n => Decimal(i))
  }

  function Seen(n: nat): seq<Event> {
    if n == 0 then [] else Seen(n - 1) + [EdgeSeen(Decimal(n - 1))]
  }

  /** Longer than an edge may be silent. */
  function Long(cfg: Config): nat { 1000 * cfg.edgeOfflineAfterSecs + 1 }

  function SeenLongAgo(cfg: Config, n: nat): seq<Event> { Seen(n) + [Elapse(Long(cfg))] }

  /** `n` edges are heard of once, and then not for too long. */
  function Silence(cfg: Config, n: nat): seq<Event> { SeenLongAgo(cfg, n) + [RunSweep([], [], Names(n))] }

  /** Edges have been seen, and nothing else has happened. */
  ghost predicate OnlySeen(s: State, n: nat, now: int) {
    && s.core == Core(map[], map[], map[], now, [], {}, {})
    && s.latched == {} && s.devices == map[] && s.predictions == map[]
    && (forall x | x in s.edges :: x in Names(n) && s.edges[x] == 0)
    && (forall i :: 0 <= i < n ==> Decimal(i) in s.edges)
  }

  lemma OneMoreName(edges: map<string, int>, n: nat)
    requires forall x | x in edges :: x in Names(n) && edges[x] == 0
    ensures var more := edges[Decimal(n) := 0]; forall x | x in more :: x in Names(n + 1) && more[x] == 0
  {
    var more := edges[Decimal(n) := 0];
    forall x | x in more
      ensures x in Names(n + 1) && more[x] == 0
    {
      if x == Decimal(n) {
        assert Names(n + 1)[n] == x;
      } else {
        var i :| 0 <= i < n && Names(n)[i] == x;
        assert Names(n + 1)[i] == x;
      }
    }
  }

  lemma OneMoreSeen(cfg: Config, s: State, n: nat, t: State)
    requires OnlySeen(s, n, 0) && t == Step(cfg, s, EdgeSeen(Decimal(n)))
    ensures OnlySeen(t, n + 1, 0)
  {
    SeenStep(cfg, s, n, t);
    OneMoreEdge(s, n, t);
  }

  lemma OneMoreEdge(s: State, n: nat, t: State)
    requires OnlySeen(s, n, 0) && t.core == s.core && t.edges == s.edges[Decimal(n) := 0]
    requires t.latched == {} && t.devices == s.devices && t.predictions == s.predictions
    ensures OnlySeen(t, n + 1, 0)
  {
    OneMoreName(s.edges, n);
  }

  lemma SeenStep(cfg: Config, s: State, n: nat, t: State)
    requires OnlySeen(s, n, 0) && t == Step(cfg, s, EdgeSeen(Decimal(n)))
    ensures t.core == s.core && t.edges == s.edges[Decimal(n) := 0]
    ensures t.latched == {} && t.devices == s.devices && t.predictions == s.predictions
  {
    NothingToEnd(s.core, {Key(EDGE_OFFLINE, Decimal(n), "")});
  }

  lemma NothingToEnd(c: Core, doomed: set<Key>)
    requires c.active == map[] && c.book == []
    ensures End(c, doomed, false) == c
  {
  }

  lemma SeenInRun(cfg: Config, seen: seq<Event>, n: nat)
    requires OnlySeen(Run(cfg, 0, seen), n, 0)
    ensures OnlySeen(Run(cfg, 0, seen + [EdgeSeen(Decimal(n))]), n + 1, 0)
  {
    RunSnoc(cfg, 0, seen, EdgeSeen(Decimal(n)));
    OneMoreSeen(cfg, Run(cfg, 0, seen), n, Run(cfg, 0, seen + [EdgeSeen(Decimal(n))]));
  }

  lemma {:induction false} AllSeen(cfg: Config, n: nat)
    ensures OnlySeen(Run(cfg, 0, Seen(n)), n, 0)
  {
    if n > 0 {
      AllSeen(cfg, n - 1);
      SeenInRun(cfg, Seen(n - 1), n - 1);
    }
  }

  lemma NamesInOrder(s: State, n: nat)
    requires OnlySeen(s, n, s.core.now)
    ensures IsOrderOf(Names(n), s.edges.Keys)
  {
    forall i, j | 0 <= i < j < n
      ensures Names(n)[i] != Names(n)[j]
    {
      if Decimal(i) == Decimal(j) {
        DecimalInjective(i, j);
      }
    }
  }

  lemma NothingToSweep(cfg: Config, s: State, n: nat)
    requires OnlySeen(s, n, s.core.now)
    ensures BeforeOffline(s, cfg, [], []) == s
  {
    var e := ExpirePredictions(s, cfg);
    assert e.predictions == map[] && e == s;
    assert End(s.core, Expired(s.core, cfg), false) == s.core;
  }

  lemma OfflineAtPlaces(cfg: Config, s: State, n: nat)
    requires cfg.edgeOfflineAfterSecs > 0 && OnlySeen(s, n, Long(cfg))
    ensures Places(EDGE_OFFLINE, n) <= OpenOffline(s, cfg, Names(n)).core.active.Keys
  {
    AlertRuns.OfflineOpened(cfg, s, Names(n));
    forall k | k in Places(EDGE_OFFLINE, n)
      ensures k in OpenOffline(s, cfg, Names(n)).core.active
    {
      var i :| 0 <= i < n && k == Place(EDGE_OFFLINE, Decimal(i));
      assert Names(n)[i] == Decimal(i);
      assert IsSilent(s, cfg, Decimal(i));
    }
  }

  lemma SweepOpensOffline(cfg: Config, s: State, n: nat, t: State)
    requires OnlySeen(s, n, s.core.now) && t == Step(cfg, s, RunSweep([], [], Names(n)))
    ensures t.core.active == OpenOffline(s, cfg, Names(n)).core.active
  {
    NothingToSweep(cfg, s, n);
    NamesInOrder(s, n);
    assert IsOrderOf([], s.devices.Keys);
  }

  lemma SilentEdgesOpen(cfg: Config, s: State, n: nat, t: State)
    requires cfg.edgeOfflineAfterSecs > 0 && OnlySeen(s, n, Long(cfg))
    requires t == Step(cfg, s, RunSweep([], [], Names(n)))
    ensures Places(EDGE_OFFLINE, n) <= t.core.active.Keys
  {
    OfflineAtPlaces(cfg, s, n);
    SweepOpensOffline(cfg, s, n, t);
  }

  lemma Waited(cfg: Config, s: State, n: nat, ms: nat, t: State)
    requires OnlySeen(s, n, 0) && t == Step(cfg, s, Elapse(ms))
    ensures OnlySeen(t, n, ms)
  {
  }

  lemma AllSeenLongAgo(cfg: Config, n: nat)
    ensures OnlySeen(Run(cfg, 0, SeenLongAgo(cfg, n)), n, Long(cfg))
  {
    AllSeen(cfg, n);
    RunSnoc(cfg, 0, Seen(n), Elapse(Long(cfg)));
    Waited(cfg, Run(cfg, 0, Seen(n)), n, Long(cfg), Run(cfg, 0, SeenLongAgo(cfg, n)));
  }

  lemma SilencePilesUp(cfg: Config, n: nat)
    requires cfg.edgeOfflineAfterSecs > 0
    ensures Places(EDGE_OFFLINE, n) <= Run(cfg, 0, Silence(cfg, n)).core.active.Keys
  {
    AllSeenLongAgo(cfg, n);
    RunSnoc(cfg, 0, SeenLongAgo(cfg, n), RunSweep([], [], Names(n)));
    SilentEdgesOpen(cfg, Run(cfg, 0, SeenLongAgo(cfg, n)), n, Run(cfg, 0, Silence(cfg, n)));
  }

  lemma {:induction false} SeenAdmitted(n: nat)
    ensures AllAdmitted(Seen(n))
  {
    if n > 0 {
      SeenAdmitted(n - 1);
      assert Decimal(n - 1)[0] in Decimal(n - 1);
    }
  }

  lemma SilenceAdmitted(cfg: Config, n: nat)
    ensures AllAdmitted(Silence(cfg, n))
  {
    SeenAdmitted(n);
  }

  // ------------------------------------------------------------------ the exact condition

  /** The reports or the silence that raise `n` alerts of an id that is not left to its rule. */
  function PileUp(cfg: Config, id: string, n: nat): seq<Event> {
    if Reported(cfg, id) then Reports(cfg, id, n) else Silence(cfg, n)
  }

  /** Whatever else may raise alerts of an id raises any number of them, whatever the cap, by owned reports. */
  lemma ForeignAlertsPileUp(cfg: Config, id: string, n: nat)
    requires Foreign(cfg, id)
    ensures AllAdmitted(PileUp(cfg, id, n))
    ensures FiringCount(Run(cfg, 0, PileUp(cfg, id, n)).core, id) >= n
  {
    if Reported(cfg, id) {
      ReportsPileUp(cfg, id, n);
      ReportsAdmitted(cfg, id, n);
      AllFiring(Run(cfg, 0, Reports(cfg, id, n)).core, id, n);
    } else {
      SilencePilesUp(cfg, n);
      SilenceAdmitted(cfg, n);
      AllFiring(Run(cfg, 0, Silence(cfg, n)).core, id, n);
    }
  }

  /** In no run that the socket lets through has the rule more active alerts than its cap. */
  ghost predicate CapHolds(cfg: Config, r: ManagedRule) {
    forall now, events | AllAdmitted(events) ::
      FiringCount(Run(cfg, now, events).core, r.rule.id) <= NonNegative(Cap(cfg, r))
  }

  /** The cap of a rule holds exactly if the configuration lets nothing else raise alerts of its id. */
  lemma CapHoldsIff(cfg: Config, r: ManagedRule)
    requires UniqueRules(cfg) && r in cfg.rules
    ensures CapHolds(cfg, r) <==> !Foreign(cfg, r.rule.id)
  {
    if Foreign(cfg, r.rule.id) {
      ForeignAlertsPileUp(cfg, r.rule.id, NonNegative(Cap(cfg, r)) + 1);
    } else {
      forall now, events
        ensures FiringCount(Run(cfg, now, events).core, r.rule.id) <= NonNegative(Cap(cfg, r))
      {
        CapsHold(cfg, now, events, r);
      }
    }
  }

  /** Slugs have no colons, so no configured rule shares its id with edge alerts. */
  lemma SlugIsNoEdgeAlert(id: string)
    requires IsSlug(id)
    ensures !(EDGE_PREFIX <= id)
  {
    assert EDGE_PREFIX[4] == ':' && !IsLower(':');
  }

  /** For the ids that the configuration file leads to: all but those of predictions and of the offline alert. */
  lemma SlugCapHoldsIff(cfg: Config, r: ManagedRule)
    requires UniqueRules(cfg) && r in cfg.rules && IsSlug(r.rule.id)
    ensures CapHolds(cfg, r) <==>
            && (PREDICTION_PREFIX <= r.rule.id ==> cfg.predictionThreshold == PosInf)
            && (r.rule.id == EDGE_OFFLINE ==> cfg.edgeOfflineAfterSecs == 0)
  {
    SlugIsNoEdgeAlert(r.rule.id);
    CapHoldsIff(cfg, r);
  }

  /** Both kinds can be had: these names are their own slugs. */
  lemma OfflineIdIsASlug()
    ensures Slug(EDGE_OFFLINE) == EDGE_OFFLINE
  {
    var builtin, edge, offline := "builtin", "edge", "offline";
    assert GoodWord(builtin) && GoodWord(edge) && GoodWord(offline);
    SlugExtended(builtin, edge);
    SlugExtended(builtin + ['-'] + edge, offline);
    assert EDGE_OFFLINE == builtin + ['-'] + edge + ['-'] + offline;
    FixedIff(EDGE_OFFLINE);
  }

  lemma PredictionIdIsASlug(word: string)
    requires GoodWord(word)
    ensures Slug(PREDICTION_PREFIX + word) == PREDICTION_PREFIX + word
  {
    var pred := "pred";
    assert GoodWord(pred);
    SlugExtended(pred, word);
    assert PREDICTION_PREFIX + word == pred + ['-'] + word;
    FixedIff(PREDICTION_PREFIX + word);
  }
}
