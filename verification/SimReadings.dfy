/**
 What a simulated device reads and says in each sweep of a run, in terms of its kind, of the sweeps
 before and of the settings last made (crates/nimon-sim/src/model.rs:45-160 and 409-556).
 */
module SimReadings {
  import opened Basics
  import opened Rules
  import opened Simulator

  // ------------------------------------------------------------------ readings

  /** Two digits after the point are kept, of the number that is nearest. */
  lemma Round2Means(x: real)
    ensures (Round2(x) * 100.0).Floor as real == Round2(x) * 100.0
    ensures x - 0.005 <= Round2(x) <= x + 0.005
  {
    assert Round2(x) * 100.0 == RoundToInt(x * 100.0) as real;
  }

  /** Where a ramp ends: five degrees above critical, unless it starts higher. */
  function Top(start: real, critical: real): real { if critical + 5.0 < start then start else critical + 5.0 }

  /** Sweeps that a ramp has risen for; three go by before it does. */
  function Risen(t: nat): nat { if t < 3 then 0 else t - 3 }

  /** Where a walk would go without its bounds. */
  function Drawn(w: Walk, draw: real): real { w.value + w.reversion * (w.baseline - w.value) + draw }

  /** A walk moves towards its baseline, a ramp rises to its top, and a flapping device jumps to the threshold. */
  function Raw(m: TempModel, t: nat, limits: Settings, draw: real): real {
    match m
    case Walking(w) =>
      var x := Drawn(w, draw);
      if x < w.min then w.min else if w.max < x then w.max else x
    case Ramp(start, rate) =>
      var x := start + rate * Risen(t) as real;
      draw + if Top(start, limits.critical) < x then Top(start, limits.critical) else x
    case Flap => draw + if t < 3 then limits.warning - 8.0 else limits.warning
  }

  lemma RampReads(start: real, rate: real, t: nat, limits: Settings, draw: real)
    ensures Sample(Ramp(start, rate), t, limits, draw) == (Ramp(start, rate), Raw(Ramp(start, rate), t, limits, draw))
  {
    assert RampTick(t) == Risen(t) && Plateau(start, limits.critical) == Top(start, limits.critical);
  }

  lemma ClampMeans(x: real, lo: real, hi: real)
    requires lo <= hi
    ensures Clamp(x, lo, hi) == if x < lo then lo else if hi < x then hi else x
  {
  }

  lemma WalkIsClamped(w: Walk, draw: real)
    ensures NextWalk(w, draw) == w.(value := Clamp(Drawn(w, draw), w.min, w.max))
  {
  }

  lemma WalkReads(w: Walk, t: nat, limits: Settings, draw: real)
    requires w.min <= w.max
    ensures var (next, raw) := Sample(Walking(w), t, limits, draw);
            raw == Raw(Walking(w), t, limits, draw) && next == Walking(w.(value := raw))
  {
    WalkIsClamped(w, draw);
    ClampMeans(Drawn(w, draw), w.min, w.max);
  }

  lemma FlapReads(t: nat, limits: Settings, draw: real)
    ensures Sample(Flap, t, limits, draw) == (Flap, Raw(Flap, t, limits, draw))
  {
  }

  ghost predicate InRange(m: TempModel) { m.Walking? ==> m.walk.min <= m.walk.max }

  lemma SampleReads(m: TempModel, t: nat, limits: Settings, draw: real)
    requires InRange(m)
    ensures var (next, raw) := Sample(m, t, limits, draw);
            raw == Raw(m, t, limits, draw) && next == if m.Walking? then Walking(m.walk.(value := raw)) else m
  {
    match m
    case Walking(w) => WalkReads(w, t, limits, draw);
    case Ramp(start, rate) => RampReads(start, rate, t, limits, draw);
    case Flap => FlapReads(t, limits, draw);
  }

  /** Under a ceiling a walk, its baseline included, stays in a range of its own, as near as may be. */
  lemma CeilingMeans(w: Walk, ceiling: real)
    requires w.min <= w.max
    ensures var c := WithCeiling(w, ceiling);
            && c.min <= c.baseline <= c.max && c.min <= c.value <= c.max && c.max <= ceiling && c.max <= w.max
            && c.reversion == w.reversion
            && (w.max <= ceiling ==> c.min == w.min && c.max == w.max)
            && (c.min <= w.baseline <= c.max ==> c.baseline == w.baseline)
  {
  }

  // ------------------------------------------------------------------ what is said of a reading

  function StateFor(temperature: real, limits: Settings): HealthStatus {
    if temperature > limits.critical then HealthStatus.Error
    else if temperature > limits.warning then Warning
    else Healthy
  }

  predicate Worse(was: HealthStatus, now: HealthStatus) {
    (was.Healthy? && (now.Warning? || now.Error?)) || (was.Warning? && now.Error?)
  }

  /** A ramp that is still rising foretells the critical threshold every third sweep, while it is below that. */
  predicate Foretells(m: TempModel, t: nat, temperature: real, limits: Settings) {
    && m.Ramp? && t >= 6 && t % 3 == 0
    && m.start + m.rate * (t - 3) as real < Top(m.start, limits.critical) && temperature < limits.critical
  }

  /** From a half at the start to nineteen twentieths at the threshold. */
  function Likelihood(start: real, temperature: real, critical: real): real {
    if temperature <= start then 0.5
    else if critical - start < 1.0 then 0.5 + 0.45 * (if temperature - start < 1.0 then temperature - start else 1.0)
    else if temperature >= critical then 0.95
    else 0.5 + 0.45 * ((temperature - start) / (critical - start))
  }

  /** A prediction with the likelihood to two digits and the minutes that are left, rounded up. */
  ghost predicate IsPrediction(m: Message, start: real, rate: real, temperature: real, limits: Settings) {
    && m.PredictionSent? && m.probability == Round2(Likelihood(start, temperature, limits.critical))
    && (if rate <= 0.0 then m.etaMinutes == None
        else m.etaMinutes.Some? &&
             var left := (limits.critical - temperature) / rate * limits.interval / 60.0;
             m.etaMinutes.value as real - 1.0 < left <= m.etaMinutes.value as real)
  }

  lemma RatioOne(a: real, b: real)
    requires 0.0 < b <= a
    ensures a / b >= 1.0
  {
  }

  lemma RatioBelow(a: real, b: real)
    requires 0.0 < a < b
    ensures 0.0 < a / b < 1.0
  {
    var q := a / b;
    assert q * b == a;
    assert q >= 1.0 ==> q * b >= b;
  }

  lemma LikelihoodMeans(start: real, temperature: real, critical: real)
    ensures var span := Max(critical - start, 1.0);
            Likelihood(start, temperature, critical) == 0.5 + 0.45 * Clamp((temperature - start) / span, 0.0, 1.0)
  {
    var span := Max(critical - start, 1.0);
    var rise := temperature - start;
    if rise <= 0.0 {
      assert rise / span <= 0.0;
    } else if rise >= span {
      RatioOne(rise, span);
    } else {
      RatioBelow(rise, span);
    }
    assert span == 1.0 ==> rise / span == rise;
  }

  lemma PredictionMeans(start: real, rate: real, temperature: real, limits: Settings)
    requires temperature < limits.critical
    ensures IsPrediction(RampPrediction(start, rate, temperature, limits), start, rate, temperature, limits)
  {
    LikelihoodMeans(start, temperature, limits.critical);
    assert Max(limits.critical - temperature, 0.0) == limits.critical - temperature;
  }

  /** An alert if the state is worse than the last one, the state, and a prediction if one is due; in that order. */
  ghost predicate Says(was: HealthStatus, m: TempModel, t: nat, temperature: real, limits: Settings, ms: seq<Message>) {
    var now := StateFor(temperature, limits);
    var alert :=
      if Worse(was, now)
      then [AlertSent(now.Error?, if now.Error? then limits.critical else limits.warning, temperature)] else [];
    && |ms| == |alert| + 1 + (if Foretells(m, t, temperature, limits) then 1 else 0)
    && ms[..|alert|] == alert && ms[|alert|] == StatusSent(now, temperature)
    && (Foretells(m, t, temperature, limits) ==>
          IsPrediction(ms[|alert| + 1], m.start, m.rate, temperature, limits))
  }

  lemma WorseIff(was: HealthStatus, now: HealthStatus)
    requires !was.Offline? && !now.Offline?
    ensures Worse(was, now) <==> Rank(now) > Rank(was)
  {
  }

  lemma DueIff(m: TempModel, t: nat, temperature: real, limits: Settings)
    ensures Foretells(m, t, temperature, limits) <==> PredictionDue(m, t, temperature, limits.critical)
  {
    if m.Ramp? && t >= 6 {
      assert RampTick(t) == t - 3 && (t - 3) % 3 == t % 3;
      assert Plateau(m.start, limits.critical) == Top(m.start, limits.critical);
    }
  }

  lemma SampleSays(d: Device, t: nat, limits: Settings, draw: real)
    requires !d.status.Offline? && InRange(d.model)
    ensures var (after, ms) := SampleDevice(d, t, limits, draw);
            && after.temperature == Round2(Raw(d.model, t, limits, draw))
            && after.status == StateFor(after.temperature, limits) && InRange(after.model)
            && Says(d.status, d.model, t, after.temperature, limits, ms)
  {
    var (after, ms) := SampleDevice(d, t, limits, draw);
    SampleReads(d.model, t, limits, draw);
    WorseIff(d.status, after.status);
    DueIff(d.model, t, after.temperature, limits);
    if Foretells(d.model, t, after.temperature, limits) {
      PredictionMeans(d.model.start, d.model.rate, after.temperature, limits);
    }
  }

  // ------------------------------------------------------------------ settings and sweeps of a run

  function LastWarning(events: seq<Event>, at: real): real {
    if events == [] then at
    else
      match events[|events| - 1]
      case Configure(Some(x), _, _) => x
      case _ => LastWarning(events[..|events| - 1], at)
  }

  function LastCritical(events: seq<Event>, at: real): real {
    if events == [] then at
    else
      match events[|events| - 1]
      case Configure(_, Some(x), _) => x
      case _ => LastCritical(events[..|events| - 1], at)
  }

  /** An interval of no seconds is not taken over. */
  function LastInterval(events: seq<Event>, at: real): real {
    if events == [] then at
    else
      match events[|events| - 1]
      case Configure(_, _, Some(n)) => if n == 0 then LastInterval(events[..|events| - 1], at) else n as real
      case _ => LastInterval(events[..|events| - 1], at)
  }

  function Sweeps(events: seq<Event>): nat {
    if events == [] then 0 else Sweeps(events[..|events| - 1]) + if events[|events| - 1].Sweep? then 1 else 0
  }

  /** In every run the settings are those last made, each for itself, and the sweeps are counted. */
  lemma {:induction false} SettingsOfRun(s: Sim, events: seq<Event>)
    ensures var u := Run(s, events);
            && u.settings.warning == LastWarning(events, s.settings.warning)
            && u.settings.critical == LastCritical(events, s.settings.critical)
            && u.settings.interval == LastInterval(events, s.settings.interval)
            && u.tick == s.tick + Sweeps(events)
  {
    if events != [] {
      SettingsOfRun(s, events[..|events| - 1]);
    }
  }

  /** A device in a run has a range, and never reports itself offline. */
  ghost predicate Sound(d: Device) { !d.status.Offline? && InRange(d.model) }

  lemma NextSound(s: Sim, e: Event, dev: nat)
    requires dev < |s.devices| && Sound(s.devices[dev])
    ensures Sound(Next(s, e).devices[dev])
  {
    if e.Sweep? && s.devices[dev].lifecycle.Active? {
      SampleSays(s.devices[dev], s.tick, s.settings, DrawOf(e.draws, dev));
    }
  }

  lemma {:induction false} RunSound(s: Sim, events: seq<Event>, dev: nat)
    requires dev < |s.devices| && Sound(s.devices[dev])
    ensures |Run(s, events).devices| == |s.devices| && Sound(Run(s, events).devices[dev])
  {
    SameDevices(s, events);
    if events != [] {
      var init := events[..|events| - 1];
      SameDevices(s, init);
      RunSound(s, init, dev);
      NextSound(Run(s, init), events[|events| - 1], dev);
    }
  }

  /**
   In every run a device that is sampled in a sweep says what its kind has it read at that sweep, under
   the settings last made: the reading, the state it is in, an alert exactly if that is worse than
   before, and a prediction exactly if it is due.
   */
  lemma SweepSays(s: Sim, events: seq<Event>, draws: seq<real>, dev: nat)
    requires Fresh(s) && dev < |s.devices| && InRange(s.devices[dev].model)
    requires s.devices[dev].offlineAt.None? || Sweeps(events) < s.devices[dev].offlineAt.value
    ensures var u := Run(s, events);
            && dev < |u.devices| && u.tick == Sweeps(events)
            && var d := u.devices[dev];
               var draw := if dev < |draws| then draws[dev] else 0.0;
               var temperature := Round2(Raw(d.model, u.tick, u.settings, draw));
               Says(d.status, d.model, u.tick, temperature, u.settings, SentBy(Outputs(u, Sweep(draws)), dev))
  {
    var u := Run(s, events);
    SettingsOfRun(s, events);
    Schedule(s, events, dev);
    RunSound(s, events, dev);
    SentBySweep(u, draws, dev);
    SampleSays(u.devices[dev], u.tick, u.settings, DrawOf(draws, dev));
  }
}
