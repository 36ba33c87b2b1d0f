/**
 One alert driven by a rule over a history of device contexts: a cleared rule resolves the
 alert, otherwise a firing rule opens it (crates/nimon-hub/src/alert/manager.rs:829-853, without
 cooldowns and caps). The hysteresis promise of the rules is stated about this latch.
 */
module AlertLatch {
  import opened Basics
  import opened Rules

  datatype Sample = Sample(ctx: Context, now: int)

  /** `on`: the alert is active. `fires`: how often it was opened. */
  datatype Latch = Latch(on: bool, fires: nat)

  function Observe(latch: Latch, c: RuleCondition, s: Sample): Latch {
    Next(latch, Evaluate(c, s.ctx, s.now), IsCleared(c, s.ctx, s.now))
  }

  function Next(latch: Latch, fire: bool, clear: bool): Latch {
    if clear then latch.(on := false)
    else if fire then Latch(true, if latch.on then latch.fires else latch.fires + 1)
    else latch
  }

  /** The latch after a whole history, oldest sample first. */
  function After(c: RuleCondition, history: seq<Sample>): Latch {
    if history == [] then Latch(false, 0)
    else Observe(After(c, history[..|history| - 1]), c, history[|history| - 1])
  }

  /** The last numeric value of the metric, if it ever had one. */
  function LastKnown(metric: string, history: seq<Sample>): Option<real> {
    if history == [] then None
    else
      var x := NumericOf(history[|history| - 1].ctx, metric);
      if x.Number? then Some(x.n) else LastKnown(metric, history[..|history| - 1])
  }

  /** Total variation of the numeric samples: the sum of the moves between consecutive known values. */
  function Variation(metric: string, history: seq<Sample>): real {
    if history == [] then 0.0
    else
      var before := history[..|history| - 1];
      var x := NumericOf(history[|history| - 1].ctx, metric);
      var last := LastKnown(metric, before);
      Variation(metric, before) + if x.Number? && last.Some? then Abs(x.n - last.value) else 0.0
  }

  /** Alerts ended by a sample in which the metric was a boolean; under an ordering operator these always clear. */
  function BooleanEndings(c: RuleCondition, history: seq<Sample>): nat
    requires c.MetricThreshold?
  {
    if history == [] then 0
    else
      var before := history[..|history| - 1];
      BooleanEndings(c, before)
      + if After(c, before).on && NumericOf(history[|history| - 1].ctx, c.metricName).Bool? then 1 else 0
  }

  /** The latch, the last value, the variation and the boolean endings of a history. */
  datatype Measures = Measures(latch: Latch, last: Option<real>, variation: real, endings: nat)

  function Measure(c: RuleCondition, history: seq<Sample>): Measures
    requires c.MetricThreshold?
  {
    Measures(After(c, history), LastKnown(c.metricName, history), Variation(c.metricName, history),
             BooleanEndings(c, history))
  }

  /** What a sample adds to them. */
  function Add(m: Measures, x: Numeric, fire: bool, clear: bool): Measures {
    Measures(Next(m.latch, fire, clear),
             if x.Number? then Some(x.n) else m.last,
             m.variation + (if x.Number? && m.last.Some? then Abs(x.n - m.last.value) else 0.0),
             m.endings + if m.latch.on && x.Bool? then 1 else 0)
  }

  lemma MeasureAdds(c: RuleCondition, before: seq<Sample>, s: Sample)
    requires c.MetricThreshold?
    ensures Measure(c, before + [s])
            == Add(Measure(c, before), NumericOf(s.ctx, c.metricName),
                   Evaluate(c, s.ctx, s.now), IsCleared(c, s.ctx, s.now))
  {
    assert (before + [s])[..|before|] == before;
  }

  /** `amount` taken `times` over. */
  function Times(amount: real, times: int): real
    decreases if times < 0 then -times else times
  {
    if times == 0 then 0.0
    else if times > 0 then Times(amount, times - 1) + amount
    else Times(amount, times + 1) - amount
  }

  lemma TimesStep(amount: real, times: int)
    ensures Times(amount, times + 1) == Times(amount, times) + amount
  {
  }

  /** How far `v` is on the firing side of the threshold (negative on the safe side). */
  function Excess(c: RuleCondition, v: real): real
    requires c.MetricThreshold? && c.operator.Ordering() && c.threshold.Finite?
  {
    if c.operator.GreaterThan? || c.operator.GreaterOrEqual? then v - c.threshold.v else c.threshold.v - v
  }

  /** Firing happens on the firing side, clearing at least the margin on the safe side. */
  lemma SidesOfTheBand(c: RuleCondition, s: Sample, v: real)
    requires c.MetricThreshold? && c.operator.Ordering() && c.threshold.Finite?
    requires NumericOf(s.ctx, c.metricName) == Number(v)
    ensures Evaluate(c, s.ctx, s.now) ==> Excess(c, v) >= 0.0
    ensures IsCleared(c, s.ctx, s.now) ==> Excess(c, v) <= -Margin(c.hysteresis)
  {
    assert PositiveOrZero(Finite(Margin(c.hysteresis))) == Margin(c.hysteresis);
  }

  /** Under an ordering operator a boolean never fires and always clears, an unknown does neither. */
  lemma NonNumericSamples(c: RuleCondition, s: Sample)
    requires c.MetricThreshold? && c.operator.Ordering()
    ensures NumericOf(s.ctx, c.metricName).Bool? ==> !Evaluate(c, s.ctx, s.now) && IsCleared(c, s.ctx, s.now)
    ensures NumericOf(s.ctx, c.metricName).Unknown? ==> !Evaluate(c, s.ctx, s.now) && !IsCleared(c, s.ctx, s.now)
  {
  }

  /**
   What the run has paid beyond what its firings owe (`surplus`), given the last known excess: while
   the alert is on, at least the way back below the threshold; while it is off again, one margin
   plus whatever part of the next one is done.
   */
  predicate PaidUp(latch: Latch, excess: Option<real>, surplus: real, h: real) {
    if latch.fires == 0 then !latch.on && surplus >= 2.0 * h
    else
      && excess.Some?
      && if latch.on then surplus >= Max(0.0, -excess.value)
         else surplus >= h + Min(h, Max(0.0, excess.value + h))
  }

  lemma NumberStep(latch: Latch, before: Option<real>, e: real, surplus: real, h: real, fire: bool, clear: bool)
    requires h >= 0.0 && PaidUp(latch, before, surplus, h)
    requires fire ==> e >= 0.0
    requires clear ==> e <= -h
    requires !(fire && clear)
    ensures var move := if before.Some? then Abs(e - before.value) else 0.0;
            var next := Next(latch, fire, clear);
            PaidUp(next, Some(e), surplus + move - (if next.fires > latch.fires then 2.0 * h else 0.0), h)
  {
  }

  /** Variation minus two margins per firing after the first, counting two margins per boolean ending as paid. */
  function Surplus(m: Measures, h: real): real { m.variation - Times(2.0 * h, m.latch.fires - 1 - m.endings) }

  predicate Paid(c: RuleCondition, m: Measures)
    requires c.MetricThreshold? && c.operator.Ordering() && c.threshold.Finite?
  {
    var h := Margin(c.hysteresis);
    PaidUp(m.latch, if m.last.Some? then Some(Excess(c, m.last.value)) else None, Surplus(m, h), h)
  }

  lemma SurplusAdds(m: Measures, x: Numeric, fire: bool, clear: bool, h: real)
    requires x.Bool? ==> !fire && clear
    requires x.Unknown? ==> !fire && !clear
    ensures var next := Add(m, x, fire, clear);
            Surplus(next, h) == Surplus(m, h) + (next.variation - m.variation)
                                - (if next.latch.fires > m.latch.fires then 2.0 * h else 0.0)
                                + (if next.endings > m.endings then 2.0 * h else 0.0)
  {
    var n := m.latch.fires - 1 - m.endings;
    TimesStep(2.0 * h, n);
    TimesStep(2.0 * h, n - 1);
  }

  lemma PaidAdds(c: RuleCondition, m: Measures, s: Sample)
    requires c.MetricThreshold? && c.operator.Ordering() && c.threshold.Finite? && Paid(c, m)
    ensures Paid(c, Add(m, NumericOf(s.ctx, c.metricName), Evaluate(c, s.ctx, s.now), IsCleared(c, s.ctx, s.now)))
  {
    var h := Margin(c.hysteresis);
    var x, fire, clear := NumericOf(s.ctx, c.metricName), Evaluate(c, s.ctx, s.now), IsCleared(c, s.ctx, s.now);
    NonNumericSamples(c, s);
    SurplusAdds(m, x, fire, clear, h);
    if x.Number? {
      SidesOfTheBand(c, s, x.n);
      NeverBoth(c, s.ctx, s.now);
      NumberStep(m.latch, if m.last.Some? then Some(Excess(c, m.last.value)) else None, Excess(c, x.n),
                 Surplus(m, h), h, fire, clear);
    }
  }

  lemma {:induction false} AlwaysPaid(c: RuleCondition, history: seq<Sample>)
    requires c.MetricThreshold? && c.operator.Ordering() && c.threshold.Finite?
    ensures Paid(c, Measure(c, history))
  {
    if history == [] {
      TimesStep(2.0 * Margin(c.hysteresis), -1);
    } else {
      var before, s := history[..|history| - 1], history[|history| - 1];
      AlwaysPaid(c, before);
      PaidAdds(c, Measure(c, before), s);
      MeasureAdds(c, before, s);
      assert history == before + [s];
    }
  }

  /** Numbers never compare true against such a threshold. */
  predicate NeverFires(c: RuleCondition)
    requires c.MetricThreshold? && c.operator.Ordering()
  {
    c.threshold == NaN
    || c.threshold == if c.operator.GreaterThan? || c.operator.GreaterOrEqual? then PosInf else NegInf
  }

  /** With a threshold that is not a finite number, only a boolean sample can end an alert. */
  lemma {:induction false} NonFiniteThreshold(c: RuleCondition, history: seq<Sample>)
    requires c.MetricThreshold? && c.operator.Ordering() && !c.threshold.Finite?
    ensures var m := Measure(c, history);
            && m.latch.fires <= m.endings + (if m.latch.on then 1 else 0)
            && (NeverFires(c) ==> m.latch == Latch(false, 0))
            && m.variation >= 0.0
  {
    if history != [] {
      var before, s := history[..|history| - 1], history[|history| - 1];
      NonFiniteThreshold(c, before);
      NonNumericSamples(c, s);
      MeasureAdds(c, before, s);
      assert history == before + [s];
    }
  }

  /** The bound on the measures of a history. */
  predicate Bounds(m: Measures, h: real) { m.latch.fires >= 1 ==> Surplus(m, h) >= 0.0 }

  lemma PaidIsBound(c: RuleCondition, m: Measures)
    requires c.MetricThreshold? && c.operator.Ordering() && c.threshold.Finite? && Paid(c, m)
    ensures Bounds(m, Margin(c.hysteresis))
  {
  }

  lemma FewFiringsAreBound(m: Measures, h: real)
    requires h >= 0.0 && m.variation >= 0.0 && m.latch.fires <= m.endings + 1
    ensures Bounds(m, h)
  {
    TimesSign(2.0 * h, m.latch.fires - 1 - m.endings);
  }

  lemma AlwaysBounded(c: RuleCondition, history: seq<Sample>)
    requires c.MetricThreshold? && c.operator.Ordering()
    ensures Bounds(Measure(c, history), Margin(c.hysteresis))
  {
    if c.threshold.Finite? {
      AlwaysPaid(c, history);
      PaidIsBound(c, Measure(c, history));
    } else {
      NonFiniteThreshold(c, history);
      FewFiringsAreBound(Measure(c, history), Margin(c.hysteresis));
    }
  }

  /** Enough variation for `k` openings, of which `b` end by a boolean. */
  predicate Covers(variation: real, h: real, k: int, b: int) { variation >= Times(2.0 * h, k - 1 - b) }

  /** What `k` openings take. */
  predicate Costs(c: RuleCondition, history: seq<Sample>, k: nat)
    requires c.MetricThreshold?
  {
    Covers(Variation(c.metricName, history), Margin(c.hysteresis), k, BooleanEndings(c, history))
  }

  /**
   The anti-flapping bound. With an ordering operator and clear margin h, opening the alert k times
   takes a total variation of at least 2h(k - 1), less 2h for every one that a boolean sample ended.
   */
  lemma FiringCostsVariation(c: RuleCondition, history: seq<Sample>)
    requires c.MetricThreshold? && c.operator.Ordering()
    ensures var k := After(c, history).fires; k >= 1 ==> Costs(c, history, k)
  {
    AlwaysBounded(c, history);
    BoundsCover(Measure(c, history), Margin(c.hysteresis));
  }

  lemma BoundsCover(m: Measures, h: real)
    requires Bounds(m, h)
    ensures m.latch.fires >= 1 ==> Covers(m.variation, h, m.latch.fires, m.endings)
  {
  }

  lemma {:induction false} TimesSign(amount: real, n: int)
    requires amount >= 0.0
    ensures n <= 0 ==> Times(amount, n) <= 0.0
    ensures n >= 1 ==> Times(amount, n) >= amount
    decreases if n < 0 then -n else n
  {
    if n < 0 {
      TimesSign(amount, n + 1);
      TimesStep(amount, n);
    } else if n > 1 {
      TimesSign(amount, n - 1);
      TimesStep(amount, n - 1);
    }
  }

  lemma {:induction false} TimesMonotone(amount: real, m: int, n: int)
    requires amount >= 0.0 && m <= n
    ensures Times(amount, m) <= Times(amount, n)
    decreases n - m
  {
    if m < n {
      TimesMonotone(amount, m, n - 1);
      TimesStep(amount, n - 1);
    }
  }

  lemma CoversFewer(variation: real, h: real, k: int, fewer: int, b: int)
    requires h >= 0.0 && fewer <= k && Covers(variation, h, k, b)
    ensures Covers(variation, h, fewer, b)
  {
    TimesMonotone(2.0 * h, fewer - 1 - b, k - 1 - b);
  }

  /** Fewer openings take no more. */
  lemma FewerCostLess(c: RuleCondition, history: seq<Sample>, k: nat)
    requires c.MetricThreshold? && c.operator.Ordering() && 1 <= k <= After(c, history).fires
    ensures Costs(c, history, k)
  {
    FiringCostsVariation(c, history);
    CoversFewer(Variation(c.metricName, history), Margin(c.hysteresis), After(c, history).fires, k,
                BooleanEndings(c, history));
  }

  lemma CoversTwo(variation: real, h: real)
    requires h >= 0.0 && Covers(variation, h, 2, 0)
    ensures variation >= 2.0 * h
  {
  }

  lemma SecondFiringCost(c: RuleCondition, history: seq<Sample>)
    requires c.MetricThreshold? && c.operator.Ordering()
    requires BooleanEndings(c, history) == 0
    requires After(c, history).fires >= 2
    ensures Variation(c.metricName, history) >= 2.0 * Margin(c.hysteresis)
  {
    FewerCostLess(c, history, 2);
    CoversTwo(Variation(c.metricName, history), Margin(c.hysteresis));
  }

  /** A metric that hovers, moving less than two margins in all, opens the alert at most once. */
  lemma HoveringFiresOnce(c: RuleCondition, history: seq<Sample>)
    requires c.MetricThreshold? && c.operator.Ordering()
    requires BooleanEndings(c, history) == 0
    requires Variation(c.metricName, history) < 2.0 * Margin(c.hysteresis)
    ensures After(c, history).fires <= 1
  {
    if After(c, history).fires >= 2 {
      SecondFiringCost(c, history);
    }
  }

  // ------------------------------------------------------------------ the bound is tight

  /** The value with that excess. */
  function At(c: RuleCondition, excess: real): real
    requires c.MetricThreshold? && c.operator.Ordering() && c.threshold.Finite?
  {
    if c.operator.GreaterThan? || c.operator.GreaterOrEqual? then c.threshold.v + excess else c.threshold.v - excess
  }

  /** Alternates between a step on the firing side and a step beyond the margin on the safe side. */
  function Swing(c: RuleCondition, step: real, n: nat): real
    requires c.MetricThreshold? && c.operator.Ordering() && c.threshold.Finite?
  {
    At(c, if n % 2 == 1 then step else -Margin(c.hysteresis) - step)
  }

  function Reading(ctx: Context, metric: string, v: real): Sample {
    Sample(ctx.(metrics := map[metric := Float(Finite(v))]), 0)
  }

  function Flag(ctx: Context, metric: string): Sample { Sample(ctx.(metrics := map[metric := Boolean(true)]), 0) }

  function ZigZag(ctx: Context, c: RuleCondition, step: real, n: nat): seq<Sample>
    requires c.MetricThreshold? && c.operator.Ordering() && c.threshold.Finite?
  {
    if n == 0 then [] else ZigZag(ctx, c, step, n - 1) + [Reading(ctx, c.metricName, Swing(c, step, n))]
  }

  /** After `n` swings, `b` times over a boolean and the first reading again. */
  function Flagged(ctx: Context, c: RuleCondition, step: real, n: nat, b: nat): seq<Sample>
    requires c.MetricThreshold? && c.operator.Ordering() && c.threshold.Finite?
  {
    if b == 0 then ZigZag(ctx, c, step, n)
    else
      Flagged(ctx, c, step, n, b - 1) + [Flag(ctx, c.metricName)] + [Reading(ctx, c.metricName, Swing(c, step, 1))]
  }

  lemma SwingDecides(ctx: Context, c: RuleCondition, step: real, n: nat)
    requires c.MetricThreshold? && c.operator.Ordering() && c.threshold.Finite?
    requires step > 0.0
    ensures var s := Reading(ctx, c.metricName, Swing(c, step, n));
            && NumericOf(s.ctx, c.metricName) == Number(Swing(c, step, n))
            && Evaluate(c, s.ctx, s.now) == (n % 2 == 1)
            && IsCleared(c, s.ctx, s.now) == (n % 2 == 0)
  {
    assert PositiveOrZero(Finite(Margin(c.hysteresis))) == Margin(c.hysteresis);
  }

  lemma SwingAppended(ctx: Context, c: RuleCondition, step: real, n: nat, before: seq<Sample>, m: Measures)
    requires c.MetricThreshold? && c.operator.Ordering() && c.threshold.Finite?
    requires step > 0.0 && m == Measure(c, before)
    ensures var v := Swing(c, step, n);
            var move := if m.last.Some? then Abs(v - m.last.value) else 0.0;
            Measure(c, before + [Reading(ctx, c.metricName, v)])
            == Measures(Next(m.latch, n % 2 == 1, n % 2 == 0), Some(v), m.variation + move, m.endings)
  {
    SwingDecides(ctx, c, step, n);
    MeasureAdds(c, before, Reading(ctx, c.metricName, Swing(c, step, n)));
  }

  lemma FlagAppended(ctx: Context, c: RuleCondition, before: seq<Sample>, m: Measures)
    requires c.MetricThreshold? && c.operator.Ordering() && m == Measure(c, before) && m.latch.on
    ensures Measure(c, before + [Flag(ctx, c.metricName)])
            == Measures(m.latch.(on := false), m.last, m.variation, m.endings + 1)
  {
    NonNumericSamples(c, Flag(ctx, c.metricName));
    MeasureAdds(c, before, Flag(ctx, c.metricName));
  }

  lemma SwingMoves(c: RuleCondition, step: real, n: nat)
    requires c.MetricThreshold? && c.operator.Ordering() && c.threshold.Finite?
    requires step > 0.0
    ensures Abs(Swing(c, step, n + 1) - Swing(c, step, n)) == Margin(c.hysteresis) + 2.0 * step
  {
    assert (n + 1) % 2 == 1 - n % 2;
  }

  /** After `n` swings. */
  function Swung(c: RuleCondition, step: real, n: nat): Measures
    requires c.MetricThreshold? && c.operator.Ordering() && c.threshold.Finite?
  {
    Measures(Latch(n % 2 == 1, (n + 1) / 2),
             if n == 0 then None else Some(Swing(c, step, n)),
             if n == 0 then 0.0 else Times(Margin(c.hysteresis) + 2.0 * step, n - 1),
             0)
  }

  lemma SwungNext(c: RuleCondition, step: real, n: nat)
    requires c.MetricThreshold? && c.operator.Ordering() && c.threshold.Finite?
    requires step > 0.0
    ensures var m, v := Swung(c, step, n), Swing(c, step, n + 1);
            var move := if m.last.Some? then Abs(v - m.last.value) else 0.0;
            Swung(c, step, n + 1)
            == Measures(Next(m.latch, (n + 1) % 2 == 1, (n + 1) % 2 == 0), Some(v), m.variation + move, m.endings)
  {
    assert (n + 1) % 2 == 1 - n % 2;
    if n > 0 {
      SwingMoves(c, step, n);
      TimesStep(Margin(c.hysteresis) + 2.0 * step, n - 1);
    }
  }

  lemma SwingExtends(ctx: Context, c: RuleCondition, step: real, n: nat, before: seq<Sample>)
    requires c.MetricThreshold? && c.operator.Ordering() && c.threshold.Finite?
    requires step > 0.0 && Measure(c, before) == Swung(c, step, n)
    ensures Measure(c, before + [Reading(ctx, c.metricName, Swing(c, step, n + 1))]) == Swung(c, step, n + 1)
  {
    SwingAppended(ctx, c, step, n + 1, before, Swung(c, step, n));
    SwungNext(c, step, n);
  }

  lemma NothingMeasured(c: RuleCondition, step: real)
    requires c.MetricThreshold? && c.operator.Ordering() && c.threshold.Finite?
    ensures Measure(c, []) == Swung(c, step, 0)
  {
  }

  lemma {:induction false} ZigZagMeasures(ctx: Context, c: RuleCondition, step: real, n: nat)
    requires c.MetricThreshold? && c.operator.Ordering() && c.threshold.Finite?
    requires step > 0.0
    ensures Measure(c, ZigZag(ctx, c, step, n)) == Swung(c, step, n)
  {
    if n == 0 {
      NothingMeasured(c, step);
    } else {
      ZigZagMeasures(ctx, c, step, n - 1);
      SwingExtends(ctx, c, step, n - 1, ZigZag(ctx, c, step, n - 1));
    }
  }

  lemma FlagThenSwing(ctx: Context, c: RuleCondition, step: real, before: seq<Sample>, m: Measures)
    requires c.MetricThreshold? && c.operator.Ordering() && c.threshold.Finite?
    requires step > 0.0 && m == Measure(c, before) && m.latch.on && m.last == Some(Swing(c, step, 1))
    ensures Measure(c, before + [Flag(ctx, c.metricName)] + [Reading(ctx, c.metricName, Swing(c, step, 1))])
            == m.(latch := Latch(true, m.latch.fires + 1), endings := m.endings + 1)
  {
    var flagged := before + [Flag(ctx, c.metricName)];
    FlagAppended(ctx, c, before, m);
    SwingAppended(ctx, c, step, 1, flagged, m.(latch := m.latch.(on := false), endings := m.endings + 1));
  }

  /** After `n` swings and `b` booleans. */
  function SwungAndFlagged(c: RuleCondition, step: real, n: nat, b: nat): Measures
    requires c.MetricThreshold? && c.operator.Ordering() && c.threshold.Finite?
  {
    Measures(Latch(true, (n + 1) / 2 + b), Some(Swing(c, step, 1)), Swung(c, step, n).variation, b)
  }

  lemma {:induction false} FlaggedMeasures(ctx: Context, c: RuleCondition, step: real, n: nat, b: nat)
    requires c.MetricThreshold? && c.operator.Ordering() && c.threshold.Finite?
    requires step > 0.0 && n % 2 == 1
    ensures Measure(c, Flagged(ctx, c, step, n, b)) == SwungAndFlagged(c, step, n, b)
  {
    if b == 0 {
      ZigZagMeasures(ctx, c, step, n);
    } else {
      FlaggedMeasures(ctx, c, step, n, b - 1);
      FlagThenSwing(ctx, c, step, Flagged(ctx, c, step, n, b - 1), SwungAndFlagged(c, step, n, b - 1));
    }
  }

  /**
   Neither the bound nor the debit can be improved: for every ordering operator, k openings of which
   any number b end by a boolean are possible at a variation as close to 2h(k - 1 - b) as one likes.
   */
  lemma BoundIsTight(ctx: Context, c: RuleCondition, step: real, k: nat, b: nat)
    requires c.MetricThreshold? && c.operator.Ordering() && c.threshold.Finite?
    requires step > 0.0 && b < k
    ensures var run := Flagged(ctx, c, step, 2 * (k - b) - 1, b);
            && After(c, run).fires == k
            && BooleanEndings(c, run) == b
            && Variation(c.metricName, run) == Times(Margin(c.hysteresis) + 2.0 * step, 2 * (k - 1 - b))
  {
    var n := 2 * (k - b) - 1;
    assert n % 2 == 1 && (n + 1) / 2 == k - b && n - 1 == 2 * (k - 1 - b);
    FlaggedMeasures(ctx, c, step, n, b);
    assert Measure(c, Flagged(ctx, c, step, n, b)).latch.fires == k;
  }

  /** `k` openings without any movement. */
  predicate Free(m: Measures, k: nat) { m.latch.fires == k && m.endings == k - 1 && m.variation == 0.0 }

  lemma OneSwingIsFree(c: RuleCondition, k: nat, m: Measures)
    requires c.MetricThreshold? && c.operator.Ordering() && c.threshold.Finite? && k >= 1
    requires m == SwungAndFlagged(c, 1.0, 1, k - 1)
    ensures Free(m, k)
  {
  }

  /** So every rule with an ordering operator can be opened any number of times without any movement. */
  lemma BooleansRefireForFree(ctx: Context, c: RuleCondition, k: nat) returns (history: seq<Sample>)
    requires c.MetricThreshold? && c.operator.Ordering() && c.threshold.Finite? && k >= 1
    ensures Free(Measure(c, history), k)
  {
    history := Flagged(ctx, c, 1.0, 1, k - 1);
    FlaggedMeasures(ctx, c, 1.0, 1, k - 1);
    OneSwingIsFree(c, k, Measure(c, history));
  }

  /** The bound without a debit. */
  predicate Bounded(m: Measures, h: real) { m.latch.fires >= 1 ==> Covers(m.variation, h, m.latch.fires, 0) }

  lemma TwoForFree(m: Measures, h: real)
    requires h > 0.0 && Free(m, 2)
    ensures !Bounded(m, h)
  {
    TimesSign(2.0 * h, 1);
  }

  /** With a margin above zero the bound is guaranteed exactly if no boolean sample ends an alert. */
  lemma BoundedIff(ctx: Context, c: RuleCondition, b: nat)
    requires c.MetricThreshold? && c.operator.Ordering() && c.threshold.Finite? && Margin(c.hysteresis) > 0.0
    ensures b == 0 <==>
            forall history :: Measure(c, history).endings <= b ==> Bounded(Measure(c, history), Margin(c.hysteresis))
  {
    if b == 0 {
      forall history | Measure(c, history).endings <= b
        ensures Bounded(Measure(c, history), Margin(c.hysteresis))
      {
        AlwaysBounded(c, history);
        BoundsCover(Measure(c, history), Margin(c.hysteresis));
      }
    } else {
      var history := BooleansRefireForFree(ctx, c, 2);
      TwoForFree(Measure(c, history), Margin(c.hysteresis));
    }
  }
}
