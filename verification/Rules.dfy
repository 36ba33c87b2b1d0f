/**
 Alert rule semantics (crates/nimon-core/src/alert/rules.rs).

 A condition tree answers two questions about a device context: does it fire, and is it
 cleared. The two are not complements. The clock is a parameter, in milliseconds.
 */
module Rules {
  import opened Basics

  // ------------------------------------------------------------------ numbers

  /** An f64 with exact reals for the finite values: rounding is not modelled. */
  datatype F64 = Finite(v: real) | PosInf | NegInf | NaN

  predicate AtMost(a: F64, b: F64) {
    a != NaN && b != NaN && (a == NegInf || b == PosInf || (a.Finite? && b.Finite? && a.v <= b.v))
  }

  predicate Below(a: F64, b: F64) { AtMost(a, b) && a != b }

  function Shift(a: F64, delta: real): F64 {
    if a.Finite? then Finite(a.v + delta) else a
  }

  function Abs(x: real): real { if x < 0.0 then -x else x }

  function Max(x: real, y: real): real { if x < y then y else x }

  function Min(x: real, y: real): real { if x < y then x else y }

  /** |a - b| > margin, for operands that are not NaN; inf - inf is NaN, which exceeds nothing. */
  predicate FurtherThan(a: F64, b: F64, margin: real) {
    if a.Finite? && b.Finite? then Abs(a.v - b.v) > margin else a != b
  }

  predicate ApproxEq(a: F64, b: F64) {
    if a == NaN || b == NaN then false
    else if !a.Finite? || !b.Finite? then a == b
    else Abs(a.v - b.v) <= 0.000000001 * Max(Max(1.0, Abs(a.v)), Abs(b.v))
  }

  // ------------------------------------------------------------------ comparisons

  datatype ComparisonOp = GreaterThan | LessThan | Equal | NotEqual | GreaterOrEqual | LessOrEqual {
    predicate Ordering() { GreaterThan? || LessThan? || GreaterOrEqual? || LessOrEqual? }

    /** Only equality tests apply to booleans. */
    predicate ForBooleans() { Equal? || NotEqual? }

    predicate Compare(value: F64, threshold: F64) {
      if value == NaN || threshold == NaN then false else
      match this
      case GreaterThan => Below(threshold, value)
      case LessThan => Below(value, threshold)
      case Equal => ApproxEq(value, threshold)
      case NotEqual => !ApproxEq(value, threshold)
      case GreaterOrEqual => AtMost(threshold, value)
      case LessOrEqual => AtMost(value, threshold)
    }

    predicate Cleared(value: F64, threshold: F64, rawMargin: F64) {
      if value == NaN || threshold == NaN then false else
      var margin := PositiveOrZero(rawMargin);
      match this
      case GreaterThan => AtMost(value, Shift(threshold, -margin))
      case GreaterOrEqual => Below(value, Shift(threshold, -margin))
      case LessThan => AtMost(Shift(threshold, margin), value)
      case LessOrEqual => Below(Shift(threshold, margin), value)
      case Equal => !ApproxEq(value, threshold) && FurtherThan(value, threshold, margin)
      case NotEqual => ApproxEq(value, threshold)
    }
  }

  function PositiveOrZero(m: F64): (margin: real)
    ensures margin >= 0.0
  {
    if m.Finite? && m.v > 0.0 then m.v else 0.0
  }

  /** The clear margin a leaf really uses: absent, non-finite and non-positive all mean zero. */
  function Margin(hysteresis: Option<F64>): (margin: real)
    ensures margin >= 0.0
  {
    if hysteresis.Some? then PositiveOrZero(hysteresis.value) else 0.0
  }

  // ------------------------------------------------------------------ contexts

  datatype HealthStatus = Healthy | Warning | Error | Offline

  datatype MetricValue = Float(f: F64) | Integer(i: int) | Text(s: string) | Boolean(b: bool)

  datatype PredictionInfo = PredictionInfo(predictionType: string, probability: F64, etaMinutes: Option<int>)

  datatype Context = Context(
    deviceId: string,
    edgeId: string,
    currentStatus: HealthStatus,
    previousStatus: Option<HealthStatus>,
    metrics: map<string, MetricValue>,
    lastPoll: int,
    predictions: seq<PredictionInfo>)

  /** What a metric is worth in a comparison. */
  datatype Numeric = Number(n: real) | Bool(asNumber: real) | Unknown

  function NumericOf(ctx: Context, metric: string): Numeric {
    if metric !in ctx.metrics then Unknown else
    match ctx.metrics[metric]
    case Boolean(b) => Bool(if b then 1.0 else 0.0)
    case Float(Finite(v)) => Number(v)
    case Integer(i) => Number(i as real)
    case _ => Unknown
  }

  /** Whole minutes of a millisecond span, truncated toward zero. */
  function WholeMinutes(ms: int): int {
    if ms >= 0 then ms / 60000 else -((-ms) / 60000)
  }

  predicate PollIsStale(ctx: Context, maxMinutes: int, now: int) {
    WholeMinutes(now - ctx.lastPoll) > maxMinutes
  }

  // ------------------------------------------------------------------ conditions

  datatype LogicalOp = And | Or

  datatype RuleCondition =
    | MetricThreshold(metricName: string, operator: ComparisonOp, threshold: F64,
                      durationMinutes: Option<int>, hysteresis: Option<F64>)
    | HealthStatusChange(from: Option<HealthStatus>, to: HealthStatus)
    | Prediction(predictionType: string, minProbability: F64, maxEtaMinutes: Option<int>)
    | DeviceOffline(maxMinutesSincePoll: int)
    | Composite(logic: LogicalOp, conditions: seq<RuleCondition>)

  predicate PredictionMatches(c: RuleCondition, p: PredictionInfo)
    requires c.Prediction?
  {
    && p.predictionType == c.predictionType
    && AtMost(c.minProbability, p.probability)
    && (c.maxEtaMinutes.Some? ==> p.etaMinutes.Some? && p.etaMinutes.value <= c.maxEtaMinutes.value)
  }

  predicate MatchingPredictionPresent(c: RuleCondition, ctx: Context)
    requires c.Prediction?
  {
    exists p | p in ctx.predictions :: PredictionMatches(c, p)
  }

  predicate Evaluate(c: RuleCondition, ctx: Context, now: int) {
    match c
    case MetricThreshold(name, op, threshold, _, _) => (
      match NumericOf(ctx, name)
      case Number(v) => op.Compare(Finite(v), threshold)
      case Bool(v) => op.ForBooleans() && op.Compare(Finite(v), threshold)
      case Unknown => false)
    case HealthStatusChange(from, to) =>
      && ctx.previousStatus.Some?
      && ctx.currentStatus == to
      && ctx.previousStatus.value != to
      && (from.None? || ctx.previousStatus.value == from.value)
    case Prediction(_, _, _) => MatchingPredictionPresent(c, ctx)
    case DeviceOffline(limit) => ctx.currentStatus == Offline || PollIsStale(ctx, limit, now)
    case Composite(op, cs) =>
      if cs == [] then false
      else if op == And then forall d | d in cs :: Evaluate(d, ctx, now)
      else exists d | d in cs :: Evaluate(d, ctx, now)
  }

  predicate IsCleared(c: RuleCondition, ctx: Context, now: int) {
    match c
    case MetricThreshold(name, op, threshold, _, h) => (
      match NumericOf(ctx, name)
      case Number(v) => op.Cleared(Finite(v), threshold, Finite(Margin(h)))
      case Bool(v) => !(op.ForBooleans() && op.Compare(Finite(v), threshold))
      case Unknown => false)
    case HealthStatusChange(_, to) => ctx.currentStatus != to
    case Prediction(_, _, _) => !MatchingPredictionPresent(c, ctx)
    case DeviceOffline(limit) => ctx.currentStatus != Offline && !PollIsStale(ctx, limit, now)
    case Composite(op, cs) =>
      if cs == [] then true
      else if op == And then exists d | d in cs :: IsCleared(d, ctx, now)
      else forall d | d in cs :: IsCleared(d, ctx, now)
  }

  datatype AlertRule = AlertRule(id: string, name: string, enabled: bool, condition: RuleCondition)

  predicate RuleEvaluate(r: AlertRule, ctx: Context, now: int) {
    r.enabled && Evaluate(r.condition, ctx, now)
  }

  predicate RuleIsCleared(r: AlertRule, ctx: Context, now: int) {
    r.enabled ==> IsCleared(r.condition, ctx, now)
  }

  // ------------------------------------------------------------------ firing and clearing exclude each other

  lemma {:induction false} NeverBoth(c: RuleCondition, ctx: Context, now: int)
    ensures !(Evaluate(c, ctx, now) && IsCleared(c, ctx, now))
  {
    if c.Composite? {
      forall d | d in c.conditions
        ensures !(Evaluate(d, ctx, now) && IsCleared(d, ctx, now))
      {
        NeverBoth(d, ctx, now);
      }
      if c.conditions != [] {
        var first := c.conditions[0];
        assert first in c.conditions;
      }
    }
  }

  lemma RuleNeverBoth(r: AlertRule, ctx: Context, now: int)
    ensures !(RuleEvaluate(r, ctx, now) && RuleIsCleared(r, ctx, now))
  {
    NeverBoth(r.condition, ctx, now);
  }

  /**
   For a leaf whose metric is known, "cleared" and "does not fire" coincide exactly when no clear
   margin is in the way: the margin is zero or inert, or the value lies outside the band the margin
   opens beside the threshold.
   */
  lemma LeafComplementary(c: RuleCondition, ctx: Context, now: int)
    requires c.MetricThreshold?
    requires c.threshold != NaN
    requires NumericOf(ctx, c.metricName) != Unknown
    ensures IsCleared(c, ctx, now) == !Evaluate(c, ctx, now) <==> !InMarginBand(c, ctx)
    ensures Margin(c.hysteresis) == 0.0 ==> IsCleared(c, ctx, now) == !Evaluate(c, ctx, now)
  {
    var h := Margin(c.hysteresis);
    assert PositiveOrZero(Finite(h)) == h;
    if c.threshold.Finite? && NumericOf(ctx, c.metricName).Number? {
      var v, t := NumericOf(ctx, c.metricName).n, c.threshold.v;
      assert ApproxEq(Finite(v), Finite(v));
      assert v == t ==> ApproxEq(Finite(v), c.threshold);
    }
  }

  /** The value sits where the comparison is already false but the margin has not been covered yet. */
  predicate InMarginBand(c: RuleCondition, ctx: Context)
    requires c.MetricThreshold?
  {
    var h := Margin(c.hysteresis);
    var x := NumericOf(ctx, c.metricName);
    x.Number? && c.threshold.Finite? &&
    var above := x.n - c.threshold.v;
    match c.operator
    case GreaterThan => -h < above <= 0.0
    case GreaterOrEqual => -h <= above < 0.0
    case LessThan => 0.0 <= above < h
    case LessOrEqual => 0.0 < above <= h
    case Equal => !ApproxEq(Finite(x.n), c.threshold) && Abs(above) <= h
    case NotEqual => false
  }

  // ------------------------------------------------------------------ Kleene's three-valued reading

  datatype Verdict = Clear | Undecided | Fire

  function Meet(a: Verdict, b: Verdict): Verdict {
    if a == Clear || b == Clear then Clear else if a == Fire then b else if b == Fire then a else Undecided
  }

  function Join(a: Verdict, b: Verdict): Verdict {
    if a == Fire || b == Fire then Fire else if a == Clear then b else if b == Clear then a else Undecided
  }

  /** Strong Kleene logic over the leaves: And is the meet, Or the join, of Clear < Undecided < Fire. */
  ghost function Verdicts(c: RuleCondition, ctx: Context, now: int): Verdict
    decreases c, 1
  {
    if c.Composite? then
      if c.conditions == [] then Clear else Folded(c.logic, c.conditions, ctx, now)
    else if Evaluate(c, ctx, now) then Fire
    else if IsCleared(c, ctx, now) then Clear
    else Undecided
  }

  ghost function Folded(op: LogicalOp, cs: seq<RuleCondition>, ctx: Context, now: int): Verdict
    requires cs != []
    decreases cs, 0
  {
    var first := Verdicts(cs[0], ctx, now);
    if |cs| == 1 then first
    else if op == And then Meet(first, Folded(op, cs[1..], ctx, now))
    else Join(first, Folded(op, cs[1..], ctx, now))
  }

  /** The two boolean predicates are together exactly the three-valued semantics. */
  lemma {:induction false} KleeneSemantics(c: RuleCondition, ctx: Context, now: int)
    ensures Evaluate(c, ctx, now) <==> Verdicts(c, ctx, now) == Fire
    ensures IsCleared(c, ctx, now) <==> Verdicts(c, ctx, now) == Clear
    decreases c, 1
  {
    NeverBoth(c, ctx, now);
    if c.Composite? && c.conditions != [] {
      FoldedSemantics(c.logic, c.conditions, ctx, now);
    }
  }

  lemma {:induction false} FoldedSemantics(op: LogicalOp, cs: seq<RuleCondition>, ctx: Context, now: int)
    requires cs != []
    ensures op == And ==>
      && (Folded(op, cs, ctx, now) == Fire <==> forall d | d in cs :: Evaluate(d, ctx, now))
      && (Folded(op, cs, ctx, now) == Clear <==> exists d | d in cs :: IsCleared(d, ctx, now))
    ensures op == Or ==>
      && (Folded(op, cs, ctx, now) == Fire <==> exists d | d in cs :: Evaluate(d, ctx, now))
      && (Folded(op, cs, ctx, now) == Clear <==> forall d | d in cs :: IsCleared(d, ctx, now))
    decreases cs, 0
  {
    KleeneSemantics(cs[0], ctx, now);
    if |cs| > 1 {
      FoldedSemantics(op, cs[1..], ctx, now);
      assert cs == [cs[0]] + cs[1..];
      assert forall d :: d in cs <==> d == cs[0] || d in cs[1..];
    }
  }

  // ------------------------------------------------------------------ monotone in information

  /** `after` agrees with `before`, except that unknown metrics may have become known. */
  ghost predicate KnowsMore(before: Context, after: Context) {
    && after.currentStatus == before.currentStatus
    && after.previousStatus == before.previousStatus
    && after.lastPoll == before.lastPoll
    && after.predictions == before.predictions
    && forall m :: NumericOf(before, m) == Unknown || NumericOf(after, m) == NumericOf(before, m)
  }

  lemma {:induction false} InformationOnlyDecides(c: RuleCondition, before: Context, after: Context, now: int)
    requires KnowsMore(before, after)
    ensures Evaluate(c, before, now) ==> Evaluate(c, after, now)
    ensures IsCleared(c, before, now) ==> IsCleared(c, after, now)
  {
    match c
    case MetricThreshold(name, _, _, _, _) =>
      assert NumericOf(before, name) == Unknown || NumericOf(after, name) == NumericOf(before, name);
    case Composite(_, cs) =>
      forall d | d in cs
        ensures Evaluate(d, before, now) ==> Evaluate(d, after, now)
        ensures IsCleared(d, before, now) ==> IsCleared(d, after, now)
      {
        InformationOnlyDecides(d, before, after, now);
      }
    case _ =>
  }

  /** Reporting a metric that was missing is one way to know more. */
  lemma ReportingAMissingMetric(c: RuleCondition, ctx: Context, name: string, value: MetricValue, now: int)
    requires NumericOf(ctx, name) == Unknown
    ensures var after := ctx.(metrics := ctx.metrics[name := value]);
            && (Evaluate(c, ctx, now) ==> Evaluate(c, after, now))
            && (IsCleared(c, ctx, now) ==> IsCleared(c, after, now))
  {
    InformationOnlyDecides(c, ctx, ctx.(metrics := ctx.metrics[name := value]), now);
  }

  // ------------------------------------------------------------------ margins

  /** The same tree, with every leaf's margin at least as large. */
  ghost predicate MarginsRaised(c: RuleCondition, d: RuleCondition) {
    match c
    case MetricThreshold(_, _, _, _, h) =>
      d.MetricThreshold? && d == c.(hysteresis := d.hysteresis) && Margin(h) <= Margin(d.hysteresis)
    case Composite(op, cs) =>
      && d.Composite? && d.logic == op && |d.conditions| == |cs|
      && forall i | 0 <= i < |cs| :: MarginsRaised(cs[i], d.conditions[i])
    case _ => d == c
  }

  lemma RaisingOneMargin(op: ComparisonOp, value: F64, threshold: F64, small: real, large: real)
    requires 0.0 <= small <= large
    ensures op.Cleared(value, threshold, Finite(large)) ==> op.Cleared(value, threshold, Finite(small))
  {
    assert PositiveOrZero(Finite(small)) == small && PositiveOrZero(Finite(large)) == large;
  }

  lemma {:induction false} RaisingMargins(c: RuleCondition, d: RuleCondition, ctx: Context, now: int)
    requires MarginsRaised(c, d)
    ensures Evaluate(d, ctx, now) == Evaluate(c, ctx, now)
    ensures IsCleared(d, ctx, now) ==> IsCleared(c, ctx, now)
  {
    match c
    case MetricThreshold(name, op, threshold, _, h) =>
      var x := NumericOf(ctx, name);
      if x.Number? {
        RaisingOneMargin(op, Finite(x.n), threshold, Margin(h), Margin(d.hysteresis));
      }
    case Composite(op, cs) =>
      var ds := d.conditions;
      forall i | 0 <= i < |cs|
        ensures Evaluate(ds[i], ctx, now) == Evaluate(cs[i], ctx, now)
        ensures IsCleared(ds[i], ctx, now) ==> IsCleared(cs[i], ctx, now)
      {
        RaisingMargins(cs[i], ds[i], ctx, now);
      }
      EvaluatePointwise(cs, ds, ctx, now);
      ClearedPointwise(cs, ds, ctx, now);
    case _ =>
  }

  lemma EvaluatePointwise(cs: seq<RuleCondition>, ds: seq<RuleCondition>, ctx: Context, now: int)
    requires |cs| == |ds|
    requires forall i | 0 <= i < |cs| :: Evaluate(ds[i], ctx, now) == Evaluate(cs[i], ctx, now)
    ensures (forall e | e in ds :: Evaluate(e, ctx, now)) == (forall e | e in cs :: Evaluate(e, ctx, now))
    ensures (exists e | e in ds :: Evaluate(e, ctx, now)) == (exists e | e in cs :: Evaluate(e, ctx, now))
  {
    assert forall i | 0 <= i < |cs| :: cs[i] in cs && ds[i] in ds;
  }

  lemma ClearedPointwise(cs: seq<RuleCondition>, ds: seq<RuleCondition>, ctx: Context, now: int)
    requires |cs| == |ds|
    requires forall i | 0 <= i < |cs| :: IsCleared(ds[i], ctx, now) ==> IsCleared(cs[i], ctx, now)
    ensures (forall e | e in ds :: IsCleared(e, ctx, now)) ==> (forall e | e in cs :: IsCleared(e, ctx, now))
    ensures (exists e | e in ds :: IsCleared(e, ctx, now)) ==> (exists e | e in cs :: IsCleared(e, ctx, now))
  {
    assert forall i | 0 <= i < |cs| :: cs[i] in cs && ds[i] in ds;
  }
}
