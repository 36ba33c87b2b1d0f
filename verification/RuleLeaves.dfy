/**
 What single conditions mean for a rule that is enabled, in terms of the readings, states, predictions
 and times that it is about (crates/nimon-core/src/alert/rules.rs:184-285 and 340-373).
 */
module RuleLeaves {
  import opened Basics
  import opened Rules

  // ------------------------------------------------------------------ metrics

  /** The metric has a finite number, whole or not. */
  ghost predicate Reads(ctx: Context, metric: string, v: real) {
    && metric in ctx.metrics
    && (ctx.metrics[metric] == MetricValue.Float(Finite(v))
        || (ctx.metrics[metric].Integer? && ctx.metrics[metric].i as real == v))
  }

  /** Nothing that could be compared with a number. */
  predicate Unreadable(ctx: Context, metric: string) {
    metric !in ctx.metrics || ctx.metrics[metric].Text?
    || (ctx.metrics[metric].Float? && !ctx.metrics[metric].f.Finite?)
  }

  /** As good as equal, to nine digits. */
  predicate Near(a: real, b: real) {
    var d := if a < b then b - a else a - b;
    var x, y := if a < 0.0 then -a else a, if b < 0.0 then -b else b;
    d <= 0.000000001 || d <= 0.000000001 * x || d <= 0.000000001 * y
  }

  lemma NearIff(a: real, b: real)
    ensures ApproxEq(Finite(a), Finite(b)) <==> Near(a, b)
  {
  }

  /** An enabled rule on one metric, compared with a finite number. */
  ghost predicate OnMetric(r: AlertRule, metric: string, op: ComparisonOp, limit: real) {
    && r.enabled && r.condition.MetricThreshold?
    && r.condition.metricName == metric && r.condition.operator == op && r.condition.threshold == Finite(limit)
  }

  /** The hysteresis, if it is a positive number, and else nothing. */
  function Band(r: AlertRule): real
    requires r.condition.MetricThreshold?
  {
    match r.condition.hysteresis
    case Some(Finite(h)) => if h > 0.0 then h else 0.0
    case _ => 0.0
  }

  /** On which side of its limit a rule fires, and how far on the other side it is cleared. */
  lemma ThresholdMeans(r: AlertRule, op: ComparisonOp, limit: real, ctx: Context, v: real, now: int)
    requires r.condition.MetricThreshold? && OnMetric(r, r.condition.metricName, op, limit)
    requires Reads(ctx, r.condition.metricName, v)
    ensures RuleEvaluate(r, ctx, now) <==>
            match op
            case GreaterThan => v > limit
            case LessThan => v < limit
            case GreaterOrEqual => v >= limit
            case LessOrEqual => v <= limit
            case Equal => Near(v, limit)
            case NotEqual => !Near(v, limit)
    ensures RuleIsCleared(r, ctx, now) <==>
            match op
            case GreaterThan => v <= limit - Band(r)
            case LessThan => v >= limit + Band(r)
            case GreaterOrEqual => v < limit - Band(r)
            case LessOrEqual => v > limit + Band(r)
            case Equal => !Near(v, limit) && (v - limit > Band(r) || limit - v > Band(r))
            case NotEqual => Near(v, limit)
  {
    NearIff(v, limit);
  }

  /** A boolean is one or zero, and is only ever tested for equality; it is cleared whenever it does not fire. */
  lemma BooleanMeans(r: AlertRule, op: ComparisonOp, limit: real, ctx: Context, now: int)
    requires r.condition.MetricThreshold? && OnMetric(r, r.condition.metricName, op, limit)
    requires r.condition.metricName in ctx.metrics && ctx.metrics[r.condition.metricName].Boolean?
    ensures var x := if ctx.metrics[r.condition.metricName].b then 1.0 else 0.0;
            RuleEvaluate(r, ctx, now) <==> (op.Equal? && Near(x, limit)) || (op.NotEqual? && !Near(x, limit))
    ensures RuleIsCleared(r, ctx, now) <==> !RuleEvaluate(r, ctx, now)
  {
    NearIff(if ctx.metrics[r.condition.metricName].b then 1.0 else 0.0, limit);
  }

  /** What cannot be read neither raises nor clears anything. */
  lemma UnreadableMeans(r: AlertRule, ctx: Context, now: int)
    requires r.enabled && r.condition.MetricThreshold? && Unreadable(ctx, r.condition.metricName)
    ensures !RuleEvaluate(r, ctx, now) && !RuleIsCleared(r, ctx, now)
  {
  }

  // ------------------------------------------------------------------ states, predictions, silence

  /** A rule on a change of state fires exactly at a change to its state, from the other if it names one. */
  lemma HealthChangeMeans(r: AlertRule, ctx: Context, now: int)
    requires r.enabled && r.condition.HealthStatusChange?
    ensures RuleEvaluate(r, ctx, now) <==>
            exists was :: ctx.previousStatus == Some(was) && was != ctx.currentStatus
                          && ctx.currentStatus == r.condition.to
                          && (r.condition.from == None || r.condition.from == Some(was))
    ensures RuleIsCleared(r, ctx, now) <==> ctx.currentStatus != r.condition.to
  {
    if ctx.previousStatus.Some? {
      var was := ctx.previousStatus.value;
      assert ctx.previousStatus == Some(was);
    }
  }

  /** Likely enough, and soon enough if the rule sets a time; a prediction without a time is not soon enough. */
  ghost predicate Foretold(r: AlertRule, p: PredictionInfo)
    requires r.condition.Prediction?
  {
    && p.predictionType == r.condition.predictionType
    && (match (r.condition.minProbability, p.probability)
        case (Finite(least), Finite(x)) => x >= least
        case (NegInf, x) => x != NaN
        case (least, PosInf) => least != NaN
        case _ => false)
    && (r.condition.maxEtaMinutes == None ||
        exists eta :: p.etaMinutes == Some(eta) && eta <= r.condition.maxEtaMinutes.value)
  }

  lemma ForetoldIff(r: AlertRule, p: PredictionInfo)
    requires r.condition.Prediction?
    ensures Foretold(r, p) <==> PredictionMatches(r.condition, p)
  {
    if p.etaMinutes.Some? {
      var eta := p.etaMinutes.value;
      assert p.etaMinutes == Some(eta);
    }
  }

  /** A rule on predictions fires exactly while there is such a prediction, and is cleared otherwise. */
  lemma PredictionMeans(r: AlertRule, ctx: Context, now: int)
    requires r.enabled && r.condition.Prediction?
    ensures RuleEvaluate(r, ctx, now) <==> exists p | p in ctx.predictions :: Foretold(r, p)
    ensures RuleIsCleared(r, ctx, now) <==> !RuleEvaluate(r, ctx, now)
  {
    forall p | p in ctx.predictions
      ensures Foretold(r, p) <==> PredictionMatches(r.condition, p)
    {
      ForetoldIff(r, p);
    }
  }

  /** The device says so, or was last polled more whole minutes ago than allowed; parts of a minute do not count. */
  lemma OfflineMeans(r: AlertRule, ctx: Context, now: int)
    requires r.enabled && r.condition.DeviceOffline?
    ensures var ms, limit := now - ctx.lastPoll, r.condition.maxMinutesSincePoll;
            RuleEvaluate(r, ctx, now) <==>
            ctx.currentStatus == Offline || (if limit >= 0 then ms >= 60000 * (limit + 1) else ms > 60000 * limit)
    ensures RuleIsCleared(r, ctx, now) <==> !RuleEvaluate(r, ctx, now)
  {
  }

  /** A rule that is switched off never fires, and is always cleared. */
  lemma SwitchedOff(r: AlertRule, ctx: Context, now: int)
    requires !r.enabled
    ensures !RuleEvaluate(r, ctx, now) && RuleIsCleared(r, ctx, now)
  {
  }
}
