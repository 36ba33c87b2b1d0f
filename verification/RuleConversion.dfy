/** From a parsed condition to the condition of a rule (crates/nimon-hub/src/config.rs:766-857). */
module RuleConversion {
  import opened Basics
  import opened Rules
  import opened ConditionConfig

  /** The spellings of crates/nimon-core/src/alert/rules.rs:112-127. */
  function ParseComparison(s: string): Option<ComparisonOp> {
    if s == "greater_than" || s == "greaterthan" || s == "gt" || s == ">" then Some(GreaterThan)
    else if s == "less_than" || s == "lessthan" || s == "lt" || s == "<" then Some(LessThan)
    else if s == "equal" || s == "eq" || s == "==" then Some(Equal)
    else if s == "not_equal" || s == "notequal" || s == "ne" || s == "!=" then Some(NotEqual)
    else if s == "greater_or_equal" || s == "greaterorequal" || s == "ge" || s == ">=" then Some(GreaterOrEqual)
    else if s == "less_or_equal" || s == "lessorequal" || s == "le" || s == "<=" then Some(LessOrEqual)
    else None
  }

  function ParseHealthStatus(s: string): Result<HealthStatus, string> {
    if s == "healthy" then Ok(Healthy)
    else if s == "warning" then Ok(Warning)
    else if s == "error" then Ok(HealthStatus.Error)
    else if s == "offline" then Ok(HealthStatus.Offline)
    else Err("Unknown health status: " + s)
  }

  function ParseOperator(comparison: Option<string>): Result<ComparisonOp, string> {
    if comparison.None? then Ok(GreaterThan)
    else if ParseComparison(comparison.value).Some? then Ok(ParseComparison(comparison.value).value)
    else Err("Unknown comparison operator: " + comparison.value)
  }

  function ParseLogic(op: Option<string>): Result<LogicalOp, string> {
    if op.None? || op.value == "and" then Ok(And)
    else if op.value == "or" then Ok(Or)
    else Err("Unknown logical operator: " + op.value + " (use 'and'/'or')")
  }

  /** A margin that the rules will use as it stands. */
  predicate UsableMargin(h: Option<F64>) { h.Some? ==> h.value.Finite? && h.value.v >= 0.0 }

  function Convert(c: Config): Result<RuleCondition, string>
    decreases c, 1
  {
    match c
    case Threshold(metric, threshold, comparison, duration, hysteresis) =>
      var operator :- ParseOperator(comparison);
      var threshold :- Required(threshold, "MetricThreshold on '" + metric + "' requires 'threshold'");
      if !UsableMargin(hysteresis) then Err("hysteresis must be >= 0")
      else Ok(RuleCondition.MetricThreshold(metric, operator, threshold, duration, hysteresis))
    case Offline(minutes) => Ok(RuleCondition.DeviceOffline(minutes))
    case HealthChange(from, to) =>
      var fromStatus :- ConvertFrom(from);
      var toStatus :- ParseHealthStatus(to);
      Ok(RuleCondition.HealthStatusChange(fromStatus, toStatus))
    case Predicted(kind, probability, eta) => Ok(RuleCondition.Prediction(kind, probability, eta))
    case Group(op, conditions) =>
      var logic :- ParseLogic(op);
      var converted :- ConvertAll(conditions);
      Ok(RuleCondition.Composite(logic, converted))
  }

  function ConvertFrom(from: Option<string>): Result<Option<HealthStatus>, string> {
    if from.None? then Ok(None)
    else
      var status :- ParseHealthStatus(from.value);
      Ok(Some(status))
  }

  /** All of them, or the first error. */
  function ConvertAll(cs: seq<Config>): Result<seq<RuleCondition>, string>
    decreases cs, 0
  {
    if cs == [] then Ok([])
    else
      var first :- Convert(cs[0]);
      var rest :- ConvertAll(cs[1..]);
      Ok([first] + rest)
  }

  // ------------------------------------------------------------------ what is accepted

  predicate Acceptable(c: Config) {
    match c
    case Threshold(_, threshold, comparison, _, hysteresis) =>
      threshold.Some? && (comparison.Some? ==> ParseComparison(comparison.value).Some?) && UsableMargin(hysteresis)
    case Offline(_) => true
    case HealthChange(from, to) =>
      (from.Some? ==> from.value in ["healthy", "warning", "error", "offline"]) &&
      to in ["healthy", "warning", "error", "offline"]
    case Predicted(_, _, _) => true
    case Group(op, conditions) =>
      (op.Some? ==> op.value in ["and", "or"]) && forall k | k in conditions :: Acceptable(k)
  }

  /** A condition is converted exactly when every node of it is acceptable. */
  lemma {:induction false} ConvertIff(c: Config)
    ensures Convert(c).Ok? <==> Acceptable(c)
    decreases c, 1
  {
    if c.Group? {
      ConvertAllIff(c.conditions);
    }
  }

  lemma {:induction false} ConvertAllIff(cs: seq<Config>)
    ensures ConvertAll(cs).Ok? <==> forall k | k in cs :: Acceptable(k)
    decreases cs, 0
  {
    if cs != [] {
      ConvertIff(cs[0]);
      ConvertAllIff(cs[1..]);
      assert cs == [cs[0]] + cs[1..];
    }
  }

  // ------------------------------------------------------------------ writing a rule's condition

  function HealthName(h: HealthStatus): (s: string)
    ensures ParseHealthStatus(s) == Ok(h)
  {
    match h
    case Healthy => "healthy"
    case Warning => "warning"
    case Error => "error"
    case Offline => "offline"
  }

  /** One accepted spelling for every operator. */
  ghost predicate Spells(spelling: ComparisonOp -> string) {
    forall op :: ParseComparison(spelling(op)) == Some(op)
  }

  function Render(r: RuleCondition, spelling: ComparisonOp -> string): Config
    decreases r, 1
  {
    match r
    case MetricThreshold(metric, operator, threshold, duration, hysteresis) =>
      Threshold(metric, Some(threshold), Some(spelling(operator)), duration, hysteresis)
    case HealthStatusChange(from, to) =>
      HealthChange(if from.Some? then Some(HealthName(from.value)) else None, HealthName(to))
    case Prediction(kind, probability, eta) => Predicted(kind, probability, eta)
    case DeviceOffline(minutes) => Config.Offline(minutes)
    case Composite(logic, conditions) =>
      Group(Some(if logic.And? then "and" else "or"), RenderAll(conditions, spelling))
  }

  function RenderAll(rs: seq<RuleCondition>, spelling: ComparisonOp -> string): seq<Config>
    decreases rs, 0
  {
    if rs == [] then [] else [Render(rs[0], spelling)] + RenderAll(rs[1..], spelling)
  }

  /** No leaf asks for a margin that is negative or not finite. */
  predicate UsableMargins(r: RuleCondition) {
    match r
    case MetricThreshold(_, _, _, _, hysteresis) => UsableMargin(hysteresis)
    case Composite(_, conditions) => forall k | k in conditions :: UsableMargins(k)
    case _ => true
  }

  lemma {:induction false} RenderedConverts(r: RuleCondition, spelling: ComparisonOp -> string)
    requires Spells(spelling) && UsableMargins(r)
    ensures Convert(Render(r, spelling)) == Ok(r)
    decreases r, 1
  {
    match r
    case MetricThreshold(_, operator, _, _, _) => assert ParseComparison(spelling(operator)) == Some(operator);
    case HealthStatusChange(_, _) =>
    case Prediction(_, _, _) =>
    case DeviceOffline(_) =>
    case Composite(_, conditions) => RenderedAllConvert(conditions, spelling);
  }

  lemma {:induction false} RenderedAllConvert(rs: seq<RuleCondition>, spelling: ComparisonOp -> string)
    requires Spells(spelling) && forall k | k in rs :: UsableMargins(k)
    ensures ConvertAll(RenderAll(rs, spelling)) == Ok(rs)
    decreases rs, 0
  {
    if rs != [] {
      var r, rest := rs[0], rs[1..];
      assert rs == [r] + rest;
      RenderedConverts(r, spelling);
      RenderedAllConvert(rest, spelling);
      ConvertAllCons(Render(r, spelling), r, RenderAll(rest, spelling), rest);
    }
  }

  lemma ConvertAllCons(c: Config, r: RuleCondition, cs: seq<Config>, rs: seq<RuleCondition>)
    requires Convert(c) == Ok(r) && ConvertAll(cs) == Ok(rs)
    ensures ConvertAll([c] + cs) == Ok([r] + rs)
  {
    assert ([c] + cs)[1..] == cs;
  }

  /** Conversion never lets an unusable margin through. */
  lemma {:induction false} ConvertedMargins(c: Config)
    requires Convert(c).Ok?
    ensures UsableMargins(Convert(c).value)
    decreases c, 1
  {
    if c.Group? {
      ConvertedAllMargins(c.conditions);
    }
  }

  lemma {:induction false} ConvertedAllMargins(cs: seq<Config>)
    requires ConvertAll(cs).Ok?
    ensures forall k | k in ConvertAll(cs).value :: UsableMargins(k)
    decreases cs, 0
  {
    if cs != [] {
      ConvertedMargins(cs[0]);
      ConvertedAllMargins(cs[1..]);
    }
  }

  // ------------------------------------------------------------------ from the file to the rule

  /** What the hub evaluates for a condition in the file. */
  function Condition(v: Value): Result<RuleCondition, string> {
    var c :- Parse(v);
    Convert(c)
  }

  predicate RuleIntegers(r: RuleCondition) {
    match r
    case MetricThreshold(_, _, _, duration, _) => duration.Some? ==> IsI32(duration.value)
    case HealthStatusChange(_, _) => true
    case Prediction(_, _, eta) => eta.Some? ==> IsI32(eta.value)
    case DeviceOffline(minutes) => IsI32(minutes)
    case Composite(_, conditions) => forall k | k in conditions :: RuleIntegers(k)
  }

  lemma {:induction false} RenderedIntegers(r: RuleCondition, spelling: ComparisonOp -> string)
    ensures Integers(Render(r, spelling), IsI32) <==> RuleIntegers(r)
    decreases r, 1
  {
    if r.Composite? {
      RenderedAllIntegers(r.conditions, spelling);
    }
  }

  lemma {:induction false} RenderedAllIntegers(rs: seq<RuleCondition>, spelling: ComparisonOp -> string)
    ensures (forall k | k in RenderAll(rs, spelling) :: Integers(k, IsI32)) <==> forall k | k in rs :: RuleIntegers(k)
    decreases rs, 0
  {
    if rs != [] {
      RenderedIntegers(rs[0], spelling);
      RenderedAllIntegers(rs[1..], spelling);
      assert rs == [rs[0]] + rs[1..];
    }
  }

  /**
   A condition of a rule can be written into the file, in any style and any accepted spelling, and
   be read back as itself, exactly when its integers fit in 32 bits and its margins are usable.
   */
  lemma FileRoundTripIff(r: RuleCondition, spelling: ComparisonOp -> string, style: Style)
    requires Spells(spelling)
    ensures Condition(Doc(Render(r, spelling), style)) == Ok(r) <==> RuleIntegers(r) && UsableMargins(r)
  {
    var c := Render(r, spelling);
    RenderedIntegers(r, spelling);
    if RuleIntegers(r) && UsableMargins(r) {
      RoundTripIff(c, style);
      RenderedConverts(r, spelling);
    } else if Condition(Doc(c, style)) == Ok(r) {
      ParsedInRange(Doc(c, style));
      ConvertedMargins(Parse(Doc(c, style)).value);
      ConvertedIntegers(Parse(Doc(c, style)).value);
    }
  }

  lemma {:induction false} ConvertedIntegers(c: Config)
    requires Convert(c).Ok?
    ensures RuleIntegers(Convert(c).value) <==> Integers(c, IsI32)
    decreases c, 1
  {
    if c.Group? {
      ConvertedAllIntegers(c.conditions);
    }
  }

  lemma {:induction false} ConvertedAllIntegers(cs: seq<Config>)
    requires ConvertAll(cs).Ok?
    ensures (forall k | k in ConvertAll(cs).value :: RuleIntegers(k)) <==> forall k | k in cs :: Integers(k, IsI32)
    decreases cs, 0
  {
    if cs != [] {
      ConvertedIntegers(cs[0]);
      ConvertedAllIntegers(cs[1..]);
      assert cs == [cs[0]] + cs[1..];
    }
  }

  /** Of every accepted document: the rule is well-formed, and writing it anew changes nothing. */
  lemma AcceptedDocuments(v: Value, spelling: ComparisonOp -> string, style: Style)
    requires Condition(v).Ok? && Spells(spelling)
    ensures UsableMargins(Condition(v).value) && RuleIntegers(Condition(v).value)
    ensures Condition(Doc(Render(Condition(v).value, spelling), style)) == Condition(v)
  {
    var c := Parse(v).value;
    ConvertedMargins(c);
    ParsedInRange(v);
    ConvertedIntegers(c);
    FileRoundTripIff(Condition(v).value, spelling, style);
  }
}
