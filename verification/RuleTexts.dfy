/**
 What the words of a configured rule stand for (crates/nimon-core/src/alert/rules.rs:112-127,
 crates/nimon-hub/src/config.rs:766-1022), and which rules are accepted.
 */
module RuleTexts {
  import opened Basics
  import opened Rules
  import opened ConditionConfig
  import opened RuleConversion
  import opened RuleSlug
  import opened BuildRules

  // ------------------------------------------------------------------ conditions

  /** Every operator goes by its name, with or without underscores, two letters, or its sign. */
  function Spellings(op: ComparisonOp): set<string> {
    match op
    case GreaterThan => {"greater_than", "greaterthan", "gt", ">"}
    case LessThan => {"less_than", "lessthan", "lt", "<"}
    case Equal => {"equal", "eq", "=="}
    case NotEqual => {"not_equal", "notequal", "ne", "!="}
    case GreaterOrEqual => {"greater_or_equal", "greaterorequal", "ge", ">="}
    case LessOrEqual => {"less_or_equal", "lessorequal", "le", "<="}
  }

  lemma OnlySpellings(s: string, op: ComparisonOp)
    requires ParseComparison(s) == Some(op)
    ensures s in Spellings(op)
  {
  }

  lemma AllSpellings(s: string, op: ComparisonOp)
    requires s in Spellings(op)
    ensures ParseComparison(s) == Some(op)
  {
  }

  lemma SpellingsMean(s: string, op: ComparisonOp)
    ensures ParseComparison(s) == Some(op) <==> s in Spellings(op)
  {
    if ParseComparison(s) == Some(op) {
      OnlySpellings(s, op);
    }
    if s in Spellings(op) {
      AllSpellings(s, op);
    }
  }

  /** Without a comparison a threshold is to be exceeded. */
  predicate Compares(comparison: Option<string>, op: ComparisonOp) {
    match comparison case None => op == GreaterThan case Some(s) => s in Spellings(op)
  }

  function StateName(h: HealthStatus): string {
    match h
    case Healthy => "healthy"
    case Warning => "warning"
    case Error => "error"
    case Offline => "offline"
  }

  /** Without an operator all conditions of a group must hold. */
  predicate Combines(op: Option<string>, logic: LogicalOp) {
    match op case None => logic == And case Some(s) => s == if logic == And then "and" else "or"
  }

  /** The condition in the file and the condition of the rule say the same. */
  ghost predicate Means(c: Config, r: RuleCondition)
    decreases c
  {
    match c
    case Threshold(metric, threshold, comparison, duration, hysteresis) =>
      && r.MetricThreshold? && r.metricName == metric && Some(r.threshold) == threshold
      && Compares(comparison, r.operator) && r.durationMinutes == duration && r.hysteresis == hysteresis
      && (forall h :: hysteresis == Some(h) ==> exists x :: h == Finite(x) && x >= 0.0)
    case Offline(minutes) => r == RuleCondition.DeviceOffline(minutes)
    case HealthChange(from, to) =>
      && r.HealthStatusChange? && to == StateName(r.to)
      && (match r.from case None => from == None case Some(h) => from == Some(StateName(h)))
    case Predicted(kind, probability, eta) => r == RuleCondition.Prediction(kind, probability, eta)
    case Group(op, conditions) =>
      && r.Composite? && Combines(op, r.logic) && |r.conditions| == |conditions|
      && forall k :: 0 <= k < |conditions| ==> Means(conditions[k], r.conditions[k])
  }

  lemma StateIff(s: string, h: HealthStatus)
    ensures ParseHealthStatus(s) == Ok(h) <==> s == StateName(h)
  {
  }

  lemma ComparesIff(comparison: Option<string>, op: ComparisonOp)
    ensures ParseOperator(comparison) == Ok(op) <==> Compares(comparison, op)
  {
    if comparison.Some? {
      SpellingsMean(comparison.value, op);
    }
  }

  lemma MarginIff(hysteresis: Option<F64>)
    ensures UsableMargin(hysteresis) <==> forall h :: hysteresis == Some(h) ==> exists x :: h == Finite(x) && x >= 0.0
  {
    if hysteresis.Some? && hysteresis.value.Finite? {
      assert hysteresis.value == Finite(hysteresis.value.v);
    }
  }

  lemma ThresholdMeans(c: Config, r: RuleCondition)
    requires c.Threshold?
    ensures Convert(c) == Ok(r) <==> Means(c, r)
  {
    MarginIff(c.hysteresis);
    if r.MetricThreshold? {
      ComparesIff(c.comparison, r.operator);
    }
  }

  lemma HealthChangeMeans(c: Config, r: RuleCondition)
    requires c.HealthChange?
    ensures Convert(c) == Ok(r) <==> Means(c, r)
  {
    if r.HealthStatusChange? {
      StateIff(c.to, r.to);
      if c.from.Some? && r.from.Some? {
        StateIff(c.from.value, r.from.value);
      }
    }
  }

  /** A condition is converted into exactly what it means. */
  lemma {:induction false} MeansIff(c: Config, r: RuleCondition)
    ensures Convert(c) == Ok(r) <==> Means(c, r)
    decreases c, 1
  {
    match c
    case Threshold(_, _, _, _, _) => ThresholdMeans(c, r);
    case HealthChange(_, _) => HealthChangeMeans(c, r);
    case Group(op, conditions) =>
      if r.Composite? {
        AllMean(conditions, r.conditions);
      }
    case _ =>
  }

  lemma {:induction false} AllMean(cs: seq<Config>, rs: seq<RuleCondition>)
    ensures ConvertAll(cs) == Ok(rs) <==> |cs| == |rs| && forall k :: 0 <= k < |cs| ==> Means(cs[k], rs[k])
    decreases cs, 0
  {
    if cs != [] && rs != [] {
      MeansIff(cs[0], rs[0]);
      AllMean(cs[1..], rs[1..]);
      FirstAndRest(cs, rs);
    }
  }

  lemma FirstAndRest(cs: seq<Config>, rs: seq<RuleCondition>)
    requires cs != [] && rs != []
    requires Convert(cs[0]) == Ok(rs[0]) <==> Means(cs[0], rs[0])
    requires ConvertAll(cs[1..]) == Ok(rs[1..]) <==>
             |cs[1..]| == |rs[1..]| && forall k :: 0 <= k < |cs[1..]| ==> Means(cs[1..][k], rs[1..][k])
    ensures ConvertAll(cs) == Ok(rs) <==> |cs| == |rs| && forall k :: 0 <= k < |cs| ==> Means(cs[k], rs[k])
  {
    assert rs == [rs[0]] + rs[1..];
    if |cs| == |rs| && forall k :: 0 <= k < |cs| ==> Means(cs[k], rs[k]) {
      assert forall k :: 0 <= k < |cs[1..]| ==> cs[1..][k] == cs[k + 1] && rs[1..][k] == rs[k + 1];
    }
    if ConvertAll(cs) == Ok(rs) {
      assert ConvertAll(cs).value[1..] == rs[1..];
      forall k | 0 <= k < |cs|
        ensures Means(cs[k], rs[k])
      {
        if k > 0 {
          assert cs[1..][k - 1] == cs[k] && rs[1..][k - 1] == rs[k];
        }
      }
    }
  }

  // ------------------------------------------------------------------ whole rules

  const CAPITALS := "ABCDEFGHIJKLMNOPQRSTUVWXYZ"
  const SMALL := "abcdefghijklmnopqrstuvwxyz"

  /** The same letter, whether capital or small. */
  ghost predicate SameLetter(c: char, small: char) {
    c == small || exists k :: 0 <= k < 26 && c == CAPITALS[k] && small == SMALL[k]
  }

  lemma LettersDiffer(c: char)
    ensures Lower(c) == c || exists k :: 0 <= k < 26 && c == CAPITALS[k] && Lower(c) == SMALL[k]
    ensures forall k :: 0 <= k < 26 ==> Lower(CAPITALS[k]) == SMALL[k] && Lower(SMALL[k]) == SMALL[k]
  {
    assert forall k :: 0 <= k < 26 ==> CAPITALS[k] as int == 65 + k && SMALL[k] as int == 97 + k;
    if 'A' <= c <= 'Z' {
      var k := c as int - 65;
      assert c == CAPITALS[k] && Lower(c) == SMALL[k];
    }
  }

  /** The text reads so, in capitals, small letters or both. */
  ghost predicate Reads(text: string, small: string) {
    |text| == |small| && forall i :: 0 <= i < |text| ==> SameLetter(text[i], small[i])
  }

  predicate IsSmall(text: string) { forall i :: 0 <= i < |text| ==> text[i] in SMALL }

  lemma LetterIff(c: char, small: char)
    requires small in SMALL
    ensures SameLetter(c, small) <==> Lower(c) == small
  {
    LettersDiffer(c);
    assert forall k :: 0 <= k < 26 ==> CAPITALS[k] as int == 65 + k && SMALL[k] as int == 97 + k;
  }

  lemma {:induction false} ReadsIff(text: string, small: string)
    requires IsSmall(small)
    ensures Reads(text, small) <==> LowerAll(text) == small
  {
    if text != [] && small != [] {
      LetterIff(text[0], small[0]);
      ReadsIff(text[1..], small[1..]);
      ReadsCons(text, small);
      LowerCons(text, small);
    }
  }

  lemma ReadsCons(text: string, small: string)
    requires text != [] && small != []
    ensures Reads(text, small) <==> SameLetter(text[0], small[0]) && Reads(text[1..], small[1..])
  {
    if SameLetter(text[0], small[0]) && Reads(text[1..], small[1..]) {
      forall i | 0 <= i < |text|
        ensures SameLetter(text[i], small[i])
      {
        if i > 0 {
          assert SameLetter(text[1..][i - 1], small[1..][i - 1]);
        }
      }
    }
    if Reads(text, small) {
      assert forall i :: 0 <= i < |text[1..]| ==> text[1..][i] == text[i + 1] && small[1..][i] == small[i + 1];
    }
  }

  lemma LowerCons(text: string, small: string)
    requires text != [] && small != []
    ensures LowerAll(text) == small <==> Lower(text[0]) == small[0] && LowerAll(text[1..]) == small[1..]
  {
    assert small == [small[0]] + small[1..];
    if LowerAll(text) == small {
      assert LowerAll(text)[1..] == LowerAll(text[1..]);
    }
  }

  function SeverityName(s: Severity): string {
    match s
    case Info => "info"
    case Warning => "warning"
    case Critical => "critical"
  }

  lemma SeverityIff(text: string, s: Severity)
    ensures ParseSeverity(LowerAll(text)) == Ok(s) <==> Reads(text, SeverityName(s))
  {
    ReadsIff(text, SeverityName(s));
    ReadsIff(text, "info");
    ReadsIff(text, "warning");
    ReadsIff(text, "critical");
  }

  /** A script that asks to be run as somebody else. */
  predicate RunsAs(a: Option<ActionConfig>) { a.Some? && a.value.Script? && a.value.runAs != None }

  /** The rule's own cooldown, which must not be negative, or the default brought into range. */
  predicate CoolsDown(own: Option<int>, fallback: int, minutes: int) {
    match own
    case Some(n) => minutes == n && n >= 0
    case None => 0 <= minutes <= 0x7fff_ffff
                 && (if fallback < 0 then minutes == 0
                     else if fallback > 0x7fff_ffff then minutes == 0x7fff_ffff else minutes == fallback)
  }

  /** The rule that a configured one becomes, before its id is made unique. */
  ghost predicate Becomes(c: RuleConfig, fallback: int, b: BuiltRule) {
    && b.rule.id == Slug(c.name) && b.rule.name == c.name && b.rule.enabled == c.enabled
    && Means(c.condition, b.rule.condition) && Reads(c.severity, SeverityName(b.severity))
    && !RunsAs(c.action) && !RunsAs(c.onFailure) && CoolsDown(c.cooldownMinutes, fallback, b.cooldownMinutes)
  }

  /** Exactly the rules are accepted that become one, as that one. */
  lemma BecomesIff(c: RuleConfig, fallback: int, b: BuiltRule)
    ensures TryRule(c, fallback) == Ok(b) <==> Becomes(c, fallback, b)
  {
    MeansIff(c.condition, b.rule.condition);
    SeverityIff(c.severity, b.severity);
  }

  // ------------------------------------------------------------------ actions

  /** What is carried out for a rule goes by the rule's id and its kind, its fallback by both and that it is one. */
  lemma ActionsMean(id: string, action: ActionConfig, fallback: Option<ActionConfig>)
    ensures var a := ActionsFor(id, action, fallback);
            && a.action.config == action && a.action.id == "rule-" + id + "-" + KindText(action)
            && (match fallback
                case None => a.onFailure == None
                case Some(f) => a.onFailure == Some(Action("rule-" + id + "-fallback-" + KindText(f), f)))
  {
  }

  function KindText(a: ActionConfig): string {
    if a.Script? then "script"
    else if a.RestartService? then "restart-service"
    else if a.PowerCycle? then "power-cycle"
    else if a.EdgeCommand? then "edge-command"
    else "custom-script"
  }
}
