/**
 The configured rules made ready for use, every one under an id of its own
 (crates/nimon-hub/src/config.rs:876-915 and 954-1022).
 */
module BuildRules {
  import opened Basics
  import opened Rules
  import opened ConditionConfig
  import opened RuleConversion
  import opened RuleSlug

  // ------------------------------------------------------------------ one rule

  datatype ActionConfig =
    | Script(script: string, runAs: Option<string>)
    | RestartService(serviceName: string)
    | PowerCycle(delaySecs: Option<nat>)
    | EdgeCommand(command: string)
    | CustomScript(script: string)

  datatype RuleConfig = RuleConfig(
    name: string,
    condition: Config,
    action: Option<ActionConfig>,
    onFailure: Option<ActionConfig>,
    severity: string,
    enabled: bool,
    cooldownMinutes: Option<int>)

  datatype Severity = Info | Warning | Critical

  datatype BuiltRule = BuiltRule(rule: AlertRule, severity: Severity, cooldownMinutes: int)

  datatype Action = Action(id: string, config: ActionConfig)

  datatype RuleActions = RuleActions(action: Action, onFailure: Option<Action>)

  function ActionKind(a: ActionConfig): string {
    match a
    case Script(_, _) => "script"
    case RestartService(_) => "restart-service"
    case PowerCycle(_) => "power-cycle"
    case EdgeCommand(_) => "edge-command"
    case CustomScript(_) => "custom-script"
  }

  function LowerAll(s: string): string {
    if s == [] then [] else [Lower(s[0])] + LowerAll(s[1..])
  }

  function ParseSeverity(s: string): Result<Severity, string> {
    if s == "info" then Ok(Info)
    else if s == "warning" then Ok(Severity.Warning)
    else if s == "critical" then Ok(Critical)
    else Err("Unknown severity: " + s)
  }

  function Validate(a: Option<ActionConfig>): Result<(), string> {
    if a.Some? && a.value.Script? && a.value.runAs.Some?
    then Err("script action 'run_as: " + a.value.runAs.value
             + "' is not supported; run the hub as the desired user instead")
    else Ok(())
  }

  /** The default clamped to what an i32 holds, from zero. */
  function Cooldown(own: Option<int>, fallback: int): int {
    if own.Some? then own.value
    else if fallback < 0 then 0
    else if fallback < I32_HALF then fallback
    else I32_HALF - 1
  }

  function TryRule(c: RuleConfig, defaultCooldown: int): Result<BuiltRule, string> {
    var condition :- Convert(c.condition);
    var severity :- ParseSeverity(LowerAll(c.severity));
    var _ :- Validate(c.action);
    var _ :- Validate(c.onFailure);
    var cooldown := Cooldown(c.cooldownMinutes, defaultCooldown);
    if cooldown < 0 then Err("cooldown_minutes must be >= 0")
    else Ok(BuiltRule(AlertRule(Slug(c.name), c.name, c.enabled, condition), severity, cooldown))
  }

  /** The conversion of one config; what is said of all rules below holds for any. */
  type Converter = RuleConfig -> Result<BuiltRule, string>

  function ConverterWith(defaultCooldown: int): Converter { c => TryRule(c, defaultCooldown) }

  /** A config that converts keeps its name and switch, and asks for the slug of its name as id. */
  lemma TryRuleKeeps(c: RuleConfig, d: int)
    requires TryRule(c, d).Ok?
    ensures var r := TryRule(c, d).value;
            && r.rule.id == Slug(c.name) && r.rule.name == c.name && r.rule.enabled == c.enabled
            && Convert(c.condition) == Ok(r.rule.condition) && UsableMargins(r.rule.condition)
            && r.cooldownMinutes >= 0
  {
    ConvertedMargins(c.condition);
  }

  // ------------------------------------------------------------------ a free id

  /** `base`, `base-2`, `base-3`, ... */
  function Candidate(base: string, k: nat): string {
    if k == 0 then base else base + ['-'] + Decimal(k + 1)
  }

  lemma CandidatesDiffer(base: string, j: nat, k: nat)
    requires Candidate(base, j) == Candidate(base, k)
    ensures j == k
  {
    if j != 0 && k != 0 {
      SplitAtLast(base, base, '-', Decimal(j + 1), Decimal(k + 1));
      DecimalInjective(j + 1, k + 1);
    }
  }

  ghost predicate AllTaken(base: string, used: set<string>, k: nat) {
    forall j :: 0 <= j < k ==> Candidate(base, j) in used
  }

  /** As many candidates as are taken, so many ids are used. */
  lemma {:induction false} Pigeonhole(base: string, used: set<string>, k: nat)
    requires AllTaken(base, used, k)
    ensures k <= |used|
  {
    if k > 0 {
      var last := Candidate(base, k - 1);
      forall j | 0 <= j < k - 1
        ensures Candidate(base, j) in used - {last}
      {
        if Candidate(base, j) == last {
          CandidatesDiffer(base, j, k - 1);
        }
      }
      Pigeonhole(base, used - {last}, k - 1);
    }
  }

  /** The number of the first candidate from `k` on that is free. */
  function FirstFree(base: string, used: set<string>, k: nat): (n: nat)
    requires AllTaken(base, used, k)
    ensures n >= k && AllTaken(base, used, n) && Candidate(base, n) !in used
    decreases |used| - k
  {
    Pigeonhole(base, used, k);
    if Candidate(base, k) !in used then k
    else
      assert AllTaken(base, used, k + 1);
      Pigeonhole(base, used, k + 1);
      FirstFree(base, used, k + 1)
  }

  function FreeId(base: string, used: set<string>): (id: string)
    ensures id !in used
    ensures id == base <==> base !in used
  {
    Candidate(base, FirstFree(base, used, 0))
  }

  method FindFreeId(base: string, used: set<string>) returns (id: string)
    ensures id == FreeId(base, used)
  {
    id := base;
    var n := 2;
    while id in used
      invariant n >= 2 && id == Candidate(base, n - 2)
      invariant AllTaken(base, used, n - 2)
      decreases |used| + 2 - n
    {
      assert AllTaken(base, used, n - 1);
      Pigeonhole(base, used, n - 1);
      id := base + ['-'] + Decimal(n);
      n := n + 1;
    }
    FirstFreeUnique(base, used, n - 2);
  }

  lemma FirstFreeUnique(base: string, used: set<string>, n: nat)
    requires AllTaken(base, used, n) && Candidate(base, n) !in used
    ensures FirstFree(base, used, 0) == n
  {
  }

  // ------------------------------------------------------------------ all rules

  datatype Built = Built(
    rules: seq<BuiltRule>,
    actions: map<string, RuleActions>,
    errors: seq<(string, string)>,
    configured: bool)

  function Ids(rules: seq<BuiltRule>): set<string> { set r | r in rules :: r.rule.id }

  function WithId(r: BuiltRule, id: string): BuiltRule { r.(rule := r.rule.(id := id)) }

  function ActionsFor(id: string, action: ActionConfig, onFailure: Option<ActionConfig>): RuleActions {
    RuleActions(
      Action("rule-" + id + "-" + ActionKind(action), action),
      if onFailure.Some? then Some(Action("rule-" + id + "-fallback-" + ActionKind(onFailure.value), onFailure.value))
      else None)
  }

  function WithRule(b: Built, r: BuiltRule, c: RuleConfig): Built {
    b.(rules := b.rules + [r],
       actions := if c.action.Some? then b.actions[r.rule.id := ActionsFor(r.rule.id, c.action.value, c.onFailure)]
                  else b.actions)
  }

  function BuildOne(b: Built, c: RuleConfig, convert: Converter): (after: Built)
    ensures b.rules <= after.rules
  {
    match convert(c)
    case Ok(r) =>
      WithRule(b, WithId(r, FreeId(r.rule.id, Ids(b.rules))), c)
    case Err(e) => b.(errors := b.errors + [(c.name, e)])
  }

  function Build(configs: seq<RuleConfig>, convert: Converter): Built {
    if configs == [] then Built([], map[], [], false)
    else BuildOne(Build(configs[..|configs| - 1], convert), configs[|configs| - 1], convert).(configured := true)
  }

  lemma BuildNext(configs: seq<RuleConfig>, convert: Converter, i: nat, before: Built, after: Built)
    requires i < |configs| && before == Build(configs[..i], convert)
    requires after == BuildOne(before, configs[i], convert).(configured := true)
    ensures after == Build(configs[..i + 1], convert)
  {
    assert configs[..i + 1][..i] == configs[..i];
  }

  method BuildAll(configs: seq<RuleConfig>, defaultCooldown: int) returns (built: Built)
    ensures built == Build(configs, ConverterWith(defaultCooldown))
  {
    var rules: seq<BuiltRule>, actions: map<string, RuleActions>, errors: seq<(string, string)> := [], map[], [];
    var used: set<string> := {};
    for i := 0 to |configs|
      invariant Built(rules, actions, errors, i > 0) == Build(configs[..i], ConverterWith(defaultCooldown))
      invariant used == Ids(rules)
    {
      ghost var before := Built(rules, actions, errors, i > 0);
      var c := configs[i];
      match TryRule(c, defaultCooldown) {
        case Ok(r) =>
          var id := FindFreeId(r.rule.id, used);
          used := used + {id};
          if c.action.Some? {
            actions := actions[id := ActionsFor(id, c.action.value, c.onFailure)];
          }
          rules := rules + [WithId(r, id)];
        case Err(e) =>
          errors := errors + [(c.name, e)];
      }
      BuildNext(configs, ConverterWith(defaultCooldown), i, before, Built(rules, actions, errors, true));
    }
    assert configs[..|configs|] == configs;
    built := Built(rules, actions, errors, |configs| > 0);
  }

  // ------------------------------------------------------------------ what comes out

  /** The configs that convert, in order. */
  ghost function Accepted(configs: seq<RuleConfig>, convert: Converter): (r: seq<RuleConfig>)
    ensures forall i :: 0 <= i < |r| ==> convert(r[i]).Ok?
  {
    if configs == [] then []
    else
      var c := configs[|configs| - 1];
      Accepted(configs[..|configs| - 1], convert) + if convert(c).Ok? then [c] else []
  }

  ghost function Rejected(configs: seq<RuleConfig>, convert: Converter): seq<(string, string)> {
    if configs == [] then []
    else
      var c := configs[|configs| - 1];
      Rejected(configs[..|configs| - 1], convert) + if convert(c).Err? then [(c.name, convert(c).error)] else []
  }

  /** Rule `k` is the `k`-th accepted config, under the first free id made from its name. */
  ghost predicate RuleFor(accepted: seq<RuleConfig>, convert: Converter, rules: seq<BuiltRule>, k: nat)
    requires k < |rules| == |accepted| && convert(accepted[k]).Ok?
  {
    rules[k] == WithId(convert(accepted[k]).value, FreeId(convert(accepted[k]).value.rule.id, Ids(rules[..k])))
  }

  ghost predicate RulesFor(accepted: seq<RuleConfig>, convert: Converter, rules: seq<BuiltRule>) {
    && |rules| == |accepted|
    && forall k :: 0 <= k < |rules| ==> convert(accepted[k]).Ok? && RuleFor(accepted, convert, rules, k)
  }

  lemma OneMoreAccepted(accepted: seq<RuleConfig>, convert: Converter, rules: seq<BuiltRule>, c: RuleConfig)
    requires RulesFor(accepted, convert, rules) && convert(c).Ok?
    ensures RulesFor(accepted + [c], convert,
                     rules + [WithId(convert(c).value, FreeId(convert(c).value.rule.id, Ids(rules)))])
  {
    var more := rules + [WithId(convert(c).value, FreeId(convert(c).value.rule.id, Ids(rules)))];
    forall k | 0 <= k < |more|
      ensures convert((accepted + [c])[k]).Ok? && RuleFor(accepted + [c], convert, more, k)
    {
      if k < |rules| {
        assert RuleFor(accepted, convert, rules, k);
        assert more[..k] == rules[..k];
      } else {
        assert more[..k] == rules;
      }
    }
  }

  /**
   Every config becomes one rule or one error, in the order of the file; each rule keeps the slug
   of its name as its id exactly when no earlier rule has taken it, and otherwise gets the first
   free numbered one.
   */
  lemma {:induction false} Partition(configs: seq<RuleConfig>, convert: Converter)
    ensures var b := Build(configs, convert);
            && RulesFor(Accepted(configs, convert), convert, b.rules)
            && b.errors == Rejected(configs, convert)
            && |b.rules| + |b.errors| == |configs|
            && (b.configured <==> configs != [])
  {
    if configs != [] {
      var init, c := configs[..|configs| - 1], configs[|configs| - 1];
      Partition(init, convert);
      if convert(c).Ok? {
        OneMoreAccepted(Accepted(init, convert), convert, Build(init, convert).rules, c);
      }
    }
  }

  ghost predicate DistinctIds(rules: seq<BuiltRule>) {
    forall i, j :: 0 <= i < j < |rules| ==> rules[i].rule.id != rules[j].rule.id
  }

  lemma OneMoreId(rules: seq<BuiltRule>, r: BuiltRule)
    requires DistinctIds(rules) && r.rule.id !in Ids(rules)
    ensures DistinctIds(rules + [r])
  {
    assert forall i :: 0 <= i < |rules| ==> rules[i] in rules && rules[i].rule.id in Ids(rules);
  }

  /** No two rules share an id. */
  lemma {:induction false} IdsDistinct(configs: seq<RuleConfig>, convert: Converter)
    ensures DistinctIds(Build(configs, convert).rules)
  {
    if configs != [] {
      var before, c := Build(configs[..|configs| - 1], convert).rules, configs[|configs| - 1];
      IdsDistinct(configs[..|configs| - 1], convert);
      match convert(c)
      case Ok(r) => OneMoreId(before, WithId(r, FreeId(r.rule.id, Ids(before))));
      case Err(_) =>
    }
  }

  /** Ids are slugs themselves: nonempty, in lower case, and without doubled or outer dashes. */
  lemma IdsAreSlugs(configs: seq<RuleConfig>, defaultCooldown: int, k: nat)
    requires k < |Build(configs, ConverterWith(defaultCooldown)).rules|
    ensures IsSlug(Build(configs, ConverterWith(defaultCooldown)).rules[k].rule.id)
  {
    var convert := ConverterWith(defaultCooldown);
    var rules, accepted := Build(configs, convert).rules, Accepted(configs, convert);
    Partition(configs, convert);
    assert RuleFor(accepted, convert, rules, k);
    TryRuleKeeps(accepted[k], defaultCooldown);
    SlugIsSlug(accepted[k].name);
    CandidateIsSlug(Slug(accepted[k].name), FirstFree(Slug(accepted[k].name), Ids(rules[..k]), 0));
  }

  lemma CandidateIsSlug(base: string, n: nat)
    requires IsSlug(base)
    ensures IsSlug(Candidate(base, n))
  {
    if n > 0 {
      SlugExtended(base, Decimal(n + 1));
    }
  }

  /** Executable actions are kept for exactly the accepted rules that have one, under the rule's id. */
  lemma {:induction false} ActionsOfRules(configs: seq<RuleConfig>, convert: Converter)
    ensures var b := Build(configs, convert); ActionsMatch(b, Accepted(configs, convert))
  {
    if configs != [] {
      var init, c := configs[..|configs| - 1], configs[|configs| - 1];
      ActionsOfRules(init, convert);
      match convert(c)
      case Ok(r) =>
        var before := Build(init, convert);
        OneMoreRule(before, Accepted(init, convert), c, WithId(r, FreeId(r.rule.id, Ids(before.rules))));
      case Err(_) =>
    }
  }

  ghost predicate ActionsMatch(b: Built, accepted: seq<RuleConfig>) {
    && |b.rules| == |accepted|
    && b.actions.Keys <= Ids(b.rules)
    && forall k :: 0 <= k < |accepted| ==>
         var id := b.rules[k].rule.id;
         && (id in b.actions <==> accepted[k].action.Some?)
         && (id in b.actions ==> b.actions[id] == ActionsFor(id, accepted[k].action.value, accepted[k].onFailure))
  }

  lemma OneMoreRule(b: Built, accepted: seq<RuleConfig>, c: RuleConfig, r: BuiltRule)
    requires ActionsMatch(b, accepted) && r.rule.id !in Ids(b.rules)
    ensures ActionsMatch(WithRule(b, r, c), accepted + [c])
  {
    var after := WithRule(b, r, c);
    assert forall k :: 0 <= k < |b.rules| ==> after.rules[k] == b.rules[k] && b.rules[k].rule.id in Ids(b.rules);
    assert Ids(after.rules) == Ids(b.rules) + {r.rule.id} by {
      assert r in after.rules && forall x | x in after.rules :: x in b.rules || x == r;
    }
  }

  /** Appending configs renames nothing: the rules built before stay as they are. */
  lemma {:induction false} Stable(configs: seq<RuleConfig>, more: seq<RuleConfig>, convert: Converter)
    ensures Build(configs, convert).rules <= Build(configs + more, convert).rules
  {
    if more == [] {
      assert configs + more == configs;
    } else {
      var init := configs + more[..|more| - 1];
      Stable(configs, more[..|more| - 1], convert);
      assert (configs + more)[..|configs + more| - 1] == init;
      assert Build(init, convert).rules <= Build(configs + more, convert).rules;
    }
  }

  /** Configs that fail to convert leave no trace on the rules. */
  lemma {:induction false} RejectedLeaveNoTrace(configs: seq<RuleConfig>, convert: Converter)
    ensures Build(Accepted(configs, convert), convert).rules == Build(configs, convert).rules
    ensures Build(Accepted(configs, convert), convert).actions == Build(configs, convert).actions
  {
    if configs != [] {
      var init, c := configs[..|configs| - 1], configs[|configs| - 1];
      RejectedLeaveNoTrace(init, convert);
      if convert(c).Ok? {
        assert Accepted(configs, convert)[..|Accepted(init, convert)|] == Accepted(init, convert);
      } else {
        assert Accepted(configs, convert) == Accepted(init, convert);
      }
    }
  }
}
