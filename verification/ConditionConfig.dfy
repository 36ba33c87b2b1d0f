/**
 Rule conditions as they are written in the configuration file, and what the hub makes of them
 (crates/nimon-hub/src/config.rs:265-461 and 766-857): a YAML tree in a nested or a flat shape,
 parsed into a `Config`, then converted into the condition of a rule.
 */
module ConditionConfig {
  import opened Basics
  import opened Rules

  // ------------------------------------------------------------------ YAML values

  datatype Value =
    | Null
    | Bool(b: bool)
    | Int(n: int)
    | Float(x: F64)
    | Str(s: string)
    | Seq(items: seq<Value>)
    | Map(entries: seq<Entry>)

  datatype Entry = Entry(key: Value, value: Value)

  function Lookup(entries: seq<Entry>, key: string): (r: Option<Value>)
    ensures r.Some? ==> exists i :: 0 <= i < |entries| && entries[i].value == r.value
  {
    if entries == [] then None
    else if entries[0].key == Str(key) then Some(entries[0].value)
    else Lookup(entries[1..], key)
  }

  predicate Has(v: Value, key: string) { v.Map? && Lookup(v.entries, key).Some? }

  /** A field, where writing null is the same as leaving it out. */
  function Field(v: Value, key: string): Option<Value> {
    if !v.Map? then None
    else
      var r := Lookup(v.entries, key);
      if r == Some(Null) then None else r
  }

  function FieldStr(v: Value, key: string): Result<Option<string>, string> {
    match Field(v, key)
    case None => Ok(None)
    case Some(Str(s)) => Ok(Some(s))
    case Some(_) => Err("field '" + key + "' must be a string")
  }

  function FieldF64(v: Value, key: string): Result<Option<F64>, string> {
    match Field(v, key)
    case None => Ok(None)
    case Some(Float(x)) => Ok(Some(x))
    case Some(Int(n)) => Ok(Some(Finite(n as real)))
    case Some(_) => Err("field '" + key + "' must be a number")
  }

  const I32_SPAN: int := 0x1_0000_0000
  const I32_HALF: int := 0x8000_0000
  const I64_HALF: int := 0x8000_0000_0000_0000

  predicate IsI32(n: int) { -I32_HALF <= n < I32_HALF }

  predicate IsI64(n: int) { -I64_HALF <= n < I64_HALF }

  /** The `as i32` cast: the low 32 bits. */
  function AsI32(n: int): (r: int)
    ensures IsI32(r) && (r - n) % I32_SPAN == 0
    ensures r == n <==> IsI32(n)
  {
    (n + I32_HALF) % I32_SPAN - I32_HALF
  }

  function FieldI32(v: Value, key: string): Result<Option<int>, string> {
    match Field(v, key)
    case None => Ok(None)
    case Some(Int(n)) => if IsI64(n) then Ok(Some(AsI32(n))) else Err("field '" + key + "' must be an integer")
    case Some(_) => Err("field '" + key + "' must be an integer")
  }

  function Required<T>(r: Option<T>, message: string): Result<T, string> {
    if r.Some? then Ok(r.value) else Err(message)
  }

  // ------------------------------------------------------------------ parsing

  datatype Config =
    | Threshold(metric: string, threshold: Option<F64>, comparison: Option<string>,
                durationMinutes: Option<int>, hysteresis: Option<F64>)
    | Offline(maxMinutesSincePoll: int)
    | HealthChange(from: Option<string>, to: string)
    | Predicted(predictionType: string, minProbability: F64, maxEtaMinutes: Option<int>)
    | Group(op: Option<string>, conditions: seq<Config>)

  datatype Kind = MetricThreshold | DeviceOffline | HealthStatusChange | Prediction | Composite

  function KindNamed(s: string): Option<Kind> {
    if s == "MetricThreshold" then Some(Kind.MetricThreshold)
    else if s == "DeviceOffline" then Some(Kind.DeviceOffline)
    else if s == "HealthStatusChange" then Some(Kind.HealthStatusChange)
    else if s == "Prediction" then Some(Kind.Prediction)
    else if s == "Composite" then Some(Kind.Composite)
    else None
  }

  /** The kind whose characteristic keys a flat mapping has; the order of the tests matters. */
  function FlatKind(v: Value): Option<Kind> {
    if Has(v, "metric") then Some(Kind.MetricThreshold)
    else if Has(v, "max_minutes_since_poll") then Some(Kind.DeviceOffline)
    else if Has(v, "prediction_type") || Has(v, "min_probability") then Some(Kind.Prediction)
    else if Has(v, "conditions") then Some(Kind.Composite)
    else if Has(v, "to") || Has(v, "from") then Some(Kind.HealthStatusChange)
    else None
  }

  function Parse(v: Value): Result<Config, string>
    decreases v, 2
  {
    if !v.Map? then Err("condition must be a mapping")
    else if |v.entries| == 1 && !v.entries[0].key.Str? then Err("condition type key must be a string")
    else if |v.entries| == 1 && KindNamed(v.entries[0].key.s).Some? then
      ParseAs(KindNamed(v.entries[0].key.s).value, v.entries[0].value)
    else
      match FlatKind(v)
      case Some(kind) => ParseAs(kind, v)
      case None => Err("unrecognized condition shape: expected a nested type key or flat fields")
  }

  function ParseAs(kind: Kind, v: Value): Result<Config, string>
    decreases v, 1
  {
    match kind
    case MetricThreshold =>
      var metric :- FieldStr(v, "metric");
      var metric :- Required(metric, "MetricThreshold requires 'metric'");
      var threshold :- FieldF64(v, "threshold");
      var comparison :- FieldStr(v, "comparison");
      var duration :- FieldI32(v, "duration_minutes");
      var hysteresis :- FieldF64(v, "hysteresis");
      Ok(Threshold(metric, threshold, comparison, duration, hysteresis))
    case DeviceOffline =>
      var minutes :- FieldI32(v, "max_minutes_since_poll");
      var minutes :- Required(minutes, "DeviceOffline requires 'max_minutes_since_poll'");
      Ok(Config.Offline(minutes))
    case HealthStatusChange =>
      var to :- FieldStr(v, "to");
      var to :- Required(to, "HealthStatusChange requires 'to'");
      var from :- FieldStr(v, "from");
      Ok(HealthChange(from, to))
    case Prediction =>
      var kind :- FieldStr(v, "prediction_type");
      var kind :- Required(kind, "Prediction requires 'prediction_type'");
      var probability :- FieldF64(v, "min_probability");
      var probability :- Required(probability, "Prediction requires 'min_probability'");
      var eta :- FieldI32(v, "max_eta_minutes");
      Ok(Predicted(kind, probability, eta))
    case Composite =>
      var op :- FieldStr(v, "op");
      var op :- if op.Some? then Ok(op) else FieldStr(v, "operator");
      if !Has(v, "conditions") then Err("Composite requires 'conditions'")
      else
        var list := Lookup(v.entries, "conditions").value;
        if !list.Seq? then Err("Composite 'conditions' must be a list")
        else
          var conditions :- ParseAll(list.items);
          Ok(Group(op, conditions))
  }

  /** All of them, or the first error. */
  function ParseAll(items: seq<Value>): Result<seq<Config>, string>
    decreases items, 0
  {
    if items == [] then Ok([])
    else
      var first :- Parse(items[0]);
      var rest :- ParseAll(items[1..]);
      Ok([first] + rest)
  }

  // ------------------------------------------------------------------ writing

  /** How a condition is written down; each choice may differ from node to node. */
  datatype Style = Style(
    flat: Config -> bool,      // without the key that names the kind
    nulls: Config -> bool,     // with absent fields as explicit nulls
    operator: Config -> bool)  // a group's operator under its longer name

  datatype Pair = Pair(key: string, value: Option<Value>)

  /** The fields of a condition, in the order of the documentation. */
  function Pairs(c: Config, style: Style): seq<Pair>
    decreases c, 1
  {
    match c
    case Threshold(metric, threshold, comparison, duration, hysteresis) =>
      [Pair("metric", Some(Str(metric))), Pair("threshold", NumberField(threshold)),
       Pair("comparison", TextField(comparison)), Pair("duration_minutes", IntField(duration)),
       Pair("hysteresis", NumberField(hysteresis))]
    case Offline(minutes) => [Pair("max_minutes_since_poll", Some(Int(minutes)))]
    case HealthChange(from, to) => [Pair("from", TextField(from)), Pair("to", Some(Str(to)))]
    case Predicted(kind, probability, eta) =>
      [Pair("prediction_type", Some(Str(kind))), Pair("min_probability", Some(Value.Float(probability))),
       Pair("max_eta_minutes", IntField(eta))]
    case Group(op, conditions) =>
      [Pair(if style.operator(c) then "operator" else "op", TextField(op)),
       Pair("conditions", Some(Seq(Docs(conditions, style))))]
  }

  function TextField(x: Option<string>): Option<Value> { if x.Some? then Some(Str(x.value)) else None }

  function IntField(x: Option<int>): Option<Value> { if x.Some? then Some(Int(x.value)) else None }

  function NumberField(x: Option<F64>): Option<Value> { if x.Some? then Some(Value.Float(x.value)) else None }

  function Write(pairs: seq<Pair>, nulls: bool): seq<Entry> {
    if pairs == [] then []
    else
      var p := pairs[0];
      (if p.value.Some? then [Entry(Str(p.key), p.value.value)]
       else if nulls then [Entry(Str(p.key), Null)]
       else []) + Write(pairs[1..], nulls)
  }

  function KindOf(c: Config): Kind {
    match c
    case Threshold(_, _, _, _, _) => Kind.MetricThreshold
    case Offline(_) => Kind.DeviceOffline
    case HealthChange(_, _) => Kind.HealthStatusChange
    case Predicted(_, _, _) => Kind.Prediction
    case Group(_, _) => Kind.Composite
  }

  function Name(kind: Kind): (s: string)
    ensures KindNamed(s) == Some(kind)
  {
    match kind
    case MetricThreshold => "MetricThreshold"
    case DeviceOffline => "DeviceOffline"
    case HealthStatusChange => "HealthStatusChange"
    case Prediction => "Prediction"
    case Composite => "Composite"
  }

  function Doc(c: Config, style: Style): Value
    decreases c, 2
  {
    var body := Map(Write(Pairs(c, style), style.nulls(c)));
    if style.flat(c) then body else Map([Entry(Str(Name(KindOf(c))), body)])
  }

  function Docs(cs: seq<Config>, style: Style): (docs: seq<Value>)
    decreases cs, 0
  {
    if cs == [] then [] else [Doc(cs[0], style)] + Docs(cs[1..], style)
  }

  // ------------------------------------------------------------------ reading back what was written

  ghost predicate DistinctKeys(pairs: seq<Pair>) {
    forall i, j :: 0 <= i < j < |pairs| ==> pairs[i].key != pairs[j].key
  }

  /** What looking up the key of a pair finds among the entries. */
  function Shown(p: Pair, nulls: bool): Option<Value> {
    if p.value.None? && nulls then Some(Null) else p.value
  }

  lemma {:induction false} LookupAt(pairs: seq<Pair>, nulls: bool, i: nat)
    requires DistinctKeys(pairs) && i < |pairs|
    ensures Lookup(Write(pairs, nulls), pairs[i].key) == Shown(pairs[i], nulls)
  {
    var e := Write(pairs, nulls);
    assert e == Write(pairs[1..], nulls) || e[1..] == Write(pairs[1..], nulls);
    if i == 0 {
      LookupAbsent(pairs[1..], nulls, pairs[0].key);
    } else {
      LookupAt(pairs[1..], nulls, i - 1);
    }
  }

  lemma {:induction false} LookupAbsent(pairs: seq<Pair>, nulls: bool, key: string)
    requires forall i :: 0 <= i < |pairs| ==> pairs[i].key != key
    ensures Lookup(Write(pairs, nulls), key) == None
  {
    if pairs != [] {
      LookupAbsent(pairs[1..], nulls, key);
      var e := Write(pairs, nulls);
      assert e == Write(pairs[1..], nulls) || e[1..] == Write(pairs[1..], nulls);
    }
  }

  /** Integers are cut to 32 bits, everywhere in the tree. */
  function Wrapped(c: Config): Config {
    match c
    case Threshold(metric, threshold, comparison, duration, hysteresis) =>
      Threshold(metric, threshold, comparison, WrappedOption(duration), hysteresis)
    case Offline(minutes) => Config.Offline(AsI32(minutes))
    case HealthChange(_, _) => c
    case Predicted(kind, probability, eta) => Predicted(kind, probability, WrappedOption(eta))
    case Group(op, conditions) => Group(op, WrappedAll(conditions))
  }

  function WrappedAll(cs: seq<Config>): seq<Config> {
    if cs == [] then [] else [Wrapped(cs[0])] + WrappedAll(cs[1..])
  }

  function WrappedOption(n: Option<int>): Option<int> { if n.Some? then Some(AsI32(n.value)) else None }

  /** Every integer of the tree satisfies `p`. */
  predicate Integers(c: Config, p: int -> bool) {
    match c
    case Threshold(_, _, _, duration, _) => duration.Some? ==> p(duration.value)
    case Offline(minutes) => p(minutes)
    case HealthChange(_, _) => true
    case Predicted(_, _, eta) => eta.Some? ==> p(eta.value)
    case Group(_, conditions) => forall k | k in conditions :: Integers(k, p)
  }

  function Body(c: Config, style: Style): Value { Map(Write(Pairs(c, style), style.nulls(c))) }

  lemma FieldAt(c: Config, style: Style, i: nat, key: string)
    requires DistinctKeys(Pairs(c, style)) && i < |Pairs(c, style)|
    requires key == Pairs(c, style)[i].key && Pairs(c, style)[i].value != Some(Null)
    ensures Field(Body(c, style), key) == Pairs(c, style)[i].value
  {
    LookupAt(Pairs(c, style), style.nulls(c), i);
  }

  lemma KeysDistinct(c: Config, style: Style)
    ensures DistinctKeys(Pairs(c, style))
  {
  }

  /** A written body is parsed as the condition it was written from, once its kind is known. */
  lemma ThresholdBack(c: Config, style: Style)
    requires c.Threshold? && Integers(c, IsI64)
    ensures ParseAs(Kind.MetricThreshold, Body(c, style)) == Ok(Wrapped(c))
  {
    var v := Body(c, style);
    KeysDistinct(c, style);
    assert FieldStr(v, "metric") == Ok(Some(c.metric)) by { FieldAt(c, style, 0, "metric"); }
    assert FieldF64(v, "threshold") == Ok(c.threshold) by { FieldAt(c, style, 1, "threshold"); }
    assert FieldStr(v, "comparison") == Ok(c.comparison) by { FieldAt(c, style, 2, "comparison"); }
    assert FieldI32(v, "duration_minutes") == Ok(WrappedOption(c.durationMinutes)) by {
      FieldAt(c, style, 3, "duration_minutes");
    }
    assert FieldF64(v, "hysteresis") == Ok(c.hysteresis) by { FieldAt(c, style, 4, "hysteresis"); }
  }

  lemma OfflineBack(c: Config, style: Style)
    requires c.Offline? && Integers(c, IsI64)
    ensures ParseAs(Kind.DeviceOffline, Body(c, style)) == Ok(Wrapped(c))
  {
    LookupAt(Pairs(c, style), style.nulls(c), 0);
  }

  lemma HealthChangeBack(c: Config, style: Style)
    requires c.HealthChange?
    ensures ParseAs(Kind.HealthStatusChange, Body(c, style)) == Ok(Wrapped(c))
  {
    var v := Body(c, style);
    KeysDistinct(c, style);
    assert FieldStr(v, "from") == Ok(c.from) by { FieldAt(c, style, 0, "from"); }
    assert FieldStr(v, "to") == Ok(Some(c.to)) by { FieldAt(c, style, 1, "to"); }
  }

  lemma PredictedBack(c: Config, style: Style)
    requires c.Predicted? && Integers(c, IsI64)
    ensures ParseAs(Kind.Prediction, Body(c, style)) == Ok(Wrapped(c))
  {
    var v := Body(c, style);
    KeysDistinct(c, style);
    assert FieldStr(v, "prediction_type") == Ok(Some(c.predictionType)) by { FieldAt(c, style, 0, "prediction_type"); }
    assert FieldF64(v, "min_probability") == Ok(Some(c.minProbability)) by { FieldAt(c, style, 1, "min_probability"); }
    assert FieldI32(v, "max_eta_minutes") == Ok(WrappedOption(c.maxEtaMinutes)) by {
      FieldAt(c, style, 2, "max_eta_minutes");
    }
  }

  lemma OperatorBack(c: Config, style: Style)
    requires c.Group?
    ensures var v := Body(c, style);
            if style.operator(c) then FieldStr(v, "op") == Ok(None) && FieldStr(v, "operator") == Ok(c.op)
            else FieldStr(v, "op") == Ok(c.op) && FieldStr(v, "operator") == Ok(None)
  {
    KeysDistinct(c, style);
    if style.operator(c) {
      LookupAbsent(Pairs(c, style), style.nulls(c), "op");
      FieldAt(c, style, 0, "operator");
    } else {
      LookupAbsent(Pairs(c, style), style.nulls(c), "operator");
      FieldAt(c, style, 0, "op");
    }
  }

  lemma ConditionsBack(c: Config, style: Style)
    requires c.Group?
    ensures Lookup(Body(c, style).entries, "conditions") == Some(Seq(Docs(c.conditions, style)))
  {
    KeysDistinct(c, style);
    assert Pairs(c, style)[1].key == "conditions";
    LookupAt(Pairs(c, style), style.nulls(c), 1);
  }

  lemma GroupBack(c: Config, style: Style)
    requires c.Group? && ParseAll(Docs(c.conditions, style)) == Ok(WrappedAll(c.conditions))
    ensures ParseAs(Kind.Composite, Body(c, style)) == Ok(Wrapped(c))
  {
    OperatorBack(c, style);
    ConditionsBack(c, style);
  }

  /** No flat shape is captured by the keys of another kind. */
  lemma FlatKindBack(c: Config, style: Style)
    ensures FlatKind(Body(c, style)) == Some(KindOf(c))
  {
    var pairs, nulls := Pairs(c, style), style.nulls(c);
    match c
    case Threshold(_, _, _, _, _) => LookupAt(pairs, nulls, 0);
    case Offline(_) =>
      LookupAbsent(pairs, nulls, "metric");
      LookupAt(pairs, nulls, 0);
    case HealthChange(_, _) => HealthChangeNotCaptured(c, style);
    case Predicted(_, _, _) =>
      LookupAbsent(pairs, nulls, "metric");
      LookupAbsent(pairs, nulls, "max_minutes_since_poll");
      LookupAt(pairs, nulls, 0);
    case Group(_, _) => GroupNotCaptured(c, style);
  }

  lemma HealthChangeNotCaptured(c: Config, style: Style)
    requires c.HealthChange?
    ensures FlatKind(Body(c, style)) == Some(Kind.HealthStatusChange)
  {
    var pairs, nulls := Pairs(c, style), style.nulls(c);
    LookupAbsent(pairs, nulls, "metric");
    LookupAbsent(pairs, nulls, "max_minutes_since_poll");
    LookupAbsent(pairs, nulls, "prediction_type");
    LookupAbsent(pairs, nulls, "min_probability");
    LookupAbsent(pairs, nulls, "conditions");
    LookupAt(pairs, nulls, 1);
  }

  lemma GroupNotCaptured(c: Config, style: Style)
    requires c.Group?
    ensures FlatKind(Body(c, style)) == Some(Kind.Composite)
  {
    var pairs, nulls := Pairs(c, style), style.nulls(c);
    assert pairs[1].key == "conditions";
    LookupAbsent(pairs, nulls, "metric");
    LookupAbsent(pairs, nulls, "max_minutes_since_poll");
    LookupAbsent(pairs, nulls, "prediction_type");
    LookupAbsent(pairs, nulls, "min_probability");
    LookupAt(pairs, nulls, 1);
  }

  /** No field is named like a kind, so a flat mapping with one entry is not taken for a nested one. */
  lemma {:induction false} NotAKind(pairs: seq<Pair>, nulls: bool)
    requires forall i :: 0 <= i < |pairs| ==> KindNamed(pairs[i].key).None?
    ensures forall e | e in Write(pairs, nulls) :: e.key.Str? && KindNamed(e.key.s).None?
  {
    if pairs != [] {
      NotAKind(pairs[1..], nulls);
      assert KindNamed(pairs[0].key).None?;
    }
  }

  lemma FieldsAreNotKinds(c: Config, style: Style)
    ensures forall i :: 0 <= i < |Pairs(c, style)| ==> KindNamed(Pairs(c, style)[i].key).None?
  {
  }

  /** Either shape leads to the same fields under the same kind. */
  lemma DocToBody(c: Config, style: Style)
    ensures Parse(Doc(c, style)) == ParseAs(KindOf(c), Body(c, style))
  {
    var v := Doc(c, style);
    if style.flat(c) {
      FieldsAreNotKinds(c, style);
      NotAKind(Pairs(c, style), style.nulls(c));
      assert |v.entries| == 1 ==> v.entries[0] in v.entries;
      FlatKindBack(c, style);
    }
  }

  /** What is written in any style is read back, with its integers cut to 32 bits. */
  lemma {:induction false} ReadBack(c: Config, style: Style)
    requires Integers(c, IsI64)
    ensures Parse(Doc(c, style)) == Ok(Wrapped(c))
    decreases c, 1
  {
    DocToBody(c, style);
    match c
    case Threshold(_, _, _, _, _) => ThresholdBack(c, style);
    case Offline(_) => OfflineBack(c, style);
    case HealthChange(_, _) => HealthChangeBack(c, style);
    case Predicted(_, _, _) => PredictedBack(c, style);
    case Group(_, conditions) =>
      ReadAllBack(conditions, style);
      GroupBack(c, style);
  }

  lemma {:induction false} ReadAllBack(cs: seq<Config>, style: Style)
    requires forall k | k in cs :: Integers(k, IsI64)
    ensures ParseAll(Docs(cs, style)) == Ok(WrappedAll(cs))
    decreases cs, 0
  {
    if cs != [] {
      ReadBack(cs[0], style);
      ReadAllBack(cs[1..], style);
      assert Docs(cs, style)[1..] == Docs(cs[1..], style);
    }
  }

  // ------------------------------------------------------------------ what reading gives

  /** Nothing is cut exactly when every integer fits. */
  lemma {:induction false} WrappedIff(c: Config)
    ensures Wrapped(c) == c <==> Integers(c, IsI32)
    decreases c, 1
  {
    if c.Group? {
      WrappedAllIff(c.conditions);
    }
  }

  lemma {:induction false} WrappedAllIff(cs: seq<Config>)
    ensures |WrappedAll(cs)| == |cs|
    ensures WrappedAll(cs) == cs <==> forall k | k in cs :: Integers(k, IsI32)
    decreases cs, 0
  {
    if cs != [] {
      WrappedIff(cs[0]);
      WrappedAllIff(cs[1..]);
      assert WrappedAll(cs)[1..] == WrappedAll(cs[1..]);
      assert cs == [cs[0]] + cs[1..];
    }
  }

  /** Whatever document is accepted, its integers come out within 32 bits. */
  lemma {:induction false} ParsedInRange(v: Value)
    requires Parse(v).Ok?
    ensures Integers(Parse(v).value, IsI32)
    decreases v, 2
  {
    if |v.entries| == 1 && KindNamed(v.entries[0].key.s).Some? {
      ParsedAsInRange(KindNamed(v.entries[0].key.s).value, v.entries[0].value);
    } else {
      ParsedAsInRange(FlatKind(v).value, v);
    }
  }

  lemma {:induction false} ParsedAsInRange(kind: Kind, v: Value)
    requires ParseAs(kind, v).Ok?
    ensures Integers(ParseAs(kind, v).value, IsI32)
    decreases v, 1
  {
    if kind.Composite? {
      ParsedAllInRange(Lookup(v.entries, "conditions").value.items);
    } else {
      LeafInRange(kind, v, ParseAs(kind, v).value);
    }
  }

  lemma FieldInRange(v: Value, key: string)
    ensures FieldI32(v, key).Ok? && FieldI32(v, key).value.Some? ==> IsI32(FieldI32(v, key).value.value)
  {
  }

  lemma ThresholdInRange(v: Value, c: Config)
    requires ParseAs(Kind.MetricThreshold, v) == Ok(c)
    ensures Integers(c, IsI32)
  {
    FieldInRange(v, "duration_minutes");
  }

  lemma OfflineInRange(v: Value, c: Config)
    requires ParseAs(Kind.DeviceOffline, v) == Ok(c)
    ensures Integers(c, IsI32)
  {
    FieldInRange(v, "max_minutes_since_poll");
  }

  lemma PredictedInRange(v: Value, c: Config)
    requires ParseAs(Kind.Prediction, v) == Ok(c)
    ensures Integers(c, IsI32)
  {
    FieldInRange(v, "max_eta_minutes");
  }

  lemma LeafInRange(kind: Kind, v: Value, c: Config)
    requires !kind.Composite? && ParseAs(kind, v) == Ok(c)
    ensures Integers(c, IsI32)
  {
    match kind
    case MetricThreshold => ThresholdInRange(v, c);
    case DeviceOffline => OfflineInRange(v, c);
    case HealthStatusChange =>
    case Prediction => PredictedInRange(v, c);
  }

  lemma {:induction false} ParsedAllInRange(items: seq<Value>)
    requires ParseAll(items).Ok?
    ensures forall k | k in ParseAll(items).value :: Integers(k, IsI32)
    decreases items, 0
  {
    if items != [] {
      ParsedInRange(items[0]);
      ParsedAllInRange(items[1..]);
    }
  }

  lemma {:induction false} FitsI64(c: Config)
    requires Integers(c, IsI32)
    ensures Integers(c, IsI64)
  {
    if c.Group? {
      forall k | k in c.conditions
        ensures Integers(k, IsI64)
      {
        FitsI64(k);
      }
    }
  }

  /** A condition is read back as it was written, in whatever style, exactly when its integers fit in 32 bits. */
  lemma RoundTripIff(c: Config, style: Style)
    ensures Parse(Doc(c, style)) == Ok(c) <==> Integers(c, IsI32)
  {
    if Integers(c, IsI32) {
      FitsI64(c);
      ReadBack(c, style);
      WrappedIff(c);
    } else if Parse(Doc(c, style)) == Ok(c) {
      ParsedInRange(Doc(c, style));
    }
  }

  /** The nested and the flat shape, and any mixture of them, mean the same. */
  lemma StylesAgree(c: Config, s: Style, t: Style)
    requires Integers(c, IsI64)
    ensures Parse(Doc(c, s)) == Parse(Doc(c, t))
  {
    ReadBack(c, s);
    ReadBack(c, t);
  }

  /** Every accepted document has a normal form in every style, with the same meaning. */
  lemma Normalises(v: Value, style: Style)
    requires Parse(v).Ok?
    ensures Parse(Doc(Parse(v).value, style)) == Parse(v)
  {
    ParsedInRange(v);
    RoundTripIff(Parse(v).value, style);
  }

  /** Minutes beyond 32 bits are accepted and cut, and only beyond 64 bits refused. */
  lemma MinutesCut(minutes: int, style: Style)
    ensures Parse(Doc(Config.Offline(minutes), style)).Ok? <==> IsI64(minutes)
    ensures IsI64(minutes) ==> Parse(Doc(Config.Offline(minutes), style)) == Ok(Config.Offline(AsI32(minutes)))
    ensures AsI32(0x1_0000_0000 + 5) == 5
  {
    var c := Config.Offline(minutes);
    if IsI64(minutes) {
      ReadBack(c, style);
    } else {
      DocToBody(c, style);
      LookupAt(Pairs(c, style), style.nulls(c), 0);
    }
  }
}
