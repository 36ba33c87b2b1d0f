/**
 Which document denotes which condition, said without the order in which the parser looks: both
 shapes, the keys by which a flat one is told, and what a field may hold
 (crates/nimon-hub/src/config.rs:265-461).
 */
module ConditionDocs {
  import opened Basics
  import opened Rules
  import opened ConditionConfig

  // ------------------------------------------------------------------ fields

  /** The field is not there, or null, or there are no fields at all. */
  predicate Absent(v: Value, key: string) {
    v.Map? ==> Lookup(v.entries, key) == None || Lookup(v.entries, key) == Some(Null)
  }

  predicate Holds(v: Value, key: string, x: Value) { v.Map? && Lookup(v.entries, key) == Some(x) }

  ghost predicate TextAt(v: Value, key: string, x: Option<string>) {
    if Absent(v, key) then x == None else x.Some? && Holds(v, key, Str(x.value))
  }

  /** A number may be written as a whole one. */
  ghost predicate NumberAt(v: Value, key: string, x: Option<F64>) {
    if Absent(v, key) then x == None
    else x.Some? && (Holds(v, key, Value.Float(x.value))
                     || exists n :: Holds(v, key, Int(n)) && x.value == Finite(n as real))
  }

  /** A whole number of 64 bits, of which the low 32 count. */
  ghost predicate IntegerAt(v: Value, key: string, x: Option<int>) {
    if Absent(v, key) then x == None
    else x.Some? && exists n :: Holds(v, key, Int(n)) && Cut(n, x.value)
  }

  predicate Cut(n: int, x: int) {
    && -0x8000_0000_0000_0000 <= n < 0x8000_0000_0000_0000
    && -0x8000_0000 <= x < 0x8000_0000 && (n - x) % 0x1_0000_0000 == 0
  }

  lemma TextIff(v: Value, key: string, x: Option<string>)
    ensures FieldStr(v, key) == Ok(x) <==> TextAt(v, key, x)
  {
  }

  lemma NumberIff(v: Value, key: string, x: Option<F64>)
    ensures FieldF64(v, key) == Ok(x) <==> NumberAt(v, key, x)
  {
    if Field(v, key).Some? && Field(v, key).value.Int? {
      assert Holds(v, key, Int(Field(v, key).value.n));
    }
  }

  lemma CutIs(n: int, x: int)
    ensures Cut(n, x) <==> IsI64(n) && x == AsI32(n)
  {
    if Cut(n, x) {
      var r := AsI32(n);
      assert (n - x) % I32_SPAN == 0 && (r - n) % I32_SPAN == 0;
      assert (r - x) % I32_SPAN == 0 by {
        assert r - x == (r - n) + (n - x);
      }
    }
  }

  lemma IntegerIff(v: Value, key: string, x: Option<int>)
    ensures FieldI32(v, key) == Ok(x) <==> IntegerAt(v, key, x)
  {
    if Field(v, key).Some? && Field(v, key).value.Int? {
      var n := Field(v, key).value.n;
      assert Holds(v, key, Int(n));
      CutIs(n, AsI32(n));
      if x.Some? {
        CutIs(n, x.value);
      }
    }
  }

  // ------------------------------------------------------------------ shapes

  /** The names of the kinds in the nested shape. */
  function NameOf(kind: Kind): string {
    match kind
    case MetricThreshold => "MetricThreshold"
    case DeviceOffline => "DeviceOffline"
    case HealthStatusChange => "HealthStatusChange"
    case Prediction => "Prediction"
    case Composite => "Composite"
  }

  /** The keys that tell the kind of a flat shape; the first one that is there decides. */
  const TELLING: seq<(string, Kind)> :=
    [("metric", Kind.MetricThreshold), ("max_minutes_since_poll", Kind.DeviceOffline),
     ("prediction_type", Kind.Prediction), ("min_probability", Kind.Prediction),
     ("conditions", Kind.Composite), ("to", Kind.HealthStatusChange), ("from", Kind.HealthStatusChange)]

  predicate Tells(v: Value, k: int) {
    && 0 <= k < |TELLING| && Has(v, TELLING[k].0)
    && forall j :: 0 <= j < k ==> !Has(v, TELLING[j].0)
  }

  /** One key that is the name of the kind. */
  predicate IsNested(v: Value, kind: Kind) { v.Map? && |v.entries| == 1 && v.entries[0].key == Str(NameOf(kind)) }

  predicate IsFlat(v: Value) {
    && v.Map? && (|v.entries| == 1 ==> v.entries[0].key.Str?)
    && forall kind: Kind :: !IsNested(v, kind)
  }

  /** Where the fields of a condition of that kind are. */
  ghost predicate Shape(v: Value, kind: Kind, body: Value) {
    || (IsNested(v, kind) && body == v.entries[0].value)
    || (IsFlat(v) && body == v && exists k :: Tells(v, k) && TELLING[k].1 == kind)
  }

  lemma NamedIff(s: string, kind: Kind)
    ensures KindNamed(s) == Some(kind) <==> s == NameOf(kind)
  {
  }

  lemma FlatIff(v: Value, kind: Kind)
    ensures FlatKind(v) == Some(kind) <==> exists k :: Tells(v, k) && TELLING[k].1 == kind
  {
    assert TELLING[0] == ("metric", Kind.MetricThreshold);
    assert TELLING[1] == ("max_minutes_since_poll", Kind.DeviceOffline);
    assert TELLING[2] == ("prediction_type", Kind.Prediction) && TELLING[3] == ("min_probability", Kind.Prediction);
    assert TELLING[4] == ("conditions", Kind.Composite) && TELLING[5] == ("to", Kind.HealthStatusChange);
    assert TELLING[6] == ("from", Kind.HealthStatusChange);
    if Has(v, "metric") {
      assert Tells(v, 0);
    } else if Has(v, "max_minutes_since_poll") {
      assert Tells(v, 1);
    } else if Has(v, "prediction_type") {
      assert Tells(v, 2);
    } else if Has(v, "min_probability") {
      assert Tells(v, 3);
    } else if Has(v, "conditions") {
      assert Tells(v, 4);
    } else if Has(v, "to") {
      assert Tells(v, 5);
    } else if Has(v, "from") {
      assert Tells(v, 6);
    }
  }

  lemma NestedOnce(v: Value, kind: Kind, other: Kind)
    requires IsNested(v, kind) && IsNested(v, other)
    ensures kind == other
  {
    NamedIff(NameOf(kind), kind);
    NamedIff(NameOf(kind), other);
  }

  /** A document is parsed as the fields of its kind, wherever they are. */
  lemma ParsesByShape(v: Value, c: Config)
    ensures Parse(v) == Ok(c) <==> exists kind, body :: Shape(v, kind, body) && ParseAs(kind, body) == Ok(c)
  {
    if v.Map? && |v.entries| == 1 && v.entries[0].key.Str? && KindNamed(v.entries[0].key.s).Some? {
      var kind, body := KindNamed(v.entries[0].key.s).value, v.entries[0].value;
      NamedIff(v.entries[0].key.s, kind);
      assert Shape(v, kind, body);
      forall other, there | Shape(v, other, there)
        ensures other == kind && there == body
      {
        assert IsNested(v, kind);
        NestedOnce(v, kind, other);
      }
    } else {
      forall kind
        ensures !IsNested(v, kind)
      {
        if IsNested(v, kind) {
          NamedIff(v.entries[0].key.s, kind);
        }
      }
      FlatByShape(v, c);
    }
  }

  lemma FlatShapes(v: Value, kind: Kind, body: Value)
    requires forall k: Kind :: !IsNested(v, k)
    ensures Shape(v, kind, body) <==> IsFlat(v) && body == v && FlatKind(v) == Some(kind)
  {
    FlatIff(v, kind);
  }

  lemma FlatByShape(v: Value, c: Config)
    requires forall kind: Kind :: !IsNested(v, kind)
    requires !(v.Map? && |v.entries| == 1 && v.entries[0].key.Str? && KindNamed(v.entries[0].key.s).Some?)
    ensures Parse(v) == Ok(c) <==> exists kind, body :: Shape(v, kind, body) && ParseAs(kind, body) == Ok(c)
  {
    if Parse(v) == Ok(c) {
      FlatShapes(v, FlatKind(v).value, v);
    }
    forall kind, body | Shape(v, kind, body) && ParseAs(kind, body) == Ok(c)
      ensures Parse(v) == Ok(c)
    {
      FlatShapes(v, kind, body);
    }
  }

  // ------------------------------------------------------------------ what a document denotes

  /** The fields of the condition stand in the body. */
  ghost predicate Fields(body: Value, c: Config)
    decreases c, 0
  {
    match c
    case Threshold(metric, threshold, comparison, duration, hysteresis) =>
      && TextAt(body, "metric", Some(metric)) && NumberAt(body, "threshold", threshold)
      && TextAt(body, "comparison", comparison) && IntegerAt(body, "duration_minutes", duration)
      && NumberAt(body, "hysteresis", hysteresis)
    case Offline(minutes) => IntegerAt(body, "max_minutes_since_poll", Some(minutes))
    case HealthChange(from, to) => TextAt(body, "to", Some(to)) && TextAt(body, "from", from)
    case Predicted(kind, probability, eta) =>
      && TextAt(body, "prediction_type", Some(kind)) && NumberAt(body, "min_probability", Some(probability))
      && IntegerAt(body, "max_eta_minutes", eta)
    case Group(op, conditions) =>
      && (if Absent(body, "op") then TextAt(body, "operator", op) else TextAt(body, "op", op))
      && exists items :: Holds(body, "conditions", Seq(items)) && Pairwise(items, conditions)
  }

  ghost predicate Denotes(v: Value, c: Config)
    decreases c, 1
  {
    exists body :: Shape(v, KindOf(c), body) && Fields(body, c)
  }

  lemma OfflineIff(body: Value, c: Config)
    ensures ParseAs(Kind.DeviceOffline, body) == Ok(c) <==> c.Offline? && Fields(body, c)
  {
    if c.Offline? {
      IntegerIff(body, "max_minutes_since_poll", Some(c.maxMinutesSincePoll));
    }
  }

  lemma HealthChangeIff(body: Value, c: Config)
    ensures ParseAs(Kind.HealthStatusChange, body) == Ok(c) <==> c.HealthChange? && Fields(body, c)
  {
    if c.HealthChange? {
      TextIff(body, "to", Some(c.to));
      TextIff(body, "from", c.from);
    }
  }

  lemma PredictedIff(body: Value, c: Config)
    ensures ParseAs(Kind.Prediction, body) == Ok(c) <==> c.Predicted? && Fields(body, c)
  {
    if c.Predicted? {
      TextIff(body, "prediction_type", Some(c.predictionType));
      NumberIff(body, "min_probability", Some(c.minProbability));
      IntegerIff(body, "max_eta_minutes", c.maxEtaMinutes);
    }
  }

  /** A condition of that kind whose fields are there. */
  ghost predicate Stands(kind: Kind, body: Value, c: Config) { KindOf(c) == kind && Fields(body, c) }

  lemma LeafIff(kind: Kind, body: Value, c: Config)
    requires kind != Kind.Composite
    ensures ParseAs(kind, body) == Ok(c) <==> Stands(kind, body, c)
  {
    match kind
    case MetricThreshold => ThresholdIff(body, c);
    case DeviceOffline => OfflineIff(body, c);
    case HealthStatusChange => HealthChangeIff(body, c);
    case Prediction => PredictedIff(body, c);
  }

  lemma ThresholdIff(body: Value, c: Config)
    ensures ParseAs(Kind.MetricThreshold, body) == Ok(c) <==> c.Threshold? && Fields(body, c)
  {
    if c.Threshold? {
      TextIff(body, "metric", Some(c.metric));
      NumberIff(body, "threshold", c.threshold);
      TextIff(body, "comparison", c.comparison);
      IntegerIff(body, "duration_minutes", c.durationMinutes);
      NumberIff(body, "hysteresis", c.hysteresis);
    }
  }

  /** The operator goes by its short name, if that is there. */
  lemma OperatorIff(body: Value, op: Option<string>)
    ensures (FieldStr(body, "op").Ok? && (if FieldStr(body, "op").value.Some? then FieldStr(body, "op").value == op
                                          else FieldStr(body, "operator") == Ok(op)))
       <==> if Absent(body, "op") then TextAt(body, "operator", op) else TextAt(body, "op", op)
  {
    TextIff(body, "op", op);
    TextIff(body, "op", None);
    TextIff(body, "operator", op);
  }

  lemma GroupAsParts(body: Value, op: Option<string>, cs: seq<Config>)
    ensures ParseAs(Kind.Composite, body) == Ok(Group(op, cs)) <==>
            && FieldStr(body, "op").Ok?
            && (if FieldStr(body, "op").value.Some? then FieldStr(body, "op").value == op
                else FieldStr(body, "operator") == Ok(op))
            && exists items :: Holds(body, "conditions", Seq(items)) && ParseAll(items) == Ok(cs)
  {
    if Has(body, "conditions") && Lookup(body.entries, "conditions").value.Seq? {
      var items := Lookup(body.entries, "conditions").value.items;
      assert Holds(body, "conditions", Seq(items));
    }
  }

  lemma {:induction false} GroupIff(body: Value, c: Config)
    ensures ParseAs(Kind.Composite, body) == Ok(c) <==> c.Group? && Fields(body, c)
    decreases c, 0
  {
    if c.Group? {
      GroupAsParts(body, c.op, c.conditions);
      OperatorIff(body, c.op);
      forall items | Holds(body, "conditions", Seq(items))
        ensures ParseAll(items) == Ok(c.conditions) <==> Pairwise(items, c.conditions)
      {
        AllDenote(items, c.conditions);
      }
    }
  }

  ghost predicate Pairwise(items: seq<Value>, cs: seq<Config>)
    decreases cs, 2
  {
    |items| == |cs| && forall k :: 0 <= k < |items| ==> Denotes(items[k], cs[k])
  }

  lemma {:induction false} AllDenote(items: seq<Value>, cs: seq<Config>)
    ensures ParseAll(items) == Ok(cs) <==> Pairwise(items, cs)
    decreases cs, 2
  {
    if items != [] && cs != [] {
      DenotesIff(items[0], cs[0]);
      AllDenote(items[1..], cs[1..]);
      ParsePairs(items, cs);
      DenotePairs(items, cs);
    }
  }

  lemma ParsePairs(items: seq<Value>, cs: seq<Config>)
    requires items != [] && cs != []
    ensures ParseAll(items) == Ok(cs) <==> Parse(items[0]) == Ok(cs[0]) && ParseAll(items[1..]) == Ok(cs[1..])
  {
    assert cs == [cs[0]] + cs[1..];
    if ParseAll(items) == Ok(cs) {
      assert ParseAll(items).value[0] == cs[0] && ParseAll(items).value[1..] == cs[1..];
    }
  }

  lemma DenotePairs(items: seq<Value>, cs: seq<Config>)
    requires items != [] && cs != []
    ensures Pairwise(items, cs) <==> Denotes(items[0], cs[0]) && Pairwise(items[1..], cs[1..])
  {
    if Pairwise(items[1..], cs[1..]) && Denotes(items[0], cs[0]) {
      forall k | 0 <= k < |items|
        ensures Denotes(items[k], cs[k])
      {
        if k > 0 {
          assert items[1..][k - 1] == items[k] && cs[1..][k - 1] == cs[k];
        }
      }
    }
  }

  /** The parser accepts exactly the documents that denote a condition, as that condition. */
  lemma {:induction false} DenotesIff(v: Value, c: Config)
    ensures Parse(v) == Ok(c) <==> Denotes(v, c)
    decreases c, 1
  {
    ParsesByShape(v, c);
    forall kind: Kind, body
      ensures ParseAs(kind, body) == Ok(c) <==> Stands(kind, body, c)
    {
      if kind == Kind.Composite {
        GroupIff(body, c);
      } else {
        LeafIff(kind, body, c);
      }
    }
  }
}
