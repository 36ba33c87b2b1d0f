/**
 The simulated edge (crates/nimon-sim/src/model.rs:49-160, 255-560): devices that are sampled once
 a sweep and turned into protocol messages. What the random generator draws is an input, and so is
 the wave of a flapping device.
 */
module Simulator {
  import opened Basics
  import opened Rules

  const WARMUP_TICKS: nat := 3
  const PREDICTION_EVERY_TICKS: nat := 3
  const REMOVE_AFTER_SILENT_TICKS: nat := 6
  const PLATEAU_ABOVE_CRITICAL: real := 5.0

  // ------------------------------------------------------------------ temperatures

  /** The nearest integer, the one further from zero of two. */
  function RoundToInt(x: real): (n: int)
    ensures x >= 0.0 ==> n as real - 0.5 <= x < n as real + 0.5
    ensures x < 0.0 ==> n as real - 0.5 < x <= n as real + 0.5
  {
    if x >= 0.0 then (x + 0.5).Floor else -((-x + 0.5).Floor)
  }

  function Round2(x: real): real { RoundToInt(x * 100.0) as real / 100.0 }

  function Clamp(x: real, lo: real, hi: real): real { if x < lo then lo else if x > hi then hi else x }

  datatype Walk = Walk(value: real, baseline: real, min: real, max: real, reversion: real)

  function WithCeiling(w: Walk, ceiling: real): Walk {
    var max := Min(w.max, ceiling);
    var min := Min(w.min, max);
    w.(max := max, min := min, baseline := Clamp(w.baseline, min, max), value := Clamp(w.value, min, max))
  }

  function NextWalk(w: Walk, noise: real): Walk {
    w.(value := Clamp(w.value + w.reversion * (w.baseline - w.value) + noise, w.min, w.max))
  }

  datatype TempModel = Walking(walk: Walk) | Ramp(start: real, rate: real) | Flap

  function Plateau(start: real, critical: real): real { Max(critical + PLATEAU_ABOVE_CRITICAL, start) }

  function RampTemperature(start: real, rate: real, rampTick: nat, critical: real): real {
    Min(start + rate * rampTick as real, Plateau(start, critical))
  }

  predicate IsRising(start: real, rate: real, rampTick: nat, critical: real) {
    start + rate * rampTick as real < Plateau(start, critical)
  }

  function Classify(temperature: real, warning: real, critical: real): HealthStatus {
    if temperature > critical then HealthStatus.Error
    else if temperature > warning then Warning
    else Healthy
  }

  function Rank(s: HealthStatus): nat {
    match s
    case Healthy => 0
    case Warning => 1
    case Error => 2
    case Offline => 3
  }

  // ------------------------------------------------------------------ devices and messages

  datatype Lifecycle = Active | Silent(since: nat) | Removed

  datatype Device = Device(
    id: string,
    model: TempModel,
    temperature: real,
    status: HealthStatus,
    lifecycle: Lifecycle,
    offlineAt: Option<nat>)

  datatype Message =
    | StatusSent(status: HealthStatus, temperature: real)
    | AlertSent(critical: bool, threshold: real, value: real)
    | PredictionSent(probability: real, etaMinutes: Option<int>)
    | RemovedSent

  /** What the edge sends: about its device number `dev`, or about itself. */
  datatype Output = About(dev: nat, message: Message) | Registered | Heartbeat(deviceCount: nat)

  datatype Settings = Settings(warning: real, critical: real, interval: real)

  function RampTick(t: nat): nat { if t >= WARMUP_TICKS then t - WARMUP_TICKS else 0 }

  /** The generator after the sample, and the raw reading. */
  function Sample(m: TempModel, t: nat, limits: Settings, draw: real): (TempModel, real) {
    match m
    case Walking(w) => var next := NextWalk(w, draw); (Walking(next), next.value)
    case Ramp(start, rate) => (m, RampTemperature(start, rate, RampTick(t), limits.critical) + draw)
    case Flap => (m, (if t < WARMUP_TICKS then limits.warning - 8.0 else limits.warning) + draw)
  }

  function EtaMinutes(current: real, target: real, rate: real, interval: real): Option<int> {
    if rate <= 0.0 then None
    else Some(Ceiling(Max(target - current, 0.0) / rate * interval / 60.0))
  }

  function Ceiling(x: real): (n: int)
    ensures n as real - 1.0 < x <= n as real
  {
    -((-x).Floor)
  }

  function PredictionDue(m: TempModel, t: nat, temperature: real, critical: real): bool {
    && m.Ramp?
    && t >= WARMUP_TICKS && RampTick(t) >= PREDICTION_EVERY_TICKS && RampTick(t) % PREDICTION_EVERY_TICKS == 0
    && IsRising(m.start, m.rate, RampTick(t), critical)
    && temperature < critical
  }

  function RampPrediction(start: real, rate: real, temperature: real, limits: Settings): Message {
    var span := Max(limits.critical - start, 1.0);
    var progress := Clamp((temperature - start) / span, 0.0, 1.0);
    PredictionSent(Round2(0.5 + 0.45 * progress), EtaMinutes(temperature, limits.critical, rate, limits.interval))
  }

  function StatusOf(d: Device): Message { StatusSent(d.status, d.temperature) }

  /** An active device in a sweep. */
  function SampleDevice(d: Device, t: nat, limits: Settings, draw: real): (Device, seq<Message>) {
    var (model, raw) := Sample(d.model, t, limits, draw);
    var temperature := Round2(raw);
    var status := Classify(temperature, limits.warning, limits.critical);
    var after := d.(model := model, temperature := temperature, status := status);
    var alert :=
      if Rank(status) > Rank(d.status)
      then [AlertSent(status.Error?, if status.Error? then limits.critical else limits.warning, temperature)] else [];
    var prediction :=
      if PredictionDue(model, t, temperature, limits.critical)
      then [RampPrediction(model.start, model.rate, temperature, limits)] else [];
    (after, alert + [StatusOf(after)] + prediction)
  }

  function StepDevice(d: Device, t: nat, limits: Settings, draw: real): (Device, seq<Message>) {
    match d.lifecycle
    case Removed => (d, [])
    case Silent(since) =>
      if t >= since + REMOVE_AFTER_SILENT_TICKS then (d.(lifecycle := Removed), [RemovedSent]) else (d, [])
    case Active =>
      if d.offlineAt.Some? && t >= d.offlineAt.value then (d.(lifecycle := Silent(t)), [])
      else SampleDevice(d, t, limits, draw)
  }

  // ------------------------------------------------------------------ the edge

  datatype Sim = Sim(devices: seq<Device>, settings: Settings, tick: nat)

  datatype Event =
    | Sweep(draws: seq<real>)
    | Configure(warning: Option<real>, critical: Option<real>, pollIntervalSecs: Option<nat>)
    | Snapshot
    | Beat

  function DrawOf(draws: seq<real>, i: nat): real { if i < |draws| then draws[i] else 0.0 }

  function Stepped(s: Sim, draws: seq<real>, i: nat): (Device, seq<Message>)
    requires i < |s.devices|
  {
    StepDevice(s.devices[i], s.tick, s.settings, DrawOf(draws, i))
  }

  function All(dev: nat, messages: seq<Message>): (r: seq<Output>)
    ensures |r| == |messages| && forall k :: 0 <= k < |r| ==> r[k] == About(dev, messages[k])
  {
    seq(|messages|, k requires 0 <= k < |messages| => About(dev, messages[k]))
  }

  /** What each device has to say in a sweep. */
  function Said(s: Sim, draws: seq<real>): (said: seq<seq<Message>>)
    ensures |said| == |s.devices| && forall i :: 0 <= i < |said| ==> said[i] == Stepped(s, draws, i).1
  {
    seq(|s.devices|, i requires 0 <= i < |s.devices| => Stepped(s, draws, i).1)
  }

  /** The messages of the first `n` devices, device by device. */
  function InTurn(said: seq<seq<Message>>, n: nat): seq<Output>
    requires n <= |said|
  {
    if n == 0 then [] else InTurn(said, n - 1) + All(n - 1, said[n - 1])
  }

  function SnapshotOutput(s: Sim, n: nat): seq<Output>
    requires n <= |s.devices|
  {
    if n == 0 then [Registered]
    else SnapshotOutput(s, n - 1)
         + if s.devices[n - 1].lifecycle.Active? then [About(n - 1, StatusOf(s.devices[n - 1]))] else []
  }

  /** Silent devices count until they are removed. */
  function DeviceCount(devices: seq<Device>): nat {
    if devices == [] then 0
    else DeviceCount(devices[..|devices| - 1]) + if devices[|devices| - 1].lifecycle.Removed? then 0 else 1
  }

  function Next(s: Sim, e: Event): Sim {
    match e
    case Sweep(draws) =>
      s.(devices := seq(|s.devices|, i requires 0 <= i < |s.devices| => Stepped(s, draws, i).0), tick := s.tick + 1)
    case Configure(warning, critical, secs) =>
      s.(settings := Settings(
           if warning.Some? then warning.value else s.settings.warning,
           if critical.Some? then critical.value else s.settings.critical,
           if secs.Some? && secs.value > 0 then secs.value as real else s.settings.interval))
    case Snapshot => s
    case Beat => s
  }

  function Outputs(s: Sim, e: Event): seq<Output> {
    match e
    case Sweep(draws) => InTurn(Said(s, draws), |s.devices|)
    case Configure(_, _, _) => []
    case Snapshot => SnapshotOutput(s, |s.devices|)
    case Beat => [Heartbeat(DeviceCount(s.devices))]
  }

  function Run(s: Sim, events: seq<Event>): Sim {
    if events == [] then s else Next(Run(s, events[..|events| - 1]), events[|events| - 1])
  }

  /** Everything sent in a run, in order. */
  function Sent(s: Sim, events: seq<Event>): seq<Output> {
    if events == [] then []
    else Sent(s, events[..|events| - 1]) + Outputs(Run(s, events[..|events| - 1]), events[|events| - 1])
  }

  lemma RunSnoc(s: Sim, events: seq<Event>, e: Event)
    ensures Run(s, events + [e]) == Next(Run(s, events), e)
    ensures Sent(s, events + [e]) == Sent(s, events) + Outputs(Run(s, events), e)
  {
    assert (events + [e])[..|events|] == events;
  }

  /** A new edge. */
  ghost predicate Fresh(s: Sim) {
    && s.tick == 0
    && forall i :: 0 <= i < |s.devices| ==> s.devices[i].lifecycle.Active? && s.devices[i].status.Healthy?
  }

  // ------------------------------------------------------------------ the messages about one device

  function SentBy(out: seq<Output>, dev: nat): seq<Message> {
    if out == [] then []
    else
      var last := out[|out| - 1];
      SentBy(out[..|out| - 1], dev) + if last.About? && last.dev == dev then [last.message] else []
  }

  lemma {:induction false} SentByConcat(a: seq<Output>, b: seq<Output>, dev: nat)
    ensures SentBy(a + b, dev) == SentBy(a, dev) + SentBy(b, dev)
  {
    if b == [] {
      assert a + b == a;
    } else {
      var init := b[..|b| - 1];
      SentByConcat(a, init, dev);
      assert (a + b)[..|a + b| - 1] == a + init;
    }
  }

  lemma {:induction false} SentByAll(messages: seq<Message>, i: nat, dev: nat)
    ensures SentBy(All(i, messages), dev) == if i == dev then messages else []
  {
    if messages != [] {
      SentByAll(messages[..|messages| - 1], i, dev);
      assert All(i, messages)[..|messages| - 1] == All(i, messages[..|messages| - 1]);
    }
  }

  lemma SentBySnoc(out: seq<Output>, i: nat, messages: seq<Message>, dev: nat)
    ensures SentBy(out + All(i, messages), dev) == SentBy(out, dev) + if i == dev then messages else []
  {
    SentByConcat(out, All(i, messages), dev);
    SentByAll(messages, i, dev);
  }

  /** What the device has said when `n` have had their turn. */
  function Share(said: seq<seq<Message>>, n: nat, dev: nat): seq<Message>
    requires n <= |said|
  {
    if n == 0 then [] else Share(said, n - 1, dev) + if n - 1 == dev then said[n - 1] else []
  }

  lemma {:induction false} ShareIsOwn(said: seq<seq<Message>>, n: nat, dev: nat)
    requires n <= |said|
    ensures Share(said, n, dev) == if dev < n then said[dev] else []
    decreases n
  {
    if n > 0 {
      ShareIsOwn(said, n - 1, dev);
      assert [] + said[n - 1] == said[n - 1];
    }
  }

  lemma {:induction false} SentByInTurn(said: seq<seq<Message>>, n: nat, dev: nat)
    requires n <= |said|
    ensures SentBy(InTurn(said, n), dev) == Share(said, n, dev)
    decreases n
  {
    if n > 0 {
      SentByInTurn(said, n - 1, dev);
      SentBySnoc(InTurn(said, n - 1), n - 1, said[n - 1], dev);
    }
  }

  lemma SentBySweep(s: Sim, draws: seq<real>, dev: nat)
    requires dev < |s.devices|
    ensures SentBy(Outputs(s, Sweep(draws)), dev) == Stepped(s, draws, dev).1
  {
    SentByInTurn(Said(s, draws), |s.devices|, dev);
    ShareIsOwn(Said(s, draws), |s.devices|, dev);
  }

  lemma SentBySnapshot(s: Sim, n: nat, dev: nat)
    requires n <= |s.devices|
    ensures SentBy(SnapshotOutput(s, n), dev)
            == if dev < n && s.devices[dev].lifecycle.Active? then [StatusOf(s.devices[dev])] else []
  {
    var out := [Registered];
    assert [Registered][..0] == [];
    for i := 0 to n
      invariant out == SnapshotOutput(s, i)
      invariant SentBy(out, dev)
                == if dev < i && s.devices[dev].lifecycle.Active? then [StatusOf(s.devices[dev])] else []
    {
      SnapshotGoesOn(s, i, dev, out, SnapshotOutput(s, i + 1));
      out := SnapshotOutput(s, i + 1);
    }
  }

  lemma SnapshotGoesOn(s: Sim, n: nat, dev: nat, out: seq<Output>, all: seq<Output>)
    requires n < |s.devices|
    requires all == out + if s.devices[n].lifecycle.Active? then [About(n, StatusOf(s.devices[n]))] else []
    ensures SentBy(all, dev)
            == SentBy(out, dev) + if dev == n && s.devices[n].lifecycle.Active? then [StatusOf(s.devices[n])] else []
  {
    var last := if s.devices[n].lifecycle.Active? then [About(n, StatusOf(s.devices[n]))] else [];
    SentByConcat(out, last, dev);
    assert last != [] ==> last[..0] == [];
  }

  // ------------------------------------------------------------------ the order of the messages

  /** What a listener has heard of a device: its last status, an alert whose status must follow, or its removal. */
  datatype Heard = Live(last: HealthStatus) | Alerted(last: HealthStatus, critical: bool) | Gone | Wrong

  /**
   The rules of the stream: an alert comes right before a status that ranks above the last one, and
   no status may rank above the last one without; the alert is critical exactly if the status is an
   error; predictions are only made while there is no error; nothing follows the removal.
   */
  function Hear(h: Heard, m: Message): Heard {
    match h
    case Live(last) =>
      (match m
       case StatusSent(status, _) => if Rank(status) <= Rank(last) then Live(status) else Wrong
       case AlertSent(critical, _, _) => Alerted(last, critical)
       case PredictionSent(_, _) => if last.Error? then Wrong else Live(last)
       case RemovedSent => Gone)
    case Alerted(last, critical) =>
      if m.StatusSent? && Rank(m.status) > Rank(last) && (critical <==> m.status.Error?) then Live(m.status) else Wrong
    case Gone => Wrong
    case Wrong => Wrong
  }

  function HearAll(h: Heard, ms: seq<Message>): Heard {
    if ms == [] then h else Hear(HearAll(h, ms[..|ms| - 1]), ms[|ms| - 1])
  }

  lemma {:induction false} HearConcat(h: Heard, a: seq<Message>, b: seq<Message>)
    ensures HearAll(h, a + b) == HearAll(HearAll(h, a), b)
  {
    if b == [] {
      assert a + b == a;
    } else {
      HearConcat(h, a, b[..|b| - 1]);
      assert (a + b)[..|a + b| - 1] == a + b[..|b| - 1];
    }
  }

  lemma HearOne(h: Heard, m: Message)
    ensures HearAll(h, [m]) == Hear(h, m)
  {
    assert [m][..0] == [];
  }

  /** What there is to know of a device. */
  function Truth(d: Device): Heard { if d.lifecycle.Removed? then Gone else Live(d.status) }

  lemma SampleHeard(d: Device, t: nat, limits: Settings, draw: real)
    requires !d.lifecycle.Removed?
    ensures var (after, ms) := SampleDevice(d, t, limits, draw); HearAll(Truth(d), ms) == Truth(after)
  {
    var (after, ms) := SampleDevice(d, t, limits, draw);
    var alert := if Rank(after.status) > Rank(d.status)
      then [AlertSent(after.status.Error?, if after.status.Error? then limits.critical else limits.warning,
                      after.temperature)]
      else [];
    var prediction := ms[|alert| + 1..];
    assert ms == (alert + [StatusOf(after)]) + prediction;
    HearConcat(Truth(d), alert + [StatusOf(after)], prediction);
    HearConcat(Truth(d), alert, [StatusOf(after)]);
    HearOne(HearAll(Truth(d), alert), StatusOf(after));
    if alert != [] {
      HearOne(Truth(d), alert[0]);
    }
    assert HearAll(Truth(d), alert + [StatusOf(after)]) == Live(after.status);
    if prediction != [] {
      assert prediction == [prediction[0]] && prediction[0].PredictionSent? && !after.status.Error?;
      HearOne(Live(after.status), prediction[0]);
    }
  }

  lemma StepHeard(d: Device, t: nat, limits: Settings, draw: real)
    ensures var (after, ms) := StepDevice(d, t, limits, draw); HearAll(Truth(d), ms) == Truth(after)
  {
    if d.lifecycle.Active? {
      SampleHeard(d, t, limits, draw);
    }
    HearOne(Truth(d), RemovedSent);
  }

  lemma NextHeard(s: Sim, e: Event, dev: nat)
    requires dev < |s.devices|
    ensures HearAll(Truth(s.devices[dev]), SentBy(Outputs(s, e), dev)) == Truth(Next(s, e).devices[dev])
  {
    var d := s.devices[dev];
    match e
    case Sweep(draws) =>
      SentBySweep(s, draws, dev);
      StepHeard(d, s.tick, s.settings, DrawOf(draws, dev));
    case Configure(_, _, _) =>
    case Snapshot =>
      SentBySnapshot(s, |s.devices|, dev);
      HearOne(Truth(d), StatusOf(d));
    case Beat => assert Outputs(s, e)[..0] == [];
  }

  lemma {:induction false} SameDevices(s: Sim, events: seq<Event>)
    ensures |Run(s, events).devices| == |s.devices|
  {
    if events != [] {
      SameDevices(s, events[..|events| - 1]);
    }
  }

  /**
   In every run, whatever is drawn, configured or asked for in between, the messages about a device
   follow the rules, and leave a listener with the truth: statuses, alerts exactly when the rank
   rises, predictions, then at most one removal, then nothing.
   */
  lemma {:induction false} StreamOfDevice(s: Sim, events: seq<Event>, dev: nat)
    requires Fresh(s) && dev < |s.devices|
    ensures |Run(s, events).devices| == |s.devices|
    ensures HearAll(Live(Healthy), SentBy(Sent(s, events), dev)) == Truth(Run(s, events).devices[dev])
  {
    SameDevices(s, events);
    if events != [] {
      var init, e := events[..|events| - 1], events[|events| - 1];
      StreamOfDevice(s, init, dev);
      SentByConcat(Sent(s, init), Outputs(Run(s, init), e), dev);
      HearConcat(Live(Healthy), SentBy(Sent(s, init), dev), SentBy(Outputs(Run(s, init), e), dev));
      NextHeard(Run(s, init), e, dev);
    }
  }

  /** A stream that follows the rules ends with the removal, if it contains one. */
  lemma {:induction false} RemovalIsLast(ms: seq<Message>, k: nat)
    requires HearAll(Live(Healthy), ms) != Wrong && k < |ms| && ms[k] == RemovedSent
    ensures k == |ms| - 1 && HearAll(Live(Healthy), ms) == Gone
  {
    if k < |ms| - 1 {
      RemovalIsLast(ms[..|ms| - 1], k);
    }
  }

  // ------------------------------------------------------------------ counting

  function Removals(out: seq<Output>): nat {
    if out == [] then 0
    else
      var last := out[|out| - 1];
      Removals(out[..|out| - 1]) + if last.About? && last.message == RemovedSent then 1 else 0
  }

  lemma {:induction false} RemovalsConcat(a: seq<Output>, b: seq<Output>)
    ensures Removals(a + b) == Removals(a) + Removals(b)
  {
    if b == [] {
      assert a + b == a;
    } else {
      RemovalsConcat(a, b[..|b| - 1]);
      assert (a + b)[..|a + b| - 1] == a + b[..|b| - 1];
    }
  }

  lemma {:induction false} NoRemovals(out: seq<Output>)
    requires forall k :: 0 <= k < |out| ==> !out[k].About? || out[k].message != RemovedSent
    ensures Removals(out) == 0
  {
    if out != [] {
      NoRemovals(out[..|out| - 1]);
    }
  }

  lemma StepRemovals(d: Device, t: nat, limits: Settings, draw: real, dev: nat)
    ensures var (after, ms) := StepDevice(d, t, limits, draw);
            Removals(All(dev, ms)) == if !d.lifecycle.Removed? && after.lifecycle.Removed? then 1 else 0
    ensures d.lifecycle.Removed? ==> StepDevice(d, t, limits, draw).0.lifecycle.Removed?
  {
    var (after, ms) := StepDevice(d, t, limits, draw);
    if d.lifecycle.Silent? && after.lifecycle.Removed? {
      assert All(dev, ms) == [About(dev, RemovedSent)] && [About(dev, RemovedSent)][..0] == [];
    } else {
      NoRemovals(All(dev, ms));
    }
  }

  lemma CountSnoc(devices: seq<Device>, n: nat)
    requires n < |devices|
    ensures DeviceCount(devices[..n + 1]) == DeviceCount(devices[..n]) + if devices[n].lifecycle.Removed? then 0 else 1
  {
    assert devices[..n + 1][..n] == devices[..n];
  }

  lemma {:induction false} SweepRemovals(s: Sim, draws: seq<real>, n: nat)
    requires n <= |s.devices|
    ensures DeviceCount(Next(s, Sweep(draws)).devices[..n]) + Removals(InTurn(Said(s, draws), n))
            == DeviceCount(s.devices[..n])
  {
    if n > 0 {
      SweepRemovals(s, draws, n - 1);
      OneDeviceRemovals(s, draws, n - 1, Next(s, Sweep(draws)).devices, InTurn(Said(s, draws), n - 1));
    }
  }

  lemma OneDeviceRemovals(s: Sim, draws: seq<real>, i: nat, after: seq<Device>, out: seq<Output>)
    requires i < |s.devices| && after == Next(s, Sweep(draws)).devices
    requires DeviceCount(after[..i]) + Removals(out) == DeviceCount(s.devices[..i])
    ensures DeviceCount(after[..i + 1]) + Removals(out + All(i, Said(s, draws)[i])) == DeviceCount(s.devices[..i + 1])
  {
    RemovalsConcat(out, All(i, Said(s, draws)[i]));
    StepRemovals(s.devices[i], s.tick, s.settings, DrawOf(draws, i), i);
    CountSnoc(after, i);
    CountSnoc(s.devices, i);
  }

  lemma {:induction false} SnapshotHasNoRemovals(s: Sim, n: nat)
    requires n <= |s.devices|
    ensures forall k :: 0 <= k < |SnapshotOutput(s, n)| ==>
              !SnapshotOutput(s, n)[k].About? || SnapshotOutput(s, n)[k].message != RemovedSent
  {
    if n > 0 {
      SnapshotHasNoRemovals(s, n - 1);
    }
  }

  lemma NextRemovals(s: Sim, e: Event)
    ensures DeviceCount(Next(s, e).devices) + Removals(Outputs(s, e)) == DeviceCount(s.devices)
  {
    match e
    case Sweep(draws) =>
      SweepRemovals(s, draws, |s.devices|);
      assert Next(s, e).devices[..|s.devices|] == Next(s, e).devices && s.devices[..|s.devices|] == s.devices;
    case Configure(_, _, _) =>
    case Snapshot =>
      SnapshotHasNoRemovals(s, |s.devices|);
      NoRemovals(Outputs(s, e));
    case Beat => NoRemovals(Outputs(s, e));
  }

  lemma {:induction false} AllActive(devices: seq<Device>)
    requires forall i :: 0 <= i < |devices| ==> devices[i].lifecycle.Active?
    ensures DeviceCount(devices) == |devices|
  {
    if devices != [] {
      AllActive(devices[..|devices| - 1]);
    }
  }

  ghost predicate Balanced(u: Sim, sent: seq<Output>, devices: nat) {
    DeviceCount(u.devices) + Removals(sent) == devices
  }

  /** Removals balance: at any time the count is the initial number of devices less the removals sent. */
  lemma {:induction false} CountBalance(s: Sim, events: seq<Event>)
    requires Fresh(s)
    ensures Balanced(Run(s, events), Sent(s, events), |s.devices|)
  {
    if events == [] {
      AllActive(s.devices);
    } else {
      var init, e := events[..|events| - 1], events[|events| - 1];
      CountBalance(s, init);
      NextBalanced(Run(s, init), Sent(s, init), e, |s.devices|);
    }
  }

  lemma NextBalanced(u: Sim, sent: seq<Output>, e: Event, devices: nat)
    requires Balanced(u, sent, devices)
    ensures Balanced(Next(u, e), sent + Outputs(u, e), devices)
  {
    RemovalsConcat(sent, Outputs(u, e));
    NextRemovals(u, e);
  }

  /** So every heartbeat says how many devices the hub has not yet been told to forget. */
  lemma HeartbeatTells(s: Sim, events: seq<Event>)
    requires Fresh(s)
    ensures Tells(Run(s, events), Sent(s, events), |s.devices|)
  {
    CountBalance(s, events);
    BalanceTells(Run(s, events), Sent(s, events), |s.devices|);
  }

  /** A heartbeat would count the devices that have not been reported as removed. */
  ghost predicate Tells(u: Sim, sent: seq<Output>, devices: nat) {
    Removals(sent) <= devices && Outputs(u, Beat) == [Heartbeat(devices - Removals(sent))]
  }

  lemma BalanceTells(u: Sim, sent: seq<Output>, devices: nat)
    requires Balanced(u, sent, devices)
    ensures Tells(u, sent, devices)
  {
  }

  // ------------------------------------------------------------------ going offline

  /** Where a device is after `tick` sweeps. */
  ghost predicate OnSchedule(d: Device, tick: nat) {
    match d.offlineAt
    case None => d.lifecycle.Active?
    case Some(a) =>
      d.lifecycle == if tick <= a then Active
                     else if tick <= a + REMOVE_AFTER_SILENT_TICKS then Silent(a)
                     else Removed
  }

  lemma {:induction false} Schedule(s: Sim, events: seq<Event>, dev: nat)
    requires Fresh(s) && dev < |s.devices|
    ensures |Run(s, events).devices| == |s.devices|
    ensures OnSchedule(Run(s, events).devices[dev], Run(s, events).tick)
    ensures Run(s, events).devices[dev].offlineAt == s.devices[dev].offlineAt
  {
    SameDevices(s, events);
    if events != [] {
      Schedule(s, events[..|events| - 1], dev);
    }
  }

  /**
   The exact timeline: a device that goes offline at `a` is sampled in the sweeps before, says
   nothing in the next six, is removed in the one after, and never heard of again. Any other
   device is sampled in every sweep.
   */
  lemma SweepOfDevice(s: Sim, events: seq<Event>, draws: seq<real>, dev: nat)
    requires Fresh(s) && dev < |s.devices|
    ensures var u, a := Run(s, events), s.devices[dev].offlineAt;
            var ms := SentBy(Outputs(u, Sweep(draws)), dev);
            && (a.None? || u.tick < a.value ==> exists k :: 0 <= k < |ms| && ms[k].StatusSent?)
            && (a.Some? && a.value <= u.tick ==>
                  ms == if u.tick == a.value + REMOVE_AFTER_SILENT_TICKS then [RemovedSent] else [])
  {
    var u, a := Run(s, events), s.devices[dev].offlineAt;
    Schedule(s, events, dev);
    SentBySweep(u, draws, dev);
    if a.None? || u.tick < a.value {
      SampledIsHeard(u.devices[dev], u.tick, u.settings, DrawOf(draws, dev));
    }
  }

  lemma SampledIsHeard(d: Device, t: nat, limits: Settings, draw: real)
    ensures var ms := SampleDevice(d, t, limits, draw).1; exists k :: 0 <= k < |ms| && ms[k].StatusSent?
  {
    var (after, ms) := SampleDevice(d, t, limits, draw);
    var k := if Rank(after.status) > Rank(d.status) then 1 else 0;
    assert ms[k].StatusSent?;
  }

  // ------------------------------------------------------------------ alerts

  /** An alert states the temperature of the status behind it, which exceeds the threshold it names. */
  lemma AlertsAreTrue(d: Device, t: nat, limits: Settings, draw: real, k: nat)
    requires var ms := StepDevice(d, t, limits, draw).1; k < |ms| && ms[k].AlertSent?
    ensures var (after, ms) := StepDevice(d, t, limits, draw);
            && k + 1 < |ms| && ms[k + 1] == StatusSent(after.status, ms[k].value)
            && ms[k].value > ms[k].threshold
            && ms[k].threshold == (if ms[k].critical then limits.critical else limits.warning)
            && Rank(after.status) > Rank(d.status)
  {
  }

  // ------------------------------------------------------------------ steady devices

  lemma RoundMonotone(x: real, y: real)
    requires x <= y
    ensures Round2(x) <= Round2(y)
  {
    assert RoundToInt(x * 100.0) <= RoundToInt(y * 100.0);
  }

  predicate Within(w: Walk) { w.min <= w.value <= w.max }

  /** A generator stays in its range, and a ceiling is kept. */
  lemma WalkStaysWithin(w: Walk, ceiling: real, noise: real)
    requires w.min <= w.max
    ensures Within(NextWalk(w, noise)) && NextWalk(w, noise).max == w.max
    ensures Within(WithCeiling(w, ceiling)) && WithCeiling(w, ceiling).max <= ceiling
  {
  }

  /** No configuration in the run brings a threshold below `bound`. */
  ghost predicate CalmConfig(events: seq<Event>, bound: real) {
    forall k :: 0 <= k < |events| && events[k].Configure? ==>
      && (events[k].warning.Some? ==> bound <= events[k].warning.value)
      && (events[k].critical.Some? ==> bound <= events[k].critical.value)
  }

  ghost predicate Calm(d: Device, max: real) {
    d.status.Healthy? && d.model.Walking? && Within(d.model.walk) && d.model.walk.max == max
  }

  lemma CalmSample(d: Device, t: nat, limits: Settings, draw: real, max: real)
    requires Calm(d, max) && Round2(max) <= limits.warning && Round2(max) <= limits.critical
    ensures var (after, ms) := SampleDevice(d, t, limits, draw); Calm(after, max) && ms == [StatusOf(after)]
  {
    var next := NextWalk(d.model.walk, draw);
    WalkStaysWithin(d.model.walk, max, draw);
    RoundMonotone(next.value, max);
    var (after, ms) := SampleDevice(d, t, limits, draw);
    assert after.status == Healthy;
    assert [] + [StatusOf(after)] + [] == [StatusOf(after)];
  }

  /** A walking device is never the subject of an alert while the thresholds stay above its range. */
  lemma {:induction false} SteadyNeverAlerts(s: Sim, events: seq<Event>, dev: nat, max: real)
    requires Fresh(s) && dev < |s.devices| && Calm(s.devices[dev], max)
    requires Round2(max) <= s.settings.warning && Round2(max) <= s.settings.critical && CalmConfig(events, Round2(max))
    ensures |Run(s, events).devices| == |s.devices| && Calm(Run(s, events).devices[dev], max)
    ensures Round2(max) <= Run(s, events).settings.warning && Round2(max) <= Run(s, events).settings.critical
    ensures forall k :: 0 <= k < |SentBy(Sent(s, events), dev)| ==> !SentBy(Sent(s, events), dev)[k].AlertSent?
  {
    SameDevices(s, events);
    if events != [] {
      var init, e := events[..|events| - 1], events[|events| - 1];
      assert forall k :: 0 <= k < |init| ==> init[k] == events[k];
      SteadyNeverAlerts(s, init, dev, max);
      SentByConcat(Sent(s, init), Outputs(Run(s, init), e), dev);
      NextIsCalm(Run(s, init), e, dev, max);
    }
  }

  lemma NextIsCalm(s: Sim, e: Event, dev: nat, max: real)
    requires dev < |s.devices| && Calm(s.devices[dev], max)
    requires Round2(max) <= s.settings.warning && Round2(max) <= s.settings.critical
    ensures Calm(Next(s, e).devices[dev], max)
    ensures var ms := SentBy(Outputs(s, e), dev); forall k :: 0 <= k < |ms| ==> !ms[k].AlertSent?
  {
    match e
    case Sweep(draws) =>
      SentBySweep(s, draws, dev);
      if s.devices[dev].lifecycle.Active? {
        CalmSample(s.devices[dev], s.tick, s.settings, DrawOf(draws, dev), max);
      }
    case Configure(_, _, _) =>
    case Snapshot => SentBySnapshot(s, |s.devices|, dev);
    case Beat => assert Outputs(s, e)[..0] == [];
  }

  // ------------------------------------------------------------------ predictions

  /** A prediction names a time that is still to come, with a probability from 0.5 to 0.95. */
  lemma PredictionInRange(start: real, rate: real, temperature: real, limits: Settings)
    requires temperature < limits.critical && rate > 0.0 && limits.interval > 0.0
    ensures var m := RampPrediction(start, rate, temperature, limits);
            0.5 <= m.probability <= 0.95 && m.etaMinutes.Some? && m.etaMinutes.value >= 1
  {
    var span := Max(limits.critical - start, 1.0);
    var progress := Clamp((temperature - start) / span, 0.0, 1.0);
    RoundMonotone(0.5, 0.5 + 0.45 * progress);
    RoundMonotone(0.5 + 0.45 * progress, 0.95);
    assert Round2(0.5) == 0.5 && Round2(0.95) == 0.95;
    var x := (limits.critical - temperature) / rate * limits.interval / 60.0;
    assert x > 0.0 by {
      assert (limits.critical - temperature) / rate > 0.0;
      assert (limits.critical - temperature) / rate * limits.interval > 0.0;
    }
    assert (-x).Floor < 0;
  }
}
