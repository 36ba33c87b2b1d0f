/** The edge object of the simulator, swept in place. */
module SimulatorEdge {
  import opened Basics
  import opened Rules
  import opened Simulator

  class EdgeSim {
    var devices: seq<Device>
    var settings: Settings
    var tick: nat
    ghost const born: Sim
    ghost var trace: seq<Event>
    ghost var sent: seq<Output>

    ghost function View(): Sim
      reads this
    {
      Sim(devices, settings, tick)
    }

    /** Every object is the state of a run of a new edge, and has sent what that run sends. */
    ghost predicate Valid()
      reads this
    {
      Fresh(born) && View() == Run(born, trace) && sent == Sent(born, trace)
    }

    constructor (devices: seq<Device>, settings: Settings)
      requires forall i :: 0 <= i < |devices| ==> devices[i].lifecycle.Active? && devices[i].status.Healthy?
      ensures Valid() && View() == Sim(devices, settings, 0) == born && trace == []
    {
      this.devices, this.settings, this.tick := devices, settings, 0;
      born := Sim(devices, settings, 0);
      trace, sent := [], [];
    }

    ghost method Log(e: Event)
      requires Valid()
      modifies this`trace, this`sent
      ensures trace == old(trace) + [e] && sent == old(sent) + Outputs(View(), e)
      ensures Run(born, trace) == Next(View(), e) && sent == Sent(born, trace)
    {
      RunSnoc(born, trace, e);
      sent := sent + Outputs(View(), e);
      trace := trace + [e];
    }

    /** One sweep. */
    method Step(draws: seq<real>) returns (out: seq<Output>)
      requires Valid()
      modifies this
      ensures Valid() && trace == old(trace) + [Sweep(draws)] && sent == old(sent) + out
      ensures View() == Next(old(View()), Sweep(draws)) && out == Outputs(old(View()), Sweep(draws))
    {
      Log(Sweep(draws));
      out := SweepDevices(draws);
      tick := tick + 1;
    }

    /** The loop over the devices, each stepped in place. */
    method SweepDevices(draws: seq<real>) returns (out: seq<Output>)
      modifies this`devices
      ensures devices == Next(old(View()), Sweep(draws)).devices
      ensures out == Outputs(old(View()), Sweep(draws))
    {
      ghost var s := View();
      ghost var said, after := Said(s, draws), Next(s, Sweep(draws)).devices;
      out := [];
      for i := 0 to |devices|
        invariant |devices| == |after|
        invariant forall k :: 0 <= k < i ==> devices[k] == after[k]
        invariant forall k :: i <= k < |devices| ==> devices[k] == s.devices[k]
        invariant out == InTurn(said, i)
      {
        assert Stepped(s, draws, i) == (after[i], said[i]);
        var (d, messages) := StepDevice(devices[i], tick, settings, DrawOf(draws, i));
        devices := devices[i := d];
        out := out + All(i, messages);
      }
    }

    method ApplyConfig(warning: Option<real>, critical: Option<real>, pollIntervalSecs: Option<nat>)
      requires Valid()
      modifies this
      ensures Valid() && trace == old(trace) + [Configure(warning, critical, pollIntervalSecs)] && sent == old(sent)
      ensures View() == Next(old(View()), Configure(warning, critical, pollIntervalSecs))
    {
      Log(Configure(warning, critical, pollIntervalSecs));
      if warning.Some? {
        settings := settings.(warning := warning.value);
      }
      if critical.Some? {
        settings := settings.(critical := critical.value);
      }
      if pollIntervalSecs.Some? && pollIntervalSecs.value > 0 {
        settings := settings.(interval := pollIntervalSecs.value as real);
      }
    }

    method StateSnapshot() returns (out: seq<Output>)
      requires Valid()
      modifies this`trace, this`sent
      ensures Valid() && trace == old(trace) + [Snapshot] && sent == old(sent) + out
      ensures out == Outputs(View(), Snapshot)
    {
      Log(Snapshot);
      out := [Registered];
      for i := 0 to |devices|
        invariant out == SnapshotOutput(View(), i)
      {
        if devices[i].lifecycle.Active? {
          out := out + [About(i, StatusOf(devices[i]))];
        }
      }
    }

    method SendHeartbeat() returns (out: seq<Output>)
      requires Valid()
      modifies this`trace, this`sent
      ensures Valid() && trace == old(trace) + [Beat] && sent == old(sent) + out
      ensures Removals(sent) <= |born.devices| && out == [Heartbeat(|born.devices| - Removals(sent))]
    {
      HeartbeatTells(born, trace);
      ghost var before := trace;
      Log(Beat);
      var n := CountDevices();
      out := [Heartbeat(n)];
      CountBalance(born, before);
      CountBalance(born, trace);
    }

    method CountDevices() returns (n: nat)
      ensures n == DeviceCount(devices)
    {
      n := 0;
      for i := 0 to |devices|
        invariant n == DeviceCount(devices[..i])
      {
        CountSnoc(devices, i);
        if !devices[i].lifecycle.Removed? {
          n := n + 1;
        }
      }
      assert devices[..|devices|] == devices;
    }

    /** Silent devices are still there; removed ones are not. */
    method HasDevice(id: string) returns (has: bool)
      ensures has <==> exists i :: 0 <= i < |devices| && devices[i].id == id && !devices[i].lifecycle.Removed?
    {
      has := false;
      for i := 0 to |devices|
        invariant !has
        invariant forall k :: 0 <= k < i ==> devices[k].id != id || devices[k].lifecycle.Removed?
      {
        if devices[i].id == id && !devices[i].lifecycle.Removed? {
          return true;
        }
      }
    }
  }
}
