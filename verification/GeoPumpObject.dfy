/** The pump as the page keeps it: one record of mutable fields, and the coroutine's call in flight. */
module GeoPumpObject {
  import opened Basics
  import opened GeoPump

  lemma BusyIsCalling(events: seq<Event>)
    requires Run(events).busy
    ensures Calling(Run(events))
  {
    RunInv(events);
  }

  class GeoRecord {
    var want: Option<Geo>
    var applied: string
    var busy: bool
    var failed: Option<Geo>
    var asked: seq<Geo>
    var calls: seq<Geo>
    var outcomes: seq<bool>
    ghost var trace: seq<Event>

    ghost function View(): State
      reads this
    {
      State(want, applied, busy, failed, asked, calls, outcomes)
    }

    /** Every object is the state of a run. */
    ghost predicate Valid()
      reads this
    {
      View() == Run(trace)
    }

    constructor ()
      ensures Valid() && View() == INIT
    {
      want, applied, busy, failed := None, "", false, None;
      asked, calls, outcomes := [], [], [];
      trace := [];
    }

    ghost method Log(e: Event)
      requires Valid()
      modifies this`trace
      ensures trace == old(trace) + [e]
      ensures Run(trace) == Step(View(), e)
    {
      AfterSnoc(INIT, trace, e);
      trace := trace + [e];
    }

    method RequestGeo(mode: string, h: real)
      requires Valid()
      modifies this
      ensures Valid() && trace == old(trace) + [Request(mode, h)]
      ensures View() == Step(old(View()), Request(mode, h))
    {
      Log(Request(mode, h));
      AskFor(Geo(mode, Round(h)));
    }

    method AskFor(g: Geo)
      modifies this`want, this`asked, this`busy, this`calls
      ensures View() == Ask(old(View()), g)
    {
      want := Some(g);
      asked := asked + [g];
      PumpGeo();
    }

    /** Up to the call to the host; what follows its reply is `Reply`. */
    method PumpGeo()
      modifies this`want, this`busy, this`calls
      ensures View() == Pump(old(View()))
    {
      if busy || want.None? {
        return;
      }
      var g := want.value;
      want := None;
      if Key(g) == applied {
        return;
      }
      busy := true;
      calls := calls + [g];
    }

    /** The rest of the coroutine, from the host's reply on. */
    method Reply(ok: bool)
      requires Valid() && busy
      modifies this
      ensures Valid() && trace == old(trace) + [if ok then HostOk else HostFail]
      ensures View() == Step(old(View()), if ok then HostOk else HostFail)
    {
      ghost var e := if ok then HostOk else HostFail;
      BusyIsCalling(trace);
      Log(e);
      Settle(ok);
      if want.Some? {
        PumpGeo();
      }
    }

    /** What the reply says of the geometry that was asked for. */
    method Settle(ok: bool)
      requires busy && calls != []
      modifies this`applied, this`failed, this`outcomes, this`busy
      ensures View() == Replied(old(View()), ok)
    {
      var g := calls[|calls| - 1];
      if ok {
        applied := Key(g);
        failed := None;
      } else {
        applied := "";
        failed := Some(g);
      }
      outcomes := outcomes + [ok];
      busy := false;
    }

    /** At the end of every poll. */
    method RetryFailed()
      requires Valid()
      modifies this
      ensures Valid() && trace == old(trace) + [Retry]
      ensures View() == Step(old(View()), Retry)
    {
      Log(Retry);
      if failed.Some? && want.None? {
        AskFor(failed.value);
      }
    }
  }
}
