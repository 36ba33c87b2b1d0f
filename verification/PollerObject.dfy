/** The poller object. The fetches and timers it has started belong to the environment. */
module PollerObject {
  import opened Basics
  import opened Poller

  class PollerTask {
    var running: bool
    var timer: Option<nat>
    var ctrl: Option<nat>
    var inFlight: Option<nat>
    var again: bool
    var lastJson: string
    var res: Res
    var fetches: map<nat, Fetch>
    var pending: set<nat>
    var nextId: nat
    ghost var trace: seq<Event>

    ghost function View(): State
      reads this
    {
      State(running, timer, ctrl, inFlight, again, lastJson, res, fetches, pending, nextId)
    }

    /** Every object is the state of a run. */
    ghost predicate Valid()
      reads this
    {
      View() == Run(trace)
    }

    constructor ()
      ensures Valid() && View() == INIT
    {
      running, timer, ctrl, inFlight, again := false, None, None, None, false;
      lastJson, res := "", Res(None, None, None, false, true);
      fetches, pending, nextId := map[], {}, 0;
      trace := [];
    }

    ghost method Log(e: Event)
      requires Valid()
      modifies this`trace
      ensures trace == old(trace) + [e]
      ensures Run(trace) == Step(View(), e)
    {
      AfterSnoc(INIT, trace, e);
      trace := trace + [e];
    }

    method StartPolling()
      requires Valid()
      modifies this
      ensures Valid() && trace == old(trace) + [Start]
      ensures View() == Step(old(View()), Start)
    {
      Log(Start);
      if running {
        return;
      }
      running := true;
      RunFetch();
    }

    method StopPolling()
      requires Valid()
      modifies this
      ensures Valid() && trace == old(trace) + [Stop]
      ensures View() == Step(old(View()), Stop)
    {
      Log(Stop);
      running := false;
      CancelTimer();
      if ctrl.Some? {
        fetches := Abort(fetches, ctrl.value);
      }
      ctrl := None;
    }

    method RefreshNow()
      requires Valid()
      modifies this
      ensures Valid() && trace == old(trace) + [Refresh]
      ensures View() == Step(old(View()), Refresh)
      ensures old(inFlight).None? ==>
                timer.None? && inFlight.Some? && inFlight.value == old(nextId)
                && fetches == old(fetches)[inFlight.value := Fetch(false, false)]
      ensures old(inFlight).Some? ==> again && fetches == old(fetches) && timer == old(timer)
    {
      Log(Refresh);
      if inFlight.Some? {
        again := true;
        return;
      }
      RunFetch();
    }

    method CancelTimer()
      modifies this`timer, this`pending
      ensures View() == ClearTimer(old(View()))
    {
      if timer.Some? {
        pending := pending - {timer.value};
      }
      timer := None;
    }

    method RunFetch()
      modifies this`timer, this`pending, this`ctrl, this`inFlight, this`fetches, this`nextId
      ensures View() == StartFetch(old(View()))
    {
      CancelTimer();
      ctrl := Some(nextId);
      inFlight := Some(nextId);
      fetches := fetches[nextId := Fetch(false, false)];
      nextId := nextId + 1;
    }

    method ScheduleNext()
      modifies this`timer, this`pending, this`nextId
      ensures View() == Schedule(old(View()))
    {
      if !running {
        return;
      }
      timer := Some(nextId);
      pending := pending + {nextId};
      nextId := nextId + 1;
    }

    method OnTimer(timerId: nat)
      requires Valid() && timerId in pending
      modifies this
      ensures Valid() && trace == old(trace) + [Fire(timerId)]
      ensures View() == Step(old(View()), Fire(timerId))
    {
      Log(Fire(timerId));
      pending := pending - {timerId};
      RunFetch();
    }

    method OnResponse(id: nat, data: Payload, now: int)
      requires Valid() && Awaited(View(), id)
      modifies this
      ensures Valid() && trace == old(trace) + [Resolve(id, data, now)]
      ensures View() == Step(old(View()), Resolve(id, data, now))
    {
      Log(Resolve(id, data, now));
      var aborted := fetches[id].aborted;
      fetches := fetches[id := fetches[id].(settled := true)];
      if aborted {
        return;
      }
      var same := data.json == lastJson;
      lastJson := data.json;
      res := Res(if same && res.data.Some? then res.data else Some(data), None, Some(now), false, false);
    }

    method OnError(id: nat, error: string, isAbortError: bool)
      requires Valid() && Awaited(View(), id)
      modifies this
      ensures Valid() && trace == old(trace) + [Reject(id, error, isAbortError)]
      ensures View() == Step(old(View()), Reject(id, error, isAbortError))
    {
      Log(Reject(id, error, isAbortError));
      var aborted := fetches[id].aborted;
      fetches := fetches[id := fetches[id].(settled := true)];
      if aborted || isAbortError {
        return;
      }
      res := res.(error := Some(error), stale := res.data.Some?, loading := false);
    }

    method OnFinally(id: nat)
      requires Valid() && id in fetches && fetches[id].settled
      modifies this
      ensures Valid() && trace == old(trace) + [Finally(id)]
      ensures View() == Step(old(View()), Finally(id))
    {
      Log(Finally(id));
      var aborted := fetches[id].aborted;
      fetches := fetches - {id};
      if inFlight == Some(id) {
        inFlight := None;
      }
      if ctrl == Some(id) {
        ctrl := None;
      }
      if aborted {
        return;
      }
      if again {
        again := false;
        if running {
          RunFetch();
        }
        return;
      }
      ScheduleNext();
    }
  }
}
