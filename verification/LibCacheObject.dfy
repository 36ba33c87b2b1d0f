/** The cache object: what is shared between threads, and what each thread does with it. */
module LibCacheObject {
  import opened Basics
  import opened LibCache

  class Cache {
    const retry: nat
    const born: int
    var ok: Option<Lib>
    var failure: Option<(int, string)>
    var holder: Option<nat>
    var threads: map<nat, Phase>
    var now: int
    var loads: seq<Load>
    var answers: seq<(nat, Answer)>
    ghost var trace: seq<Event>

    ghost function View(): State
      reads this
    {
      State(ok, failure, holder, threads, now, loads, answers)
    }

    /** Every object is the state of a run. */
    ghost predicate Valid()
      reads this
    {
      View() == After(retry, Init(born), trace)
    }

    constructor (retry: nat, now: int)
      ensures Valid() && View() == Init(now) && this.retry == retry
    {
      this.retry, this.born, this.now := retry, now, now;
      ok, failure, holder, threads := None, None, None, map[];
      loads, answers := [], [];
      trace := [];
    }

    ghost method Log(e: Event)
      requires Valid()
      modifies this`trace
      ensures trace == old(trace) + [e]
      ensures After(retry, Init(born), trace) == Step(retry, View(), e)
    {
      AfterSnoc(retry, Init(born), trace, e);
      trace := trace + [e];
    }

    method Return(t: nat, a: Answer)
      modifies this`threads, this`answers
      ensures View() == Answered(old(View()), t, a)
    {
      threads := threads - {t};
      answers := answers + [(t, a)];
    }

    /** The look at `ok` before the lock. */
    method Begin(t: nat)
      requires Valid() && t !in threads
      modifies this
      ensures Valid() && trace == old(trace) + [Call(t)]
      ensures View() == Step(retry, old(View()), Call(t))
    {
      Log(Call(t));
      if ok.Some? {
        Return(t, Got(ok.value));
      } else {
        threads := threads[t := Waiting];
      }
    }

    /** The lock is granted: look again, honour a fresh failure, or start to load. */
    method Enter(t: nat)
      requires Valid() && t in threads && threads[t].Waiting? && holder.None?
      modifies this
      ensures Valid() && trace == old(trace) + [Acquire(t)]
      ensures View() == Step(retry, old(View()), Acquire(t))
    {
      Log(Acquire(t));
      if ok.Some? {
        Return(t, Got(ok.value));
        return;
      }
      if failure.Some? {
        var (at, message) := failure.value;
        if now - at < retry {
          Return(t, Refused(message));
          return;
        }
      }
      holder := Some(t);
      threads := threads[t := Loading];
      loads := loads + [Load(now, None)];
    }

    method Release(ending: Ending)
      requires loads != []
      modifies this`holder, this`loads
      ensures View() == Ended(old(View()), ending)
    {
      var n := |loads| - 1;
      loads := loads[n := loads[n].(ending := Some(ending))];
      holder := None;
    }

    /** `load` has returned a library: forget the failure, set `ok`, and hand out what `ok` holds. */
    method Succeed(t: nat, lib: Lib) returns (a: Answer)
      requires Valid() && Runs(View(), t)
      modifies this
      ensures Valid() && trace == old(trace) + [LoadOk(t, lib)]
      ensures View() == Step(retry, old(View()), LoadOk(t, lib))
      ensures a == Got(lib)
    {
      NothingCachedWhileLoading(retry, born, trace, t);
      Log(LoadOk(t, lib));
      failure := None;
      if ok.None? {
        ok := Some(lib);
      }
      a := if ok.Some? then Got(ok.value) else InitialisationFailed;
      Release(Succeeded(lib));
      Return(t, a);
    }

    method Fail(t: nat, message: string)
      requires Valid() && Runs(View(), t)
      modifies this
      ensures Valid() && trace == old(trace) + [LoadErr(t, message)]
      ensures View() == Step(retry, old(View()), LoadErr(t, message))
    {
      Log(LoadErr(t, message));
      failure := Some((now, message));
      Release(Failed(now, message));
      Return(t, Refused(message));
    }

    /** Unwinding drops the guard and nothing else. */
    method Unwind(t: nat)
      requires Valid() && Runs(View(), t)
      modifies this
      ensures Valid() && trace == old(trace) + [LoadPanic(t)]
      ensures View() == Step(retry, old(View()), LoadPanic(t))
    {
      Log(LoadPanic(t));
      Release(Panicked);
      threads := threads - {t};
    }

    method Elapse(d: nat)
      requires Valid()
      modifies this
      ensures Valid() && trace == old(trace) + [Tick(d)]
      ensures View() == Step(retry, old(View()), Tick(d))
    {
      Log(Tick(d));
      now := now + d;
    }
  }

  /** Whoever runs `load` will be the one to set `ok`. */
  lemma NothingCachedWhileLoading(retry: nat, born: int, events: seq<Event>, t: nat)
    requires Runs(After(retry, Init(born), events), t)
    ensures After(retry, Init(born), events).ok.None?
  {
    RunInv(retry, born, events);
  }
}
