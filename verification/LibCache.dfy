/**
 The process-wide library cache (crates/nimon-ni/src/common.rs:173-226): double-checked locking
 with a timed negative cache, for any number of threads.

 What happens between taking the lock and calling `load`, and between its return and the release,
 touches only state that the lock protects, and is one step each.
 */
module LibCache {
  import opened Basics

  datatype Lib = Lib(handle: nat)

  /** A thread inside `get_or_load`: past the first look at `ok`, or running `load` under the lock. */
  datatype Phase = Waiting | Loading

  datatype Ending = Succeeded(lib: Lib) | Failed(at: int, message: string) | Panicked

  /** One run of `load`. */
  datatype Load = Load(start: int, ending: Option<Ending>)

  datatype Answer = Got(lib: Lib) | Refused(message: string) | InitialisationFailed

  datatype State = State(
    ok: Option<Lib>,
    failure: Option<(int, string)>,
    holder: Option<nat>,
    threads: map<nat, Phase>,
    now: int,
    loads: seq<Load>,              // every run of `load` so far
    answers: seq<(nat, Answer)>)   // every return so far

  datatype Event =
    | Call(t: nat)
    | Acquire(t: nat)
    | LoadOk(t: nat, lib: Lib)
    | LoadErr(t: nat, message: string)
    | LoadPanic(t: nat)
    | Tick(d: nat)

  function Init(now: int): State { State(None, None, None, map[], now, [], []) }

  /** An event that is not possible in `s` leaves it unchanged. */
  function Step(retry: nat, s: State, e: Event): State {
    match e
    case Call(t) =>
      if t in s.threads then s
      else if s.ok.Some? then Answered(s, t, Got(s.ok.value))
      else s.(threads := s.threads[t := Waiting])
    case Acquire(t) =>
      if !(t in s.threads && s.threads[t].Waiting? && s.holder.None?) then s
      else if s.ok.Some? then Answered(s, t, Got(s.ok.value))
      else if s.failure.Some? && s.now - s.failure.value.0 < retry then Answered(s, t, Refused(s.failure.value.1))
      else s.(holder := Some(t), threads := s.threads[t := Loading], loads := s.loads + [Load(s.now, None)])
    case LoadOk(t, lib) =>
      if !Runs(s, t) then s
      else
        var ok := if s.ok.Some? then s.ok else Some(lib);
        Answered(Ended(s, Succeeded(lib)).(failure := None, ok := ok), t,
                 if ok.Some? then Got(ok.value) else InitialisationFailed)
    case LoadErr(t, message) =>
      if !Runs(s, t) then s
      else Answered(Ended(s, Failed(s.now, message)).(failure := Some((s.now, message))), t, Refused(message))
    case LoadPanic(t) =>
      if !Runs(s, t) then s
      else var e := Ended(s, Panicked); e.(threads := e.threads - {t})
    case Tick(d) => s.(now := s.now + d)
  }

  predicate Runs(s: State, t: nat) { t in s.threads && s.threads[t].Loading? && s.holder == Some(t) && s.loads != [] }

  function Answered(s: State, t: nat, a: Answer): State {
    s.(threads := s.threads - {t}, answers := s.answers + [(t, a)])
  }

  /** The lock is released, also by a panic: later lockers take a poisoned lock all the same. */
  function Ended(s: State, ending: Ending): State
    requires s.loads != []
  {
    var n := |s.loads| - 1;
    s.(holder := None, loads := s.loads[n := s.loads[n].(ending := Some(ending))])
  }

  function After(retry: nat, s: State, events: seq<Event>): State {
    if events == [] then s else Step(retry, After(retry, s, events[..|events| - 1]), events[|events| - 1])
  }

  lemma AfterSnoc(retry: nat, s: State, events: seq<Event>, e: Event)
    ensures After(retry, s, events + [e]) == Step(retry, After(retry, s, events), e)
  {
    assert (events + [e])[..|events|] == events;
  }

  // ------------------------------------------------------------------ the invariant

  /** The holder of the lock is the one thread that runs `load`, and its run is the last one started. */
  ghost predicate OneLoader(s: State) {
    && (forall t | t in s.threads :: s.threads[t].Loading? <==> s.holder == Some(t))
    && (s.holder.Some? ==> s.holder.value in s.threads)
    && (s.holder.Some? <==> s.loads != [] && s.loads[|s.loads| - 1].ending.None?)
    && (forall i :: 0 <= i < |s.loads| - 1 ==> s.loads[i].ending.Some?)
  }

  predicate Success(l: Load) { l.ending.Some? && l.ending.value.Succeeded? }

  predicate Failure(l: Load) { l.ending.Some? && l.ending.value.Failed? }

  /** A successful run is the last one, and its library is the cached one. */
  ghost predicate SuccessIsFinal(s: State) {
    && (forall i :: 0 <= i < |s.loads| && Success(s.loads[i]) ==>
          i == |s.loads| - 1 && s.ok == Some(s.loads[i].ending.value.lib))
    && (s.ok.Some? ==> s.loads != [] && Success(s.loads[|s.loads| - 1]))
  }

  /** No run starts within `retry` of the end of a failed one. */
  ghost predicate Spaced(retry: nat, s: State) {
    forall i, j :: 0 <= i < j < |s.loads| && Failure(s.loads[i]) ==>
      s.loads[j].start >= s.loads[i].ending.value.at + retry
  }

  /** The negative cache holds the last failure, as long as nothing has been loaded. */
  ghost predicate FailureCached(s: State) {
    && (s.failure.Some? ==>
          exists i :: 0 <= i < |s.loads| && s.loads[i].ending == Some(Failed(s.failure.value.0, s.failure.value.1)))
    && (s.ok.None? ==> forall i :: 0 <= i < |s.loads| && Failure(s.loads[i]) ==>
          s.failure.Some? && s.loads[i].ending.value.at <= s.failure.value.0 <= s.now)
  }

  /** What callers have been told: the one library, or the message of a failed run. */
  ghost predicate Truthful(s: State, a: Answer) {
    match a
    case Got(lib) => s.ok == Some(lib)
    case Refused(message) =>
      exists i :: 0 <= i < |s.loads| && Failure(s.loads[i]) && s.loads[i].ending.value.message == message
    case InitialisationFailed => false
  }

  ghost predicate AllTruthful(s: State) { forall i :: 0 <= i < |s.answers| ==> Truthful(s, s.answers[i].1) }

  ghost predicate Inv(retry: nat, s: State) {
    OneLoader(s) && SuccessIsFinal(s) && Spaced(retry, s) && FailureCached(s) && AllTruthful(s)
  }

  lemma AnsweredKeepsInv(retry: nat, s: State, t: nat, a: Answer)
    requires Inv(retry, s) && Truthful(s, a)
    requires s.holder != Some(t)
    ensures Inv(retry, Answered(s, t, a))
  {
    var u := Answered(s, t, a);
    forall i | 0 <= i < |u.answers|
      ensures Truthful(u, u.answers[i].1)
    {
      assert i < |s.answers| ==> u.answers[i] == s.answers[i];
    }
  }

  lemma CallKeepsInv(retry: nat, s: State, t: nat)
    requires Inv(retry, s)
    ensures Inv(retry, Step(retry, s, Call(t)))
  {
    if t !in s.threads && s.ok.Some? {
      AnsweredKeepsInv(retry, s, t, Got(s.ok.value));
    } else {
      SameAnswers(s, Step(retry, s, Call(t)));
    }
  }

  /** Answers stay truthful while runs are only added or ended, and the library stays. */
  lemma SameAnswers(s: State, u: State)
    requires AllTruthful(s) && u.answers == s.answers
    requires s.ok.Some? ==> u.ok == s.ok
    requires |s.loads| <= |u.loads|
    requires forall i :: 0 <= i < |s.loads| && s.loads[i].ending.Some? ==> u.loads[i] == s.loads[i]
    ensures AllTruthful(u)
  {
    forall k | 0 <= k < |u.answers|
      ensures Truthful(u, u.answers[k].1)
    {
      assert Truthful(s, s.answers[k].1);
    }
  }

  lemma AcquireKeepsInv(retry: nat, s: State, t: nat)
    requires Inv(retry, s) && t in s.threads && s.threads[t].Waiting? && s.holder.None?
    ensures Inv(retry, Step(retry, s, Acquire(t)))
  {
    if s.ok.Some? {
      AnsweredKeepsInv(retry, s, t, Got(s.ok.value));
    } else if s.failure.Some? && s.now - s.failure.value.0 < retry {
      AnsweredKeepsInv(retry, s, t, Refused(s.failure.value.1));
    } else {
      var u := Step(retry, s, Acquire(t));
      SameAnswers(s, u);
      assert forall i :: 0 <= i < |s.loads| ==> u.loads[i] == s.loads[i];
    }
  }

  lemma EndedKeepsRest(retry: nat, s: State, ending: Ending, u: State)
    requires Inv(retry, s) && s.holder.Some?
    requires ending.Failed? ==> ending.at == s.now
    requires u.loads == Ended(s, ending).loads && u.answers == s.answers && u.now == s.now
    requires u.ok == if ending.Succeeded? then Some(ending.lib) else None
    ensures s.ok.None? && SuccessIsFinal(u) && Spaced(retry, u) && AllTruthful(u)
    ensures |u.loads| == |s.loads| && u.loads[|s.loads| - 1].ending == Some(ending)
    ensures forall i :: 0 <= i < |s.loads| - 1 ==> u.loads[i] == s.loads[i]
  {
    SameAnswers(s, u);
  }

  lemma LoadOkKeepsInv(retry: nat, s: State, t: nat, lib: Lib)
    requires Inv(retry, s) && Runs(s, t)
    ensures Inv(retry, Step(retry, s, LoadOk(t, lib)))
  {
    var u := Ended(s, Succeeded(lib)).(failure := None, ok := Some(lib), threads := s.threads - {t});
    EndedKeepsRest(retry, s, Succeeded(lib), u);
    AnsweredKeepsInv(retry, u, t, Got(lib));
    assert Answered(u, t, Got(lib)).threads == s.threads - {t};
  }

  lemma LoadErrKeepsInv(retry: nat, s: State, t: nat, message: string)
    requires Inv(retry, s) && Runs(s, t)
    ensures Inv(retry, Step(retry, s, LoadErr(t, message)))
  {
    var ending := Failed(s.now, message);
    var u := Ended(s, ending).(failure := Some((s.now, message)), threads := s.threads - {t});
    EndedKeepsRest(retry, s, ending, u);
    assert u.loads[|s.loads| - 1].ending == Some(ending);
    AnsweredKeepsInv(retry, u, t, Refused(message));
    assert Answered(u, t, Refused(message)).threads == s.threads - {t};
  }

  lemma LoadPanicKeepsInv(retry: nat, s: State, t: nat)
    requires Inv(retry, s) && Runs(s, t)
    ensures Inv(retry, Step(retry, s, LoadPanic(t)))
  {
    var u := Step(retry, s, LoadPanic(t));
    EndedKeepsRest(retry, s, Panicked, u);
    if s.failure.Some? {
      var i :| 0 <= i < |s.loads| && s.loads[i].ending == Some(Failed(s.failure.value.0, s.failure.value.1));
      assert u.loads[i] == s.loads[i];
    }
  }

  lemma StepKeepsInv(retry: nat, s: State, e: Event)
    requires Inv(retry, s)
    ensures Inv(retry, Step(retry, s, e))
  {
    match e
    case Call(t) => CallKeepsInv(retry, s, t);
    case Acquire(t) =>
      if t in s.threads && s.threads[t].Waiting? && s.holder.None? {
        AcquireKeepsInv(retry, s, t);
      }
    case LoadOk(t, lib) =>
      if Runs(s, t) {
        LoadOkKeepsInv(retry, s, t, lib);
      }
    case LoadErr(t, message) =>
      if Runs(s, t) {
        LoadErrKeepsInv(retry, s, t, message);
      }
    case LoadPanic(t) =>
      if Runs(s, t) {
        LoadPanicKeepsInv(retry, s, t);
      }
    case Tick(d) => SameAnswers(s, s.(now := s.now + d));
  }

  lemma {:induction false} RunInv(retry: nat, now: int, events: seq<Event>)
    ensures Inv(retry, After(retry, Init(now), events))
  {
    if events != [] {
      RunInv(retry, now, events[..|events| - 1]);
      StepKeepsInv(retry, After(retry, Init(now), events[..|events| - 1]), events[|events| - 1]);
    }
  }

  // ------------------------------------------------------------------ what it means for callers

  /** Runs of `load` never overlap: all but the last have ended. */
  ghost predicate OneAtATime(s: State) {
    && (forall i :: 0 <= i < |s.loads| - 1 ==> s.loads[i].ending.Some?)
    && (forall t, u | t in s.threads && u in s.threads :: s.threads[t].Loading? && s.threads[u].Loading? ==> t == u)
  }

  /**
   In every run of any number of threads: loads do not overlap, none follows a success, none
   starts within `retry` of the end of a failed one, every caller that gets a library gets the
   same one, and the initialisation error is never returned.
   */
  lemma EveryRun(retry: nat, now: int, events: seq<Event>)
    ensures var s := After(retry, Init(now), events);
            && OneAtATime(s)
            && (forall i :: 0 <= i < |s.loads| - 1 ==> !Success(s.loads[i]))
            && Spaced(retry, s)
            && (forall i, j :: && 0 <= i < |s.answers| && 0 <= j < |s.answers|
                               && s.answers[i].1.Got? && s.answers[j].1.Got? ==>
                  s.answers[i].1 == s.answers[j].1)
            && (forall i :: 0 <= i < |s.answers| ==> !s.answers[i].1.InitialisationFailed?)
  {
    RunInv(retry, now, events);
    var s := After(retry, Init(now), events);
    forall i | 0 <= i < |s.answers|
      ensures !s.answers[i].1.InitialisationFailed?
      ensures s.answers[i].1.Got? ==> s.ok == Some(s.answers[i].1.lib)
    {
      assert Truthful(s, s.answers[i].1);
    }
  }

  /** `retry` has passed since every failed run. */
  ghost predicate FailuresExpired(retry: nat, s: State) {
    forall i :: 0 <= i < |s.loads| && Failure(s.loads[i]) ==> s.now >= s.loads[i].ending.value.at + retry
  }

  /** With the lock in hand, a thread loads exactly when no run has succeeded and every failure has expired. */
  lemma LoadsIff(retry: nat, s: State, t: nat)
    requires Inv(retry, s) && t in s.threads && s.threads[t].Waiting? && s.holder.None?
    ensures |Step(retry, s, Acquire(t)).loads| == |s.loads| + 1 <==>
            (forall i :: 0 <= i < |s.loads| ==> !Success(s.loads[i])) && FailuresExpired(retry, s)
  {
    if s.ok.None? && s.failure.Some? {
      var i :| 0 <= i < |s.loads| && s.loads[i].ending == Some(Failed(s.failure.value.0, s.failure.value.1));
      assert Failure(s.loads[i]);
    }
  }

  /** A panic is not cached: the next thread loads at once, even at the same instant. */
  lemma PanicIsNotCached(retry: nat, s: State, t: nat, u: nat)
    requires Inv(retry, s) && Runs(s, t) && u in s.threads && u != t
    ensures var p := Step(retry, s, LoadPanic(t));
            |Step(retry, p, Acquire(u)).loads| == |s.loads| + 1 <==> FailuresExpired(retry, p)
  {
    var p := Step(retry, s, LoadPanic(t));
    LoadPanicKeepsInv(retry, s, t);
    LoadsIff(retry, p, u);
    assert forall i :: 0 <= i < |p.loads| ==> !Success(p.loads[i]);
  }
}
