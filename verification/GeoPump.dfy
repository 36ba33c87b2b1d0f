/**
 The widget's geometry pump (crates/nimon-widget/ui/app.js:621-648): at most one
 `update_geometry` call at a time, requests coalesced while it runs, and a failed one asked for
 again by the next poll (app.js:750).
 */
module GeoPump {
  import opened Basics

  datatype Geo = Geo(mode: string, h: int)

  /** The nearest integer, the upper one of two. */
  function Round(x: real): (n: int)
    ensures n as real - 0.5 <= x < n as real + 0.5
  {
    (x + 0.5).Floor
  }

  function Signed(n: int): string { if n < 0 then "-" + Decimal(-n) else Decimal(n) }

  /** `mode:h`, the form in which geometries are compared. */
  function Key(g: Geo): string { g.mode + [':'] + Signed(g.h) }

  lemma SignedInjective(m: int, n: int)
    requires Signed(m) == Signed(n)
    ensures m == n
  {
    assert m < 0 <==> Signed(m)[0] == '-';
    assert n < 0 <==> Signed(n)[0] == '-';
    assert Signed(m)[1..] == Signed(n)[1..];
    if m < 0 {
      assert Signed(m)[1..] == Decimal(-m) && Signed(n)[1..] == Decimal(-n);
      DecimalInjective(-m, -n);
    } else {
      DecimalInjective(m, n);
    }
  }

  /** No two geometries share a key, whatever the mode is called. */
  lemma KeyInjective(a: Geo, b: Geo)
    requires Key(a) == Key(b)
    ensures a == b
  {
    SplitAtLast(a.mode, b.mode, ':', Signed(a.h), Signed(b.h));
    SignedInjective(a.h, b.h);
  }

  // ------------------------------------------------------------------ the pump

  datatype State = State(
    want: Option<Geo>,
    applied: string,
    busy: bool,
    failed: Option<Geo>,
    asked: seq<Geo>,     // every `requestGeo` so far
    calls: seq<Geo>,     // every `update_geometry` so far
    outcomes: seq<bool>) // which of them succeeded

  const INIT := State(None, "", false, None, [], [], [])

  datatype Event =
    | Request(mode: string, h: real) // the panel has been measured
    | Retry                          // a poll has been rendered
    | HostOk
    | HostFail

  /** An event that is not possible in `s` leaves it unchanged. */
  function Step(s: State, e: Event): State {
    match e
    case Request(mode, h) => Ask(s, Geo(mode, Round(h)))
    case Retry => if s.failed.Some? && s.want.None? then Ask(s, s.failed.value) else s
    case HostOk => if Calling(s) then Pump(Replied(s, true)) else s
    case HostFail => if Calling(s) then Pump(Replied(s, false)) else s
  }

  function Replied(s: State, ok: bool): State
    requires Calling(s)
  {
    if ok then s.(applied := Key(Flight(s)), failed := None, busy := false, outcomes := s.outcomes + [true])
    else s.(applied := "", failed := Some(Flight(s)), busy := false, outcomes := s.outcomes + [false])
  }

  predicate Calling(s: State) { s.busy && s.calls != [] }

  function Flight(s: State): Geo
    requires s.calls != []
  {
    s.calls[|s.calls| - 1]
  }

  function Ask(s: State, g: Geo): State { Pump(s.(want := Some(g), asked := s.asked + [g])) }

  function Pump(s: State): (t: State)
    ensures t.asked == s.asked
  {
    if s.busy || s.want.None? then s
    else if Key(s.want.value) == s.applied then s.(want := None)
    else s.(want := None, busy := true, calls := s.calls + [s.want.value])
  }

  function After(s: State, events: seq<Event>): State {
    if events == [] then s else Step(After(s, events[..|events| - 1]), events[|events| - 1])
  }

  function Run(events: seq<Event>): State { After(INIT, events) }

  lemma AfterSnoc(s: State, events: seq<Event>, e: Event)
    ensures After(s, events + [e]) == Step(After(s, events), e)
  {
    assert (events + [e])[..|events|] == events;
  }

  // ------------------------------------------------------------------ the invariant

  /** What the pump will have the window at, or keep trying for: waiting, in flight, failed or applied. */
  ghost function Target(s: State): Option<Geo> {
    if s.want.Some? then s.want
    else if s.busy && s.calls != [] then Some(Flight(s))
    else if s.failed.Some? then s.failed
    else if s.outcomes != [] && |s.outcomes| <= |s.calls| then Some(s.calls[|s.outcomes| - 1])
    else None
  }

  ghost predicate OneCall(s: State) {
    && |s.calls| == |s.outcomes| + (if s.busy then 1 else 0)
    && (s.want.Some? ==> s.busy)
  }

  /** `applied` and `failed` tell how the last finished call went. */
  ghost predicate LastOutcome(s: State) {
    && |s.outcomes| <= |s.calls|
    && var n := |s.outcomes|;
       if n == 0 then s.applied == "" && s.failed.None?
       else if s.outcomes[n - 1] then s.applied == Key(s.calls[n - 1]) && s.failed.None?
       else s.applied == "" && s.failed == Some(s.calls[n - 1])
  }

  ghost predicate LastAsked(s: State) {
    Target(s) == if s.asked == [] then None else Some(s.asked[|s.asked| - 1])
  }

  /** A geometry in force is not applied again. */
  ghost predicate NoRepeat(s: State) {
    forall i :: 0 <= i < |s.outcomes| && s.outcomes[i] ==> !Repeated(s.calls, i)
  }

  ghost predicate Repeated(calls: seq<Geo>, i: nat) { i + 1 < |calls| && calls[i + 1] == calls[i] }

  /** Replies of the host still to come before the pump is at rest. */
  ghost function Pending(s: State): nat { (if s.busy then 1 else 0) + if s.want.Some? then 1 else 0 }

  ghost predicate Inv(s: State) { OneCall(s) && LastOutcome(s) && LastAsked(s) && NoRepeat(s) }

  /** The requirements on a state about to be pumped: as the invariant, but a request may be waiting. */
  ghost predicate Primed(s: State) {
    && |s.calls| == |s.outcomes| + (if s.busy then 1 else 0)
    && LastOutcome(s) && NoRepeat(s)
  }

  lemma PumpKeepsTarget(s: State)
    requires Primed(s)
    ensures Target(Pump(s)) == Target(s)
    ensures OneCall(Pump(s)) && LastOutcome(Pump(s))
  {
    if !s.busy && s.want.Some? && Key(s.want.value) == s.applied {
      KeyInjective(s.want.value, s.calls[|s.outcomes| - 1]);
    }
  }

  lemma OneMoreCall(calls: seq<Geo>, g: Geo, i: nat)
    ensures Repeated(calls + [g], i) <==> Repeated(calls, i) || (i + 1 == |calls| && calls[i] == g)
  {
  }

  lemma PumpKeepsNoRepeat(s: State)
    requires Primed(s)
    ensures NoRepeat(Pump(s))
  {
    if Pump(s).calls != s.calls {
      forall i | 0 <= i < |s.outcomes| && s.outcomes[i]
        ensures !Repeated(Pump(s).calls, i)
      {
        OneMoreCall(s.calls, s.want.value, i);
      }
    }
  }

  lemma PumpKeepsInv(s: State)
    requires Primed(s) && LastAsked(s)
    ensures Inv(Pump(s))
  {
    PumpKeepsTarget(s);
    PumpKeepsNoRepeat(s);
  }

  lemma AskKeepsInv(s: State, g: Geo)
    requires Inv(s)
    ensures Inv(Ask(s, g)) && Target(Ask(s, g)) == Some(g)
  {
    var t := s.(want := Some(g), asked := s.asked + [g]);
    PumpKeepsTarget(t);
    PumpKeepsInv(t);
  }

  lemma ReplyKeepsInv(s: State, ok: bool)
    requires Inv(s) && s.busy
    ensures var t := Step(s, if ok then HostOk else HostFail);
            Inv(t) && Target(t) == Target(s) && Pending(t) < Pending(s)
  {
    PumpKeepsTarget(Replied(s, ok));
    PumpKeepsInv(Replied(s, ok));
    ReplyPends(s, ok);
  }

  lemma ReplyPends(s: State, ok: bool)
    requires Inv(s) && s.busy
    ensures Pending(Step(s, if ok then HostOk else HostFail)) < Pending(s)
  {
  }

  lemma StepKeepsInv(s: State, e: Event)
    requires Inv(s)
    ensures Inv(Step(s, e))
  {
    match e
    case Request(mode, h) => AskKeepsInv(s, Geo(mode, Round(h)));
    case Retry =>
      if s.failed.Some? && s.want.None? {
        AskKeepsInv(s, s.failed.value);
      }
    case HostOk =>
      if s.busy {
        ReplyKeepsInv(s, true);
      }
    case HostFail =>
      if s.busy {
        ReplyKeepsInv(s, false);
      }
  }

  lemma {:induction false} RunInv(events: seq<Event>)
    ensures Inv(Run(events))
  {
    if events != [] {
      RunInv(events[..|events| - 1]);
      StepKeepsInv(Run(events[..|events| - 1]), events[|events| - 1]);
    }
  }

  // ------------------------------------------------------------------ coalescing

  /** `a` is `b` with some elements left out. */
  ghost predicate Subsequence<T>(a: seq<T>, b: seq<T>) {
    a == [] ||
    (b != [] &&
     (Subsequence(a, b[..|b| - 1]) ||
      (a[|a| - 1] == b[|b| - 1] && Subsequence(a[..|a| - 1], b[..|b| - 1]))))
  }

  /** Every call answers a request of its own, in order. */
  ghost predicate Coalesced(s: State) {
    Subsequence(s.calls + (if s.want.Some? then [s.want.value] else []), s.asked)
  }

  lemma SubsequenceSnoc<T>(a: seq<T>, b: seq<T>, x: T)
    requires Subsequence(a, b)
    ensures Subsequence(a, b + [x]) && Subsequence(a + [x], b + [x])
  {
    assert (b + [x])[..|b|] == b && (a + [x])[..|a|] == a;
  }

  lemma {:induction false} SubsequencePrefix<T>(a: seq<T>, b: seq<T>, x: T)
    requires Subsequence(a + [x], b)
    ensures Subsequence(a, b)
  {
    assert (a + [x])[..|a|] == a;
    var init := b[..|b| - 1];
    assert b == init + [b[|b| - 1]];
    if Subsequence(a + [x], init) {
      SubsequencePrefix(a, init, x);
    }
    SubsequenceSnoc(a, init, b[|b| - 1]);
  }

  lemma PumpKeepsCoalesced(s: State)
    requires Coalesced(s)
    ensures Coalesced(Pump(s))
  {
    if !s.busy && s.want.Some? {
      SubsequencePrefix(s.calls, s.asked, s.want.value);
      assert s.calls + [] == s.calls;
      assert s.calls + [s.want.value] + [] == s.calls + [s.want.value];
    }
  }

  lemma AskKeepsCoalesced(s: State, g: Geo)
    requires Coalesced(s)
    ensures Coalesced(Ask(s, g))
  {
    CallsAmongAsked(s);
    SubsequenceSnoc(s.calls, s.asked, g);
    PumpKeepsCoalesced(s.(want := Some(g), asked := s.asked + [g]));
  }

  lemma CallsAmongAsked(s: State)
    requires Coalesced(s)
    ensures Subsequence(s.calls, s.asked)
  {
    if s.want.Some? {
      SubsequencePrefix(s.calls, s.asked, s.want.value);
    } else {
      assert s.calls + [] == s.calls;
    }
  }

  lemma {:induction false} RunCoalesced(events: seq<Event>)
    ensures Coalesced(Run(events))
  {
    if events == [] {
      assert INIT.calls + [] == [];
    } else {
      var s, e := Run(events[..|events| - 1]), events[|events| - 1];
      RunCoalesced(events[..|events| - 1]);
      match e
      case Request(mode, h) => AskKeepsCoalesced(s, Geo(mode, Round(h)));
      case Retry =>
        if s.failed.Some? && s.want.None? {
          AskKeepsCoalesced(s, s.failed.value);
        }
      case HostOk =>
        if Calling(s) {
          PumpKeepsCoalesced(Replied(s, true));
        }
      case HostFail =>
        if Calling(s) {
          PumpKeepsCoalesced(Replied(s, false));
        }
    }
  }

  /**
   In every run: one call at a time, each for a request of its own; and whenever the pump is idle,
   the last request made is in force, or it is the one that failed and nothing is taken as applied.
   */
  lemma EveryRun(events: seq<Event>)
    ensures var s := Run(events);
            && |s.calls| - |s.outcomes| == (if s.busy then 1 else 0)
            && Subsequence(s.calls, s.asked)
            && NoRepeat(s)
            && (!s.busy ==> s.want.None?)
            && (!s.busy && s.asked != [] ==> var last := s.asked[|s.asked| - 1];
                  || (s.failed.None? && s.applied == Key(last) && s.calls != [] && Flight(s) == last)
                  || (s.failed == Some(last) && s.applied == ""))
  {
    RunInv(events);
    RunCoalesced(events);
    CallsAmongAsked(Run(events));
  }

  // ------------------------------------------------------------------ coming to rest

  /** Once requests stop, the host's next two replies at most bring the pump to rest. */
  lemma {:induction false} Settles(s: State, replies: seq<Event>)
    requires Inv(s) && Pending(s) <= |replies|
    requires forall e | e in replies :: e.HostOk? || e.HostFail?
    ensures Inv(After(s, replies)) && !After(s, replies).busy
    ensures Target(After(s, replies)) == Target(s)
  {
    SettlesBy(s, replies);
  }

  lemma {:induction false} SettlesBy(s: State, replies: seq<Event>)
    requires Inv(s)
    requires forall e | e in replies :: e.HostOk? || e.HostFail?
    ensures Inv(After(s, replies)) && Target(After(s, replies)) == Target(s)
    ensures Pending(After(s, replies)) <= if Pending(s) <= |replies| then 0 else Pending(s) - |replies|
  {
    if replies != [] {
      var init, e := replies[..|replies| - 1], replies[|replies| - 1];
      assert e in replies;
      SettlesBy(s, init);
      if After(s, init).busy {
        ReplyKeepsInv(After(s, init), e.HostOk?);
      }
    }
  }

  // ------------------------------------------------------------------ the last measurement

  /** The geometry measured last: what the window should come to. */
  ghost function Wish(events: seq<Event>): Option<Geo> {
    if events == [] then None
    else WishAfter(Wish(events[..|events| - 1]), events[|events| - 1])
  }

  ghost function WishAfter(wish: Option<Geo>, e: Event): Option<Geo> {
    if e.Request? then Some(Geo(e.mode, Round(e.h))) else wish
  }

  /** A poll asks again for a request that failed, while a different one is under way. */
  predicate StaleRetry(s: State) {
    s.failed.Some? && s.want.None? && Calling(s) && s.failed.value != Flight(s)
  }

  /** Of all events exactly a stale retry turns the pump away from the last measurement. */
  lemma WishStep(s: State, wish: Option<Geo>, e: Event)
    requires Inv(s) && (e.Request? || Target(s) == wish)
    ensures Target(Step(s, e)) == WishAfter(wish, e) <==> !(e.Retry? && StaleRetry(s))
  {
    match e
    case Request(mode, h) => AskKeepsInv(s, Geo(mode, Round(h)));
    case Retry =>
      if s.failed.Some? && s.want.None? {
        AskKeepsInv(s, s.failed.value);
      }
    case HostOk =>
      if s.busy {
        ReplyKeepsInv(s, true);
      }
    case HostFail =>
      if s.busy {
        ReplyKeepsInv(s, false);
      }
  }

  ghost predicate NoStaleRetry(events: seq<Event>) {
    events != [] ==>
      && NoStaleRetry(events[..|events| - 1])
      && !(events[|events| - 1].Retry? && StaleRetry(Run(events[..|events| - 1])))
  }

  lemma {:induction false} TargetIsWish(events: seq<Event>)
    requires NoStaleRetry(events)
    ensures Target(Run(events)) == Wish(events)
  {
    if events != [] {
      var init, e := events[..|events| - 1], events[|events| - 1];
      TargetIsWish(init);
      RunInv(init);
      WishStep(Run(init), Wish(init), e);
    }
  }

  /** Without stale retries an idle pump has served the last measurement, or marked it for a retry. */
  lemma WishServed(events: seq<Event>, wish: Geo)
    requires NoStaleRetry(events) && Wish(events) == Some(wish)
    requires !Run(events).busy
    ensures var s := Run(events);
            (s.failed.None? && s.applied == Key(wish)) || (s.failed == Some(wish) && s.applied == "")
  {
    TargetIsWish(events);
    RunInv(events);
  }

  lemma RunOfSix(a: Event, b: Event, c: Event, d: Event, e: Event, f: Event)
    ensures Run([a, b, c, d, e, f]) == Step(Step(Step(Step(Step(Step(INIT, a), b), c), d), e), f)
    ensures Wish([a, b, c, d, e, f]) ==
            WishAfter(WishAfter(WishAfter(WishAfter(WishAfter(WishAfter(None, a), b), c), d), e), f)
  {
    assert [a, b, c, d, e] + [f] == [a, b, c, d, e, f] && [a, b, c, d] + [e] == [a, b, c, d, e];
    assert [a, b, c] + [d] == [a, b, c, d] && [a, b] + [c] == [a, b, c] && [a] + [b] == [a, b] && [] + [a] == [a];
    RunSnoc([], a);
    RunSnoc([a], b);
    RunSnoc([a, b], c);
    RunSnoc([a, b, c], d);
    RunSnoc([a, b, c, d], e);
    RunSnoc([a, b, c, d, e], f);
  }

  lemma RunSnoc(events: seq<Event>, e: Event)
    ensures Run(events + [e]) == Step(Run(events), e)
    ensures Wish(events + [e]) == WishAfter(Wish(events), e)
  {
    assert (events + [e])[..|events|] == events;
  }

  /** With one, the pump can come to rest at an older geometry, with nothing left to put it right. */
  lemma WishLost(earlier: Geo, later: Geo)
    requires earlier != later
    ensures var events := [Request(earlier.mode, earlier.h as real), HostFail,
                           Request(later.mode, later.h as real), Retry, HostOk, HostOk];
            && Wish(events) == Some(later)
            && var s := Run(events); !s.busy && s.failed.None? && s.applied == Key(earlier) != Key(later)
  {
    var a, b := Request(earlier.mode, earlier.h as real), Request(later.mode, later.h as real);
    RunOfSix(a, HostFail, b, Retry, HostOk, HostOk);
    RetryLosesRun(a, b, earlier, later);
    LastMeasured(a, b, later);
  }

  lemma LastMeasured(a: Event, b: Event, later: Geo)
    requires a.Request? && b == Request(later.mode, later.h as real)
    ensures var wish := WishAfter(WishAfter(WishAfter(None, a), HostFail), b);
            WishAfter(WishAfter(WishAfter(wish, Retry), HostOk), HostOk) == Some(later)
  {
  }

  lemma RetryLosesRun(a: Event, b: Event, earlier: Geo, later: Geo)
    requires earlier != later
    requires a == Request(earlier.mode, earlier.h as real) && b == Request(later.mode, later.h as real)
    ensures var s := Step(Step(Step(Step(Step(Step(INIT, a), HostFail), b), Retry), HostOk), HostOk);
            !s.busy && s.failed.None? && s.applied == Key(earlier) != Key(later)
  {
    if Key(earlier) == Key(later) {
      KeyInjective(earlier, later);
    }
    FirstFails(a, earlier);
    StaleRetryLoses(Step(Step(INIT, a), HostFail), b, earlier, later);
  }

  lemma FirstFails(a: Event, earlier: Geo)
    requires a == Request(earlier.mode, earlier.h as real)
    ensures var s := Step(Step(INIT, a), HostFail);
            !s.busy && s.want.None? && s.applied == "" && s.failed == Some(earlier)
  {
    var s1 := State(None, "", true, None, [earlier], [earlier], []);
    assert Step(INIT, a) == s1;
  }

  /** Measured anew after a failure, and asked again for the failed geometry before the host replies. */
  lemma StaleRetryLoses(s: State, b: Event, earlier: Geo, later: Geo)
    requires !s.busy && s.want.None? && s.applied == "" && s.failed == Some(earlier)
    requires b == Request(later.mode, later.h as real)
    requires Key(earlier) != Key(later)
    ensures var t := Step(Step(Step(Step(s, b), Retry), HostOk), HostOk);
            !t.busy && t.failed.None? && t.applied == Key(earlier)
  {
    MeasuredAnew(s, b, earlier, later);
    RepliesFollow(Step(Step(s, b), Retry));
  }

  lemma MeasuredAnew(s: State, b: Event, earlier: Geo, later: Geo)
    requires !s.busy && s.want.None? && s.applied == "" && s.failed == Some(earlier)
    requires b == Request(later.mode, later.h as real)
    ensures var t := Step(Step(s, b), Retry); Calling(t) && Flight(t) == later && t.want == Some(earlier)
  {
    var s3 := s.(busy := true, asked := s.asked + [later], calls := s.calls + [later]);
    assert Step(s, b) == s3;
  }

  /** The reply to the call in flight starts the waiting one, and the next one leaves that in force. */
  lemma RepliesFollow(s: State)
    requires Calling(s) && s.want.Some? && Key(s.want.value) != Key(Flight(s))
    ensures var t := Step(Step(s, HostOk), HostOk);
            !t.busy && t.failed.None? && t.applied == Key(s.want.value)
  {
    var t := Step(s, HostOk);
    assert Calling(t) && Flight(t) == s.want.value && t.want.None?;
  }
}
