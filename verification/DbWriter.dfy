/**
 The ordered two-lane database writer (crates/nimon-hub/src/db_writer.rs).

 `Step` is the whole protocol at the granularity of its awaits: one worker that polls the priority
 lane, then the low lane, runs one operation at a time, and any number of handles submitting in
 between. The two polls of one pick are separate steps, as they are in the code.
 `DbWriterTask.Writer` is the same protocol as an object updated in place.
 */
module DbWriter {
  import opened Basics

  // ------------------------------------------------------------------ state

  /** A write, named by a tag; `barrier` marks the operation `flush` sends. */
  datatype Op = Op(tag: nat, barrier: bool)

  datatype Outcome = Completed | Panicked | Cancelled | TimedOut

  datatype Phase =
    | AtSelect                                      // about to poll the priority lane
    | HighEmpty                                     // it was empty; about to poll the low lane
    | Running(op: Op, low: bool, draining: bool)
    | Draining                                      // every handle is gone and the priority lane is empty
    | Stopped

  /** What `submit_low` answered. */
  datatype Verdict = Accepted | Full | Closed

  datatype Finished = Finished(op: Op, outcome: Outcome)

  /**
   A low write at its acceptance: how many priority writes had been accepted before it, and whether
   it slipped in between the two polls of a pick, into an empty low lane, behind such a write.
   */
  datatype LowEntry = LowEntry(op: Op, highBefore: nat, slipped: bool)

  /** A low write at its start: how many operations of each lane had finished. */
  datatype LowStart = LowStart(highDone: nat, lowDone: nat)

  datatype History = History(
    high: seq<Op>,             // accepted priority writes, in submission order
    low: seq<LowEntry>,        // accepted low writes and barriers
    highDone: seq<Finished>,
    lowDone: seq<Finished>,
    lowStarts: seq<LowStart>,
    outcomes: seq<Outcome>,    // of both lanes, in the order they ended
    verdicts: seq<Verdict>,
    polled: nat,               // priority writes accepted when their lane was last seen empty
    killed: bool)              // the worker task died without draining

  datatype State = State(
    capacity: nat,
    high: seq<Op>,
    low: seq<Op>,
    reserved: nat,             // slots of the low lane held by flushes that have not enqueued yet
    lowOpen: bool,
    handles: nat,
    phase: Phase,
    consecutiveTimeouts: nat,
    panics: nat,
    shed: nat,
    hist: History)

  function Init(lowCapacity: nat): State {
    State(if lowCapacity < 1 then 1 else lowCapacity, [], [], 0, true, 1, AtSelect, 0, 0, 0,
          History([], [], [], [], [], [], [], 0, false))
  }

  predicate Alive(s: State) { !s.phase.Stopped? }

  // ------------------------------------------------------------------ steps

  datatype Event =
    | Submit(op: Op)
    | SubmitLow(op: Op)
    | Reserve
    | SendBarrier(tag: nat)
    | CancelFlush
    | CloneHandle
    | DropHandle
    | PollHigh
    | PollLow
    | Finish(outcome: Outcome)
    | DrainNext
    | Kill

  /** An event that is not possible in `s` leaves it unchanged. */
  function Step(s: State, e: Event): State {
    match e
    case Submit(op) =>
      if s.handles == 0 || !Alive(s) then s
      else s.(high := s.high + [op], hist := s.hist.(high := s.hist.high + [op]))
    case SubmitLow(op) =>
      if s.handles == 0 then s
      else if !Alive(s) then Answer(s, Closed)
      else if |s.low| + s.reserved >= s.capacity then Answer(s.(shed := s.shed + 1), Full)
      else Answer(EnqueueLow(s, op), Accepted)
    case Reserve =>
      if s.handles == 0 || !Alive(s) || |s.low| + s.reserved >= s.capacity then s
      else s.(reserved := s.reserved + 1)
    case SendBarrier(tag) =>
      if s.reserved == 0 then s
      else if !Alive(s) then s.(reserved := s.reserved - 1)
      else EnqueueLow(s.(reserved := s.reserved - 1), Op(tag, true))
    case CancelFlush => if s.reserved == 0 then s else s.(reserved := s.reserved - 1)
    case CloneHandle => if s.handles == 0 then s else s.(handles := s.handles + 1)
    case DropHandle =>
      if s.handles == 0 || (s.handles == 1 && s.reserved > 0) then s else s.(handles := s.handles - 1)
    case PollHigh =>
      if !s.phase.AtSelect? then s
      else if s.high != [] then s.(high := s.high[1..], phase := Running(s.high[0], false, false))
      else if s.handles == 0 then s.(phase := Draining)
      else if s.lowOpen then s.(phase := HighEmpty, hist := s.hist.(polled := |s.hist.high|))
      else s
    case PollLow =>
      if !s.phase.HighEmpty? then s
      else if s.low != [] then StartLow(s, false)
      else if s.handles == 0 then s.(lowOpen := false, phase := AtSelect)
      else s.(phase := AtSelect)
    case Finish(outcome) => if !s.phase.Running? then s else EndRunning(s, outcome)
    case DrainNext =>
      if !s.phase.Draining? then s
      else if s.low != [] then StartLow(s, true)
      else s.(phase := Stopped)
    case Kill =>
      if !Alive(s) then s
      else s.(high := [], low := [], phase := Stopped, hist := s.hist.(killed := true))
  }

  function Answer(s: State, v: Verdict): State { s.(hist := s.hist.(verdicts := s.hist.verdicts + [v])) }

  function EnqueueLow(s: State, op: Op): State {
    var slipped := s.phase.HighEmpty? && s.low == [] && |s.hist.high| > s.hist.polled;
    s.(low := s.low + [op],
       hist := s.hist.(low := s.hist.low + [LowEntry(op, |s.hist.high|, slipped)]))
  }

  function StartLow(s: State, draining: bool): State
    requires s.low != []
  {
    s.(low := s.low[1..],
       phase := Running(s.low[0], true, draining),
       hist := s.hist.(lowStarts := s.hist.lowStarts + [LowStart(|s.hist.highDone|, |s.hist.lowDone|)]))
  }

  function EndRunning(s: State, outcome: Outcome): State
    requires s.phase.Running?
  {
    var entry := Finished(s.phase.op, outcome);
    var hist := s.hist.(outcomes := s.hist.outcomes + [outcome]);
    s.(phase := if s.phase.draining then Draining else AtSelect,
       consecutiveTimeouts := AfterOutcome(s.consecutiveTimeouts, outcome),
       panics := if outcome == Panicked then s.panics + 1 else s.panics,
       hist := if s.phase.low then hist.(lowDone := hist.lowDone + [entry])
               else hist.(highDone := hist.highDone + [entry]))
  }

  function AfterOutcome(timeouts: nat, outcome: Outcome): nat {
    match outcome
    case Completed => 0
    case Panicked => 0
    case Cancelled => timeouts
    case TimedOut => timeouts + 1
  }

  /** Every event sequence is a run. */
  function Run(lowCapacity: nat, events: seq<Event>): State {
    if events == [] then Init(lowCapacity)
    else Step(Run(lowCapacity, events[..|events| - 1]), events[|events| - 1])
  }

  // ------------------------------------------------------------------ what every step keeps

  function Ops(done: seq<Finished>): seq<Op> {
    seq(|done|, i requires 0 <= i < |done| => done[i].op)
  }

  function LowOps(entries: seq<LowEntry>): seq<Op> {
    seq(|entries|, i requires 0 <= i < |entries| => entries[i].op)
  }

  function RunningIn(s: State, low: bool): seq<Op> {
    if s.phase.Running? && s.phase.low == low then [s.phase.op] else []
  }

  /** Per lane, first in first out and one at a time: accepted == finished ++ running ++ queued. */
  ghost predicate Fifo(s: State) {
    && Ops(s.hist.highDone) + RunningIn(s, false) + s.high == s.hist.high
    && Ops(s.hist.lowDone) + RunningIn(s, true) + s.low == LowOps(s.hist.low)
  }

  /** What a worker that died leaves behind: in each lane a prefix of the accepted writes was finished. */
  ghost predicate FinishedPrefix(s: State) {
    && Ops(s.hist.highDone) <= s.hist.high
    && Ops(s.hist.lowDone) <= LowOps(s.hist.low)
  }

  ghost predicate Bounded(s: State) {
    && s.capacity >= 1
    && |s.low| + s.reserved <= s.capacity
    && (s.handles == 0 ==> s.reserved == 0)
    && (s.hist.killed ==> s.phase.Stopped?)
    && (!s.lowOpen ==> s.handles == 0 && s.low == [])
  }

  ghost predicate Counted(s: State) {
    && s.consecutiveTimeouts == TrailingTimeouts(s.hist.outcomes)
    && s.panics == Count(s.hist.outcomes, Panicked)
    && s.shed == Count(s.hist.verdicts, Full)
    && |s.hist.low| >= Count(s.hist.verdicts, Accepted)
  }

  function Count<T(==)>(xs: seq<T>, x: T): nat {
    if xs == [] then 0 else Count(xs[..|xs| - 1], x) + if xs[|xs| - 1] == x then 1 else 0
  }

  /** Timeouts since the last operation that completed or panicked. */
  function TrailingTimeouts(outcomes: seq<Outcome>): nat {
    if outcomes == [] then 0
    else
      var rest := outcomes[..|outcomes| - 1];
      match outcomes[|outcomes| - 1]
      case Completed => 0
      case Panicked => 0
      case Cancelled => TrailingTimeouts(rest)
      case TimedOut => TrailingTimeouts(rest) + 1
  }

  /** In the drain, and between the polls of a pick, the priority lane holds nothing older than the poll. */
  ghost predicate Polls(s: State) {
    && (s.phase.HighEmpty? ==> s.hist.polled == |s.hist.highDone|)
    && (s.phase.Draining? || (s.phase.Running? && s.phase.draining) ==>
          s.handles == 0 && s.high == [] && (s.phase.Running? ==> s.phase.low))
    && (s.phase.Stopped? ==> s.high == [] && s.low == [] && (!s.hist.killed ==> s.handles == 0))
  }

  /** Low writes start in order, each after all earlier ones have finished. */
  ghost predicate StartsInOrder(s: State) {
    && |s.hist.lowDone| <= |s.hist.lowStarts| <= |s.hist.low|
    && (!s.hist.killed ==> |s.hist.lowStarts| == |s.hist.lowDone| + |RunningIn(s, true)|)
    && (forall j :: 0 <= j < |s.hist.lowStarts| ==> s.hist.lowStarts[j].lowDone == j)
  }

  /** The exact price of polling the lanes one after the other. */
  ghost predicate Overtaking(s: State) {
    && |s.hist.lowStarts| <= |s.hist.low|
    && (forall j :: 0 <= j < |s.hist.low| ==> s.hist.low[j].highBefore <= |s.hist.high|)
    && (forall j :: 0 <= j < |s.hist.lowStarts| ==> (Overtook(s, j) <==> s.hist.low[j].slipped))
    && (forall j :: |s.hist.lowStarts| <= j < |s.hist.low| && !s.hist.killed ==>
          (s.hist.low[j].slipped ==> j == |s.hist.lowStarts| && s.phase.HighEmpty?))
    && (s.phase.HighEmpty? && s.low != [] ==>
          |s.hist.lowStarts| < |s.hist.low| &&
          var head := s.hist.low[|s.hist.lowStarts|];
          head.slipped <==> head.highBefore > s.hist.polled)
  }

  /** The j-th low write started although a priority write submitted before it had not finished. */
  predicate Overtook(s: State, j: nat)
    requires j < |s.hist.lowStarts| && j < |s.hist.low|
  {
    s.hist.lowStarts[j].highDone < s.hist.low[j].highBefore
  }

  ghost predicate Inv(s: State) {
    && Bounded(s)
    && Counted(s)
    && (!s.hist.killed ==> Fifo(s))
    && FinishedPrefix(s)
    && Polls(s)
    && StartsInOrder(s)
    && Overtaking(s)
  }

  // -- one lemma per kind of step

  lemma CountSnoc<T>(xs: seq<T>, y: T, x: T)
    ensures Count(xs + [y], x) == Count(xs, x) + if y == x then 1 else 0
  {
    assert (xs + [y])[..|xs|] == xs;
  }

  lemma TrailingSnoc(outcomes: seq<Outcome>, o: Outcome)
    ensures TrailingTimeouts(outcomes + [o]) == AfterOutcome(TrailingTimeouts(outcomes), o)
  {
    assert (outcomes + [o])[..|outcomes|] == outcomes;
  }

  lemma OpsSnoc(done: seq<Finished>, x: Finished)
    ensures Ops(done + [x]) == Ops(done) + [x.op]
  {
  }

  lemma LowOpsSnoc(entries: seq<LowEntry>, x: LowEntry)
    ensures LowOps(entries + [x]) == LowOps(entries) + [x.op]
  {
  }

  lemma AppendLast<T>(a: seq<T>, b: seq<T>, c: seq<T>, x: T)
    ensures a + b + (c + [x]) == (a + b + c) + [x]
  {
  }

  lemma MoveHead<T>(a: seq<T>, c: seq<T>)
    requires c != []
    ensures a + [c[0]] + c[1..] == a + [] + c
  {
  }

  lemma AcceptHigh(s: State, op: Op)
    requires Inv(s) && s.handles > 0 && Alive(s)
    ensures Inv(Step(s, Submit(op)))
  {
    AppendLast(Ops(s.hist.highDone), RunningIn(s, false), s.high, op);
  }

  lemma AcceptLow(s: State, op: Op)
    requires Inv(s) && s.handles > 0 && Alive(s) && |s.low| + s.reserved < s.capacity
    ensures Inv(EnqueueLow(s, op))
  {
    var t := EnqueueLow(s, op);
    LowOpsSnoc(s.hist.low, t.hist.low[|s.hist.low|]);
    AppendLast(Ops(s.hist.lowDone), RunningIn(s, true), s.low, op);
    LengthsAgree(s);
  }

  /** The head of the low queue is the next low entry to start. */
  lemma LengthsAgree(s: State)
    requires Fifo(s) && StartsInOrder(s) && !s.hist.killed
    ensures |s.hist.low| == |s.hist.lowStarts| + |s.low|
    ensures |s.hist.high| == |s.hist.highDone| + |RunningIn(s, false)| + |s.high|
  {
    assert |LowOps(s.hist.low)| == |s.hist.low| && |Ops(s.hist.lowDone)| == |s.hist.lowDone|;
    assert |Ops(s.hist.highDone)| == |s.hist.highDone|;
  }

  lemma StartHigh(s: State)
    requires Inv(s) && s.phase.AtSelect? && s.high != []
    ensures Inv(Step(s, PollHigh))
  {
    MoveHead(Ops(s.hist.highDone), s.high);
  }

  lemma StartLowKeeps(s: State, draining: bool)
    requires Inv(s) && s.low != []
    requires if draining then s.phase.Draining? else s.phase.HighEmpty?
    ensures Inv(StartLow(s, draining))
  {
    MoveHead(Ops(s.hist.lowDone), s.low);
    LengthsAgree(s);
  }

  lemma PollWithoutStart(s: State)
    requires Inv(s)
    ensures s.phase.AtSelect? && s.high == [] ==> Inv(Step(s, PollHigh))
    ensures s.phase.HighEmpty? && s.low == [] ==> Inv(Step(s, PollLow))
  {
    if !s.hist.killed {
      LengthsAgree(s);
    }
  }

  lemma EndKeepsCounts(s: State, outcome: Outcome)
    requires Inv(s) && s.phase.Running?
    ensures Counted(EndRunning(s, outcome))
  {
    TrailingSnoc(s.hist.outcomes, outcome);
    CountSnoc(s.hist.outcomes, outcome, Panicked);
  }

  lemma EndKeepsFifo(s: State, outcome: Outcome)
    requires Inv(s) && s.phase.Running?
    ensures var t := EndRunning(s, outcome); (!t.hist.killed ==> Fifo(t)) && FinishedPrefix(t)
  {
    var entry := Finished(s.phase.op, outcome);
    OpsSnoc(s.hist.highDone, entry);
    OpsSnoc(s.hist.lowDone, entry);
    var t := EndRunning(s, outcome);
    assert Ops(t.hist.highDone) + RunningIn(t, false) == Ops(s.hist.highDone) + RunningIn(s, false);
    assert Ops(t.hist.lowDone) + RunningIn(t, true) == Ops(s.hist.lowDone) + RunningIn(s, true);
  }

  lemma EndKeeps(s: State, outcome: Outcome)
    requires Inv(s) && s.phase.Running?
    ensures Inv(EndRunning(s, outcome))
  {
    EndKeepsCounts(s, outcome);
    EndKeepsFifo(s, outcome);
  }

  lemma AnswerKeeps(s: State, v: Verdict)
    requires Inv(s)
    requires v != Full
    requires v == Accepted ==> |s.hist.low| > Count(s.hist.verdicts, Accepted)
    ensures Inv(Answer(s, v))
  {
    CountSnoc(s.hist.verdicts, v, Full);
    CountSnoc(s.hist.verdicts, v, Accepted);
  }

  lemma ShedKeeps(s: State)
    requires Inv(s)
    ensures Inv(Answer(s.(shed := s.shed + 1), Full))
  {
    CountSnoc(s.hist.verdicts, Full, Full);
    CountSnoc(s.hist.verdicts, Full, Accepted);
  }

  lemma KillKeeps(s: State)
    requires Inv(s) && Alive(s)
    ensures Inv(Step(s, Kill))
  {
  }

  lemma HandlesKeep(s: State, e: Event)
    requires Inv(s)
    requires e.Reserve? || e.CancelFlush? || e.CloneHandle? || e.DropHandle?
    ensures Inv(Step(s, e))
  {
  }

  lemma AcceptedLowKeeps(s: State, op: Op, t: State)
    requires Inv(s) && s.handles > 0 && Alive(s) && |s.low| + s.reserved < s.capacity
    requires t == Answer(EnqueueLow(s, op), Accepted)
    ensures Inv(t)
  {
    AcceptLow(s, op);
    AnswerKeeps(EnqueueLow(s, op), Accepted);
  }

  lemma RefusedLowKeeps(s: State, t: State)
    requires Inv(s) && (t == Answer(s, Closed) || t == Answer(s.(shed := s.shed + 1), Full))
    ensures Inv(t)
  {
    AnswerKeeps(s, Closed);
    ShedKeeps(s);
  }

  lemma BarrierKeeps(s: State, tag: nat, t: State)
    requires Inv(s) && t == Step(s, SendBarrier(tag))
    ensures Inv(t)
  {
    if s.reserved > 0 {
      HandlesKeep(s, CancelFlush);
      if Alive(s) {
        AcceptLow(s.(reserved := s.reserved - 1), Op(tag, true));
      }
    }
  }

  lemma LowLaneKeeps(s: State, e: Event)
    requires Inv(s)
    requires e.SubmitLow? || e.SendBarrier?
    ensures Inv(Step(s, e))
  {
    if e.SendBarrier? {
      BarrierKeeps(s, e.tag, Step(s, e));
    } else if s.handles > 0 {
      if Alive(s) && |s.low| + s.reserved < s.capacity {
        AcceptedLowKeeps(s, e.op, Step(s, e));
      } else {
        RefusedLowKeeps(s, Step(s, e));
      }
    }
  }

  lemma StopKeeps(s: State)
    requires Inv(s) && s.phase.Draining? && s.low == []
    ensures Inv(Step(s, DrainNext))
  {
  }

  lemma WorkerKeeps(s: State, e: Event)
    requires Inv(s)
    requires e.PollHigh? || e.PollLow? || e.Finish? || e.DrainNext?
    ensures Inv(Step(s, e))
  {
    if e.PollHigh? && s.phase.AtSelect? {
      if s.high != [] { StartHigh(s); } else { PollWithoutStart(s); }
    } else if e.PollLow? && s.phase.HighEmpty? {
      if s.low != [] { StartLowKeeps(s, false); } else { PollWithoutStart(s); }
    } else if e.Finish? && s.phase.Running? {
      EndKeeps(s, e.outcome);
    } else if e.DrainNext? && s.phase.Draining? {
      if s.low != [] { StartLowKeeps(s, true); } else { StopKeeps(s); }
    } else {
      assert Step(s, e) == s;
    }
  }

  lemma StepKeepsInv(s: State, e: Event)
    requires Inv(s)
    ensures Inv(Step(s, e))
  {
    match e
    case Submit(op) => if s.handles > 0 && Alive(s) { AcceptHigh(s, op); }
    case SubmitLow(_) => LowLaneKeeps(s, e);
    case SendBarrier(_) => LowLaneKeeps(s, e);
    case Kill => if Alive(s) { KillKeeps(s); }
    case Reserve => HandlesKeep(s, e);
    case CancelFlush => HandlesKeep(s, e);
    case CloneHandle => HandlesKeep(s, e);
    case DropHandle => HandlesKeep(s, e);
    case _ => WorkerKeeps(s, e);
  }

  lemma {:induction false} RunInv(lowCapacity: nat, events: seq<Event>)
    ensures Inv(Run(lowCapacity, events))
  {
    if events != [] {
      RunInv(lowCapacity, events[..|events| - 1]);
      StepKeepsInv(Run(lowCapacity, events[..|events| - 1]), events[|events| - 1]);
    }
  }

  // ------------------------------------------------------------------ what holds in every run

  /**
   While the worker has not been killed, each lane's accepted writes are exactly those finished,
   then the one running, then those queued, in submission order; the low lane stays within its
   capacity; and the counters mean what they say.
   */
  lemma EveryRun(lowCapacity: nat, events: seq<Event>)
    ensures var s := Run(lowCapacity, events);
            && (!s.hist.killed ==>
                  && s.hist.high == Ops(s.hist.highDone) + RunningIn(s, false) + s.high
                  && LowOps(s.hist.low) == Ops(s.hist.lowDone) + RunningIn(s, true) + s.low)
            && Ops(s.hist.highDone) <= s.hist.high
            && |s.low| + s.reserved <= s.capacity
            && s.shed == Count(s.hist.verdicts, Full)
            && s.panics == Count(s.hist.outcomes, Panicked)
            && s.consecutiveTimeouts == TrailingTimeouts(s.hist.outcomes)
  {
    RunInv(lowCapacity, events);
  }

  /** A worker that stopped on its own, after the last handle was dropped, left nothing behind. */
  lemma StoppedMeansDrained(lowCapacity: nat, events: seq<Event>)
    ensures var s := Run(lowCapacity, events);
            s.phase.Stopped? && !s.hist.killed ==>
              s.handles == 0 && Ops(s.hist.highDone) == s.hist.high && Ops(s.hist.lowDone) == LowOps(s.hist.low)
  {
    RunInv(lowCapacity, events);
  }

  /**
   A low write overtakes an earlier priority write exactly when it slipped into the gap between the
   two polls of the pick that took it, behind a priority write submitted in that same gap.
   */
  lemma OvertakesOnlyInTheGap(lowCapacity: nat, events: seq<Event>, j: nat)
    requires j < |Run(lowCapacity, events).hist.lowStarts|
    ensures var s := Run(lowCapacity, events);
            j < |s.hist.low| && (Overtook(s, j) <==> s.hist.low[j].slipped)
  {
    RunInv(lowCapacity, events);
  }

  /** It does happen: a poll of the empty priority lane, both submissions, then the poll of the low lane. */
  lemma OvertakingHappens()
    ensures var s := Run(8, [PollHigh, Submit(Op(1, false)), SubmitLow(Op(2, false)), PollLow]);
            |s.hist.lowStarts| == 1 && |s.hist.low| == 1 && Overtook(s, 0)
  {
    var e := [PollHigh, Submit(Op(1, false)), SubmitLow(Op(2, false)), PollLow];
    assert e[..3][..2] == e[..2] && e[..2][..1] == e[..1] && e[..1][..0] == [];
    assert Run(8, e[..1]).phase == HighEmpty;
    assert Run(8, e[..2]).hist.high == [Op(1, false)];
    assert Run(8, e[..3]).low == [Op(2, false)];
  }

  /** No priority write is submitted between the two polls of a pick. */
  ghost predicate GapFree(lowCapacity: nat, events: seq<Event>) {
    forall i :: 0 <= i < |events| && events[i].Submit? ==> !Run(lowCapacity, events[..i]).phase.HighEmpty?
  }

  /** Every pick is one atomic step: a poll of the empty priority lane is followed at once by the low lane's. */
  ghost predicate AtomicPicks(lowCapacity: nat, events: seq<Event>) {
    forall i :: 0 <= i < |events| && Run(lowCapacity, events[..i]).phase.HighEmpty? ==> events[i].PollLow?
  }

  lemma AtomicPicksAreGapFree(lowCapacity: nat, events: seq<Event>)
    requires AtomicPicks(lowCapacity, events)
    ensures GapFree(lowCapacity, events)
  {
  }

  lemma {:induction false} GapFreeHistory(lowCapacity: nat, events: seq<Event>)
    requires GapFree(lowCapacity, events)
    ensures var s := Run(lowCapacity, events);
            && (s.phase.HighEmpty? ==> s.hist.polled == |s.hist.high|)
            && forall j :: 0 <= j < |s.hist.low| ==> !s.hist.low[j].slipped
  {
    if events != [] {
      var before, e := events[..|events| - 1], events[|events| - 1];
      assert forall i :: 0 <= i < |before| ==> before[..i] == events[..i];
      GapFreeHistory(lowCapacity, before);
      GapFreeStep(Run(lowCapacity, before), e);
    }
  }

  lemma GapFreeStep(s: State, e: Event)
    requires s.phase.HighEmpty? ==> s.hist.polled == |s.hist.high| && !e.Submit?
    requires forall j :: 0 <= j < |s.hist.low| ==> !s.hist.low[j].slipped
    ensures var t := Step(s, e);
            && (t.phase.HighEmpty? ==> t.hist.polled == |t.hist.high|)
            && forall j :: 0 <= j < |t.hist.low| ==> !t.hist.low[j].slipped
  {
  }

  /** The documented order: without priority submissions in the gap, no low write ever overtakes one. */
  lemma NoOvertaking(lowCapacity: nat, events: seq<Event>, j: nat)
    requires GapFree(lowCapacity, events)
    requires j < |Run(lowCapacity, events).hist.lowStarts|
    ensures j < |Run(lowCapacity, events).hist.low|
    ensures !Overtook(Run(lowCapacity, events), j)
  {
    OvertakesOnlyInTheGap(lowCapacity, events, j);
    GapFreeHistory(lowCapacity, events);
  }

  /** The step that takes a low operation, be it a write or a flush barrier, off its queue. */
  predicate StartsLow(s: State, e: Event) {
    s.low != [] && ((e.PollLow? && s.phase.HighEmpty?) || (e.DrainNext? && s.phase.Draining?))
  }

  /** What has finished when the low operation at the head of its queue starts. */
  ghost predicate Covered(s: State, started: State, draining: bool) {
    var j := |s.hist.lowDone|;
    && j < |s.hist.low|
    && started.phase == Running(s.hist.low[j].op, true, draining)
    && Ops(s.hist.lowDone) == LowOps(s.hist.low[..j])
    && s.hist.low[j].highBefore <= |s.hist.high|
    && (!s.hist.low[j].slipped ==> s.hist.high[..s.hist.low[j].highBefore] <= Ops(s.hist.highDone))
  }

  lemma StartCovers(s: State, e: Event, t: State)
    requires Inv(s) && Inv(t) && StartsLow(s, e) && t == Step(s, e)
    ensures Covered(s, t, e.DrainNext?)
  {
    var j := |s.hist.lowDone|;
    LengthsAgree(s);
    assert LowOps(s.hist.low)[j] == s.low[0];
    assert Ops(s.hist.lowDone) == LowOps(s.hist.low)[..j];
    assert LowOps(s.hist.low[..j]) == LowOps(s.hist.low)[..j];
    assert t.hist.lowStarts[j] == LowStart(|s.hist.highDone|, j);
    assert Overtook(t, j) <==> t.hist.low[j].slipped;
  }

  /**
   What a flush waits for. When a low operation starts, every low operation accepted before it has
   finished, and so has every priority write accepted before it, unless it slipped into the gap.
   */
  lemma BarrierCoversBothLanes(lowCapacity: nat, events: seq<Event>, e: Event)
    requires StartsLow(Run(lowCapacity, events), e)
    ensures var s := Run(lowCapacity, events);
            && Covered(s, Step(s, e), e.DrainNext?)
            && (GapFree(lowCapacity, events) ==> !s.hist.low[|s.hist.lowDone|].slipped)
  {
    RunInv(lowCapacity, events);
    var s := Run(lowCapacity, events);
    StepKeepsInv(s, e);
    StartCovers(s, e, Step(s, e));
    if GapFree(lowCapacity, events) {
      GapFreeHistory(lowCapacity, events);
    }
  }

  // ------------------------------------------------------------------ the timeout counter

  /** What the health field is documented to count: timeouts since the last success. */
  function TimeoutsSinceSuccess(outcomes: seq<Outcome>): nat {
    if outcomes == [] then 0
    else
      var rest := outcomes[..|outcomes| - 1];
      match outcomes[|outcomes| - 1]
      case Completed => 0
      case TimedOut => TimeoutsSinceSuccess(rest) + 1
      case _ => TimeoutsSinceSuccess(rest)
  }

  /** A panic followed a timeout, with no success since that timeout. */
  predicate PanicAfterTimeout(outcomes: seq<Outcome>) {
    exists i, k ::
      && 0 <= i < k < |outcomes| && outcomes[i] == TimedOut && outcomes[k] == Panicked
      && Completed !in outcomes[i..]
  }

  /** Some timeout has not been followed by a success yet. */
  predicate OpenTimeout(outcomes: seq<Outcome>) {
    exists i :: 0 <= i < |outcomes| && outcomes[i] == TimedOut && Completed !in outcomes[i..]
  }

  lemma OpenTimeoutSnoc(rest: seq<Outcome>, last: Outcome)
    ensures OpenTimeout(rest + [last]) <==> last == TimedOut || (last != Completed && OpenTimeout(rest))
  {
    var outcomes := rest + [last];
    assert forall i :: 0 <= i < |rest| ==> outcomes[i..] == rest[i..] + [last];
    assert outcomes[|rest|..] == [last];
    assert last in outcomes;
    if last != Completed && OpenTimeout(rest) {
      var i :| 0 <= i < |rest| && rest[i] == TimedOut && Completed !in rest[i..];
      assert outcomes[i] == TimedOut && Completed !in outcomes[i..];
    }
    if last == TimedOut {
      assert outcomes[|rest|] == TimedOut && Completed !in outcomes[|rest|..];
    }
  }

  lemma PanicAfterTimeoutSnoc(rest: seq<Outcome>, last: Outcome)
    ensures PanicAfterTimeout(rest + [last]) <==>
              last != Completed && (PanicAfterTimeout(rest) || (last == Panicked && OpenTimeout(rest)))
  {
    var outcomes := rest + [last];
    assert forall i :: 0 <= i < |rest| ==> outcomes[i..] == rest[i..] + [last];
    if last != Completed && PanicAfterTimeout(rest) {
      var i, k :| 0 <= i < k < |rest| && rest[i] == TimedOut && rest[k] == Panicked && Completed !in rest[i..];
      assert outcomes[i] == TimedOut && outcomes[k] == Panicked && Completed !in outcomes[i..];
    }
    if last == Panicked && OpenTimeout(rest) {
      var i :| 0 <= i < |rest| && rest[i] == TimedOut && Completed !in rest[i..];
      assert outcomes[i] == TimedOut && outcomes[|rest|] == Panicked && Completed !in outcomes[i..];
    }
    if PanicAfterTimeout(outcomes) {
      var i, k :| 0 <= i < k < |outcomes| && outcomes[i] == TimedOut && outcomes[k] == Panicked
                  && Completed !in outcomes[i..];
      assert rest[i] == TimedOut && Completed !in rest[i..];
      assert k < |rest| ==> rest[k] == Panicked;
    }
  }

  /** The counter agrees with its documentation except after a panic, which resets it without a success. */
  lemma {:induction false} CounterVersusDocumentation(outcomes: seq<Outcome>)
    ensures TrailingTimeouts(outcomes) <= TimeoutsSinceSuccess(outcomes)
    ensures TrailingTimeouts(outcomes) == TimeoutsSinceSuccess(outcomes) <==> !PanicAfterTimeout(outcomes)
    ensures TimeoutsSinceSuccess(outcomes) > 0 <==> OpenTimeout(outcomes)
  {
    if outcomes != [] {
      var rest, last := outcomes[..|outcomes| - 1], outcomes[|outcomes| - 1];
      assert outcomes == rest + [last];
      CounterVersusDocumentation(rest);
      OpenTimeoutSnoc(rest, last);
      PanicAfterTimeoutSnoc(rest, last);
    }
  }

  // ------------------------------------------------------------------ termination

  /** Work left for the worker once nobody can submit any more. */
  function Measure(s: State): nat {
    10 * (|s.high| + |s.low|) +
    match s.phase
    case Stopped => 0
    case Draining => 1
    case AtSelect => 2
    case HighEmpty => 3
    case Running(_, _, _) => 4
  }

  /** The one step the worker can take next; a running operation ends with `outcome`. */
  function WorkerStep(s: State, outcome: Outcome): Event {
    match s.phase
    case AtSelect => PollHigh
    case HighEmpty => PollLow
    case Running(_, _, _) => Finish(outcome)
    case Draining => DrainNext
    case Stopped => DrainNext
  }

  /** Closer to stopping, with nothing lost that was accepted. */
  ghost predicate Closer(s: State, t: State) {
    && Measure(t) < Measure(s)
    && t.handles == 0 && t.hist.killed == s.hist.killed
    && t.hist.high == s.hist.high && t.hist.low == s.hist.low
  }

  lemma PollingWindsDown(s: State, outcome: Outcome, t: State)
    requires Inv(s) && s.handles == 0 && Alive(s) && (s.phase.AtSelect? || s.phase.HighEmpty?)
    requires t == Step(s, WorkerStep(s, outcome))
    ensures Closer(s, t)
  {
  }

  lemma EndingWindsDown(s: State, outcome: Outcome, t: State)
    requires Inv(s) && s.handles == 0 && Alive(s) && !s.phase.AtSelect? && !s.phase.HighEmpty?
    requires t == Step(s, WorkerStep(s, outcome))
    ensures Closer(s, t)
  {
  }

  /** With every handle gone, each step of the worker brings it closer to stopping. */
  lemma WorkerWindsDown(s: State, outcome: Outcome)
    requires Inv(s) && s.handles == 0 && Alive(s)
    ensures Closer(s, Step(s, WorkerStep(s, outcome)))
  {
    if s.phase.AtSelect? || s.phase.HighEmpty? {
      PollingWindsDown(s, outcome, Step(s, WorkerStep(s, outcome)));
    } else {
      EndingWindsDown(s, outcome, Step(s, WorkerStep(s, outcome)));
    }
  }
}
