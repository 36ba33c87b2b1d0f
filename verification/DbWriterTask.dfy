/** The writer as the object its handles and its worker share. Only the histories are ghost. */
module DbWriterTask {
  import opened DbWriter

  class Writer {
    const lowCapacity: nat
    const capacity: nat
    var high: seq<Op>
    var low: seq<Op>
    var reserved: nat
    var lowOpen: bool
    var handles: nat
    var phase: Phase
    var consecutiveTimeouts: nat
    var panics: nat
    var shed: nat
    ghost var hist: History
    ghost var trace: seq<Event>

    ghost function View(): State
      reads this
    {
      State(capacity, high, low, reserved, lowOpen, handles, phase, consecutiveTimeouts, panics, shed, hist)
    }

    ghost predicate Valid()
      reads this
    {
      View() == Run(lowCapacity, trace)
    }

    /** Every object is the state of a run, so whatever holds in every run holds of it. */
    lemma ValidImpliesInv()
      requires Valid()
      ensures Inv(View())
    {
      RunInv(lowCapacity, trace);
    }

    constructor (lowCapacity: nat)
      ensures Valid() && View() == Init(lowCapacity)
    {
      this.lowCapacity := lowCapacity;
      capacity := if lowCapacity < 1 then 1 else lowCapacity;
      high, low, reserved, lowOpen, handles := [], [], 0, true, 1;
      phase := AtSelect;
      consecutiveTimeouts, panics, shed := 0, 0, 0;
      hist := History([], [], [], [], [], [], [], 0, false);
      trace := [];
    }

    ghost method Log(e: Event)
      requires Valid()
      modifies this`trace
      ensures trace == old(trace) + [e]
      ensures Run(lowCapacity, trace) == Step(View(), e)
    {
      assert (trace + [e])[..|trace|] == trace;
      trace := trace + [e];
    }

    method Submit(op: Op)
      requires Valid() && handles > 0
      modifies this
      ensures Valid() && trace == old(trace) + [Event.Submit(op)]
      ensures View() == Step(old(View()), Event.Submit(op))
      ensures !old(phase).Stopped? ==> high == old(high) + [op] && hist.high == old(hist.high) + [op]
      ensures old(phase).Stopped? ==> high == old(high) && hist.high == old(hist.high)
    {
      Log(Event.Submit(op));
      if !phase.Stopped? {
        high := high + [op];
        hist := hist.(high := hist.high + [op]);
      }
    }

    /** False when the write was shed or the writer has stopped. */
    method SubmitLow(op: Op) returns (accepted: bool)
      requires Valid() && handles > 0
      modifies this
      ensures Valid() && trace == old(trace) + [Event.SubmitLow(op)]
      ensures View() == Step(old(View()), Event.SubmitLow(op))
      ensures accepted == (hist.low != old(hist.low)) && low == old(low) + if accepted then [op] else []
      ensures accepted == (old(!phase.Stopped? && |low| + reserved < capacity))
    {
      Log(Event.SubmitLow(op));
      if phase.Stopped? {
        hist := hist.(verdicts := hist.verdicts + [Closed]);
        accepted := false;
      } else if |low| + reserved >= capacity {
        shed := shed + 1;
        hist := hist.(verdicts := hist.verdicts + [Full]);
        accepted := false;
      } else {
        Enqueue(op);
        hist := hist.(verdicts := hist.verdicts + [Accepted]);
        accepted := true;
      }
    }

    method Enqueue(op: Op)
      modifies this`low, this`hist
      ensures View() == EnqueueLow(old(View()), op)
    {
      var emptyLane := low == [];
      low := low + [op];
      hist := hist.(low := hist.low +
        [LowEntry(op, |hist.high|, phase.HighEmpty? && emptyLane && |hist.high| > hist.polled)]);
    }

    /** First half of `flush`: wait for a slot of the low lane; `granted` when there is one. */
    method FlushReserve() returns (granted: bool)
      requires Valid() && handles > 0
      modifies this`reserved, this`trace
      ensures Valid() && trace == old(trace) + [Reserve]
      ensures View() == Step(old(View()), Reserve)
      ensures granted == (reserved > old(reserved))
      ensures granted == (!phase.Stopped? && |low| + old(reserved) < capacity)
    {
      Log(Reserve);
      granted := !phase.Stopped? && |low| + reserved < capacity;
      if granted {
        reserved := reserved + 1;
      }
    }

    /** Second half of `flush`: the barrier takes its slot. */
    method FlushSend(tag: nat)
      requires Valid() && reserved > 0
      modifies this
      ensures Valid() && trace == old(trace) + [SendBarrier(tag)]
      ensures View() == Step(old(View()), SendBarrier(tag))
      ensures low == old(low) + if phase.Stopped? then [] else [Op(tag, true)]
    {
      Log(SendBarrier(tag));
      reserved := reserved - 1;
      if !phase.Stopped? {
        Enqueue(Op(tag, true));
      }
    }

    method Drop()
      requires Valid() && handles > 0 && (handles == 1 ==> reserved == 0)
      modifies this`handles, this`trace
      ensures Valid() && trace == old(trace) + [DropHandle]
      ensures View() == Step(old(View()), DropHandle)
    {
      Log(DropHandle);
      handles := handles - 1;
    }

    method Clone()
      requires Valid() && handles > 0
      modifies this`handles, this`trace
      ensures Valid() && trace == old(trace) + [CloneHandle]
      ensures View() == Step(old(View()), CloneHandle)
    {
      Log(CloneHandle);
      handles := handles + 1;
    }

    /** The priority arm of the select. */
    method PollHigh()
      requires Valid() && phase.AtSelect?
      modifies this
      ensures Valid() && trace == old(trace) + [Event.PollHigh]
      ensures View() == Step(old(View()), Event.PollHigh)
    {
      Log(Event.PollHigh);
      if high != [] {
        phase := Running(high[0], false, false);
        high := high[1..];
      } else if handles == 0 {
        phase := Draining;
      } else if lowOpen {
        phase := HighEmpty;
        hist := hist.(polled := |hist.high|);
      }
    }

    /** The low arm of the select. */
    method PollLow()
      requires Valid() && phase.HighEmpty?
      modifies this
      ensures Valid() && trace == old(trace) + [Event.PollLow]
      ensures View() == Step(old(View()), Event.PollLow)
    {
      Log(Event.PollLow);
      if low != [] {
        Take(false);
      } else {
        lowOpen := handles > 0 && lowOpen;
        phase := AtSelect;
      }
    }

    method Take(draining: bool)
      requires low != []
      modifies this`low, this`phase, this`hist
      ensures View() == StartLow(old(View()), draining)
    {
      phase := Running(low[0], true, draining);
      low := low[1..];
      hist := hist.(lowStarts := hist.lowStarts + [LowStart(|hist.highDone|, |hist.lowDone|)]);
    }

    /** The counters `run_op` updates. */
    method Record(outcome: Outcome)
      modifies this`consecutiveTimeouts, this`panics
      ensures consecutiveTimeouts == AfterOutcome(old(consecutiveTimeouts), outcome)
      ensures panics == old(panics) + if outcome == Panicked then 1 else 0
    {
      match outcome {
        case Completed => consecutiveTimeouts := 0;
        case Panicked => panics := panics + 1; consecutiveTimeouts := 0;
        case Cancelled =>
        case TimedOut => consecutiveTimeouts := consecutiveTimeouts + 1;
      }
    }

    /** The running operation's own task ended: it returned, panicked, was cancelled or overran. */
    method FinishOp(outcome: Outcome)
      requires Valid() && phase.Running?
      modifies this
      ensures Valid() && trace == old(trace) + [Finish(outcome)]
      ensures View() == Step(old(View()), Finish(outcome))
    {
      Log(Finish(outcome));
      hist := EndRunning(View(), outcome).hist;
      Record(outcome);
      phase := if phase.draining then Draining else AtSelect;
    }

    /** One turn of the drain loop. */
    method DrainOne()
      requires Valid() && phase.Draining?
      modifies this
      ensures Valid() && trace == old(trace) + [DrainNext]
      ensures View() == Step(old(View()), DrainNext)
    {
      Log(DrainNext);
      if low != [] {
        Take(true);
      } else {
        phase := Stopped;
      }
    }

    /** The worker task is torn down from outside: both receivers go, with everything queued. */
    method Die()
      requires Valid() && !phase.Stopped?
      modifies this
      ensures Valid() && trace == old(trace) + [Kill]
      ensures View() == Step(old(View()), Kill)
    {
      Log(Kill);
      high, low, phase := [], [], Stopped;
      hist := hist.(killed := true);
    }

    method Health() returns (alive: bool, timeouts: nat, panicked: nat, dropped: nat)
      requires Valid()
      ensures alive <==> !phase.Stopped?
      ensures timeouts == TrailingTimeouts(hist.outcomes)
      ensures panicked == Count(hist.outcomes, Panicked)
      ensures dropped == Count(hist.verdicts, Full)
    {
      ValidImpliesInv();
      alive, timeouts, panicked, dropped := !phase.Stopped?, consecutiveTimeouts, panics, shed;
    }

    /**
     The worker loop once the last handle is gone, whatever becomes of each operation: it ends, and
     everything ever accepted in either lane has been finished, in order.
     */
    method WindDown(outcomes: nat -> Outcome)
      requires Valid() && handles == 0 && !phase.Stopped?
      modifies this
      ensures Valid() && phase.Stopped?
      ensures hist.high == old(hist.high) && hist.low == old(hist.low)
      ensures Ops(hist.highDone) == hist.high
      ensures Ops(hist.lowDone) == LowOps(hist.low)
    {
      var ended := 0;
      ValidImpliesInv();
      while !phase.Stopped?
        invariant Valid() && handles == 0 && !hist.killed
        invariant hist.high == old(hist.high) && hist.low == old(hist.low)
        decreases Measure(View())
      {
        ValidImpliesInv();
        WorkerWindsDown(View(), outcomes(ended));
        match phase {
          case AtSelect => PollHigh();
          case HighEmpty => PollLow();
          case Running(_, _, _) => FinishOp(outcomes(ended)); ended := ended + 1;
          case Draining => DrainOne();
        }
      }
      ValidImpliesInv();
    }
  }
}
