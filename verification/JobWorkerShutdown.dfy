/** Stop returns, and afterwards nothing runs. */
module JobWorkerShutdown {
  import opened JobWorker
  import opened JobWorkerSafety
  import opened Sums

  /** An upper bound on the steps a worker takes without receiving another job. */
  function Rank(w: Worker): int {
    match w.pc
    case Gone => 0
    case Leaving => 1
    case Idle => 2
    case Busy(_, phase) =>
      match phase
      case Dropping => 4
      case Releasing => 5
      case Failing => 6
      case Unwinding(_, _) => 7 + One(w.ctx.Live?)
      case Running(_) => 9 + One(w.ctx.Live?)
      case Active => 11
      case Counted => 12
      case Took => 13
  }

  const RANK: Worker -> int := w => Rank(w)

  function StopRank(s: State): int {
    match s.stopper
    case CancellingAll(i) => |s.cancels| - i + 2
    case WaitingAll => 1
    case _ => 0
  }

  function InterruptRank(s: State): int {
    match s.interrupt
    case Waiting => |s.cancels| + 2
    case Cancelling(i) => |s.cancels| - i + 1
    case _ => 0
  }

  /** Falls with every step once both queues are closed: queued jobs, goroutines still to finish, cancels to send. */
  function Measure(s: State): int {
    14 * (|s.chans.fast.buffer| + |s.chans.slow.buffer|) + Sum(s.workers, RANK) + Sum(s.producers, UNCOUNTED)
    + One(s.stats.Ticking?) + StopRank(s) + InterruptRank(s) + One(!s.parentDone)
  }

  /** Stop has closed both queues and no caller is blocked in Enqueue. */
  ghost predicate Stopping(s: State) {
    && (s.stopper.CancellingAll? || s.stopper.WaitingAll? || s.stopper.Returned?)
    && forall p | 0 <= p < |s.producers| :: !s.producers[p].Sending?
  }

  /** Nobody calls Enqueue. */
  predicate NoEnqueue(a: Action) {
    !a.NewProducer? && !a.EnqueueBegin?
  }

  lemma MeasureNonNegative(c: Config, s: State)
    requires Inv(c, s)
    ensures Measure(s) >= 0
  {
    SumNonNegative(s.workers, RANK);
    SumNonNegative(s.producers, UNCOUNTED);
  }

  /** A phase action lowers the rank of its worker. */
  lemma EarlyRank(c: Config, s: State, a: Action)
    requires Enabled(c, s, a) && (a.Uncount? || a.Begin? || a.Dispatch? || a.Release?)
    ensures var w := Mover(s, a);
            |Apply(c, s, a).workers| == |s.workers| && Rank(Apply(c, s, a).workers[w]) < Rank(s.workers[w])
  {
  }

  lemma LateRank(c: Config, s: State, a: Action)
    requires Enabled(c, s, a) && (a.Return? || a.Judge? || a.FailureReturn?) && !Apply(c, s, a).crashed
    ensures var w := Mover(s, a);
            |Apply(c, s, a).workers| == |s.workers| && Rank(Apply(c, s, a).workers[w]) < Rank(s.workers[w])
  {
  }

  lemma PhaseMeasure(c: Config, s: State, a: Action)
    requires Enabled(c, s, a) && IsPhaseAction(a) && !Apply(c, s, a).crashed
    ensures Measure(Apply(c, s, a)) < Measure(s)
  {
    var s' := Apply(c, s, a);
    var w := Mover(s, a);
    PhaseActionResult(c, s, a);
    SumUpdate(s.workers, w, s'.workers[w], RANK);
    if a.Return? || a.Judge? || a.FailureReturn? {
      LateRank(c, s, a);
    } else {
      EarlyRank(c, s, a);
    }
  }

  lemma LoopMeasure(c: Config, s: State, a: Action)
    requires Enabled(c, s, a) && IsLoopAction(a)
    ensures Measure(Apply(c, s, a)) < Measure(s)
  {
    var s' := Apply(c, s, a);
    WorkerActionFrame(c, s, a);
    OwnWorkerFrame(c, s, a);
    LoopRank(c, s, a);
    SumUpdate(s.workers, a.w, s'.workers[a.w], RANK);
  }

  /** A received job pays for the steps it makes its worker take. */
  lemma LoopRank(c: Config, s: State, a: Action)
    requires Enabled(c, s, a) && IsLoopAction(a)
    ensures var s' := Apply(c, s, a);
            a.w < |s'.workers| &&
            14 * (|s'.chans.fast.buffer| + |s'.chans.slow.buffer|) + Rank(s'.workers[a.w])
            < 14 * (|s.chans.fast.buffer| + |s.chans.slow.buffer|) + Rank(s.workers[a.w])
  {
  }

  lemma OtherMeasure(c: Config, s: State, a: Action)
    requires StartShape(c, s) && StopShape(s) && Stopping(s) && Enabled(c, s, a) && !IsWorkerAction(a) && NoEnqueue(a)
    ensures Measure(Apply(c, s, a)) < Measure(s) && Stopping(Apply(c, s, a))
  {
    if a.SendCount? {
      SumUpdate(s.producers, a.p, Ready, UNCOUNTED);
    } else {
      ControlMeasure(c, s, a);
    }
  }

  lemma ControlMeasure(c: Config, s: State, a: Action)
    requires StartShape(c, s) && StopShape(s) && Stopping(s) && Enabled(c, s, a) && !IsWorkerAction(a) && NoEnqueue(a)
    requires !a.SendCount?
    ensures Measure(Apply(c, s, a)) < Measure(s) && Stopping(Apply(c, s, a))
  {
    assert !IsProducerAction(a) && !IsStartAction(a);
    ControlActionFrame(c, s, a);
    ControlRank(c, s, a);
  }

  lemma ControlRank(c: Config, s: State, a: Action)
    requires StartShape(c, s) && StopShape(s)
    requires s.stopper.CancellingAll? || s.stopper.WaitingAll? || s.stopper.Returned?
    requires Enabled(c, s, a) && !IsWorkerAction(a) && !IsProducerAction(a) && !IsStartAction(a)
    ensures var s' := Apply(c, s, a);
            && (s'.stopper.CancellingAll? || s'.stopper.WaitingAll? || s'.stopper.Returned?)
            && One(s'.stats.Ticking?) + StopRank(s') + InterruptRank(s') + One(!s'.parentDone)
               < One(s.stats.Ticking?) + StopRank(s) + InterruptRank(s) + One(!s.parentDone)
  {
  }

  /** Every step of the shutdown but a crash lowers the measure, and the shutdown goes on. */
  lemma ShutdownStep(c: Config, s: State, a: Action)
    requires Inv(c, s) && Stopping(s) && Enabled(c, s, a) && NoEnqueue(a)
    ensures Apply(c, s, a).crashed || Measure(Apply(c, s, a)) < Measure(s)
    ensures Stopping(Apply(c, s, a))
  {
    if IsWorkerAction(a) {
      WorkerActionFrame(c, s, a);
      if !IsPhaseAction(a) {
        LoopMeasure(c, s, a);
      } else if !Apply(c, s, a).crashed {
        PhaseMeasure(c, s, a);
      }
    } else {
      OtherMeasure(c, s, a);
    }
  }

  /** What a worker that is not gone does next when its queue is closed and its handlers return. */
  function NextOf(s: State, w: nat): Action
    requires w < |s.workers| && !s.workers[w].pc.Gone?
  {
    match s.workers[w].pc
    case Leaving => Exit(w)
    case Idle => if s.chans.Get(s.workers[w].q).buffer == [] then SeeClosed(w) else Take(w)
    case Busy(_, phase) =>
      match phase
      case Took => Uncount(w)
      case Counted => Begin(w)
      case Active => Dispatch(w)
      case Running(_) => Return(w, false)
      case Unwinding(_, _) => Judge(w)
      case Failing => FailureReturn(w, false)
      case Releasing => Release(w)
      case Dropping => Drop(w)
  }

  /** A step of the worker's own goroutines in which handlers return normally: no help from outside is needed. */
  predicate Internal(a: Action) {
    && (a.Return? || a.FailureReturn? ==> !a.panicked)
    && (IsWorkerAction(a) || a.StatsExit? || a.StopCancel? || a.StopReturn?)
    && !a.Expire?
  }

  /** Until Stop returns, some goroutine can always take a step: the shutdown never blocks. */
  lemma ShutdownProgress(c: Config, s: State) returns (a: Action)
    requires Inv(c, s) && Stopping(s) && !s.crashed && !s.stopper.Returned?
    ensures Enabled(c, s, a) && Internal(a)
  {
    if s.stopper.CancellingAll? {
      a := StopCancel;
    } else if s.wg == 0 {
      a := StopReturn;
    } else if s.stats.Ticking? {
      a := StatsExit;
    } else {
      SumNonNegative(s.workers, LIVE);
      var w := SumPositive(s.workers, LIVE);
      a := NextOf(s, w);
    }
  }

  /** Once the queues are closed and Enqueue is no longer called, a run has at most Measure steps, and it ends only
      when Stop has returned or a panic without a failure handler ended the process. */
  lemma {:induction false} StopReturns(c: Config, s: State, actions: seq<Action>, s': State)
    requires Inv(c, s) && Stopping(s) && Run(c, s, actions, s')
    requires forall i | 0 <= i < |actions| :: NoEnqueue(actions[i])
    ensures |actions| <= Measure(s) + 1
    ensures s'.crashed || s'.stopper.Returned? || exists a :: Internal(a) && Enabled(c, s', a)
    decreases |actions|
  {
    if actions == [] {
      MeasureNonNegative(c, s);
      if !s.crashed && !s.stopper.Returned? {
        var a := ShutdownProgress(c, s);
      }
    } else {
      var a := actions[0];
      var s1 := Apply(c, s, a);
      ShutdownStep(c, s, a);
      StepInv(c, s, a);
      MeasureNonNegative(c, s);
      assert forall i | 0 <= i < |actions[1..]| :: actions[1..][i] == actions[i + 1];
      if s1.crashed {
        assert actions[1..] == [];
      } else {
        StopReturns(c, s1, actions[1..], s');
      }
    }
  }

  lemma InternalIsSafe(c: Config, s: State, a: Action)
    requires Enabled(c, s, a) && Internal(a)
    ensures NoEnqueue(a) && !Apply(c, s, a).crashed
  {
  }

  lemma {:induction false} ShutdownLoop(c: Config, s: State) returns (actions: seq<Action>, s': State)
    requires Inv(c, s) && Stopping(s) && !s.crashed
    ensures Run(c, s, actions, s') && s'.stopper.Returned? && forall i | 0 <= i < |actions| :: NoEnqueue(actions[i])
    decreases Measure(s)
  {
    if s.stopper.Returned? {
      actions, s' := [], s;
    } else {
      var a := ShutdownProgress(c, s);
      InternalIsSafe(c, s, a);
      StepInv(c, s, a);
      ShutdownStep(c, s, a);
      MeasureNonNegative(c, s);
      var rest;
      rest, s' := ShutdownLoop(c, Apply(c, s, a));
      actions := [a] + rest;
      RunFrom(c, s, a, rest, s');
    }
  }

  /** While no caller is blocked in Enqueue, Stop can be called whenever it was not called before and Start is not under
      way, and can be run from there until it returns. */
  lemma StopCanReturn(c: Config, s: State)
    requires Inv(c, s) && !s.crashed && s.stopper.NotStopped? && (s.starter.NotStarted? || s.starter.Started?)
    requires forall p | 0 <= p < |s.producers| :: !s.producers[p].Sending?
    ensures exists rest, s' :: Run(c, s, [StopBegin] + rest, s') && s'.stopper.Returned?
  {
    var s1 := Apply(c, s, StopBegin);
    StepInv(c, s, StopBegin);
    var rest, s' := LockedRun(c, s1);
    RunFrom(c, s, StopBegin, rest, s');
  }

  lemma LockedRun(c: Config, s: State) returns (actions: seq<Action>, s': State)
    requires Inv(c, s) && !s.crashed && s.stopper.Locked?
    requires forall p | 0 <= p < |s.producers| :: !s.producers[p].Sending?
    ensures Run(c, s, actions, s') && s'.stopper.Returned?
  {
    var s1 := Apply(c, s, CloseFast);
    StepInv(c, s, CloseFast);
    var s2 := Apply(c, s1, CloseSlow);
    StepInv(c, s1, CloseSlow);
    var rest;
    rest, s' := ShutdownLoop(c, s2);
    RunFrom(c, s1, CloseSlow, rest, s');
    actions := [CloseFast] + ([CloseSlow] + rest);
    RunFrom(c, s, CloseFast, [CloseSlow] + rest, s');
  }

  /** When Stop has returned, every worker is gone, none is in a handler, and the active count is zero. */
  lemma NothingRunsAfterStop(c: Config, s: State)
    requires Inv(c, s) && s.stopper.Returned?
    ensures forall w | 0 <= w < |s.workers| :: s.workers[w].pc.Gone?
    ensures s.sac == 0 && !s.stats.Ticking?
    ensures forall a | IsWorkerAction(a) :: !Enabled(c, s, a)
  {
    AllGone(c, s);
    SumZero(s.workers, ACTIVE);
  }

  lemma QueuedStays(c: Config, s: State, a: Action, t: Ticket)
    requires Enabled(c, s, a) && !IsWorkerAction(a) && !a.Handoff?
    requires t in s.jobs && s.jobs[t].place.Queued? && JobsOk(c, s)
    ensures t in Apply(c, s, a).jobs && Apply(c, s, a).jobs[t] == s.jobs[t]
    ensures s.stopper.Returned? ==> Apply(c, s, a).stopper.Returned?
  {
  }

  /** A job still queued when Stop returns is never started, whatever happens next. */
  lemma {:induction false} QueuedAtStopNeverStarts(c: Config, s: State, actions: seq<Action>, s': State, t: Ticket)
    requires Inv(c, s) && s.stopper.Returned? && Run(c, s, actions, s')
    requires t in s.jobs && s.jobs[t].place.Queued?
    ensures t in s'.jobs && s'.jobs[t].place.Queued? && s'.jobs[t].trace == [Sent]
    decreases |actions|
  {
    if actions == [] {
      assert RecordOk(c, s, t);
    } else {
      var a := actions[0];
      NothingRunsAfterStop(c, s);
      assert !a.Handoff?;
      QueuedStays(c, s, a, t);
      StepInv(c, s, a);
      QueuedAtStopNeverStarts(c, Apply(c, s, a), actions[1..], s', t);
    }
  }
}
