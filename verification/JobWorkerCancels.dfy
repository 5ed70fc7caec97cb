/** What a cancel does: whose context is done and when, why goroutines end, and that a cancelled, expired or panicked
    job has its failure handler run. */
module JobWorkerCancels {
  import opened JobWorker
  import opened JobWorkerSafety
  import opened JobWorkerTheorems

  /** A cancelAll loop, of Stop or of the signal goroutine, reaches the context in this step. */
  predicate CancelsAt(s: State, a: Action, i: nat) {
    || (a.StopCancel? && s.stopper.CancellingAll? && s.stopper.next == i)
    || (a.InterruptCancel? && s.interrupt.Cancelling? && s.interrupt.next == i)
  }

  /** A context becomes done exactly when its parent is cancelled or a cancelAll loop reaches it, and stays done. */
  lemma ContextDoneExactly(c: Config, s: State, a: Action, i: nat)
    requires Inv(c, s) && Enabled(c, s, a)
    ensures ContextDone(Apply(c, s, a), i) <==>
            ContextDone(s, i) || a.ParentCancel? || (CancelsAt(s, a, i) && i < |s.cancels|)
  {
    if IsWorkerAction(a) {
      WorkerActionFrame(c, s, a);
    } else if IsProducerAction(a) {
      ProducerActionFrame(c, s, a);
    } else if IsStartAction(a) {
      StartDone(c, s, a, i);
    } else {
      ControlDone(c, s, a, i);
    }
  }

  lemma StartDone(c: Config, s: State, a: Action, i: nat)
    requires IsStartAction(a) && Enabled(c, s, a)
    ensures ContextDone(Apply(c, s, a), i) <==> ContextDone(s, i)
  {
  }

  lemma ControlDone(c: Config, s: State, a: Action, i: nat)
    requires !IsWorkerAction(a) && !IsProducerAction(a) && !IsStartAction(a) && Enabled(c, s, a)
    ensures ContextDone(Apply(c, s, a), i) <==>
            ContextDone(s, i) || a.ParentCancel? || (CancelsAt(s, a, i) && i < |s.cancels|)
  {
  }

  lemma {:induction false} DoneStaysDone(c: Config, s: State, actions: seq<Action>, s': State, i: nat)
    requires Inv(c, s) && Run(c, s, actions, s') && ContextDone(s, i)
    ensures ContextDone(s', i)
    decreases |actions|
  {
    if actions != [] {
      StepInv(c, s, actions[0]);
      ContextDoneExactly(c, s, actions[0], i);
      DoneStaysDone(c, Apply(c, s, actions[0]), actions[1..], s', i);
    }
  }

  // ----- the signal goroutine -----

  /** The contexts that the loop of the signal goroutine has passed are done. */
  ghost predicate InterruptOk(s: State) {
    s.interrupt.Cancelling? ==> forall i | 0 <= i < s.interrupt.next :: ContextDone(s, i)
  }

  lemma InterruptStep(c: Config, s: State, a: Action)
    requires Inv(c, s) && InterruptOk(s) && Enabled(c, s, a)
    ensures InterruptOk(Apply(c, s, a))
  {
    var s' := Apply(c, s, a);
    if IsWorkerAction(a) {
      WorkerActionFrame(c, s, a);
    } else if IsProducerAction(a) {
      ProducerActionFrame(c, s, a);
    }
    if s'.interrupt.Cancelling? {
      forall i | 0 <= i < s'.interrupt.next ensures ContextDone(s', i) {
        ContextDoneExactly(c, s, a, i);
      }
    }
  }

  lemma {:induction false} InterruptRun(c: Config, s: State, actions: seq<Action>, s': State)
    requires Inv(c, s) && InterruptOk(s) && Run(c, s, actions, s')
    ensures InterruptOk(s')
    decreases |actions|
  {
    if actions != [] {
      InterruptStep(c, s, actions[0]);
      StepInv(c, s, actions[0]);
      InterruptRun(c, Apply(c, s, actions[0]), actions[1..], s');
    }
  }

  /** In every reachable state the first contexts, as far as the loop has come, are done. */
  lemma InterruptReaches(c: Config, s: State, i: nat)
    requires Reachable(c, s) && s.interrupt.Cancelling? && i < s.interrupt.next
    ensures ContextDone(s, i)
  {
    var actions :| Run(c, INITIAL, actions, s);
    InitialInv(c);
    InterruptRun(c, INITIAL, actions, s);
  }

  /** Once the loop is over, the contexts of all workers, of the stats loop and of the goroutine itself are done. */
  lemma InterruptReachesAll(c: Config, s: State)
    requires Reachable(c, s) && Enabled(c, s, InterruptCancel) && s.interrupt.next >= |s.cancels|
    ensures var s' := Apply(c, s, InterruptCancel);
            && s'.interrupt.InterruptGone? && |s'.workers| == c.Workers()
            && forall i | 0 <= i < c.Workers() + 2 :: ContextDone(s', i)
  {
    ReachableInv(c, s);
    var s' := Apply(c, s, InterruptCancel);
    assert s' == s.(interrupt := InterruptGone);
    assert |s.cancels| == c.Workers() + 2;
    forall i | 0 <= i < c.Workers() + 2 ensures ContextDone(s', i) {
      InterruptReaches(c, s, i);
    }
  }

  /** The loop can be run to its end without a step of any other goroutine. */
  lemma {:induction false} InterruptLoop(c: Config, s: State) returns (actions: seq<Action>, s': State)
    requires Inv(c, s) && InterruptOk(s) && !s.crashed && s.interrupt.Cancelling?
    ensures Run(c, s, actions, s') && forall k | 0 <= k < |actions| :: actions[k] == InterruptCancel
    ensures s'.interrupt.InterruptGone? && forall i | 0 <= i < c.Workers() + 2 :: ContextDone(s', i)
    decreases |s.cancels| - s.interrupt.next
  {
    var s1 := Apply(c, s, InterruptCancel);
    if s.interrupt.next < |s.cancels| {
      StepInv(c, s, InterruptCancel);
      InterruptStep(c, s, InterruptCancel);
      var rest;
      rest, s' := InterruptLoop(c, s1);
      actions := [InterruptCancel] + rest;
      RunFrom(c, s, InterruptCancel, rest, s');
    } else {
      actions, s' := [InterruptCancel] + [], s1;
      RunFrom(c, s, InterruptCancel, [], s1);
      assert |s.cancels| == c.Workers() + 2;
      forall i | 0 <= i < c.Workers() + 2 ensures ContextDone(s', i) {
        ContextDoneExactly(c, s, InterruptCancel, i);
      }
    }
  }

  /** While the goroutine waits, a signal can come at any moment and leads, by its own steps alone, to a state in which
      every context is done. */
  lemma SignalCancelsAll(c: Config, s: State)
    requires Reachable(c, s) && !s.crashed && s.interrupt.Waiting?
    ensures exists loop, s' ::
              && Run(c, s, [InterruptSignal] + loop, s') && (forall k | 0 <= k < |loop| :: loop[k] == InterruptCancel)
              && s'.interrupt.InterruptGone? && forall i | 0 <= i < c.Workers() + 2 :: ContextDone(s', i)
  {
    ReachableInv(c, s);
    var s1 := Apply(c, s, InterruptSignal);
    StepInv(c, s, InterruptSignal);
    var loop, s' := InterruptLoop(c, s1);
    RunFrom(c, s, InterruptSignal, loop, s');
  }

  // ----- why goroutines end -----

  /** A closed queue without jobs. */
  predicate Drained(s: State, q: Queue) {
    s.chans.Get(q).closed && s.chans.Get(q).buffer == []
  }

  predicate HasLeft(worker: Worker) {
    worker.pc.Leaving? || worker.pc.Gone?
  }

  ghost predicate LeftOk(s: State) {
    forall w | 0 <= w < |s.workers| && HasLeft(s.workers[w]) :: ContextDone(s, w) || Drained(s, s.workers[w].q)
  }

  ghost predicate LoopsOk(c: Config, s: State) {
    && (s.stats.StatsGone? ==> ContextDone(s, c.Workers()))
    && (s.interrupt.InterruptGone? ==> ContextDone(s, c.Workers() + 1))
  }

  lemma DrainedStays(c: Config, s: State, a: Action, q: Queue)
    requires Enabled(c, s, a) && Drained(s, q)
    ensures Drained(Apply(c, s, a), q)
  {
    if IsPhaseAction(a) {
      PhaseActionResult(c, s, a);
    }
  }

  lemma LeavesByItself(c: Config, s: State, a: Action, w: nat)
    requires Enabled(c, s, a) && w < |Apply(c, s, a).workers| && HasLeft(Apply(c, s, a).workers[w])
    ensures w < |s.workers| && s.workers[w].q == Apply(c, s, a).workers[w].q
    ensures HasLeft(s.workers[w]) || (a == SeeClosed(w) && Drained(s, s.workers[w].q))
            || (a == SeeDone(w) && ContextDone(s, w))
  {
    if IsPhaseAction(a) {
      PhaseActionResult(c, s, a);
    } else if !IsLoopAction(a) && !IsProducerAction(a) && !IsStartAction(a) {
      ControlActionFrame(c, s, a);
    }
  }

  lemma LeftStep(c: Config, s: State, a: Action)
    requires Inv(c, s) && Enabled(c, s, a) && LeftOk(s)
    ensures LeftOk(Apply(c, s, a))
  {
    var s' := Apply(c, s, a);
    forall w | 0 <= w < |s'.workers| && HasLeft(s'.workers[w])
      ensures ContextDone(s', w) || Drained(s', s'.workers[w].q)
    {
      LeavesByItself(c, s, a, w);
      ContextDoneExactly(c, s, a, w);
      if Drained(s, s.workers[w].q) {
        DrainedStays(c, s, a, s.workers[w].q);
      }
    }
  }

  lemma LoopsStep(c: Config, s: State, a: Action)
    requires Inv(c, s) && Enabled(c, s, a) && InterruptOk(s) && LoopsOk(c, s)
    ensures LoopsOk(c, Apply(c, s, a))
  {
    ContextDoneExactly(c, s, a, c.Workers());
    ContextDoneExactly(c, s, a, c.Workers() + 1);
    if IsWorkerAction(a) {
      WorkerActionFrame(c, s, a);
    } else if IsProducerAction(a) {
      ProducerActionFrame(c, s, a);
    }
  }

  lemma {:induction false} EndsRun(c: Config, s: State, actions: seq<Action>, s': State)
    requires Inv(c, s) && InterruptOk(s) && LeftOk(s) && LoopsOk(c, s) && Run(c, s, actions, s')
    ensures LeftOk(s') && LoopsOk(c, s')
    decreases |actions|
  {
    if actions != [] {
      InterruptStep(c, s, actions[0]);
      LeftStep(c, s, actions[0]);
      LoopsStep(c, s, actions[0]);
      StepInv(c, s, actions[0]);
      EndsRun(c, Apply(c, s, actions[0]), actions[1..], s');
    }
  }

  /** In every reachable state: a worker has left only because its context is done or its queue is closed and empty, and
      the stats loop and the signal goroutine only because their own context is done. */
  lemma EndsForAReason(c: Config, s: State)
    requires Reachable(c, s)
    ensures forall w | 0 <= w < |s.workers| && HasLeft(s.workers[w]) ::
              ContextDone(s, w) || Drained(s, s.workers[w].q)
    ensures s.stats.StatsGone? ==> ContextDone(s, c.Workers())
    ensures s.interrupt.InterruptGone? ==> ContextDone(s, c.Workers() + 1)
  {
    var actions :| Run(c, INITIAL, actions, s);
    InitialInv(c);
    EndsRun(c, INITIAL, actions, s);
  }

  // ----- doomed jobs -----

  /** The deferred check of the job is still to come. */
  predicate BeforeCheck(phase: Phase) {
    phase.Took? || phase.Counted? || phase.Active? || phase.Running? || phase.Unwinding?
  }

  /** The worker holds a job with both handlers, and its context is done, its job context has expired or its main
      handler has panicked, before the deferred check. */
  predicate Doomed(c: Config, s: State, w: nat, t: Ticket) {
    && Holds(s, w, t) && t in s.jobs && s.jobs[t].jtype in c.handlers && s.jobs[t].jtype in c.failures
    && var phase := s.workers[w].pc.phase;
       && BeforeCheck(phase)
       && (|| ContextDone(s, w)
           || ((phase.Running? || phase.Unwinding?) && s.workers[w].ctx.Expired?)
           || (phase.Unwinding? && phase.panicked))
  }

  /** The expiry of a job context, and a panic of the main handler, doom the job. */
  lemma ExpiryAndPanicDoom(c: Config, s: State, w: nat, a: Action)
    requires Inv(c, s) && Enabled(c, s, a) && (a == Expire(w) || a == Return(w, true))
    requires TypeHeld(s, w) in c.handlers && TypeHeld(s, w) in c.failures
    ensures Doomed(c, Apply(c, s, a), w, s.workers[w].pc.t)
  {
    assert WorkerOk(c, s, w);
  }

  lemma DoomedStep(c: Config, s: State, a: Action, w: nat, t: Ticket)
    requires Inv(c, s) && Enabled(c, s, a) && Doomed(c, s, w, t)
    ensures var s' := Apply(c, s, a);
            Doomed(c, s', w, t) || (t in s'.jobs && FailureStarted in s'.jobs[t].trace)
  {
    assert WorkerOk(c, s, w) && TypeHeld(s, w) == s.jobs[t].jtype;
    TraceGrows(c, s, a, t);
    ContextDoneExactly(c, s, a, w);
    if IsPhaseAction(a) && a.w == w {
      DoomedPhase(c, s, a, t);
    } else {
      OtherWorker(c, s, a, w);
    }
  }

  /** A worker inside a job moves by its own phases only; its job context may expire. */
  lemma OtherWorker(c: Config, s: State, a: Action, w: nat)
    requires Inv(c, s) && Enabled(c, s, a) && w < |s.workers| && s.workers[w].pc.Busy?
    requires BeforeCheck(s.workers[w].pc.phase) && !(IsPhaseAction(a) && a.w == w)
    ensures var s' := Apply(c, s, a);
            && w < |s'.workers| && s'.workers[w].pc == s.workers[w].pc
            && (s'.workers[w].ctx == s.workers[w].ctx || s'.workers[w].ctx.Expired?)
  {
    if IsPhaseAction(a) {
      OtherPhase(c, s, a, w);
    } else if IsLoopAction(a) {
      OtherLoop(c, s, a, w);
    } else if IsProducerAction(a) {
      OtherProducer(c, s, a, w);
    } else if IsStartAction(a) {
      OtherStart(c, s, a, w);
    } else {
      ControlActionFrame(c, s, a);
    }
  }

  lemma OtherPhase(c: Config, s: State, a: Action, w: nat)
    requires IsPhaseAction(a) && Enabled(c, s, a) && w < |s.workers| && a.w != w
    ensures w < |Apply(c, s, a).workers| && Apply(c, s, a).workers[w] == s.workers[w]
  {
    PhaseActionResult(c, s, a);
  }

  lemma OtherLoop(c: Config, s: State, a: Action, w: nat)
    requires IsLoopAction(a) && Enabled(c, s, a) && w < |s.workers| && s.workers[w].pc.Busy?
    requires BeforeCheck(s.workers[w].pc.phase)
    ensures var s' := Apply(c, s, a);
            && w < |s'.workers| && s'.workers[w].pc == s.workers[w].pc
            && (s'.workers[w].ctx == s.workers[w].ctx || s'.workers[w].ctx.Expired?)
  {
  }

  lemma OtherProducer(c: Config, s: State, a: Action, w: nat)
    requires IsProducerAction(a) && Enabled(c, s, a) && w < |s.workers| && s.workers[w].pc.Busy?
    ensures w < |Apply(c, s, a).workers| && Apply(c, s, a).workers[w] == s.workers[w]
  {
    if !a.Handoff? {
      ProducerActionFrame(c, s, a);
    }
  }

  lemma OtherStart(c: Config, s: State, a: Action, w: nat)
    requires IsStartAction(a) && Enabled(c, s, a) && w < |s.workers|
    ensures w < |Apply(c, s, a).workers| && Apply(c, s, a).workers[w] == s.workers[w]
  {
  }

  lemma DoomedPhase(c: Config, s: State, a: Action, t: Ticket)
    requires IsPhaseAction(a) && Enabled(c, s, a) && Doomed(c, s, a.w, t) && TypeHeld(s, a.w) == s.jobs[t].jtype
    ensures var s' := Apply(c, s, a);
            Doomed(c, s', a.w, t) || (t in s'.jobs && FailureStarted in s'.jobs[t].trace)
  {
    if a.Judge? {
      var tr := s.jobs[t].trace;
      assert FailureStarted in tr + [Judged(true), FailureStarted] by {
        assert (tr + [Judged(true), FailureStarted])[|tr| + 1] == FailureStarted;
      }
      assert FailureStarted in tr + [Judged(false), FailureStarted] by {
        assert (tr + [Judged(false), FailureStarted])[|tr| + 1] == FailureStarted;
      }
    }
  }

  /** However the worker goes on, a doomed job is not finished without its failure handler. */
  lemma {:induction false} DoomedFails(c: Config, s: State, w: nat, t: Ticket, actions: seq<Action>, s': State)
    requires Inv(c, s) && Doomed(c, s, w, t) && Run(c, s, actions, s')
    ensures t in s'.jobs
    ensures IsFinished(s', t) ==> FailureStarted in s'.jobs[t].trace
    decreases |actions|
  {
    if actions == [] {
      assert WorkerOk(c, s, w);
    } else {
      var s1 := Apply(c, s, actions[0]);
      StepInv(c, s, actions[0]);
      DoomedStep(c, s, actions[0], w, t);
      if Doomed(c, s1, w, t) {
        DoomedFails(c, s1, w, t, actions[1..], s');
      } else {
        TraceGrowsOverRun(c, s1, actions[1..], s', t);
      }
    }
  }

  /** After a signal: whenever the deferred check of a job with both handlers comes after the loop of the signal
      goroutine, the failure handler runs next. */
  lemma InterruptedJobsFail(c: Config, s: State, actions: seq<Action>, s': State, w: nat)
    requires Reachable(c, s) && Enabled(c, s, InterruptCancel) && s.interrupt.next >= |s.cancels|
    requires Run(c, Apply(c, s, InterruptCancel), actions, s') && Enabled(c, s', Judge(w))
    ensures var t := s'.workers[w].pc.t; var s1 := Apply(c, s', Judge(w));
            && t in s1.jobs && FailureStarted in s1.jobs[t].trace && s1.workers[w].pc == Busy(t, Failing)
  {
    var s0 := Apply(c, s, InterruptCancel);
    ReachableInv(c, s);
    StepInv(c, s, InterruptCancel);
    InterruptReachesAll(c, s);
    RunInv(c, s0, actions, s');
    assert w < c.Workers();
    DoneStaysDone(c, s0, actions, s', w);
    JudgedWhenDone(c, s', w);
  }

  lemma JudgedWhenDone(c: Config, s: State, w: nat)
    requires Inv(c, s) && Enabled(c, s, Judge(w)) && ContextDone(s, w)
    ensures var t := s.workers[w].pc.t; var s' := Apply(c, s, Judge(w));
            && t in s'.jobs && FailureStarted in s'.jobs[t].trace && s'.workers[w].pc == Busy(t, Failing)
  {
    var t := s.workers[w].pc.t;
    assert WorkerOk(c, s, w) && RecordOk(c, s, t);
    DoomedPhase(c, s, Judge(w), t);
  }

  /** Between the end of the main handler and the deferred check the job may still time out, which decides the check. */
  lemma LateExpiryDecides(c: Config, s: State, w: nat)
    requires Inv(c, s) && Enabled(c, s, Judge(w)) && !s.workers[w].pc.phase.panicked && !ContextDone(s, w)
    requires s.workers[w].ctx.Live?
    ensures var t := s.workers[w].pc.t;
            && Apply(c, s, Judge(w)).workers[w].pc == Busy(t, Releasing)
            && exists s' ::
                 Run(c, s, [Expire(w)] + [Judge(w)], s') && w < |s'.workers| && s'.workers[w].pc == Busy(t, Failing)
  {
    var s1 := Apply(c, s, Expire(w));
    var s2 := Apply(c, s1, Judge(w));
    RunFrom(c, s1, Judge(w), [], s2);
    assert [Judge(w)] + [] == [Judge(w)];
    RunFrom(c, s, Expire(w), [Judge(w)], s2);
  }
}
