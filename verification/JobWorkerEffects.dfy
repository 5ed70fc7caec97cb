/** What single steps of the job worker do: a job is accepted as its caller asked, Start runs to its end, a panic nobody
    handles ends the process, and every job context is released. */
module JobWorkerEffects {
  import opened JobWorker
  import opened JobWorkerSafety
  import opened Options

  // ----- enqueue -----

  /** A step of the caller p. */
  predicate StepOf(a: Action, p: nat) {
    (a.EnqueueBegin? || a.Send? || a.Handoff? || a.SendCount? || a.SendPanic?) && a.p == p
  }

  lemma CallerKeepsItsPlace(c: Config, s: State, a: Action, p: nat)
    requires Enabled(c, s, a) && p < |s.producers| && !StepOf(a, p)
    ensures p < |Apply(c, s, a).producers| && Apply(c, s, a).producers[p] == s.producers[p]
  {
    if IsWorkerAction(a) {
      WorkerActionFrame(c, s, a);
    } else if !IsProducerAction(a) && !IsStartAction(a) {
      ControlActionFrame(c, s, a);
    }
  }

  lemma {:induction false} CallerWaits(c: Config, s: State, actions: seq<Action>, s': State, p: nat)
    requires Run(c, s, actions, s') && p < |s.producers| && forall i | 0 <= i < |actions| :: !StepOf(actions[i], p)
    ensures p < |s'.producers| && s'.producers[p] == s.producers[p]
    decreases |actions|
  {
    if actions != [] {
      CallerKeepsItsPlace(c, s, actions[0], p);
      assert forall i | 0 <= i < |actions[1..]| :: actions[1..][i] == actions[i + 1];
      CallerWaits(c, Apply(c, s, actions[0]), actions[1..], s', p);
    }
  }

  /** A send adds one job of the caller's type, at the end of the caller's queue or straight to a worker of it, and
      changes no other job and not the other queue. */
  lemma AcceptedAsAsked(c: Config, s: State, a: Action)
    requires Inv(c, s) && Enabled(c, s, a) && (a.Send? || a.Handoff?)
    ensures var q, s' := s.producers[a.p].q, Apply(c, s, a);
            var t := Ticket(q, s.chans.Get(q).sent);
            && t !in s.jobs && t in s'.jobs && s'.jobs == s.jobs[t := s'.jobs[t]]
            && s'.jobs[t].jtype == s.producers[a.p].jtype
            && s'.chans.Get(if q.Fast? then Slow else Fast) == s.chans.Get(if q.Fast? then Slow else Fast)
            && (a.Send? ==> s'.chans.Get(q).buffer == s.chans.Get(q).buffer + [t])
            && (a.Handoff? ==> Holds(s', a.w, t) && s'.workers[a.w].q == q && s'.chans.Get(q).buffer == [])
  {
    assert JobsOk(c, s);
  }

  /** However long the caller waits at the channel, the job it sends is the one it was called with. */
  lemma EnqueuedAsAsked(c: Config, s: State, p: nat, q: Queue, jtype: JobType, actions: seq<Action>, s': State,
                        a: Action)
    requires Inv(c, s) && Enabled(c, s, EnqueueBegin(p, q, jtype))
    requires Run(c, Apply(c, s, EnqueueBegin(p, q, jtype)), actions, s')
    requires forall i | 0 <= i < |actions| :: !StepOf(actions[i], p)
    requires Enabled(c, s', a) && (a.Send? || a.Handoff?) && a.p == p
    ensures var t := Ticket(q, s'.chans.Get(q).sent); var s1 := Apply(c, s', a);
            && t !in s'.jobs && t in s1.jobs && s1.jobs[t].jtype == jtype
            && (t in s1.chans.Get(q).buffer || (a.Handoff? && Holds(s1, a.w, t)))
  {
    var s0 := Apply(c, s, EnqueueBegin(p, q, jtype));
    StepInv(c, s, EnqueueBegin(p, q, jtype));
    CallerWaits(c, s0, actions, s', p);
    RunInv(c, s0, actions, s');
    AcceptedAsAsked(c, s', a);
    if a.Send? {
      var buffer := Apply(c, s', a).chans.Get(q).buffer;
      assert buffer[|buffer| - 1] == Ticket(q, s'.chans.Get(q).sent);
    }
  }

  /** While the queue is open and has room, one more caller can come and enqueue a job of any type. */
  lemma AnyoneMayEnqueue(c: Config, s: State, q: Queue, jtype: JobType)
    requires Inv(c, s) && !s.crashed && !s.chans.Get(q).closed && |s.chans.Get(q).buffer| < c.capacity.Get(q)
    ensures var p, t := |s.producers|, Ticket(q, s.chans.Get(q).sent);
            exists s' ::
              && Run(c, s, [NewProducer] + ([EnqueueBegin(p, q, jtype)] + ([Send(p)] + [SendCount(p)])), s')
              && s'.chans.Get(q).buffer == s.chans.Get(q).buffer + [t]
              && t in s'.jobs && s'.jobs[t].jtype == jtype && s'.producers == s.producers + [Ready]
  {
    var p := |s.producers|;
    var s1 := Apply(c, s, NewProducer);
    CallBegins(c, s1, p, q, jtype);
    var s4 := SendRun(c, Apply(c, s1, EnqueueBegin(p, q, jtype)), p);
    RunFrom(c, s1, EnqueueBegin(p, q, jtype), [Send(p)] + [SendCount(p)], s4);
    RunFrom(c, s, NewProducer, [EnqueueBegin(p, q, jtype)] + ([Send(p)] + [SendCount(p)]), s4);
    assert s4.producers == s.producers + [Ready];
  }

  lemma CallBegins(c: Config, s: State, p: nat, q: Queue, jtype: JobType)
    requires !s.crashed && !s.chans.Get(q).closed && |s.chans.Get(q).buffer| < c.capacity.Get(q)
    requires p < |s.producers| && s.producers[p].Ready?
    ensures Enabled(c, s, EnqueueBegin(p, q, jtype))
    ensures var s' := Apply(c, s, EnqueueBegin(p, q, jtype));
            Enabled(c, s', Send(p)) && s' == s.(producers := s.producers[p := Sending(q, jtype)])
  {
  }

  lemma SendRun(c: Config, s: State, p: nat) returns (s': State)
    requires Enabled(c, s, Send(p))
    ensures Run(c, s, [Send(p)] + [SendCount(p)], s')
    ensures var q := s.producers[p].q; var t := Ticket(q, s.chans.Get(q).sent);
            && s'.chans.Get(q).buffer == s.chans.Get(q).buffer + [t] && s'.producers == s.producers[p := Ready]
            && t in s'.jobs && s'.jobs[t].jtype == s.producers[p].jtype
  {
    var s1 := Apply(c, s, Send(p));
    s' := Apply(c, s1, SendCount(p));
    RunFrom(c, s1, SendCount(p), [], s');
    assert [SendCount(p)] + [] == [SendCount(p)];
    RunFrom(c, s, Send(p), [SendCount(p)], s');
  }

  // ----- start -----

  predicate Starting(s: State) {
    s.starter.Spawning? || s.starter.Signalling?
  }

  function NextOfStart(s: State): Action {
    match s.starter
    case Spawning(_, added) => if added then StartGo else StartAdd
    case _ => StartSignal
  }

  function StepsOfStart(c: Config, s: State): int {
    match s.starter
    case Spawning(k, added) => 2 * (c.Workers() - k) + (if added then 2 else 3)
    case _ => 1
  }

  lemma StartGoesOn(c: Config, s: State)
    requires Inv(c, s) && !s.crashed && Starting(s)
    ensures IsStartAction(NextOfStart(s)) && Enabled(c, s, NextOfStart(s)) && StepsOfStart(c, s) > 0
    ensures var s' := Apply(c, s, NextOfStart(s));
            !s'.crashed && (s'.starter.Started? || (Starting(s') && StepsOfStart(c, s') < StepsOfStart(c, s)))
  {
  }

  /** Start can be run to its end without a step of any other goroutine. */
  lemma {:induction false} StartLoop(c: Config, s: State) returns (actions: seq<Action>, s': State)
    requires Inv(c, s) && !s.crashed && (Starting(s) || s.starter.Started?)
    ensures Run(c, s, actions, s') && forall k | 0 <= k < |actions| :: IsStartAction(actions[k])
    ensures Inv(c, s') && s'.starter.Started?
    decreases if Starting(s) then StepsOfStart(c, s) else 0
  {
    if s.starter.Started? {
      actions, s' := [], s;
    } else {
      var a := NextOfStart(s);
      StartGoesOn(c, s);
      StepInv(c, s, a);
      var rest;
      rest, s' := StartLoop(c, Apply(c, s, a));
      actions := [a] + rest;
      RunFrom(c, s, a, rest, s');
    }
  }

  /** What holds while nobody but Start has made a step. */
  ghost predicate Untouched(s: State) {
    && (forall w | 0 <= w < |s.workers| :: s.workers[w].pc.Idle?)
    && (forall i | 0 <= i < |s.cancels| :: !s.cancels[i])
    && !s.stats.StatsGone? && (s.interrupt.NoInterrupt? || s.interrupt.Waiting?)
  }

  lemma StartStepTouchesNothing(c: Config, s: State, a: Action)
    requires Untouched(s) && IsStartAction(a) && Enabled(c, s, a)
    ensures Untouched(Apply(c, s, a))
  {
  }

  lemma {:induction false} StartTouchesNothing(c: Config, s: State, actions: seq<Action>, s': State)
    requires Untouched(s) && Run(c, s, actions, s') && forall k | 0 <= k < |actions| :: IsStartAction(actions[k])
    ensures Untouched(s')
    decreases |actions|
  {
    if actions != [] {
      assert forall k | 0 <= k < |actions[1..]| :: actions[1..][k] == actions[k + 1];
      StartStepTouchesNothing(c, s, actions[0]);
      StartTouchesNothing(c, Apply(c, s, actions[0]), actions[1..], s');
    }
  }

  /** Start, called once and not after Stop, runs by its own steps alone to the end: it leaves an idle worker for every
      place of the two pools, the ticking stats loop, the waiting signal goroutine if signals are handled, and no
      context done. */
  lemma StartCompletes(c: Config, s: State)
    requires Inv(c, s) && !s.crashed && s.starter.NotStarted? && s.stopper.NotStopped?
    ensures exists steps, s' ::
              && Run(c, s, [StartBegin] + steps, s') && (forall k | 0 <= k < |steps| :: IsStartAction(steps[k]))
              && s'.starter.Started? && s'.stats.Ticking?
              && s'.interrupt == (if c.signals then Waiting else NoInterrupt)
              && |s'.workers| == c.pool.fast + c.pool.slow
              && (forall w | 0 <= w < |s'.workers| ::
                    s'.workers[w].pc.Idle? && s'.workers[w].q == if w < c.pool.fast then Fast else Slow)
              && |s'.cancels| == c.Workers() + (if c.signals then 2 else 1)
              && forall i | 0 <= i < |s'.cancels| :: !s'.cancels[i]
  {
    var s1 := Apply(c, s, StartBegin);
    StepInv(c, s, StartBegin);
    var steps, s' := StartLoop(c, s1);
    StartTouchesNothing(c, s1, steps, s');
    RunFrom(c, s, StartBegin, steps, s');
    forall w | 0 <= w < |s'.workers| ensures s'.workers[w].q == if w < c.pool.fast then Fast else Slow {
      assert WorkerOk(c, s', w);
    }
  }

  // ----- who can go on -----

  /** A caller waits at the channel exactly while the queue is open, full, and no idle worker can be handed the job. */
  lemma CallerWaitsExactly(c: Config, s: State, p: nat)
    requires !s.crashed && SendingAt(s, p)
    ensures var q := s.producers[p].q; var ch := s.chans.Get(q);
            (forall a | StepOf(a, p) :: !Enabled(c, s, a)) <==>
            && !ch.closed && |ch.buffer| >= c.capacity.Get(q)
            && (ch.buffer == [] ==> forall w | 0 <= w < |s.workers| :: !(s.workers[w].pc.Idle? && s.workers[w].q == q))
  {
    var q := s.producers[p].q;
    var ch := s.chans.Get(q);
    if ch.closed {
      assert StepOf(SendPanic(p), p) && Enabled(c, s, SendPanic(p));
    } else if |ch.buffer| < c.capacity.Get(q) {
      assert StepOf(Send(p), p) && Enabled(c, s, Send(p));
    } else if w: nat :| w < |s.workers| && s.workers[w].pc.Idle? && s.workers[w].q == q && ch.buffer == [] {
      assert StepOf(Handoff(p, w), p) && Enabled(c, s, Handoff(p, w));
    }
  }

  /** A step of the worker, other than the expiry of its job context. */
  predicate StepOfWorker(a: Action, w: nat) {
    IsWorkerAction(a) && !a.Expire? && a.w == w
  }

  /** A worker rests exactly when it is gone, or idle at an empty open queue with a live context. */
  lemma WorkerRestsExactly(c: Config, s: State, w: nat)
    requires !s.crashed && w < |s.workers|
    ensures (forall a | StepOfWorker(a, w) :: !Enabled(c, s, a)) <==>
            || s.workers[w].pc.Gone?
            || (&& s.workers[w].pc.Idle? && !ContextDone(s, w)
                && s.chans.Get(s.workers[w].q).buffer == [] && !s.chans.Get(s.workers[w].q).closed)
  {
    var a := NextOf(s, w);
    assert a.Some? ==> StepOfWorker(a.value, w) && Enabled(c, s, a.value);
  }

  /** A step a worker can take, if any. */
  function NextOf(s: State, w: nat): Option<Action>
    requires w < |s.workers|
  {
    var ch := s.chans.Get(s.workers[w].q);
    match s.workers[w].pc
    case Idle =>
      if ch.buffer != [] then Some(Take(w))
      else if ch.closed then Some(SeeClosed(w))
      else if ContextDone(s, w) then Some(SeeDone(w))
      else None
    case Busy(_, phase) => Some(NextInPhase(phase, w))
    case Leaving => Some(Exit(w))
    case Gone => None
  }

  function NextInPhase(phase: Phase, w: nat): Action {
    match phase
    case Took => Uncount(w)
    case Counted => Begin(w)
    case Active => Dispatch(w)
    case Running(_) => Return(w, false)
    case Unwinding(_, _) => Judge(w)
    case Failing => FailureReturn(w, false)
    case Releasing => Release(w)
    case Dropping => Drop(w)
  }

  /** Stop gets hold of the lock exactly when it was not called before and Start is not under way. */
  lemma StopBeginsExactly(c: Config, s: State)
    ensures Enabled(c, s, StopBegin) <==> !s.crashed && s.stopper.NotStopped? && s.starter in {NotStarted, Started}
  {
  }

  /** An idle worker may leave although there are jobs in its queue once its context is done. */
  lemma DoneWorkerMayLeave(c: Config, s: State, w: nat)
    requires !s.crashed && IdleAt(s, w)
    ensures Enabled(c, s, SeeDone(w)) <==> ContextDone(s, w)
    ensures Enabled(c, s, Take(w)) <==> s.chans.Get(s.workers[w].q).buffer != []
  {
  }

  // ----- crashes -----

  /** The process ends exactly by a send on a closed queue, a panic of a main handler without failure handler, or a
      panic of a failure handler. */
  lemma CrashExactly(c: Config, s: State, a: Action)
    requires Enabled(c, s, a)
    ensures Apply(c, s, a).crashed <==>
            || a.SendPanic?
            || (a.Return? && a.panicked && TypeHeld(s, a.w) !in c.failures)
            || (a.FailureReturn? && a.panicked)
  {
    if !IsPhaseAction(a) {
      NoCrash(c, s, a);
    }
  }

  lemma NoCrash(c: Config, s: State, a: Action)
    requires !IsPhaseAction(a) && Enabled(c, s, a)
    ensures Apply(c, s, a).crashed <==> a.SendPanic?
  {
  }

  // ----- job contexts -----

  /** Only a worker between the start of a main handler and the deferred cancel has a job context. */
  ghost predicate ContextsReleased(s: State) {
    forall w | 0 <= w < |s.workers| :: ContextReleased(s.workers[w])
  }

  predicate ContextReleased(worker: Worker) {
    worker.ctx.Released? ||
    (worker.pc.Busy? && (worker.pc.phase.Running? || worker.pc.phase.Unwinding? || worker.pc.phase.Failing? ||
                         worker.pc.phase.Releasing?))
  }

  lemma ContextsStep(c: Config, s: State, a: Action)
    requires Enabled(c, s, a) && ContextsReleased(s)
    ensures ContextsReleased(Apply(c, s, a))
  {
    if IsPhaseAction(a) {
      ContextsPhase(c, s, a);
    } else if IsLoopAction(a) {
      ContextsLoop(c, s, a);
    } else if IsProducerAction(a) {
      ContextsProducer(c, s, a);
    } else if !IsStartAction(a) {
      ControlActionFrame(c, s, a);
    }
  }

  lemma ContextsPhase(c: Config, s: State, a: Action)
    requires IsPhaseAction(a) && Enabled(c, s, a) && ContextsReleased(s)
    ensures ContextsReleased(Apply(c, s, a))
  {
    assert ContextReleased(s.workers[a.w]);
  }

  lemma ContextsLoop(c: Config, s: State, a: Action)
    requires IsLoopAction(a) && Enabled(c, s, a) && ContextsReleased(s)
    ensures ContextsReleased(Apply(c, s, a))
  {
    assert ContextReleased(s.workers[a.w]);
  }

  lemma ContextsProducer(c: Config, s: State, a: Action)
    requires IsProducerAction(a) && Enabled(c, s, a) && ContextsReleased(s)
    ensures ContextsReleased(Apply(c, s, a))
  {
    if a.Handoff? {
      assert ContextReleased(s.workers[a.w]);
    } else {
      ProducerActionFrame(c, s, a);
    }
  }

  /** In every reachable state: each job context is released before its worker takes the next job. */
  lemma {:induction false} ContextsReleasedOverRuns(c: Config, s: State, actions: seq<Action>, s': State)
    requires ContextsReleased(s) && Run(c, s, actions, s')
    ensures ContextsReleased(s')
    decreases |actions|
  {
    if actions != [] {
      ContextsStep(c, s, actions[0]);
      ContextsReleasedOverRuns(c, Apply(c, s, actions[0]), actions[1..], s');
    }
  }
}
