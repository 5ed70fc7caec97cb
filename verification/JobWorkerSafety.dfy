/** What every reachable state of the job worker satisfies. */
module JobWorkerSafety {
  import opened JobWorker
  import opened Sums

  function One(b: bool): int {
    if b then 1 else 0
  }

  /** A live worker has not yet told the wait group that it is gone. */
  function LiveWeight(w: Worker): int {
    One(!w.pc.Gone?)
  }

  /** Between the receive and the decrement of the queue-length counter. */
  function TookWeight(w: Worker): int {
    One(w.pc.Busy? && w.pc.phase.Took?)
  }

  /** Between the two updates of the active counter in processJob. */
  function ActiveWeight(w: Worker): int {
    One(w.pc.Busy? && !w.pc.phase.Took? && !w.pc.phase.Counted?)
  }

  function UncountedWeight(p: Producer): int {
    One(p.Uncounted?)
  }

  const LIVE: Worker -> int := w => LiveWeight(w)
  const TAKEN: Worker -> int := w => TookWeight(w)
  const ACTIVE: Worker -> int := w => ActiveWeight(w)
  const UNCOUNTED: Producer -> int := p => UncountedWeight(p)

  /** How far Start is decides which goroutines exist and how many cancel functions are registered. */
  ghost predicate StartShape(c: Config, s: State) {
    match s.starter
    case NotStarted => s.workers == [] && s.cancels == [] && s.stats.NoStats? && s.interrupt.NoInterrupt?
    case Spawning(k, _) =>
      && k <= c.Workers() && |s.workers| == k && |s.cancels| == k && s.stats.NoStats? && s.interrupt.NoInterrupt?
      && s.stopper.NotStopped?
    case Signalling =>
      && |s.workers| == c.Workers() && |s.cancels| == c.Workers() + 1 && !s.stats.NoStats? && s.interrupt.NoInterrupt?
      && s.stopper.NotStopped? && c.signals
    case Started =>
      && |s.workers| == c.Workers() && !s.stats.NoStats?
      && |s.cancels| == c.Workers() + 1 + One(c.signals)
      && (s.interrupt.NoInterrupt? <==> !c.signals)
  }

  /** The queues are closed by Stop alone, fast first; CloseSlow is over when cancelAll starts. */
  ghost predicate StopShape(s: State) {
    && s.chans.fast.closed == !(s.stopper.NotStopped? || s.stopper.Locked?)
    && s.chans.slow.closed == (s.stopper.CancellingAll? || s.stopper.WaitingAll? || s.stopper.Returned?)
    && (s.stopper.CancellingAll? ==>
          s.stopper.next <= |s.cancels| && forall i | 0 <= i < s.stopper.next :: s.cancels[i])
    && ((s.stopper.WaitingAll? || s.stopper.Returned?) ==> forall i | 0 <= i < |s.cancels| :: s.cancels[i])
    && (s.interrupt.Cancelling? ==> s.interrupt.next <= |s.cancels|)
    && (s.stopper.Returned? ==> s.wg == 0)
  }

  /** A channel holds the jobs sent and not yet taken, oldest first, and never more than its capacity. */
  ghost predicate ChanOk(c: Config, s: State, q: Queue) {
    var ch := s.chans.Get(q);
    && |ch.buffer| <= c.capacity.Get(q)
    && ch.sent == ch.taken + |ch.buffer|
    && forall i | 0 <= i < |ch.buffer| :: ch.buffer[i] == Ticket(q, ch.taken + i)
  }

  ghost predicate WaitGroupOk(s: State) {
    s.wg == Sum(s.workers, LIVE) + One(s.stats.Ticking?) + One(s.starter.Spawning? && s.starter.added)
  }

  ghost predicate QueueCounterOk(s: State) {
    |s.chans.fast.buffer| + |s.chans.slow.buffer| == s.sen + Sum(s.producers, UNCOUNTED) - Sum(s.workers, TAKEN)
  }

  ghost predicate ActiveCounterOk(s: State) {
    s.sac == Sum(s.workers, ACTIVE)
  }

  /** The whole life of a finished job. With a main and a failure handler: the main handler runs once, then the
      deferred closure looks at the panic and at the context, and the failure handler runs once if and only if
      the main one panicked or the context was done. A context done at the start is still done at that point. */
  predicate Complete(c: Config, jtype: JobType, tr: seq<Event>) {
    if jtype !in c.handlers then
      tr == [Sent, Received, Began, Dropped]
    else if jtype !in c.failures then
      |tr| == 6 && tr[3].StartedWith? && tr == [Sent, Received, Began, tr[3], Ended(false), Dropped]
    else
      && |tr| >= 7 && tr[3].StartedWith? && tr[4].Ended? && tr[5].Judged?
      && (tr[3].cancelled ==> tr[5].ctxDone)
      && tr == [Sent, Received, Began, tr[3], tr[4], tr[5]]
               + (if tr[4].panicked || tr[5].ctxDone then [FailureStarted, FailureEnded] else [])
               + [Dropped]
  }

  /** What the trace of a job looks like while a worker is in the given phase. */
  predicate PhaseTrace(c: Config, jtype: JobType, phase: Phase, tr: seq<Event>) {
    match phase
    case Took => tr == [Sent, Received]
    case Counted => tr == [Sent, Received]
    case Active => tr == [Sent, Received, Began]
    case Running(cancelled) => jtype in c.handlers && tr == [Sent, Received, Began, StartedWith(cancelled)]
    case Unwinding(cancelled, panicked) =>
      && jtype in c.handlers && jtype in c.failures
      && tr == [Sent, Received, Began, StartedWith(cancelled), Ended(panicked)]
    case Failing => Complete(c, jtype, tr + [FailureEnded] + [Dropped])
    case Releasing => Complete(c, jtype, tr + [Dropped])
    case Dropping => Complete(c, jtype, tr + [Dropped])
  }

  predicate Holds(s: State, w: nat, t: Ticket) {
    w < |s.workers| && s.workers[w].pc.Busy? && s.workers[w].pc.t == t
  }

  /** The record of a job agrees with the place where the job physically is. */
  ghost predicate RecordOk(c: Config, s: State, t: Ticket)
    requires t in s.jobs
  {
    var r := s.jobs[t];
    match r.place
    case Queued => t.n >= s.chans.Get(t.q).taken && r.trace == [Sent]
    case With(w) =>
      t.n < s.chans.Get(t.q).taken && Holds(s, w, t) && PhaseTrace(c, r.jtype, s.workers[w].pc.phase, r.trace)
    case Finished => t.n < s.chans.Get(t.q).taken && Complete(c, r.jtype, r.trace)
  }

  ghost predicate JobsOk(c: Config, s: State) {
    && (forall t :: t in s.jobs <==> t.n < s.chans.Get(t.q).sent)
    && (forall t | t in s.jobs :: RecordOk(c, s, t))
  }

  /** A busy worker holds an accepted job of its own queue, and a context known to be done stays done. */
  ghost predicate WorkerOk(c: Config, s: State, w: nat)
    requires w < |s.workers|
  {
    var worker := s.workers[w];
    && worker.q == c.QueueOf(w)
    && (worker.pc.Busy? ==>
          && worker.pc.t.q == worker.q
          && worker.pc.t in s.jobs
          && s.jobs[worker.pc.t].place == With(w)
          && (worker.pc.phase.Running? || worker.pc.phase.Unwinding? ==>
                && !worker.ctx.Released?
                && (worker.pc.phase.cancelled ==> ContextDone(s, w))))
  }

  ghost predicate WorkersOk(c: Config, s: State) {
    forall w | 0 <= w < |s.workers| :: WorkerOk(c, s, w)
  }

  ghost predicate ShapeOk(c: Config, s: State) {
    StartShape(c, s) && StopShape(s) && ChanOk(c, s, Fast) && ChanOk(c, s, Slow)
  }

  ghost predicate CountersOk(s: State) {
    WaitGroupOk(s) && QueueCounterOk(s) && ActiveCounterOk(s)
  }

  ghost predicate Inv(c: Config, s: State) {
    ShapeOk(c, s) && CountersOk(s) && JobsOk(c, s) && WorkersOk(c, s)
  }

  lemma InitialInv(c: Config)
    ensures Inv(c, INITIAL)
  {
  }

  // ----- shape -----

  /** What no worker action touches. */
  lemma WorkerActionFrame(c: Config, s: State, a: Action)
    requires Enabled(c, s, a) && IsWorkerAction(a)
    ensures var s' := Apply(c, s, a);
            && s'.starter == s.starter && s'.stopper == s.stopper && s'.stats == s.stats && s'.interrupt == s.interrupt
            && s'.cancels == s.cancels && s'.parentDone == s.parentDone && s'.producers == s.producers
            && |s'.workers| == |s.workers|
            && (!a.Take? ==> s'.chans == s.chans)
            && (!a.Uncount? ==> s'.sen == s.sen)
            && (!a.Begin? && !a.Drop? ==> s'.sac == s.sac)
            && (!a.Exit? ==> s'.wg == s.wg)
  {
    if a.Dispatch? {
      PhaseActionResult(c, s, a);
    }
  }

  /** A phase action either crashes the process or is one Advance of the worker it names, up to the counters. */
  lemma PhaseActionResult(c: Config, s: State, a: Action)
    requires Enabled(c, s, a) && IsPhaseAction(a)
    ensures var s' := Apply(c, s, a); var w := Mover(s, a);
            && w < |s.workers| && s.workers[w].pc.Busy?
            && (s' == Crash(s) || exists phase, ctx, events ::
                  s' == Advance(s, w, phase, ctx, events).(sen := s'.sen, sac := s'.sac))
  {
    var s' := Apply(c, s, a);
    var x := s.workers[Mover(s, a)].ctx;
    var w := Mover(s, a);
    match a
    case Uncount(_) => assert s' == Advance(s, w, Counted, x, []).(sen := s'.sen, sac := s'.sac);
    case Begin(_) => assert s' == Advance(s, w, Active, x, [Began]).(sen := s'.sen, sac := s'.sac);
    case Dispatch(_) =>
      var done := ContextDone(s, w);
      assert s' == Advance(s, w, Running(done), Live, [StartedWith(done)]).(sen := s'.sen, sac := s'.sac)
             || s' == Advance(s, w, Dropping, x, []).(sen := s'.sen, sac := s'.sac);
    case Return(_, p) =>
      var phase := Unwinding(s.workers[w].pc.phase.cancelled, p);
      assert s' == Crash(s) || s' == Advance(s, w, phase, x, [Ended(p)]).(sen := s'.sen, sac := s'.sac)
             || s' == Advance(s, w, Releasing, x, [Ended(false)]).(sen := s'.sen, sac := s'.sac);
    case Judge(_) =>
      var done := ContextDone(s, w) || !x.Live?;
      assert s' == Advance(s, w, Failing, x, [Judged(done), FailureStarted]).(sen := s'.sen, sac := s'.sac)
             || s' == Advance(s, w, Releasing, x, [Judged(done)]).(sen := s'.sen, sac := s'.sac);
    case FailureReturn(_, p) =>
      assert s' == Crash(s) || s' == Advance(s, w, Releasing, x, [FailureEnded]).(sen := s'.sen, sac := s'.sac);
    case Release(_) => assert s' == Advance(s, w, Dropping, Released, []).(sen := s'.sen, sac := s'.sac);
  }

  lemma ShapeStartAction(c: Config, s: State, a: Action)
    requires ShapeOk(c, s) && Enabled(c, s, a) && IsStartAction(a)
    ensures ShapeOk(c, Apply(c, s, a))
  {
  }

  lemma ShapeProducerAction(c: Config, s: State, a: Action)
    requires ShapeOk(c, s) && Enabled(c, s, a) && IsProducerAction(a)
    ensures ShapeOk(c, Apply(c, s, a))
  {
    ProducerActionFrame(c, s, a);
    if a.Send? || a.Handoff? {
      ChansAfterSend(c, s, a, Fast);
      ChansAfterSend(c, s, a, Slow);
    }
  }

  /** What no action of a caller touches. */
  lemma ProducerActionFrame(c: Config, s: State, a: Action)
    requires Enabled(c, s, a) && IsProducerAction(a)
    ensures var s' := Apply(c, s, a);
            && s'.starter == s.starter && s'.stopper == s.stopper && s'.stats == s.stats && s'.interrupt == s.interrupt
            && s'.cancels == s.cancels && s'.parentDone == s.parentDone && s'.wg == s.wg && s'.sac == s.sac
            && |s'.workers| == |s.workers|
            && s'.chans.fast.closed == s.chans.fast.closed && s'.chans.slow.closed == s.chans.slow.closed
            && (!a.Send? && !a.Handoff? ==> s'.chans == s.chans && s'.jobs == s.jobs && s'.workers == s.workers)
  {
  }

  lemma ChansAfterSend(c: Config, s: State, a: Action, q: Queue)
    requires ChanOk(c, s, q) && Enabled(c, s, a) && (a.Send? || a.Handoff?)
    ensures ChanOk(c, Apply(c, s, a), q)
  {
  }

  lemma ShapeTake(c: Config, s: State, w: nat)
    requires ShapeOk(c, s) && Enabled(c, s, Take(w))
    ensures ShapeOk(c, Apply(c, s, Take(w)))
  {
    var s' := Apply(c, s, Take(w));
    TakeShape(c, s, w);
    assert ChanOk(c, s', Fast) && ChanOk(c, s', Slow);
  }

  lemma TakeShape(c: Config, s: State, w: nat)
    requires StartShape(c, s) && StopShape(s) && Enabled(c, s, Take(w))
    ensures StartShape(c, Apply(c, s, Take(w))) && StopShape(Apply(c, s, Take(w)))
  {
  }

  lemma ShapeWorkerAction(c: Config, s: State, a: Action)
    requires ShapeOk(c, s) && CountersOk(s) && Enabled(c, s, a) && IsWorkerAction(a) && !a.Take?
    ensures ShapeOk(c, Apply(c, s, a))
  {
    WorkerActionFrame(c, s, a);
    var s' := Apply(c, s, a);
    if s.stopper.Returned? {
      AllGone(c, s);
    }
    assert StartShape(c, s') && StopShape(s');
  }

  lemma ShapeControlAction(c: Config, s: State, a: Action)
    requires ShapeOk(c, s) && CountersOk(s) && Enabled(c, s, a)
    requires !IsWorkerAction(a) && !IsProducerAction(a) && !IsStartAction(a)
    ensures ShapeOk(c, Apply(c, s, a))
  {
    var s' := Apply(c, s, a);
    ControlShape(c, s, a);
    assert ChanOk(c, s', Fast) && ChanOk(c, s', Slow);
  }

  lemma ControlShape(c: Config, s: State, a: Action)
    requires StartShape(c, s) && StopShape(s) && CountersOk(s)
    requires !IsWorkerAction(a) && !IsProducerAction(a) && !IsStartAction(a) && ControlEnabled(c, s, a)
    ensures StartShape(c, ControlApply(c, s, a)) && StopShape(ControlApply(c, s, a))
  {
    if s.stopper.Returned? {
      AllGone(c, s);
    }
    if a.InterruptCancel? || a.StopCancel? {
      CancelShape(c, s, a);
    }
  }

  lemma CancelShape(c: Config, s: State, a: Action)
    requires StartShape(c, s) && StopShape(s) && (a.InterruptCancel? || a.StopCancel?) && ControlEnabled(c, s, a)
    ensures StartShape(c, ControlApply(c, s, a)) && StopShape(ControlApply(c, s, a))
  {
  }

  lemma StepShape(c: Config, s: State, a: Action)
    requires Inv(c, s) && Enabled(c, s, a)
    ensures ShapeOk(c, Apply(c, s, a))
  {
    if a.Take? {
      ShapeTake(c, s, a.w);
    } else if IsWorkerAction(a) {
      ShapeWorkerAction(c, s, a);
    } else if IsProducerAction(a) {
      ShapeProducerAction(c, s, a);
    } else if IsStartAction(a) {
      ShapeStartAction(c, s, a);
    } else {
      ShapeControlAction(c, s, a);
    }
  }

  /** Once the wait group is zero outside of Start, every worker and the stats loop are gone. */
  lemma AllGone(c: Config, s: State)
    requires CountersOk(s) && s.wg == 0
    ensures forall w | 0 <= w < |s.workers| :: s.workers[w].pc.Gone?
    ensures !s.stats.Ticking? && !(s.starter.Spawning? && s.starter.added)
  {
    SumNonNegative(s.workers, LIVE);
    forall w | 0 <= w < |s.workers| ensures s.workers[w].pc.Gone? {
      SumAtLeast(s.workers, w, LIVE);
    }
  }

  // ----- counters -----

  /** Replacing one worker changes the three sums over workers by that worker's own weights. */
  lemma WorkerSums(s: State, w: nat, x: Worker)
    requires w < |s.workers|
    ensures Sum(s.workers[w := x], LIVE) == Sum(s.workers, LIVE) - LiveWeight(s.workers[w]) + LiveWeight(x)
    ensures Sum(s.workers[w := x], TAKEN) == Sum(s.workers, TAKEN) - TookWeight(s.workers[w]) + TookWeight(x)
    ensures Sum(s.workers[w := x], ACTIVE) == Sum(s.workers, ACTIVE) - ActiveWeight(s.workers[w]) + ActiveWeight(x)
  {
    SumUpdate(s.workers, w, x, LIVE);
    SumUpdate(s.workers, w, x, TAKEN);
    SumUpdate(s.workers, w, x, ACTIVE);
  }

  /** The worker an action moves, if any. */
  function Mover(s: State, a: Action): nat {
    match a
    case Handoff(_, w) => w
    case Take(w) => w
    case SeeClosed(w) => w
    case SeeDone(w) => w
    case Uncount(w) => w
    case Begin(w) => w
    case Dispatch(w) => w
    case Expire(w) => w
    case Return(w, _) => w
    case Judge(w) => w
    case FailureReturn(w, _) => w
    case Release(w) => w
    case Drop(w) => w
    case Exit(w) => w
    case _ => |s.workers|
  }

  lemma OwnWorkerFrame(c: Config, s: State, a: Action)
    requires Enabled(c, s, a) && IsWorkerAction(a)
    ensures var s' := Apply(c, s, a); var w := Mover(s, a);
            w < |s.workers| && |s'.workers| == |s.workers| && s'.workers == s.workers[w := s'.workers[w]]
  {
    if IsPhaseAction(a) {
      PhaseActionResult(c, s, a);
    }
  }

  lemma ProducersFrame(c: Config, s: State, a: Action)
    requires Enabled(c, s, a) && IsProducerAction(a)
    ensures var s' := Apply(c, s, a);
            Sum(s'.producers, UNCOUNTED) == Sum(s.producers, UNCOUNTED) + One(a.Send? || a.Handoff?) - One(a.SendCount?)
  {
    match a
    case NewProducer => SumAppend(s.producers, Ready, UNCOUNTED);
    case EnqueueBegin(p, q, jtype) => SumUpdate(s.producers, p, Sending(q, jtype), UNCOUNTED);
    case Send(p) => SumUpdate(s.producers, p, Uncounted, UNCOUNTED);
    case Handoff(p, w) => SumUpdate(s.producers, p, Uncounted, UNCOUNTED);
    case SendCount(p) => SumUpdate(s.producers, p, Ready, UNCOUNTED);
    case SendPanic(_) =>
  }

  lemma CountersWorkerAction(c: Config, s: State, a: Action)
    requires CountersOk(s) && Enabled(c, s, a) && IsWorkerAction(a)
    ensures CountersOk(Apply(c, s, a))
  {
    var s' := Apply(c, s, a);
    var w := Mover(s, a);
    OwnWorkerFrame(c, s, a);
    WorkerActionFrame(c, s, a);
    WorkerSums(s, w, s'.workers[w]);
    if a.Return? || a.Judge? || a.FailureReturn? {
      HandlerActionCounts(c, s, a);
    } else if IsPhaseAction(a) {
      PhaseActionCounts(c, s, a);
    } else {
      LoopActionCounts(c, s, a);
    }
  }

  /** What a worker action adds to the counters is what it adds to the sums over the workers. */
  ghost predicate CountsFollow(s: State, s': State, w: nat)
    requires w < |s.workers| && w < |s'.workers|
  {
    && s'.wg - s.wg == LIVE(s'.workers[w]) - LIVE(s.workers[w])
    && s'.sac - s.sac == ACTIVE(s'.workers[w]) - ACTIVE(s.workers[w])
    && |s'.chans.fast.buffer| + |s'.chans.slow.buffer| - s'.sen + TAKEN(s'.workers[w])
       == |s.chans.fast.buffer| + |s.chans.slow.buffer| - s.sen + TAKEN(s.workers[w])
  }

  lemma PhaseActionCounts(c: Config, s: State, a: Action)
    requires Enabled(c, s, a) && (a.Uncount? || a.Begin? || a.Dispatch? || a.Release?)
    ensures Mover(s, a) < |s.workers| && Mover(s, a) < |Apply(c, s, a).workers|
    ensures CountsFollow(s, Apply(c, s, a), Mover(s, a))
  {
  }

  lemma HandlerActionCounts(c: Config, s: State, a: Action)
    requires Enabled(c, s, a) && (a.Return? || a.Judge? || a.FailureReturn?)
    ensures Mover(s, a) < |s.workers| && Mover(s, a) < |Apply(c, s, a).workers|
    ensures CountsFollow(s, Apply(c, s, a), Mover(s, a))
  {
  }

  lemma LoopActionCounts(c: Config, s: State, a: Action)
    requires Enabled(c, s, a) && IsWorkerAction(a) && !IsPhaseAction(a)
    ensures Mover(s, a) < |s.workers| && Mover(s, a) < |Apply(c, s, a).workers|
    ensures CountsFollow(s, Apply(c, s, a), Mover(s, a))
  {
  }

  lemma CountersProducerAction(c: Config, s: State, a: Action)
    requires CountersOk(s) && Enabled(c, s, a) && IsProducerAction(a)
    ensures CountersOk(Apply(c, s, a))
  {
    ProducersFrame(c, s, a);
    if a.Handoff? {
      WorkerSums(s, a.w, Apply(c, s, a).workers[a.w]);
    }
  }

  lemma CountersOtherAction(c: Config, s: State, a: Action)
    requires ShapeOk(c, s) && CountersOk(s) && Enabled(c, s, a) && !IsWorkerAction(a) && !IsProducerAction(a)
    ensures CountersOk(Apply(c, s, a))
  {
    if a.StartGo? && s.starter.k < c.Workers() {
      CountersNewWorker(c, s);
    } else if IsStartAction(a) {
      CountersStart(c, s, a);
    } else {
      CountersControl(c, s, a);
    }
  }

  lemma CountersStart(c: Config, s: State, a: Action)
    requires StartShape(c, s) && CountersOk(s) && Enabled(c, s, a) && IsStartAction(a)
    requires !(a.StartGo? && s.starter.k < c.Workers())
    ensures CountersOk(Apply(c, s, a))
  {
    var s' := Apply(c, s, a);
    assert s'.workers == s.workers && s'.producers == s.producers && s'.chans == s.chans;
    assert s'.sen == s.sen && s'.sac == s.sac;
  }

  /** What no control action touches. */
  lemma ControlActionFrame(c: Config, s: State, a: Action)
    requires Enabled(c, s, a) && !IsWorkerAction(a) && !IsProducerAction(a) && !IsStartAction(a)
    ensures var s' := Apply(c, s, a);
            && s'.workers == s.workers && s'.producers == s.producers && s'.sen == s.sen && s'.sac == s.sac
            && s'.jobs == s.jobs && s'.starter == s.starter && |s'.cancels| == |s.cancels|
            && s'.chans.fast == s.chans.fast.(closed := s'.chans.fast.closed)
            && s'.chans.slow == s.chans.slow.(closed := s'.chans.slow.closed)
            && (s.parentDone ==> s'.parentDone) && (forall i | 0 <= i < |s.cancels| :: s.cancels[i] ==> s'.cancels[i])
            && (if a.StatsExit? then s.stats.Ticking? && s'.stats.StatsGone? && s'.wg == s.wg - 1
                else s'.stats == s.stats && s'.wg == s.wg)
  {
  }

  lemma CountersControl(c: Config, s: State, a: Action)
    requires CountersOk(s) && Enabled(c, s, a) && !IsWorkerAction(a) && !IsProducerAction(a) && !IsStartAction(a)
    ensures CountersOk(Apply(c, s, a))
  {
    ControlActionFrame(c, s, a);
  }

  lemma CountersNewWorker(c: Config, s: State)
    requires ShapeOk(c, s) && CountersOk(s) && Enabled(c, s, StartGo) && s.starter.k < c.Workers()
    ensures CountersOk(Apply(c, s, StartGo))
  {
    var x := Worker(c.QueueOf(s.starter.k), Idle, Released);
    SumAppend(s.workers, x, LIVE);
    SumAppend(s.workers, x, TAKEN);
    SumAppend(s.workers, x, ACTIVE);
  }

  lemma StepCounters(c: Config, s: State, a: Action)
    requires Inv(c, s) && Enabled(c, s, a)
    ensures CountersOk(Apply(c, s, a))
  {
    if IsWorkerAction(a) {
      CountersWorkerAction(c, s, a);
    } else if IsProducerAction(a) {
      CountersProducerAction(c, s, a);
    } else {
      CountersOtherAction(c, s, a);
    }
  }

  // ----- jobs and workers -----

  /** Channels' counts, records and busy workers are as they were; contexts that were done stay done. */
  ghost predicate Quiet(c: Config, s: State, s': State) {
    && s'.jobs == s.jobs
    && (forall q: Queue :: s'.chans.Get(q).sent == s.chans.Get(q).sent && s'.chans.Get(q).taken == s.chans.Get(q).taken)
    && |s'.workers| >= |s.workers|
    && (forall w | 0 <= w < |s.workers| :: QuietWorker(s.workers[w], s'.workers[w]))
    && (forall w | |s.workers| <= w < |s'.workers| :: s'.workers[w].pc.Idle? && s'.workers[w].q == c.QueueOf(w))
    && (forall w: nat | ContextDone(s, w) :: ContextDone(s', w))
  }

  predicate QuietWorker(worker: Worker, worker': Worker) {
    || worker' == worker
    || (!worker.pc.Busy? && !worker'.pc.Busy? && worker'.q == worker.q)
    || worker' == worker.(ctx := Expired)
  }

  /** A quiet action keeps both job invariants. */
  lemma QuietStep(c: Config, s: State, s': State)
    requires JobsOk(c, s) && WorkersOk(c, s) && Quiet(c, s, s')
    ensures JobsOk(c, s') && WorkersOk(c, s')
  {
    forall t | t in s'.jobs ensures RecordOk(c, s', t) {
      assert RecordOk(c, s, t);
    }
    forall w | 0 <= w < |s'.workers| ensures WorkerOk(c, s', w) {
      if w < |s.workers| {
        assert WorkerOk(c, s, w);
      }
    }
  }

  lemma QuietLoopAction(c: Config, s: State, a: Action)
    requires Enabled(c, s, a) && IsLoopAction(a) && !a.Take? && !a.Drop?
    ensures Quiet(c, s, Apply(c, s, a))
  {
  }

  lemma QuietProducerAction(c: Config, s: State, a: Action)
    requires Enabled(c, s, a) && IsProducerAction(a) && !a.Send? && !a.Handoff?
    ensures Quiet(c, s, Apply(c, s, a))
  {
    ProducerActionFrame(c, s, a);
  }

  lemma QuietStartAction(c: Config, s: State, a: Action)
    requires StartShape(c, s) && Enabled(c, s, a) && IsStartAction(a)
    ensures Quiet(c, s, Apply(c, s, a))
  {
  }

  lemma QuietControlAction(c: Config, s: State, a: Action)
    requires Enabled(c, s, a) && !IsWorkerAction(a) && !IsProducerAction(a) && !IsStartAction(a)
    ensures Quiet(c, s, Apply(c, s, a))
  {
    ControlActionFrame(c, s, a);
  }

  /** Moving the busy worker w of ticket t to another phase with a trace that fits it keeps both job invariants. */
  lemma AdvanceStep(c: Config, s: State, w: nat, worker: Worker, trace: seq<Event>, s': State)
    requires JobsOk(c, s) && WorkersOk(c, s)
    requires w < |s.workers| && s.workers[w].pc.Busy?
    requires worker.pc.Busy? && worker.pc.t == s.workers[w].pc.t && worker.q == s.workers[w].q
    requires s'.workers == s.workers[w := worker]
    requires s.workers[w].pc.t in s.jobs
    requires s'.jobs == s.jobs[s.workers[w].pc.t := s.jobs[s.workers[w].pc.t].(trace := trace)]
    requires s'.chans == s.chans && s'.parentDone == s.parentDone && s'.cancels == s.cancels
    requires PhaseTrace(c, s.jobs[s.workers[w].pc.t].jtype, worker.pc.phase, trace)
    requires worker.pc.phase.Running? || worker.pc.phase.Unwinding? ==>
               !worker.ctx.Released? && (worker.pc.phase.cancelled ==> ContextDone(s, w))
    ensures JobsOk(c, s') && WorkersOk(c, s')
  {
    var t0 := s.workers[w].pc.t;
    assert WorkerOk(c, s, w) && RecordOk(c, s, t0);
    forall t | t in s'.jobs ensures RecordOk(c, s', t) {
      assert RecordOk(c, s, t);
    }
    forall v | 0 <= v < |s'.workers| ensures WorkerOk(c, s', v) {
      assert WorkerOk(c, s, v);
    }
  }

  /** What the worker w and the trace of its job must satisfy for the phase w is in. */
  ghost predicate PhaseOk(c: Config, s: State, jtype: JobType, w: nat, worker: Worker, trace: seq<Event>) {
    && worker.pc.Busy?
    && PhaseTrace(c, jtype, worker.pc.phase, trace)
    && (worker.pc.phase.Running? || worker.pc.phase.Unwinding? ==>
          !worker.ctx.Released? && (worker.pc.phase.cancelled ==> ContextDone(s, w)))
  }

  /** Advancing leaves a worker and a trace that fit each other: the steps before the main handler. */
  lemma EarlyPhases(c: Config, s: State, a: Action, t: Ticket)
    requires Enabled(c, s, a) && (a.Uncount? || a.Begin? || a.Dispatch?)
    requires s.workers[a.w].pc.t == t && t in s.jobs
    requires PhaseOk(c, s, s.jobs[t].jtype, a.w, s.workers[a.w], s.jobs[t].trace)
    ensures PhaseOk(c, s, s.jobs[t].jtype, a.w, Apply(c, s, a).workers[a.w], Apply(c, s, a).jobs[t].trace)
  {
    assert s.jobs[t].trace + [] == s.jobs[t].trace;
  }

  lemma MiddlePhases(c: Config, s: State, a: Action, t: Ticket)
    requires Enabled(c, s, a) && (a.Return? || a.Judge?) && !Apply(c, s, a).crashed
    requires s.workers[a.w].pc.t == t && t in s.jobs
    requires PhaseOk(c, s, s.jobs[t].jtype, a.w, s.workers[a.w], s.jobs[t].trace)
    ensures PhaseOk(c, s, s.jobs[t].jtype, a.w, Apply(c, s, a).workers[a.w], Apply(c, s, a).jobs[t].trace)
  {
    var trace := Apply(c, s, a).jobs[t].trace;
    assert trace + [FailureEnded] + [Dropped] == trace + [FailureEnded, Dropped];
  }

  lemma LatePhases(c: Config, s: State, a: Action, t: Ticket)
    requires Enabled(c, s, a) && (a.FailureReturn? || a.Release?) && !Apply(c, s, a).crashed
    requires s.workers[a.w].pc.t == t && t in s.jobs
    requires PhaseOk(c, s, s.jobs[t].jtype, a.w, s.workers[a.w], s.jobs[t].trace)
    ensures PhaseOk(c, s, s.jobs[t].jtype, a.w, Apply(c, s, a).workers[a.w], Apply(c, s, a).jobs[t].trace)
  {
    assert s.jobs[t].trace + [] == s.jobs[t].trace;
  }

  lemma StepAdvance(c: Config, s: State, a: Action)
    requires JobsOk(c, s) && WorkersOk(c, s) && Enabled(c, s, a) && IsPhaseAction(a)
    requires !Apply(c, s, a).crashed
    ensures JobsOk(c, Apply(c, s, a)) && WorkersOk(c, Apply(c, s, a))
  {
    var s' := Apply(c, s, a);
    var w := Mover(s, a);
    PhaseActionResult(c, s, a);
    var t := s.workers[w].pc.t;
    assert WorkerOk(c, s, w) && RecordOk(c, s, t);
    if a.Uncount? || a.Begin? || a.Dispatch? {
      EarlyPhases(c, s, a, t);
    } else if a.Return? || a.Judge? {
      MiddlePhases(c, s, a, t);
    } else {
      LatePhases(c, s, a, t);
    }
    AdvanceStep(c, s, w, s'.workers[w], s'.jobs[t].trace, s');
  }

  /** A job enters: it is new, so no other record or worker is concerned. */
  lemma StepSend(c: Config, s: State, a: Action)
    requires JobsOk(c, s) && WorkersOk(c, s) && ChanOk(c, s, Fast) && ChanOk(c, s, Slow) && Enabled(c, s, a) && a.Send?
    ensures JobsOk(c, Apply(c, s, a)) && WorkersOk(c, Apply(c, s, a))
  {
    var s' := Apply(c, s, a);
    var q := s.producers[a.p].q;
    assert Ticket(q, s.chans.Get(q).sent) !in s.jobs;
    forall t | t in s.jobs ensures RecordOk(c, s', t) {
      assert RecordOk(c, s, t);
    }
    forall v | 0 <= v < |s'.workers| ensures WorkerOk(c, s', v) {
      assert WorkerOk(c, s, v);
    }
  }

  /** A job goes straight from a sender to an idle worker. */
  lemma StepHandoff(c: Config, s: State, a: Action)
    requires JobsOk(c, s) && WorkersOk(c, s) && ChanOk(c, s, Fast) && ChanOk(c, s, Slow)
    requires Enabled(c, s, a) && a.Handoff?
    ensures JobsOk(c, Apply(c, s, a)) && WorkersOk(c, Apply(c, s, a))
  {
    var s' := Apply(c, s, a);
    var q := s.producers[a.p].q;
    assert Ticket(q, s.chans.Get(q).sent) !in s.jobs;
    forall t | t in s.jobs ensures RecordOk(c, s', t) {
      RecordAfterHandoff(c, s, a, t);
    }
    forall v | 0 <= v < |s'.workers| ensures WorkerOk(c, s', v) {
      assert WorkerOk(c, s, v);
    }
  }

  lemma RecordAfterHandoff(c: Config, s: State, a: Action, t: Ticket)
    requires Enabled(c, s, a) && a.Handoff? && ChanOk(c, s, Fast) && ChanOk(c, s, Slow)
    requires t in s.jobs && RecordOk(c, s, t) && t.n < s.chans.Get(t.q).sent
    ensures t in Apply(c, s, a).jobs && RecordOk(c, Apply(c, s, a), t)
  {
  }

  /** A worker receives the oldest job of its queue. */
  lemma StepTake(c: Config, s: State, w: nat)
    requires ChanOk(c, s, Fast) && ChanOk(c, s, Slow) && JobsOk(c, s) && WorkersOk(c, s) && Enabled(c, s, Take(w))
    ensures JobsOk(c, Apply(c, s, Take(w))) && WorkersOk(c, Apply(c, s, Take(w)))
  {
    var s' := Apply(c, s, Take(w));
    var q := s.workers[w].q;
    var t0 := s.chans.Get(q).buffer[0];
    assert ChanOk(c, s, q);
    assert t0 == Ticket(q, s.chans.Get(q).taken);
    assert RecordOk(c, s, t0);
    forall t | t in s'.jobs ensures RecordOk(c, s', t) {
      RecordAfterTake(c, s, w, t);
    }
    forall v | 0 <= v < |s'.workers| ensures WorkerOk(c, s', v) {
      assert WorkerOk(c, s, v);
    }
  }

  lemma RecordAfterTake(c: Config, s: State, w: nat, t: Ticket)
    requires LoopEnabled(s, Take(w)) && ChanOk(c, s, s.workers[w].q)
    requires t in s.jobs && RecordOk(c, s, t)
    ensures t in LoopApply(s, Take(w)).jobs && RecordOk(c, LoopApply(s, Take(w)), t)
  {
    var q := s.workers[w].q;
    var t0 := s.chans.Get(q).buffer[0];
    assert t0 == Ticket(q, s.chans.Get(q).taken);
    var s' := LoopApply(s, Take(w));
    if t == t0 {
      assert s'.jobs[t] == s.jobs[t].(place := With(w), trace := [Sent, Received]);
    } else {
      assert s'.jobs[t] == s.jobs[t];
    }
  }

  lemma StepDrop(c: Config, s: State, w: nat)
    requires JobsOk(c, s) && WorkersOk(c, s) && Enabled(c, s, Drop(w))
    ensures JobsOk(c, Apply(c, s, Drop(w))) && WorkersOk(c, Apply(c, s, Drop(w)))
  {
    var s' := Apply(c, s, Drop(w));
    var t0 := s.workers[w].pc.t;
    assert WorkerOk(c, s, w) && RecordOk(c, s, t0);
    forall t | t in s'.jobs ensures RecordOk(c, s', t) {
      assert RecordOk(c, s, t);
    }
    forall v | 0 <= v < |s'.workers| ensures WorkerOk(c, s', v) {
      assert WorkerOk(c, s, v);
    }
  }

  lemma StepOther(c: Config, s: State, a: Action)
    requires ShapeOk(c, s) && JobsOk(c, s) && WorkersOk(c, s) && Enabled(c, s, a)
    requires !a.Send? && !a.Handoff? && !a.Take? && !a.Drop? && (IsPhaseAction(a) ==> Apply(c, s, a).crashed)
    ensures JobsOk(c, Apply(c, s, a)) && WorkersOk(c, Apply(c, s, a))
  {
    if IsPhaseAction(a) {
      PhaseActionResult(c, s, a);
    } else if IsLoopAction(a) {
      QuietLoopAction(c, s, a);
    } else if IsProducerAction(a) {
      QuietProducerAction(c, s, a);
    } else if IsStartAction(a) {
      QuietStartAction(c, s, a);
    } else {
      QuietControlAction(c, s, a);
    }
    QuietStep(c, s, Apply(c, s, a));
  }

  lemma StepJobs(c: Config, s: State, a: Action)
    requires Inv(c, s) && Enabled(c, s, a)
    ensures JobsOk(c, Apply(c, s, a)) && WorkersOk(c, Apply(c, s, a))
  {
    if a.Send? {
      StepSend(c, s, a);
    } else if a.Handoff? {
      StepHandoff(c, s, a);
    } else if a.Take? {
      StepTake(c, s, a.w);
    } else if a.Drop? {
      StepDrop(c, s, a.w);
    } else if IsPhaseAction(a) && !Apply(c, s, a).crashed {
      StepAdvance(c, s, a);
    } else {
      StepOther(c, s, a);
    }
  }

  /** The invariant is inductive. */
  lemma StepInv(c: Config, s: State, a: Action)
    requires Inv(c, s) && Enabled(c, s, a)
    ensures Inv(c, Apply(c, s, a))
  {
    StepShape(c, s, a);
    StepCounters(c, s, a);
    StepJobs(c, s, a);
  }

  lemma {:induction false} RunInv(c: Config, s: State, actions: seq<Action>, s': State)
    requires Inv(c, s) && Run(c, s, actions, s')
    ensures Inv(c, s')
    decreases |actions|
  {
    if actions != [] {
      StepInv(c, s, actions[0]);
      RunInv(c, Apply(c, s, actions[0]), actions[1..], s');
    }
  }
}
