/** The guarantees of the job worker over every interleaving, stated about runs from the initial state. */
module JobWorkerTheorems {
  import opened JobWorker
  import opened JobWorkerSafety
  import opened Sums

  ghost predicate Reachable(c: Config, s: State) {
    exists actions :: Run(c, INITIAL, actions, s)
  }

  lemma ReachableInv(c: Config, s: State)
    requires Reachable(c, s)
    ensures Inv(c, s)
  {
    var actions :| Run(c, INITIAL, actions, s);
    InitialInv(c);
    RunInv(c, INITIAL, actions, s);
  }

  // ----- one place per job, first in first out -----

  predicate InQueue(s: State, t: Ticket) {
    t in s.chans.Get(t.q).buffer
  }

  predicate IsFinished(s: State, t: Ticket) {
    t in s.jobs && s.jobs[t].place.Finished?
  }

  /** The number of the three kinds of places a job is in. */
  ghost function Places(s: State, t: Ticket): int {
    One(InQueue(s, t)) + One(exists w: nat :: Holds(s, w, t)) + One(IsFinished(s, t))
  }

  lemma InQueueByNumber(c: Config, s: State, t: Ticket)
    requires ChanOk(c, s, t.q)
    ensures InQueue(s, t) <==> s.chans.Get(t.q).taken <= t.n < s.chans.Get(t.q).sent
  {
    var ch := s.chans.Get(t.q);
    if ch.taken <= t.n < ch.sent {
      assert ch.buffer[t.n - ch.taken] == t;
    }
  }

  lemma HeldByItsWorker(c: Config, s: State, t: Ticket)
    requires WorkersOk(c, s)
    ensures forall w: nat | Holds(s, w, t) :: t in s.jobs && s.jobs[t].place == With(w)
  {
    forall w: nat | Holds(s, w, t) ensures t in s.jobs && s.jobs[t].place == With(w) {
      assert WorkerOk(c, s, w);
    }
  }

  lemma PlacesOfJob(c: Config, s: State, t: Ticket)
    requires JobsOk(c, s) && (InQueue(s, t) <==> s.chans.Get(t.q).taken <= t.n < s.chans.Get(t.q).sent)
    requires forall w: nat | Holds(s, w, t) :: t in s.jobs && s.jobs[t].place == With(w)
    ensures Places(s, t) == One(t.n < s.chans.Get(t.q).sent)
  {
    if t in s.jobs {
      assert RecordOk(c, s, t);
      if s.jobs[t].place.With? {
        assert Holds(s, s.jobs[t].place.worker, t);
      }
    }
  }

  /** An accepted job is in its queue, with a worker or finished, never in two of these and never with two workers;
      a job that was not accepted is nowhere. */
  lemma JobInOnePlace(c: Config, s: State, t: Ticket)
    requires Reachable(c, s)
    ensures Places(s, t) == One(t.n < s.chans.Get(t.q).sent)
    ensures forall v: nat, w: nat | Holds(s, v, t) && Holds(s, w, t) :: v == w
  {
    ReachableInv(c, s);
    assert ChanOk(c, s, t.q);
    InQueueByNumber(c, s, t);
    HeldByItsWorker(c, s, t);
    PlacesOfJob(c, s, t);
  }

  /** A queue never exceeds its size, and of two jobs of a queue the one sent first leaves it first. */
  lemma QueuesAreFifo(c: Config, s: State, q: Queue)
    requires Reachable(c, s)
    ensures |s.chans.Get(q).buffer| <= c.capacity.Get(q)
    ensures forall i, j | 0 <= i < j < |s.chans.Get(q).buffer| ::
              s.chans.Get(q).buffer[i].n < s.chans.Get(q).buffer[j].n
    ensures forall m: nat, n: nat | m < n < s.chans.Get(q).sent && !InQueue(s, Ticket(q, n)) ::
              !InQueue(s, Ticket(q, m))
  {
    ReachableInv(c, s);
    assert ChanOk(c, s, q);
    forall m: nat, n: nat | m < n < s.chans.Get(q).sent && !InQueue(s, Ticket(q, n)) ensures !InQueue(s, Ticket(q, m)) {
      InQueueByNumber(c, s, Ticket(q, n));
      InQueueByNumber(c, s, Ticket(q, m));
    }
  }

  // ----- handlers -----

  predicate AtMostOnce(tr: seq<Event>, p: Event -> bool) {
    forall i, j | 0 <= i < j < |tr| :: !p(tr[i]) || !p(tr[j])
  }

  const START: Event -> bool := (e: Event) => e.StartedWith?
  const FAILURE_START: Event -> bool := (e: Event) => e.FailureStarted?

  /** The failure handler is due: there is one, and the main handler panicked or its context was done afterwards. */
  predicate FailureDue(c: Config, jtype: JobType, tr: seq<Event>) {
    && jtype in c.handlers && jtype in c.failures && |tr| >= 7 && tr[4].Ended? && tr[5].Judged?
    && (tr[4].panicked || tr[5].ctxDone)
  }

  lemma CompleteOnce(c: Config, jtype: JobType, tr: seq<Event>)
    requires Complete(c, jtype, tr)
    ensures AtMostOnce(tr, START) && AtMostOnce(tr, FAILURE_START)
  {
  }

  lemma CompleteFailure(c: Config, jtype: JobType, tr: seq<Event>)
    requires Complete(c, jtype, tr)
    ensures FailureStarted in tr <==> FailureDue(c, jtype, tr)
    ensures FailureDue(c, jtype, tr) ==> tr[6..] == [FailureStarted, FailureEnded, Dropped]
  {
    if FailureDue(c, jtype, tr) {
      assert tr[6] == FailureStarted;
    } else {
      assert forall i | 0 <= i < |tr| :: !tr[i].FailureStarted?;
    }
  }

  lemma PhaseOnce(c: Config, jtype: JobType, phase: Phase, tr: seq<Event>)
    requires PhaseTrace(c, jtype, phase, tr)
    ensures AtMostOnce(tr, START) && AtMostOnce(tr, FAILURE_START)
  {
    if phase.Failing? || phase.Releasing? || phase.Dropping? {
      var whole := if phase.Failing? then tr + [FailureEnded] + [Dropped] else tr + [Dropped];
      CompleteOnce(c, jtype, whole);
      assert forall i | 0 <= i < |tr| :: tr[i] == whole[i];
    }
  }

  /** The main handler and the failure handler of a job start at most once, in every reachable state. */
  lemma StartsAtMostOnce(c: Config, s: State, t: Ticket)
    requires Reachable(c, s) && t in s.jobs
    ensures AtMostOnce(s.jobs[t].trace, START) && AtMostOnce(s.jobs[t].trace, FAILURE_START)
  {
    ReachableInv(c, s);
    var r := s.jobs[t];
    assert RecordOk(c, s, t);
    if r.place.Finished? {
      CompleteOnce(c, r.jtype, r.trace);
    } else if r.place.With? {
      PhaseOnce(c, r.jtype, s.workers[r.place.worker].pc.phase, r.trace);
    }
  }

  /** For a finished job with both handlers: the main handler started and ended, then the closure looked, and the
      failure handler ran next, before the active count dropped, exactly when the main handler had panicked or the
      context was done by then; otherwise it never ran. */
  lemma FailureHandlerRule(c: Config, s: State, t: Ticket)
    requires Reachable(c, s) && IsFinished(s, t)
    requires s.jobs[t].jtype in c.handlers && s.jobs[t].jtype in c.failures
    ensures var tr := s.jobs[t].trace;
            && |tr| >= 7 && tr[3].StartedWith? && tr[4].Ended? && tr[5].Judged?
            && (if tr[4].panicked || tr[5].ctxDone then tr[6..] == [FailureStarted, FailureEnded, Dropped]
                else FailureStarted !in tr && tr[6..] == [Dropped])
  {
    ReachableInv(c, s);
    assert RecordOk(c, s, t);
    CompleteFailure(c, s.jobs[t].jtype, s.jobs[t].trace);
  }

  /** A finished job of any type: the failure handler ran if and only if it was due, and then as the last thing before
      the active count dropped. */
  lemma FailureHandlerExactly(c: Config, s: State, t: Ticket)
    requires Reachable(c, s) && IsFinished(s, t)
    ensures var r := s.jobs[t];
            && (FailureStarted in r.trace <==> FailureDue(c, r.jtype, r.trace))
            && (FailureStarted in r.trace ==> r.trace[6..] == [FailureStarted, FailureEnded, Dropped])
  {
    ReachableInv(c, s);
    assert RecordOk(c, s, t);
    CompleteFailure(c, s.jobs[t].jtype, s.jobs[t].trace);
  }

  /** A normal finish is never mistaken for a cancel: when the deferred closure looks at the job context, the deferred
      cancel function has not released it yet, so the context is done exactly when it was cancelled or has expired. */
  lemma JudgedMeansCancelled(c: Config, s: State, w: nat)
    requires Reachable(c, s) && Enabled(c, s, Judge(w))
    ensures !s.workers[w].ctx.Released?
    ensures var t := s.workers[w].pc.t; var s' := Apply(c, s, Judge(w));
            && t in s'.jobs && |s'.jobs[t].trace| > 5
            && s'.jobs[t].trace[5] == Judged(ContextDone(s, w) || s.workers[w].ctx.Expired?)
  {
    ReachableInv(c, s);
    var t := s.workers[w].pc.t;
    assert WorkerOk(c, s, w) && RecordOk(c, s, t);
    assert |s.jobs[t].trace| == 5;
    JudgeTrace(c, s, w);
  }

  lemma JudgeTrace(c: Config, s: State, w: nat)
    requires Enabled(c, s, Judge(w)) && s.workers[w].pc.t in s.jobs && !s.workers[w].ctx.Released?
    ensures var t := s.workers[w].pc.t; var s' := Apply(c, s, Judge(w));
            && t in s'.jobs
            && s.jobs[t].trace + [Judged(ContextDone(s, w) || s.workers[w].ctx.Expired?)] <= s'.jobs[t].trace
  {
  }

  /** The history of a job is only ever extended. */
  lemma TraceGrows(c: Config, s: State, a: Action, t: Ticket)
    requires Inv(c, s) && Enabled(c, s, a) && t in s.jobs
    ensures t in Apply(c, s, a).jobs
    ensures s.jobs[t].jtype == Apply(c, s, a).jobs[t].jtype
    ensures s.jobs[t].trace <= Apply(c, s, a).jobs[t].trace
  {
    if IsPhaseAction(a) {
      PhaseKeepsTrace(c, s, a, t);
    } else if a.Send? || a.Handoff? {
      SendKeepsTrace(c, s, a, t);
    } else if IsProducerAction(a) {
      ProducerActionFrame(c, s, a);
    } else if IsLoopAction(a) {
      LoopKeepsTrace(s, a, t);
    } else if !IsStartAction(a) {
      ControlActionFrame(c, s, a);
    }
  }

  lemma LoopKeepsTrace(s: State, a: Action, t: Ticket)
    requires IsLoopAction(a) && LoopEnabled(s, a) && t in s.jobs
    ensures t in LoopApply(s, a).jobs
    ensures s.jobs[t].jtype == LoopApply(s, a).jobs[t].jtype
    ensures s.jobs[t].trace <= LoopApply(s, a).jobs[t].trace
  {
  }

  lemma SendKeepsTrace(c: Config, s: State, a: Action, t: Ticket)
    requires JobsOk(c, s) && Enabled(c, s, a) && (a.Send? || a.Handoff?) && t in s.jobs
    ensures t in Apply(c, s, a).jobs && Apply(c, s, a).jobs[t] == s.jobs[t]
  {
  }

  lemma PhaseKeepsTrace(c: Config, s: State, a: Action, t: Ticket)
    requires Inv(c, s) && Enabled(c, s, a) && IsPhaseAction(a) && t in s.jobs
    ensures t in Apply(c, s, a).jobs
    ensures s.jobs[t].jtype == Apply(c, s, a).jobs[t].jtype
    ensures s.jobs[t].trace <= Apply(c, s, a).jobs[t].trace
  {
    PhaseActionResult(c, s, a);
  }

  lemma {:induction false} TraceGrowsOverRun(c: Config, s: State, actions: seq<Action>, s': State, t: Ticket)
    requires Inv(c, s) && Run(c, s, actions, s') && t in s.jobs
    ensures t in s'.jobs && s.jobs[t].jtype == s'.jobs[t].jtype && s.jobs[t].trace <= s'.jobs[t].trace
    decreases |actions|
  {
    if actions != [] {
      StepInv(c, s, actions[0]);
      TraceGrows(c, s, actions[0], t);
      TraceGrowsOverRun(c, Apply(c, s, actions[0]), actions[1..], s', t);
    }
  }

  /** A finished job whose context was already done at the start of its main handler had its failure handler run. */
  lemma CancelledAtStart(c: Config, s: State, t: Ticket)
    requires Inv(c, s) && IsFinished(s, t) && s.jobs[t].jtype in c.handlers && s.jobs[t].jtype in c.failures
    requires |s.jobs[t].trace| > 3 && s.jobs[t].trace[3] == StartedWith(true)
    ensures FailureStarted in s.jobs[t].trace
  {
    assert RecordOk(c, s, t);
    CompleteFailure(c, s.jobs[t].jtype, s.jobs[t].trace);
  }

  /** Once cancelAll of Stop is over, the context of every worker is done. */
  lemma CancelAllReachesAll(c: Config, s: State)
    requires Reachable(c, s) && (s.stopper.WaitingAll? || s.stopper.Returned?)
    ensures forall w | 0 <= w < |s.workers| :: ContextDone(s, w)
  {
    ReachableInv(c, s);
  }

  /** Any job whose main handler starts with its worker's context done, by cancelAll or otherwise, has its failure
      handler run before it is finished. */
  lemma StartedWhenCancelled(c: Config, s: State, w: nat, actions: seq<Action>, s': State)
    requires Reachable(c, s) && ContextDone(s, w)
    requires Enabled(c, s, Dispatch(w)) && TypeHeld(s, w) in c.handlers && TypeHeld(s, w) in c.failures
    requires Run(c, Apply(c, s, Dispatch(w)), actions, s')
    ensures var t := s.workers[w].pc.t;
            IsFinished(s', t) ==> FailureStarted in s'.jobs[t].trace
  {
    ReachableInv(c, s);
    var t := s.workers[w].pc.t;
    var s1 := Apply(c, s, Dispatch(w));
    StepInv(c, s, Dispatch(w));
    DispatchTrace(c, s, w);
    TraceGrowsOverRun(c, s1, actions, s', t);
    if IsFinished(s', t) {
      RunInv(c, s1, actions, s');
      assert s'.jobs[t].trace[3] == s1.jobs[t].trace[3];
      CancelledAtStart(c, s', t);
    }
  }

  lemma DispatchTrace(c: Config, s: State, w: nat)
    requires JobsOk(c, s) && WorkersOk(c, s) && ContextDone(s, w)
    requires Enabled(c, s, Dispatch(w)) && TypeHeld(s, w) in c.handlers
    ensures var t := s.workers[w].pc.t; var s1 := Apply(c, s, Dispatch(w));
            && t in s1.jobs && s1.jobs[t].jtype == TypeHeld(s, w)
            && s1.jobs[t].trace == [Sent, Received, Began, StartedWith(true)]
  {
    assert WorkerOk(c, s, w) && RecordOk(c, s, s.workers[w].pc.t);
  }

  // ----- counters -----

  /** In every reachable state the queues hold what `sen` says, corrected by the sends not yet counted and the
      receives not yet uncounted; `sac` counts the workers inside the active section; the wait group counts the
      goroutines Stop must wait for. */
  lemma CountersAreAccurate(c: Config, s: State)
    requires Reachable(c, s)
    ensures |s.chans.fast.buffer| + |s.chans.slow.buffer| == s.sen + Sum(s.producers, UNCOUNTED) - Sum(s.workers, TAKEN)
    ensures s.sac == Sum(s.workers, ACTIVE) >= 0
    ensures s.wg == Sum(s.workers, LIVE) + One(s.stats.Ticking?) + One(s.starter.Spawning? && s.starter.added) >= 0
  {
    ReachableInv(c, s);
    SumNonNegative(s.workers, ACTIVE);
    SumNonNegative(s.workers, LIVE);
  }

  /** The workers inside the active section of processJob. */
  function ActiveWorkers(s: State): set<nat> {
    set w: nat | w < |s.workers| && ActiveWeight(s.workers[w]) == 1
  }

  /** When nobody is between a channel operation and its counter update, Stats reports the exact numbers. */
  lemma StatsExactAtQuiescence(c: Config, s: State)
    requires Reachable(c, s)
    requires forall p | 0 <= p < |s.producers| :: !s.producers[p].Uncounted?
    requires forall w | 0 <= w < |s.workers| :: s.workers[w].pc.Busy? ==> !s.workers[w].pc.phase.Took?
    ensures s.sen == |s.chans.fast.buffer| + |s.chans.slow.buffer|
    ensures s.sac == |ActiveWorkers(s)|
  {
    CountersAreAccurate(c, s);
    SumZero(s.producers, UNCOUNTED);
    SumZero(s.workers, TAKEN);
    SumIsCount(s.workers, ACTIVE);
    assert ActiveWorkers(s) == Ones(s.workers, ACTIVE);
  }
}
