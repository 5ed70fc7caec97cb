/** The in-memory job worker as a state machine.

    Every line of the Go code that touches state shared between goroutines is one action. The channels, the
    atomic counters, the wait group, the list of cancel functions and the program counter of each goroutine are
    parts of the state. A job is named by its ticket: the queue it was sent to and its position among all the
    jobs that queue accepted. */
module JobWorker {

  datatype Queue = Fast | Slow

  datatype Duo<T> = Duo(fast: T, slow: T) {
    function Get(q: Queue): T {
      if q.Fast? then fast else slow
    }

    function Put(q: Queue, x: T): Duo<T> {
      if q.Fast? then this.(fast := x) else this.(slow := x)
    }
  }

  datatype Ticket = Ticket(q: Queue, n: nat)

  type JobType = string

  /** The sizes of the two channels and worker pools, the registered main and failure handlers, and whether
      an interrupt signal is handled. */
  datatype Config = Config(capacity: Duo<nat>, pool: Duo<nat>, handlers: set<JobType>, failures: set<JobType>,
                           signals: bool)
  {
    function Workers(): nat {
      pool.fast + pool.slow
    }

    /** Start spawns the whole fast pool first, then the slow one. */
    function QueueOf(i: nat): Queue {
      if i < pool.fast then Fast else Slow
    }
  }

  /** A channel: its buffer, whether it is closed, and how many jobs were ever sent to and received from it. */
  datatype Chan = Chan(buffer: seq<Ticket>, closed: bool, sent: nat, taken: nat)

  /** One call of Enqueue after another. */
  datatype Producer =
    | Ready
    | Sending(q: Queue, jtype: JobType)  // at the channel send
    | Uncounted                          // sent, the queue-length counter not yet increased

  /** Where a worker is inside processJob. The flag `cancelled` says whether the context was already done
      when the main handler started. */
  datatype Phase =
    | Took
    | Counted
    | Active
    | Running(cancelled: bool)
    | Unwinding(cancelled: bool, panicked: bool)
    | Failing
    | Releasing
    | Dropping

  datatype WorkerPc = Idle | Busy(t: Ticket, phase: Phase) | Leaving | Gone

  /** The per-job context made by WithTimeout; its deferred cancel function releases it. */
  datatype JobContext = Live | Expired | Released

  datatype Worker = Worker(q: Queue, pc: WorkerPc, ctx: JobContext)

  datatype Starter = NotStarted | Spawning(k: nat, added: bool) | Signalling | Started
  datatype Stats = NoStats | Ticking | StatsGone
  datatype Interrupt = NoInterrupt | Waiting | Cancelling(next: nat) | InterruptGone
  datatype Stopper = NotStopped | Locked | FastClosed | CancellingAll(next: nat) | WaitingAll | Returned

  datatype Event =
    | Sent
    | Received
    | Began
    | StartedWith(cancelled: bool)
    | Ended(panicked: bool)
    | Judged(ctxDone: bool)
    | FailureStarted
    | FailureEnded
    | Dropped

  datatype Place = Queued | With(worker: nat) | Finished

  /** The history of one accepted job: where it is and what happened to it so far. */
  datatype Record = Record(jtype: JobType, place: Place, trace: seq<Event>)

  datatype State = State(
    chans: Duo<Chan>,
    producers: seq<Producer>,
    workers: seq<Worker>,
    cancels: seq<bool>,        // one per registered cancel function, true once it was called
    parentDone: bool,          // the context handed to Start is cancelled
    starter: Starter,
    stats: Stats,
    interrupt: Interrupt,
    stopper: Stopper,
    wg: int,
    sen: int,
    sac: int,
    crashed: bool,
    jobs: map<Ticket, Record>)

  /** The context of the i-th worker is done. */
  predicate ContextDone(s: State, i: nat)
  {
    s.parentDone || (i < |s.cancels| && s.cancels[i])
  }

  const EMPTY_CHAN := Chan([], false, 0, 0)

  const INITIAL := State(Duo(EMPTY_CHAN, EMPTY_CHAN), [], [], [], false, NotStarted, NoStats, NoInterrupt, NotStopped,
                         0, 0, 0, false, map[])

  datatype Action =
    | NewProducer
    | EnqueueBegin(p: nat, q: Queue, jtype: JobType)
    | Send(p: nat)
    | Handoff(p: nat, w: nat)
    | SendCount(p: nat)
    | SendPanic(p: nat)
    | StartBegin
    | StartAdd
    | StartGo
    | StartSignal
    | Take(w: nat)
    | SeeClosed(w: nat)
    | SeeDone(w: nat)
    | Uncount(w: nat)
    | Begin(w: nat)
    | Dispatch(w: nat)
    | Expire(w: nat)
    | Return(w: nat, panicked: bool)
    | Judge(w: nat)
    | FailureReturn(w: nat, panicked: bool)
    | Release(w: nat)
    | Drop(w: nat)
    | Exit(w: nat)
    | StatsExit
    | InterruptSignal
    | InterruptCancel
    | InterruptExit
    | ParentCancel
    | StopBegin
    | CloseFast
    | CloseSlow
    | StopCancel
    | StopReturn

  predicate IdleAt(s: State, w: nat) {
    w < |s.workers| && s.workers[w].pc.Idle?
  }

  predicate SendingAt(s: State, p: nat) {
    p < |s.producers| && s.producers[p].Sending?
  }

  /** The type of the job a busy worker holds. */
  function TypeHeld(s: State, w: nat): JobType
    requires w < |s.workers| && s.workers[w].pc.Busy?
  {
    var t := s.workers[w].pc.t;
    if t in s.jobs then s.jobs[t].jtype else ""
  }

  /** The mutex guarding Start and Stop is free. */
  predicate LockFree(s: State) {
    && (s.starter.NotStarted? || s.starter.Started?)
    && (s.stopper.NotStopped? || s.stopper.Returned?)
  }

  // ----- the kinds of actions -----

  /** Actions of the callers of Enqueue. */
  predicate IsProducerAction(a: Action) {
    a.NewProducer? || a.EnqueueBegin? || a.Send? || a.Handoff? || a.SendCount? || a.SendPanic?
  }

  predicate IsStartAction(a: Action) {
    a.StartBegin? || a.StartAdd? || a.StartGo? || a.StartSignal?
  }

  /** Actions that move a busy worker from one phase to another. */
  predicate IsPhaseAction(a: Action) {
    a.Uncount? || a.Begin? || a.Dispatch? || a.Return? || a.Judge? || a.FailureReturn? || a.Release?
  }

  /** Actions of the receive loop of a worker, and the expiry of its job context. */
  predicate IsLoopAction(a: Action) {
    a.Take? || a.SeeClosed? || a.SeeDone? || a.Expire? || a.Drop? || a.Exit?
  }

  predicate IsWorkerAction(a: Action) {
    IsPhaseAction(a) || IsLoopAction(a)
  }

  // ----- when an action can happen -----

  predicate ProducerEnabled(c: Config, s: State, a: Action)
    requires IsProducerAction(a)
  {
    match a
    case NewProducer => true
    case EnqueueBegin(p, _, _) => p < |s.producers| && s.producers[p].Ready?
    case Send(p) =>
      SendingAt(s, p) &&
      var ch := s.chans.Get(s.producers[p].q);
      !ch.closed && |ch.buffer| < c.capacity.Get(s.producers[p].q)
    case Handoff(p, w) =>
      SendingAt(s, p) && IdleAt(s, w) && s.workers[w].q == s.producers[p].q &&
      var ch := s.chans.Get(s.producers[p].q);
      !ch.closed && ch.buffer == []
    case SendCount(p) => p < |s.producers| && s.producers[p].Uncounted?
    case SendPanic(p) => SendingAt(s, p) && s.chans.Get(s.producers[p].q).closed
  }

  predicate StartEnabled(s: State, a: Action)
    requires IsStartAction(a)
  {
    match a
    case StartBegin => s.starter.NotStarted? && s.stopper.NotStopped?
    case StartAdd => s.starter.Spawning? && !s.starter.added
    case StartGo => s.starter.Spawning? && s.starter.added
    case StartSignal => s.starter.Signalling?
  }

  predicate PhaseEnabled(s: State, a: Action)
    requires IsPhaseAction(a)
  {
    a.w < |s.workers| && s.workers[a.w].pc.Busy? &&
    var phase := s.workers[a.w].pc.phase;
    match a
    case Uncount(_) => phase.Took?
    case Begin(_) => phase.Counted?
    case Dispatch(_) => phase.Active?
    case Return(_, _) => phase.Running?
    case Judge(_) => phase.Unwinding?
    case FailureReturn(_, _) => phase.Failing?
    case Release(_) => phase.Releasing?
  }

  predicate LoopEnabled(s: State, a: Action)
    requires IsLoopAction(a)
  {
    a.w < |s.workers| &&
    var worker := s.workers[a.w];
    match a
    case Take(_) => worker.pc.Idle? && s.chans.Get(worker.q).buffer != []
    case SeeClosed(_) => worker.pc.Idle? && s.chans.Get(worker.q).closed && s.chans.Get(worker.q).buffer == []
    case SeeDone(w) => worker.pc.Idle? && ContextDone(s, w)
    case Expire(_) => worker.pc.Busy? && (worker.pc.phase.Running? || worker.pc.phase.Unwinding?) && worker.ctx.Live?
    case Drop(_) => worker.pc.Busy? && worker.pc.phase.Dropping?
    case Exit(_) => worker.pc.Leaving?
  }

  predicate ControlEnabled(c: Config, s: State, a: Action)
    requires !IsProducerAction(a) && !IsStartAction(a) && !IsWorkerAction(a)
  {
    match a
    case StatsExit => s.stats.Ticking? && ContextDone(s, c.Workers())
    case InterruptSignal => s.interrupt.Waiting?
    case InterruptCancel => s.interrupt.Cancelling?
    case InterruptExit => s.interrupt.Waiting? && ContextDone(s, c.Workers() + 1)
    case ParentCancel => !s.parentDone
    case StopBegin => s.stopper.NotStopped? && LockFree(s)
    case CloseFast => s.stopper.Locked?
    case CloseSlow => s.stopper.FastClosed?
    case StopCancel => s.stopper.CancellingAll?
    case StopReturn => s.stopper.WaitingAll? && s.wg == 0
  }

  /** When an action can happen. Start is called at most once and not after Stop. */
  predicate Enabled(c: Config, s: State, a: Action) {
    && !s.crashed
    && if IsPhaseAction(a) then PhaseEnabled(s, a)
       else if IsLoopAction(a) then LoopEnabled(s, a)
       else if IsProducerAction(a) then ProducerEnabled(c, s, a)
       else if IsStartAction(a) then StartEnabled(s, a)
       else ControlEnabled(c, s, a)
  }

  function SetPc(s: State, w: nat, pc: WorkerPc): State
    requires w < |s.workers|
  {
    s.(workers := s.workers[w := s.workers[w].(pc := pc)])
  }

  /** The busy worker w moves to the given phase and job context; the events are added to the trace of its job. */
  function Advance(s: State, w: nat, phase: Phase, ctx: JobContext, events: seq<Event>): State
    requires w < |s.workers| && s.workers[w].pc.Busy?
  {
    var worker := s.workers[w];
    var t := worker.pc.t;
    s.(workers := s.workers[w := Worker(worker.q, Busy(t, phase), ctx)],
       jobs := if t in s.jobs then s.jobs[t := s.jobs[t].(trace := s.jobs[t].trace + events)] else s.jobs)
  }

  function Accept(s: State, p: nat, place: Place, trace: seq<Event>, ch: Chan): State
    requires SendingAt(s, p)
  {
    var q := s.producers[p].q;
    var t := Ticket(q, s.chans.Get(q).sent);
    s.(chans := s.chans.Put(q, ch),
       producers := s.producers[p := Uncounted],
       jobs := s.jobs[t := Record(s.producers[p].jtype, place, trace)])
  }

  function CancelAt(s: State, i: nat): State {
    if i < |s.cancels| then s.(cancels := s.cancels[i := true]) else s
  }

  function Crash(s: State): State {
    s.(crashed := true)
  }

  // ----- what an action does -----

  function ProducerApply(c: Config, s: State, a: Action): State
    requires IsProducerAction(a) && ProducerEnabled(c, s, a)
  {
    match a
    case NewProducer => s.(producers := s.producers + [Ready])
    case EnqueueBegin(p, q, jtype) => s.(producers := s.producers[p := Sending(q, jtype)])
    case Send(p) =>
      var q := s.producers[p].q;
      var ch := s.chans.Get(q);
      Accept(s, p, Queued, [Sent], ch.(buffer := ch.buffer + [Ticket(q, ch.sent)], sent := ch.sent + 1))
    case Handoff(p, w) =>
      var q := s.producers[p].q;
      var ch := s.chans.Get(q);
      SetPc(Accept(s, p, With(w), [Sent, Received], ch.(sent := ch.sent + 1, taken := ch.taken + 1)),
            w, Busy(Ticket(q, ch.sent), Took))
    case SendCount(p) => s.(producers := s.producers[p := Ready], sen := s.sen + 1)
    case SendPanic(p) => Crash(s)
  }

  function StartApply(c: Config, s: State, a: Action): State
    requires IsStartAction(a) && StartEnabled(s, a)
  {
    match a
    case StartBegin => s.(starter := Spawning(0, false))
    case StartAdd => s.(starter := s.starter.(added := true), wg := s.wg + 1)
    case StartGo =>
      var k := s.starter.k;
      var s' := s.(cancels := s.cancels + [false]);
      if k < c.Workers() then
        s'.(workers := s.workers + [Worker(c.QueueOf(k), Idle, Released)], starter := Spawning(k + 1, false))
      else
        s'.(stats := Ticking, starter := if c.signals then Signalling else Started)
    case StartSignal => s.(cancels := s.cancels + [false], interrupt := Waiting, starter := Started)
  }

  function PhaseApply(c: Config, s: State, a: Action): State
    requires IsPhaseAction(a) && PhaseEnabled(s, a)
  {
    match a
    case Uncount(w) => Advance(s, w, Counted, s.workers[w].ctx, []).(sen := s.sen - 1)
    case Begin(w) => Advance(s, w, Active, s.workers[w].ctx, [Began]).(sac := s.sac + 1)
    case Dispatch(w) =>
      if TypeHeld(s, w) in c.handlers then
        Advance(s, w, Running(ContextDone(s, w)), Live, [StartedWith(ContextDone(s, w))])
      else
        Advance(s, w, Dropping, s.workers[w].ctx, [])
    case Return(w, panicked) =>
      if TypeHeld(s, w) in c.failures then
        Advance(s, w, Unwinding(s.workers[w].pc.phase.cancelled, panicked), s.workers[w].ctx, [Ended(panicked)])
      else if panicked then
        Crash(s)
      else
        Advance(s, w, Releasing, s.workers[w].ctx, [Ended(false)])
    case Judge(w) =>
      var done := ContextDone(s, w) || !s.workers[w].ctx.Live?;
      if s.workers[w].pc.phase.panicked || done then
        Advance(s, w, Failing, s.workers[w].ctx, [Judged(done), FailureStarted])
      else
        Advance(s, w, Releasing, s.workers[w].ctx, [Judged(done)])
    case FailureReturn(w, panicked) =>
      if panicked then Crash(s) else Advance(s, w, Releasing, s.workers[w].ctx, [FailureEnded])
    case Release(w) => Advance(s, w, Dropping, Released, [])
  }

  function LoopApply(s: State, a: Action): State
    requires IsLoopAction(a) && LoopEnabled(s, a)
  {
    match a
    case Take(w) =>
      var q := s.workers[w].q;
      var ch := s.chans.Get(q);
      var t := ch.buffer[0];
      var ch' := ch.(buffer := ch.buffer[1..], taken := ch.taken + 1);
      var s' := SetPc(s.(chans := s.chans.Put(q, ch')), w, Busy(t, Took));
      if t in s.jobs then
        s'.(jobs := s.jobs[t := s.jobs[t].(place := With(w), trace := s.jobs[t].trace + [Received])])
      else
        s'
    case SeeClosed(w) => SetPc(s, w, Leaving)
    case SeeDone(w) => SetPc(s, w, Leaving)
    case Expire(w) => s.(workers := s.workers[w := s.workers[w].(ctx := Expired)])
    case Drop(w) =>
      var t := s.workers[w].pc.t;
      var s' := SetPc(s, w, Idle).(sac := s.sac - 1);
      if t in s.jobs then
        s'.(jobs := s.jobs[t := s.jobs[t].(place := Finished, trace := s.jobs[t].trace + [Dropped])])
      else
        s'
    case Exit(w) => SetPc(s, w, Gone).(wg := s.wg - 1)
  }

  function ControlApply(c: Config, s: State, a: Action): State
    requires !IsProducerAction(a) && !IsStartAction(a) && !IsWorkerAction(a) && ControlEnabled(c, s, a)
  {
    match a
    case StatsExit => s.(stats := StatsGone, wg := s.wg - 1)
    case InterruptSignal => s.(interrupt := Cancelling(0))
    case InterruptCancel =>
      var i := s.interrupt.next;
      if i < |s.cancels| then CancelAt(s, i).(interrupt := Cancelling(i + 1)) else s.(interrupt := InterruptGone)
    case InterruptExit => s.(interrupt := InterruptGone)
    case ParentCancel => s.(parentDone := true)
    case StopBegin => s.(stopper := Locked)
    case CloseFast => s.(chans := s.chans.(fast := s.chans.fast.(closed := true)), stopper := FastClosed)
    case CloseSlow => s.(chans := s.chans.(slow := s.chans.slow.(closed := true)), stopper := CancellingAll(0))
    case StopCancel =>
      var i := s.stopper.next;
      if i < |s.cancels| then CancelAt(s, i).(stopper := CancellingAll(i + 1)) else s.(stopper := WaitingAll)
    case StopReturn => s.(stopper := Returned)
  }

  /** The effect of an action. */
  function Apply(c: Config, s: State, a: Action): State
    requires Enabled(c, s, a)
  {
    if IsPhaseAction(a) then PhaseApply(c, s, a)
    else if IsLoopAction(a) then LoopApply(s, a)
    else if IsProducerAction(a) then ProducerApply(c, s, a)
    else if IsStartAction(a) then StartApply(c, s, a)
    else ControlApply(c, s, a)
  }

  /** The actions take the worker from s to s'. */
  ghost predicate Run(c: Config, s: State, actions: seq<Action>, s': State)
    decreases |actions|
  {
    if actions == [] then s == s'
    else Enabled(c, s, actions[0]) && Run(c, Apply(c, s, actions[0]), actions[1..], s')
  }

  lemma RunFrom(c: Config, s: State, a: Action, rest: seq<Action>, s': State)
    requires Enabled(c, s, a) && Run(c, Apply(c, s, a), rest, s')
    ensures Run(c, s, [a] + rest, s')
  {
    assert ([a] + rest)[1..] == rest;
  }
}
