/** The dispatcher as a step system (notify/dispatcher.go, with the producers of api/handlers.go,
    smtpapi/session.go and api/subscribe.go): workers take jobs from the queue, fan each one out
    to goroutines that share one counting semaphore, and write the final status after the
    WaitGroup reaches zero. Every database statement is one step and may fail. */
module Engine {
  import opened Common
  import opened Retry
  import opened FanOut

  /** Notification ids: opaque names, compared only for equality. */
  type Id = nat

  datatype Config = Config(deliveryConcurrency: int, queueCapacity: nat, retryLimit: int)

  /** The semaphore's size. */
  function Slots(cfg: Config): (n: nat)
    ensures n >= 1
  {
    if cfg.deliveryConcurrency <= 0 then 16 else cfg.deliveryConcurrency
  }

  function Limit(cfg: Config): nat {
    if cfg.retryLimit < 0 then 0 else cfg.retryLimit
  }

  datatype Status = Pending | Processing | Completed | Failed

  predicate Terminal(s: Status) {
    s.Completed? || s.Failed?
  }

  /** What a job turns out to require: its JSON columns do not parse, or the fan-out of FanOut. */
  datatype Plan =
    | Malformed
    | Work(items: seq<Item>, targets: nat)

  /** One delivery row. `writer` is history: the goroutine that wrote it, or the worker itself. */
  datatype Row = Row(target: Target, outcome: Outcome, note: Option<string>, writer: Option<nat>)

  /** Where a job is: being inserted, dropped because the queue was full, queued, or at a point of
      the processJob run that holds it. */
  datatype Phase =
    | Unsent
    | Dropped
    | Queued
    | Loading
    | Marking
    | Rejecting
    | Walking(todo: seq<Item>)
    | Closing
    | Tallying
    | Ended

  /** A notification row together with the run of its job. `waiting` is the WaitGroup counter;
      `lost` and `faults` are history: the rows never written and the statements that failed. */
  datatype Job = Job(plan: Plan, status: Status, phase: Phase, owner: nat, waiting: nat,
                     rows: seq<Row>, memberCount: nat, lost: seq<Target>, faults: nat)

  datatype Worker = Idle | Busy(id: Id) | Stopped

  datatype GoPhase =
    | AwaitSlot
    | Working
    | Writing(outcome: Outcome)
    | Noting(row: nat, error: string)
    | Releasing
    | Signalling
    | Gone

  /** `calls` is what the provider has answered this goroutine so far. */
  datatype Go = Go(job: Id, task: Task, calls: seq<Answer>, phase: GoPhase)

  /** `sent` is every id ever put on the queue, in order; the queue holds those not yet taken. */
  datatype State = State(jobs: map<Id, Job>, sent: seq<Id>, taken: nat, workers: seq<Worker>,
                         gos: seq<Go>, slots: nat, cancelled: bool)

  datatype WorkerAct =
    | Take
    | Load(ok: bool)
    | Begin(ok: bool)
    | Reject(ok: bool)
    | Walk(ok: bool)
    | Join
    | Close(ok: bool)
    | Tally(ok: bool)

  datatype GoAct =
    | Acquire
    | Call(answer: Answer)
    | Conclude(outcome: Outcome)
    | Abandon
    | Insert(ok: bool)
    | Note(ok: bool)
    | Release
    | Signal

  datatype Action =
    | Publish(id: Id, plan: Plan)
    | Enqueue(id: Id)
    | WorkerStep(w: nat, work: WorkerAct)
    | Exit(w: nat)
    | GoStep(g: nat, act: GoAct)
    | Cancel

  // ----- One job under one worker action -----

  predicate JobEnabled(job: Job, a: WorkerAct) {
    match a
    case Take => job.phase.Queued?
    case Load(_) => job.phase.Loading?
    case Begin(_) => job.phase.Marking?
    case Reject(_) => job.phase.Rejecting?
    case Walk(_) => job.phase.Walking? && job.phase.todo != []
    case Join => job.phase == Walking([]) && job.waiting == 0
    case Close(_) => job.phase.Closing?
    case Tally(_) => job.phase.Tallying?
  }

  function Fault(ok: bool): nat {
    if ok then 0 else 1
  }

  /** The targets of the rows a list of items stands for, in order. */
  function RowTargets(items: seq<Item>): seq<Target> {
    if items == [] then []
    else (match items[0]
          case Withhold(t) => [t]
          case Launch(task) => if task.kind.NoProvider? then [] else [task.target]) + RowTargets(items[1..])
  }

  function PlanItems(plan: Plan): seq<Item> {
    match plan
    case Malformed => []
    case Work(items, _) => items
  }

  /** The verdict processJob writes after its WaitGroup. */
  function Verdict(plan: Plan): Status {
    match plan
    case Malformed => Failed
    case Work(_, targets) => if targets == 0 then Failed else Completed
  }

  function SetStatus(job: Job, ok: bool, status: Status): Job {
    job.(status := if ok then status else job.status, faults := job.faults + Fault(ok))
  }

  const NOT_SUBSCRIBED := Outcome("not_subscribed", 0, "", None)

  function JobNext(job: Job, a: WorkerAct, w: nat): Job
    requires JobEnabled(job, a)
  {
    match a
    case Take => job.(phase := Loading, owner := w)
    case Load(ok) =>
      if ok then job.(phase := Marking)
      else job.(phase := Ended, faults := job.faults + 1, lost := RowTargets(PlanItems(job.plan)))
    case Begin(ok) =>
      SetStatus(job, ok, Processing).(phase := if job.plan.Malformed? then Rejecting else Walking(job.plan.items))
    case Reject(ok) => SetStatus(job, ok, Failed).(phase := Ended)
    case Walk(ok) =>
      var rest := Walking(job.phase.todo[1..]);
      (match job.phase.todo[0]
       case Launch(_) => job.(phase := rest, waiting := job.waiting + 1)
       case Withhold(t) =>
         if ok then job.(phase := rest, rows := job.rows + [Row(t, NOT_SUBSCRIBED, None, None)])
         else job.(phase := rest, lost := job.lost + [t], faults := job.faults + 1))
    case Join => job.(phase := Closing)
    case Close(ok) => SetStatus(job, ok, Verdict(job.plan)).(phase := Tallying)
    case Tally(ok) =>
      job.(phase := Ended, faults := job.faults + Fault(ok),
           memberCount := if ok && job.plan.Work? then job.plan.targets else job.memberCount)
  }

  /** The goroutine a worker action launches, if any. */
  function Spawned(id: Id, job: Job, a: WorkerAct): seq<Go>
    requires JobEnabled(job, a)
  {
    if a.Walk? && job.phase.todo[0].Launch? then [Go(id, job.phase.todo[0].task, [], AwaitSlot)] else []
  }

  // ----- One goroutine under one action -----

  /** What a single e-mail attempt records, whichever of its checks or sends decided it. */
  predicate MailOutcome(o: Outcome) {
    o.attempt == 1 && o.sid == "" && if o.error.None? then o.status == "sent" else o.status == "failed"
  }

  predicate GoEnabled(cfg: Config, go: Go, slots: nat, cancelled: bool, a: GoAct) {
    match a
    case Acquire => go.phase.AwaitSlot? && slots < Slots(cfg)
    case Call(_) => go.phase.Working? && go.task.kind.Retrying? && |go.calls| < Limit(cfg)
    case Conclude(outcome) =>
      && go.phase.Working?
      && (match go.task.kind
          case Retrying => Limit(cfg) == 0
          case Mailing => MailOutcome(outcome)
          case Unregistered => true
          case NoProvider => true)
    case Abandon => go.phase.Working? && go.task.kind.Retrying? && 0 < |go.calls| < Limit(cfg) && cancelled
    case Insert(_) => go.phase.Writing?
    case Note(_) => go.phase.Noting?
    case Release => go.phase.Releasing?
    case Signal => go.phase.Signalling?
  }

  function GoNext(cfg: Config, go: Go, job: Job, a: GoAct): Go {
    match a
    case Acquire => go.(phase := Working)
    case Call(answer) =>
      var calls := go.calls + [answer];
      go.(calls := calls, phase := if answer.Sent? || |calls| >= Limit(cfg) then Writing(OutcomeOf(calls)) else Working)
    case Conclude(outcome) =>
      (match go.task.kind
       case Retrying => go.(phase := Writing(OutcomeOf(go.calls)))
       case Mailing => go.(phase := Writing(outcome))
       case Unregistered => go.(phase := Writing(NOT_SUBSCRIBED))
       case NoProvider => go.(phase := Releasing))
    case Abandon => go.(phase := Releasing)
    case Insert(ok) =>
      (match go.phase
       case Writing(outcome) =>
         go.(phase := if ok && outcome.error.Some? then Noting(|job.rows|, outcome.error.value) else Releasing)
       case _ => go)
    case Note(_) => go.(phase := Releasing)
    case Release => go.(phase := Signalling)
    case Signal => go.(phase := Gone)
  }

  function JobAfterGo(g: nat, go: Go, job: Job, a: GoAct): Job {
    match a
    case Abandon => job.(lost := job.lost + [go.task.target], faults := job.faults + 1)
    case Insert(ok) =>
      (match go.phase
       case Writing(outcome) =>
         if ok then job.(rows := job.rows + [Row(go.task.target, outcome, None, Some(g))])
         else job.(lost := job.lost + [go.task.target], faults := job.faults + 1)
       case _ => job)
    case Note(ok) =>
      (match go.phase
       case Noting(row, error) =>
         if ok && row < |job.rows| then job.(rows := job.rows[row := job.rows[row].(note := Some(error))])
         else job.(faults := job.faults + 1)
       case _ => job)
    case Signal => job.(waiting := if job.waiting > 0 then job.waiting - 1 else 0)
    case _ => job
  }

  function SlotsAfter(slots: nat, a: GoAct): nat {
    match a
    case Acquire => slots + 1
    case Release => if slots > 0 then slots - 1 else 0
    case _ => slots
  }

  // ----- The whole system -----

  predicate Initial(s: State) {
    && s.jobs == map[] && s.sent == [] && s.taken == 0 && s.gos == [] && s.slots == 0 && !s.cancelled
    && forall w :: 0 <= w < |s.workers| ==> s.workers[w] == Idle
  }

  /** The job a worker action is about. */
  predicate HasWork(s: State, w: nat, a: WorkerAct) {
    && w < |s.workers|
    && if a.Take? then s.workers[w].Idle? && s.taken < |s.sent| && s.sent[s.taken] in s.jobs
       else s.workers[w].Busy? && s.workers[w].id in s.jobs
  }

  function WorkId(s: State, w: nat, a: WorkerAct): Id
    requires HasWork(s, w, a)
    ensures WorkId(s, w, a) in s.jobs
  {
    if a.Take? then s.sent[s.taken] else s.workers[w].id
  }

  predicate Enabled(cfg: Config, s: State, a: Action) {
    match a
    case Publish(id, _) => id !in s.jobs
    case Enqueue(id) => id in s.jobs && s.jobs[id].phase.Unsent?
    case WorkerStep(w, act) => HasWork(s, w, act) && JobEnabled(s.jobs[WorkId(s, w, act)], act)
    case Exit(w) => w < |s.workers| && s.workers[w].Idle? && s.cancelled
    case GoStep(g, act) => g < |s.gos| && s.gos[g].job in s.jobs && GoEnabled(cfg, s.gos[g], s.slots, s.cancelled, act)
    case Cancel => true
  }

  function NewJob(plan: Plan): Job {
    Job(plan, Pending, Unsent, 0, 0, [], 0, [], 0)
  }

  function Apply(cfg: Config, s: State, a: Action): State
    requires Enabled(cfg, s, a)
  {
    match a
    case Publish(id, plan) => s.(jobs := s.jobs[id := NewJob(plan)])
    case Enqueue(id) =>
      // The send does not block: a full queue drops the job.
      if |s.sent| - s.taken < cfg.queueCapacity
      then s.(jobs := s.jobs[id := s.jobs[id].(phase := Queued)], sent := s.sent + [id])
      else s.(jobs := s.jobs[id := s.jobs[id].(phase := Dropped)])
    case WorkerStep(w, act) => ApplyWorker(s, w, act)
    case Exit(w) => s.(workers := s.workers[w := Stopped])
    case GoStep(g, act) => ApplyGo(cfg, s, g, act)
    case Cancel => s.(cancelled := true)
  }

  function ApplyWorker(s: State, w: nat, a: WorkerAct): State
    requires HasWork(s, w, a) && JobEnabled(s.jobs[WorkId(s, w, a)], a)
  {
    var id := WorkId(s, w, a);
    var job := JobNext(s.jobs[id], a, w);
    s.(jobs := s.jobs[id := job],
       workers := s.workers[w := if job.phase.Ended? then Idle else Busy(id)],
       taken := if a.Take? then s.taken + 1 else s.taken,
       gos := s.gos + Spawned(id, s.jobs[id], a))
  }

  function ApplyGo(cfg: Config, s: State, g: nat, a: GoAct): State
    requires g < |s.gos| && s.gos[g].job in s.jobs
  {
    var go := s.gos[g];
    var job := s.jobs[go.job];
    s.(gos := s.gos[g := GoNext(cfg, go, job, a)],
       jobs := s.jobs[go.job := JobAfterGo(g, go, job, a)],
       slots := SlotsAfter(s.slots, a))
  }

  /** The state after a run, one enabled action after the other. */
  ghost predicate Run(cfg: Config, s: State, actions: seq<Action>, t: State)
    decreases |actions|
  {
    if actions == [] then s == t
    else Enabled(cfg, s, actions[0]) && Run(cfg, Apply(cfg, s, actions[0]), actions[1..], t)
  }

  ghost predicate Reachable(cfg: Config, t: State) {
    exists s, actions :: Initial(s) && Run(cfg, s, actions, t)
  }
}
