/** What every interleaving of the dispatcher keeps. */
module EngineProofs {
  import opened Common
  import opened Retry
  import opened FanOut
  import opened Engine

  // ----- Sums over goroutines -----

  /** The quantities the proofs add up over all goroutines ever launched. */
  datatype Metric =
    | Holding
    | Unfinished(id: Id)
    | Owed(id: Id, target: Target)
    | Steps(limit: nat)
    | OwnSteps(limit: nat, id: Id)

  predicate HoldsSlot(p: GoPhase) {
    p.Working? || p.Writing? || p.Noting? || p.Releasing?
  }

  /** Whether the goroutine may still write the row of its task. */
  predicate RowAhead(p: GoPhase) {
    p.AwaitSlot? || p.Working? || p.Writing?
  }

  /** An upper bound on the actions a goroutine still takes. */
  function StepsLeft(limit: nat, go: Go): nat {
    match go.phase
    case AwaitSlot => limit + 7
    case Working => if |go.calls| <= limit then limit - |go.calls| + 6 else 6
    case Writing(_) => 5
    case Noting(_, _) => 4
    case Releasing => 3
    case Signalling => 2
    case Gone => 0
  }

  function Amount(m: Metric, go: Go): nat {
    match m
    case Holding => if HoldsSlot(go.phase) then 1 else 0
    case Unfinished(id) => if go.job == id && !go.phase.Gone? then 1 else 0
    case Owed(id, target) => if go.job == id && RowAhead(go.phase) then TaskRows(go.task, target) else 0
    case Steps(limit) => StepsLeft(limit, go)
    case OwnSteps(limit, id) => if go.job == id then StepsLeft(limit, go) else 0
  }

  function Total(m: Metric, gos: seq<Go>): nat {
    if gos == [] then 0 else Amount(m, gos[0]) + Total(m, gos[1..])
  }

  lemma {:induction false} TotalUpdate(m: Metric, gos: seq<Go>, g: nat, go: Go)
    requires g < |gos|
    ensures Total(m, gos[g := go]) + Amount(m, gos[g]) == Total(m, gos) + Amount(m, go)
  {
    if g == 0 {
      assert gos[g := go][1..] == gos[1..];
    } else {
      TotalUpdate(m, gos[1..], g - 1, go);
      assert gos[g := go][1..] == gos[1..][g - 1 := go];
    }
  }

  lemma {:induction false} TotalAppend(m: Metric, gos: seq<Go>, go: Go)
    ensures Total(m, gos + [go]) == Total(m, gos) + Amount(m, go)
  {
    if gos == [] {
      assert gos + [go] == [go];
    } else {
      TotalAppend(m, gos[1..], go);
      assert (gos + [go])[1..] == gos[1..] + [go];
    }
  }

  lemma {:induction false} TotalPositive(m: Metric, gos: seq<Go>, g: nat)
    requires g < |gos|
    ensures Amount(m, gos[g]) <= Total(m, gos)
  {
    if g > 0 {
      TotalPositive(m, gos[1..], g - 1);
    }
  }

  lemma {:induction false} TotalZero(m: Metric, gos: seq<Go>)
    requires forall g :: 0 <= g < |gos| ==> Amount(m, gos[g]) == 0
    ensures Total(m, gos) == 0
  {
    if gos != [] {
      TotalZero(m, gos[1..]);
    }
  }

  // ----- The invariant -----

  function Targets(rows: seq<Row>): (ts: seq<Target>)
    ensures |ts| == |rows|
  {
    seq(|rows|, i requires 0 <= i < |rows| => rows[i].target)
  }

  /** The part of the plan the worker has not walked yet. */
  function Todo(job: Job): seq<Item> {
    match job.phase
    case Walking(todo) => todo
    case Closing => []
    case Tallying => []
    case Ended => []
    case _ => PlanItems(job.plan)
  }

  /** How often t is written, lost, or still ahead in the worker's loop. */
  function Accounted(job: Job, t: Target): nat {
    multiset(Targets(job.rows))[t] + multiset(job.lost)[t] + Planned(Todo(job), t)
  }

  /** Held by a worker. */
  predicate Active(p: Phase) {
    !p.Unsent? && !p.Dropped? && !p.Queued? && !p.Ended?
  }

  predicate NotStarted(p: Phase) {
    p.Unsent? || p.Dropped? || p.Queued? || p.Loading? || p.Marking?
  }

  /** What each job satisfies by itself. */
  ghost predicate JobOk(job: Job) {
    && (NotStarted(job.phase) ==> job.status.Pending? && job.rows == [] && job.lost == [])
    && (!job.phase.Ended? && !NotStarted(job.phase) ==> (job.phase.Rejecting? <==> job.plan.Malformed?))
    && (job.phase.Rejecting? || job.phase.Walking? || job.phase.Closing? ==> !Terminal(job.status))
    && (Terminal(job.status) ==> job.status == Verdict(job.plan))
    && (job.waiting > 0 ==> job.phase.Walking?)
    && (job.faults == 0 ==> FaultFree(job))
  }

  /** What a job satisfies as long as none of its statements failed and it was not cancelled. */
  ghost predicate FaultFree(job: Job) {
    && job.lost == []
    && (job.phase.Rejecting? || job.phase.Walking? || job.phase.Closing? ==> job.status.Processing?)
    && (job.phase.Tallying? || job.phase.Ended? ==> job.status == Verdict(job.plan))
    && (job.phase.Ended? && job.plan.Work? ==> job.memberCount == job.plan.targets)
  }

  ghost predicate JobsOk(s: State) {
    forall id :: id in s.jobs ==> JobOk(s.jobs[id])
  }

  /** Queue and workers: an id is sent at most once, waits on the queue as a pending row that
      nobody holds, and is then held by exactly one worker. */
  ghost predicate Placed(cfg: Config, s: State) {
    && s.taken <= |s.sent| && |s.sent| - s.taken <= cfg.queueCapacity
    && Distinct(s.sent)
    && (forall i :: 0 <= i < |s.sent| ==>
          s.sent[i] in s.jobs && !s.jobs[s.sent[i]].phase.Unsent? && !s.jobs[s.sent[i]].phase.Dropped?)
    && (forall i :: 0 <= i < |s.sent| ==> (s.jobs[s.sent[i]].phase.Queued? <==> s.taken <= i))
    && (forall id :: id in s.jobs && (Active(s.jobs[id].phase) || s.jobs[id].phase.Queued?) ==> id in s.sent)
    && (forall w :: 0 <= w < |s.workers| && s.workers[w].Busy? ==>
          s.workers[w].id in s.jobs && Active(s.jobs[s.workers[w].id].phase) && s.jobs[s.workers[w].id].owner == w)
    && (forall id :: id in s.jobs && Active(s.jobs[id].phase) ==>
          s.jobs[id].owner < |s.workers| && s.workers[s.jobs[id].owner] == Busy(id))
  }

  /** Goroutines belong to known jobs, and their calls are legal retry histories. */
  ghost predicate GosOk(cfg: Config, s: State) {
    forall g :: 0 <= g < |s.gos| ==> s.gos[g].job in s.jobs && GoOk(cfg, s.gos[g], s.jobs[s.gos[g].job])
  }

  ghost predicate GoOk(cfg: Config, go: Go, job: Job) {
    && (!go.task.kind.Retrying? || go.phase.AwaitSlot? ==> go.calls == [])
    && match go.phase
       case Working =>
         && (forall i :: 0 <= i < |go.calls| ==> go.calls[i].Refused?)
         && |go.calls| <= Limit(cfg) && (go.calls != [] ==> |go.calls| < Limit(cfg))
       case Writing(outcome) => OutcomeOk(cfg, go, outcome)
       case Noting(row, error) => row < |job.rows| && job.rows[row].outcome.error == Some(error)
       case _ => true
  }

  /** What a goroutine may record: a retrying one, what its own finished calls amount to. */
  ghost predicate OutcomeOk(cfg: Config, go: Go, o: Outcome) {
    match go.task.kind
    case Retrying => Finished(go.calls, Limit(cfg)) && o == OutcomeOf(go.calls)
    case Mailing => MailOutcome(o)
    case Unregistered => o == NOT_SUBSCRIBED
    case NoProvider => false
  }

  /** The counters of the code against the goroutines they count. */
  ghost predicate Counted(cfg: Config, s: State) {
    && s.slots == Total(Holding, s.gos) && s.slots <= Slots(cfg)
    && forall id :: id in s.jobs ==> s.jobs[id].waiting == Total(Unfinished(id), s.gos)
  }

  /** Conservation: for every job and target, rows written, rows lost, rows goroutines still owe
      and rows the worker has not reached add up to the plan. */
  ghost predicate Conserved(s: State) {
    forall id, t :: id in s.jobs ==> Balanced(s.jobs[id], Total(Owed(id, t), s.gos), t)
  }

  predicate Balanced(job: Job, owed: nat, t: Target) {
    Accounted(job, t) + owed == Planned(PlanItems(job.plan), t)
  }

  ghost predicate Inv(cfg: Config, s: State) {
    JobsOk(s) && Placed(cfg, s) && GosOk(cfg, s) && Counted(cfg, s) && Conserved(s)
  }

  // ----- One job, one step -----

  lemma JobOkAfterWorker(job: Job, a: WorkerAct, w: nat)
    requires JobOk(job) && JobEnabled(job, a)
    ensures JobOk(JobNext(job, a, w))
  {
  }

  lemma JobOkAfterGo(g: nat, go: Go, job: Job, a: GoAct)
    requires JobOk(job) && job.phase.Walking?
    ensures JobOk(JobAfterGo(g, go, job, a))
  {
  }

  lemma {:induction false} RowTargetsPlanned(items: seq<Item>, t: Target)
    ensures multiset(RowTargets(items))[t] == Planned(items, t)
  {
    if items != [] {
      RowTargetsPlanned(items[1..], t);
    }
  }

  lemma TargetsAppend(rows: seq<Row>, row: Row)
    ensures Targets(rows + [row]) == Targets(rows) + [row.target]
  {
  }

  lemma BalancedLoad(job: Job, ok: bool, w: nat, t: Target)
    requires JobOk(job) && job.phase.Loading? && Balanced(job, 0, t)
    ensures Balanced(JobNext(job, Load(ok), w), 0, t)
  {
    RowTargetsPlanned(PlanItems(job.plan), t);
  }

  lemma BalancedWalk(id: Id, job: Job, ok: bool, w: nat, owed: nat, t: Target)
    requires JobEnabled(job, Walk(ok)) && Balanced(job, owed, t)
    ensures Balanced(JobNext(job, Walk(ok), w), owed + SpawnOwes(id, job, Walk(ok), t), t)
  {
    match job.phase.todo[0]
    case Withhold(u) => TargetsAppend(job.rows, Row(u, NOT_SUBSCRIBED, None, None));
    case Launch(task) =>
  }

  /** What the goroutine launched by a worker action, if any, owes for t. */
  function SpawnOwes(id: Id, job: Job, a: WorkerAct, t: Target): nat
    requires JobEnabled(job, a)
  {
    if Spawned(id, job, a) == [] then 0 else Amount(Owed(id, t), Spawned(id, job, a)[0])
  }

  lemma BalancedAfterWorker(id: Id, job: Job, a: WorkerAct, w: nat, owed: nat, t: Target)
    requires JobOk(job) && JobEnabled(job, a) && Balanced(job, owed, t)
    requires job.phase.Loading? ==> owed == 0
    ensures Balanced(JobNext(job, a, w), owed + SpawnOwes(id, job, a, t), t)
  {
    match a
    case Load(ok) => BalancedLoad(job, ok, w, t);
    case Walk(ok) => BalancedWalk(id, job, ok, w, owed, t);
    case _ =>
  }

  lemma BalancedInsert(cfg: Config, g: nat, go: Go, job: Job, ok: bool, owed: nat, t: Target)
    requires go.phase.Writing? && go.task.kind != NoProvider && Balanced(job, owed + Amount(Owed(go.job, t), go), t)
    ensures Balanced(JobAfterGo(g, go, job, Insert(ok)),
                     owed + Amount(Owed(go.job, t), GoNext(cfg, go, job, Insert(ok))), t)
  {
    TargetsAppend(job.rows, Row(go.task.target, go.phase.outcome, None, Some(g)));
  }

  lemma BalancedNote(g: nat, go: Go, job: Job, ok: bool, owed: nat, t: Target)
    requires Balanced(job, owed, t)
    ensures Balanced(JobAfterGo(g, go, job, Note(ok)), owed, t)
  {
    assert Targets(JobAfterGo(g, go, job, Note(ok)).rows) == Targets(job.rows);
  }

  lemma BalancedAfterGo(cfg: Config, g: nat, go: Go, job: Job, a: GoAct, slots: nat, cancelled: bool, owed: nat, t: Target)
    requires GoEnabled(cfg, go, slots, cancelled, a) && GoOk(cfg, go, job)
    requires Balanced(job, owed + Amount(Owed(go.job, t), go), t)
    ensures Balanced(JobAfterGo(g, go, job, a), owed + Amount(Owed(go.job, t), GoNext(cfg, go, job, a)), t)
  {
    match a
    case Insert(ok) => BalancedInsert(cfg, g, go, job, ok, owed, t);
    case Note(ok) => BalancedNote(g, go, job, ok, owed, t);
    case _ =>
  }

  lemma {:induction false} OwedAtMostUnfinished(id: Id, t: Target, gos: seq<Go>)
    ensures Total(Owed(id, t), gos) <= Total(Unfinished(id), gos)
  {
    if gos != [] {
      OwedAtMostUnfinished(id, t, gos[1..]);
    }
  }

  // ----- A worker action in the whole system -----

  lemma WorkerKeepsJobs(cfg: Config, s: State, w: nat, a: WorkerAct)
    requires Inv(cfg, s) && Enabled(cfg, s, WorkerStep(w, a))
    ensures JobsOk(ApplyWorker(s, w, a))
  {
    JobOkAfterWorker(s.jobs[WorkId(s, w, a)], a, w);
  }

  lemma TakeKeepsPlaced(cfg: Config, s: State, w: nat)
    requires Placed(cfg, s) && Enabled(cfg, s, WorkerStep(w, Take))
    ensures Placed(cfg, ApplyWorker(s, w, Take))
  {
    var t := ApplyWorker(s, w, Take);
    assert s.sent[s.taken] in s.jobs && s.jobs[s.sent[s.taken]].phase.Queued?;
    forall i | t.taken <= i < |t.sent| ensures t.jobs[t.sent[i]].phase.Queued? {
      assert s.sent[i] != s.sent[s.taken];
    }
  }

  /** Between taking a job and ending it, the job stays with its worker. */
  lemma HeldKeepsPlaced(cfg: Config, s: State, w: nat, a: WorkerAct)
    requires Placed(cfg, s) && Enabled(cfg, s, WorkerStep(w, a)) && !a.Take?
    ensures Placed(cfg, ApplyWorker(s, w, a))
  {
    var t := ApplyWorker(s, w, a);
    var id := WorkId(s, w, a);
    var job := JobNext(s.jobs[id], a, w);
    assert Active(s.jobs[id].phase) && s.jobs[id].owner == w == job.owner;
    assert Active(job.phase) || job.phase.Ended?;
    forall i | t.taken <= i < |t.sent| ensures t.jobs[t.sent[i]].phase.Queued? {
      assert s.jobs[s.sent[i]].phase.Queued?;
      assert t.sent[i] != id;
    }
  }

  lemma WorkerKeepsGos(cfg: Config, s: State, w: nat, a: WorkerAct)
    requires GosOk(cfg, s) && Enabled(cfg, s, WorkerStep(w, a))
    ensures GosOk(cfg, ApplyWorker(s, w, a))
  {
    var t := ApplyWorker(s, w, a);
    var id := WorkId(s, w, a);
    assert |JobNext(s.jobs[id], a, w).rows| >= |s.jobs[id].rows|;
    forall g | 0 <= g < |t.gos| ensures t.gos[g].job in t.jobs && GoOk(cfg, t.gos[g], t.jobs[t.gos[g].job]) {
      if g < |s.gos| {
        assert t.gos[g] == s.gos[g] && GoOk(cfg, s.gos[g], s.jobs[s.gos[g].job]);
      }
    }
  }

  lemma SpawnTotal(m: Metric, id: Id, job: Job, a: WorkerAct, gos: seq<Go>)
    requires JobEnabled(job, a)
    ensures Total(m, gos + Spawned(id, job, a))
            == Total(m, gos) + if Spawned(id, job, a) == [] then 0 else Amount(m, Spawned(id, job, a)[0])
  {
    if Spawned(id, job, a) == [] {
      assert gos + Spawned(id, job, a) == gos;
    } else {
      TotalAppend(m, gos, Spawned(id, job, a)[0]);
    }
  }

  lemma WorkerKeepsCounted(cfg: Config, s: State, w: nat, a: WorkerAct)
    requires Counted(cfg, s) && Enabled(cfg, s, WorkerStep(w, a))
    ensures Counted(cfg, ApplyWorker(s, w, a))
  {
    var t := ApplyWorker(s, w, a);
    var id := WorkId(s, w, a);
    SpawnTotal(Holding, id, s.jobs[id], a, s.gos);
    forall x | x in t.jobs ensures t.jobs[x].waiting == Total(Unfinished(x), t.gos) {
      SpawnTotal(Unfinished(x), id, s.jobs[id], a, s.gos);
    }
  }

  lemma NothingOwedBeforeStart(cfg: Config, s: State, id: Id, t: Target)
    requires JobsOk(s) && Counted(cfg, s) && id in s.jobs && s.jobs[id].phase.Loading?
    ensures Total(Owed(id, t), s.gos) == 0
  {
    OwedAtMostUnfinished(id, t, s.gos);
  }

  lemma WorkerKeepsConserved(cfg: Config, s: State, w: nat, a: WorkerAct)
    requires JobsOk(s) && Counted(cfg, s) && Conserved(s) && Enabled(cfg, s, WorkerStep(w, a))
    ensures Conserved(ApplyWorker(s, w, a))
  {
    var t := ApplyWorker(s, w, a);
    var id := WorkId(s, w, a);
    var job := s.jobs[id];
    forall x, u | x in t.jobs ensures Balanced(t.jobs[x], Total(Owed(x, u), t.gos), u) {
      SpawnTotal(Owed(x, u), id, job, a, s.gos);
      assert Balanced(s.jobs[x], Total(Owed(x, u), s.gos), u);
      if x == id {
        if job.phase.Loading? {
          NothingOwedBeforeStart(cfg, s, id, u);
        }
        BalancedAfterWorker(id, job, a, w, Total(Owed(id, u), s.gos), u);
      }
    }
  }

  // ----- A goroutine action in the whole system -----

  /** A goroutine that is not gone keeps its job in the walking phase. */
  lemma UnfinishedMeansWalking(cfg: Config, s: State, g: nat)
    requires JobsOk(s) && Counted(cfg, s) && g < |s.gos| && s.gos[g].job in s.jobs && !s.gos[g].phase.Gone?
    ensures s.jobs[s.gos[g].job].phase.Walking? && s.jobs[s.gos[g].job].waiting > 0
  {
    TotalPositive(Unfinished(s.gos[g].job), s.gos, g);
  }

  lemma GoKeepsJobs(cfg: Config, s: State, g: nat, a: GoAct)
    requires Inv(cfg, s) && Enabled(cfg, s, GoStep(g, a))
    ensures JobsOk(ApplyGo(cfg, s, g, a))
  {
    UnfinishedMeansWalking(cfg, s, g);
    JobOkAfterGo(g, s.gos[g], s.jobs[s.gos[g].job], a);
  }

  lemma GoKeepsPlaced(cfg: Config, s: State, g: nat, a: GoAct)
    requires Placed(cfg, s) && g < |s.gos| && s.gos[g].job in s.jobs
    ensures Placed(cfg, ApplyGo(cfg, s, g, a))
  {
    var t := ApplyGo(cfg, s, g, a);
    assert forall id :: id in s.jobs ==> t.jobs[id].phase == s.jobs[id].phase && t.jobs[id].owner == s.jobs[id].owner;
  }

  lemma GoOkAfter(cfg: Config, g: nat, go: Go, job: Job, a: GoAct, slots: nat, cancelled: bool)
    requires GoOk(cfg, go, job) && GoEnabled(cfg, go, slots, cancelled, a)
    ensures GoOk(cfg, GoNext(cfg, go, job, a), JobAfterGo(g, go, job, a))
    ensures |JobAfterGo(g, go, job, a).rows| >= |job.rows|
  {
  }

  lemma GoKeepsGos(cfg: Config, s: State, g: nat, a: GoAct)
    requires GosOk(cfg, s) && Enabled(cfg, s, GoStep(g, a))
    ensures GosOk(cfg, ApplyGo(cfg, s, g, a))
  {
    var t := ApplyGo(cfg, s, g, a);
    var job := s.jobs[s.gos[g].job];
    GoOkAfter(cfg, g, s.gos[g], job, a, s.slots, s.cancelled);
    forall h | 0 <= h < |t.gos| && h != g ensures t.gos[h].job in t.jobs && GoOk(cfg, t.gos[h], t.jobs[t.gos[h].job]) {
      assert t.gos[h] == s.gos[h] && GoOk(cfg, s.gos[h], s.jobs[s.gos[h].job]);
    }
  }

  lemma GoAmounts(cfg: Config, go: Go, job: Job, a: GoAct, slots: nat, cancelled: bool)
    requires GoEnabled(cfg, go, slots, cancelled, a)
    ensures HoldsSlot(GoNext(cfg, go, job, a).phase) == (if a.Acquire? then true else if a.Release? then false else HoldsSlot(go.phase))
    ensures GoNext(cfg, go, job, a).phase.Gone? == a.Signal?
    ensures a.Acquire? ==> !HoldsSlot(go.phase)
    ensures a.Release? ==> HoldsSlot(go.phase)
  {
  }

  lemma GoKeepsSlots(cfg: Config, s: State, g: nat, a: GoAct)
    requires s.slots == Total(Holding, s.gos) && s.slots <= Slots(cfg) && Enabled(cfg, s, GoStep(g, a))
    ensures ApplyGo(cfg, s, g, a).slots == Total(Holding, ApplyGo(cfg, s, g, a).gos) <= Slots(cfg)
  {
    var t := ApplyGo(cfg, s, g, a);
    GoAmounts(cfg, s.gos[g], s.jobs[s.gos[g].job], a, s.slots, s.cancelled);
    TotalUpdate(Holding, s.gos, g, t.gos[g]);
    TotalPositive(Holding, s.gos, g);
  }

  lemma GoKeepsWaiting(cfg: Config, s: State, g: nat, a: GoAct, id: Id)
    requires Counted(cfg, s) && Enabled(cfg, s, GoStep(g, a)) && id in s.jobs
    ensures ApplyGo(cfg, s, g, a).jobs[id].waiting == Total(Unfinished(id), ApplyGo(cfg, s, g, a).gos)
  {
    var t := ApplyGo(cfg, s, g, a);
    GoAmounts(cfg, s.gos[g], s.jobs[s.gos[g].job], a, s.slots, s.cancelled);
    assert s.jobs[id].waiting == Total(Unfinished(id), s.gos);
    TotalUpdate(Unfinished(id), s.gos, g, t.gos[g]);
    TotalPositive(Unfinished(id), s.gos, g);
  }

  lemma GoKeepsCounted(cfg: Config, s: State, g: nat, a: GoAct)
    requires Counted(cfg, s) && Enabled(cfg, s, GoStep(g, a))
    ensures Counted(cfg, ApplyGo(cfg, s, g, a))
  {
    GoKeepsSlots(cfg, s, g, a);
    forall id | id in s.jobs ensures ApplyGo(cfg, s, g, a).jobs[id].waiting == Total(Unfinished(id), ApplyGo(cfg, s, g, a).gos) {
      GoKeepsWaiting(cfg, s, g, a, id);
    }
  }

  lemma GoKeepsConserved(cfg: Config, s: State, g: nat, a: GoAct)
    requires GosOk(cfg, s) && Conserved(s) && Enabled(cfg, s, GoStep(g, a))
    ensures Conserved(ApplyGo(cfg, s, g, a))
  {
    var t := ApplyGo(cfg, s, g, a);
    var go := s.gos[g];
    forall x, u | x in t.jobs ensures Balanced(t.jobs[x], Total(Owed(x, u), t.gos), u) {
      TotalUpdate(Owed(x, u), s.gos, g, t.gos[g]);
      TotalPositive(Owed(x, u), s.gos, g);
      assert Balanced(s.jobs[x], Total(Owed(x, u), s.gos), u);
      if x == go.job {
        var others := Total(Owed(x, u), s.gos) - Amount(Owed(x, u), go);
        BalancedAfterGo(cfg, g, go, s.jobs[x], a, s.slots, s.cancelled, others, u);
      }
    }
  }

  // ----- The producers -----

  lemma UnknownJobHasNoGos(cfg: Config, s: State, id: Id, t: Target)
    requires GosOk(cfg, s) && id !in s.jobs
    ensures Total(Unfinished(id), s.gos) == 0 && Total(Owed(id, t), s.gos) == 0
  {
    TotalZero(Unfinished(id), s.gos);
    TotalZero(Owed(id, t), s.gos);
  }

  lemma PublishPlaced(cfg: Config, s: State, id: Id, plan: Plan)
    requires Placed(cfg, s) && id !in s.jobs
    ensures Placed(cfg, Apply(cfg, s, Publish(id, plan)))
  {
    var t := Apply(cfg, s, Publish(id, plan));
    assert forall i :: 0 <= i < |s.sent| ==> s.sent[i] in s.jobs && t.jobs[s.sent[i]] == s.jobs[s.sent[i]];
  }

  lemma PublishCounted(cfg: Config, s: State, id: Id, plan: Plan)
    requires GosOk(cfg, s) && Counted(cfg, s) && id !in s.jobs
    ensures Counted(cfg, Apply(cfg, s, Publish(id, plan)))
  {
    UnknownJobHasNoGos(cfg, s, id, ToDestination("", Sms));
  }

  lemma PublishConserved(cfg: Config, s: State, id: Id, plan: Plan)
    requires GosOk(cfg, s) && Conserved(s) && id !in s.jobs
    ensures Conserved(Apply(cfg, s, Publish(id, plan)))
  {
    var t := Apply(cfg, s, Publish(id, plan));
    forall x, u | x in t.jobs ensures Balanced(t.jobs[x], Total(Owed(x, u), t.gos), u) {
      if x == id {
        UnknownJobHasNoGos(cfg, s, id, u);
      } else {
        assert Balanced(s.jobs[x], Total(Owed(x, u), s.gos), u);
      }
    }
  }

  lemma PublishGos(cfg: Config, s: State, id: Id, plan: Plan)
    requires GosOk(cfg, s) && id !in s.jobs
    ensures GosOk(cfg, Apply(cfg, s, Publish(id, plan)))
  {
    var t := Apply(cfg, s, Publish(id, plan));
    forall g | 0 <= g < |t.gos| ensures t.gos[g].job in t.jobs && GoOk(cfg, t.gos[g], t.jobs[t.gos[g].job]) {
      assert GoOk(cfg, s.gos[g], s.jobs[s.gos[g].job]);
    }
  }

  lemma PublishKeeps(cfg: Config, s: State, id: Id, plan: Plan)
    requires Inv(cfg, s) && id !in s.jobs
    ensures Inv(cfg, Apply(cfg, s, Publish(id, plan)))
  {
    assert JobOk(NewJob(plan));
    PublishPlaced(cfg, s, id, plan);
    PublishGos(cfg, s, id, plan);
    PublishCounted(cfg, s, id, plan);
    PublishConserved(cfg, s, id, plan);
  }

  /** Queueing or dropping a fresh job changes nothing but its phase. */
  lemma PhaseOnlyKeeps(cfg: Config, s: State, id: Id, phase: Phase, t: State)
    requires JobsOk(s) && GosOk(cfg, s) && Counted(cfg, s) && Conserved(s)
    requires id in s.jobs && s.jobs[id].phase.Unsent? && (phase.Queued? || phase.Dropped?)
    requires t.jobs == s.jobs[id := s.jobs[id].(phase := phase)] && t.gos == s.gos && t.slots == s.slots
    ensures JobsOk(t) && GosOk(cfg, t) && Counted(cfg, t) && Conserved(t)
  {
    assert JobOk(s.jobs[id]);
    forall g | 0 <= g < |t.gos| ensures t.gos[g].job in t.jobs && GoOk(cfg, t.gos[g], t.jobs[t.gos[g].job]) {
      assert GoOk(cfg, s.gos[g], s.jobs[s.gos[g].job]);
    }
    forall x, u | x in t.jobs ensures Balanced(t.jobs[x], Total(Owed(x, u), t.gos), u) {
      assert Balanced(s.jobs[x], Total(Owed(x, u), s.gos), u);
    }
  }

  lemma EnqueueKeeps(cfg: Config, s: State, id: Id)
    requires Inv(cfg, s) && Enabled(cfg, s, Enqueue(id))
    ensures Inv(cfg, Apply(cfg, s, Enqueue(id)))
  {
    var t := Apply(cfg, s, Enqueue(id));
    EnqueuePlaced(cfg, s, id);
    PhaseOnlyKeeps(cfg, s, id, t.jobs[id].phase, t);
  }

  lemma EnqueuePlaced(cfg: Config, s: State, id: Id)
    requires Placed(cfg, s) && Enabled(cfg, s, Enqueue(id))
    ensures Placed(cfg, Apply(cfg, s, Enqueue(id)))
  {
    assert forall i :: 0 <= i < |s.sent| ==> s.sent[i] != id;
    if |s.sent| - s.taken < cfg.queueCapacity {
      QueuedPlaced(cfg, s, id, Apply(cfg, s, Enqueue(id)));
    }
  }

  lemma QueuedPlaced(cfg: Config, s: State, id: Id, t: State)
    requires Placed(cfg, s) && id in s.jobs && s.jobs[id].phase.Unsent? && |s.sent| - s.taken < cfg.queueCapacity
    requires forall i :: 0 <= i < |s.sent| ==> s.sent[i] != id
    requires t == s.(jobs := s.jobs[id := s.jobs[id].(phase := Queued)], sent := s.sent + [id])
    ensures Placed(cfg, t)
  {
    assert t.sent[|s.sent|] == id;
    assert forall x :: x in s.sent ==> x in t.sent;
  }

  // ----- The invariant holds in every reachable state -----

  lemma WorkerKeepsInv(cfg: Config, s: State, w: nat, a: WorkerAct)
    requires Inv(cfg, s) && Enabled(cfg, s, WorkerStep(w, a))
    ensures Inv(cfg, ApplyWorker(s, w, a))
  {
    WorkerKeepsJobs(cfg, s, w, a);
    if a.Take? {
      TakeKeepsPlaced(cfg, s, w);
    } else {
      HeldKeepsPlaced(cfg, s, w, a);
    }
    WorkerKeepsGos(cfg, s, w, a);
    WorkerKeepsCounted(cfg, s, w, a);
    WorkerKeepsConserved(cfg, s, w, a);
  }

  lemma GoKeepsInv(cfg: Config, s: State, g: nat, a: GoAct)
    requires Inv(cfg, s) && Enabled(cfg, s, GoStep(g, a))
    ensures Inv(cfg, ApplyGo(cfg, s, g, a))
  {
    GoKeepsJobs(cfg, s, g, a);
    GoKeepsPlaced(cfg, s, g, a);
    GoKeepsGos(cfg, s, g, a);
    GoKeepsCounted(cfg, s, g, a);
    GoKeepsConserved(cfg, s, g, a);
  }

  lemma StepKeepsInv(cfg: Config, s: State, a: Action)
    requires Inv(cfg, s) && Enabled(cfg, s, a)
    ensures Inv(cfg, Apply(cfg, s, a))
  {
    match a
    case Publish(id, plan) => PublishKeeps(cfg, s, id, plan);
    case Enqueue(id) => EnqueueKeeps(cfg, s, id);
    case WorkerStep(w, act) => WorkerKeepsInv(cfg, s, w, act);
    case GoStep(g, act) => GoKeepsInv(cfg, s, g, act);
    case Exit(w) =>
    case Cancel =>
  }

  lemma {:induction false} RunKeepsInv(cfg: Config, s: State, actions: seq<Action>, t: State)
    requires Inv(cfg, s) && Run(cfg, s, actions, t)
    ensures Inv(cfg, t)
    decreases |actions|
  {
    if actions != [] {
      StepKeepsInv(cfg, s, actions[0]);
      RunKeepsInv(cfg, Apply(cfg, s, actions[0]), actions[1..], t);
    }
  }

  lemma ReachableInv(cfg: Config, t: State)
    requires Reachable(cfg, t)
    ensures Inv(cfg, t)
  {
    var s, actions :| Initial(s) && Run(cfg, s, actions, t);
    RunKeepsInv(cfg, s, actions, t);
  }
}
