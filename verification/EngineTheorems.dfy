/** The dispatcher's guarantees over whole runs: confluence of the fan-out, slot safety, the
    notification lifecycle, and what each delivery row records of the calls made for it. */
module EngineTheorems {
  import opened Common
  import opened Retry
  import opened FanOut
  import opened Engine
  import opened EngineProofs

  // ----- Confluence of the fan-out -----

  lemma NothingOwedAtTheEnd(cfg: Config, s: State, id: Id, t: Target)
    requires Inv(cfg, s) && id in s.jobs && !s.jobs[id].phase.Walking?
    ensures Total(Owed(id, t), s.gos) == 0
  {
    assert JobOk(s.jobs[id]);
    OwedAtMostUnfinished(id, t, s.gos);
  }

  /** Whatever the interleaving, once a job's status is terminal its rows and its lost rows are
      together exactly the sequential plan, and the verdict is the one the plan dictates. */
  lemma FanOutConserved(cfg: Config, s: State, id: Id)
    requires Reachable(cfg, s) && id in s.jobs && Terminal(s.jobs[id].status)
    ensures multiset(Targets(s.jobs[id].rows)) + multiset(s.jobs[id].lost) == multiset(RowTargets(PlanItems(s.jobs[id].plan)))
    ensures s.jobs[id].status == Verdict(s.jobs[id].plan)
  {
    ReachableInv(cfg, s);
    var job := s.jobs[id];
    assert JobOk(job);
    var written, planned := multiset(Targets(job.rows)) + multiset(job.lost), multiset(RowTargets(PlanItems(job.plan)));
    forall t ensures written[t] == planned[t] {
      NothingOwedAtTheEnd(cfg, s, id, t);
      assert Balanced(job, Total(Owed(id, t), s.gos), t);
      RowTargetsPlanned(PlanItems(job.plan), t);
    }
    assert written == planned;
  }

  /** With no failed statement and no cancellation nothing is lost: the rows are exactly the plan. */
  lemma FaultlessRows(cfg: Config, s: State, id: Id)
    requires Reachable(cfg, s) && id in s.jobs && Terminal(s.jobs[id].status) && s.jobs[id].faults == 0
    ensures multiset(Targets(s.jobs[id].rows)) == multiset(RowTargets(PlanItems(s.jobs[id].plan)))
    ensures s.jobs[id].status == Verdict(s.jobs[id].plan)
    ensures s.jobs[id].phase.Ended? && s.jobs[id].plan.Work? ==> s.jobs[id].memberCount == s.jobs[id].plan.targets
  {
    FanOutConserved(cfg, s, id);
    ReachableInv(cfg, s);
    assert JobOk(s.jobs[id]);
  }

  /** So two such runs of the same plan agree on whom they wrote rows for and on the verdict,
      whatever their interleavings. */
  lemma FanOutConfluent(cfg1: Config, s1: State, id1: Id, cfg2: Config, s2: State, id2: Id)
    requires Reachable(cfg1, s1) && id1 in s1.jobs && Terminal(s1.jobs[id1].status) && s1.jobs[id1].faults == 0
    requires Reachable(cfg2, s2) && id2 in s2.jobs && Terminal(s2.jobs[id2].status) && s2.jobs[id2].faults == 0
    requires s1.jobs[id1].plan == s2.jobs[id2].plan
    ensures multiset(Targets(s1.jobs[id1].rows)) == multiset(RowTargets(PlanItems(s1.jobs[id1].plan)))
    ensures multiset(Targets(s1.jobs[id1].rows)) == multiset(Targets(s2.jobs[id2].rows))
    ensures s1.jobs[id1].status == s2.jobs[id2].status
  {
    FaultlessRows(cfg1, s1, id1);
    FaultlessRows(cfg2, s2, id2);
  }

  /** The plan of a notification whose columns parse, with the answers its run gets. */
  function PlanOf(groups: seq<string>, channels: seq<Channel>, destinations: seq<Destination>,
                  p: Providers, a: Answers): Plan {
    Work(Items(groups, channels, destinations, p, a), MemberTotal(a, |groups|) + |destinations|)
  }

  lemma PlannedTargets(groups: seq<string>, channels: seq<Channel>, destinations: seq<Destination>, p: Providers,
                       a: Answers, t: Target)
    ensures multiset(RowTargets(PlanItems(PlanOf(groups, channels, destinations, p, a))))[t]
            == RowsFor(groups, channels, destinations, p, a, t)
  {
    RowTargetsPlanned(Items(groups, channels, destinations, p, a), t);
    PlanCountsListings(groups, channels, destinations, p, a, t);
  }

  lemma FaultlessVerdict(cfg: Config, s: State, id: Id, targets: nat)
    requires Reachable(cfg, s) && id in s.jobs && Terminal(s.jobs[id].status) && s.jobs[id].faults == 0
    requires s.jobs[id].plan.Work? && s.jobs[id].plan.targets == targets
    ensures s.jobs[id].status.Completed? <==> targets > 0
    ensures s.jobs[id].phase.Ended? ==> s.jobs[id].memberCount == targets
  {
    FaultlessRows(cfg, s, id);
  }

  /** End to end, whatever the queries answered: a job of that notification that ran without faults
      has, once terminal, one row per listing of a group and eligible member and channel, one row per
      deliverable destination, and nothing else; it is "completed" exactly when something was listed,
      and once its run ended the count stored is one per member of each listing plus one per
      destination. */
  lemma FanOutByListing(cfg: Config, s: State, id: Id, groups: seq<string>, channels: seq<Channel>,
                        destinations: seq<Destination>, p: Providers, a: Answers, t: Target)
    requires Reachable(cfg, s) && id in s.jobs && Terminal(s.jobs[id].status) && s.jobs[id].faults == 0
    requires s.jobs[id].plan == PlanOf(groups, channels, destinations, p, a)
    ensures multiset(Targets(s.jobs[id].rows))[t] == RowsFor(groups, channels, destinations, p, a, t)
    ensures s.jobs[id].status.Completed? <==> |ListedMembers(groups, a)| + |destinations| > 0
    ensures s.jobs[id].phase.Ended? ==> s.jobs[id].memberCount == |ListedMembers(groups, a)| + |destinations|
  {
    MemberTotalCounts(a, |groups|);
    var rows := multiset(RowTargets(PlanItems(s.jobs[id].plan)));
    PlannedTargets(groups, channels, destinations, p, a, t);
    assert rows[t] == RowsFor(groups, channels, destinations, p, a, t);
    FaultlessRows(cfg, s, id);
    FaultlessVerdict(cfg, s, id, MemberTotal(a, |groups|) + |destinations|);
  }

  /** On a steady directory without repeated usernames, that is one row per listed group, eligible
      member and channel. */
  lemma FanOutByCounting(cfg: Config, s: State, id: Id, groups: seq<string>, channels: seq<Channel>,
                         destinations: seq<Destination>, p: Providers, a: Answers,
                         directory: map<string, seq<Member>>, t: Target)
    requires Reachable(cfg, s) && id in s.jobs && Terminal(s.jobs[id].status) && s.jobs[id].faults == 0
    requires s.jobs[id].plan == PlanOf(groups, channels, destinations, p, a)
    requires SteadyDirectory(groups, a, directory)
    ensures multiset(Targets(s.jobs[id].rows))[t]
            == match t
               case ToMember(g, u, c) =>
                 if g in directory && SomeoneEligible(channels, p, directory[g], u, c) then multiset(groups)[g] else 0
               case ToDestination(target, c) =>
                 if Deliverable(p, c) then multiset(destinations)[Destination(c, target)] else 0
  {
    FanOutByListing(cfg, s, id, groups, channels, destinations, p, a, t);
    PlanCountsListings(groups, channels, destinations, p, a, t);
    PlanCounts(groups, channels, destinations, p, a, directory, t);
  }

  // ----- Slots -----

  /** The slot counter is the number of goroutines holding a slot, it never exceeds the configured
      bound (or 16 when the setting is not positive), and it is back to zero when all are gone. */
  lemma SlotSafety(cfg: Config, s: State)
    requires Reachable(cfg, s)
    ensures s.slots == Total(Holding, s.gos) <= Slots(cfg)
    ensures Slots(cfg) == if cfg.deliveryConcurrency <= 0 then 16 else cfg.deliveryConcurrency
    ensures (forall g :: 0 <= g < |s.gos| ==> s.gos[g].phase.Gone?) ==> s.slots == 0
  {
    ReachableInv(cfg, s);
    if forall g :: 0 <= g < |s.gos| ==> s.gos[g].phase.Gone? {
      TotalZero(Holding, s.gos);
    }
  }

  // ----- Notification lifecycle -----

  /** The status changes one step may make; skipping "processing" takes a failed statement. */
  predicate StatusStep(before: Job, after: Job) {
    || after.status == before.status
    || (before.status.Pending? && after.status.Processing?)
    || (before.status.Processing? && Terminal(after.status))
    || (before.status.Pending? && Terminal(after.status) && before.faults > 0)
  }

  /** Between two states of a run: the row is kept, its status only moves forward, and once the
      status is terminal neither it nor any delivery row of the job changes or is added. */
  predicate JobForward(before: Job, after: Job) {
    && after.plan == before.plan
    && (before.status.Processing? ==> !after.status.Pending?)
    && (Terminal(before.status) ==> after.status == before.status && after.rows == before.rows)
    && |before.rows| <= |after.rows|
  }

  lemma WorkerLifecycle(job: Job, a: WorkerAct, w: nat)
    requires JobOk(job) && JobEnabled(job, a)
    ensures StatusStep(job, JobNext(job, a, w)) && JobForward(job, JobNext(job, a, w))
  {
  }

  lemma GoLifecycle(g: nat, go: Go, job: Job, a: GoAct)
    requires JobOk(job) && job.phase.Walking?
    ensures StatusStep(job, JobAfterGo(g, go, job, a)) && JobForward(job, JobAfterGo(g, go, job, a))
  {
  }

  lemma WorkerStepLifecycle(cfg: Config, s: State, w: nat, a: WorkerAct, id: Id)
    requires JobsOk(s) && Enabled(cfg, s, WorkerStep(w, a)) && id in s.jobs
    ensures StatusStep(s.jobs[id], ApplyWorker(s, w, a).jobs[id]) && JobForward(s.jobs[id], ApplyWorker(s, w, a).jobs[id])
  {
    WorkerLifecycle(s.jobs[WorkId(s, w, a)], a, w);
  }

  lemma GoStepLifecycle(cfg: Config, s: State, g: nat, a: GoAct, id: Id)
    requires Inv(cfg, s) && Enabled(cfg, s, GoStep(g, a)) && id in s.jobs
    ensures StatusStep(s.jobs[id], ApplyGo(cfg, s, g, a).jobs[id]) && JobForward(s.jobs[id], ApplyGo(cfg, s, g, a).jobs[id])
  {
    UnfinishedMeansWalking(cfg, s, g);
    GoLifecycle(g, s.gos[g], s.jobs[s.gos[g].job], a);
  }

  lemma StepLifecycle(cfg: Config, s: State, a: Action, id: Id)
    requires Inv(cfg, s) && Enabled(cfg, s, a) && id in s.jobs
    ensures id in Apply(cfg, s, a).jobs
    ensures StatusStep(s.jobs[id], Apply(cfg, s, a).jobs[id]) && JobForward(s.jobs[id], Apply(cfg, s, a).jobs[id])
  {
    match a
    case WorkerStep(w, act) => WorkerStepLifecycle(cfg, s, w, act, id);
    case GoStep(g, act) => GoStepLifecycle(cfg, s, g, act, id);
    case _ =>
  }

  /** Over any run from a reachable state. */
  lemma {:induction false} RunLifecycle(cfg: Config, s: State, actions: seq<Action>, t: State, id: Id)
    requires Inv(cfg, s) && Run(cfg, s, actions, t) && id in s.jobs
    ensures id in t.jobs && JobForward(s.jobs[id], t.jobs[id])
    decreases |actions|
  {
    if actions != [] {
      StepLifecycle(cfg, s, actions[0], id);
      StepKeepsInv(cfg, s, actions[0]);
      RunLifecycle(cfg, Apply(cfg, s, actions[0]), actions[1..], t, id);
    }
  }

  /** Queue soundness: an id is sent at most once in a whole run, the ids on the queue name
      existing pending rows no worker holds, and two workers never hold the same job. */
  lemma QueueSound(cfg: Config, s: State)
    requires Reachable(cfg, s)
    ensures Distinct(s.sent) && s.taken <= |s.sent| && |s.sent[s.taken..]| <= cfg.queueCapacity
    ensures forall id :: id in s.sent[s.taken..] ==>
              id in s.jobs && s.jobs[id].status.Pending? && s.jobs[id].rows == []
              && forall w :: 0 <= w < |s.workers| ==> s.workers[w] != Busy(id)
    ensures forall v, w :: 0 <= v < w < |s.workers| && s.workers[v].Busy? ==> s.workers[v] != s.workers[w]
  {
    ReachableInv(cfg, s);
    forall id | id in s.sent[s.taken..]
      ensures id in s.jobs && s.jobs[id].status.Pending? && s.jobs[id].rows == []
              && forall w :: 0 <= w < |s.workers| ==> s.workers[w] != Busy(id)
    {
      assert s.jobs[id].phase.Queued? && JobOk(s.jobs[id]);
    }
  }

  /** A row that is not yet terminal and whose job is held has its verdict still to come: a job
      with an unfinished goroutine is never terminal, so no row is inserted after the verdict. */
  lemma NoRowAfterVerdict(cfg: Config, s: State, g: nat)
    requires Reachable(cfg, s) && g < |s.gos| && s.gos[g].job in s.jobs && Terminal(s.jobs[s.gos[g].job].status)
    ensures s.gos[g].phase.Gone?
  {
    ReachableInv(cfg, s);
    assert JobOk(s.jobs[s.gos[g].job]);
    if !s.gos[g].phase.Gone? {
      UnfinishedMeansWalking(cfg, s, g);
    }
  }

  // ----- The calls a goroutine made -----

  /** The provider's answer to goroutine g that one action is. */
  function CallBy(a: Action, g: nat): seq<Answer> {
    if a.GoStep? && a.g == g && a.act.Call? then [a.act.answer] else []
  }

  /** The provider's answers to goroutine g along a run. */
  function CallsOf(actions: seq<Action>, g: nat): seq<Answer> {
    if actions == [] then [] else CallBy(actions[0], g) + CallsOf(actions[1..], g)
  }

  function CallsSoFar(s: State, g: nat): seq<Answer> {
    if g < |s.gos| then s.gos[g].calls else []
  }

  lemma WorkerMakesNoCalls(cfg: Config, s: State, w: nat, a: WorkerAct, g: nat)
    requires Enabled(cfg, s, WorkerStep(w, a))
    ensures CallsSoFar(ApplyWorker(s, w, a), g) == CallsSoFar(s, g)
  {
  }

  lemma StepCalls(cfg: Config, s: State, a: Action, g: nat)
    requires Enabled(cfg, s, a)
    ensures CallsSoFar(Apply(cfg, s, a), g) == CallsSoFar(s, g) + CallBy(a, g)
  {
    match a
    case WorkerStep(w, act) => WorkerMakesNoCalls(cfg, s, w, act, g);
    case _ =>
  }

  lemma Regroup<T>(x: seq<T>, y: seq<T>, z: seq<T>)
    ensures (x + y) + z == x + (y + z)
  {
  }

  /** A goroutine's record of its calls is what the run shows. */
  lemma {:induction false} RunCalls(cfg: Config, s: State, actions: seq<Action>, t: State, g: nat)
    requires Run(cfg, s, actions, t)
    ensures CallsSoFar(t, g) == CallsSoFar(s, g) + CallsOf(actions, g)
    decreases |actions|
  {
    if actions != [] {
      var mid := Apply(cfg, s, actions[0]);
      StepCalls(cfg, s, actions[0], g);
      RunCalls(cfg, mid, actions[1..], t, g);
      Regroup(CallsSoFar(s, g), CallBy(actions[0], g), CallsOf(actions[1..], g));
    }
  }

  // ----- What the rows record -----

  /** What workers have yet to walk and what goroutines carry comes from the plan of their job. */
  ghost predicate Sourced(s: State) {
    && (forall id, item :: id in s.jobs && item in Todo(s.jobs[id]) ==> item in PlanItems(s.jobs[id].plan))
    && (forall g :: 0 <= g < |s.gos| ==> s.gos[g].job in s.jobs && Launch(s.gos[g].task) in PlanItems(s.jobs[s.gos[g].job].plan))
  }

  lemma WorkerKeepsSourced(cfg: Config, s: State, w: nat, a: WorkerAct)
    requires Sourced(s) && Enabled(cfg, s, WorkerStep(w, a))
    ensures Sourced(ApplyWorker(s, w, a))
  {
    var t := ApplyWorker(s, w, a);
    var id := WorkId(s, w, a);
    var job := s.jobs[id];
    assert t.jobs[id].plan == job.plan;
    assert forall item :: item in Todo(t.jobs[id]) ==> item in Todo(job);
    forall g | 0 <= g < |t.gos| ensures t.gos[g].job in t.jobs && Launch(t.gos[g].task) in PlanItems(t.jobs[t.gos[g].job].plan) {
      if g < |s.gos| {
        assert t.gos[g] == s.gos[g];
      } else {
        assert Launch(t.gos[g].task) == job.phase.todo[0] && job.phase.todo[0] in Todo(job);
      }
    }
  }

  lemma GoKeepsSourced(cfg: Config, s: State, g: nat, a: GoAct)
    requires Sourced(s) && Enabled(cfg, s, GoStep(g, a))
    ensures Sourced(ApplyGo(cfg, s, g, a))
  {
    var t := ApplyGo(cfg, s, g, a);
    assert forall id :: id in s.jobs ==> t.jobs[id].plan == s.jobs[id].plan && t.jobs[id].phase == s.jobs[id].phase;
    assert forall h :: 0 <= h < |s.gos| ==> t.gos[h].job == s.gos[h].job && t.gos[h].task == s.gos[h].task;
  }

  lemma StepKeepsSourced(cfg: Config, s: State, a: Action)
    requires Sourced(s) && Enabled(cfg, s, a)
    ensures Sourced(Apply(cfg, s, a))
  {
    match a
    case WorkerStep(w, act) => WorkerKeepsSourced(cfg, s, w, act);
    case GoStep(g, act) => GoKeepsSourced(cfg, s, g, act);
    case _ =>
  }

  /** The row was written by its worker for a withheld item of the plan, or by a goroutine of the
      job that is past writing and had made the calls the row reports. */
  ghost predicate Backed(cfg: Config, gos: seq<Go>, id: Id, plan: Plan, row: Row) {
    match row.writer
    case None => Withhold(row.target) in PlanItems(plan) && row.outcome == NOT_SUBSCRIBED
    case Some(g) =>
      && g < |gos| && gos[g].job == id && gos[g].task.target == row.target
      && !RowAhead(gos[g].phase) && OutcomeOk(cfg, gos[g], row.outcome)
  }

  /** A row's error note is written, or its goroutine is about to write it. */
  predicate Noted(gos: seq<Go>, i: nat, row: Row) {
    || row.note == row.outcome.error
    || (row.outcome.error.Some? && row.writer.Some? && row.writer.value < |gos|
        && gos[row.writer.value].phase == Noting(i, row.outcome.error.value))
  }

  ghost predicate RowOk(cfg: Config, s: State, id: Id, i: nat)
    requires id in s.jobs && i < |s.jobs[id].rows|
  {
    var job := s.jobs[id];
    && Backed(cfg, s.gos, id, job.plan, job.rows[i])
    && (job.faults == 0 ==> Noted(s.gos, i, job.rows[i]))
  }

  ghost predicate RowsOk(cfg: Config, s: State) {
    forall id, i :: id in s.jobs && 0 <= i < |s.jobs[id].rows| ==> RowOk(cfg, s, id, i)
  }

  /** No goroutine has written two rows. */
  predicate WritersDistinct(rows: seq<Row>) {
    forall i, j :: 0 <= i < j < |rows| && rows[i].writer.Some? ==> rows[i].writer != rows[j].writer
  }

  ghost predicate AllWritersDistinct(s: State) {
    forall id :: id in s.jobs ==> WritersDistinct(s.jobs[id].rows)
  }

  lemma WorkerKeepsRows(cfg: Config, s: State, w: nat, a: WorkerAct)
    requires RowsOk(cfg, s) && Sourced(s) && AllWritersDistinct(s) && Enabled(cfg, s, WorkerStep(w, a))
    ensures RowsOk(cfg, ApplyWorker(s, w, a)) && AllWritersDistinct(ApplyWorker(s, w, a))
  {
    var t := ApplyWorker(s, w, a);
    forall id, i | id in t.jobs && 0 <= i < |t.jobs[id].rows| ensures RowOk(cfg, t, id, i) {
      assert t.jobs[id].plan == s.jobs[id].plan;
      if i < |s.jobs[id].rows| {
        assert RowOk(cfg, s, id, i) && t.jobs[id].rows[i] == s.jobs[id].rows[i];
      } else {
        assert s.jobs[id].phase.todo[0] in Todo(s.jobs[id]);
      }
    }
    forall id | id in t.jobs ensures WritersDistinct(t.jobs[id].rows) {
      assert WritersDistinct(s.jobs[id].rows);
    }
  }

  /** A goroutine that has written its row makes no more calls, so it keeps backing the row. */
  lemma GoKeepsBacked(cfg: Config, s: State, g: nat, a: GoAct, id: Id, plan: Plan, row: Row)
    requires Enabled(cfg, s, GoStep(g, a)) && Backed(cfg, s.gos, id, plan, row)
    ensures Backed(cfg, ApplyGo(cfg, s, g, a).gos, id, plan, row)
  {
  }

  lemma GoKeepsRow(cfg: Config, s: State, g: nat, a: GoAct, id: Id, i: nat)
    requires RowsOk(cfg, s) && GosOk(cfg, s) && Enabled(cfg, s, GoStep(g, a))
    requires id in s.jobs && i < |ApplyGo(cfg, s, g, a).jobs[id].rows|
    ensures RowOk(cfg, ApplyGo(cfg, s, g, a), id, i)
  {
    var t := ApplyGo(cfg, s, g, a);
    var go := s.gos[g];
    assert GoOk(cfg, go, s.jobs[go.job]);
    if i < |s.jobs[id].rows| {
      assert RowOk(cfg, s, id, i);
      GoKeepsBacked(cfg, s, g, a, id, s.jobs[id].plan, s.jobs[id].rows[i]);
      assert Backed(cfg, t.gos, id, t.jobs[id].plan, t.jobs[id].rows[i]);
    }
  }

  lemma GoKeepsWriters(cfg: Config, s: State, g: nat, a: GoAct, id: Id)
    requires RowsOk(cfg, s) && id in s.jobs && WritersDistinct(s.jobs[id].rows) && Enabled(cfg, s, GoStep(g, a))
    ensures WritersDistinct(ApplyGo(cfg, s, g, a).jobs[id].rows)
  {
    var rows := ApplyGo(cfg, s, g, a).jobs[id].rows;
    forall i, j | 0 <= i < j < |rows| && rows[i].writer.Some? ensures rows[i].writer != rows[j].writer {
      assert RowOk(cfg, s, id, i);
    }
  }

  lemma GoKeepsRows(cfg: Config, s: State, g: nat, a: GoAct)
    requires RowsOk(cfg, s) && AllWritersDistinct(s) && GosOk(cfg, s) && Enabled(cfg, s, GoStep(g, a))
    ensures RowsOk(cfg, ApplyGo(cfg, s, g, a)) && AllWritersDistinct(ApplyGo(cfg, s, g, a))
  {
    var t := ApplyGo(cfg, s, g, a);
    forall id, i | id in t.jobs && 0 <= i < |t.jobs[id].rows| ensures RowOk(cfg, t, id, i) {
      GoKeepsRow(cfg, s, g, a, id, i);
    }
    forall id | id in t.jobs ensures WritersDistinct(t.jobs[id].rows) {
      GoKeepsWriters(cfg, s, g, a, id);
    }
  }

  lemma OtherKeepsRows(cfg: Config, s: State, a: Action)
    requires RowsOk(cfg, s) && AllWritersDistinct(s) && Enabled(cfg, s, a) && !a.WorkerStep? && !a.GoStep?
    ensures RowsOk(cfg, Apply(cfg, s, a)) && AllWritersDistinct(Apply(cfg, s, a))
  {
    var t := Apply(cfg, s, a);
    forall id, i | id in t.jobs && 0 <= i < |t.jobs[id].rows| ensures RowOk(cfg, t, id, i) {
      assert RowOk(cfg, s, id, i);
    }
    forall id | id in t.jobs ensures WritersDistinct(t.jobs[id].rows) {
      assert id in s.jobs ==> WritersDistinct(s.jobs[id].rows);
    }
  }

  lemma {:induction false} RunKeepsRows(cfg: Config, s: State, actions: seq<Action>, t: State)
    requires Inv(cfg, s) && RowsOk(cfg, s) && AllWritersDistinct(s) && Sourced(s) && Run(cfg, s, actions, t)
    ensures RowsOk(cfg, t) && AllWritersDistinct(t) && Sourced(t)
    decreases |actions|
  {
    if actions != [] {
      match actions[0] {
        case WorkerStep(w, act) => WorkerKeepsRows(cfg, s, w, act);
        case GoStep(g, act) => GoKeepsRows(cfg, s, g, act);
        case _ => OtherKeepsRows(cfg, s, actions[0]);
      }
      StepKeepsInv(cfg, s, actions[0]);
      StepKeepsSourced(cfg, s, actions[0]);
      RunKeepsRows(cfg, Apply(cfg, s, actions[0]), actions[1..], t);
    }
  }

  /** What a delivery records, against the provider calls made for it. */
  ghost predicate Tells(cfg: Config, kind: Kind, calls: seq<Answer>, o: Outcome) {
    match kind
    case Retrying => Finished(calls, Limit(cfg)) && o == OutcomeOf(calls) && o.attempt == |calls|
    case Mailing => calls == [] && MailOutcome(o)
    case Unregistered => calls == [] && o == NOT_SUBSCRIBED
    case NoProvider => false
  }

  /** The row tells what the run shows of its writer, which the plan of the job launched. */
  ghost predicate RowTells(cfg: Config, actions: seq<Action>, s: State, id: Id, row: Row)
    requires id in s.jobs
  {
    var items := PlanItems(s.jobs[id].plan);
    match row.writer
    case None => Withhold(row.target) in items && row.outcome == NOT_SUBSCRIBED
    case Some(g) =>
      && g < |s.gos| && s.gos[g].job == id && s.gos[g].task.target == row.target && Launch(s.gos[g].task) in items
      && Tells(cfg, s.gos[g].task.kind, CallsOf(actions, g), row.outcome)
  }

  lemma BackedTells(cfg: Config, start: State, actions: seq<Action>, s: State, id: Id, row: Row)
    requires start.gos == [] && Run(cfg, start, actions, s) && GosOk(cfg, s) && Sourced(s) && id in s.jobs
    requires Backed(cfg, s.gos, id, s.jobs[id].plan, row)
    ensures RowTells(cfg, actions, s, id, row)
  {
    if row.writer.Some? {
      RunCalls(cfg, start, actions, s, row.writer.value);
      assert s.gos[row.writer.value].calls == CallsOf(actions, row.writer.value);
      assert GoOk(cfg, s.gos[row.writer.value], s.jobs[id]);
    }
  }

  lemma SettledNote(cfg: Config, s: State, id: Id, i: nat)
    requires Inv(cfg, s) && id in s.jobs && i < |s.jobs[id].rows| && RowOk(cfg, s, id, i)
    requires Terminal(s.jobs[id].status) && s.jobs[id].faults == 0
    ensures s.jobs[id].rows[i].note == s.jobs[id].rows[i].outcome.error
  {
    assert JobOk(s.jobs[id]);
    var row := s.jobs[id].rows[i];
    if row.writer.Some? && !s.gos[row.writer.value].phase.Gone? {
      UnfinishedMeansWalking(cfg, s, row.writer.value);
    }
  }

  /** In every run, each row was written for a withheld item of its job's plan, or by one goroutine of
      the job that wrote no other; a retried row's status, message id, error and attempt count are
      those of the provider calls that goroutine made in the run, and it made no call after them; in a
      finished job without faults each failed row carries the error of its last call. */
  lemma RowsRecordTheirCalls(cfg: Config, start: State, actions: seq<Action>, s: State, id: Id, i: nat)
    requires Initial(start) && Run(cfg, start, actions, s) && id in s.jobs && i < |s.jobs[id].rows|
    ensures RowTells(cfg, actions, s, id, s.jobs[id].rows[i])
    ensures WritersDistinct(s.jobs[id].rows)
    ensures Terminal(s.jobs[id].status) && s.jobs[id].faults == 0 ==> s.jobs[id].rows[i].note == s.jobs[id].rows[i].outcome.error
  {
    RunKeepsInv(cfg, start, actions, s);
    RunKeepsRows(cfg, start, actions, s);
    assert RowOk(cfg, s, id, i);
    BackedTells(cfg, start, actions, s, id, s.jobs[id].rows[i]);
    if Terminal(s.jobs[id].status) && s.jobs[id].faults == 0 {
      SettledNote(cfg, s, id, i);
    }
  }

  // ----- From the request to the row -----

  /** What a delivery over channel c records, by whether the recipient may be texted. */
  ghost predicate Expected(cfg: Config, actions: seq<Action>, c: Channel, allowed: bool, row: Row) {
    if c.Email? then MailOutcome(row.outcome)
    else if c.Sms? && !allowed then row.outcome == NOT_SUBSCRIBED
    else row.writer.Some? && Tells(cfg, Retrying, CallsOf(actions, row.writer.value), row.outcome)
  }

  ghost predicate MemberRow(cfg: Config, actions: seq<Action>, groups: seq<string>, channels: seq<Channel>, p: Providers,
                            a: Answers, row: Row)
  {
    exists i: nat, j: nat :: MemberAt(groups, a, i, j)
      && RowOfMember(cfg, actions, groups[i], channels, p, a.list(i).value[j], a.subscribed(i, j), row)
  }

  ghost predicate RowOfMember(cfg: Config, actions: seq<Action>, group: string, channels: seq<Channel>, p: Providers,
                              m: Member, subscribed: bool, row: Row)
  {
    && row.target == ToMember(group, m.username, row.target.channel)
    && Eligible(channels, p, m, row.target.channel) && Expected(cfg, actions, row.target.channel, subscribed, row)
  }

  ghost predicate DestinationRow(cfg: Config, actions: seq<Action>, destinations: seq<Destination>, p: Providers,
                                 a: Answers, row: Row)
  {
    exists i: nat :: i < |destinations| && RowOfDestination(cfg, actions, p, destinations[i], a.registered(i), row)
  }

  ghost predicate RowOfDestination(cfg: Config, actions: seq<Action>, p: Providers, d: Destination, registered: bool, row: Row) {
    && row.target == ToDestination(d.target, d.channel) && Deliverable(p, d.channel)
    && Expected(cfg, actions, d.channel, registered, row)
  }

  /** The row one item of a plan may write. */
  ghost predicate Explains(cfg: Config, actions: seq<Action>, item: Item, row: Row) {
    match item
    case Withhold(t) => row.target == t && row.outcome == NOT_SUBSCRIBED
    case Launch(task) =>
      row.target == task.target && row.writer.Some? && Tells(cfg, task.kind, CallsOf(actions, row.writer.value), row.outcome)
  }

  /** End to end, whatever the queries answered, whatever failed, and at any time: each row is for a
      listed member's eligible channel or a listed deliverable destination; an SMS row is
      "not_subscribed" when that recipient was not subscribed (or registered) and otherwise, like a
      voice row, tells the provider calls made in the run; an e-mail row records one attempt. */
  lemma RowsFollowThePlan(cfg: Config, start: State, actions: seq<Action>, s: State, id: Id, i: nat, groups: seq<string>,
                          channels: seq<Channel>, destinations: seq<Destination>, p: Providers, a: Answers)
    requires Initial(start) && Run(cfg, start, actions, s) && id in s.jobs && i < |s.jobs[id].rows|
    requires s.jobs[id].plan == PlanOf(groups, channels, destinations, p, a)
    ensures || MemberRow(cfg, actions, groups, channels, p, a, s.jobs[id].rows[i])
            || DestinationRow(cfg, actions, destinations, p, a, s.jobs[id].rows[i])
  {
    RowsRecordTheirCalls(cfg, start, actions, s, id, i);
    var row := s.jobs[id].rows[i];
    var item := if row.writer.None? then Withhold(row.target) else Launch(s.gos[row.writer.value].task);
    assert item in PlanItems(s.jobs[id].plan) && Explains(cfg, actions, item, row);
    ItemsJustified(groups, channels, destinations, p, a, item);
    if MemberJustified(groups, channels, p, a, item) {
      var k: nat, j: nat :| MemberAt(groups, a, k, j) && MemberItem(groups[k], channels, p, a.list(k).value[j], a.subscribed(k, j), item);
      MemberRowFits(cfg, actions, groups[k], channels, p, a.list(k).value[j], a.subscribed(k, j), item, row);
    } else {
      var k: nat :| k < |destinations| && DestinationFits(p, destinations[k], a.registered(k), item);
      DestinationRowFits(cfg, actions, p, destinations[k], a.registered(k), item, row);
    }
  }

  lemma MemberRowFits(cfg: Config, actions: seq<Action>, group: string, channels: seq<Channel>, p: Providers, m: Member,
                      subscribed: bool, item: Item, row: Row)
    requires MemberItem(group, channels, p, m, subscribed, item) && Explains(cfg, actions, item, row)
    ensures RowOfMember(cfg, actions, group, channels, p, m, subscribed, row)
  {
  }

  lemma DestinationRowFits(cfg: Config, actions: seq<Action>, p: Providers, d: Destination, registered: bool, item: Item, row: Row)
    requires DestinationFits(p, d, registered, item) && Explains(cfg, actions, item, row)
    ensures RowOfDestination(cfg, actions, p, d, registered, row)
  {
  }

  // ----- The retry loop of Retry is the undisturbed run of one goroutine -----

  /** A retrying goroutine between calls. */
  predicate Retries(cfg: Config, s: State, g: nat) {
    && g < |s.gos| && s.gos[g].job in s.jobs && s.gos[g].task.kind.Retrying? && s.gos[g].phase.Working?
    && (s.gos[g].calls != [] ==> |s.gos[g].calls| < Limit(cfg))
  }

  lemma CallStep(cfg: Config, s: State, g: nat, answer: Answer)
    requires Retries(cfg, s, g) && |s.gos[g].calls| < cfg.retryLimit
    ensures Enabled(cfg, s, GoStep(g, Call(answer)))
    ensures var t, calls := Apply(cfg, s, GoStep(g, Call(answer))), s.gos[g].calls + [answer];
            && g < |t.gos| && t.gos[g].calls == calls && t.cancelled == s.cancelled
            && if answer.Sent? || |calls| >= cfg.retryLimit then t.gos[g].phase == Writing(OutcomeOf(calls)) else Retries(cfg, t, g)
  {
  }

  /** How a goroutine that makes no further call ends: giving up, or (with a limit of zero) writing. */
  lemma EndStep(cfg: Config, s: State, g: nat, act: GoAct)
    requires Retries(cfg, s, g)
    requires if act.Abandon? then s.cancelled && s.gos[g].calls != [] else act.Conclude? && |s.gos[g].calls| >= cfg.retryLimit
    ensures Enabled(cfg, s, GoStep(g, act))
    ensures var t := Apply(cfg, s, GoStep(g, act));
            && g < |t.gos| && t.gos[g].calls == s.gos[g].calls
            && t.gos[g].phase == if act.Abandon? then Releasing else Writing(OutcomeOf(s.gos[g].calls))
  {
  }

  lemma RunOne(cfg: Config, s: State, a: Action, rest: seq<Action>, t: State)
    requires Enabled(cfg, s, a) && Run(cfg, Apply(cfg, s, a), rest, t)
    ensures Run(cfg, s, [a] + rest, t)
  {
    assert ([a] + rest)[1..] == rest;
  }

  /** From a slot just taken (or after some failed calls), a retrying goroutine can take exactly the
      calls Retry.Deliver makes, and ends holding the row Deliver returns, or none where Deliver gives
      up because it was cancelled. */
  lemma {:induction false} StepsFollowDeliver(cfg: Config, s: State, g: nat, provider: nat -> Answer, cancel: nat -> bool)
    returns (actions: seq<Action>, t: State)
    requires Retries(cfg, s, g)
    requires Attempts(cfg.retryLimit, provider, cancel, s.gos[g].calls).1.None? ==> s.cancelled
    ensures Run(cfg, s, actions, t) && (forall a :: a in actions ==> a.GoStep? && a.g == g) && g < |t.gos|
    ensures var (calls, row) := Attempts(cfg.retryLimit, provider, cancel, s.gos[g].calls);
            t.gos[g].calls == calls && t.gos[g].phase == if row.Some? then Writing(row.value) else Releasing
    decreases Limit(cfg) - |s.gos[g].calls|
  {
    var n := |s.gos[g].calls|;
    var act := if n >= cfg.retryLimit then Conclude(NOT_SUBSCRIBED)
               else if n > 0 && cancel(n) then Abandon else Call(provider(n));
    if act.Call? {
      CallStep(cfg, s, g, act.answer);
    } else {
      EndStep(cfg, s, g, act);
    }
    t := Apply(cfg, s, GoStep(g, act));
    var rest := [];
    if t.gos[g].phase.Working? {
      rest, t := StepsFollowDeliver(cfg, t, g, provider, cancel);
    }
    actions := [GoStep(g, act)] + rest;
    RunOne(cfg, s, GoStep(g, act), rest, t);
  }
}
