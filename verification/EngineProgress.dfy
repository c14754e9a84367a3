/** No reachable state of the dispatcher is stuck, and every job ends: a ranking function falls with
    every worker and goroutine action. */
module EngineProgress {
  import opened Common
  import opened Retry
  import opened FanOut
  import opened Engine
  import opened EngineProofs

  // ----- The ranking function -----

  /** Actions still needed by a job that has been queued, its future goroutines included. */
  function JobWork(limit: nat, job: Job): nat {
    match job.phase
    case Unsent => 0
    case Dropped => 0
    case Queued => ItemsWork(limit, PlanItems(job.plan)) + 6
    case Loading => ItemsWork(limit, PlanItems(job.plan)) + 5
    case Marking => ItemsWork(limit, PlanItems(job.plan)) + 4
    case Rejecting => 1
    case Walking(todo) => ItemsWork(limit, todo) + 3
    case Closing => 2
    case Tallying => 1
    case Ended => 0
  }

  function ItemsWork(limit: nat, items: seq<Item>): nat {
    if items == [] then 0 else limit + 8 + ItemsWork(limit, items[1..])
  }

  function JobWorks(limit: nat, s: State): (works: seq<nat>)
    ensures |works| == |s.sent|
  {
    seq(|s.sent|, i requires 0 <= i < |s.sent| => if s.sent[i] in s.jobs then JobWork(limit, s.jobs[s.sent[i]]) else 0)
  }

  function Running(workers: seq<Worker>): nat {
    if workers == [] then 0 else (if workers[0].Stopped? then 0 else 1) + Running(workers[1..])
  }

  lemma {:induction false} RunningUpdate(workers: seq<Worker>, w: nat, x: Worker)
    requires w < |workers|
    ensures Running(workers[w := x]) + (if workers[w].Stopped? then 0 else 1) == Running(workers) + (if x.Stopped? then 0 else 1)
  {
    if w == 0 {
      assert workers[w := x][1..] == workers[1..];
    } else {
      RunningUpdate(workers[1..], w - 1, x);
      assert workers[w := x][1..] == workers[1..][w - 1 := x];
    }
  }

  function SystemWork(cfg: Config, s: State): nat {
    Sum(JobWorks(Limit(cfg), s)) + Total(Steps(Limit(cfg)), s.gos) + Running(s.workers)
  }

  /** What a launched goroutine adds. */
  function SpawnWork(limit: nat, id: Id, job: Job, a: WorkerAct): nat
    requires JobEnabled(job, a)
  {
    if Spawned(id, job, a) == [] then 0 else Amount(Steps(limit), Spawned(id, job, a)[0])
  }

  lemma JobWorkFalls(limit: nat, id: Id, job: Job, a: WorkerAct, w: nat)
    requires JobEnabled(job, a)
    ensures JobWork(limit, JobNext(job, a, w)) + SpawnWork(limit, id, job, a) < JobWork(limit, job)
  {
  }

  lemma GoStepsFall(cfg: Config, go: Go, job: Job, a: GoAct, slots: nat, cancelled: bool)
    requires GoEnabled(cfg, go, slots, cancelled, a)
    ensures StepsLeft(Limit(cfg), GoNext(cfg, go, job, a)) < StepsLeft(Limit(cfg), go)
  {
  }

  lemma WorkerJobWorks(cfg: Config, s: State, w: nat, a: WorkerAct, k: nat)
    requires Inv(cfg, s) && Enabled(cfg, s, WorkerStep(w, a)) && k < |s.sent| && s.sent[k] == WorkId(s, w, a)
    ensures JobWorks(Limit(cfg), ApplyWorker(s, w, a))
            == JobWorks(Limit(cfg), s)[k := JobWork(Limit(cfg), ApplyWorker(s, w, a).jobs[s.sent[k]])]
  {
  }

  lemma SystemWorkFallsByWorker(cfg: Config, s: State, w: nat, a: WorkerAct)
    requires Inv(cfg, s) && Enabled(cfg, s, WorkerStep(w, a))
    ensures SystemWork(cfg, ApplyWorker(s, w, a)) < SystemWork(cfg, s)
  {
    var limit := Limit(cfg);
    var t := ApplyWorker(s, w, a);
    var id := WorkId(s, w, a);
    assert id in s.sent;
    var k: nat :| k < |s.sent| && s.sent[k] == id;
    WorkerJobWorks(cfg, s, w, a, k);
    SumUpdate(JobWorks(limit, s), k, JobWork(limit, t.jobs[id]));
    JobWorkFalls(limit, id, s.jobs[id], a, w);
    SpawnTotal(Steps(limit), id, s.jobs[id], a, s.gos);
    RunningUpdate(s.workers, w, t.workers[w]);
  }

  lemma GoLeavesJobWorks(cfg: Config, s: State, g: nat, a: GoAct)
    requires Enabled(cfg, s, GoStep(g, a))
    ensures JobWorks(Limit(cfg), ApplyGo(cfg, s, g, a)) == JobWorks(Limit(cfg), s)
  {
    var t := ApplyGo(cfg, s, g, a);
    forall i | 0 <= i < |s.sent| ensures JobWorks(Limit(cfg), t)[i] == JobWorks(Limit(cfg), s)[i] {
      if s.sent[i] in s.jobs {
        GoLeavesJobWork(cfg, s, g, a, s.sent[i]);
      }
    }
  }

  lemma SystemWorkFallsByGo(cfg: Config, s: State, g: nat, a: GoAct)
    requires Enabled(cfg, s, GoStep(g, a))
    ensures SystemWork(cfg, ApplyGo(cfg, s, g, a)) < SystemWork(cfg, s)
  {
    var limit := Limit(cfg);
    var t := ApplyGo(cfg, s, g, a);
    GoLeavesJobWorks(cfg, s, g, a);
    GoStepsFall(cfg, s.gos[g], s.jobs[s.gos[g].job], a, s.slots, s.cancelled);
    TotalUpdate(Steps(limit), s.gos, g, t.gos[g]);
  }

  /** The actions of the dispatcher itself, as opposed to its producers and the shutdown signal. */
  predicate Internal(a: Action) {
    a.WorkerStep? || a.GoStep? || a.Exit?
  }

  lemma SystemWorkFalls(cfg: Config, s: State, a: Action)
    requires Inv(cfg, s) && Enabled(cfg, s, a) && Internal(a)
    ensures SystemWork(cfg, Apply(cfg, s, a)) < SystemWork(cfg, s)
  {
    match a
    case WorkerStep(w, act) => SystemWorkFallsByWorker(cfg, s, w, act);
    case GoStep(g, act) => SystemWorkFallsByGo(cfg, s, g, act);
    case Exit(w) =>
      var t := Apply(cfg, s, a);
      assert JobWorks(Limit(cfg), t) == JobWorks(Limit(cfg), s);
      RunningUpdate(s.workers, w, Stopped);
  }

  /** No run of the dispatcher's own actions is longer than the ranking of its first state. */
  lemma {:induction false} InternalRunsEnd(cfg: Config, s: State, actions: seq<Action>, t: State)
    requires Inv(cfg, s) && Run(cfg, s, actions, t) && (forall a :: a in actions ==> Internal(a))
    ensures |actions| + SystemWork(cfg, t) <= SystemWork(cfg, s)
    decreases |actions|
  {
    if actions != [] {
      assert Internal(actions[0]);
      SystemWorkFalls(cfg, s, actions[0]);
      StepKeepsInv(cfg, s, actions[0]);
      InternalRunsEnd(cfg, Apply(cfg, s, actions[0]), actions[1..], t);
    }
  }

  /** So from any reachable state the dispatcher, left alone, runs only finitely many actions. */
  lemma DispatcherRunsEnd(cfg: Config, s: State, actions: seq<Action>, t: State)
    requires Reachable(cfg, s) && Run(cfg, s, actions, t) && (forall a :: a in actions ==> Internal(a))
    ensures |actions| <= SystemWork(cfg, s)
  {
    ReachableInv(cfg, s);
    InternalRunsEnd(cfg, s, actions, t);
  }

  // ----- No state is stuck -----

  /** Nothing left to do: no job is held, no goroutine is left, and the queue is empty unless no
      worker is free to serve it. */
  ghost predicate Settled(s: State) {
    && (forall id :: id in s.jobs ==> !Active(s.jobs[id].phase))
    && (forall g :: 0 <= g < |s.gos| ==> s.gos[g].phase.Gone?)
    && (s.taken == |s.sent| || forall w :: 0 <= w < |s.workers| ==> !s.workers[w].Idle?)
  }

  ghost predicate CanMove(cfg: Config, s: State) {
    exists a: Action :: (a.WorkerStep? || a.GoStep?) && Enabled(cfg, s, a)
  }

  /** A goroutine past the semaphore can always take its next action. */
  lemma HolderNext(cfg: Config, s: State, g: nat) returns (a: Action)
    requires Inv(cfg, s) && g < |s.gos| && (HoldsSlot(s.gos[g].phase) || s.gos[g].phase.Signalling?)
    ensures a.GoStep? && a.g == g && Enabled(cfg, s, a)
  {
    assert s.gos[g].job in s.jobs && GoOk(cfg, s.gos[g], s.jobs[s.gos[g].job]);
    match s.gos[g].phase
    case Working =>
      if s.gos[g].task.kind.Retrying? && Limit(cfg) > 0 {
        a := GoStep(g, Call(Sent("", "")));
      } else {
        a := GoStep(g, Conclude(Outcome("sent", 1, "", None)));
      }
    case Writing(_) => a := GoStep(g, Insert(true));
    case Noting(_, _) => a := GoStep(g, Note(true));
    case Releasing => a := GoStep(g, Release);
    case Signalling => a := GoStep(g, Signal);
  }

  lemma {:induction false} SomeHolder(gos: seq<Go>) returns (g: nat)
    requires Total(Holding, gos) > 0
    ensures g < |gos| && HoldsSlot(gos[g].phase)
  {
    if HoldsSlot(gos[0].phase) {
      g := 0;
    } else {
      g := SomeHolder(gos[1..]);
      g := g + 1;
    }
  }

  /** A goroutine waiting for a slot gets one, or a holder can move. */
  lemma GoroutineNext(cfg: Config, s: State, g: nat) returns (a: Action)
    requires Inv(cfg, s) && g < |s.gos| && !s.gos[g].phase.Gone?
    ensures a.GoStep? && Enabled(cfg, s, a) && (a.g == g || HoldsSlot(s.gos[a.g].phase))
  {
    assert s.gos[g].job in s.jobs;
    if !s.gos[g].phase.AwaitSlot? {
      a := HolderNext(cfg, s, g);
    } else if s.slots < Slots(cfg) {
      a := GoStep(g, Acquire);
    } else {
      var h := SomeHolder(s.gos);
      a := HolderNext(cfg, s, h);
    }
  }

  /** A worker holding a job can move unless it waits for goroutines. */
  lemma HeldNext(cfg: Config, s: State, id: Id) returns (a: Action)
    requires Inv(cfg, s) && id in s.jobs && Active(s.jobs[id].phase)
    requires Total(Unfinished(id), s.gos) == 0
    ensures a.WorkerStep? && Enabled(cfg, s, a) && Subject(s, a) == Some(id)
  {
    var job := s.jobs[id];
    var w := job.owner;
    assert s.workers[w] == Busy(id);
    var act := match job.phase
      case Loading => Load(true)
      case Marking => Begin(true)
      case Rejecting => Reject(true)
      case Walking(todo) => if todo == [] then Join else Walk(true)
      case Closing => Close(true)
      case _ => Tally(true);
    a := WorkerStep(w, act);
  }

  lemma UnsettledMoves(cfg: Config, s: State)
    requires Inv(cfg, s) && !Settled(s)
    ensures CanMove(cfg, s)
  {
    if g :| 0 <= g < |s.gos| && !s.gos[g].phase.Gone? {
      var a := GoroutineNext(cfg, s, g);
    } else if id :| id in s.jobs && Active(s.jobs[id].phase) {
      TotalZero(Unfinished(id), s.gos);
      var a := HeldNext(cfg, s, id);
    } else {
      var w :| 0 <= w < |s.workers| && s.workers[w].Idle?;
      assert s.sent[s.taken] in s.jobs && s.jobs[s.sent[s.taken]].phase.Queued?;
      assert Enabled(cfg, s, WorkerStep(w, Take));
    }
  }

  lemma SettledStays(cfg: Config, s: State, a: Action)
    requires Inv(cfg, s) && Settled(s) && (a.WorkerStep? || a.GoStep?)
    ensures !Enabled(cfg, s, a)
  {
    match a
    case WorkerStep(w, act) =>
    case GoStep(g, act) =>
  }

  /** While providers answer, a reachable state is stuck exactly when it is settled. */
  lemma StuckOnlyWhenSettled(cfg: Config, s: State)
    requires Reachable(cfg, s)
    ensures CanMove(cfg, s) <==> !Settled(s)
  {
    ReachableInv(cfg, s);
    if Settled(s) {
      forall a: Action | a.WorkerStep? || a.GoStep? ensures !Enabled(cfg, s, a) {
        SettledStays(cfg, s, a);
      }
    } else {
      UnsettledMoves(cfg, s);
    }
  }

  /** Each job ends: by InternalRunsEnd the dispatcher reaches a state in which it cannot move, and
      there, if some worker is still serving, every id ever queued has been processed to the end. */
  lemma EveryJobEnds(cfg: Config, s: State, id: Id)
    requires Reachable(cfg, s) && !CanMove(cfg, s) && id in s.sent
    requires exists w :: 0 <= w < |s.workers| && !s.workers[w].Stopped?
    ensures id in s.jobs && s.jobs[id].phase.Ended? && s.jobs[id].waiting == 0 && s.slots == 0
  {
    StuckOnlyWhenSettled(cfg, s);
    ReachableInv(cfg, s);
    TotalZero(Holding, s.gos);
    assert JobOk(s.jobs[id]);
    var w :| 0 <= w < |s.workers| && !s.workers[w].Stopped?;
    assert s.workers[w].Idle?;
    var i :| 0 <= i < |s.sent| && s.sent[i] == id;
    assert s.taken == |s.sent|;
  }

  // ----- One job while producers keep publishing -----

  /** Actions a queued job still needs, its goroutines included. */
  function OwnWork(cfg: Config, s: State, id: Id): nat
    requires id in s.jobs
  {
    JobWork(Limit(cfg), s.jobs[id]) + Total(OwnSteps(Limit(cfg), id), s.gos)
  }

  /** The job an action of the dispatcher works on, if any. */
  function Subject(s: State, a: Action): Option<Id> {
    match a
    case WorkerStep(w, act) => if HasWork(s, w, act) then Some(WorkId(s, w, act)) else None
    case GoStep(g, _) => if g < |s.gos| then Some(s.gos[g].job) else None
    case _ => None
  }

  predicate WasQueued(job: Job) {
    !job.phase.Unsent? && !job.phase.Dropped?
  }

  lemma OwnWorkByWorker(cfg: Config, s: State, w: nat, a: WorkerAct, id: Id)
    requires Enabled(cfg, s, WorkerStep(w, a)) && id in s.jobs
    ensures OwnWork(cfg, ApplyWorker(s, w, a), id) + (if WorkId(s, w, a) == id then 1 else 0) <= OwnWork(cfg, s, id)
  {
    var own := WorkId(s, w, a);
    SpawnTotal(OwnSteps(Limit(cfg), id), own, s.jobs[own], a, s.gos);
    JobWorkFalls(Limit(cfg), own, s.jobs[own], a, w);
  }

  lemma OwnStepsFall(cfg: Config, go: Go, job: Job, a: GoAct, slots: nat, cancelled: bool, id: Id)
    requires GoEnabled(cfg, go, slots, cancelled, a)
    ensures Amount(OwnSteps(Limit(cfg), id), GoNext(cfg, go, job, a)) + (if go.job == id then 1 else 0)
            <= Amount(OwnSteps(Limit(cfg), id), go)
  {
    GoStepsFall(cfg, go, job, a, slots, cancelled);
  }

  lemma GoLeavesJobWork(cfg: Config, s: State, g: nat, a: GoAct, id: Id)
    requires g < |s.gos| && s.gos[g].job in s.jobs && id in s.jobs
    ensures JobWork(Limit(cfg), ApplyGo(cfg, s, g, a).jobs[id]) == JobWork(Limit(cfg), s.jobs[id])
    ensures ApplyGo(cfg, s, g, a).jobs[id].phase == s.jobs[id].phase
  {
  }

  lemma OwnWorkByGo(cfg: Config, s: State, g: nat, a: GoAct, id: Id)
    requires Enabled(cfg, s, GoStep(g, a)) && id in s.jobs
    ensures OwnWork(cfg, ApplyGo(cfg, s, g, a), id) + (if s.gos[g].job == id then 1 else 0) <= OwnWork(cfg, s, id)
  {
    GoLeavesJobWork(cfg, s, g, a, id);
    OwnStepsFall(cfg, s.gos[g], s.jobs[s.gos[g].job], a, s.slots, s.cancelled, id);
    TotalUpdate(OwnSteps(Limit(cfg), id), s.gos, g, ApplyGo(cfg, s, g, a).gos[g]);
  }

  lemma OwnWorkByOthers(cfg: Config, s: State, a: Action, id: Id)
    requires Enabled(cfg, s, a) && !a.WorkerStep? && !a.GoStep? && id in s.jobs && WasQueued(s.jobs[id])
    ensures id in Apply(cfg, s, a).jobs && Apply(cfg, s, a).jobs[id] == s.jobs[id] && Apply(cfg, s, a).gos == s.gos
  {
  }

  lemma WorkerKeepsQueued(cfg: Config, s: State, w: nat, a: WorkerAct, id: Id)
    requires Enabled(cfg, s, WorkerStep(w, a)) && id in s.jobs && WasQueued(s.jobs[id])
    ensures WasQueued(ApplyWorker(s, w, a).jobs[id])
  {
  }

  /** No action of anyone raises a queued job's rank, and each action on the job lowers it. */
  lemma OwnWorkFalls(cfg: Config, s: State, a: Action, id: Id)
    requires Enabled(cfg, s, a) && id in s.jobs && WasQueued(s.jobs[id])
    ensures id in Apply(cfg, s, a).jobs && WasQueued(Apply(cfg, s, a).jobs[id])
    ensures OwnWork(cfg, Apply(cfg, s, a), id) + (if Subject(s, a) == Some(id) then 1 else 0) <= OwnWork(cfg, s, id)
  {
    match a
    case WorkerStep(w, act) =>
      OwnWorkByWorker(cfg, s, w, act, id);
      WorkerKeepsQueued(cfg, s, w, act, id);
    case GoStep(g, act) =>
      OwnWorkByGo(cfg, s, g, act, id);
      GoLeavesJobWork(cfg, s, g, act, id);
    case _ => OwnWorkByOthers(cfg, s, a, id);
  }

  /** The actions of a run that work on one job. */
  function StepsOn(cfg: Config, s: State, actions: seq<Action>, id: Id): nat
    decreases |actions|
  {
    if actions == [] || !Enabled(cfg, s, actions[0]) then 0
    else (if Subject(s, actions[0]) == Some(id) then 1 else 0) + StepsOn(cfg, Apply(cfg, s, actions[0]), actions[1..], id)
  }

  /** A queued job takes no more actions than its rank, whatever is published or runs meanwhile. */
  lemma {:induction false} JobTakesBoundedSteps(cfg: Config, s: State, actions: seq<Action>, t: State, id: Id)
    requires Run(cfg, s, actions, t) && id in s.jobs && WasQueued(s.jobs[id])
    ensures id in t.jobs && StepsOn(cfg, s, actions, id) + OwnWork(cfg, t, id) <= OwnWork(cfg, s, id)
    decreases |actions|
  {
    if actions != [] {
      OwnWorkFalls(cfg, s, actions[0], id);
      JobTakesBoundedSteps(cfg, Apply(cfg, s, actions[0]), actions[1..], t, id);
    }
  }

  /** A job a worker holds is never stuck: an action on it, or on a goroutine holding the slot its
      own goroutines wait for, is enabled. */
  lemma HeldJobHasNextStep(cfg: Config, s: State, id: Id)
    requires Reachable(cfg, s) && id in s.jobs && Active(s.jobs[id].phase)
    ensures exists a: Action :: (a.WorkerStep? || a.GoStep?) && Enabled(cfg, s, a)
              && (Subject(s, a) == Some(id) || (a.GoStep? && HoldsSlot(s.gos[a.g].phase)))
  {
    ReachableInv(cfg, s);
    if g :| 0 <= g < |s.gos| && s.gos[g].job == id && !s.gos[g].phase.Gone? {
      var a := GoroutineNext(cfg, s, g);
    } else {
      TotalZero(Unfinished(id), s.gos);
      var a := HeldNext(cfg, s, id);
    }
  }
}
