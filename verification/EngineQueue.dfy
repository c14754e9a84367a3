/** The job queue and the semaphore as their users see them: which jobs are queued and which are
    dropped, in which order they are taken, and who has to wait for a slot. */
module EngineQueue {
  import opened Common
  import opened FanOut
  import opened Engine
  import opened EngineProofs

  /** The ids on the queue, oldest first. */
  function Waiting(s: State): seq<Id> {
    if s.taken <= |s.sent| then s.sent[s.taken..] else []
  }

  /** Sending a fresh job: with room on the queue it is queued last, and with queueCapacity ids
      waiting it is dropped; nothing else changes. */
  lemma EnqueueExact(cfg: Config, s: State, id: Id)
    requires Reachable(cfg, s) && id in s.jobs && s.jobs[id].phase.Unsent?
    ensures Enabled(cfg, s, Enqueue(id)) && |Waiting(s)| <= cfg.queueCapacity
    ensures var t := Apply(cfg, s, Enqueue(id));
            if |Waiting(s)| < cfg.queueCapacity
            then t == s.(jobs := s.jobs[id := s.jobs[id].(phase := Queued)], sent := s.sent + [id])
                 && Waiting(t) == Waiting(s) + [id]
            else t == s.(jobs := s.jobs[id := s.jobs[id].(phase := Dropped)])
  {
    ReachableInv(cfg, s);
    assert s.taken <= |s.sent| ==> (s.sent + [id])[s.taken..] == s.sent[s.taken..] + [id];
  }

  // ----- Over whole runs -----

  /** The run sends this job at a moment when `full` says whether queueCapacity ids are waiting. */
  ghost predicate SentWhen(cfg: Config, s: State, actions: seq<Action>, id: Id, full: bool)
    decreases |actions|
  {
    && actions != [] && Enabled(cfg, s, actions[0])
    && (|| (actions[0] == Enqueue(id) && (full <==> |Waiting(s)| == cfg.queueCapacity))
        || SentWhen(cfg, Apply(cfg, s, actions[0]), actions[1..], id, full))
  }

  ghost predicate IsDropped(s: State, id: Id) {
    id in s.jobs && s.jobs[id].phase.Dropped?
  }

  lemma StepDrops(cfg: Config, s: State, a: Action, id: Id)
    requires Inv(cfg, s) && Enabled(cfg, s, a)
    ensures IsDropped(Apply(cfg, s, a), id)
       <==> IsDropped(s, id) || (a == Enqueue(id) && |Waiting(s)| == cfg.queueCapacity)
    ensures id in Apply(cfg, s, a).sent
       <==> id in s.sent || (a == Enqueue(id) && |Waiting(s)| != cfg.queueCapacity)
  {
    match a
    case WorkerStep(w, act) => WorkerDropsNone(cfg, s, w, act, id);
    case GoStep(g, act) => GoDropsNone(cfg, s, g, act, id);
    case _ =>
  }

  lemma WorkerDropsNone(cfg: Config, s: State, w: nat, a: WorkerAct, id: Id)
    requires Enabled(cfg, s, WorkerStep(w, a))
    ensures IsDropped(ApplyWorker(s, w, a), id) <==> IsDropped(s, id)
    ensures ApplyWorker(s, w, a).sent == s.sent
  {
  }

  lemma GoDropsNone(cfg: Config, s: State, g: nat, a: GoAct, id: Id)
    requires Enabled(cfg, s, GoStep(g, a))
    ensures IsDropped(ApplyGo(cfg, s, g, a), id) <==> IsDropped(s, id)
    ensures ApplyGo(cfg, s, g, a).sent == s.sent
  {
  }

  lemma {:induction false} RunDrops(cfg: Config, s: State, actions: seq<Action>, t: State, id: Id)
    requires Inv(cfg, s) && Run(cfg, s, actions, t)
    ensures IsDropped(t, id) <==> IsDropped(s, id) || SentWhen(cfg, s, actions, id, true)
    ensures id in t.sent <==> id in s.sent || SentWhen(cfg, s, actions, id, false)
    decreases |actions|
  {
    if actions != [] {
      StepDrops(cfg, s, actions[0], id);
      StepKeepsInv(cfg, s, actions[0]);
      RunDrops(cfg, Apply(cfg, s, actions[0]), actions[1..], t, id);
    }
  }

  /** In every run, a job is dropped if and only if its send met queueCapacity waiting ids, and it is
      queued (to be taken by a worker) if and only if its send met fewer. */
  lemma DroppedIffFull(cfg: Config, start: State, actions: seq<Action>, t: State, id: Id)
    requires Initial(start) && Run(cfg, start, actions, t)
    ensures IsDropped(t, id) <==> SentWhen(cfg, start, actions, id, true)
    ensures id in t.sent <==> SentWhen(cfg, start, actions, id, false)
  {
    RunDrops(cfg, start, actions, t, id);
  }

  // ----- First in, first out -----

  /** Jobs are taken in the order they were queued: of two queued ids the later one is not started
      before the earlier, and the next to be taken is the one that has waited longest. */
  lemma ServedInOrder(cfg: Config, s: State, i: nat, j: nat)
    requires Reachable(cfg, s) && i < j < |s.sent|
    ensures s.sent[i] in s.jobs && s.sent[j] in s.jobs
    ensures s.jobs[s.sent[i]].phase.Queued? ==> s.jobs[s.sent[j]].phase.Queued?
    ensures forall w :: Enabled(cfg, s, WorkerStep(w, Take)) && s.jobs[s.sent[i]].phase.Queued? ==> WorkId(s, w, Take) != s.sent[j]
  {
    ReachableInv(cfg, s);
  }

  /** A worker at rest can take a job exactly when one is waiting. */
  lemma IdleWorkerTakesIff(cfg: Config, s: State, w: nat)
    requires Reachable(cfg, s) && w < |s.workers| && s.workers[w].Idle?
    ensures Enabled(cfg, s, WorkerStep(w, Take)) <==> Waiting(s) != []
  {
    ReachableInv(cfg, s);
  }

  // ----- Who waits for a slot -----

  /** A goroutine waiting for the semaphore can enter exactly when fewer goroutines hold a slot than
      the setting allows, 16 when it is not positive. */
  lemma EntersIff(cfg: Config, s: State, g: nat)
    requires Reachable(cfg, s) && g < |s.gos| && s.gos[g].phase.AwaitSlot?
    ensures Enabled(cfg, s, GoStep(g, Acquire))
       <==> Total(Holding, s.gos) < if cfg.deliveryConcurrency <= 0 then 16 else cfg.deliveryConcurrency
  {
    ReachableInv(cfg, s);
  }

  /** A worker never waits while it launches: with items left it can walk on, however many slots are
      in use; with none left it waits exactly for its own goroutines. */
  lemma WorkerWaitsOnlyToJoin(cfg: Config, s: State, w: nat, ok: bool)
    requires Reachable(cfg, s) && w < |s.workers| && s.workers[w].Busy?
    ensures s.workers[w].id in s.jobs
    ensures var job := s.jobs[s.workers[w].id];
            && (job.phase.Walking? && job.phase.todo != [] ==> Enabled(cfg, s, WorkerStep(w, Walk(ok))))
            && (job.phase == Walking([]) ==>
                  (Enabled(cfg, s, WorkerStep(w, Join))
                   <==> forall g :: 0 <= g < |s.gos| && s.gos[g].job == s.workers[w].id ==> s.gos[g].phase.Gone?))
  {
    ReachableInv(cfg, s);
    NoneUnfinishedIff(s.gos, s.workers[w].id);
  }

  lemma NoneUnfinishedIff(gos: seq<Go>, id: Id)
    ensures Total(Unfinished(id), gos) == 0 <==> forall g :: 0 <= g < |gos| && gos[g].job == id ==> gos[g].phase.Gone?
  {
    if forall g :: 0 <= g < |gos| && gos[g].job == id ==> gos[g].phase.Gone? {
      TotalZero(Unfinished(id), gos);
    } else {
      var g :| 0 <= g < |gos| && gos[g].job == id && !gos[g].phase.Gone?;
      TotalPositive(Unfinished(id), gos, g);
    }
  }

  // ----- Jobs whose columns do not parse -----

  lemma NoTargetsNoRows(rows: seq<Row>)
    ensures (forall t :: multiset(Targets(rows))[t] == 0) ==> rows == []
  {
    if rows != [] {
      assert Targets(rows)[0] in multiset(Targets(rows));
    }
  }

  /** A notification whose columns do not parse writes no delivery row, launches no goroutine, and can
      only end as "failed". */
  lemma MalformedFails(cfg: Config, s: State, id: Id)
    requires Reachable(cfg, s) && id in s.jobs && s.jobs[id].plan.Malformed?
    ensures s.jobs[id].rows == [] && !s.jobs[id].status.Completed?
    ensures forall g :: 0 <= g < |s.gos| && s.gos[g].job == id ==> s.gos[g].phase.Gone?
    ensures s.jobs[id].phase.Ended? && s.jobs[id].faults == 0 ==> s.jobs[id].status.Failed?
  {
    ReachableInv(cfg, s);
    var job := s.jobs[id];
    assert JobOk(job);
    forall t ensures multiset(Targets(job.rows))[t] == 0 {
      assert Balanced(job, Total(Owed(id, t), s.gos), t);
    }
    NoTargetsNoRows(job.rows);
    forall g | 0 <= g < |s.gos| && s.gos[g].job == id ensures s.gos[g].phase.Gone? {
      if !s.gos[g].phase.Gone? {
        UnfinishedMeansWalking(cfg, s, g);
      }
    }
  }
}
