/** What a run of the plan computes: the powers of the query, under every schedule. */
module PowersValues {
  import opened PowersPlan
  import opened PowersWorkers
  import opened PowersProgress
  import opened PowersFairness
  import opened Rings

  /** The query holds the source powers of `x`. */
  ghost predicate Holding<T>(r: Ring<T>, job: Job<T>, slots: map<nat, T>, x: T) {
    && (forall p :: p in job.targets ==> p in slots && p in job.nodes)
    && forall p :: p in job.targets && job.nodes[p].IsSource() ==> slots[p] == Power(r, x, p)
  }

  /** A usable plan turns source powers into powers. */
  lemma {:induction false} ValueIsPower<T(!new)>(r: Ring<T>, job: Job<T>, slots: map<nat, T>, x: T, p: nat)
    requires Lawful(r) && Coherent(job) && AllFound(job) && job.mul == r.mul && p in job.targets
    requires Holding(r, job, slots, x)
    ensures Value(job, slots, p) == Power(r, x, p)
    decreases p
  {
    hide Lawful, Power;
    var node := job.nodes[p];
    if !node.IsSource() {
      var j :| 0 <= j < |job.targets| && job.targets[j] == p;
      assert Found(job, NodeAt(job, j));
      ValueIsPower(r, job, slots, x, node.p1);
      ValueIsPower(r, job, slots, x, node.p2);
      PowerAdd(r, x, node.p1, node.p2);
    }
  }

  /** The plan that `configure` accepts, as a job for the workers. */
  lemma ConfiguredJob<T>(job: Job<T>, source: seq<nat>, target: seq<nat>)
    requires Ascending(target) && Acceptable(source, target) && Planned(job.nodes, source, target)
    requires job.targets == target
    ensures Coherent(job)
    ensures forall p :: p in target ==> p in job.nodes && (job.nodes[p].IsSource() <==> p in source)
    ensures AllFound(job) <==> Decomposable(source, target)
  {
    hide Planned, Acceptable, Decomposable, Usable;
    forall p | p in target
      ensures p in job.nodes && job.nodes[p].power == p && (job.nodes[p].IsSource() <==> p in source)
      ensures p !in source ==> job.nodes[p].p1 + job.nodes[p].p2 == p && job.nodes[p].p1 > 0 && job.nodes[p].p2 > 0
    {
      PlannedMeans(job.nodes, source, target, p);
    }
    TargetsNonEmpty(source, target);
    UsableIff(job.nodes, source, target);
    FoundIsUsable(job, source, target);
  }

  lemma TargetsNonEmpty(source: seq<nat>, target: seq<nat>)
    requires Acceptable(source, target)
    ensures target != []
  {
  }

  lemma FoundIsUsable<T>(job: Job<T>, source: seq<nat>, target: seq<nat>)
    requires Coherent(job) && job.targets == target
    requires forall p :: p in target ==> (job.nodes[p].IsSource() <==> p in source)
    ensures AllFound(job) <==> Usable(job.nodes, source, target)
  {
    if AllFound(job) {
      forall p: nat | p in target && p !in source
        ensures p in job.nodes && job.nodes[p].p1 in target && job.nodes[p].p2 in target
      {
        var j :| 0 <= j < |target| && target[j] == p;
        assert Found(job, NodeAt(job, j));
      }
    }
    if Usable(job.nodes, source, target) {
      forall j | 0 <= j < |job.targets|
        ensures NodeAt(job, j).IsSource() || Found(job, NodeAt(job, j))
      {
        assert target[j] in target;
      }
    }
  }

  /** `apply`: the nodes one after the other, in ascending order. */
  method Apply<T>(job: Job<T>, slots0: map<nat, T>) returns (slots: map<nat, T>)
    requires Coherent(job) && AllFound(job) && forall p :: p in job.targets ==> p in slots0
    ensures slots.Keys == slots0.Keys
    ensures forall p :: p in job.targets ==> slots[p] == Value(job, slots0, p)
  {
    hide Value, AllFound;
    slots := slots0;
    for i := 0 to |job.targets|
      invariant slots.Keys == slots0.Keys
      invariant forall j :: 0 <= j < i ==> slots[job.targets[j]] == Value(job, slots0, job.targets[j])
      invariant forall j :: i <= j < |job.targets| ==> slots[job.targets[j]] == slots0[job.targets[j]]
    {
      var node := job.nodes[job.targets[i]];
      ValueStep(job, slots0, i);
      if node.p1 != 0 || node.p2 != 0 {
        slots := slots[node.power := job.mul(slots[node.p1], slots[node.p2])];
      }
    }
    forall p | p in job.targets
      ensures slots[p] == Value(job, slots0, p)
    {
      var j :| 0 <= j < |job.targets| && job.targets[j] == p;
    }
  }

  /** The parents of a node come earlier. */
  lemma ValueStep<T>(job: Job<T>, slots0: map<nat, T>, i: nat)
    requires Coherent(job) && AllFound(job) && i < |job.targets| && forall p :: p in job.targets ==> p in slots0
    ensures var node, p := job.nodes[job.targets[i]], job.targets[i];
      if node.IsSource() then Value(job, slots0, p) == slots0[p]
      else
        && (exists a :: 0 <= a < i && job.targets[a] == node.p1) &&
          (exists b :: 0 <= b < i && job.targets[b] == node.p2)
        && node.p1 in job.targets && node.p2 in job.targets
        && Value(job, slots0, p) == job.mul(Value(job, slots0, node.p1), Value(job, slots0, node.p2))
  {
    var node := NodeAt(job, i);
    if !node.IsSource() {
      assert Found(job, node);
      var a :| 0 <= a < |job.targets| && job.targets[a] == node.p1;
      var b :| 0 <= b < |job.targets| && job.targets[b] == node.p2;
      assert a < i && b < i;
    }
  }

  /**
   * The concurrent result is the sequential one. However many workers there are and in whatever
   * order they move, once one of them has returned every target power p of the query holds x^p.
   */
  lemma EveryScheduleGivesPowers<T(!new)>(r: Ring<T>, job: Job<T>, slots: map<nat, T>, x: T, workers: nat,
          schedule: seq<nat>, w: nat)
    requires Lawful(r) && Coherent(job) && AllFound(job) && job.mul == r.mul && Holding(r, job, slots, x)
    requires w < workers && forall v :: v in schedule ==> v < workers
    ensures Inv(job, slots, Start(job, slots, workers))
    ensures var end := Run(job, slots, Start(job, slots, workers), schedule);
      && |end.workers| == workers
      && (end.workers[w].pc.Returned? ==> forall p :: p in job.targets ==>
          p in end.slots && end.slots[p] == Value(job, slots, p) == Power(r, x, p))
  {
    hide Lawful, Value, AllFound, Power, Run, NodeInv, WorkerInv;
    StartInv(job, slots, workers);
    var s := Start(job, slots, workers);
    RunKeeps(job, slots, s, schedule);
    var end := Run(job, slots, s, schedule);
    RunOnce(job, slots, end, w);
    forall p | p in job.targets && end.workers[w].pc.Returned?
      ensures p in end.slots && end.slots[p] == Value(job, slots, p) == Power(r, x, p)
    {
      var j :| 0 <= j < |job.targets| && job.targets[j] == p;
      ValueIsPower(r, job, slots, x, p);
    }
  }

  /** Every fair schedule that is long enough ends, with all powers of the query in place. */
  lemma FairScheduleGivesPowers<T(!new)>(r: Ring<T>, job: Job<T>, slots: map<nat, T>, x: T, workers: nat,
                                         schedule: seq<nat>, m: nat)
    requires Lawful(r) && Coherent(job) && AllFound(job) && job.mul == r.mul && Holding(r, job, slots, x)
    requires workers > 0 && forall v :: v in schedule ==> v < workers
    requires Fair(schedule, m, workers) && |schedule| >= Enough(|job.targets|) * m
    ensures Inv(job, slots, Start(job, slots, workers)) && Ends(job, slots, workers, schedule)
    ensures var end := Run(job, slots, Start(job, slots, workers), schedule);
      forall p :: p in job.targets ==> p in end.slots && end.slots[p] == Power(r, x, p)
  {
    hide Lawful, Value, AllFound, Power, Run, Inv, Fair, Enough, Coherent;
    EveryScheduleGivesPowers(r, job, slots, x, workers, schedule, 0);
    FairEnds(job, slots, Start(job, slots, workers), schedule, m);
  }

  /** A configured plan can be run to the end exactly when every target that is not given is a sum of two targets. */
  lemma RunsToTheEndIff<T>(job: Job<T>, source: seq<nat>, target: seq<nat>, slots: map<nat, T>, workers: nat)
    requires Ascending(target) && Acceptable(source, target) && Planned(job.nodes, source, target)
    requires job.targets == target
    requires workers > 0 && forall p :: p in target ==> p in slots
    ensures Coherent(job) && Inv(job, slots, Start(job, slots, workers))
    ensures Decomposable(source, target) <==>
      exists schedule: seq<nat> :: (forall w :: w in schedule ==> w < workers) && Ends(job, slots, workers, schedule)
  {
    hide Planned, Acceptable, Decomposable, Inv, Run;
    ConfiguredJob(job, source, target);
    StartInv(job, slots, workers);
    if Decomposable(source, target) {
      var schedule := CanFinish(job, slots, Start(job, slots, workers));
      assert Ends(job, slots, workers, schedule);
    } else {
      forall schedule: seq<nat> | (forall w :: w in schedule ==> w < workers)
        ensures !Ends(job, slots, workers, schedule)
      {
        RunKeeps(job, slots, Start(job, slots, workers), schedule);
        ThrowsOrReturns(job, slots, Run(job, slots, Start(job, slots, workers), schedule), 0);
      }
    }
  }

  ghost predicate AllReturned<T>(s: System<T>) {
    forall w :: 0 <= w < |s.workers| ==> s.workers[w].pc.Returned?
  }

  /** The run under `schedule` lets every worker return. */
  ghost predicate Ends<T>(job: Job<T>, slots: map<nat, T>, workers: nat, schedule: seq<nat>)
    requires Inv(job, slots, Start(job, slots, workers)) && forall w :: w in schedule ==> w < workers
  {
    hide Inv;
    AllReturned(Run(job, slots, Start(job, slots, workers), schedule))
  }
}
