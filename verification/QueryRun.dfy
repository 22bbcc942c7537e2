/** The whole path of a query: accepted parameters, plan, workers, forms, evaluation. */
module QueryRun {
  import opened Rings
  import opened Ciphertexts
  import opened PowersPlan
  import opened PowersWorkers
  import opened PowersValues
  import opened PowersDags
  import opened BundleResult
  import Parameters

  /** The slots after a run in which worker `w` has returned hold what evaluation needs, and nothing more is read. */
  ghost predicate After<T>(job: Job<T>, slots: map<nat, T>, workers: nat, schedule: seq<nat>, w: nat,
          values: map<nat, T>)
    requires Inv(job, slots, Start(job, slots, workers)) && forall v :: v in schedule ==> v < workers
  {
    hide Inv;
    Returned(Run(job, slots, Start(job, slots, workers), schedule), w, values)
  }

  ghost predicate Returned<T>(s: System<T>, w: nat, values: map<nat, T>) {
    w < |s.workers| && s.workers[w].pc.Returned? && values == s.slots
  }

  /** `ComputePowers`, from the slots that the workers leave to the vector that evaluation reads. */
  method ComputePowers<T(!new)>(r: Ring<T>, job: Job<T>, values: map<nat, T>, source: seq<nat>, low: nat,
          maxItems: nat, top: nat,
                                ghost x: T, ghost slots: map<nat, T>, ghost workers: nat, ghost schedule: seq<nat>,
                                  ghost w: nat)
      returns (powers: seq<Slot<T>>)
    requires Lawful(r) && job.mul == r.mul && low <= maxItems && QueryPowersAccepted(source, low, maxItems)
    requires Ascending(job.targets) && forall p: nat :: p in job.targets <==> Needed(low, maxItems, p)
    requires Planned(job.nodes, source, job.targets)
    requires (forall p :: p in job.targets ==> p in slots) && forall p :: p in source ==>
        p in slots && slots[p] == Power(r, x, p)
    requires forall v :: v in schedule ==> v < workers
    requires Inv(job, slots, Start(job, slots, workers)) && After(job, slots, workers, schedule, w, values)
    ensures Prepared(r, powers, low, maxItems, top, x)
  {
    hide *;
    ParametersServe(r, job, source, low, maxItems, slots, x);
    ReturnedPowers(r, job, values, x, slots, workers, schedule, w);
    TargetsFit(job.targets, low, maxItems);
    powers := TransformPowers(job.targets, values, maxItems + 1, low, top);
    PreparedFrom(r, powers, job.targets, values, low, maxItems, top, x);
  }

  /** Accepted parameters give a plan that can be carried out, on a query that holds the source powers. */
  lemma ParametersServe<T(!new)>(r: Ring<T>, job: Job<T>, source: seq<nat>, low: nat, maxItems: nat,
          slots: map<nat, T>, x: T)
    requires QueryPowersAccepted(source, low, maxItems)
    requires Ascending(job.targets) && forall p: nat :: p in job.targets <==> Needed(low, maxItems, p)
    requires Planned(job.nodes, source, job.targets)
    requires (forall p :: p in job.targets ==> p in slots) && forall p :: p in source ==>
        p in slots && slots[p] == Power(r, x, p)
    ensures Coherent(job) && AllFound(job) && Holding(r, job, slots, x)
  {
    hide Power, Planned, Acceptable, Decomposable, AllFound, Needed, QueryPowersAccepted, Coherent;
    ParametersPlan(source, low, maxItems, job.targets);
    ConfiguredJob(job, source, job.targets);
  }

  lemma ReturnedPowers<T(!new)>(r: Ring<T>, job: Job<T>, values: map<nat, T>, x: T,
                                slots: map<nat, T>, workers: nat, schedule: seq<nat>, w: nat)
    requires Lawful(r) && job.mul == r.mul && Coherent(job) && AllFound(job) && Holding(r, job, slots, x)
    requires forall v :: v in schedule ==> v < workers
    requires Inv(job, slots, Start(job, slots, workers)) && After(job, slots, workers, schedule, w, values)
    ensures forall p :: p in job.targets ==> p in values && values[p] == Power(r, x, p)
  {
    hide Lawful, Power, Inv, Run, Value, AllFound, Coherent, Holding;
    assert |Start(job, slots, workers).workers| == workers;
    RunKeeps(job, slots, Start(job, slots, workers), schedule);
    EveryScheduleGivesPowers(r, job, slots, x, workers, schedule, w);
  }

  lemma TargetsFit(targets: seq<nat>, low: nat, maxItems: nat)
    requires low <= maxItems && forall p: nat :: p in targets <==> Needed(low, maxItems, p)
    ensures forall p :: p in targets ==> p < maxItems + 1
  {
  }

  lemma PreparedFrom<T>(r: Ring<T>, powers: seq<Slot<T>>, targets: seq<nat>, values: map<nat, T>, low: nat,
          maxItems: nat, top: nat, x: T)
    requires forall p: nat :: p in targets <==> Needed(low, maxItems, p)
    requires |powers| == maxItems + 1 && forall p :: p in targets ==> p in values && values[p] == Power(r, x, p)
    requires forall p: nat :: p < maxItems + 1 ==>
        powers[p] == if p in targets then KeptPower(values[p], p, low, top) else Empty
    ensures Prepared(r, powers, low, maxItems, top, x)
  {
    hide Power, Needed, KeptPower;
  }

  /** Parameters that `initialize` accepts are parameters that the plan can serve. */
  lemma ValidParameters(g: Parameters.Given, source: seq<nat>)
    requires Parameters.Valid(g) && forall p :: p in source <==> p in g.queryPowers
    ensures QueryPowersAccepted(source, g.psLowDegree, g.maxItemsPerBin)
  {
    hide Parameters.SizesFit;
  }
}
