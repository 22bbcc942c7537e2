/** `parallel_apply` cannot get stuck: whatever has happened so far, the workers can still be run to the end. */
module PowersProgress {
  import opened PowersWorkers

  function Total(f: seq<nat>): nat {
    if f == [] then 0 else f[0] + Total(f[1..])
  }

  lemma {:induction false} TotalUpdate(f: seq<nat>, i: nat, x: nat)
    requires i < |f|
    ensures Total(f[i := x]) + f[i] == Total(f) + x
  {
    if i > 0 {
      TotalUpdate(f[1..], i - 1, x);
      assert f[i := x][1..] == f[1..][i - 1 := x];
    } else {
      assert f[i := x][1..] == f[1..];
    }
  }

  lemma {:induction false} TotalZero(f: seq<nat>)
    ensures Total(f) == 0 <==> forall i :: 0 <= i < |f| ==> f[i] == 0
  {
    if f == [] {
    } else {
      TotalZero(f[1..]);
      assert forall i :: 1 <= i < |f| ==> f[i] == f[1..][i - 1];
    }
  }

  function Undone(states: seq<NodeState>): seq<nat> {
    seq(|states|, j requires 0 <= j < |states| => if states[j] == Computed then 0 else 1)
  }

  function Out<T>(workers: seq<Worker<T>>): seq<nat> {
    seq(|workers|, w requires 0 <= w < |workers| => if workers[w].pc.Returned? then 0 else 1)
  }

  /** Steps until a worker that holds a node lets it go. */
  function HoldRank<T>(pc: Pc<T>): nat {
    match pc
    case Look1 => 5 case Look2(_) => 4 case Work => 3 case Store(_) => 2 case Publish => 1 case Release => 1
    case _ => 0
  }

  /** The same for all workers but `w0`. */
  function Ranks<T>(workers: seq<Worker<T>>, w0: nat): seq<nat> {
    seq(|workers|, w requires 0 <= w < |workers| => if w == w0 then 0 else HoldRank(workers[w].pc))
  }

  /** The first node not computed yet, or the number of nodes. */
  function FirstUndone(states: seq<NodeState>): (j: nat)
    ensures j <= |states| && (j < |states| ==> states[j] != Computed)
    ensures forall i :: 0 <= i < j ==> states[i] == Computed
  {
    if states == [] || states[0] != Computed then 0
    else 1 + FirstUndone(states[1..])
  }

  /** The first worker that has not returned, or the number of workers. */
  function FirstOut<T>(workers: seq<Worker<T>>): (w: nat)
    ensures w <= |workers| && (w < |workers| ==> !workers[w].pc.Returned?)
    ensures forall v :: 0 <= v < w ==> workers[v].pc.Returned?
  {
    if workers == [] || !workers[0].pc.Returned? then 0
    else 1 + FirstOut(workers[1..])
  }

  /** How many nodes worker `worker` passes before it reaches node `j` with a chance to finish it. */
  function Distance<T>(worker: Worker<T>, j: nat, n: nat): nat
    requires worker.at < n && j < n
  {
    if worker.at == j && (worker.pc.Release? || (worker.pc.Look2? && !worker.pc.first)) then n
    else if worker.at <= j then j - worker.at
    else j + n - worker.at
  }

  function PcRank<T>(pc: Pc<T>, n: nat): nat {
    match pc
    case Scan(k) => if k <= n then n - k + 10 else 0
    case Claim => 9
    case Look1 => 8
    case Look2(_) => 7
    case Work => 6
    case Store(_) => 5
    case Publish => 4
    case Release => 3
    case _ => 0
  }

  /** How far a worker that runs alone is from the next node it will finish, or from returning. */
  ghost function Ahead<T>(job: Job<T>, s: System<T>, w: nat): (nat, nat)
    requires Shaped(job, s) && w < |s.workers|
  {
    var worker, n := s.workers[w], |s.states|;
    var j := FirstUndone(s.states);
    if j == n then
      (0, if worker.pc.Scan? then n - worker.pc.k else if worker.pc.Claim? then n + 1 else 0)
    else
      (Distance(worker, j, n), PcRank(worker.pc, n))
  }

  lemma NextAt(at: nat, n: nat)
    requires at < n
    ensures (at + 1) % n == if at + 1 == n then 0 else at + 1
  {
  }

  lemma ParentsOfFirst<T>(job: Job<T>, slots0: map<nat, T>, s: System<T>)
    requires Inv(job, slots0, s) && AllFound(job) && FirstUndone(s.states) < |s.states|
    ensures ParentsReady(job, s.states, NodeAt(job, FirstUndone(s.states)))
  {
    hide Value, NodeInv, WorkerInv;
    var j := FirstUndone(s.states);
    var node := NodeAt(job, j);
    if !node.IsSource() {
      forall p | p == node.p1 || p == node.p2
        ensures Ready(job, s.states, p)
      {
        var i :| 0 <= i < |job.targets| && job.targets[i] == p;
        assert i < j;
      }
    }
  }

  /** If nobody else holds a node, a claim fails only on a computed one. */
  lemma AloneClaims<T>(job: Job<T>, slots0: map<nat, T>, s: System<T>, w: nat)
    requires Inv(job, slots0, s) && AllFound(job) && w < |s.workers| && Total(Ranks(s.workers, w)) == 0
    ensures !Holds(s.workers[w].pc) ==> s.states[s.workers[w].at] != Computing
    ensures Holds(s.workers[w].pc) ==> s.states[s.workers[w].at] == Computing
  {
    hide Value;
    TotalZero(Ranks(s.workers, w));
    var j := s.workers[w].at;
    assert NodeInv(job, slots0, s, j) && WorkerInv(job, slots0, s, w);
    if s.states[j] == Computing {
      var v :| 0 <= v < |s.workers| && Holds(s.workers[v].pc) && s.workers[v].at == j;
      ThrowsOrReturns(job, slots0, s, v);
      assert v != w ==> Ranks(s.workers, w)[v] == HoldRank(s.workers[v].pc);
    }
  }

  lemma NextCloser<T>(worker: Worker<T>, j: nat, n: nat)
    requires worker.at < n && j < n && (worker.at != j || worker.pc.Release?)
    ensures Distance(Worker.Worker((worker.at + 1) % n, Pc<T>.Scan(0)), j, n) < Distance(worker, j, n)
  {
    NextAt(worker.at, n);
  }

  lemma {:induction false} SameFirst(a: seq<NodeState>, b: seq<NodeState>)
    requires |a| == |b| && forall i :: 0 <= i < |a| ==> (a[i] == Computed <==> b[i] == Computed)
    ensures FirstUndone(a) == FirstUndone(b)
  {
  }

  /** Getting ahead. */
  ghost predicate Nearer<T>(job: Job<T>, s: System<T>, s': System<T>, w: nat)
    requires Shaped(job, s) && Shaped(job, s') && w < |s.workers| && w < |s'.workers|
  {
    || Ahead(job, s', w).0 < Ahead(job, s, w).0
    || (Ahead(job, s', w).0 == Ahead(job, s, w).0 && Ahead(job, s', w).1 < Ahead(job, s, w).1)
  }

  lemma ScanAdvances<T>(job: Job<T>, slots0: map<nat, T>, s: System<T>, w: nat)
    requires Inv(job, slots0, s) && w < |s.workers| && s.workers[w].pc.Scan? && Shaped(job, Step(job, s, w))
    ensures var s' := Step(job, s, w);
      s'.workers[w].pc.Returned? || Nearer(job, s, s', w)
  {
    hide Value, NodeInv, Found;
    assert WorkerInv(job, slots0, s, w) && WorkerShaped(job, s.workers[w]);
  }

  lemma ClaimAdvances<T>(job: Job<T>, slots0: map<nat, T>, s: System<T>, w: nat)
    requires Inv(job, slots0, s) && AllFound(job) && w < |s.workers| && s.workers[w].pc.Claim?
    requires Shaped(job, Step(job, s, w))
    requires s.states[s.workers[w].at] != Computing
    ensures Nearer(job, s, Step(job, s, w), w)
  {
    hide Value, NodeInv, Found, WorkerInv, Apart;
    var worker, s', n, j := s.workers[w], Step(job, s, w), |s.states|, FirstUndone(s.states);
    assert WorkerShaped(job, worker);
    SameFirst(s.states, s'.states);
    if s.states[worker.at] == Computed && j < n {
      NextCloser(worker, j, n);
    }
  }

  lemma LookAdvances<T>(job: Job<T>, slots0: map<nat, T>, s: System<T>, w: nat)
    requires Inv(job, slots0, s) && AllFound(job) && w < |s.workers| && Shaped(job, Step(job, s, w))
    requires s.workers[w].pc.Look1? || s.workers[w].pc.Look2?
    ensures Nearer(job, s, Step(job, s, w), w)
  {
    hide Value, NodeInv, Found, Apart;
    var worker, s', n, j := s.workers[w], Step(job, s, w), |s.states|, FirstUndone(s.states);
    assert WorkerShaped(job, worker) && WorkerInv(job, slots0, s, w);
    if j < n {
      ParentsOfFirst(job, slots0, s);
    }
  }

  lemma WorkAdvances<T>(job: Job<T>, slots0: map<nat, T>, s: System<T>, w: nat)
    requires Inv(job, slots0, s) && w < |s.workers| && Shaped(job, Step(job, s, w))
    requires s.workers[w].pc.Work? || s.workers[w].pc.Store?
    ensures Nearer(job, s, Step(job, s, w), w)
  {
    hide Value, NodeInv, Found, Apart;
    assert WorkerShaped(job, s.workers[w]) && WorkerInv(job, slots0, s, w);
  }

  lemma ReleaseAdvances<T>(job: Job<T>, slots0: map<nat, T>, s: System<T>, w: nat)
    requires Inv(job, slots0, s) && w < |s.workers| && s.workers[w].pc.Release? && Shaped(job, Step(job, s, w))
    ensures Nearer(job, s, Step(job, s, w), w)
  {
    hide Value, NodeInv, Found, Apart;
    var worker, s', n, j := s.workers[w], Step(job, s, w), |s.states|, FirstUndone(s.states);
    assert WorkerShaped(job, worker) && WorkerInv(job, slots0, s, w);
    SameFirst(s.states, s'.states);
    NextCloser(worker, j, n);
  }

  lemma PublishComputes<T>(job: Job<T>, slots0: map<nat, T>, s: System<T>, w: nat)
    requires Inv(job, slots0, s) && w < |s.workers| && s.workers[w].pc.Publish?
    ensures s.workers[w].at < |s.states| && s.states[s.workers[w].at] == Computing
    ensures Step(job, s, w).states == s.states[s.workers[w].at := Computed]
  {
    hide Value, NodeInv;
    assert WorkerInv(job, slots0, s, w);
  }

  /** A worker running alone gets ahead with every step, computes a node, or returns. */
  lemma AloneAdvances<T>(job: Job<T>, slots0: map<nat, T>, s: System<T>, w: nat)
    requires Inv(job, slots0, s) && AllFound(job) && w < |s.workers| && !s.workers[w].pc.Returned?
    requires Total(Ranks(s.workers, w)) == 0 && Shaped(job, Step(job, s, w))
    ensures var s' := Step(job, s, w);
      s'.workers[w].pc.Returned? || s.workers[w].pc.Publish? || Nearer(job, s, s', w)
  {
    hide Inv, Step, Nearer, Ahead;
    InvShaped(job, slots0, s, []);
    ThrowsOrReturns(job, slots0, s, w);
    AloneClaims(job, slots0, s, w);
    match s.workers[w].pc {
      case Scan(k) => ScanAdvances(job, slots0, s, w);
      case Claim => ClaimAdvances(job, slots0, s, w);
      case Look1 => LookAdvances(job, slots0, s, w);
      case Look2(_) => LookAdvances(job, slots0, s, w);
      case Work => WorkAdvances(job, slots0, s, w);
      case Store(_) => WorkAdvances(job, slots0, s, w);
      case Release => ReleaseAdvances(job, slots0, s, w);
      case _ =>
    }
  }

  lemma StepPc<T>(job: Job<T>, s: System<T>, w: nat)
    requires Shaped(job, s) && w < |s.workers|
    ensures var s' := Step(job, s, w);
      && |s'.workers| == |s.workers| && s'.workers == s.workers[w := s'.workers[w]]
      && (HoldRank(s.workers[w].pc) > 0 ==>
        HoldRank(s'.workers[w].pc) < HoldRank(s.workers[w].pc) && !s'.workers[w].pc.Returned?)
      && (s.workers[w].pc.Returned? ==> s'.workers[w].pc.Returned?)
  {
    hide Found;
  }

  lemma UndoneGrows<T>(job: Job<T>, slots0: map<nat, T>, s: System<T>, w: nat)
    requires Inv(job, slots0, s) && w < |s.workers|
    ensures Total(Undone(Step(job, s, w).states)) <= Total(Undone(s.states))
    ensures s.workers[w].pc.Publish? ==> Total(Undone(Step(job, s, w).states)) < Total(Undone(s.states))
  {
    hide Step, Value, NodeInv, WorkerInv;
    StepTouches(job, slots0, s, w);
    var a, b, j := s.states, Step(job, s, w).states, s.workers[w].at;
    TotalUpdate(Undone(a), j, Undone(b)[j]);
    assert Undone(a)[j := Undone(b)[j]] == Undone(b);
    if s.workers[w].pc.Publish? {
      PublishComputes(job, slots0, s, w);
    }
  }

  lemma OutFalls<T>(workers: seq<Worker<T>>, w: nat, worker: Worker<T>)
    requires w < |workers| && (workers[w].pc.Returned? ==> worker.pc.Returned?)
    ensures Total(Out(workers[w := worker])) <= Total(Out(workers))
    ensures worker.pc.Returned? && !workers[w].pc.Returned? ==> Total(Out(workers[w := worker])) < Total(Out(workers))
  {
    TotalUpdate(Out(workers), w, Out(workers[w := worker])[w]);
    assert Out(workers)[w := Out(workers[w := worker])[w]] == Out(workers[w := worker]);
  }

  lemma RanksFall<T>(workers: seq<Worker<T>>, w0: nat, v: nat, worker: Worker<T>)
    requires w0 < |workers| && v < |workers|
    ensures v != w0 && HoldRank(worker.pc) < HoldRank(workers[v].pc) ==>
        Total(Ranks(workers[v := worker], w0)) < Total(Ranks(workers, w0))
    ensures v == w0 ==> Ranks(workers[v := worker], w0) == Ranks(workers, w0)
  {
    TotalUpdate(Ranks(workers, w0), v, Ranks(workers[v := worker], w0)[v]);
    assert Ranks(workers, w0)[v := Ranks(workers[v := worker], w0)[v]] == Ranks(workers[v := worker], w0);
  }

  lemma {:induction false} FirstOutKept<T>(workers: seq<Worker<T>>, v: nat, worker: Worker<T>)
    requires v < |workers| && !workers[v].pc.Returned? && !worker.pc.Returned?
    ensures FirstOut(workers[v := worker]) == FirstOut(workers)
  {
    if v > 0 && workers[0].pc.Returned? {
      FirstOutKept(workers[1..], v - 1, worker);
      assert workers[v := worker][1..] == workers[1..][v - 1 := worker];
    }
  }

  /** Which worker to move next so that the run comes to an end. */
  ghost function Pick<T>(workers: seq<Worker<T>>): (w: nat)
    requires FirstOut(workers) < |workers|
    ensures w < |workers| && !workers[w].pc.Returned?
    ensures w == FirstOut(workers) ==> Total(Ranks(workers, w)) == 0
    ensures w != FirstOut(workers) ==> HoldRank(workers[w].pc) > 0
  {
    var w0 := FirstOut(workers);
    TotalZero(Ranks(workers, w0));
    if exists v :: 0 <= v < |workers| && v != w0 && HoldRank(workers[v].pc) > 0 then
      var v :| 0 <= v < |workers| && v != w0 && HoldRank(workers[v].pc) > 0;
      v
    else w0
  }

  /** Liveness: from every reachable state of a usable plan some continuation lets every worker return. */
  lemma {:induction false} CanFinish<T>(job: Job<T>, slots0: map<nat, T>, s: System<T>) returns (schedule: seq<nat>)
    requires Inv(job, slots0, s) && AllFound(job)
    ensures forall w :: w in schedule ==> w < |s.workers|
    ensures var end := Run(job, slots0, s, schedule);
      |end.workers| == |s.workers| && forall w :: 0 <= w < |end.workers| ==> end.workers[w].pc.Returned?
    decreases Total(Out(s.workers)), Total(Undone(s.states)), Total(Ranks(s.workers, FirstOut(s.workers))),
      if Shaped(job, s) && FirstOut(s.workers) < |s.workers| then Ahead(job, s, FirstOut(s.workers)).0 else 0,
      if Shaped(job, s) && FirstOut(s.workers) < |s.workers| then Ahead(job, s, FirstOut(s.workers)).1 else 0
  {
    hide Inv, Step, Shaped, Ahead, Out, Undone, Ranks, AllFound;
    var w0 := FirstOut(s.workers);
    if w0 == |s.workers| {
      return [];
    }
    InvShaped(job, slots0, s, []);
    var w := Pick(s.workers);
    var s' := Step(job, s, w);
    StepKeeps(job, slots0, s, w);
    InvShaped(job, slots0, s', []);
    StepPc(job, s, w);
    UndoneGrows(job, slots0, s, w);
    OutFalls(s.workers, w, s'.workers[w]);
    RanksFall(s.workers, w0, w, s'.workers[w]);
    if w == w0 {
      AloneAdvances(job, slots0, s, w);
    }
    if !s'.workers[w].pc.Returned? {
      FirstOutKept(s.workers, w, s'.workers[w]);
    }
    var rest := CanFinish(job, slots0, s');
    schedule := [w] + rest;
    assert schedule[0] == w && schedule[1..] == rest;
  }
}
