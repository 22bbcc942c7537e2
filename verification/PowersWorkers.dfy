/**
 * `parallel_apply`: any number of workers carry out a plan without locks. A node is claimed by
 * compare-and-swap, given back when its parents are not ready, and published once its function has
 * run. Every shared read, compare-and-swap and store below is one step of one worker.
 */
module PowersWorkers {
  import opened PowersPlan

  datatype NodeState = Uncomputed | Computing | Computed

  /**
   * Where a worker stands. `Scan(k)`: the first k nodes were seen computed. `Look2(first)`: whether
   * the first parent was.
   */
  datatype Pc<T> =
    | Scan(k: nat) | Claim | Look1 | Look2(first: bool) | Work | Store(prod: T) | Publish | Release
    | Returned | Threw

  datatype Worker<T> = Worker(at: nat, pc: Pc<T>)

  /** `slots` holds the ciphertext of each power, `runs` counts the calls of the node function. */
  datatype System<T> = System(states: seq<NodeState>, slots: map<nat, T>, runs: seq<nat>, workers: seq<Worker<T>>)

  /** The plan, and the operation that makes a node from its parents. */
  datatype Job<!T> = Job(nodes: map<nat, PowersNode>, targets: seq<nat>, mul: (T, T) -> T)

  ghost predicate Coherent<T>(job: Job<T>) {
    && job.targets != [] && Ascending(job.targets)
    && forall p :: p in job.targets ==>
        && p in job.nodes && job.nodes[p].power == p
        && (!job.nodes[p].IsSource() ==>
          job.nodes[p].p1 + job.nodes[p].p2 == p && job.nodes[p].p1 > 0 && job.nodes[p].p2 > 0)
  }

  function NodeAt<T>(job: Job<T>, j: nat): PowersNode
    requires j < |job.targets| && job.targets[j] in job.nodes
  {
    job.nodes[job.targets[j]]
  }

  /** Both parents are among the targets. */
  predicate Found<T>(job: Job<T>, node: PowersNode) {
    node.p1 in job.targets && node.p2 in job.targets
  }

  /** Has this power been seen computed? */
  predicate Ready<T>(job: Job<T>, states: seq<NodeState>, p: nat)
    requires |states| == |job.targets|
  {
    exists j :: 0 <= j < |states| && job.targets[j] == p && states[j] == Computed
  }

  predicate Holds<T>(pc: Pc<T>) {
    pc.Look1? || pc.Look2? || pc.Work? || pc.Store? || pc.Publish? || pc.Release? || pc.Threw?
  }

  ghost predicate Shaped<T>(job: Job<T>, s: System<T>) {
    && Coherent(job) && |s.states| == |s.runs| == |job.targets|
    && (forall p :: p in job.targets ==> p in s.slots)
    && forall w :: 0 <= w < |s.workers| ==> WorkerShaped(job, s.workers[w])
  }

  ghost predicate WorkerShaped<T>(job: Job<T>, worker: Worker<T>)
    requires Coherent(job)
  {
    && worker.at < |job.targets|
    && (worker.pc.Scan? ==> worker.pc.k <= |job.targets|)
    && var node := NodeAt(job, worker.at);
       && (Holds(worker.pc) && !worker.pc.Threw? ==> node.IsSource() || Found(job, node))
       && (worker.pc.Threw? ==> !node.IsSource() && !Found(job, node))
       && (worker.pc.Look1? || worker.pc.Look2? || worker.pc.Release? || worker.pc.Store? ==> !node.IsSource())
  }

  function Next<T>(job: Job<T>, worker: Worker<T>): Worker<T>
    requires job.targets != []
  {
    Worker((worker.at + 1) % |job.targets|, Scan(0))
  }

  /** One step of worker `w`. */
  ghost function Step<T>(job: Job<T>, s: System<T>, w: nat): System<T>
    requires Shaped(job, s) && w < |s.workers|
  {
    var worker := s.workers[w];
    var j := worker.at;
    var node := NodeAt(job, j);
    match worker.pc
    case Scan(k) =>
      Move(s, w, worker.(pc := if k == |s.states| then Returned else if s.states[k] == Computed then Scan(k + 1)
        else Claim))
    case Claim =>
      if s.states[j] == Uncomputed then
        Move(s, w, worker.(pc := if node.IsSource() then Work else if Found(job, node) then Look1 else Threw))
          .(states := s.states[j := Computing])
      else
        Move(s, w, Next(job, worker))
    case Look1 =>
      Move(s, w, worker.(pc := Look2(Ready(job, s.states, node.p1))))
    case Look2(first) =>
      Move(s, w, worker.(pc := if first && Ready(job, s.states, node.p2) then Work else Release))
    case Work =>
      Move(s, w, worker.(pc := if node.IsSource() then Publish else Store(job.mul(s.slots[node.p1], s.slots[node.p2]))))
        .(runs := s.runs[j := s.runs[j] + 1])
    case Store(prod) =>
      Move(s, w, worker.(pc := Publish)).(slots := s.slots[node.power := prod])
    case Publish =>
      Move(s, w, Next(job, worker)).(states := if s.states[j] == Computing then s.states[j := Computed] else s.states)
    case Release =>
      Move(s, w, Next(job, worker)).(states := if s.states[j] == Computing then s.states[j := Uncomputed] else s.states)
    case Returned => s
    case Threw => s
  }

  function Move<T>(s: System<T>, w: nat, worker: Worker<T>): System<T>
    requires w < |s.workers|
  {
    s.(workers := s.workers[w := worker])
  }

  /** What the power `p` should come out as, given the source slots. */
  ghost function Value<T>(job: Job<T>, slots: map<nat, T>, p: nat): T
    requires Coherent(job) && p in job.targets && forall q :: q in job.targets ==> q in slots
    decreases p
  {
    var node := job.nodes[p];
    if node.IsSource() || !Found(job, node) then slots[p]
    else job.mul(Value(job, slots, node.p1), Value(job, slots, node.p2))
  }

  /** Node `j` as everyone sees it. */
  ghost predicate NodeInv<T>(job: Job<T>, slots0: map<nat, T>, s: System<T>, j: nat)
    requires Shaped(job, s) && j < |s.states| && forall q :: q in job.targets ==> q in slots0
  {
    var node, p := NodeAt(job, j), job.targets[j];
    && (s.states[j] == Uncomputed ==> s.runs[j] == 0)
    && (s.states[j] == Computing ==> exists w :: 0 <= w < |s.workers| && Holds(s.workers[w].pc) && s.workers[w].at == j)
    && (s.states[j] == Computed ==>
      s.runs[j] == 1 && s.slots[p] == Value(job, slots0, p) && ParentsReady(job, s.states, node))
    && (node.IsSource() ==> s.slots[p] == slots0[p])
  }

  ghost predicate ParentsReady<T>(job: Job<T>, states: seq<NodeState>, node: PowersNode)
    requires |states| == |job.targets|
  {
    node.IsSource() || (Ready(job, states, node.p1) && Ready(job, states, node.p2))
  }

  /** Worker `w` as it sees itself. */
  ghost predicate WorkerInv<T>(job: Job<T>, slots0: map<nat, T>, s: System<T>, w: nat)
    requires Shaped(job, s) && w < |s.workers| && forall q :: q in job.targets ==> q in slots0
  {
    var worker := s.workers[w];
    var j := worker.at;
    var node, p := NodeAt(job, j), job.targets[j];
    && (Holds(worker.pc) ==>
      s.states[j] == Computing && s.runs[j] == if worker.pc.Store? || worker.pc.Publish? then 1 else 0)
    && (worker.pc.Scan? ==> forall i :: 0 <= i < worker.pc.k ==> s.states[i] == Computed)
    && (worker.pc.Returned? ==> forall i :: 0 <= i < |s.states| ==> s.states[i] == Computed)
    && (worker.pc.Look2? && worker.pc.first ==> Ready(job, s.states, node.p1))
    && (worker.pc.Work? || worker.pc.Store? || worker.pc.Publish? ==> ParentsReady(job, s.states, node))
    && (worker.pc.Store? ==> worker.pc.prod == Value(job, slots0, p))
    && (worker.pc.Publish? ==> s.slots[p] == Value(job, slots0, p))
  }

  ghost predicate Apart<T>(s: System<T>) {
    forall v, w :: 0 <= v < w < |s.workers| && Holds(s.workers[v].pc) && Holds(s.workers[w].pc) ==>
      s.workers[v].at != s.workers[w].at
  }

  ghost predicate Inv<T>(job: Job<T>, slots0: map<nat, T>, s: System<T>) {
    && Shaped(job, s) && (forall q :: q in job.targets ==> q in slots0)
    && (forall j :: 0 <= j < |s.states| ==> NodeInv(job, slots0, s, j))
    && (forall w :: 0 <= w < |s.workers| ==> WorkerInv(job, slots0, s, w))
    && Apart(s)
  }

  /** The system when the workers are started. */
  function Start<T>(job: Job<T>, slots: map<nat, T>, workers: nat): System<T> {
    System(seq(|job.targets|, _ => Uncomputed), slots, seq(|job.targets|, _ => 0),
      seq(workers, _ => Worker(0, Scan(0))))
  }

  lemma StartInv<T>(job: Job<T>, slots: map<nat, T>, workers: nat)
    requires Coherent(job) && forall q :: q in job.targets ==> q in slots
    ensures Inv(job, slots, Start(job, slots, workers))
  {
    hide Value;
  }

  /** A step never undoes a computed node. */
  ghost predicate Grows(a: seq<NodeState>, b: seq<NodeState>) {
    |a| == |b| && forall j :: 0 <= j < |a| && a[j] == Computed ==> b[j] == Computed
  }

  /** A step of worker w touches at most the node it stands at, which no other worker holds. */
  ghost predicate OnlyAt<T>(job: Job<T>, s: System<T>, s': System<T>, w: nat)
    requires Coherent(job) && w < |s.workers| && s.workers[w].at < |job.targets|
  {
    var j := s.workers[w].at;
    && |s.states| == |s'.states| && |s.runs| == |s'.runs| && |s.workers| == |s'.workers|
    && (forall i :: 0 <= i < |s.states| && i != j ==> s'.states[i] == s.states[i])
    && (forall i :: 0 <= i < |s.runs| && i != j ==> s'.runs[i] == s.runs[i])
    && (forall p :: p in job.targets && p != job.targets[j] ==>
      p in s.slots && p in s'.slots && s'.slots[p] == s.slots[p])
    && (forall v :: 0 <= v < |s.workers| && v != w ==> s'.workers[v] == s.workers[v])
  }

  lemma ReadyGrows<T>(job: Job<T>, a: seq<NodeState>, b: seq<NodeState>, p: nat)
    requires |a| == |job.targets| && Grows(a, b) && Ready(job, a, p)
    ensures Ready(job, b, p)
  {
  }

  lemma OtherWorkerKept<T>(job: Job<T>, slots0: map<nat, T>, s: System<T>, s': System<T>, w: nat, v: nat)
    requires Inv(job, slots0, s) && Shaped(job, s') && w < |s.workers| && v < |s.workers| && v != w
    requires OnlyAt(job, s, s', w) && Grows(s.states, s'.states)
    requires Holds(s.workers[w].pc) || s.states[s.workers[w].at] != Computing || s'.states == s.states
    requires !Holds(s.workers[w].pc) ==> s'.runs == s.runs && s'.slots == s.slots
    ensures WorkerInv(job, slots0, s', v)
    ensures Holds(s.workers[v].pc) ==>
        s.workers[v].at != s.workers[w].at || (s'.states == s.states && !Holds(s.workers[w].pc))
  {
    hide Value;
    var worker := s.workers[v];
    var node := NodeAt(job, worker.at);
    assert WorkerInv(job, slots0, s, v);
    if worker.pc.Look2? && worker.pc.first {
      ReadyGrows(job, s.states, s'.states, node.p1);
    }
    if (worker.pc.Work? || worker.pc.Store? || worker.pc.Publish?) && !node.IsSource() {
      ReadyGrows(job, s.states, s'.states, node.p1);
      ReadyGrows(job, s.states, s'.states, node.p2);
    }
  }

  /** What the step of a worker may change, and what it never does. */
  lemma StepTouches<T>(job: Job<T>, slots0: map<nat, T>, s: System<T>, w: nat)
    requires Inv(job, slots0, s) && w < |s.workers|
    ensures var s' := Step(job, s, w);
      && Shaped(job, s') && OnlyAt(job, s, s', w) && Grows(s.states, s'.states)
      && (Holds(s.workers[w].pc) || s.states[s.workers[w].at] != Computing || s'.states == s.states)
      && (!Holds(s.workers[w].pc) ==> s'.runs == s.runs && s'.slots == s.slots)
  {
    hide Value, NodeInv, Found;
    assert WorkerInv(job, slots0, s, w);
  }

  lemma MovedWorker<T>(job: Job<T>, slots0: map<nat, T>, s: System<T>, w: nat)
    requires Inv(job, slots0, s) && w < |s.workers| && Shaped(job, Step(job, s, w))
    requires Grows(s.states, Step(job, s, w).states)
    ensures WorkerInv(job, slots0, Step(job, s, w), w)
  {
    hide Apart, Found;
    var s', worker := Step(job, s, w), s.workers[w];
    var j := worker.at;
    assert WorkerInv(job, slots0, s, w) && NodeInv(job, slots0, s, j);
    match worker.pc {
      case Work =>
        if !NodeAt(job, j).IsSource() {
          ParentValue(job, slots0, s, NodeAt(job, j).p1);
          ParentValue(job, slots0, s, NodeAt(job, j).p2);
        }
      case _ =>
    }
  }

  /** A computed power holds its value. */
  lemma ParentValue<T>(job: Job<T>, slots0: map<nat, T>, s: System<T>, p: nat)
    requires Inv(job, slots0, s) && Ready(job, s.states, p)
    ensures p in job.targets && s.slots[p] == Value(job, slots0, p)
  {
    hide Value;
    var j :| 0 <= j < |s.states| && job.targets[j] == p && s.states[j] == Computed;
    assert NodeInv(job, slots0, s, j);
  }

  lemma ParentsGrow<T>(job: Job<T>, a: seq<NodeState>, b: seq<NodeState>, node: PowersNode)
    requires |a| == |job.targets| && Grows(a, b) && ParentsReady(job, a, node)
    ensures ParentsReady(job, b, node)
  {
    if !node.IsSource() {
      ReadyGrows(job, a, b, node.p1);
      ReadyGrows(job, a, b, node.p2);
    }
  }

  lemma OtherNodeKept<T>(job: Job<T>, slots0: map<nat, T>, s: System<T>, s': System<T>, w: nat, i: nat)
    requires Inv(job, slots0, s) && Shaped(job, s') && w < |s.workers| && i < |s.states| && i != s.workers[w].at
    requires OnlyAt(job, s, s', w) && Grows(s.states, s'.states)
    ensures NodeInv(job, slots0, s', i)
  {
    hide Value, WorkerInv, ParentsReady, Found;
    assert NodeInv(job, slots0, s, i);
    assert WorkerShaped(job, s.workers[w]);
    assert job.targets[i] != job.targets[s.workers[w].at];
    if s.states[i] == Computed {
      ParentsGrow(job, s.states, s'.states, NodeAt(job, i));
    }
    if s.states[i] == Computing {
      var v :| 0 <= v < |s.workers| && Holds(s.workers[v].pc) && s.workers[v].at == i;
      assert s'.workers[v] == s.workers[v];
    }
  }

  /** The node that the moving worker stands at. */
  lemma ThisNodeKept<T>(job: Job<T>, slots0: map<nat, T>, s: System<T>, w: nat)
    requires Inv(job, slots0, s) && w < |s.workers| && Shaped(job, Step(job, s, w))
    requires Grows(s.states, Step(job, s, w).states)
    ensures s.workers[w].at < |s.states| && NodeInv(job, slots0, Step(job, s, w), s.workers[w].at)
  {
    hide Value, ParentsReady, Found;
    var s', j := Step(job, s, w), s.workers[w].at;
    assert WorkerInv(job, slots0, s, w) && NodeInv(job, slots0, s, j);
    if ParentsReady(job, s.states, NodeAt(job, j)) {
      ParentsGrow(job, s.states, s'.states, NodeAt(job, j));
    }
    if Holds(s'.workers[w].pc) {
      assert s'.workers[w].at == j;
    } else if s'.states[j] == Computing {
      var v :| 0 <= v < |s.workers| && Holds(s.workers[v].pc) && s.workers[v].at == j;
      assert v != w && s'.workers[v] == s.workers[v];
    }
  }

  lemma ApartKept<T>(job: Job<T>, slots0: map<nat, T>, s: System<T>, w: nat)
    requires Inv(job, slots0, s) && w < |s.workers|
    ensures Apart(Step(job, s, w))
  {
    hide Value, ParentsReady, Found, NodeInv;
    var s', j := Step(job, s, w), s.workers[w].at;
    assert WorkerInv(job, slots0, s, w);
    forall v | 0 <= v < |s.workers| && v != w && Holds(s.workers[v].pc) && Holds(s'.workers[w].pc)
      ensures s'.workers[v] == s.workers[v] && s.workers[v].at != s'.workers[w].at
    {
      assert WorkerInv(job, slots0, s, v);
    }
  }

  /** Safety: the invariant survives every step of every worker. */
  lemma StepKeeps<T>(job: Job<T>, slots0: map<nat, T>, s: System<T>, w: nat)
    requires Inv(job, slots0, s) && w < |s.workers|
    ensures Inv(job, slots0, Step(job, s, w)) && Grows(s.states, Step(job, s, w).states)
    ensures |Step(job, s, w).workers| == |s.workers|
  {
    hide Value, NodeInv, WorkerInv, Apart, Step, Shaped;
    var s' := Step(job, s, w);
    StepTouches(job, slots0, s, w);
    MovedWorker(job, slots0, s, w);
    ThisNodeKept(job, slots0, s, w);
    ApartKept(job, slots0, s, w);
    forall v | 0 <= v < |s.workers| && v != w
      ensures WorkerInv(job, slots0, s', v)
    {
      OtherWorkerKept(job, slots0, s, s', w, v);
    }
    forall i | 0 <= i < |s.states| && i != s.workers[w].at
      ensures NodeInv(job, slots0, s', i)
    {
      OtherNodeKept(job, slots0, s, s', w, i);
    }
  }

  /** A run: the workers move in the order of `schedule`. */
  ghost function Run<T>(job: Job<T>, slots0: map<nat, T>, s: System<T>, schedule: seq<nat>): System<T>
    requires Inv(job, slots0, s) && forall w :: w in schedule ==> w < |s.workers|
    decreases |schedule|
  {
    hide Inv, Step;
    if schedule == [] then s
    else
      InvShaped(job, slots0, s, schedule);
      StepKeeps(job, slots0, s, schedule[0]);
      Run(job, slots0, Step(job, s, schedule[0]), schedule[1..])
  }

  lemma InvShaped<T>(job: Job<T>, slots0: map<nat, T>, s: System<T>, schedule: seq<nat>)
    requires Inv(job, slots0, s)
    ensures Shaped(job, s)
    ensures schedule != [] ==> schedule[0] in schedule && forall w :: w in schedule[1..] ==> w in schedule
  {
  }

  /** Safety over whole runs: the invariant holds after every schedule, and a computed node stays computed. */
  lemma {:induction false} RunKeeps<T>(job: Job<T>, slots0: map<nat, T>, s: System<T>, schedule: seq<nat>)
    requires Inv(job, slots0, s) && forall w :: w in schedule ==> w < |s.workers|
    ensures Inv(job, slots0, Run(job, slots0, s, schedule)) && Grows(s.states, Run(job, slots0, s, schedule).states)
    ensures |Run(job, slots0, s, schedule).workers| == |s.workers|
    decreases |schedule|
  {
    hide Inv, Step;
    if schedule == [] {
    } else {
      InvShaped(job, slots0, s, schedule);
      StepKeeps(job, slots0, s, schedule[0]);
      RunKeeps(job, slots0, Step(job, s, schedule[0]), schedule[1..]);
    }
  }

  /** Nobody else works on a node that is being computed. */
  lemma OneOwner<T>(job: Job<T>, slots0: map<nat, T>, s: System<T>, j: nat)
    requires Inv(job, slots0, s) && j < |s.states| && s.states[j] == Computing
    ensures exists w :: 0 <= w < |s.workers| && Holds(s.workers[w].pc) && s.workers[w].at == j
    ensures forall v, w :: 0 <= v < w < |s.workers| && Holds(s.workers[v].pc) && Holds(s.workers[w].pc) ==>
      !(s.workers[v].at == s.workers[w].at == j)
  {
    assert NodeInv(job, slots0, s, j);
  }

  /** The node function starts only once both parents are computed, and hold their values. */
  lemma ParentsFirst<T>(job: Job<T>, slots0: map<nat, T>, s: System<T>, w: nat)
    requires Inv(job, slots0, s) && w < |s.workers| && s.workers[w].pc.Work?
    ensures var node := NodeAt(job, s.workers[w].at);
      !node.IsSource() ==> forall p :: p == node.p1 || p == node.p2 ==>
        Ready(job, s.states, p) && p in job.targets && s.slots[p] == Value(job, slots0, p)
  {
    hide Value, Ready;
    var node := NodeAt(job, s.workers[w].at);
    assert WorkerInv(job, slots0, s, w);
    if !node.IsSource() {
      ParentValue(job, slots0, s, node.p1);
      ParentValue(job, slots0, s, node.p2);
    }
  }

  /**
   * The node function never runs twice on a node; when a worker has returned it has run once on
   * each, and every slot holds its value.
   */
  lemma RunOnce<T>(job: Job<T>, slots0: map<nat, T>, s: System<T>, w: nat)
    requires Inv(job, slots0, s) && w < |s.workers|
    ensures forall j :: 0 <= j < |s.runs| ==> s.runs[j] <= 1
    ensures s.workers[w].pc.Returned? ==> forall j :: 0 <= j < |s.runs| ==>
      s.states[j] == Computed && s.runs[j] == 1 && s.slots[job.targets[j]] == Value(job, slots0, job.targets[j])
  {
    hide Value;
    assert WorkerInv(job, slots0, s, w);
    forall j | 0 <= j < |s.runs|
      ensures s.runs[j] <= 1
      ensures s.states[j] == Computed ==>
          s.runs[j] == 1 && s.slots[job.targets[j]] == Value(job, slots0, job.targets[j])
    {
      assert NodeInv(job, slots0, s, j);
      if s.states[j] == Computing {
        var v :| 0 <= v < |s.workers| && Holds(s.workers[v].pc) && s.workers[v].at == j;
        assert WorkerInv(job, slots0, s, v);
      }
    }
  }

  /** Every node that is not a source has both parents among the targets. */
  ghost predicate AllFound<T>(job: Job<T>)
    requires Coherent(job)
  {
    forall j :: 0 <= j < |job.targets| ==> NodeAt(job, j).IsSource() || Found(job, NodeAt(job, j))
  }

  /** No worker throws on a usable plan, and none returns on an unusable one. */
  lemma ThrowsOrReturns<T>(job: Job<T>, slots0: map<nat, T>, s: System<T>, w: nat)
    requires Inv(job, slots0, s) && w < |s.workers|
    ensures AllFound(job) ==> !s.workers[w].pc.Threw?
    ensures !AllFound(job) ==> !s.workers[w].pc.Returned?
  {
    hide Value;
    assert WorkerInv(job, slots0, s, w) && WorkerShaped(job, s.workers[w]);
    forall j | 0 <= j < |s.states|
      ensures s.states[j] == Computed ==> NodeAt(job, j).IsSource() || Found(job, NodeAt(job, j))
    {
      assert NodeInv(job, slots0, s, j);
    }
  }
}
