/**
 * `parallel_apply` ends under every fair schedule. The proof follows the first node that is not
 * computed: its parents are computed, so only a worker that looked at them too early can still give
 * it back, and the next one to claim it finishes it.
 */
module PowersFairness {
  import opened Division
  import opened PowersWorkers
  import opened PowersProgress

  /** The first worker that holds node `j`, or the number of workers. */
  function Holder<T>(workers: seq<Worker<T>>, j: nat): (v: nat)
    ensures v <= |workers| && (v < |workers| ==> Holds(workers[v].pc) && workers[v].at == j)
    ensures forall u :: 0 <= u < v ==> !(Holds(workers[u].pc) && workers[u].at == j)
  {
    if workers == [] || (Holds(workers[0].pc) && workers[0].at == j) then 0
    else 1 + Holder(workers[1..], j)
  }

  /** The holder will give the node back although its parents are computed by now. */
  predicate Stale<T>(pc: Pc<T>) {
    pc.Release? || (pc.Look2? && !pc.first)
  }

  /** A strict bound for `Rest`. */
  function Span(n: nat): nat {
    (n + 1) * (n + 11) + 15
  }

  /** An upper bound for the moves of a worker until it stands at node `j` and claims it. */
  function Walk<T>(worker: Worker<T>, j: nat, n: nat): nat
    requires worker.at < n && j < n
  {
    Distance(worker, j, n) * (n + 11) + PcRank(worker.pc, n)
  }

  /** How many moves of the right worker are left until the first undone node is computed, or worker `w` returns. */
  ghost function Rest<T>(job: Job<T>, s: System<T>, w: nat): nat
    requires Shaped(job, s) && w < |s.workers|
  {
    hide Found;
    var n, j, pc := |s.states|, FirstUndone(s.states), s.workers[w].pc;
    if j == n then
      if pc.Scan? then n - pc.k + 1 else if pc.Claim? then n + 2 else 0
    else if s.states[j] == Computing then
      var v := Holder(s.workers, j);
      if v == |s.workers| then 0
      else if Stale(s.workers[v].pc) then (n + 1) * (n + 11) + 9 + HoldRank(s.workers[v].pc)
      else PcRank(s.workers[v].pc, 0)
    else 9 + Walk(s.workers[w], j, n)
  }

  /** The worker whose move brings the end nearer. */
  ghost function Actor<T>(s: System<T>, w: nat): nat {
    var j := FirstUndone(s.states);
    if j < |s.states| && s.states[j] == Computing then Holder(s.workers, j) else w
  }

  /** What is left to do before worker `w` returns. */
  ghost function Left<T>(job: Job<T>, s: System<T>, w: nat): nat
    requires Shaped(job, s) && w < |s.workers|
  {
    hide Span, Shaped, Undone, Total;
    Total(Undone(s.states)) * Span(|s.states|) + Rest(job, s, w)
  }

  lemma WalkBound<T>(worker: Worker<T>, j: nat, n: nat)
    requires worker.at < n && j < n
    ensures Walk(worker, j, n) < (n + 1) * (n + 11)
  {
    MulMono(Distance(worker, j, n), n, n + 11);
  }

  lemma RestBound<T>(job: Job<T>, s: System<T>, w: nat)
    requires Shaped(job, s) && w < |s.workers|
    ensures Rest(job, s, w) < Span(|s.states|)
  {
    hide Found, Walk;
    var n, j := |s.states|, FirstUndone(s.states);
    assert WorkerShaped(job, s.workers[w]);
    if j < n {
      WalkBound(s.workers[w], j, n);
    } else {
      MulMono(1, n + 1, n + 11);
    }
  }

  /** Nobody but its holder stands at a node that is being computed with a right to change it. */
  lemma HolderIs<T>(s: System<T>, j: nat, v: nat)
    requires Apart(s) && v < |s.workers| && Holds(s.workers[v].pc) && s.workers[v].at == j
    ensures Holder(s.workers, j) == v
  {
  }

  lemma HolderExists<T>(job: Job<T>, slots0: map<nat, T>, s: System<T>, j: nat)
    requires Inv(job, slots0, s) && j < |s.states| && s.states[j] == Computing
    ensures Holder(s.workers, j) < |s.workers|
  {
    hide Value, WorkerInv, Apart;
    assert NodeInv(job, slots0, s, j);
  }

  /** A step that does not publish computes nothing. */
  lemma SameUndone<T>(job: Job<T>, slots0: map<nat, T>, s: System<T>, u: nat)
    requires Inv(job, slots0, s) && u < |s.workers| && !s.workers[u].pc.Publish?
    ensures var s' := Step(job, s, u);
      |s'.states| == |s.states| && Undone(s'.states) == Undone(s.states) &&
        FirstUndone(s'.states) == FirstUndone(s.states)
  {
    hide Value, NodeInv, Found, Apart;
    assert WorkerInv(job, slots0, s, u);
    SameFirst(s.states, Step(job, s, u).states);
  }

  /** All nodes are computed: every worker sees that after one more look at all of them. */
  lemma SeesTheEnd<T>(job: Job<T>, slots0: map<nat, T>, s: System<T>, u: nat, w: nat)
    requires Inv(job, slots0, s) && AllFound(job) && u < |s.workers| && w < |s.workers|
    requires FirstUndone(s.states) == |s.states|
    ensures var s' := Step(job, s, u);
      && s'.states == s.states && Shaped(job, s') && w < |s'.workers|
      && Rest(job, s', w) <= Rest(job, s, w)
      && (u == w && Rest(job, s, w) > 0 ==> Rest(job, s', w) < Rest(job, s, w))
      && (Rest(job, s, w) == 0 ==> s.workers[w].pc.Returned?)
  {
    hide Value, NodeInv, Found, Apart;
    ThrowsOrReturns(job, slots0, s, w);
    ThrowsOrReturns(job, slots0, s, u);
    StepTouches(job, slots0, s, u);
    assert WorkerInv(job, slots0, s, u) && WorkerInv(job, slots0, s, w);
    assert WorkerShaped(job, s.workers[u]) && WorkerShaped(job, s.workers[w]);
  }

  /** Only its holder moves a node that is being computed. */
  lemma HeldByOther<T>(job: Job<T>, slots0: map<nat, T>, s: System<T>, u: nat, w: nat)
    requires Inv(job, slots0, s) && u < |s.workers| && w < |s.workers| && Inv(job, slots0, Step(job, s, u))
    requires FirstUndone(s.states) < |s.states| && s.states[FirstUndone(s.states)] == Computing
    requires !s.workers[u].pc.Publish? && u != Holder(s.workers, FirstUndone(s.states))
    ensures var s' := Step(job, s, u);
      Shaped(job, s') && w < |s'.workers| && Rest(job, s', w) == Rest(job, s, w) && Actor(s', w) == Actor(s, w)
  {
    hide Value, NodeInv, Found, Step, WorkerInv, Shaped, ParentsReady;
    var s', j := Step(job, s, u), FirstUndone(s.states);
    SameUndone(job, slots0, s, u);
    StepTouches(job, slots0, s, u);
    HolderExists(job, slots0, s, j);
    var v := Holder(s.workers, j);
    assert s'.workers[v] == s.workers[v];
    StaysHeld(job, slots0, s, u, j, v);
    HolderIs(s', j, v);
  }

  lemma StaysHeld<T>(job: Job<T>, slots0: map<nat, T>, s: System<T>, u: nat, j: nat, v: nat)
    requires Inv(job, slots0, s) && u < |s.workers| && v < |s.workers| && u != v
    requires Holds(s.workers[v].pc) && s.workers[v].at == j && j < |s.states| && s.states[j] == Computing
    ensures j < |Step(job, s, u).states| && Step(job, s, u).states[j] == Computing
  {
    hide Value, NodeInv, Found, Step, WorkerInv, ParentsReady;
    StepTouches(job, slots0, s, u);
  }

  /** What the holder of the first undone node does next. */
  lemma HolderSteps<T>(job: Job<T>, slots0: map<nat, T>, s: System<T>, u: nat, j: nat)
    requires Inv(job, slots0, s) && AllFound(job) && u < |s.workers| && !s.workers[u].pc.Publish?
    requires j == FirstUndone(s.states) < |s.states| && Holds(s.workers[u].pc) && s.workers[u].at == j
    ensures var before, s' := s.workers[u].pc, Step(job, s, u);
      && |s'.states| == |s.states| && |s'.workers| == |s.workers|
      && (before.Release? ==> s'.states[j] == Uncomputed)
      && (!before.Release? ==> s'.states == s.states && s'.workers[u].at == j && Holds(s'.workers[u].pc))
      && (!before.Release? && Stale(before) ==>
        Stale(s'.workers[u].pc) && HoldRank(s'.workers[u].pc) < HoldRank(before))
      && (!Stale(before) ==> !Stale(s'.workers[u].pc) && PcRank(s'.workers[u].pc, 0) < PcRank(before, 0))
  {
    hide Value, NodeInv, Found, Apart;
    ThrowsOrReturns(job, slots0, s, u);
    ParentsOfFirst(job, slots0, s);
    assert WorkerInv(job, slots0, s, u) && WorkerShaped(job, s.workers[u]);
  }

  /** The holder of the first undone node gets nearer to computing it, or gives it back once. */
  lemma HolderMoves<T>(job: Job<T>, slots0: map<nat, T>, s: System<T>, u: nat, w: nat)
    requires Inv(job, slots0, s) && AllFound(job) && u < |s.workers| && w < |s.workers|
    requires Inv(job, slots0, Step(job, s, u))
    requires FirstUndone(s.states) < |s.states| && s.states[FirstUndone(s.states)] == Computing
    requires !s.workers[u].pc.Publish? && u == Holder(s.workers, FirstUndone(s.states))
    ensures var s' := Step(job, s, u);
      Shaped(job, s') && w < |s'.workers| && Rest(job, s', w) < Rest(job, s, w)
  {
    hide Value, NodeInv, Found, WorkerInv, Step, Walk;
    var s', j, n := Step(job, s, u), FirstUndone(s.states), |s.states|;
    HolderSteps(job, slots0, s, u, j);
    SameUndone(job, slots0, s, u);
    if s.workers[u].pc.Release? {
      WalkBound(s'.workers[w], j, n);
    } else {
      HolderIs(s', j, u);
    }
  }

  /** A claim that fails on a node another worker is computing takes the worker on. */
  lemma PassesBy<T>(job: Job<T>, slots0: map<nat, T>, s: System<T>, u: nat)
    requires Inv(job, slots0, s) && u < |s.workers| && s.workers[u].pc.Claim? && Shaped(job, Step(job, s, u))
    requires FirstUndone(s.states) < |s.states| && s.states[FirstUndone(s.states)] == Uncomputed
    requires s.states[s.workers[u].at] == Computing
    ensures Nearer(job, s, Step(job, s, u), u)
  {
    hide Value, NodeInv, Found, WorkerInv, Apart;
    assert WorkerShaped(job, s.workers[u]);
    NextCloser(s.workers[u], FirstUndone(s.states), |s.states|);
  }

  /** While the first undone node is free, every worker's moves take it nearer to that node, or it claims it. */
  lemma GetsNearer<T>(job: Job<T>, slots0: map<nat, T>, s: System<T>, u: nat)
    requires Inv(job, slots0, s) && AllFound(job) && u < |s.workers| && Inv(job, slots0, Step(job, s, u))
    requires FirstUndone(s.states) < |s.states| && s.states[FirstUndone(s.states)] == Uncomputed
    requires !s.workers[u].pc.Publish?
    ensures Nearer(job, s, Step(job, s, u), u)
  {
    hide Value, NodeInv, Found, Step, Nearer, Apart, WorkerInv;
    ThrowsOrReturns(job, slots0, s, u);
    NotReturned(job, slots0, s, u);
    StepTouches(job, slots0, s, u);
    SameUndone(job, slots0, s, u);
    NotReturned(job, slots0, Step(job, s, u), u);
    match s.workers[u].pc {
      case Scan(k) => ScanAdvances(job, slots0, s, u);
      case Claim =>
        if s.states[s.workers[u].at] == Computing {
          PassesBy(job, slots0, s, u);
        } else {
          ClaimAdvances(job, slots0, s, u);
        }
      case Look1 => LookAdvances(job, slots0, s, u);
      case Look2(_) => LookAdvances(job, slots0, s, u);
      case Work => WorkAdvances(job, slots0, s, u);
      case Store(_) => WorkAdvances(job, slots0, s, u);
      case Release => ReleaseAdvances(job, slots0, s, u);
      case _ =>
    }
  }

  lemma NotReturned<T>(job: Job<T>, slots0: map<nat, T>, s: System<T>, u: nat)
    requires Inv(job, slots0, s) && u < |s.workers| && FirstUndone(s.states) < |s.states|
    ensures !s.workers[u].pc.Returned?
  {
    hide Value, NodeInv, Found, Apart;
    assert WorkerInv(job, slots0, s, u);
  }

  lemma NearerWalks<T>(job: Job<T>, s: System<T>, s': System<T>, u: nat)
    requires Shaped(job, s) && Shaped(job, s') && u < |s.workers| && u < |s'.workers| && Nearer(job, s, s', u)
    requires |s.states| == |s'.states| && FirstUndone(s.states) == FirstUndone(s'.states) < |s.states|
    ensures Walk(s'.workers[u], FirstUndone(s.states), |s.states|) < Walk(s.workers[u], FirstUndone(s.states),
        |s.states|)
  {
    hide Distance, Shaped, Nearer, PcRank;
    var n, j := |s.states|, FirstUndone(s.states);
    NearerMeans(job, s, s', u);
    WorkerRank(job, s', u);
    Lexicographic(Distance(s.workers[u], j, n), PcRank(s.workers[u].pc, n), Distance(s'.workers[u], j, n),
      PcRank(s'.workers[u].pc, n), n + 11);
  }

  lemma NearerMeans<T>(job: Job<T>, s: System<T>, s': System<T>, u: nat)
    requires Shaped(job, s) && Shaped(job, s') && u < |s.workers| && u < |s'.workers| && Nearer(job, s, s', u)
    requires |s.states| == |s'.states| && FirstUndone(s.states) == FirstUndone(s'.states) < |s.states|
    ensures var n, j := |s.states|, FirstUndone(s.states);
      && s.workers[u].at < n && s'.workers[u].at < n
      && var a, b := Distance(s.workers[u], j, n), Distance(s'.workers[u], j, n);
         b < a || (b == a && PcRank(s'.workers[u].pc, n) < PcRank(s.workers[u].pc, n))
  {
    hide Distance, Found, PcRank;
    assert WorkerShaped(job, s.workers[u]) && WorkerShaped(job, s'.workers[u]);
  }

  lemma Lexicographic(a: nat, p: nat, b: nat, q: nat, base: nat)
    requires q < base && (b < a || (b == a && q < p))
    ensures b * base + q < a * base + p
  {
    MulMono(b + 1, a, base);
  }

  lemma WorkerRank<T>(job: Job<T>, s: System<T>, u: nat)
    requires Shaped(job, s) && u < |s.workers|
    ensures PcRank(s.workers[u].pc, |s.states|) < |s.states| + 11
  {
    hide Found;
    assert WorkerShaped(job, s.workers[u]);
  }

  /** While the first undone node is free, worker `w` walks towards it, and whoever claims it will finish it. */
  lemma FreeMoves<T>(job: Job<T>, slots0: map<nat, T>, s: System<T>, u: nat, w: nat)
    requires Inv(job, slots0, s) && AllFound(job) && u < |s.workers| && w < |s.workers|
    requires Inv(job, slots0, Step(job, s, u))
    requires FirstUndone(s.states) < |s.states| && s.states[FirstUndone(s.states)] == Uncomputed
    requires !s.workers[u].pc.Publish?
    ensures var s' := Step(job, s, u);
      && Shaped(job, s') && w < |s'.workers|
      && (Rest(job, s', w) < Rest(job, s, w) || (u != w && Rest(job, s', w) == Rest(job, s, w) &&
        Actor(s', w) == Actor(s, w)))
  {
    hide Value, NodeInv, Found, WorkerInv, Step, Walk, Nearer;
    var s', j := Step(job, s, u), FirstUndone(s.states);
    StepTouches(job, slots0, s, u);
    SameUndone(job, slots0, s, u);
    if s'.states[j] == Computing {
      Claims(job, slots0, s, u, j);
      HolderIs(s', j, u);
    } else if u == w {
      GetsNearer(job, slots0, s, u);
      NearerWalks(job, s, s', u);
    }
  }

  lemma Claims<T>(job: Job<T>, slots0: map<nat, T>, s: System<T>, u: nat, j: nat)
    requires Inv(job, slots0, s) && u < |s.workers| && AllFound(job)
    requires j < |s.states| && s.states[j] == Uncomputed && Shaped(job, Step(job, s, u))
    requires |Step(job, s, u).states| == |s.states| && Step(job, s, u).states[j] == Computing
    ensures var worker := Step(job, s, u).workers[u];
      worker.at == j && Holds(worker.pc) && !Stale(worker.pc) && PcRank(worker.pc, 0) <= 8
  {
    hide Value, NodeInv, Found, Apart;
    assert WorkerInv(job, slots0, s, u) && WorkerShaped(job, s.workers[u]);
    assert NodeAt(job, s.workers[u].at).IsSource() || Found(job, NodeAt(job, s.workers[u].at));
  }

  /** What is left never grows, and the actor's move makes it less. */
  lemma StepLowers<T>(job: Job<T>, slots0: map<nat, T>, s: System<T>, u: nat, w: nat)
    requires Inv(job, slots0, s) && AllFound(job) && u < |s.workers| && w < |s.workers|
    ensures Shaped(job, Step(job, s, u)) && w < |Step(job, s, u).workers|
    ensures var s' := Step(job, s, u);
      || Left(job, s', w) < Left(job, s, w)
      || (Left(job, s', w) == Left(job, s, w) && Actor(s', w) == Actor(s, w) &&
        (u == Actor(s, w) ==> Left(job, s, w) == 0))
  {
    hide Inv, Step, Shaped, Rest, Span, AllFound, Undone, Total;
    InvShaped(job, slots0, s, []);
    StepKeeps(job, slots0, s, u);
    var s', n, j := Step(job, s, u), |s.states|, FirstUndone(s.states);
    InvShaped(job, slots0, s', []);
    if s.workers[u].pc.Publish? {
      RestBound(job, s', w);
      UndoneGrows(job, slots0, s, u);
      Lexicographic(Total(Undone(s.states)), Rest(job, s, w), Total(Undone(s'.states)), Rest(job, s', w), Span(n));
    } else {
      SameUndone(job, slots0, s, u);
      if j == n {
        SeesTheEnd(job, slots0, s, u, w);
        AllDone(s.states);
      } else if s.states[j] == Uncomputed {
        FreeMoves(job, slots0, s, u, w);
      } else if u == Holder(s.workers, j) {
        HolderMoves(job, slots0, s, u, w);
      } else {
        HeldByOther(job, slots0, s, u, w);
      }
    }
  }

  lemma {:induction false} AllDone(states: seq<NodeState>)
    ensures Total(Undone(states)) == 0 <==> FirstUndone(states) == |states|
  {
    TotalZero(Undone(states));
    var j := FirstUndone(states);
    assert j < |states| ==> Undone(states)[j] == 1;
  }

  /** Nothing left: the worker has returned. */
  lemma NothingLeft<T>(job: Job<T>, slots0: map<nat, T>, s: System<T>, w: nat)
    requires Inv(job, slots0, s) && AllFound(job) && w < |s.workers| && Left(job, s, w) == 0
    ensures s.workers[w].pc.Returned?
  {
    hide Inv, Step, Shaped, Rest, AllFound, Undone, Total;
    InvShaped(job, slots0, s, []);
    MulMono(1, Total(Undone(s.states)), Span(|s.states|));
    MulMono(1, |s.states| + 1, |s.states| + 11);
    AllDone(s.states);
    SeesTheEnd(job, slots0, s, w, w);
  }

  /** Over a run what is left never grows, and it gets less when the actor moves. */
  lemma {:induction false} RunLowers<T>(job: Job<T>, slots0: map<nat, T>, s: System<T>, window: seq<nat>, w: nat)
    requires Inv(job, slots0, s) && AllFound(job) && w < |s.workers| && forall u :: u in window ==> u < |s.workers|
    ensures var end := Run(job, slots0, s, window);
      && Shaped(job, end) && w < |end.workers|
      && Left(job, end, w) <= Left(job, s, w)
      && (Actor(s, w) in window && Left(job, s, w) > 0 ==> Left(job, end, w) < Left(job, s, w))
    decreases |window|
  {
    hide Inv, Step, Left, Actor, AllFound, Shaped;
    InvShaped(job, slots0, s, window);
    if window == [] {
    } else {
      StepKeeps(job, slots0, s, window[0]);
      StepLowers(job, slots0, s, window[0], w);
      RunLowers(job, slots0, Step(job, s, window[0]), window[1..], w);
      assert forall u :: u in window ==> u == window[0] || u in window[1..];
    }
  }

  function Window(schedule: seq<nat>, i: nat, m: nat): seq<nat>
    requires i + m <= |schedule|
  {
    schedule[i..i + m]
  }

  /** Every worker moves in every window of m steps. */
  ghost predicate Fair(schedule: seq<nat>, m: nat, workers: nat) {
    forall i: nat, w: nat :: i + m <= |schedule| && w < workers ==> w in Window(schedule, i, m)
  }

  lemma FairRest(schedule: seq<nat>, m: nat, workers: nat)
    requires Fair(schedule, m, workers) && m <= |schedule|
    ensures Fair(schedule[m..], m, workers) && forall w: nat :: w < workers ==> w in schedule[..m]
  {
    forall i: nat, w: nat | i + m <= |schedule[m..]| && w < workers
      ensures w in Window(schedule[m..], i, m)
    {
      assert Window(schedule[m..], i, m) == Window(schedule, m + i, m);
    }
    assert Window(schedule, 0, m) == schedule[..m];
  }

  /** Both parts of a schedule move only workers that there are. */
  lemma Parts(schedule: seq<nat>, m: nat, workers: nat)
    requires m <= |schedule| && forall u :: u in schedule ==> u < workers
    ensures (forall u :: u in schedule[..m] ==> u < workers) && forall u :: u in schedule[m..] ==> u < workers
  {
    forall u | u in schedule[..m] || u in schedule[m..]
      ensures u in schedule
    {
      assert schedule == schedule[..m] + schedule[m..];
    }
  }

  lemma {:induction false} RunSplit<T>(job: Job<T>, slots0: map<nat, T>, s: System<T>, schedule: seq<nat>, m: nat)
    requires Inv(job, slots0, s) && m <= |schedule| && forall u :: u in schedule ==> u < |s.workers|
    ensures (forall u :: u in schedule[..m] ==> u < |s.workers|) && forall u :: u in schedule[m..] ==> u < |s.workers|
    ensures var middle := Run(job, slots0, s, schedule[..m]);
      && Inv(job, slots0, middle) && |middle.workers| == |s.workers| && |middle.states| == |s.states|
      && Run(job, slots0, s, schedule) == Run(job, slots0, middle, schedule[m..])
    decreases |schedule|
  {
    hide Inv, Step;
    InvShaped(job, slots0, s, schedule);
    Parts(schedule, m, |s.workers|);
    RunKeeps(job, slots0, s, schedule[..m]);
    if m > 0 {
      StepKeeps(job, slots0, s, schedule[0]);
      RunSplit(job, slots0, Step(job, s, schedule[0]), schedule[1..], m - 1);
      assert schedule[..m][1..] == schedule[1..][..m - 1] && schedule[1..][m - 1..] == schedule[m..];
    } else {
      assert schedule[..m] == [] && schedule[m..] == schedule;
    }
  }

  lemma ActorExists<T>(job: Job<T>, slots0: map<nat, T>, s: System<T>, w: nat)
    requires Inv(job, slots0, s) && w < |s.workers|
    ensures Actor(s, w) < |s.workers|
  {
    hide Inv;
    var j := FirstUndone(s.states);
    if j < |s.states| && s.states[j] == Computing {
      HolderExists(job, slots0, s, j);
    }
  }

  /** As many windows as there is left bring the worker to its return. */
  lemma {:induction false} WindowsSuffice<T>(job: Job<T>, slots0: map<nat, T>, s: System<T>, schedule: seq<nat>,
          m: nat, w: nat)
    requires Inv(job, slots0, s) && AllFound(job) && w < |s.workers| && forall u :: u in schedule ==> u < |s.workers|
    requires Fair(schedule, m, |s.workers|) && Shaped(job, s) && |schedule| >= Left(job, s, w) * m
    ensures var end := Run(job, slots0, s, schedule);
      |end.workers| == |s.workers| && end.workers[w].pc.Returned?
    decreases Left(job, s, w)
  {
    hide Inv, Step, Left, Actor, AllFound, Shaped, Fair;
    if Left(job, s, w) == 0 {
      RunLowers(job, slots0, s, schedule, w);
      RunKeeps(job, slots0, s, schedule);
      NothingLeft(job, slots0, Run(job, slots0, s, schedule), w);
    } else {
      MulMono(1, Left(job, s, w), m);
      FairRest(schedule, m, |s.workers|);
      Parts(schedule, m, |s.workers|);
      RunSplit(job, slots0, s, schedule, m);
      var middle := Run(job, slots0, s, schedule[..m]);
      ActorExists(job, slots0, s, w);
      RunLowers(job, slots0, s, schedule[..m], w);
      MulMono(Left(job, middle, w), Left(job, s, w) - 1, m);
      WindowsSuffice(job, slots0, middle, schedule[m..], m, w);
    }
  }

  /** Windows enough for a plan of n nodes, from whatever state. */
  function Enough(n: nat): nat {
    (n + 1) * Span(n)
  }

  lemma {:induction false} TotalBound(states: seq<NodeState>)
    ensures Total(Undone(states)) <= |states|
  {
    if states == [] {
    } else {
      TotalBound(states[1..]);
      assert Undone(states)[1..] == Undone(states[1..]);
    }
  }

  /**
   * Liveness. On a usable plan of n nodes, from every reachable state, every schedule that lets each
   * worker move in every m steps and is as long as `Enough(n)` such windows lets all workers return.
   */
  lemma FairEnds<T>(job: Job<T>, slots0: map<nat, T>, s: System<T>, schedule: seq<nat>, m: nat)
    requires Inv(job, slots0, s) && AllFound(job) && forall u :: u in schedule ==> u < |s.workers|
    requires Fair(schedule, m, |s.workers|) && |schedule| >= Enough(|s.states|) * m
    ensures var end := Run(job, slots0, s, schedule);
      |end.workers| == |s.workers| && forall w :: 0 <= w < |end.workers| ==> end.workers[w].pc.Returned?
  {
    hide Inv, Step, Actor, AllFound, Shaped, Fair, Undone, Total, Span, Run, Rest;
    InvShaped(job, slots0, s, schedule);
    RunKeeps(job, slots0, s, schedule);
    var n := |s.states|;
    forall w | 0 <= w < |s.workers|
      ensures Run(job, slots0, s, schedule).workers[w].pc.Returned?
    {
      RestBound(job, s, w);
      TotalBound(s.states);
      MulMono(Total(Undone(s.states)), n, Span(n));
      MulMono(Left(job, s, w), Enough(n), m);
      WindowsSuffice(job, slots0, s, schedule, m, w);
    }
  }
}
