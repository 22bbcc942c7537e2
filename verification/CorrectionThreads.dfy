/**
 * `prepare_correction` on several threads. A call is a task; once the input level is done its two
 * halves run side by side, and a scheduler picks, switch by switch, which unfinished half moves.
 * The shared tables are only ever touched at the cell of the switch being worked on.
 */
module CorrectionThreads {
  import opened BenesNetwork
  import opened MaskedNetwork
  import opened CorrectionTables

  /** Where one call stands. Two- and three-wire calls never split, and run as one step. */
  datatype Task =
    | Running(k: nat, src: seq<Block>)
    | Split(bottom: Task, top: Task)
    | Leaving(k: nat, low: seq<Block>, high: seq<Block>, out: seq<Block>)
    | Returned(src: seq<Block>)

  ghost predicate Shape(values: nat, task: Task)
    decreases task
  {
    match task
    case Running(k, src) => |src| == values && (if values <= 3 then k == 0 else k <= values / 2)
    case Split(bottom, top) => values >= 4 && Shape(values / 2, bottom) && Shape((values + 1) / 2, top)
    case Leaving(k, low, high, out) =>
      values >= 4 && |low| == values / 2 && |high| == (values + 1) / 2 && k <= |low| && |out| == 2 * k
    case Returned(src) => |src| == values
  }

  /** Steps that a whole call takes. */
  function Cost(values: nat): (r: nat)
    ensures values >= 4 ==> r > values + 2
  {
    if values <= 3 then 1
    else (values / 2 + 1) + Cost(values / 2) + Cost((values + 1) / 2) + (1 + values / 2 + 1)
  }

  /** Steps still to be taken. */
  ghost function Remaining(values: nat, task: Task): nat
    requires Shape(values, task)
    decreases task
  {
    match task
    case Running(k, src) => Cost(values) - k
    case Split(bottom, top) => Remaining(values / 2, bottom) + Remaining((values + 1) / 2, top) + 1 + values / 2 + 1
    case Leaving(k, low, high, out) => values / 2 - k + 1
    case Returned(_) => 0
  }

  /** The two- and three-wire networks, switch after switch. */
  ghost function SmallStep(tb: Tables, levels: nat, width: nat, n: nat, lvl: nat, idx: nat,
          src: seq<Block>): (r: (Tables, seq<Block>))
    requires Rectangular(tb, levels, width) && Within(levels, width, n, lvl, idx, |src|) && |src| <= 3
    ensures Finished(tb, r.0, levels, width, n, lvl, idx, src, r.1)
  {
    hide Finished, Fixed, Rectangular, FixCell, Xor, Within, Row, Messages0, Switches, Used;
    if |src| == 2 then
      TwoFinish(tb, levels, width, n, lvl, idx, src);
      var l := MiddleLevel(n, lvl);
      (FixCell(tb, l, idx, src[0], src[1]), Wired(tb, l, idx, 0, src))
    else
      WithinFits(levels, width, n, lvl, idx, |src|);
      assert |src| == 3;
      ThreeFinish(tb, levels, width, n, lvl, idx, src);
      var tb1, m1 := FixCell(tb, lvl, idx, src[0], src[1]), Wired(tb, lvl, idx, 0, src);
      var tb2, m2 := FixCell(tb1, lvl + 1, idx, m1[1], m1[2]), Wired(tb1, lvl + 1, idx, 1, m1);
      (FixCell(tb2, lvl + 2, idx, m2[0], m2[1]), Wired(tb2, lvl + 2, idx, 0, m2))
  }

  lemma WithinCells(tb: Tables, levels: nat, width: nat, n: nat, lvl: nat, idx: nat, values: nat)
    requires Rectangular(tb, levels, width) && Within(levels, width, n, lvl, idx, values)
    ensures n >= 1 && lvl < |tb.ot| && lvl < |tb.corr| && idx + values / 2 <= |tb.ot[lvl]|
    ensures idx + values / 2 <= |tb.corr[lvl]|
    ensures var last := lvl + 2 * n - 2;
      last < |tb.ot| && last < |tb.corr| && idx + values / 2 <= |tb.ot[last]| && idx + values / 2 <= |tb.corr[last]|
    ensures lvl < levels && lvl + 2 * n - 2 < levels && idx + values / 2 <= width
  {
  }

  lemma FinishedShape(tb0: Tables, tb: Tables, levels: nat, width: nat, n: nat, lvl: nat, idx: nat, m: seq<Block>,
          out: seq<Block>)
    requires Finished(tb0, tb, levels, width, n, lvl, idx, m, out)
    ensures Rectangular(tb, levels, width) && |out| == |m|
  {
  }

  lemma FixCellShape(tb: Tables, l: nat, c: nat, m0: Block, m1: Block, levels: nat, width: nat)
    requires Rectangular(tb, levels, width) && l < |tb.ot| && l < |tb.corr| && c < |tb.ot[l]| && c < |tb.corr[l]|
    ensures Rectangular(FixCell(tb, l, c, m0, m1), levels, width)
  {
  }

  /** Does the scheduler's word move the upper half? It must when the lower half is finished. */
  predicate PicksTop(who: seq<bool>, bottom: Task, top: Task) {
    bottom.Returned? || (!top.Returned? && who != [] && who[0])
  }

  /** One step of a call; `who` says, split by split, which half moves. */
  ghost function Step(tb: Tables, levels: nat, width: nat, n: nat, lvl: nat, idx: nat, values: nat, task: Task,
          who: seq<bool>): (r: (Tables, Task))
    requires Rectangular(tb, levels, width) && Within(levels, width, n, lvl, idx, values) && Shape(values, task)
    ensures Rectangular(r.0, levels, width) && Shape(values, r.1)
    decreases task
  {
    hide Rectangular, FixCell, Xor, Finished, Wired, Within;
    WithinCells(tb, levels, width, n, lvl, idx, values);
    match task
    case Running(k, src) =>
      if values <= 3 then
        var r := SmallStep(tb, levels, width, n, lvl, idx, src);
        FinishedShape(tb, r.0, levels, width, n, lvl, idx, src, r.1);
        (r.0, Returned(r.1))
      else if k < values / 2 then
        FixCellShape(tb, lvl, idx + k, src[2 * k], src[2 * k + 1], levels, width);
        (FixCell(tb, lvl, idx + k, src[2 * k], src[2 * k + 1]), Running(k + 1, Wired(tb, lvl, idx + k, 2 * k, src)))
      else
        (tb, Split(Running(0, Evens(src)), Running(0, Odds(src))))
    case Split(bottom, top) =>
      SubWithin(levels, width, n, lvl, idx, values);
      if bottom.Returned? && top.Returned? then
        assert Shape(values / 2, bottom) && Shape((values + 1) / 2, top);
        (tb, Leaving(0, bottom.src, top.src, []))
      else if PicksTop(who, bottom, top) then
        var r := Step(tb, levels, width, n - 1, lvl + 1, idx + values / 4, (values + 1) / 2, top, if who == []
          then [] else who[1..]);
        (r.0, Split(bottom, r.1))
      else
        var r := Step(tb, levels, width, n - 1, lvl + 1, idx, values / 2, bottom, if who == [] then [] else who[1..]);
        (r.0, Split(r.1, top))
    case Leaving(k, low, high, out) =>
      if k < |low| then
        var l := lvl + 2 * n - 2;
        var e := tb.ot[l][idx + k];
        FixCellShape(tb, l, idx + k, low[k], high[k], levels, width);
        (FixCell(tb, l, idx + k, low[k], high[k]),
         Leaving(k + 1, low, high, out + [Xor(e.m0.a, low[k]), Xor(e.m0.b, high[k])]))
      else
        (tb, Returned(out + if |high| > |low| then [high[|low|]] else []))
    case Returned(_) => (tb, task)
  }

  /** Cells of `done` are as a finished switch leaves them, cells of `todo` as they were at the start. */
  ghost predicate Work(tb0: Tables, tb: Tables, levels: nat, width: nat, done: Region, todo: Region) {
    && Rectangular(tb0, levels, width) && Rectangular(tb, levels, width)
    && forall l: nat, c: nat {:trigger tb.ot[l][c]} {:trigger tb.corr[l][c]} :: l < levels && c < width ==>
        && ((l, c) in done ==>
          tb.ot[l][c].m0 == tb0.ot[l][c].m0 && tb.corr[l][c] == XorPair(tb0.ot[l][c].m1, tb.ot[l][c].m1))
        && ((l, c) in todo ==> tb.ot[l][c] == tb0.ot[l][c] && tb.corr[l][c] == tb0.corr[l][c])
  }

  lemma WorkStep(tb0: Tables, tb: Tables, tb': Tables, levels: nat, width: nat, done: Region, todo: Region, s: Region)
    requires Work(tb0, tb, levels, width, done, todo) && Fixed(tb, tb', levels, width, s) && s <= todo && done !! s
    ensures Work(tb0, tb', levels, width, done + s, todo - s)
  {
    forall l: nat, c: nat | l < levels && c < width
      ensures (l, c) in done + s ==>
          tb'.ot[l][c].m0 == tb0.ot[l][c].m0 && tb'.corr[l][c] == XorPair(tb0.ot[l][c].m1, tb'.ot[l][c].m1)
      ensures (l, c) in todo - s ==> tb'.ot[l][c] == tb0.ot[l][c] && tb'.corr[l][c] == tb0.corr[l][c]
    {
      assert tb.ot[l][c] == tb.ot[l][c] && tb'.ot[l][c] == tb'.ot[l][c];
    }
  }

  lemma WorkUnion(tb0: Tables, tb: Tables, levels: nat, width: nat, d: Region, t: Region, d': Region, t': Region)
    requires Work(tb0, tb, levels, width, d, t) && Work(tb0, tb, levels, width, d', t')
    ensures Work(tb0, tb, levels, width, d + d', t + t')
  {
  }

  lemma WorkPart(tb0: Tables, tb: Tables, levels: nat, width: nat, d: Region, t: Region, d': Region, t': Region)
    requires Work(tb0, tb, levels, width, d, t) && d' <= d && t' <= t
    ensures Work(tb0, tb, levels, width, d', t')
  {
  }

  lemma WorkKept(tb0: Tables, tb: Tables, tb': Tables, levels: nat, width: nat, d: Region, t: Region, r: Region)
    requires Work(tb0, tb, levels, width, d, t) && SameIn(tb, tb', levels, width, r) && d <= r && t <= r
    ensures Work(tb0, tb', levels, width, d, t)
  {
    forall l: nat, c: nat | l < levels && c < width
      ensures (l, c) in d ==>
          tb'.ot[l][c].m0 == tb0.ot[l][c].m0 && tb'.corr[l][c] == XorPair(tb0.ot[l][c].m1, tb'.ot[l][c].m1)
      ensures (l, c) in t ==> tb'.ot[l][c] == tb0.ot[l][c] && tb'.corr[l][c] == tb0.corr[l][c]
    {
      assert tb.ot[l][c] == tb.ot[l][c] && tb'.ot[l][c] == tb'.ot[l][c];
    }
  }

  /** Input masks with the pairs below `k` already turned into the masks behind their switches. */
  ghost predicate Entered(t: PairGrid, lvl: nat, idx: nat, m: seq<Block>, k: nat, src: seq<Block>) {
    && lvl < |t| && idx + |m| / 2 <= |t[lvl]| && |src| == |m|
    && forall i :: 0 <= i < |m| ==> src[i] == if i < 2 * k then ApplyLevel(t[lvl], idx, m)[i] else m[i]
  }

  ghost predicate RunningInv(tb0: Tables, tb: Tables, levels: nat, width: nat, n: nat, lvl: nat, idx: nat,
          m: seq<Block>, k: nat, src: seq<Block>)
    requires Fits(n, |m|)
  {
    if |m| <= 3 then
      src == m && Work(tb0, tb, levels, width, iset{}, Switches(n, lvl, idx, |m|))
    else
      && Entered(Messages0(tb0.ot), lvl, idx, m, k, src)
      && LevelSet(tb, Messages0(tb0.ot), lvl, idx, Evens(m), Odds(m), k)
      && Work(tb0, tb, levels, width, Row(lvl, idx, k), Switches(n, lvl, idx, |m|) - Row(lvl, idx, k))
  }

  /** What a split call guards besides its two halves. */
  ghost predicate SplitInv(tb0: Tables, tb: Tables, levels: nat, width: nat, n: nat, lvl: nat, idx: nat,
          m: seq<Block>) {
    && n >= 1
    && LevelSet(tb, Messages0(tb0.ot), lvl, idx, Evens(m), Odds(m), |m| / 2)
    && Work(tb0, tb, levels, width, Row(lvl, idx, |m| / 2), Row(lvl + 2 * n - 2, idx, |m| / 2))
  }

  ghost predicate LeavingInv(tb0: Tables, tb: Tables, levels: nat, width: nat, n: nat, lvl: nat, idx: nat,
          m: seq<Block>,
                             k: nat, low: seq<Block>, high: seq<Block>, out: seq<Block>)
    requires Fits(n, |m|) && |m| >= 4 && |low| == |m| / 2 && |high| == (|m| + 1) / 2
    requires PairRoom(Messages0(tb0.ot), n, lvl, idx, |m|)
  {
    hide LevelSet, Evens, Odds, Work, LowOut, HighOut, ApplyLevel, Zip, LowServed, HighServed;
    var t, last := Messages0(tb0.ot), lvl + 2 * n - 2;
    && last < |t| && idx + |m| / 2 <= |t[last]| && k <= |m| / 2
    && low == LowOut(t, n, lvl, idx, m) && high == HighOut(t, n, lvl, idx, m)
    && LevelSet(tb, t, lvl, idx, Evens(m), Odds(m), |m| / 2)
    && HalvesSet(tb, t, n, lvl, idx, m)
    && LevelSet(tb, t, last, idx, low, high, k)
    && Work(tb0, tb, levels, width, Switches(n, lvl, idx, |m|) - Row(last, idx + k, |m| / 2 - k),
      Row(last, idx + k, |m| / 2 - k))
    && out == ApplyLevel(t[last], idx, Zip(low, high))[..2 * k]
  }

  ghost predicate HalvesSet(tb: Tables, t: PairGrid, n: nat, lvl: nat, idx: nat, m: seq<Block>) {
    && n >= 2 && lvl < |t| && idx + |m| / 2 <= |t[lvl]|
    && MessagesSet(tb, t, n - 1, lvl + 1, idx, LowIn(t, lvl, idx, m))
    && MessagesSet(tb, t, n - 1, lvl + 1, idx + |m| / 4, HighIn(t, lvl, idx, m))
  }

  ghost predicate ReturnedInv(tb0: Tables, tb: Tables, levels: nat, width: nat, n: nat, lvl: nat, idx: nat,
          m: seq<Block>, out: seq<Block>)
    requires Fits(n, |m|) && PairRoom(Messages0(tb0.ot), n, lvl, idx, |m|)
  {
    && Work(tb0, tb, levels, width, Switches(n, lvl, idx, |m|), iset{})
    && MessagesSet(tb, Messages0(tb0.ot), n, lvl, idx, m)
    && out == OutMasks(Messages0(tb0.ot), n, lvl, idx, m)
  }

  lemma StartRooms(tb0: Tables, levels: nat, width: nat, n: nat, lvl: nat, idx: nat, values: nat)
    requires Rectangular(tb0, levels, width) && Within(levels, width, n, lvl, idx, values)
    ensures Fits(n, values) && PairRoom(Messages0(tb0.ot), n, lvl, idx, values)
    ensures values >= 4 ==>
      && n >= 2 && Within(levels, width, n - 1, lvl + 1, idx, values / 2)
      && Within(levels, width, n - 1, lvl + 1, idx + values / 4, (values + 1) / 2)
      && lvl < |Messages0(tb0.ot)| && idx + values / 2 <= |Messages0(tb0.ot)[lvl]|
      && lvl + 2 * n - 2 < levels && idx + values / 2 <= width
      && lvl + 2 * n - 2 < |Messages0(tb0.ot)| && idx + values / 2 <= |Messages0(tb0.ot)[lvl + 2 * n - 2]|
  {
    if values >= 4 {
      SubWithin(levels, width, n, lvl, idx, values);
    }
  }

  /** What holds of one call and the shared tables, whatever the other threads have done meanwhile. */
  ghost predicate Inv(tb0: Tables, tb: Tables, levels: nat, width: nat, n: nat, lvl: nat, idx: nat, m: seq<Block>,
          task: Task)
    requires Rectangular(tb0, levels, width) && Within(levels, width, n, lvl, idx, |m|)
    decreases task, 1
  {
    hide Within, Rectangular, PairRoom, RunningInv, SplitInv, LeavingInv, ReturnedInv, LowInv, HighInv, Fits;
    StartRooms(tb0, levels, width, n, lvl, idx, |m|);
    && Rectangular(tb, levels, width) && Messages0(tb.ot) == Messages0(tb0.ot)
    && Shape(|m|, task)
    && match task
       case Running(k, src) => RunningInv(tb0, tb, levels, width, n, lvl, idx, m, k, src)
       case Split(bottom, top) =>
         && SplitInv(tb0, tb, levels, width, n, lvl, idx, m)
         && LowInv(tb0, tb, levels, width, n, lvl, idx, m, bottom)
         && HighInv(tb0, tb, levels, width, n, lvl, idx, m, top)
       case Leaving(k, low, high, out) => LeavingInv(tb0, tb, levels, width, n, lvl, idx, m, k, low, high, out)
       case Returned(out) => ReturnedInv(tb0, tb, levels, width, n, lvl, idx, m, out)
  }

  ghost predicate LowInv(tb0: Tables, tb: Tables, levels: nat, width: nat, n: nat, lvl: nat, idx: nat, m: seq<Block>,
          task: Task)
    requires Rectangular(tb0, levels, width) && Within(levels, width, n, lvl, idx, |m|) && |m| >= 4
    decreases task, 2
  {
    hide Within, Rectangular, PairRoom, LowIn, Inv, Fits;
    StartRooms(tb0, levels, width, n, lvl, idx, |m|);
    Inv(tb0, tb, levels, width, n - 1, lvl + 1, idx, LowIn(Messages0(tb0.ot), lvl, idx, m), task)
  }

  ghost predicate HighInv(tb0: Tables, tb: Tables, levels: nat, width: nat, n: nat, lvl: nat, idx: nat, m: seq<Block>,
          task: Task)
    requires Rectangular(tb0, levels, width) && Within(levels, width, n, lvl, idx, |m|) && |m| >= 4
    decreases task, 2
  {
    hide Within, Rectangular, PairRoom, HighIn, Inv, Fits;
    StartRooms(tb0, levels, width, n, lvl, idx, |m|);
    Inv(tb0, tb, levels, width, n - 1, lvl + 1, idx + |m| / 4, HighIn(Messages0(tb0.ot), lvl, idx, m), task)
  }

  /** Another thread's step, which leaves this call's switches alone, keeps everything this call relies on. */
  lemma {:induction false} InvKept(tb0: Tables, tb: Tables, tb': Tables, levels: nat, width: nat, n: nat, lvl: nat,
          idx: nat, m: seq<Block>, task: Task)
    requires Rectangular(tb0, levels, width) && Within(levels, width, n, lvl, idx, |m|) && Fits(n, |m|)
    requires Inv(tb0, tb, levels, width, n, lvl, idx, m, task)
    requires SameIn(tb, tb', levels, width, Switches(n, lvl, idx, |m|)) && Messages0(tb'.ot) == Messages0(tb.ot)
    ensures Inv(tb0, tb', levels, width, n, lvl, idx, m, task)
    decreases task
  {
    hide Within, Rectangular, PairRoom, RunningInv, SplitInv, LeavingInv, ReturnedInv, LowInv, HighInv, Fits, SameIn,
      Switches, LowIn, HighIn;
    StartRooms(tb0, levels, width, n, lvl, idx, |m|);
    SameRectangular(tb, tb', levels, width, Switches(n, lvl, idx, |m|));
    match task {
      case Running(k, src) =>
        RunningKept(tb0, tb, tb', levels, width, n, lvl, idx, m, k, src);
      case Split(bottom, top) =>
        SwitchParts(n, lvl, idx, |m|);
        SplitKept(tb0, tb, tb', levels, width, n, lvl, idx, m, Switches(n, lvl, idx, |m|));
        PartsKept(tb, tb', levels, width, n, lvl, idx, |m|);
        LowInvIs(tb0, tb, levels, width, n, lvl, idx, m, bottom);
        LowInvIs(tb0, tb', levels, width, n, lvl, idx, m, bottom);
        HighInvIs(tb0, tb, levels, width, n, lvl, idx, m, top);
        HighInvIs(tb0, tb', levels, width, n, lvl, idx, m, top);
        InvKept(tb0, tb, tb', levels, width, n - 1, lvl + 1, idx, LowIn(Messages0(tb0.ot), lvl, idx, m), bottom);
        InvKept(tb0, tb, tb', levels, width, n - 1, lvl + 1, idx + |m| / 4, HighIn(Messages0(tb0.ot), lvl, idx, m),
          top);
      case Leaving(k, low, high, out) =>
        LeavingKept(tb0, tb, tb', levels, width, n, lvl, idx, m, k, low, high, out);
      case Returned(out) =>
        ReturnedKept(tb0, tb, tb', levels, width, n, lvl, idx, m, out);
    }
  }

  lemma SameRectangular(a: Tables, b: Tables, levels: nat, width: nat, r: Region)
    requires SameIn(a, b, levels, width, r)
    ensures Rectangular(a, levels, width) && Rectangular(b, levels, width)
  {
  }

  lemma SamePart(a: Tables, b: Tables, levels: nat, width: nat, r: Region, s: Region)
    requires SameIn(a, b, levels, width, r) && s <= r
    ensures SameIn(a, b, levels, width, s)
  {
  }

  lemma LowInvIs(tb0: Tables, tb: Tables, levels: nat, width: nat, n: nat, lvl: nat, idx: nat, m: seq<Block>,
          task: Task)
    requires Rectangular(tb0, levels, width) && Within(levels, width, n, lvl, idx, |m|) && |m| >= 4
    ensures n >= 2 && lvl < |Messages0(tb0.ot)| && idx + |m| / 2 <= |Messages0(tb0.ot)[lvl]|
    ensures Within(levels, width, n - 1, lvl + 1, idx, |m| / 2) && Fits(n - 1, |m| / 2)
    ensures LowInv(tb0, tb, levels, width, n, lvl, idx, m, task) <==>
      Inv(tb0, tb, levels, width, n - 1, lvl + 1, idx, LowIn(Messages0(tb0.ot), lvl, idx, m), task)
  {
    hide Within, Rectangular, PairRoom, LowIn, Inv, Fits;
    StartRooms(tb0, levels, width, n, lvl, idx, |m|);
    StartRooms(tb0, levels, width, n - 1, lvl + 1, idx, |m| / 2);
  }

  lemma HighInvIs(tb0: Tables, tb: Tables, levels: nat, width: nat, n: nat, lvl: nat, idx: nat, m: seq<Block>,
          task: Task)
    requires Rectangular(tb0, levels, width) && Within(levels, width, n, lvl, idx, |m|) && |m| >= 4
    ensures n >= 2 && lvl < |Messages0(tb0.ot)| && idx + |m| / 2 <= |Messages0(tb0.ot)[lvl]|
    ensures Within(levels, width, n - 1, lvl + 1, idx + |m| / 4, (|m| + 1) / 2) && Fits(n - 1, (|m| + 1) / 2)
    ensures HighInv(tb0, tb, levels, width, n, lvl, idx, m, task) <==>
      Inv(tb0, tb, levels, width, n - 1, lvl + 1, idx + |m| / 4, HighIn(Messages0(tb0.ot), lvl, idx, m), task)
  {
    hide Within, Rectangular, PairRoom, HighIn, Inv, Fits;
    StartRooms(tb0, levels, width, n, lvl, idx, |m|);
    StartRooms(tb0, levels, width, n - 1, lvl + 1, idx + |m| / 4, (|m| + 1) / 2);
  }

  lemma PartsKept(a: Tables, b: Tables, levels: nat, width: nat, n: nat, lvl: nat, idx: nat, values: nat)
    requires Fits(n, values) && values >= 4 && SameIn(a, b, levels, width, Switches(n, lvl, idx, values))
    ensures n >= 2 && Fits(n - 1, values / 2) && Fits(n - 1, (values + 1) / 2)
    ensures SameIn(a, b, levels, width, Switches(n - 1, lvl + 1, idx, values / 2))
    ensures SameIn(a, b, levels, width, Switches(n - 1, lvl + 1, idx + values / 4, (values + 1) / 2))
    ensures SameIn(a, b, levels, width, Row(lvl, idx, values / 2))
    ensures SameIn(a, b, levels, width, Row(lvl + 2 * n - 2, idx, values / 2))
  {
    hide SameIn, Switches, Row, Fits;
    SwitchParts(n, lvl, idx, values);
    SamePart(a, b, levels, width, Switches(n, lvl, idx, values), Switches(n - 1, lvl + 1, idx, values / 2));
    SamePart(a, b, levels, width, Switches(n, lvl, idx, values),
      Switches(n - 1, lvl + 1, idx + values / 4, (values + 1) / 2));
    SamePart(a, b, levels, width, Switches(n, lvl, idx, values), Row(lvl, idx, values / 2));
    SamePart(a, b, levels, width, Switches(n, lvl, idx, values), Row(lvl + 2 * n - 2, idx, values / 2));
  }

  lemma RowPart(l: nat, idx: nat, count: nat, k: nat)
    requires k <= count
    ensures Row(l, idx, k) <= Row(l, idx, count) && Row(l, idx + k, count - k) <= Row(l, idx, count)
    ensures Row(l, idx, k) + Row(l, idx + k, count - k) == Row(l, idx, count)
    ensures Row(l, idx, k) !! Row(l, idx + k, count - k)
    ensures k < count ==> Row(l, idx, k) + Row(l, idx + k, 1) == Row(l, idx, k + 1)
    ensures k < count ==> Row(l, idx + k, count - k) - Row(l, idx + k, 1) == Row(l, idx + (k + 1), count - (k + 1))
    ensures k < count ==> Row(l, idx + k, 1) <= Row(l, idx + k, count - k) && Row(l, idx, k) !! Row(l, idx + k, 1)
    ensures Row(l, idx, 0) == iset{} && Row(l, idx + count, 0) == iset{}
  {
  }

  lemma RunningKept(tb0: Tables, tb: Tables, tb': Tables, levels: nat, width: nat, n: nat, lvl: nat, idx: nat,
          m: seq<Block>, k: nat, src: seq<Block>)
    requires Fits(n, |m|) && Shape(|m|, Running(k, src))
    requires RunningInv(tb0, tb, levels, width, n, lvl, idx, m, k, src)
    requires SameIn(tb, tb', levels, width, Switches(n, lvl, idx, |m|))
    ensures RunningInv(tb0, tb', levels, width, n, lvl, idx, m, k, src)
  {
    hide Fits, Entered, LevelSet, Work, Switches, Row, Evens, Odds, SameIn;
    var all := Switches(n, lvl, idx, |m|);
    if |m| <= 3 {
      WorkKept(tb0, tb, tb', levels, width, iset{}, all, all);
    } else {
      SwitchParts(n, lvl, idx, |m|);
      RowPart(lvl, idx, |m| / 2, k);
      SamePart(tb, tb', levels, width, all, Row(lvl, idx, k));
      LevelSetKept(tb, tb', Messages0(tb0.ot), levels, width, lvl, idx, Evens(m), Odds(m), k);
      WorkKept(tb0, tb, tb', levels, width, Row(lvl, idx, k), all - Row(lvl, idx, k), all);
    }
  }

  lemma SplitKept(tb0: Tables, tb: Tables, tb': Tables, levels: nat, width: nat, n: nat, lvl: nat, idx: nat,
          m: seq<Block>, r: Region)
    requires SplitInv(tb0, tb, levels, width, n, lvl, idx, m) && SameIn(tb, tb', levels, width, r)
    requires Row(lvl, idx, |m| / 2) <= r && Row(lvl + 2 * n - 2, idx, |m| / 2) <= r
    ensures SplitInv(tb0, tb', levels, width, n, lvl, idx, m)
  {
    hide LevelSet, Work, Row, Evens, Odds, SameIn;
    SamePart(tb, tb', levels, width, r, Row(lvl, idx, |m| / 2));
    LevelSetKept(tb, tb', Messages0(tb0.ot), levels, width, lvl, idx, Evens(m), Odds(m), |m| / 2);
    WorkKept(tb0, tb, tb', levels, width, Row(lvl, idx, |m| / 2), Row(lvl + 2 * n - 2, idx, |m| / 2), r);
  }

  lemma LeavingKept(tb0: Tables, tb: Tables, tb': Tables, levels: nat, width: nat, n: nat, lvl: nat, idx: nat,
          m: seq<Block>,
                    k: nat, low: seq<Block>, high: seq<Block>, out: seq<Block>)
    requires Fits(n, |m|) && |m| >= 4 && |low| == |m| / 2 && |high| == (|m| + 1) / 2
    requires PairRoom(Messages0(tb0.ot), n, lvl, idx, |m|)
    requires LeavingInv(tb0, tb, levels, width, n, lvl, idx, m, k, low, high, out)
    requires SameIn(tb, tb', levels, width, Switches(n, lvl, idx, |m|))
    ensures LeavingInv(tb0, tb', levels, width, n, lvl, idx, m, k, low, high, out)
  {
    hide Fits, LevelSet, Work, Switches, Row, Evens, Odds, SameIn, PairRoom, LowOut, HighOut, ApplyLevel, Zip,
      HalvesSet;
    var t, last, all := Messages0(tb0.ot), lvl + 2 * n - 2, Switches(n, lvl, idx, |m|);
    PartsKept(tb, tb', levels, width, n, lvl, idx, |m|);
    SwitchParts(n, lvl, idx, |m|);
    RowPart(last, idx, |m| / 2, k);
    LevelSetKept(tb, tb', t, levels, width, lvl, idx, Evens(m), Odds(m), |m| / 2);
    SamePart(tb, tb', levels, width, Row(last, idx, |m| / 2), Row(last, idx, k));
    LevelSetKept(tb, tb', t, levels, width, last, idx, low, high, k);
    HalvesSetApart(tb, tb', t, levels, width, n, lvl, idx, m);
    WorkKept(tb0, tb, tb', levels, width, all - Row(last, idx + k, |m| / 2 - k), Row(last, idx + k, |m| / 2 - k), all);
  }

  lemma ReturnedKept(tb0: Tables, tb: Tables, tb': Tables, levels: nat, width: nat, n: nat, lvl: nat, idx: nat,
          m: seq<Block>, out: seq<Block>)
    requires Fits(n, |m|) && PairRoom(Messages0(tb0.ot), n, lvl, idx, |m|)
    requires ReturnedInv(tb0, tb, levels, width, n, lvl, idx, m, out)
    requires SameIn(tb, tb', levels, width, Switches(n, lvl, idx, |m|))
    ensures ReturnedInv(tb0, tb', levels, width, n, lvl, idx, m, out)
  {
    hide Fits, PairRoom, MessagesSet, SameIn, Switches, Work, OutMasks;
    MessagesSetKept(tb, tb', Messages0(tb0.ot), levels, width, n, lvl, idx, m);
    WorkKept(tb0, tb, tb', levels, width, Switches(n, lvl, idx, |m|), iset{}, Switches(n, lvl, idx, |m|));
  }

  /** A step of one call leaves the rest of the tables alone and never changes a message 0. */
  ghost predicate Apart(tb: Tables, tb': Tables, levels: nat, width: nat, region: Region) {
    SameIn(tb, tb', levels, width, Elsewhere(region)) && Messages0(tb'.ot) == Messages0(tb.ot)
  }

  ghost function Elsewhere(region: Region): Region {
    iset p: (nat, nat) | p !in region
  }

  lemma FixedApart(tb: Tables, tb': Tables, levels: nat, width: nat, s: Region, region: Region)
    requires Fixed(tb, tb', levels, width, s) && s <= region
    ensures Apart(tb, tb', levels, width, region)
  {
    FixedKeepsMessages0(tb, tb', levels, width, s);
    FixedLeaves(tb, tb', levels, width, s, Elsewhere(region));
  }

  lemma ApartKeeps(tb: Tables, tb': Tables, levels: nat, width: nat, region: Region, other: Region)
    requires Apart(tb, tb', levels, width, region) && region !! other
    ensures SameIn(tb, tb', levels, width, other)
  {
    SamePart(tb, tb', levels, width, Elsewhere(region), other);
  }

  lemma ApartPart(tb: Tables, tb': Tables, levels: nat, width: nat, part: Region, region: Region)
    requires Apart(tb, tb', levels, width, part) && part <= region
    ensures Apart(tb, tb', levels, width, region)
  {
    SamePart(tb, tb', levels, width, Elsewhere(part), Elsewhere(region));
  }

  lemma StaysApart(tb: Tables, levels: nat, width: nat, region: Region)
    requires Rectangular(tb, levels, width)
    ensures Apart(tb, tb, levels, width, region)
  {
  }

  /** A two- or three-wire call does all its switches at once. */
  lemma SmallKeeps(tb0: Tables, tb: Tables, levels: nat, width: nat, n: nat, lvl: nat, idx: nat, m: seq<Block>,
          tb': Tables, out: seq<Block>)
    requires |m| <= 3 && Rectangular(tb0, levels, width) && Within(levels, width, n, lvl, idx, |m|) && Fits(n, |m|)
    requires Messages0(tb.ot) == Messages0(tb0.ot) && RunningInv(tb0, tb, levels, width, n, lvl, idx, m, 0, m)
    requires Finished(tb, tb', levels, width, n, lvl, idx, m, out)
    ensures Apart(tb, tb', levels, width, Switches(n, lvl, idx, |m|))
    ensures Rectangular(tb', levels, width) && PairRoom(Messages0(tb0.ot), n, lvl, idx, |m|)
    ensures ReturnedInv(tb0, tb', levels, width, n, lvl, idx, m, out)
  {
    hide Finished, Fixed, Work, Switches, MessagesSet, OutMasks, Apart, PairRoom, Within, Fits, Rectangular;
    var all := Switches(n, lvl, idx, |m|);
    FinishedMeans(tb, tb', levels, width, n, lvl, idx, m, out);
    FinishedShape(tb, tb', levels, width, n, lvl, idx, m, out);
    WorkStep(tb0, tb, tb', levels, width, iset{}, all, all);
    assert iset{} + all == all && all - all == iset{};
    FixedApart(tb, tb', levels, width, all, all);
  }

  /** One switch of the input level. */
  lemma EnterKeeps(tb0: Tables, tb: Tables, levels: nat, width: nat, n: nat, lvl: nat, idx: nat, m: seq<Block>, k: nat,
          src: seq<Block>)
    requires Rectangular(tb0, levels, width) && Rectangular(tb, levels, width)
    requires Within(levels, width, n, lvl, idx, |m|) && Fits(n, |m|)
    requires |m| >= 4 && k < |m| / 2 && Messages0(tb.ot) == Messages0(tb0.ot)
    requires RunningInv(tb0, tb, levels, width, n, lvl, idx, m, k, src)
    ensures |src| == |m| && lvl < |tb.ot| && lvl < |tb.corr| && idx + k < |tb.ot[lvl]| && idx + k < |tb.corr[lvl]|
    ensures var tb' := FixCell(tb, lvl, idx + k, src[2 * k], src[2 * k + 1]);
      && Apart(tb, tb', levels, width, Switches(n, lvl, idx, |m|)) && Rectangular(tb', levels, width)
      && RunningInv(tb0, tb', levels, width, n, lvl, idx, m, k + 1, Wired(tb, lvl, idx + k, 2 * k, src))
  {
    hide Work, Switches, Apart, Rectangular, FixCell, Row, Xor, LevelSet, Wired, Fixed, Fits, Within, Evens, Odds,
      Message1;
    var t, all := Messages0(tb0.ot), Switches(n, lvl, idx, |m|);
    WithinCells(tb, levels, width, n, lvl, idx, |m|);
    SwitchDone(tb, lvl, idx + k, 2 * k, src, t, levels, width);
    var tb' := FixCell(tb, lvl, idx + k, src[2 * k], src[2 * k + 1]);
    SwitchParts(n, lvl, idx, |m|);
    RowPart(lvl, idx, |m| / 2, k);
    FixedApart(tb, tb', levels, width, Row(lvl, idx + k, 1), all);
    EnteredStep(t, lvl, idx, m, k, src);
    LevelGrows(tb, tb', t, levels, width, lvl, idx, Evens(m), Odds(m), k, src[2 * k], src[2 * k + 1]);
    WorkStep(tb0, tb, tb', levels, width, Row(lvl, idx, k), all - Row(lvl, idx, k), Row(lvl, idx + k, 1));
    assert all - Row(lvl, idx, k) - Row(lvl, idx + k, 1) == all - Row(lvl, idx, k + 1);
  }

  lemma EnteredStep(t: PairGrid, lvl: nat, idx: nat, m: seq<Block>, k: nat, src: seq<Block>)
    requires |m| >= 4 && Entered(t, lvl, idx, m, k, src) && k < |m| / 2
    ensures Entered(t, lvl, idx, m, k + 1, Apply(t[lvl][idx + k], 2 * k, src))
    ensures src[2 * k] == Evens(m)[k] && src[2 * k + 1] == Odds(m)[k]
  {
    hide Xor;
    var next, all := Apply(t[lvl][idx + k], 2 * k, src), ApplyLevel(t[lvl], idx, m);
    assert src[2 * k] == m[2 * k] && src[2 * k + 1] == m[2 * k + 1];
    assert all[2 * k] == next[2 * k] && all[2 * k + 1] == next[2 * k + 1];
    hide Apply, ApplyLevel;
  }

  /** Message 1 of one more switch of a level is set. */
  lemma LevelGrows(tb: Tables, tb': Tables, t: PairGrid, levels: nat, width: nat, l: nat, idx: nat, m0: seq<Block>,
          m1: seq<Block>, k: nat, a: Block, b: Block)
    requires Fixed(tb, tb', levels, width, Row(l, idx + k, 1)) && LevelSet(tb, t, l, idx, m0, m1, k)
    requires k < |m0| && k < |m1| && a == m0[k] && b == m1[k]
    requires l < |tb'.ot| && l < |t| && idx + k < |tb'.ot[l]| && idx + k < |t[l]|
    requires tb'.ot[l][idx + k].m1 == Message1(t[l][idx + k], a, b)
    ensures LevelSet(tb', t, l, idx, m0, m1, k + 1)
  {
    hide Message1;
    FixedLeaves(tb, tb', levels, width, Row(l, idx + k, 1), Row(l, idx, k));
    LevelSetKept(tb, tb', t, levels, width, l, idx, m0, m1, k);
  }

  /** A call on cells that nobody has worked on. */
  lemma FreshInv(tb0: Tables, tb: Tables, levels: nat, width: nat, n: nat, lvl: nat, idx: nat, m: seq<Block>)
    requires Rectangular(tb0, levels, width) && Rectangular(tb, levels, width)
    requires Within(levels, width, n, lvl, idx, |m|) && Fits(n, |m|)
    requires Messages0(tb.ot) == Messages0(tb0.ot)
    requires Work(tb0, tb, levels, width, iset{}, Switches(n, lvl, idx, |m|))
    ensures Inv(tb0, tb, levels, width, n, lvl, idx, m, Running(0, m))
  {
    hide Work, Switches, LowInv, HighInv, Evens, Odds, Rectangular;
    StartRooms(tb0, levels, width, n, lvl, idx, |m|);
    WithinCells(tb, levels, width, n, lvl, idx, |m|);
    WithinCells(tb0, levels, width, n, lvl, idx, |m|);
    if |m| >= 4 {
      assert Row(lvl, idx, 0) == iset{} && Switches(n, lvl, idx, |m|) - iset{} == Switches(n, lvl, idx, |m|);
    }
  }

  /** The input level is done: both halves start. */
  lemma SplitKeeps(tb0: Tables, tb: Tables, levels: nat, width: nat, n: nat, lvl: nat, idx: nat, m: seq<Block>,
          src: seq<Block>)
    requires Rectangular(tb0, levels, width) && Rectangular(tb, levels, width)
    requires Within(levels, width, n, lvl, idx, |m|) && Fits(n, |m|)
    requires |m| >= 4 && Messages0(tb.ot) == Messages0(tb0.ot)
    requires RunningInv(tb0, tb, levels, width, n, lvl, idx, m, |m| / 2, src)
    ensures |src| == |m|
    ensures SplitInv(tb0, tb, levels, width, n, lvl, idx, m)
    ensures LowInv(tb0, tb, levels, width, n, lvl, idx, m, Running(0, Evens(src)))
    ensures HighInv(tb0, tb, levels, width, n, lvl, idx, m, Running(0, Odds(src)))
  {
    hide Work, Switches, LowInv, HighInv, LevelSet, Row, Inv, LowIn, HighIn, Evens, Odds, Rectangular, Within, Fits,
      Entered;
    var t, all, rest := Messages0(tb0.ot), Switches(n, lvl, idx, |m|),
      Switches(n, lvl, idx, |m|) - Row(lvl, idx, |m| / 2);
    SwitchParts(n, lvl, idx, |m|);
    var bottom, top := Switches(n - 1, lvl + 1, idx, |m| / 2), Switches(n - 1, lvl + 1, idx + |m| / 4, (|m| + 1) / 2);
    EnteredAll(t, lvl, idx, m, src);
    WorkPart(tb0, tb, levels, width, Row(lvl, idx, |m| / 2), rest, Row(lvl, idx, |m| / 2),
      Row(lvl + 2 * n - 2, idx, |m| / 2));
    WorkPart(tb0, tb, levels, width, Row(lvl, idx, |m| / 2), rest, iset{}, bottom);
    WorkPart(tb0, tb, levels, width, Row(lvl, idx, |m| / 2), rest, iset{}, top);
    LowInvIs(tb0, tb, levels, width, n, lvl, idx, m, Running(0, Evens(src)));
    HighInvIs(tb0, tb, levels, width, n, lvl, idx, m, Running(0, Odds(src)));
    FreshInv(tb0, tb, levels, width, n - 1, lvl + 1, idx, LowIn(t, lvl, idx, m));
    FreshInv(tb0, tb, levels, width, n - 1, lvl + 1, idx + |m| / 4, HighIn(t, lvl, idx, m));
  }

  lemma EnteredAll(t: PairGrid, lvl: nat, idx: nat, m: seq<Block>, src: seq<Block>)
    requires Entered(t, lvl, idx, m, |m| / 2, src)
    ensures |src| == |m| && lvl < |t| && idx + |m| / 2 <= |t[lvl]|
    ensures Evens(src) == LowIn(t, lvl, idx, m) && Odds(src) == HighIn(t, lvl, idx, m)
  {
    hide Xor;
    var all := ApplyLevel(t[lvl], idx, m);
    assert src == all;
  }

  /** Both halves have returned: the output level starts. */
  lemma JoinKeeps(tb0: Tables, tb: Tables, levels: nat, width: nat, n: nat, lvl: nat, idx: nat, m: seq<Block>,
          low: seq<Block>, high: seq<Block>)
    requires Rectangular(tb0, levels, width) && Rectangular(tb, levels, width)
    requires Within(levels, width, n, lvl, idx, |m|) && Fits(n, |m|)
    requires |m| >= 4 && |low| == |m| / 2 && |high| == (|m| + 1) / 2 && Messages0(tb.ot) == Messages0(tb0.ot)
    requires SplitInv(tb0, tb, levels, width, n, lvl, idx, m)
    requires LowInv(tb0, tb, levels, width, n, lvl, idx, m, Returned(low))
    requires HighInv(tb0, tb, levels, width, n, lvl, idx, m, Returned(high))
    ensures PairRoom(Messages0(tb0.ot), n, lvl, idx, |m|)
    ensures LeavingInv(tb0, tb, levels, width, n, lvl, idx, m, 0, low, high, [])
  {
    hide Work, Switches, LowInv, HighInv, LevelSet, Row, LowIn, HighIn, Evens, Odds, Rectangular, Within, Fits,
      MessagesSet, PairRoom, OutMasks, LowOut, HighOut, ApplyLevel, Zip;
    var t, last := Messages0(tb0.ot), lvl + 2 * n - 2;
    StartRooms(tb0, levels, width, n, lvl, idx, |m|);
    SwitchParts(n, lvl, idx, |m|);
    var bottom, top := Switches(n - 1, lvl + 1, idx, |m| / 2), Switches(n - 1, lvl + 1, idx + |m| / 4, (|m| + 1) / 2);
    LowInvIs(tb0, tb, levels, width, n, lvl, idx, m, Returned(low));
    HighInvIs(tb0, tb, levels, width, n, lvl, idx, m, Returned(high));
    OutHalvesAre(t, n, lvl, idx, m);
    RowPart(last, idx, |m| / 2, 0);
    var first, lastRow := Row(lvl, idx, |m| / 2), Row(last, idx, |m| / 2);
    WorkUnion(tb0, tb, levels, width, bottom, iset{}, top, iset{});
    WorkUnion(tb0, tb, levels, width, bottom + top, iset{} + iset{}, first, lastRow);
    assert bottom + top + first == Switches(n, lvl, idx, |m|) - lastRow && iset{} + iset{} + lastRow == lastRow;
    LevelNone(tb, t, levels, width, last, idx, low, high);
  }

  lemma LevelNone(tb: Tables, t: PairGrid, levels: nat, width: nat, l: nat, idx: nat, m0: seq<Block>, m1: seq<Block>)
    requires Rectangular(tb, levels, width) && l < levels && idx <= width && l < |t| && idx <= |t[l]|
    ensures LevelSet(tb, t, l, idx, m0, m1, 0)
  {
  }

  /** One switch of the output level. */
  lemma LeaveKeeps(tb0: Tables, tb: Tables, levels: nat, width: nat, n: nat, lvl: nat, idx: nat, m: seq<Block>,
                   k: nat, low: seq<Block>, high: seq<Block>, out: seq<Block>)
    requires Rectangular(tb0, levels, width) && Rectangular(tb, levels, width)
    requires Within(levels, width, n, lvl, idx, |m|) && Fits(n, |m|)
    requires |m| >= 4 && |low| == |m| / 2 && |high| == (|m| + 1) / 2 && k < |low|
    requires Messages0(tb.ot) == Messages0(tb0.ot)
    requires PairRoom(Messages0(tb0.ot), n, lvl, idx, |m|)
    requires LeavingInv(tb0, tb, levels, width, n, lvl, idx, m, k, low, high, out)
    ensures var l := lvl + 2 * n - 2;
      && l < |tb.ot| && l < |tb.corr| && idx + k < |tb.ot[l]| && idx + k < |tb.corr[l]|
      && var e, tb' := tb.ot[l][idx + k], FixCell(tb, l, idx + k, low[k], high[k]);
      && Apart(tb, tb', levels, width, Switches(n, lvl, idx, |m|)) && Rectangular(tb', levels, width)
      && LeavingInv(tb0, tb', levels, width, n, lvl, idx, m, k + 1, low, high,
        out + [Xor(e.m0.a, low[k]), Xor(e.m0.b, high[k])])
  {
    hide Work, Switches, Apart, Rectangular, FixCell, Row, Xor, LevelSet, Fixed, Fits, Within, Evens, Odds, Message1,
      PairRoom, LowOut, HighOut, ApplyLevel, Zip, MessagesSet, LowIn, HighIn, HalvesSet, Messages0;
    var t, all, l := Messages0(tb0.ot), Switches(n, lvl, idx, |m|), lvl + 2 * n - 2;
    WithinCells(tb, levels, width, n, lvl, idx, |m|);
    LeaveCell(tb, t, l, idx, low, high, k, levels, width);
    var tb' := FixCell(tb, l, idx + k, low[k], high[k]);
    SwitchParts(n, lvl, idx, |m|);
    RowPart(l, idx, |m| / 2, k);
    var cell := Row(l, idx + k, 1);
    FixedApart(tb, tb', levels, width, cell, all);
    LevelGrows(tb, tb', t, levels, width, l, idx, low, high, k, low[k], high[k]);
    FixedLeaves(tb, tb', levels, width, cell, all - cell);
    SamePart(tb, tb', levels, width, all - cell, Row(lvl, idx, |m| / 2));
    LevelSetKept(tb, tb', t, levels, width, lvl, idx, Evens(m), Odds(m), |m| / 2);
    SamePart(tb, tb', levels, width, all - cell, Switches(n - 1, lvl + 1, idx, |m| / 2));
    SamePart(tb, tb', levels, width, all - cell, Switches(n - 1, lvl + 1, idx + |m| / 4, (|m| + 1) / 2));
    HalvesSetApart(tb, tb', t, levels, width, n, lvl, idx, m);
    WorkStep(tb0, tb, tb', levels, width, all - Row(l, idx + k, |m| / 2 - k), Row(l, idx + k, |m| / 2 - k), cell);
    assert all - Row(l, idx + k, |m| / 2 - k) + cell == all - Row(l, idx + (k + 1), |m| / 2 - (k + 1));
    OutGrows(t[l], idx, low, high, k);
  }

  lemma LeaveCell(tb: Tables, t: PairGrid, l: nat, idx: nat, low: seq<Block>, high: seq<Block>, k: nat, levels: nat,
          width: nat)
    requires Rectangular(tb, levels, width) && l < levels && idx + k < width && k < |low| && k < |high|
    requires t == Messages0(tb.ot)
    ensures l < |tb.ot| && idx + k < |tb.ot[l]| && l < |tb.corr| && idx + k < |tb.corr[l]| && l < |t|
    ensures idx + k < |t[l]|
    ensures tb.ot[l][idx + k].m0 == t[l][idx + k]
    ensures var tb' := FixCell(tb, l, idx + k, low[k], high[k]);
      && Rectangular(tb', levels, width) && Messages0(tb'.ot) == t && l < |tb'.ot| && idx + k < |tb'.ot[l]|
      && Fixed(tb, tb', levels, width, Row(l, idx + k, 1)) &&
        tb'.ot[l][idx + k].m1 == Message1(t[l][idx + k], low[k], high[k])
  {
    hide Xor, Message1, FixCell, Wired, Apply;
    SwitchDone(tb, l, idx + k, 0, [low[k], high[k]], t, levels, width);
  }

  lemma OutGrows(row: seq<Pair>, idx: nat, low: seq<Block>, high: seq<Block>, k: nat)
    requires k < |low| <= |high| <= |low| + 1 && idx + |low| <= |row|
    ensures var all := ApplyLevel(row, idx, Zip(low, high));
      all[..2 * (k + 1)] == all[..2 * k] + [Xor(row[idx + k].a, low[k]), Xor(row[idx + k].b, high[k])]
  {
    hide Xor;
    XorCancels(row[idx + k].a, low[k], {});
    XorCancels(row[idx + k].b, high[k], {});
  }

  lemma HalvesSetApart(tb: Tables, tb': Tables, t: PairGrid, levels: nat, width: nat, n: nat, lvl: nat, idx: nat,
          m: seq<Block>)
    requires n >= 2 && Fits(n - 1, |m| / 2) && Fits(n - 1, (|m| + 1) / 2)
    requires SameIn(tb, tb', levels, width, Switches(n - 1, lvl + 1, idx, |m| / 2))
    requires SameIn(tb, tb', levels, width, Switches(n - 1, lvl + 1, idx + |m| / 4, (|m| + 1) / 2))
    requires HalvesSet(tb, t, n, lvl, idx, m)
    ensures HalvesSet(tb', t, n, lvl, idx, m)
  {
    hide Fits, MessagesSet, SameIn, Switches, LowIn, HighIn;
    MessagesSetKept(tb, tb', t, levels, width, n - 1, lvl + 1, idx, LowIn(t, lvl, idx, m));
    MessagesSetKept(tb, tb', t, levels, width, n - 1, lvl + 1, idx + |m| / 4, HighIn(t, lvl, idx, m));
  }

  /** The output level is done. */
  lemma ReturnKeeps(tb0: Tables, tb: Tables, levels: nat, width: nat, n: nat, lvl: nat, idx: nat, m: seq<Block>,
                    low: seq<Block>, high: seq<Block>, out: seq<Block>)
    requires Rectangular(tb0, levels, width) && Rectangular(tb, levels, width)
    requires Within(levels, width, n, lvl, idx, |m|) && Fits(n, |m|)
    requires |m| >= 4 && |low| == |m| / 2 && |high| == (|m| + 1) / 2 && Messages0(tb.ot) == Messages0(tb0.ot)
    requires PairRoom(Messages0(tb0.ot), n, lvl, idx, |m|)
    requires LeavingInv(tb0, tb, levels, width, n, lvl, idx, m, |low|, low, high, out)
    ensures ReturnedInv(tb0, tb, levels, width, n, lvl, idx, m, out + if |high| > |low| then [high[|low|]] else [])
  {
    hide Work, Switches, Rectangular, Row, Xor, LevelSet, Fits, Within, Evens, Odds, PairRoom, LowOut, HighOut,
      ApplyLevel, Zip, MessagesSet, LowIn, HighIn, OutMasks, Rooms;
    var t, all, last := Messages0(tb0.ot), Switches(n, lvl, idx, |m|), lvl + 2 * n - 2;
    RowPart(last, idx, |m| / 2, |m| / 2);
    assert all - iset{} == all;
    FixedRectangular(tb0, tb0, levels, width, iset{});
    FixedRectangular(tb, tb, levels, width, iset{});
    WithinRooms(tb, t, levels, width, n, lvl, idx, |m|);
    PartsSet(tb, t, n, lvl, idx, m);
    OutUnfold(t, n, lvl, idx, m);
    OutLast(t[last], idx, low, high);
  }

  lemma OutLast(row: seq<Pair>, idx: nat, low: seq<Block>, high: seq<Block>)
    requires |low| <= |high| <= |low| + 1 && idx + |low| <= |row|
    ensures var all := ApplyLevel(row, idx, Zip(low, high));
      all == all[..2 * |low|] + if |high| > |low| then [high[|low|]] else []
  {
    hide Xor;
  }

  /** What a step from (tb, task) to (tb', task') must preserve. */
  ghost predicate Moves(tb0: Tables, tb: Tables, levels: nat, width: nat, n: nat, lvl: nat, idx: nat, m: seq<Block>,
          task: Task, tb': Tables, task': Task)
    requires Rectangular(tb0, levels, width) && Within(levels, width, n, lvl, idx, |m|) && Fits(n, |m|)
    requires Shape(|m|, task)
  {
    hide Within, Rectangular, Fits, Switches, Inv, Apart, Remaining;
    && Apart(tb, tb', levels, width, Switches(n, lvl, idx, |m|))
    && Shape(|m|, task') && Inv(tb0, tb', levels, width, n, lvl, idx, m, task')
    && (task.Returned? || Remaining(|m|, task') < Remaining(|m|, task))
  }

  /** The lower half has moved; nothing else of the call has noticed. */
  lemma LowMoves(tb0: Tables, tb: Tables, tb': Tables, levels: nat, width: nat, n: nat, lvl: nat, idx: nat,
          m: seq<Block>, top: Task)
    requires Rectangular(tb0, levels, width) && Within(levels, width, n, lvl, idx, |m|) && Fits(n, |m|) && |m| >= 4
    requires n >= 2 && Fits(n - 1, |m| / 2) && Apart(tb, tb', levels, width, Switches(n - 1, lvl + 1, idx, |m| / 2))
    requires SplitInv(tb0, tb, levels, width, n, lvl, idx, m) && HighInv(tb0, tb, levels, width, n, lvl, idx, m, top)
    ensures Apart(tb, tb', levels, width, Switches(n, lvl, idx, |m|))
    ensures SplitInv(tb0, tb', levels, width, n, lvl, idx, m) && HighInv(tb0, tb', levels, width, n, lvl, idx, m, top)
  {
    hide *;
    ghost var low := Switches(n - 1, lvl + 1, idx, |m| / 2);
    SwitchParts(n, lvl, idx, |m|);
    ApartPart(tb, tb', levels, width, low, Switches(n, lvl, idx, |m|));
    OthersKept(tb, tb', levels, width, low, Row(lvl, idx, |m| / 2), Row(lvl + 2 * n - 2, idx, |m| / 2));
    SplitKept(tb0, tb, tb', levels, width, n, lvl, idx, m, Row(lvl, idx, |m| / 2) + Row(lvl + 2 * n - 2, idx, |m| / 2));
    ghost var high := Switches(n - 1, lvl + 1, idx + |m| / 4, (|m| + 1) / 2);
    OthersKept(tb, tb', levels, width, low, high, high);
    assert high + high == high;
    HighInvIs(tb0, tb, levels, width, n, lvl, idx, m, top);
    HighInvIs(tb0, tb', levels, width, n, lvl, idx, m, top);
    InvKept(tb0, tb, tb', levels, width, n - 1, lvl + 1, idx + |m| / 4, HighIn(Messages0(tb0.ot), lvl, idx, m), top);
  }

  /** The upper half has moved; nothing else of the call has noticed. */
  lemma HighMoves(tb0: Tables, tb: Tables, tb': Tables, levels: nat, width: nat, n: nat, lvl: nat, idx: nat,
          m: seq<Block>, bottom: Task)
    requires Rectangular(tb0, levels, width) && Within(levels, width, n, lvl, idx, |m|) && Fits(n, |m|) && |m| >= 4
    requires n >= 2 && Fits(n - 1, (|m| + 1) / 2)
    requires Apart(tb, tb', levels, width, Switches(n - 1, lvl + 1, idx + |m| / 4, (|m| + 1) / 2))
    requires SplitInv(tb0, tb, levels, width, n, lvl, idx, m) && LowInv(tb0, tb, levels, width, n, lvl, idx, m, bottom)
    ensures Apart(tb, tb', levels, width, Switches(n, lvl, idx, |m|))
    ensures SplitInv(tb0, tb', levels, width, n, lvl, idx, m) && LowInv(tb0, tb', levels, width, n, lvl, idx, m, bottom)
  {
    hide *;
    ghost var high := Switches(n - 1, lvl + 1, idx + |m| / 4, (|m| + 1) / 2);
    SwitchParts(n, lvl, idx, |m|);
    ApartPart(tb, tb', levels, width, high, Switches(n, lvl, idx, |m|));
    OthersKept(tb, tb', levels, width, high, Row(lvl, idx, |m| / 2), Row(lvl + 2 * n - 2, idx, |m| / 2));
    SplitKept(tb0, tb, tb', levels, width, n, lvl, idx, m, Row(lvl, idx, |m| / 2) + Row(lvl + 2 * n - 2, idx, |m| / 2));
    ghost var low := Switches(n - 1, lvl + 1, idx, |m| / 2);
    OthersKept(tb, tb', levels, width, high, low, low);
    assert low + low == low;
    LowInvIs(tb0, tb, levels, width, n, lvl, idx, m, bottom);
    LowInvIs(tb0, tb', levels, width, n, lvl, idx, m, bottom);
    InvKept(tb0, tb, tb', levels, width, n - 1, lvl + 1, idx, LowIn(Messages0(tb0.ot), lvl, idx, m), bottom);
  }

  lemma OthersKept(tb: Tables, tb': Tables, levels: nat, width: nat, moved: Region, r: Region, s: Region)
    requires Apart(tb, tb', levels, width, moved) && moved !! r && moved !! s
    ensures SameIn(tb, tb', levels, width, r + s) && Messages0(tb'.ot) == Messages0(tb.ot)
  {
    hide SameIn, Messages0;
    ApartKeeps(tb, tb', levels, width, moved, r + s);
  }

  /**
   * Whatever the other threads have done meanwhile, one step of a call keeps the invariant, works
   * only on the call's own switches, and brings its end nearer.
   */
  lemma {:induction false} StepKeeps(tb0: Tables, tb: Tables, levels: nat, width: nat, n: nat, lvl: nat, idx: nat,
          m: seq<Block>, task: Task, who: seq<bool>)
    requires Rectangular(tb0, levels, width) && Within(levels, width, n, lvl, idx, |m|) && Fits(n, |m|)
    requires Inv(tb0, tb, levels, width, n, lvl, idx, m, task)
    ensures Rectangular(tb, levels, width) && Shape(|m|, task)
    ensures var r := Step(tb, levels, width, n, lvl, idx, |m|, task, who);
      Moves(tb0, tb, levels, width, n, lvl, idx, m, task, r.0, r.1)
    decreases task, 1
  {
    hide Within, Rectangular, PairRoom, RunningInv, SplitInv, LeavingInv, ReturnedInv, LowInv, HighInv, Fits, SameIn,
      Switches, LowIn, HighIn, FixCell, Apart, Xor, Evens, Odds, Wired;
    StartRooms(tb0, levels, width, n, lvl, idx, |m|);
    match task {
      case Running(k, src) =>
        RunMoves(tb0, tb, levels, width, n, lvl, idx, m, k, src, who);
      case Split(bottom, top) =>
        SplitMoves(tb0, tb, levels, width, n, lvl, idx, m, bottom, top, who);
      case Leaving(k, low, high, out) =>
        LeaveMoves(tb0, tb, levels, width, n, lvl, idx, m, k, low, high, out, who);
      case Returned(out) =>
        StaysApart(tb, levels, width, Switches(n, lvl, idx, |m|));
    }
  }

  lemma RunMoves(tb0: Tables, tb: Tables, levels: nat, width: nat, n: nat, lvl: nat, idx: nat, m: seq<Block>, k: nat,
          src: seq<Block>, who: seq<bool>)
    requires Rectangular(tb0, levels, width) && Within(levels, width, n, lvl, idx, |m|) && Fits(n, |m|)
    requires Inv(tb0, tb, levels, width, n, lvl, idx, m, Running(k, src))
    ensures Rectangular(tb, levels, width) && Shape(|m|, Running(k, src))
    ensures var r := Step(tb, levels, width, n, lvl, idx, |m|, Running(k, src), who);
      Moves(tb0, tb, levels, width, n, lvl, idx, m, Running(k, src), r.0, r.1)
  {
    hide Within, Rectangular, PairRoom, SplitInv, LeavingInv, ReturnedInv, LowInv, HighInv, Fits, SameIn, Switches,
      LowIn, HighIn, FixCell, Xor, Evens, Odds, Wired, Work, LevelSet, Row, Entered, Finished;
    StartRooms(tb0, levels, width, n, lvl, idx, |m|);
    WithinCells(tb, levels, width, n, lvl, idx, |m|);
    if |m| <= 3 {
      var r := SmallStep(tb, levels, width, n, lvl, idx, src);
      SmallKeeps(tb0, tb, levels, width, n, lvl, idx, m, r.0, r.1);
    } else if k < |m| / 2 {
      EnterKeeps(tb0, tb, levels, width, n, lvl, idx, m, k, src);
    } else {
      SplitKeeps(tb0, tb, levels, width, n, lvl, idx, m, src);
      StaysApart(tb, levels, width, Switches(n, lvl, idx, |m|));
      var task' := Split(Running(0, Evens(src)), Running(0, Odds(src)));
      assert Shape(|m|, task');
      assert Remaining(|m|, task') < Remaining(|m|, Running(k, src));
      assert Inv(tb0, tb, levels, width, n, lvl, idx, m, task');
    }
  }

  lemma LeaveMoves(tb0: Tables, tb: Tables, levels: nat, width: nat, n: nat, lvl: nat, idx: nat, m: seq<Block>,
                   k: nat, low: seq<Block>, high: seq<Block>, out: seq<Block>, who: seq<bool>)
    requires Rectangular(tb0, levels, width) && Within(levels, width, n, lvl, idx, |m|) && Fits(n, |m|)
    requires Inv(tb0, tb, levels, width, n, lvl, idx, m, Leaving(k, low, high, out))
    ensures Rectangular(tb, levels, width) && Shape(|m|, Leaving(k, low, high, out))
    ensures var r := Step(tb, levels, width, n, lvl, idx, |m|, Leaving(k, low, high, out), who);
      Moves(tb0, tb, levels, width, n, lvl, idx, m, Leaving(k, low, high, out), r.0, r.1)
  {
    hide Within, Rectangular, PairRoom, RunningInv, SplitInv, LeavingInv, ReturnedInv, LowInv, HighInv, Fits, SameIn,
      Switches, FixCell, Xor;
    StartRooms(tb0, levels, width, n, lvl, idx, |m|);
    WithinCells(tb, levels, width, n, lvl, idx, |m|);
    if k < |low| {
      LeaveKeeps(tb0, tb, levels, width, n, lvl, idx, m, k, low, high, out);
    } else {
      ReturnKeeps(tb0, tb, levels, width, n, lvl, idx, m, low, high, out);
      StaysApart(tb, levels, width, Switches(n, lvl, idx, |m|));
    }
  }

  lemma InvOfSplit(tb0: Tables, tb: Tables, levels: nat, width: nat, n: nat, lvl: nat, idx: nat, m: seq<Block>,
          bottom: Task, top: Task)
    requires Rectangular(tb0, levels, width) && Within(levels, width, n, lvl, idx, |m|) && |m| >= 4
    ensures Inv(tb0, tb, levels, width, n, lvl, idx, m, Split(bottom, top)) <==>
      && Rectangular(tb, levels, width) && Messages0(tb.ot) == Messages0(tb0.ot)
      && Shape(|m| / 2, bottom) && Shape((|m| + 1) / 2, top)
      && SplitInv(tb0, tb, levels, width, n, lvl, idx, m)
      && LowInv(tb0, tb, levels, width, n, lvl, idx, m, bottom)
      && HighInv(tb0, tb, levels, width, n, lvl, idx, m, top)
  {
    hide Within, Rectangular, PairRoom, RunningInv, SplitInv, LeavingInv, ReturnedInv, LowInv, HighInv, Fits, Messages0;
    StartRooms(tb0, levels, width, n, lvl, idx, |m|);
  }

  lemma InvShape(tb0: Tables, tb: Tables, levels: nat, width: nat, n: nat, lvl: nat, idx: nat, m: seq<Block>,
          task: Task)
    requires Rectangular(tb0, levels, width) && Within(levels, width, n, lvl, idx, |m|)
    requires Inv(tb0, tb, levels, width, n, lvl, idx, m, task)
    ensures Rectangular(tb, levels, width) && Messages0(tb.ot) == Messages0(tb0.ot) && Shape(|m|, task)
  {
    hide Within, Rectangular, PairRoom, RunningInv, SplitInv, LeavingInv, ReturnedInv, LowInv, HighInv, Fits, Messages0;
  }

  /** A move of the upper half is a move of the call. */
  lemma HighMoved(tb0: Tables, tb: Tables, tb': Tables, levels: nat, width: nat, n: nat, lvl: nat, idx: nat,
          m: seq<Block>, hi: seq<Block>, bottom: Task, top: Task, top': Task)
    requires Rectangular(tb0, levels, width) && Within(levels, width, n, lvl, idx, |m|) && Fits(n, |m|) && |m| >= 4
    requires Inv(tb0, tb, levels, width, n, lvl, idx, m, Split(bottom, top)) && !top.Returned?
    requires lvl < |Messages0(tb0.ot)| && idx + |m| / 2 <= |Messages0(tb0.ot)[lvl]|
    requires hi == HighIn(Messages0(tb0.ot), lvl, idx, m)
    requires n >= 2 && Fits(n - 1, |hi|) && Within(levels, width, n - 1, lvl + 1, idx + |m| / 4, |hi|)
    requires Shape(|hi|, top)
    requires Moves(tb0, tb, levels, width, n - 1, lvl + 1, idx + |m| / 4, hi, top, tb', top')
    ensures Shape(|m|, Split(bottom, top))
    ensures Moves(tb0, tb, levels, width, n, lvl, idx, m, Split(bottom, top), tb', Split(bottom, top'))
  {
    hide Within, Rectangular, Inv, SplitInv, LowInv, HighInv, Fits, Switches, HighIn, Apart, Cost, Messages0;
    InvOfSplit(tb0, tb, levels, width, n, lvl, idx, m, bottom, top);
    InvOfSplit(tb0, tb', levels, width, n, lvl, idx, m, bottom, top');
    HighMoves(tb0, tb, tb', levels, width, n, lvl, idx, m, bottom);
    HighInvIs(tb0, tb', levels, width, n, lvl, idx, m, top');
    InvShape(tb0, tb', levels, width, n - 1, lvl + 1, idx + |m| / 4, hi, top');
  }

  /** A move of the lower half is a move of the call. */
  lemma LowMoved(tb0: Tables, tb: Tables, tb': Tables, levels: nat, width: nat, n: nat, lvl: nat, idx: nat,
          m: seq<Block>, lo: seq<Block>, bottom: Task, bottom': Task, top: Task)
    requires Rectangular(tb0, levels, width) && Within(levels, width, n, lvl, idx, |m|) && Fits(n, |m|) && |m| >= 4
    requires Inv(tb0, tb, levels, width, n, lvl, idx, m, Split(bottom, top)) && !bottom.Returned?
    requires lvl < |Messages0(tb0.ot)| && idx + |m| / 2 <= |Messages0(tb0.ot)[lvl]|
    requires lo == LowIn(Messages0(tb0.ot), lvl, idx, m)
    requires n >= 2 && Fits(n - 1, |lo|) && Within(levels, width, n - 1, lvl + 1, idx, |lo|) && Shape(|lo|, bottom)
    requires Moves(tb0, tb, levels, width, n - 1, lvl + 1, idx, lo, bottom, tb', bottom')
    ensures Shape(|m|, Split(bottom, top))
    ensures Moves(tb0, tb, levels, width, n, lvl, idx, m, Split(bottom, top), tb', Split(bottom', top))
  {
    hide Within, Rectangular, Inv, SplitInv, LowInv, HighInv, Fits, Switches, LowIn, Apart, Cost, Messages0;
    InvOfSplit(tb0, tb, levels, width, n, lvl, idx, m, bottom, top);
    InvOfSplit(tb0, tb', levels, width, n, lvl, idx, m, bottom', top);
    LowMoves(tb0, tb, tb', levels, width, n, lvl, idx, m, top);
    LowInvIs(tb0, tb', levels, width, n, lvl, idx, m, bottom');
    InvShape(tb0, tb', levels, width, n - 1, lvl + 1, idx, lo, bottom');
  }

  lemma JoinMoves(tb0: Tables, tb: Tables, levels: nat, width: nat, n: nat, lvl: nat, idx: nat, m: seq<Block>,
          low: seq<Block>, high: seq<Block>)
    requires Rectangular(tb0, levels, width) && Within(levels, width, n, lvl, idx, |m|) && Fits(n, |m|) && |m| >= 4
    requires Inv(tb0, tb, levels, width, n, lvl, idx, m, Split(Returned(low), Returned(high)))
    ensures Shape(|m|, Split(Returned(low), Returned(high)))
    ensures Moves(tb0, tb, levels, width, n, lvl, idx, m, Split(Returned(low), Returned(high)), tb,
        Leaving(0, low, high, []))
  {
    hide Within, Rectangular, SplitInv, LowInv, HighInv, Fits, Switches, Apart, LeavingInv, PairRoom, Messages0;
    StartRooms(tb0, levels, width, n, lvl, idx, |m|);
    InvOfSplit(tb0, tb, levels, width, n, lvl, idx, m, Returned(low), Returned(high));
    assert |low| == |m| / 2 && |high| == (|m| + 1) / 2;
    JoinKeeps(tb0, tb, levels, width, n, lvl, idx, m, low, high);
    StaysApart(tb, levels, width, Switches(n, lvl, idx, |m|));
  }

  lemma StepOfSplit(tb: Tables, levels: nat, width: nat, n: nat, lvl: nat, idx: nat, values: nat, bottom: Task,
          top: Task, who: seq<bool>, rest: seq<bool>)
    requires Rectangular(tb, levels, width) && Within(levels, width, n, lvl, idx, values) && values >= 4
    requires Shape(values / 2, bottom) && Shape((values + 1) / 2, top) && rest == if who == [] then [] else who[1..]
    ensures n >= 2 && Within(levels, width, n - 1, lvl + 1, idx, values / 2)
    ensures Within(levels, width, n - 1, lvl + 1, idx + values / 4, (values + 1) / 2)
    ensures var r := Step(tb, levels, width, n, lvl, idx, values, Split(bottom, top), who);
      if bottom.Returned? && top.Returned? then
        r == (tb, Leaving(0, bottom.src, top.src, []))
      else if PicksTop(who, bottom, top) then
        var s := Step(tb, levels, width, n - 1, lvl + 1, idx + values / 4, (values + 1) / 2, top, rest);
        r == (s.0, Split(bottom, s.1))
      else
        var s := Step(tb, levels, width, n - 1, lvl + 1, idx, values / 2, bottom, rest);
        r == (s.0, Split(s.1, top))
  {
    hide Within, Rectangular, Shape;
    SubWithin(levels, width, n, lvl, idx, values);
  }

  lemma {:induction false} SplitMoves(tb0: Tables, tb: Tables, levels: nat, width: nat, n: nat, lvl: nat, idx: nat,
          m: seq<Block>, bottom: Task, top: Task, who: seq<bool>)
    requires Rectangular(tb0, levels, width) && Within(levels, width, n, lvl, idx, |m|) && Fits(n, |m|) && |m| >= 4
    requires Inv(tb0, tb, levels, width, n, lvl, idx, m, Split(bottom, top))
    ensures Rectangular(tb, levels, width) && Shape(|m|, Split(bottom, top))
    ensures var r := Step(tb, levels, width, n, lvl, idx, |m|, Split(bottom, top), who);
      Moves(tb0, tb, levels, width, n, lvl, idx, m, Split(bottom, top), r.0, r.1)
    decreases Split(bottom, top), 0
  {
    hide Within, Rectangular, Inv, Moves, LowInv, HighInv, Fits, Switches, LowIn, HighIn, Messages0, SplitInv, Step;
    InvOfSplit(tb0, tb, levels, width, n, lvl, idx, m, bottom, top);
    LowInvIs(tb0, tb, levels, width, n, lvl, idx, m, bottom);
    HighInvIs(tb0, tb, levels, width, n, lvl, idx, m, top);
    var rest := if who == [] then [] else who[1..];
    StepOfSplit(tb, levels, width, n, lvl, idx, |m|, bottom, top, who, rest);
    if bottom.Returned? && top.Returned? {
      JoinMoves(tb0, tb, levels, width, n, lvl, idx, m, bottom.src, top.src);
    } else if PicksTop(who, bottom, top) {
      var hi := HighIn(Messages0(tb0.ot), lvl, idx, m);
      var r := Step(tb, levels, width, n - 1, lvl + 1, idx + |m| / 4, |hi|, top, rest);
      StepKeeps(tb0, tb, levels, width, n - 1, lvl + 1, idx + |m| / 4, hi, top, rest);
      HighMoved(tb0, tb, r.0, levels, width, n, lvl, idx, m, hi, bottom, top, r.1);
    } else {
      var lo := LowIn(Messages0(tb0.ot), lvl, idx, m);
      var r := Step(tb, levels, width, n - 1, lvl + 1, idx, |lo|, bottom, rest);
      StepKeeps(tb0, tb, levels, width, n - 1, lvl + 1, idx, lo, bottom, rest);
      LowMoved(tb0, tb, r.0, levels, width, n, lvl, idx, m, lo, bottom, r.1, top);
    }
  }

  /** A whole run: one step for every word of the schedule. */
  ghost function Run(tb: Tables, levels: nat, width: nat, n: nat, lvl: nat, idx: nat, values: nat, task: Task,
          schedule: seq<seq<bool>>): (Tables, Task)
    requires Rectangular(tb, levels, width) && Within(levels, width, n, lvl, idx, values) && Shape(values, task)
    decreases |schedule|
  {
    hide Step, Rectangular, Within, Shape;
    if schedule == [] then (tb, task)
    else
      var r := Step(tb, levels, width, n, lvl, idx, values, task, schedule[0]);
      Run(r.0, levels, width, n, lvl, idx, values, r.1, schedule[1..])
  }

  lemma {:induction false} RunKeeps(tb0: Tables, tb: Tables, levels: nat, width: nat, n: nat, lvl: nat, idx: nat,
          m: seq<Block>, task: Task, schedule: seq<seq<bool>>)
    requires Rectangular(tb0, levels, width) && Within(levels, width, n, lvl, idx, |m|) && Fits(n, |m|)
    requires Inv(tb0, tb, levels, width, n, lvl, idx, m, task)
    requires Rectangular(tb, levels, width) && Shape(|m|, task)
    ensures var r := Run(tb, levels, width, n, lvl, idx, |m|, task, schedule);
      && Apart(tb, r.0, levels, width, Switches(n, lvl, idx, |m|))
      && Inv(tb0, r.0, levels, width, n, lvl, idx, m, r.1)
      && (|schedule| >= Remaining(|m|, task) ==> r.1.Returned?)
    decreases |schedule|
  {
    hide Within, Rectangular, Inv, Fits, Switches, Apart, Step, Shape;
    if schedule == [] {
      StaysApart(tb, levels, width, Switches(n, lvl, idx, |m|));
      NothingRemains(|m|, task);
    } else {
      var r := Step(tb, levels, width, n, lvl, idx, |m|, task, schedule[0]);
      StepKeeps(tb0, tb, levels, width, n, lvl, idx, m, task, schedule[0]);
      ReturnedStays(tb, levels, width, n, lvl, idx, |m|, task, schedule[0]);
      RunKeeps(tb0, r.0, levels, width, n, lvl, idx, m, r.1, schedule[1..]);
      ApartThen(tb, r.0, Run(r.0, levels, width, n, lvl, idx, |m|, r.1, schedule[1..]).0, levels, width,
        Switches(n, lvl, idx, |m|));
    }
  }

  lemma ReturnedStays(tb: Tables, levels: nat, width: nat, n: nat, lvl: nat, idx: nat, values: nat, task: Task,
          who: seq<bool>)
    requires Rectangular(tb, levels, width) && Within(levels, width, n, lvl, idx, values) && Shape(values, task)
    ensures task.Returned? ==> Step(tb, levels, width, n, lvl, idx, values, task, who) == (tb, task)
  {
  }

  lemma NothingRemains(values: nat, task: Task)
    requires Shape(values, task)
    ensures Remaining(values, task) == 0 <==> task.Returned?
  {
  }

  lemma ApartThen(a: Tables, b: Tables, c: Tables, levels: nat, width: nat, region: Region)
    requires Apart(a, b, levels, width, region) && Apart(b, c, levels, width, region)
    ensures Apart(a, c, levels, width, region)
  {
  }

  /** Message 0 of every switch and the incoming masks determine message 1 of every switch. */
  lemma {:induction false} ServedOnce(g: Grid, ot: PairGrid, ot': PairGrid, t: PairGrid, n: nat, lvl: nat, idx: nat,
          m: seq<Block>, l: nat, c: nat)
    requires Rooms(g, ot, t, n, lvl, idx, |m|) && Rooms(g, ot', t, n, lvl, idx, |m|) && Fits(n, |m|)
    requires AllServed(g, ot, t, n, lvl, idx, m) && AllServed(g, ot', t, n, lvl, idx, m)
    requires Used(l, c, n, lvl, idx, |m|)
    ensures l < |ot| && l < |ot'| && c < |ot[l]| && c < |ot'[l]| && ot[l][c] == ot'[l][c]
    decreases |m|
  {
    hide SmallServed, OuterServed, LowServed, HighServed, Rooms, LowIn, HighIn, LowOut, HighOut, LevelServed, Fits,
      AllServed, Evens, Odds, Xor;
    if |m| <= 3 {
      SmallOnce(g, ot, ot', t, n, lvl, idx, m, l, c);
    } else {
      SubRooms(g, ot, t, n, lvl, idx, |m|);
      SubFits(n, |m|);
      ServedParts(g, ot, t, n, lvl, idx, m);
      ServedParts(g, ot', t, n, lvl, idx, m);
      if Used(l, c, n - 1, lvl + 1, idx, |m| / 2) {
        LowServedIs(g, ot, t, n, lvl, idx, m);
        LowServedIs(g, ot', t, n, lvl, idx, m);
        ServedOnce(g, ot, ot', t, n - 1, lvl + 1, idx, LowIn(t, lvl, idx, m), l, c);
      } else if Used(l, c, n - 1, lvl + 1, idx + |m| / 4, (|m| + 1) / 2) {
        HighServedIs(g, ot, t, n, lvl, idx, m);
        HighServedIs(g, ot', t, n, lvl, idx, m);
        ServedOnce(g, ot, ot', t, n - 1, lvl + 1, idx + |m| / 4, HighIn(t, lvl, idx, m), l, c);
      } else {
        OuterParts(g, ot, t, n, lvl, idx, m);
        OuterParts(g, ot', t, n, lvl, idx, m);
        if l == lvl {
          LevelServedAt(g[l], ot[l], t[l], idx, Evens(m), Odds(m), c - idx);
          LevelServedAt(g[l], ot'[l], t[l], idx, Evens(m), Odds(m), c - idx);
        } else {
          LevelServedAt(g[l], ot[l], t[l], idx, LowOut(t, n, lvl, idx, m), HighOut(t, n, lvl, idx, m), c - idx);
          LevelServedAt(g[l], ot'[l], t[l], idx, LowOut(t, n, lvl, idx, m), HighOut(t, n, lvl, idx, m), c - idx);
        }
      }
    }
  }

  lemma SmallOnce(g: Grid, ot: PairGrid, ot': PairGrid, t: PairGrid, n: nat, lvl: nat, idx: nat, m: seq<Block>, l: nat,
          c: nat)
    requires |m| <= 3 && Rooms(g, ot, t, n, lvl, idx, |m|) && Rooms(g, ot', t, n, lvl, idx, |m|) && Fits(n, |m|)
    requires AllServed(g, ot, t, n, lvl, idx, m) && AllServed(g, ot', t, n, lvl, idx, m)
    requires Used(l, c, n, lvl, idx, |m|)
    ensures l < |ot| && l < |ot'| && c < |ot[l]| && c < |ot'[l]| && ot[l][c] == ot'[l][c]
  {
    hide Xor;
    if |m| == 2 {
      TwoWires(n);
    } else {
      ThreeWires(n);
    }
  }

  /** There is only one way for a call to finish. */
  lemma FinishedOnce(tb0: Tables, a: Tables, b: Tables, levels: nat, width: nat, n: nat, lvl: nat, idx: nat,
          m: seq<Block>, outA: seq<Block>, outB: seq<Block>)
    requires Finished(tb0, a, levels, width, n, lvl, idx, m, outA)
    requires Finished(tb0, b, levels, width, n, lvl, idx, m, outB)
    ensures a == b && outA == outB
  {
    hide AllServed, Used, OutMasks, Xor;
    FinishedMeans(tb0, a, levels, width, n, lvl, idx, m, outA);
    FinishedMeans(tb0, b, levels, width, n, lvl, idx, m, outB);
    assert Crossed(a.ot) == Crossed(b.ot);
    forall l: nat, c: nat | l < levels && c < width
      ensures a.ot[l][c] == b.ot[l][c] && a.corr[l][c] == b.corr[l][c]
    {
      if Used(l, c, n, lvl, idx, |m|) {
        ServedOnce(Crossed(a.ot), Messages1(a.ot), Messages1(b.ot), Messages0(tb0.ot), n, lvl, idx, m, l, c);
      }
    }
    forall l: nat | l < levels
      ensures a.ot[l] == b.ot[l] && a.corr[l] == b.corr[l]
    {
    }
  }

  /**
   * Every schedule that is long enough finishes the call, and always with the same tables and the
   * same masks: those of the call that does everything itself, one half after the other.
   */
  lemma AnySchedule(tb0: Tables, levels: nat, width: nat, n: nat, lvl: nat, idx: nat, m: seq<Block>,
          schedule: seq<seq<bool>>)
    requires Rectangular(tb0, levels, width) && Within(levels, width, n, lvl, idx, |m|)
    requires |schedule| >= Cost(|m|)
    ensures var r := Run(tb0, levels, width, n, lvl, idx, |m|, Running(0, m), schedule);
      && r.1.Returned? && Finished(tb0, r.0, levels, width, n, lvl, idx, m, r.1.src)
      && forall tb: Tables, out: seq<Block> :: Finished(tb0, tb, levels, width, n, lvl, idx, m, out) ==>
        tb == r.0 && out == r.1.src
  {
    hide Finished, Run, Inv, Fixed, MessagesSet, OutMasks, PairRoom, Switches, Work, Apart;
    StartRooms(tb0, levels, width, n, lvl, idx, |m|);
    WorkBegins(tb0, levels, width, Switches(n, lvl, idx, |m|));
    FreshInv(tb0, tb0, levels, width, n, lvl, idx, m);
    RunKeeps(tb0, tb0, levels, width, n, lvl, idx, m, Running(0, m), schedule);
    var r := Run(tb0, levels, width, n, lvl, idx, |m|, Running(0, m), schedule);
    ReturnedFinishes(tb0, r.0, levels, width, n, lvl, idx, m, r.1.src);
    forall tb: Tables, out: seq<Block> | Finished(tb0, tb, levels, width, n, lvl, idx, m, out)
      ensures tb == r.0 && out == r.1.src
    {
      FinishedOnce(tb0, tb, r.0, levels, width, n, lvl, idx, m, out, r.1.src);
    }
  }

  lemma WorkBegins(tb: Tables, levels: nat, width: nat, todo: Region)
    requires Rectangular(tb, levels, width)
    ensures Work(tb, tb, levels, width, iset{}, todo)
  {
  }

  lemma ReturnedFinishes(tb0: Tables, tb: Tables, levels: nat, width: nat, n: nat, lvl: nat, idx: nat, m: seq<Block>,
          out: seq<Block>)
    requires Rectangular(tb0, levels, width) && Within(levels, width, n, lvl, idx, |m|) && Fits(n, |m|)
    requires Inv(tb0, tb, levels, width, n, lvl, idx, m, Returned(out))
    requires Apart(tb0, tb, levels, width, Switches(n, lvl, idx, |m|))
    ensures Finished(tb0, tb, levels, width, n, lvl, idx, m, out)
  {
    hide MessagesSet, OutMasks, PairRoom, Switches, Messages0, LowInv, HighInv;
    StartRooms(tb0, levels, width, n, lvl, idx, |m|);
    var all := Switches(n, lvl, idx, |m|);
    forall l: nat, c: nat | l < levels && c < width
      ensures if (l, c) in all then
          tb.ot[l][c].m0 == tb0.ot[l][c].m0 && tb.corr[l][c] == XorPair(tb0.ot[l][c].m1, tb.ot[l][c].m1)
        else
          tb.ot[l][c] == tb0.ot[l][c] && tb.corr[l][c] == tb0.corr[l][c]
    {
      assert tb.ot[l][c] == tb.ot[l][c];
      assert (l, c) in all || (l, c) in Elsewhere(all);
    }
  }
}
