/**
 * The party that holds the inputs (class `OSNReceiver`): it draws the input masks, follows them
 * through the network, and prepares one correction block per switch.
 */
module OsnReceiver {
  import opened Arrays
  import opened Bits
  import opened BenesNetwork
  import opened MaskedNetwork
  import opened CorrectionTables
  import opened FlatTables

  ghost function View(ot: seq<OtPair>, corr: seq<Pair>, levels: nat, width: nat): (tb: Tables)
    requires |ot| == |corr| == Cells(levels, width)
    ensures Rectangular(tb, levels, width)
  {
    Tables(Rows(ot, levels, width), Rows(corr, levels, width))
  }

  class OSNReceiver {
    var size: nat
    var otType: int
    /**
     * `ot_output` and `correction_blocks`: local vectors of `gen_benes_client_osn` that every call
     * of the recursion shares.
     */
    var otOutput: seq<OtPair>
    var corrections: seq<Pair>

    constructor (size: nat, otType: int)
      ensures this.size == size && this.otType == otType
    {
      this.size, this.otType := size, otType;
      otOutput, corrections := [], [];
    }

    /** The block of statements that every switch goes through; `val` is the size of the whole network. */
    method FixSwitch(val: nat, l: nat, c: nat, m0: Block, m1: Block, ghost levels: nat)
      returns (w0: Block, w1: Block)
      requires |otOutput| == |corrections| == Cells(levels, val / 2) && l < levels && c < val / 2
      modifies this`otOutput, this`corrections
      ensures |otOutput| == |old(otOutput)| && |corrections| == |old(corrections)|
      ensures View(otOutput, corrections, levels, val / 2) ==
          FixCell(old(View(otOutput, corrections, levels, val / 2)), l, c, m0, m1)
      ensures var e := old(View(otOutput, corrections, levels, val / 2)).ot[l][c];
        w0 == Xor(e.m0.a, m0) && w1 == Xor(e.m0.b, m1)
    {
      hide Xor;
      CellIndex(l, c, levels, val / 2);
      var baseIdx := l * (val / 2) + c;
      var pair0, pair1 := otOutput[baseIdx].m0, otOutput[baseIdx].m1;
      w0 := Xor(pair0.a, m0);
      w1 := Xor(pair0.b, m1);
      var corr0 := Xor(Xor(pair1.a, m0), w1);
      var corr1 := Xor(Xor(pair1.b, m1), w0);
      RowsPut(otOutput, levels, val / 2, l, c, OtPair(pair0, Pair(Xor(m0, w1), Xor(m1, w0))));
      RowsPut(corrections, levels, val / 2, l, c, Pair(corr0, corr1));
      hide Rows;
      corrections := corrections[baseIdx := Pair(corr0, corr1)];
      otOutput := otOutput[baseIdx := OtPair(pair0, Pair(Xor(m0, w1), Xor(m1, w0)))];
    }

    /** The input level: fixes its switches and hands each half its masks. */
    method FixInputs(val: nat, n: nat, lvl: nat, idx: nat, src: array<Block>, ghost levels: nat)
      returns (bottom1: seq<Block>, top1: seq<Block>)
      requires |otOutput| == |corrections| == Cells(levels, val / 2)
      requires src.Length >= 4 && Within(levels, val / 2, n, lvl, idx, src.Length)
      modifies src, this`otOutput, this`corrections
      ensures |otOutput| == |old(otOutput)| && |corrections| == |old(corrections)|
      ensures var tb0, tb, m := old(View(otOutput, corrections, levels, val / 2)),
          View(otOutput, corrections, levels, val / 2), old(src[..]);
        var t := Messages0(tb0.ot);
        && Fixed(tb0, tb, levels, val / 2, Row(lvl, idx, |m| / 2))
        && LevelSet(tb, t, lvl, idx, Evens(m), Odds(m), |m| / 2)
        && bottom1 == LowIn(t, lvl, idx, m) && top1 == HighIn(t, lvl, idx, m)
    {
      hide Fixed, LevelSet, FixCell, Xor, View, LowIn, HighIn, Evens, Odds, Rectangular, Messages0, Cells, Within;
      ghost var width, m := val / 2, src[..];
      ghost var tb0 := View(otOutput, corrections, levels, width);
      ghost var t := Messages0(tb0.ot);
      WithinBounds(levels, width, n, lvl, idx, |m|);
      LevelBegin(tb0, t, levels, width, lvl, idx, Evens(m), Odds(m));
      ghost var low, high := LowIn(t, lvl, idx, m), HighIn(t, lvl, idx, m);
      bottom1, top1 := [], [];
      var i := 0;
      ghost var k := 0;
      ghost var tb := tb0;
      while i < src.Length - 1
        invariant i == 2 * k && i <= src.Length
        invariant |otOutput| == |old(otOutput)| && |corrections| == |old(corrections)|
        invariant forall j :: i <= j < src.Length ==> src[j] == m[j]
        invariant tb == View(otOutput, corrections, levels, width)
        invariant Fixed(tb0, tb, levels, width, Row(lvl, idx, k)) && LevelSet(tb, t, lvl, idx, Evens(m), Odds(m), k)
        invariant bottom1 == low[..k] && top1 == high[..k]
      {
        assert i / 2 == k;
        MasksEnter(t, lvl, idx, m, k);
        LevelStep(tb0, tb, t, levels, width, lvl, idx, Evens(m), Odds(m), k);
        var w0, w1 := FixSwitch(val, lvl, idx + i / 2, src[i], src[i + 1], levels);
        tb := View(otOutput, corrections, levels, width);
        src[i] := w0;
        src[i + 1] := w1;
        bottom1 := bottom1 + [src[i]];
        top1 := top1 + [src[i + 1]];
        i, k := i + 2, k + 1;
      }
      if src.Length % 2 == 1 {
        UnpairedMask(t, lvl, idx, m);
        top1 := top1 + [src[src.Length - 1]];
      }
    }

    /** The output level: fixes its switches, whose wires come from the two halves. */
    method FixOutputs(val: nat, n: nat, l: nat, idx: nat, bottom1: seq<Block>, top1: seq<Block>, src: array<Block>,
            ghost levels: nat)
      requires |otOutput| == |corrections| == Cells(levels, val / 2)
      requires src.Length == |bottom1| + |top1| && |bottom1| <= |top1| <= |bottom1| + 1
      requires l < levels && idx + |bottom1| <= val / 2
      modifies src, this`otOutput, this`corrections
      ensures |otOutput| == |old(otOutput)| && |corrections| == |old(corrections)|
      ensures var tb0, tb := old(View(otOutput, corrections, levels, val / 2)),
          View(otOutput, corrections, levels, val / 2);
        var t := Messages0(tb0.ot);
        && Fixed(tb0, tb, levels, val / 2, Row(l, idx, |bottom1|))
        && LevelSet(tb, t, l, idx, bottom1, top1, |bottom1|)
        && src[..] == ApplyLevel(t[l], idx, Zip(bottom1, top1))
    {
      hide Fixed, LevelSet, FixCell, Xor, View, ApplyLevel, Zip, Rectangular, Messages0, Cells;
      ghost var width := val / 2;
      ghost var tb0 := View(otOutput, corrections, levels, width);
      ghost var t := Messages0(tb0.ot);
      LevelBegin(tb0, t, levels, width, l, idx, bottom1, top1);
      ghost var out := ApplyLevel(t[l], idx, Zip(bottom1, top1));
      var i := 0;
      ghost var k := 0;
      ghost var tb := tb0;
      while i < src.Length - 1
        invariant i == 2 * k && i <= src.Length
        invariant |otOutput| == |old(otOutput)| && |corrections| == |old(corrections)|
        invariant forall j :: 0 <= j < i ==> src[j] == out[j]
        invariant tb == View(otOutput, corrections, levels, width)
        invariant Fixed(tb0, tb, levels, width, Row(l, idx, k)) && LevelSet(tb, t, l, idx, bottom1, top1, k)
      {
        assert i / 2 == k;
        MasksLeave(t, l, idx, bottom1, top1, k);
        LevelStep(tb0, tb, t, levels, width, l, idx, bottom1, top1, k);
        var w0, w1 := FixSwitch(val, l, idx + i / 2, bottom1[i / 2], top1[i / 2], levels);
        tb := View(otOutput, corrections, levels, width);
        src[i] := w0;
        src[i + 1] := w1;
        i, k := i + 2, k + 1;
      }
      if src.Length % 2 == 1 {
        UnpairedLeaves(t, l, idx, bottom1, top1);
        src[src.Length - 1] := top1[(src.Length + 1) / 2 - 1];
      }
    }

    /** The two- and three-wire networks. */
    method PrepareSmall(val: nat, n: nat, lvl: nat, idx: nat, src: array<Block>, ghost levels: nat)
      requires |otOutput| == |corrections| == Cells(levels, val / 2)
      requires src.Length <= 3 && Within(levels, val / 2, n, lvl, idx, src.Length)
      modifies src, this`otOutput, this`corrections
      ensures |otOutput| == |old(otOutput)| && |corrections| == |old(corrections)|
      ensures Finished(old(View(otOutput, corrections, levels, val / 2)), View(otOutput, corrections, levels, val / 2),
                       levels, val / 2, n, lvl, idx, old(src[..]), src[..])
    {
      hide Finished, Fixed, Rectangular, FixCell, Xor, View, Within, Row, Messages0, Switches, Used, Cells, Fits;
      WithinBounds(levels, val / 2, n, lvl, idx, src.Length);
      ghost var width, m, tb0 := val / 2, src[..], View(otOutput, corrections, levels, val / 2);
      if src.Length == 2 {
        TwoWires(n);
        TwoFinish(tb0, levels, width, n, lvl, idx, m);
        var l := if n == 1 then lvl else lvl + 1;
        var w0, w1 := FixSwitch(val, l, idx, src[0], src[1], levels);
        src[0], src[1] := w0, w1;
      } else {
        FitsAtLeastTwo(n, src.Length);
        ThreeWires(n);
        ThreeFinish(tb0, levels, width, n, lvl, idx, m);
        var w0, w1 := FixSwitch(val, lvl, idx, src[0], src[1], levels);
        src[0], src[1] := w0, w1;
        w0, w1 := FixSwitch(val, lvl + 1, idx, src[1], src[2], levels);
        src[1], src[2] := w0, w1;
        w0, w1 := FixSwitch(val, lvl + 2, idx, src[0], src[1], levels);
        src[0], src[1] := w0, w1;
      }
    }

    /**
     * `prepare_correction` as it runs on one thread: upper half first, then lower half. It leaves
     * message 1 and a correction block for every switch, and the output masks in `src`.
     */
    method PrepareCorrection(val: nat, n: nat, lvl: nat, idx: nat, src: array<Block>, ghost levels: nat)
      requires |otOutput| == |corrections| == Cells(levels, val / 2)
      requires Within(levels, val / 2, n, lvl, idx, src.Length)
      modifies src, this`otOutput, this`corrections
      ensures |otOutput| == |old(otOutput)| && |corrections| == |old(corrections)|
      ensures Finished(old(View(otOutput, corrections, levels, val / 2)), View(otOutput, corrections, levels, val / 2),
                       levels, val / 2, n, lvl, idx, old(src[..]), src[..])
      decreases src.Length
    {
      hide *;
      ghost var width, values, m := val / 2, src.Length, src[..];
      ghost var tb0 := View(otOutput, corrections, levels, width);
      if src.Length == 2 || src.Length == 3 {
        PrepareSmall(val, n, lvl, idx, src, levels);
        return;
      }
      WithinBounds(levels, width, n, lvl, idx, values);
      FitsAtLeastTwo(n, values);
      SubWithin(levels, width, n, lvl, idx, values);
      ghost var t := Messages0(tb0.ot);
      var bottom1, top1 := FixInputs(val, n, lvl, idx, src, levels);
      ghost var tbA := View(otOutput, corrections, levels, width);
      var top := ArrayOf(top1);
      PrepareCorrection(val, n - 1, lvl + 1, idx + src.Length / 4, top, levels);
      ghost var tbB := View(otOutput, corrections, levels, width);
      var bottom := ArrayOf(bottom1);
      PrepareCorrection(val, n - 1, lvl + 1, idx, bottom, levels);
      ghost var tbC := View(otOutput, corrections, levels, width);
      FixOutputs(val, n, lvl + 2 * n - 2, idx, bottom[..], top[..], src, levels);
      ghost var tbD := View(otOutput, corrections, levels, width);
      MessagesThroughout(tb0, tbA, tbB, tbC, levels, width, n, lvl, idx, values, m, bottom1, top1, bottom[..], top[..]);
      StagesFinish(tb0, tbA, tbB, tbC, tbD, t, levels, width, n, lvl, idx, m, bottom1, top1, bottom[..], top[..]);
    }

    /** `run_osn`: sends the inputs under the input masks and keeps the output masks as its share. */
    method RunOsn(inputs: seq<Block>, draws: seq<Block>, randomOt: seq<Pair>, bitCorrection: seq<Bit>,
            aes: Block -> Block)
      returns (benesInput: seq<Block>, outputMasks: seq<Block>)
      requires size >= 2 && |inputs| == |draws| == size
      requires |randomOt| == |bitCorrection| == Cells(2 * CeilLog2(size) - 1, size / 2)
      modifies this`otOutput, this`corrections
      ensures size == old(size) && otType == old(otType)
      ensures |benesInput| == size && forall i :: 0 <= i < size ==> benesInput[i] == Xor(draws[i], inputs[i])
      ensures |corrections| == |otOutput| == |randomOt|
      ensures var levels, width := 2 * CeilLog2(size) - 1, size / 2;
        Finished(View(Expanded(randomOt, otType, bitCorrection, aes), NoCorrections(|randomOt|), levels, width),
                 View(otOutput, corrections, levels, width),
                 levels, width, CeilLog2(size), 0, 0, draws, outputMasks)
    {
      hide *;
      var inputMasks;
      inputMasks, outputMasks := GenBenesClientOsn(size, draws, randomOt, bitCorrection, aes);
      benesInput := [];
      for i := 0 to size
        invariant |benesInput| == i
        invariant forall j :: 0 <= j < i ==> benesInput[j] == Xor(draws[j], inputs[j])
      {
        benesInput := benesInput + [Xor(inputMasks[i], inputs[i])];
      }
    }

    /**
     * `gen_benes_client_osn`: `draws` are the random input masks, `randomOt` the random messages of
     * the oblivious transfers, `bitCorrection` what the other party sends when `otType` is 0, and
     * `aes` the fixed-key block function. Returns the masks before and after the network.
     */
    method GenBenesClientOsn(values: nat, draws: seq<Block>, randomOt: seq<Pair>, bitCorrection: seq<Bit>,
            aes: Block -> Block)
      returns (inputMasks: seq<Block>, outputMasks: seq<Block>)
      requires values >= 2 && |draws| == values
      requires |randomOt| == |bitCorrection| == Cells(2 * CeilLog2(values) - 1, values / 2)
      modifies this`otOutput, this`corrections
      ensures size == old(size) && otType == old(otType)
      ensures inputMasks == draws
      ensures |corrections| == |otOutput| == |randomOt|
      ensures var levels, width := 2 * CeilLog2(values) - 1, values / 2;
        Finished(View(Expanded(randomOt, otType, bitCorrection, aes), NoCorrections(|randomOt|), levels, width),
                 View(otOutput, corrections, levels, width),
                 levels, width, CeilLog2(values), 0, 0, draws, outputMasks)
      ensures forall k :: 0 <= k < |otOutput| ==>
        && otOutput[k].m0.a == (if otType == 0 && bitCorrection[k] == 1 then randomOt[k].b else randomOt[k].a)
        && otOutput[k].m0.b == aes(otOutput[k].m0.a)
    {
      hide *;
      var n := CeilLog2(values);
      var levels := 2 * n - 1;
      var messages := randomOt;
      if otType == 0 {
        messages := SwapMessages(randomOt, bitCorrection);
      }
      otOutput := ExpandMessages(messages, aes);
      assert otOutput == Expanded(randomOt, otType, bitCorrection, aes) by {
        ExpandedIs(randomOt, otType, bitCorrection, aes, messages, otOutput);
      }
      corrections := NoCorrections(|randomOt|);
      var src := ArrayOf(draws);
      TopWithin(values);
      PrepareCorrection(values, n, 0, 0, src, levels);
      inputMasks, outputMasks := draws, src[..];
      ghost var expanded := Expanded(randomOt, otType, bitCorrection, aes);
      forall k: nat | k < |otOutput|
        ensures otOutput[k].m0.a == (if otType == 0 && bitCorrection[k] == 1 then randomOt[k].b else randomOt[k].a)
        ensures otOutput[k].m0.b == aes(otOutput[k].m0.a)
      {
        MessageStays(expanded, NoCorrections(|randomOt|), otOutput, corrections, levels, values / 2, n, draws,
          outputMasks, k);
        ExpandedAt(randomOt, otType, bitCorrection, aes, k);
      }
    }
  }

  /** `correction_blocks` before any is computed. */
  function NoCorrections(count: nat): (r: seq<Pair>)
    ensures |r| == count
  {
    seq(count, _ => Pair({}, {}))
  }

  /** A pair as the correction bit orders it. */
  function Ordered(p: Pair, swap: bool): Pair {
    if swap then Pair(p.b, p.a) else p
  }

  /** Each random block with its image under `aes` is one message of a switch. */
  function Expand(p: Pair, aes: Block -> Block): OtPair {
    OtPair(Pair(p.a, aes(p.a)), Pair(p.b, aes(p.b)))
  }

  function Expanded(randomOt: seq<Pair>, otType: int, bitCorrection: seq<Bit>, aes: Block -> Block): (r: seq<OtPair>)
    requires |bitCorrection| == |randomOt|
    ensures |r| == |randomOt|
  {
    seq(|randomOt|, k requires 0 <= k < |randomOt| => Expand(Ordered(randomOt[k], otType == 0 &&
      bitCorrection[k] == 1), aes))
  }

  lemma ExpandedIs(randomOt: seq<Pair>, otType: int, bitCorrection: seq<Bit>, aes: Block -> Block, messages: seq<Pair>,
          ot: seq<OtPair>)
    requires |bitCorrection| == |randomOt| == |messages| == |ot|
    requires if otType == 0 then forall k :: 0 <= k < |messages| ==>
        messages[k] == Ordered(randomOt[k], bitCorrection[k] == 1)
             else messages == randomOt
    requires forall k :: 0 <= k < |ot| ==> ot[k] == Expand(messages[k], aes)
    ensures ot == Expanded(randomOt, otType, bitCorrection, aes)
  {
  }

  /** Message 0 of a switch: the string that the correction bit puts first, and its image under `aes`. */
  lemma ExpandedAt(randomOt: seq<Pair>, otType: int, bitCorrection: seq<Bit>, aes: Block -> Block, k: nat)
    requires |bitCorrection| == |randomOt| && k < |randomOt|
    ensures var first := if otType == 0 && bitCorrection[k] == 1 then randomOt[k].b else randomOt[k].a;
      Expanded(randomOt, otType, bitCorrection, aes)[k].m0 == Pair(first, aes(first))
  {
  }

  /** A finished call has message 0 of every switch as it was. */
  lemma MessageStays(before: seq<OtPair>, corr0: seq<Pair>, after: seq<OtPair>, corr: seq<Pair>, levels: nat,
          width: nat, n: nat, m: seq<Block>, out: seq<Block>, k: nat)
    requires |before| == |corr0| == |after| == |corr| == Cells(levels, width) && k < |before|
    requires Finished(View(before, corr0, levels, width), View(after, corr, levels, width), levels, width, n, 0, 0, m,
        out)
    ensures after[k].m0 == before[k].m0
  {
    hide Finished, Rows, Messages0;
    CellOf(k, levels, width);
    var l, c := k / width, k % width;
    FinishedKeeps(View(before, corr0, levels, width), View(after, corr, levels, width), levels, width, n, m, out);
    RowsAt(before, levels, width, l, c);
    RowsAt(after, levels, width, l, c);
    SameMessage0(Rows(before, levels, width), Rows(after, levels, width), l, c);
  }

  lemma FinishedKeeps(tb0: Tables, tb: Tables, levels: nat, width: nat, n: nat, m: seq<Block>, out: seq<Block>)
    requires Finished(tb0, tb, levels, width, n, 0, 0, m, out)
    ensures Messages0(tb.ot) == Messages0(tb0.ot)
  {
    hide Switches, MessagesSet, PairRoom, OutMasks, Fixed, Rectangular, Messages0;
    FixedKeepsMessages0(tb0, tb, levels, width, Switches(n, 0, 0, |m|));
  }

  lemma SameMessage0(a: OtGrid, b: OtGrid, l: nat, c: nat)
    requires Messages0(a) == Messages0(b) && l < |a| && c < |a[l]| && l < |b| && c < |b[l]|
    ensures a[l][c].m0 == b[l][c].m0
  {
    assert Messages0(a)[l][c] == Messages0(b)[l][c];
  }

  lemma CellOf(k: nat, levels: nat, width: nat)
    requires k < Cells(levels, width)
    ensures width > 0 && k / width < levels && k % width < width && k == (k / width) * width + k % width
  {
    if width > 0 {
      Quotient(k, width);
      ProductMono(levels, k / width, width);
    }
  }

  lemma Quotient(k: nat, width: nat)
    requires width > 0
    ensures k == (k / width) * width + k % width
  {
  }

  method SwapMessages(randomOt: seq<Pair>, bitCorrection: seq<Bit>) returns (messages: seq<Pair>)
    requires |bitCorrection| == |randomOt|
    ensures |messages| == |randomOt|
    ensures forall k :: 0 <= k < |messages| ==> messages[k] == Ordered(randomOt[k], bitCorrection[k] == 1)
  {
    messages := randomOt;
    for k := 0 to |randomOt|
      invariant |messages| == |randomOt|
      invariant forall j :: 0 <= j < |messages| ==>
          messages[j] == if j < k then Ordered(randomOt[j], bitCorrection[j] == 1) else randomOt[j]
    {
      if bitCorrection[k] == 1 {
        messages := messages[k := Pair(messages[k].b, messages[k].a)];
      }
    }
  }

  method ExpandMessages(messages: seq<Pair>, aes: Block -> Block) returns (ot: seq<OtPair>)
    ensures |ot| == |messages|
    ensures forall k :: 0 <= k < |ot| ==> ot[k] == Expand(messages[k], aes)
  {
    ot := [];
    for k := 0 to |messages|
      invariant |ot| == k
      invariant forall j :: 0 <= j < k ==> ot[j] == Expand(messages[j], aes)
    {
      ot := ot + [Expand(messages[k], aes)];
    }
  }

  lemma TopWithin(values: nat)
    requires values >= 2
    ensures Within(2 * CeilLog2(values) - 1, values / 2, CeilLog2(values), 0, 0, values)
  {
  }

  lemma WithinBounds(levels: nat, width: nat, n: nat, lvl: nat, idx: nat, values: nat)
    requires Within(levels, width, n, lvl, idx, values)
    ensures Fits(n, values) && lvl + 2 * n - 2 < levels && idx + values / 2 <= width
    ensures lvl < levels
  {
  }

  lemma FitsAtLeastTwo(n: nat, values: nat)
    requires Fits(n, values)
    ensures n >= 1 && values >= 2
  {
  }

  /** Message 0 of every switch stays what it was, so all stages read the same ones. */
  lemma MessagesThroughout(tb0: Tables, tbA: Tables, tbB: Tables, tbC: Tables, levels: nat, width: nat,
                           n: nat, lvl: nat, idx: nat, values: nat, m: seq<Block>,
                           low: seq<Block>, high: seq<Block>, lowOut: seq<Block>, highOut: seq<Block>)
    requires values == |m| >= 4 && n >= 2 && Within(levels, width, n, lvl, idx, values)
    requires Rectangular(tb0, levels, width)
    requires Fixed(tb0, tbA, levels, width, Row(lvl, idx, values / 2))
    requires Finished(tbA, tbB, levels, width, n - 1, lvl + 1, idx + values / 4, high, highOut)
    requires Finished(tbB, tbC, levels, width, n - 1, lvl + 1, idx, low, lowOut)
    ensures Messages0(tbC.ot) == Messages0(tb0.ot)
    ensures var t := Messages0(tb0.ot);
      && lvl + 2 * n - 2 < |t| && idx + values / 2 <= |t[lvl]| && idx + values / 2 <= |t[lvl + 2 * n - 2]|
  {
    hide Finished, Fixed, OutMasks, AllServed;
    FixedKeepsMessages0(tb0, tbA, levels, width, Row(lvl, idx, values / 2));
    FinishedMeans(tbA, tbB, levels, width, n - 1, lvl + 1, idx + values / 4, high, highOut);
    FinishedMeans(tbB, tbC, levels, width, n - 1, lvl + 1, idx, low, lowOut);
  }

  lemma MasksEnter(t: PairGrid, lvl: nat, idx: nat, m: seq<Block>, k: nat)
    requires lvl < |t| && idx + |m| / 2 <= |t[lvl]| && k < |m| / 2
    ensures LowIn(t, lvl, idx, m)[k] == Xor(m[2 * k], t[lvl][idx + k].a)
    ensures HighIn(t, lvl, idx, m)[k] == Xor(m[2 * k + 1], t[lvl][idx + k].b)
    ensures Evens(m)[k] == m[2 * k] && Odds(m)[k] == m[2 * k + 1]
  {
  }

  lemma UnpairedMask(t: PairGrid, lvl: nat, idx: nat, m: seq<Block>)
    requires lvl < |t| && idx + |m| / 2 <= |t[lvl]| && |m| % 2 == 1
    ensures HighIn(t, lvl, idx, m)[|m| / 2] == m[|m| - 1]
  {
  }

  lemma MasksLeave(t: PairGrid, l: nat, idx: nat, bottom: seq<Block>, top: seq<Block>, k: nat)
    requires |bottom| <= |top| <= |bottom| + 1 && l < |t| && idx + |bottom| <= |t[l]| && k < |bottom|
    ensures var out := ApplyLevel(t[l], idx, Zip(bottom, top));
      out[2 * k] == Xor(bottom[k], t[l][idx + k].a) && out[2 * k + 1] == Xor(top[k], t[l][idx + k].b)
  {
  }

  lemma UnpairedLeaves(t: PairGrid, l: nat, idx: nat, bottom: seq<Block>, top: seq<Block>)
    requires |top| == |bottom| + 1 && l < |t| && idx + |bottom| <= |t[l]|
    ensures ApplyLevel(t[l], idx, Zip(bottom, top))[2 * |bottom|] == top[|bottom|]
  {
  }
}
