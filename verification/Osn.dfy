/**
 * Both parties together. The oblivious transfers are ideal: for every switch the permutation's
 * holder learns the random message that its choice bit names.
 */
module Osn {
  import opened Bits
  import opened BenesNetwork
  import opened BenesSplit
  import opened FlatTables
  import opened MaskedNetwork
  import opened CorrectionTables
  import opened OsnReceiver
  import opened OsnSender
  import opened Shuffles

  /** What the transfers deliver. */
  function Delivered(randomOt: seq<Pair>, choices: seq<Bit>): (r: seq<Block>)
    requires |choices| == |randomOt|
    ensures |r| == |randomOt|
  {
    seq(|randomOt|, k requires 0 <= k < |randomOt| => if choices[k] == 1 then randomOt[k].b else randomOt[k].a)
  }

  function ChoicesFor(otType: int, switches: seq<Bit>, choices: seq<Bit>): seq<Bit> {
    if otType == 0 then choices else switches
  }

  /** `correction` is the bitwise difference of switches and choices when the choices were random. */
  predicate CorrectsBits(otType: int, switches: seq<Bit>, choices: seq<Bit>, correction: seq<Bit>) {
    |switches| == |choices| == |correction| &&
    (otType == 0 ==> forall k :: 0 <= k < |switches| ==> correction[k] == if switches[k] == choices[k] then 0 else 1)
  }

  /** In both modes the expanded block received for a switch is the message its own bit names. */
  lemma ReceivedIsOwn(k: nat, otType: int, switches: seq<Bit>, choices: seq<Bit>, correction: seq<Bit>,
          randomOt: seq<Pair>, aes: Block -> Block)
    requires CorrectsBits(otType, switches, choices, correction) && |randomOt| == |switches| && k < |switches|
    ensures |ChoicesFor(otType, switches, choices)| == |randomOt|
    ensures var y := Delivered(randomOt, ChoicesFor(otType, switches, choices))[k];
      var e := Expanded(randomOt, otType, correction, aes)[k];
      Pair(y, aes(y)) == if switches[k] == 1 then e.m1 else e.m0
  {
  }

  lemma XorPairUndo(p: Pair, q: Pair)
    ensures XorPair(XorPair(p, q), p) == q
  {
    XorCancels(q.a, p.a, {});
    XorCancels(q.b, p.b, {});
    XorCancels(p.a, q.a, {});
    XorCancels(p.b, q.b, {});
  }

  /** A pair is right once corrected: message 0 for a straight switch, the required message 1 for a set one. */
  lemma CorrectedServes(s: Bit, received: Block, before: OtPair, now: OtPair, correction: Pair, aes: Block -> Block)
    requires Pair(received, aes(received)) == if s == 1 then before.m1 else before.m0
    requires correction == XorPair(before.m1, now.m1) && now.m0 == before.m0
    ensures Carries(1, now.m1, s, CorrectedPair(s, received, correction, aes), before.m0)
  {
    hide Xor;
    XorPairUndo(before.m1, now.m1);
  }

  /**
   * Where the exchange stands before the network is run: every switch's block received, corrected,
   * and the tables complete.
   */
  ghost predicate Exchanged(switches: seq<Bit>, expanded: seq<OtPair>, received: seq<Block>, ot: seq<OtPair>,
          corrections: seq<Pair>, pairs: seq<Pair>,
                            aes: Block -> Block) {
    && |switches| == |expanded| == |received| == |ot| == |corrections| == |pairs|
    && (forall k :: 0 <= k < |switches| ==>
         Pair(received[k], aes(received[k])) == if switches[k] == 1 then expanded[k].m1 else expanded[k].m0)
    && (forall k :: 0 <= k < |switches| ==> pairs[k] == CorrectedPair(switches[k], received[k], corrections[k], aes))
  }

  lemma CellCarries(switches: seq<Bit>, expanded: seq<OtPair>, received: seq<Block>, none: seq<Pair>, ot: seq<OtPair>,
          corrections: seq<Pair>, pairs: seq<Pair>,
                    aes: Block -> Block, levels: nat, width: nat, l: nat, c: nat, region: Region)
    requires Exchanged(switches, expanded, received, ot, corrections, pairs, aes)
    requires |none| == |switches| == Cells(levels, width) && l < levels && c < width && (l, c) in region
    requires Fixed(View(expanded, none, levels, width), View(ot, corrections, levels, width), levels, width, region)
    ensures var tb0, tb := View(expanded, none, levels, width), View(ot, corrections, levels, width);
      CarriesAt(Crossed(tb.ot), Messages1(tb.ot), Rows(switches, levels, width), Rows(pairs, levels, width),
        Messages0(tb0.ot), l, c)
  {
    hide Xor, XorPair, CorrectedPair, Carries, Rows, Cells;
    var tb0, tb := View(expanded, none, levels, width), View(ot, corrections, levels, width);
    var k := l * width + c;
    RowsAt(expanded, levels, width, l, c);
    RowsAt(ot, levels, width, l, c);
    RowsAt(corrections, levels, width, l, c);
    RowsAt(pairs, levels, width, l, c);
    RowsAt(switches, levels, width, l, c);
    assert tb.corr[l][c] == XorPair(tb0.ot[l][c].m1, tb.ot[l][c].m1) && tb.ot[l][c].m0 == tb0.ot[l][c].m0;
    CorrectedServes(switches[k], received[k], expanded[k], ot[k], corrections[k], aes);
  }

  /** Every switch of the network has been served the pair that its bit and its masks call for. */
  lemma PairsServe(switches: seq<Bit>, expanded: seq<OtPair>, received: seq<Block>, none: seq<Pair>, ot: seq<OtPair>,
          corrections: seq<Pair>, pairs: seq<Pair>,
                   aes: Block -> Block, levels: nat, width: nat, n: nat, m: seq<Block>, out: seq<Block>)
    requires Exchanged(switches, expanded, received, ot, corrections, pairs, aes)
    requires |none| == |switches| == Cells(levels, width)
    requires Finished(View(expanded, none, levels, width), View(ot, corrections, levels, width), levels, width, n, 0,
        0, m, out)
    ensures var t := Messages0(View(expanded, none, levels, width).ot);
      && Rooms(Rows(switches, levels, width), Rows(pairs, levels, width), t, n, 0, 0, |m|)
      && AllServed(Rows(switches, levels, width), Rows(pairs, levels, width), t, n, 0, 0, m)
      && out == OutMasks(t, n, 0, 0, m)
  {
    hide AllServed, OutMasks, Rows, XorPair, CorrectedPair, Carries, CarriesAt, Used, Xor, Crossed, Messages1,
      Messages0, Fixed, Cells;
    var tb0, tb := View(expanded, none, levels, width), View(ot, corrections, levels, width);
    var t, g, ot' := Messages0(tb0.ot), Rows(switches, levels, width), Rows(pairs, levels, width);
    assert Rooms(g, ot', t, n, 0, 0, |m|);
    forall l: nat, c: nat | Used(l, c, n, 0, 0, |m|)
      ensures CarriesAt(Crossed(tb.ot), Messages1(tb.ot), g, ot', t, l, c)
    {
      UsedInBox(l, c, n, 0, 0, |m|);
      CellCarries(switches, expanded, received, none, ot, corrections, pairs, aes, levels, width, l, c,
        Switches(n, 0, 0, |m|));
    }
    ServedCarries(Crossed(tb.ot), Messages1(tb.ot), g, ot', t, n, 0, 0, m);
  }

  /** The two shares cancel to the permuted inputs. */
  lemma SharesCancel(switches: seq<Bit>, expanded: seq<OtPair>, received: seq<Block>, none: seq<Pair>, ot: seq<OtPair>,
          corrections: seq<Pair>, pairs: seq<Pair>,
                     aes: Block -> Block, levels: nat, width: nat, n: nat, size: nat, dest: seq<int>,
                       inputs: seq<Block>, m: seq<Block>, out: seq<Block>)
    requires Exchanged(switches, expanded, received, ot, corrections, pairs, aes)
    requires |none| == |switches| == Cells(levels, width)
    requires |inputs| == |m| == size
    requires Finished(View(expanded, none, levels, width), View(ot, corrections, levels, width), levels, width, n, 0,
        0, m, out)
    requires |dest| == size && Permutes(Identity(size), dest)
    requires Room(Rows(switches, levels, width), n, 0, 0, size) && PairRoom(Rows(pairs, levels, width), n, 0, 0, size)
    requires Eval(Rows(switches, levels, width), n, 0, 0, Identity(size)) == dest
    ensures |out| == size
    ensures forall i :: 0 <= i < size ==> 0 <= dest[i] < size
    ensures forall i :: 0 <= i < size ==>
      Xor(MaskedEval(Rows(switches, levels, width), Rows(pairs, levels, width), n, 0, 0, XorAll(inputs, m))[i],
        out[i]) == inputs[dest[i]]
  {
    hide Eval, MaskedEval, OutMasks, AllServed, Room, PairRoom, Xor, Finished, View, Rows, Cells, CorrectedPair;
    var g, pg, t := Rows(switches, levels, width), Rows(pairs, levels, width),
      Messages0(View(expanded, none, levels, width).ot);
    PairsServe(switches, expanded, received, none, ot, corrections, pairs, aes, levels, width, n, m, out);
    RoomsParts(g, pg, t, n, 0, 0, size);
    var f := (i: int) => if 0 <= i < |inputs| then inputs[i] else {};
    assert Map(f, Identity(size)) == inputs;
    EvalMap(g, n, 0, 0, f, Identity(size));
    MaskedRefines(g, pg, t, n, 0, 0, inputs, m);
    forall i | 0 <= i < size
      ensures 0 <= dest[i] < size
      ensures Xor(XorAll(Map(f, dest), out)[i], out[i]) == inputs[dest[i]]
    {
      assert dest[i] in Identity(size);
      XorCancels(inputs[dest[i]], out[i], {});
    }
  }

  /**
   * The whole exchange, in both transfer modes, for every number of inputs from two up, every
   * random permutation, mask, transfer message and choice bit: the two parties' shares of position
   * i cancel to the input that the permutation sends there.
   */
  method RunProtocol(inputs: seq<Block>, otType: int, shuffle: seq<nat>, masks: seq<Block>,
                     randomOt: seq<Pair>, choices: seq<Bit>, aes: Block -> Block)
    returns (dest: seq<int>, senderShare: seq<Block>, receiverShare: seq<Block>)
    requires |inputs| >= 2 && |shuffle| == |masks| == |inputs|
    requires |randomOt| == |choices| == Cells(2 * CeilLog2(|inputs|) - 1, |inputs| / 2)
    ensures |dest| == |senderShare| == |receiverShare| == |inputs|
    ensures dest == Shuffled(|inputs|, shuffle) && Permutes(Identity(|inputs|), dest)
    ensures forall i :: 0 <= i < |inputs| ==>
      0 <= dest[i] < |inputs| && Xor(senderShare[i], receiverShare[i]) == inputs[dest[i]]
  {
    hide Permutes, Eval, MaskedEval, AllServed, OutMasks, Finished, View, Expanded, Rows, Xor, Cells, CorrectedPair,
      Room, PairRoom, Rooms, Delivered, Shuffled;
    var size := |inputs|;
    var sender := new OSNSender(size, otType, shuffle);
    dest := sender.dest;
    var g := sender.benes.switched;
    var switches := sender.benes.ReturnGenBenesSwitches(size);
    var received := Delivered(randomOt, ChoicesFor(otType, switches, choices));
    var correction := sender.BitCorrection(switches, choices);

    var receiver := new OSNReceiver(size, otType);
    var benesInput;
    benesInput, receiverShare := receiver.RunOsn(inputs, masks, randomOt, correction, aes);

    var pairs := sender.GenBenesServerOsn(switches, received, receiver.corrections, aes);
    senderShare := sender.RunOsn(benesInput, pairs);

    ghost var expanded := Expanded(randomOt, otType, correction, aes);
    ghost var levels, width := 2 * CeilLog2(size) - 1, size / 2;
    ExchangeDone(otType, switches, choices, correction, randomOt, received, receiver.otOutput, receiver.corrections,
      pairs, aes);
    InputMasked(inputs, masks, benesInput);
    SharesCancel(switches, expanded, received, NoCorrections(|randomOt|), receiver.otOutput, receiver.corrections,
      pairs, aes,
                 levels, width, CeilLog2(size), size, dest, inputs, masks, receiverShare);
  }

  lemma ExchangeDone(otType: int, switches: seq<Bit>, choices: seq<Bit>, correction: seq<Bit>, randomOt: seq<Pair>,
          received: seq<Block>,
                     ot: seq<OtPair>, corrections: seq<Pair>, pairs: seq<Pair>, aes: Block -> Block)
    requires |switches| == |choices| == |correction| == |randomOt| == |received| == |ot| == |corrections| == |pairs|
    requires forall k :: 0 <= k < |switches| ==> correction[k] == if switches[k] == choices[k] then 0 else 1
    requires received == Delivered(randomOt, ChoicesFor(otType, switches, choices))
    requires forall k :: 0 <= k < |switches| ==>
        pairs[k] == CorrectedPair(switches[k], received[k], corrections[k], aes)
    ensures Exchanged(switches, Expanded(randomOt, otType, correction, aes), received, ot, corrections, pairs, aes)
  {
    hide CorrectedPair;
    forall k: nat | k < |switches|
      ensures Pair(received[k], aes(received[k])) == if switches[k] == 1
          then Expanded(randomOt, otType, correction, aes)[k].m1 else Expanded(randomOt, otType, correction, aes)[k].m0
    {
      ReceivedIsOwn(k, otType, switches, choices, correction, randomOt, aes);
    }
  }

  lemma InputMasked(inputs: seq<Block>, m: seq<Block>, sent: seq<Block>)
    requires |inputs| == |m| == |sent|
    requires forall i :: 0 <= i < |m| ==> sent[i] == Xor(m[i], inputs[i])
    ensures sent == XorAll(inputs, m)
  {
    hide Xor;
    forall i | 0 <= i < |m|
      ensures sent[i] == Xor(inputs[i], m[i])
    {
      XorCancels(m[i], inputs[i], {});
    }
  }
}
