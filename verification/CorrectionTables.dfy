/**
 * The tables that the masking party fills: for every switch the two messages it will have sent and
 * the correction block that turns the random message 1 into the required one. A table cell is
 * owned by one call of the recursion, and what a call leaves behind is stated cell by cell.
 */
module CorrectionTables {
  import opened BenesNetwork
  import opened MaskedNetwork

  /** `ot_output[k]`: messages 0 and 1 of one switch. */
  datatype OtPair = OtPair(m0: Pair, m1: Pair)
  type OtGrid = seq<seq<OtPair>>
  /** `ot_output` and `correction_blocks`, by level and index. */
  datatype Tables = Tables(ot: OtGrid, corr: PairGrid)

  function Messages0(ot: OtGrid): (t: PairGrid)
    ensures |t| == |ot| && forall l {:trigger t[l]} :: 0 <= l < |ot| ==>
      |t[l]| == |ot[l]| && forall c :: 0 <= c < |ot[l]| ==> t[l][c] == ot[l][c].m0
  {
    seq(|ot|, l requires 0 <= l < |ot| => seq(|ot[l]|, c requires 0 <= c < |ot[l]| => ot[l][c].m0))
  }

  function Messages1(ot: OtGrid): (t: PairGrid)
    ensures |t| == |ot| && forall l {:trigger t[l]} :: 0 <= l < |ot| ==>
      |t[l]| == |ot[l]| && forall c :: 0 <= c < |ot[l]| ==> t[l][c] == ot[l][c].m1
  {
    seq(|ot|, l requires 0 <= l < |ot| => seq(|ot[l]|, c requires 0 <= c < |ot[l]| => ot[l][c].m1))
  }

  /** Every switch set. */
  function Crossed(ot: OtGrid): (g: Grid)
    ensures |g| == |ot| && forall l {:trigger g[l]} :: 0 <= l < |ot| ==>
      |g[l]| == |ot[l]| && forall c :: 0 <= c < |ot[l]| ==> g[l][c] == 1
  {
    seq(|ot|, l requires 0 <= l < |ot| => seq(|ot[l]|, c requires 0 <= c < |ot[l]| => 1))
  }

  function XorPair(p: Pair, q: Pair): Pair {
    Pair(Xor(p.a, q.a), Xor(p.b, q.b))
  }

  type Region = iset<(nat, nat)>

  /** The switches of a call. */
  ghost function Switches(n: nat, lvl: nat, idx: nat, values: nat): Region
    requires Fits(n, values)
  {
    iset p: (nat, nat) | Used(p.0, p.1, n, lvl, idx, values)
  }

  ghost function Row(l: nat, idx: nat, count: nat): Region {
    iset p: (nat, nat) | p.0 == l && idx <= p.1 < idx + count
  }

  ghost predicate Rectangular(tb: Tables, levels: nat, width: nat) {
    && |tb.ot| == |tb.corr| == levels
    && forall l {:trigger tb.ot[l]} {:trigger tb.corr[l]} :: 0 <= l < levels ==> |tb.ot[l]| == |tb.corr[l]| == width
  }

  /**
   * `tb` comes from `tb0` by work on the cells of `region` only. There message 0 is kept, message 1
   * is whatever it is now, and the correction block is the difference of the two messages 1.
   */
  ghost predicate Fixed(tb0: Tables, tb: Tables, levels: nat, width: nat, region: Region) {
    && Rectangular(tb0, levels, width) && Rectangular(tb, levels, width)
    && forall l: nat, c: nat {:trigger tb.ot[l][c]} {:trigger tb.corr[l][c]} :: l < levels && c < width ==>
        if (l, c) in region then
          tb.ot[l][c].m0 == tb0.ot[l][c].m0 && tb.corr[l][c] == XorPair(tb0.ot[l][c].m1, tb.ot[l][c].m1)
        else
          tb.ot[l][c] == tb0.ot[l][c] && tb.corr[l][c] == tb0.corr[l][c]
  }

  lemma FixedThen(a: Tables, b: Tables, c: Tables, levels: nat, width: nat, r: Region, s: Region)
    requires Fixed(a, b, levels, width, r) && Fixed(b, c, levels, width, s) && r !! s
    ensures Fixed(a, c, levels, width, r + s)
  {
    forall l: nat, k: nat | l < levels && k < width
      ensures if (l, k) in r + s then
          c.ot[l][k].m0 == a.ot[l][k].m0 && c.corr[l][k] == XorPair(a.ot[l][k].m1, c.ot[l][k].m1)
        else
          c.ot[l][k] == a.ot[l][k] && c.corr[l][k] == a.corr[l][k]
    {
      assert b.ot[l][k] == b.ot[l][k] && c.ot[l][k] == c.ot[l][k];
    }
  }

  lemma FixedKeepsMessages0(a: Tables, b: Tables, levels: nat, width: nat, r: Region)
    requires Fixed(a, b, levels, width, r)
    ensures Messages0(b.ot) == Messages0(a.ot)
  {
    forall l | 0 <= l < levels
      ensures Messages0(b.ot)[l] == Messages0(a.ot)[l]
    {
      assert forall c: nat :: c < width ==> b.ot[l][c].m0 == a.ot[l][c].m0;
    }
  }

  /** The work on one switch whose wires come in under masks m0 and m1. */
  function FixCell(tb: Tables, l: nat, c: nat, m0: Block, m1: Block): Tables
    requires l < |tb.ot| && c < |tb.ot[l]| && l < |tb.corr| && c < |tb.corr[l]|
  {
    var e := tb.ot[l][c];
    var w0, w1 := Xor(e.m0.a, m0), Xor(e.m0.b, m1);
    var correction := Pair(Xor(Xor(e.m1.a, m0), w1), Xor(Xor(e.m1.b, m1), w0));
    Tables(tb.ot[l := tb.ot[l][c := OtPair(e.m0, Pair(Xor(m0, w1), Xor(m1, w0)))]],
           tb.corr[l := tb.corr[l][c := correction]])
  }

  lemma FixCellFixes(tb: Tables, l: nat, c: nat, m0: Block, m1: Block, levels: nat, width: nat)
    requires Rectangular(tb, levels, width) && l < levels && c < width
    ensures Fixed(tb, FixCell(tb, l, c, m0, m1), levels, width, Row(l, c, 1))
    ensures FixCell(tb, l, c, m0, m1).ot[l][c].m1 == Message1(tb.ot[l][c].m0, m0, m1)
    ensures Xor(tb.ot[l][c].m0.a, m0) == Xor(m0, tb.ot[l][c].m0.a)
    ensures Xor(tb.ot[l][c].m0.b, m1) == Xor(m1, tb.ot[l][c].m0.b)
  {
    var e := tb.ot[l][c];
    XorCancels(e.m0.a, m0, {});
    XorCancels(e.m0.b, m1, {});
    var w0, w1 := Xor(e.m0.a, m0), Xor(e.m0.b, m1);
    XorAssociates(e.m1.a, m0, w1);
    XorAssociates(e.m1.b, m1, w0);
    hide Xor;
    assert FixCell(tb, l, c, m0, m1).corr[l][c] == XorPair(e.m1, Message1(e.m0, m0, m1));
  }

  /** A call's box inside tables of `levels` rows of `width` cells. */
  ghost predicate Within(levels: nat, width: nat, n: nat, lvl: nat, idx: nat, values: nat) {
    Fits(n, values) && lvl + 2 * n - 1 <= levels && idx + values / 2 <= width
  }

  lemma SubWithin(levels: nat, width: nat, n: nat, lvl: nat, idx: nat, values: nat)
    requires Within(levels, width, n, lvl, idx, values) && values >= 4
    ensures n >= 2
    ensures Within(levels, width, n - 1, lvl + 1, idx, values / 2)
    ensures Within(levels, width, n - 1, lvl + 1, idx + values / 4, (values + 1) / 2)
  {
    SubFits(n, values);
  }

  lemma WithinRooms(tb: Tables, t: PairGrid, levels: nat, width: nat, n: nat, lvl: nat, idx: nat, values: nat)
    requires Rectangular(tb, levels, width) && Within(levels, width, n, lvl, idx, values)
    requires |t| == levels && forall l :: 0 <= l < levels ==> |t[l]| == width
    ensures Rooms(Crossed(tb.ot), Messages1(tb.ot), t, n, lvl, idx, values)
  {
  }

  /** Every switch of a call's box has the message 1 that its incoming masks call for. */
  ghost predicate MessagesSet(tb: Tables, t: PairGrid, n: nat, lvl: nat, idx: nat, m: seq<Block>) {
    && Rooms(Crossed(tb.ot), Messages1(tb.ot), t, n, lvl, idx, |m|)
    && AllServed(Crossed(tb.ot), Messages1(tb.ot), t, n, lvl, idx, m)
  }

  /** The same for the first switches of one level. */
  ghost predicate LevelSet(tb: Tables, t: PairGrid, l: nat, idx: nat, m0: seq<Block>, m1: seq<Block>, count: nat) {
    && count <= |m0| && count <= |m1|
    && l < |tb.ot| && l < |t| && idx + count <= |tb.ot[l]| && idx + count <= |t[l]|
    && forall k {:trigger m0[k]} :: 0 <= k < count ==> tb.ot[l][idx + k].m1 == Message1(t[l][idx + k], m0[k], m1[k])
  }

  lemma LevelSetServed(tb: Tables, t: PairGrid, l: nat, idx: nat, m0: seq<Block>, m1: seq<Block>)
    requires |m0| <= |m1| && LevelSet(tb, t, l, idx, m0, m1, |m0|)
    ensures LevelServed(Crossed(tb.ot)[l], Messages1(tb.ot)[l], t[l], idx, m0, m1)
  {
    forall k | 0 <= k < |m0|
      ensures Messages1(tb.ot)[l][idx + k] == Served(Crossed(tb.ot)[l][idx + k], t[l][idx + k], m0[k], m1[k])
    {
      assert m0[k] == m0[k];
    }
  }

  /** A call is set once its two outer levels and its two halves are. */
  lemma PartsSet(tb: Tables, t: PairGrid, n: nat, lvl: nat, idx: nat, m: seq<Block>)
    requires |m| >= 4 && Rooms(Crossed(tb.ot), Messages1(tb.ot), t, n, lvl, idx, |m|) && PairRoom(t, n, lvl, idx, |m|)
    requires n >= 2 && lvl < |t| && idx + |m| / 2 <= |t[lvl]|
    requires LevelSet(tb, t, lvl, idx, Evens(m), Odds(m), |m| / 2)
    requires MessagesSet(tb, t, n - 1, lvl + 1, idx, LowIn(t, lvl, idx, m))
    requires MessagesSet(tb, t, n - 1, lvl + 1, idx + |m| / 4, HighIn(t, lvl, idx, m))
    requires LevelSet(tb, t, lvl + 2 * n - 2, idx, LowOut(t, n, lvl, idx, m), HighOut(t, n, lvl, idx, m), |m| / 2)
    ensures MessagesSet(tb, t, n, lvl, idx, m)
  {
    hide AllServed, LowServed, HighServed, LowIn, HighIn, LowOut, HighOut, LevelSet, Rooms, LevelServed, Evens, Odds;
    SubRooms(Crossed(tb.ot), Messages1(tb.ot), t, n, lvl, idx, |m|);
    ServedParts(Crossed(tb.ot), Messages1(tb.ot), t, n, lvl, idx, m);
    LowServedIs(Crossed(tb.ot), Messages1(tb.ot), t, n, lvl, idx, m);
    HighServedIs(Crossed(tb.ot), Messages1(tb.ot), t, n, lvl, idx, m);
    LevelSetServed(tb, t, lvl, idx, Evens(m), Odds(m));
    LevelSetServed(tb, t, lvl + 2 * n - 2, idx, LowOut(t, n, lvl, idx, m), HighOut(t, n, lvl, idx, m));
  }

  /** Tables that hold the same cells in a region. */
  ghost predicate SameIn(a: Tables, b: Tables, levels: nat, width: nat, region: Region) {
    && Rectangular(a, levels, width) && Rectangular(b, levels, width)
    && forall l: nat, c: nat {:trigger a.ot[l][c]} {:trigger b.ot[l][c]} {:trigger b.corr[l][c]} ::
        l < levels && c < width && (l, c) in region ==>
        b.ot[l][c] == a.ot[l][c] && b.corr[l][c] == a.corr[l][c]
  }

  lemma FixedLeaves(a: Tables, b: Tables, levels: nat, width: nat, region: Region, other: Region)
    requires Fixed(a, b, levels, width, region) && region !! other
    ensures SameIn(a, b, levels, width, other)
  {
  }

  lemma LevelSetKept(a: Tables, b: Tables, t: PairGrid, levels: nat, width: nat, l: nat, idx: nat, m0: seq<Block>,
          m1: seq<Block>, count: nat)
    requires SameIn(a, b, levels, width, Row(l, idx, count)) && LevelSet(a, t, l, idx, m0, m1, count)
    ensures LevelSet(b, t, l, idx, m0, m1, count)
  {
    forall k | 0 <= k < count
      ensures b.ot[l][idx + k].m1 == Message1(t[l][idx + k], m0[k], m1[k])
    {
      assert (l, idx + k) in Row(l, idx, count);
      assert a.ot[l][idx + k] == b.ot[l][idx + k];
      assert m0[k] == m0[k];
    }
  }

  lemma MessagesSetKept(a: Tables, b: Tables, t: PairGrid, levels: nat, width: nat, n: nat, lvl: nat, idx: nat,
          m: seq<Block>)
    requires Fits(n, |m|) && SameIn(a, b, levels, width, Switches(n, lvl, idx, |m|))
    requires MessagesSet(a, t, n, lvl, idx, m)
    ensures MessagesSet(b, t, n, lvl, idx, m)
  {
    assert Rooms(Crossed(b.ot), Messages1(b.ot), t, n, lvl, idx, |m|);
    forall l: nat, c: nat | Used(l, c, n, lvl, idx, |m|)
      ensures CarriesAt(Crossed(a.ot), Messages1(a.ot), Crossed(b.ot), Messages1(b.ot), t, l, c)
    {
      UsedInBox(l, c, n, lvl, idx, |m|);
      assert (l, c) in Switches(n, lvl, idx, |m|);
      assert a.ot[l][c] == b.ot[l][c];
    }
    ServedCarries(Crossed(a.ot), Messages1(a.ot), Crossed(b.ot), Messages1(b.ot), t, n, lvl, idx, m);
  }

  /** The parts of a call are disjoint and make up the call. */
  lemma SwitchParts(n: nat, lvl: nat, idx: nat, values: nat)
    requires Fits(n, values) && values >= 4
    ensures n >= 2 && Fits(n - 1, values / 2) && Fits(n - 1, (values + 1) / 2)
    ensures var bottom, top := Switches(n - 1, lvl + 1, idx, values / 2),
        Switches(n - 1, lvl + 1, idx + values / 4, (values + 1) / 2);
      var first, last := Row(lvl, idx, values / 2), Row(lvl + 2 * n - 2, idx, values / 2);
      && first !! top && first !! bottom && first !! last && top !! bottom && top !! last && bottom !! last
      && Switches(n, lvl, idx, values) == first + top + bottom + last
  {
    SubFits(n, values);
    var bottom, top := Switches(n - 1, lvl + 1, idx, values / 2),
      Switches(n - 1, lvl + 1, idx + values / 4, (values + 1) / 2);
    var first, last := Row(lvl, idx, values / 2), Row(lvl + 2 * n - 2, idx, values / 2);
    forall p: (nat, nat)
      ensures !(p in bottom && p in top)
      ensures p in bottom || p in top ==> lvl < p.0 < lvl + 2 * n - 2
      ensures p in Switches(n, lvl, idx, values) <==> p in first || p in top || p in bottom || p in last
    {
      UsedApart(p.0, p.1, n, lvl, idx, values);
    }
    hide Used;
    assert Switches(n, lvl, idx, values) == first + top + bottom + last;
  }

  /** What one whole call of the correction leaves behind. */
  ghost predicate Finished(tb0: Tables, tb: Tables, levels: nat, width: nat, n: nat, lvl: nat, idx: nat, m: seq<Block>,
          out: seq<Block>) {
    && Rectangular(tb0, levels, width) && Within(levels, width, n, lvl, idx, |m|)
    && Fixed(tb0, tb, levels, width, Switches(n, lvl, idx, |m|))
    && MessagesSet(tb, Messages0(tb0.ot), n, lvl, idx, m)
    && PairRoom(Messages0(tb0.ot), n, lvl, idx, |m|)
    && out == OutMasks(Messages0(tb0.ot), n, lvl, idx, m)
  }

  lemma FinishedSmall(tb0: Tables, tb: Tables, levels: nat, width: nat, n: nat, lvl: nat, idx: nat, m: seq<Block>,
          out: seq<Block>)
    requires |m| <= 3 && Rectangular(tb0, levels, width) && Within(levels, width, n, lvl, idx, |m|)
    requires Fixed(tb0, tb, levels, width, Switches(n, lvl, idx, |m|))
    requires var t := Messages0(tb0.ot);
      && Rooms(Crossed(tb.ot), Messages1(tb.ot), t, n, lvl, idx, |m|)
      && SmallServed(Crossed(tb.ot), Messages1(tb.ot), t, n, lvl, idx, m)
      && out == OutSmall(t, n, lvl, idx, m)
    ensures Finished(tb0, tb, levels, width, n, lvl, idx, m, out)
  {
  }

  /** What each stage of a call left is still there after the later stages, which work on other cells. */
  lemma StagesKeep(tbA: Tables, tbB: Tables, tbC: Tables, tbD: Tables, levels: nat, width: nat,
                   first: Region, topR: Region, bottomR: Region, last: Region)
    requires first !! topR && first !! bottomR && first !! last && topR !! bottomR && topR !! last && bottomR !! last
    requires Fixed(tbA, tbB, levels, width, topR) && Fixed(tbB, tbC, levels, width, bottomR)
    requires Fixed(tbC, tbD, levels, width, last)
    ensures SameIn(tbA, tbD, levels, width, first)
    ensures SameIn(tbB, tbD, levels, width, topR)
    ensures SameIn(tbC, tbD, levels, width, bottomR)
    ensures Fixed(tbA, tbD, levels, width, topR + bottomR + last)
  {
    hide Fixed, SameIn;
    FixedThen(tbB, tbC, tbD, levels, width, bottomR, last);
    FixedThen(tbA, tbB, tbD, levels, width, topR, bottomR + last);
    assert topR + (bottomR + last) == topR + bottomR + last;
    FixedLeaves(tbC, tbD, levels, width, last, bottomR);
    FixedLeaves(tbB, tbD, levels, width, bottomR + last, topR);
    FixedLeaves(tbA, tbD, levels, width, topR + (bottomR + last), first);
  }

  lemma FinishedMeans(tb0: Tables, tb: Tables, levels: nat, width: nat, n: nat, lvl: nat, idx: nat, m: seq<Block>,
          out: seq<Block>)
    requires Finished(tb0, tb, levels, width, n, lvl, idx, m, out)
    ensures Fits(n, |m|) && Fixed(tb0, tb, levels, width, Switches(n, lvl, idx, |m|))
    ensures MessagesSet(tb, Messages0(tb0.ot), n, lvl, idx, m)
    ensures PairRoom(Messages0(tb0.ot), n, lvl, idx, |m|) && out == OutMasks(Messages0(tb0.ot), n, lvl, idx, m)
    ensures Messages0(tb.ot) == Messages0(tb0.ot) && |out| == |m|
  {
    FixedKeepsMessages0(tb0, tb, levels, width, Switches(n, lvl, idx, |m|));
  }

  lemma FinishedFrom(tb0: Tables, tb: Tables, t: PairGrid, levels: nat, width: nat, n: nat, lvl: nat, idx: nat,
          m: seq<Block>)
    requires t == Messages0(tb0.ot) && |m| >= 4
    requires Rectangular(tb0, levels, width) && Within(levels, width, n, lvl, idx, |m|)
    requires Fixed(tb0, tb, levels, width, Switches(n, lvl, idx, |m|))
    requires MessagesSet(tb, t, n, lvl, idx, m)
    ensures PairRoom(t, n, lvl, idx, |m|) && n >= 2
    ensures lvl + 2 * n - 2 < |t| && idx + |m| / 2 <= |t[lvl + 2 * n - 2]|
    ensures Finished(tb0, tb, levels, width, n, lvl, idx, m,
      ApplyLevel(t[lvl + 2 * n - 2], idx, Zip(LowOut(t, n, lvl, idx, m), HighOut(t, n, lvl, idx, m))))
  {
    hide LowOut, HighOut, Zip, ApplyLevel, OutMasks, AllServed, Switches, Fixed;
    SubFits(n, |m|);
    OutUnfold(t, n, lvl, idx, m);
  }

  /** One stage after another: input level, upper half, lower half, output level. */
  lemma StagesFinish(tb0: Tables, tbA: Tables, tbB: Tables, tbC: Tables, tbD: Tables, t: PairGrid, levels: nat,
          width: nat,
                     n: nat, lvl: nat, idx: nat, m: seq<Block>, low: seq<Block>, high: seq<Block>, lowOut: seq<Block>,
                       highOut: seq<Block>)
    requires |m| >= 4 && Rectangular(tb0, levels, width) && Within(levels, width, n, lvl, idx, |m|) && n >= 2
    requires t == Messages0(tb0.ot) && lvl + 2 * n - 2 < |t| && idx + |m| / 2 <= |t[lvl + 2 * n - 2]|
    requires idx + |m| / 2 <= |t[lvl]|
    requires low == LowIn(t, lvl, idx, m) && high == HighIn(t, lvl, idx, m)
    requires Fixed(tb0, tbA, levels, width, Row(lvl, idx, |m| / 2))
    requires LevelSet(tbA, t, lvl, idx, Evens(m), Odds(m), |m| / 2)
    requires Finished(tbA, tbB, levels, width, n - 1, lvl + 1, idx + |m| / 4, high, highOut)
    requires Finished(tbB, tbC, levels, width, n - 1, lvl + 1, idx, low, lowOut)
    requires Fixed(tbC, tbD, levels, width, Row(lvl + 2 * n - 2, idx, |m| / 2))
    requires LevelSet(tbD, t, lvl + 2 * n - 2, idx, lowOut, highOut, |m| / 2)
    ensures |lowOut| == |m| / 2 && |highOut| == (|m| + 1) / 2
    ensures Finished(tb0, tbD, levels, width, n, lvl, idx, m, ApplyLevel(t[lvl + 2 * n - 2], idx, Zip(lowOut, highOut)))
  {
    hide *;
    var values, last := |m|, lvl + 2 * n - 2;
    WithinFits(levels, width, n, lvl, idx, values);
    FinishedMeans(tbA, tbB, levels, width, n - 1, lvl + 1, idx + values / 4, high, highOut);
    FinishedMeans(tbB, tbC, levels, width, n - 1, lvl + 1, idx, low, lowOut);
    SwitchParts(n, lvl, idx, values);
    var topR, bottomR := Switches(n - 1, lvl + 1, idx + values / 4, |high|), Switches(n - 1, lvl + 1, idx, |low|);
    var firstR, lastR := Row(lvl, idx, values / 2), Row(last, idx, values / 2);
    FixedKeepsMessages0(tb0, tbA, levels, width, firstR);
    StagesKeep(tbA, tbB, tbC, tbD, levels, width, firstR, topR, bottomR, lastR);
    LevelSetKept(tbA, tbD, t, levels, width, lvl, idx, Evens(m), Odds(m), values / 2);
    MessagesSetKept(tbB, tbD, t, levels, width, n - 1, lvl + 1, idx + values / 4, high);
    MessagesSetKept(tbC, tbD, t, levels, width, n - 1, lvl + 1, idx, low);
    FixedThen(tb0, tbA, tbD, levels, width, firstR, topR + bottomR + lastR);
    assert Switches(n, lvl, idx, values) == firstR + (topR + bottomR + lastR);
    FixedRectangular(tb0, tbD, levels, width, Switches(n, lvl, idx, values));
    FixedRectangular(tb0, tb0, levels, width, iset{});
    WithinRooms(tbD, t, levels, width, n, lvl, idx, values);
    RoomsParts(Crossed(tbD.ot), Messages1(tbD.ot), t, n, lvl, idx, values);
    OutHalvesAre(t, n, lvl, idx, m);
    PartsSet(tbD, t, n, lvl, idx, m);
    FinishedFrom(tb0, tbD, t, levels, width, n, lvl, idx, m);
  }

  lemma WithinFits(levels: nat, width: nat, n: nat, lvl: nat, idx: nat, values: nat)
    requires Within(levels, width, n, lvl, idx, values)
    ensures Fits(n, values)
  {
  }

  lemma FixedRectangular(a: Tables, b: Tables, levels: nat, width: nat, r: Region)
    ensures Fixed(a, b, levels, width, r) ==> Rectangular(a, levels, width) && Rectangular(b, levels, width)
    ensures Rectangular(a, levels, width) ==> |a.ot| == levels && forall l :: 0 <= l < levels ==>
        |Messages0(a.ot)[l]| == width
  {
  }

  /** One more switch of a level. */
  lemma LevelStep(tb0: Tables, tb: Tables, t: PairGrid, levels: nat, width: nat, l: nat, idx: nat, m0: seq<Block>,
          m1: seq<Block>, k: nat)
    requires t == Messages0(tb0.ot) && k < |m0| && k < |m1| && l < levels && idx + k < width
    requires Fixed(tb0, tb, levels, width, Row(l, idx, k)) && LevelSet(tb, t, l, idx, m0, m1, k)
    ensures Rectangular(tb, levels, width)
    ensures l < |tb.ot| && idx + k < |tb.ot[l]| && l < |tb.corr| && idx + k < |tb.corr[l]| && l < |t|
    ensures idx + k < |t[l]|
    ensures tb.ot[l][idx + k].m0 == t[l][idx + k]
    ensures var tb' := FixCell(tb, l, idx + k, m0[k], m1[k]);
      Fixed(tb0, tb', levels, width, Row(l, idx, k + 1)) && LevelSet(tb', t, l, idx, m0, m1, k + 1)
    ensures Xor(t[l][idx + k].a, m0[k]) == Xor(m0[k], t[l][idx + k].a)
    ensures Xor(t[l][idx + k].b, m1[k]) == Xor(m1[k], t[l][idx + k].b)
  {
    hide Xor, Message1, FixCell, XorPair;
    var tb' := FixCell(tb, l, idx + k, m0[k], m1[k]);
    FixCellFixes(tb, l, idx + k, m0[k], m1[k], levels, width);
    FixedThen(tb0, tb, tb', levels, width, Row(l, idx, k), Row(l, idx + k, 1));
    assert Row(l, idx, k) + Row(l, idx + k, 1) == Row(l, idx, k + 1);
    FixedLeaves(tb, tb', levels, width, Row(l, idx + k, 1), Row(l, idx, k));
    LevelSetKept(tb, tb', t, levels, width, l, idx, m0, m1, k);
  }

  lemma LevelBegin(tb: Tables, t: PairGrid, levels: nat, width: nat, l: nat, idx: nat, m0: seq<Block>, m1: seq<Block>)
    requires Rectangular(tb, levels, width) && l < levels && t == Messages0(tb.ot) && idx <= width
    ensures |t| == levels && |t[l]| == width
    ensures Fixed(tb, tb, levels, width, Row(l, idx, 0)) && LevelSet(tb, t, l, idx, m0, m1, 0)
  {
  }

  /** What the work on one switch puts on wires p and p+1. */
  function Wired(tb: Tables, l: nat, c: nat, p: nat, m: seq<Block>): (r: seq<Block>)
    requires l < |tb.ot| && c < |tb.ot[l]| && p + 1 < |m|
    ensures |r| == |m|
  {
    var e := tb.ot[l][c];
    m[p := Xor(e.m0.a, m[p])][p + 1 := Xor(e.m0.b, m[p + 1])]
  }

  /** One switch on wires p and p+1, seen from the tables and the wires at once. */
  lemma SwitchDone(tb: Tables, l: nat, c: nat, p: nat, m: seq<Block>, t: PairGrid, levels: nat, width: nat)
    requires Rectangular(tb, levels, width) && l < levels && c < width && p + 1 < |m| && t == Messages0(tb.ot)
    ensures l < |tb.ot| && c < |tb.ot[l]| && l < |tb.corr| && c < |tb.corr[l]| && l < |t| && c < |t[l]|
    ensures var tb' := FixCell(tb, l, c, m[p], m[p + 1]);
      && Rectangular(tb', levels, width)
      && Fixed(tb, tb', levels, width, Row(l, c, 1)) && Messages0(tb'.ot) == t
      && tb'.ot[l][c].m1 == Message1(t[l][c], m[p], m[p + 1])
      && Wired(tb, l, c, p, m) == Apply(t[l][c], p, m)
  {
    hide Xor;
    FixCellFixes(tb, l, c, m[p], m[p + 1], levels, width);
    FixedKeepsMessages0(tb, FixCell(tb, l, c, m[p], m[p + 1]), levels, width, Row(l, c, 1));
  }

  /** A two-wire call is one switch. */
  lemma TwoFinish(tb: Tables, levels: nat, width: nat, n: nat, lvl: nat, idx: nat, m: seq<Block>)
    requires |m| == 2 && Rectangular(tb, levels, width) && Within(levels, width, n, lvl, idx, 2)
    ensures var l := MiddleLevel(n, lvl);
      && l < |tb.ot| && idx < |tb.ot[l]| && l < |tb.corr| && idx < |tb.corr[l]| && l < levels && idx < width
      && Finished(tb, FixCell(tb, l, idx, m[0], m[1]), levels, width, n, lvl, idx, m, Wired(tb, l, idx, 0, m))
  {
    hide Xor, Message1, FixCell, Wired, Apply;
    TwoWires(n);
    var l := MiddleLevel(n, lvl);
    var t := Messages0(tb.ot);
    SwitchDone(tb, l, idx, 0, m, t, levels, width);
    var tb' := FixCell(tb, l, idx, m[0], m[1]);
    assert Row(l, idx, 1) == Switches(n, lvl, idx, 2);
    WithinRooms(tb', t, levels, width, n, lvl, idx, 2);
    FinishedSmall(tb, tb', levels, width, n, lvl, idx, m, Wired(tb, l, idx, 0, m));
  }

  /** A three-wire call is three switches, on wires 0-1, 1-2 and 0-1 again. */
  lemma ThreeFinish(tb: Tables, levels: nat, width: nat, n: nat, lvl: nat, idx: nat, m: seq<Block>)
    requires |m| == 3 && Rectangular(tb, levels, width) && Within(levels, width, n, lvl, idx, 3)
    ensures lvl + 2 < levels && idx < width
    ensures var tb1, m1 := FixCell(tb, lvl, idx, m[0], m[1]), Wired(tb, lvl, idx, 0, m);
      && Rectangular(tb1, levels, width)
      && var tb2, m2 := FixCell(tb1, lvl + 1, idx, m1[1], m1[2]), Wired(tb1, lvl + 1, idx, 1, m1);
      && Rectangular(tb2, levels, width)
      && Finished(tb, FixCell(tb2, lvl + 2, idx, m2[0], m2[1]), levels, width, n, lvl, idx, m,
        Wired(tb2, lvl + 2, idx, 0, m2))
  {
    hide Xor, Message1, FixCell, Wired, Apply;
    ThreeWires(n);
    var t := Messages0(tb.ot);
    SwitchDone(tb, lvl, idx, 0, m, t, levels, width);
    var tb1, m1 := FixCell(tb, lvl, idx, m[0], m[1]), Wired(tb, lvl, idx, 0, m);
    SwitchDone(tb1, lvl + 1, idx, 1, m1, t, levels, width);
    var tb2, m2 := FixCell(tb1, lvl + 1, idx, m1[1], m1[2]), Wired(tb1, lvl + 1, idx, 1, m1);
    SwitchDone(tb2, lvl + 2, idx, 0, m2, t, levels, width);
    var tb3, m3 := FixCell(tb2, lvl + 2, idx, m2[0], m2[1]), Wired(tb2, lvl + 2, idx, 0, m2);
    ThreeKeep(tb, tb1, tb2, tb3, levels, width, n, lvl, idx);
    WithinRooms(tb3, t, levels, width, n, lvl, idx, 3);
    hide Fixed, Rectangular;
    FinishedSmall(tb, tb3, levels, width, n, lvl, idx, m, m3);
  }

  lemma ThreeKeep(tb: Tables, tb1: Tables, tb2: Tables, tb3: Tables, levels: nat, width: nat, n: nat, lvl: nat,
          idx: nat)
    requires Within(levels, width, n, lvl, idx, 3)
    requires Fixed(tb, tb1, levels, width, Row(lvl, idx, 1)) && Fixed(tb1, tb2, levels, width, Row(lvl + 1, idx, 1))
    requires Fixed(tb2, tb3, levels, width, Row(lvl + 2, idx, 1))
    ensures Fixed(tb, tb3, levels, width, Switches(n, lvl, idx, 3))
    ensures lvl + 2 < levels && idx < width
    ensures tb3.ot[lvl][idx] == tb1.ot[lvl][idx] && tb3.ot[lvl + 1][idx] == tb2.ot[lvl + 1][idx]
  {
    ThreeWires(n);
    FixedThen(tb, tb1, tb2, levels, width, Row(lvl, idx, 1), Row(lvl + 1, idx, 1));
    FixedThen(tb, tb2, tb3, levels, width, Row(lvl, idx, 1) + Row(lvl + 1, idx, 1), Row(lvl + 2, idx, 1));
    assert Row(lvl, idx, 1) + Row(lvl + 1, idx, 1) + Row(lvl + 2, idx, 1) == Switches(n, lvl, idx, 3);
  }
}
