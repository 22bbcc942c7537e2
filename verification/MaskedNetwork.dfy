/**
 * The masked network. One party runs the network on wires hidden by XOR masks; the other party
 * follows the masks alone. The pair applied at a switch depends on the switch bit, and is such
 * that crossing a switch turns input masks into output masks whichever way the switch is set.
 */
module MaskedNetwork {
  import opened BenesNetwork

  /** A block, as the set of positions of its one-bits. */
  type Block = set<nat>

  /** `a ^ b` */
  function Xor(a: Block, b: Block): Block {
    (a - b) + (b - a)
  }

  /** `std::array<block, 2>`: one message of a switch, for its two wires. */
  datatype Pair = Pair(a: Block, b: Block)
  type PairGrid = seq<seq<Pair>>

  predicate PairRoom(t: PairGrid, n: nat, lvl: nat, idx: nat, values: nat) {
    && Fits(n, values)
    && lvl + 2 * n - 1 <= |t|
    && forall l :: lvl <= l < lvl + 2 * n - 1 ==> idx + values / 2 <= |t[l]|
  }

  lemma SubPairRoom(t: PairGrid, n: nat, lvl: nat, idx: nat, values: nat)
    requires PairRoom(t, n, lvl, idx, values) && values >= 4
    ensures n >= 2
    ensures PairRoom(t, n - 1, lvl + 1, idx, values / 2)
    ensures PairRoom(t, n - 1, lvl + 1, idx + values / 4, (values + 1) / 2)
    ensures lvl + 2 * n - 2 < |t| && idx + values / 2 <= |t[lvl]| && idx + values / 2 <= |t[lvl + 2 * n - 2]|
  {
    SubFits(n, values);
  }

  /** Applies a pair to wires `p` and `p+1`. */
  function Apply(t: Pair, p: nat, src: seq<Block>): (r: seq<Block>)
    requires p + 1 < |src|
    ensures |r| == |src|
  {
    src[p := Xor(src[p], t.a)][p + 1 := Xor(src[p + 1], t.b)]
  }

  /** Applies the pairs idx.. of one level to all paired wires. */
  function ApplyLevel(row: seq<Pair>, idx: nat, src: seq<Block>): (r: seq<Block>)
    requires idx + |src| / 2 <= |row|
    ensures |r| == |src|
  {
    seq(|src|, i requires 0 <= i < |src| =>
      if i / 2 < |src| / 2 then Xor(src[i], if i % 2 == 0 then row[idx + i / 2].a else row[idx + i / 2].b) else src[i])
  }

  /** The same after the switches of an output level: a set switch exchanges the halves of its pair. */
  function ApplyTurned(switches: seq<Bit>, row: seq<Pair>, idx: nat, src: seq<Block>): (r: seq<Block>)
    requires idx + |src| / 2 <= |row| && idx + |src| / 2 <= |switches|
    ensures |r| == |src|
  {
    seq(|src|, i requires 0 <= i < |src| =>
      if i / 2 < |src| / 2 then Xor(src[i], if i % 2 == switches[idx + i / 2] then row[idx + i / 2].a
        else row[idx + i / 2].b)
      else src[i])
  }

  /** Two or three wires on masked data. */
  function MaskedSmall(g: Grid, ot: PairGrid, n: nat, lvl: nat, idx: nat, src: seq<Block>): (r: seq<Block>)
    requires Room(g, n, lvl, idx, |src|) && PairRoom(ot, n, lvl, idx, |src|) && |src| <= 3
    ensures |r| == |src|
  {
    if |src| == 2 then
      assert n <= 2 by { TwoWires(n); }
      var l := MiddleLevel(n, lvl);
      Cross(g[l][idx], 0, Apply(ot[l][idx], 0, src))
    else
      assert n == 2 by { ThreeWires(n); }
      var first := Cross(g[lvl][idx], 0, Apply(ot[lvl][idx], 0, src));
      var second := Cross(g[lvl + 1][idx], 1, Apply(ot[lvl + 1][idx], 1, first));
      Cross(g[lvl + 2][idx], 0, Apply(ot[lvl + 2][idx], 0, second))
  }

  /** The network's action on masked data: `ot[level][index]` is the pair received for that switch. */
  function MaskedEval(g: Grid, ot: PairGrid, n: nat, lvl: nat, idx: nat, src: seq<Block>): (r: seq<Block>)
    requires Room(g, n, lvl, idx, |src|) && PairRoom(ot, n, lvl, idx, |src|)
    ensures |r| == |src|
    decreases |src|, 1
  {
    hide MaskedLow, MaskedHigh, Leave, MaskedSmall, Room, PairRoom;
    if |src| <= 3 then
      MaskedSmall(g, ot, n, lvl, idx, src)
    else
      SubRoom(g, n, lvl, idx, |src|);
      SubPairRoom(ot, n, lvl, idx, |src|);
      Leave(g, ot, lvl + 2 * n - 2, idx, MaskedLow(g, ot, n, lvl, idx, src), MaskedHigh(g, ot, n, lvl, idx, src))
  }

  /** What the two halves of a masked network return. */
  function MaskedLow(g: Grid, ot: PairGrid, n: nat, lvl: nat, idx: nat, src: seq<Block>): (r: seq<Block>)
    requires Room(g, n, lvl, idx, |src|) && PairRoom(ot, n, lvl, idx, |src|) && |src| >= 4
    ensures |r| == |src| / 2
    decreases |src|, 0
  {
    hide MaskedEval, EnterLower, Room, PairRoom;
    SubRoom(g, n, lvl, idx, |src|);
    SubPairRoom(ot, n, lvl, idx, |src|);
    MaskedEval(g, ot, n - 1, lvl + 1, idx, EnterLower(g, ot, lvl, idx, src))
  }

  function MaskedHigh(g: Grid, ot: PairGrid, n: nat, lvl: nat, idx: nat, src: seq<Block>): (r: seq<Block>)
    requires Room(g, n, lvl, idx, |src|) && PairRoom(ot, n, lvl, idx, |src|) && |src| >= 4
    ensures |r| == (|src| + 1) / 2
    decreases |src|, 0
  {
    hide MaskedEval, EnterUpper, Room, PairRoom;
    SubRoom(g, n, lvl, idx, |src|);
    SubPairRoom(ot, n, lvl, idx, |src|);
    MaskedEval(g, ot, n - 1, lvl + 1, idx + |src| / 4, EnterUpper(g, ot, lvl, idx, src))
  }

  /** The input level: apply the pairs, then deal the wires to the halves. */
  function EnterLower(g: Grid, ot: PairGrid, lvl: nat, idx: nat, src: seq<Block>): (r: seq<Block>)
    requires lvl < |g| && lvl < |ot| && idx + |src| / 2 <= |g[lvl]| && idx + |src| / 2 <= |ot[lvl]|
    ensures |r| == |src| / 2
  {
    Lower(g, lvl, idx, ApplyLevel(ot[lvl], idx, src))
  }

  function EnterUpper(g: Grid, ot: PairGrid, lvl: nat, idx: nat, src: seq<Block>): (r: seq<Block>)
    requires lvl < |g| && lvl < |ot| && idx + |src| / 2 <= |g[lvl]| && idx + |src| / 2 <= |ot[lvl]|
    ensures |r| == (|src| + 1) / 2
  {
    Upper(g, lvl, idx, ApplyLevel(ot[lvl], idx, src))
  }

  /** The output level: take the wires back from the halves, then apply the pairs. */
  function Leave(g: Grid, ot: PairGrid, l: nat, idx: nat, bottom: seq<Block>, top: seq<Block>): (r: seq<Block>)
    requires |bottom| <= |top| <= |bottom| + 1
    requires l < |g| && l < |ot| && idx + |bottom| <= |g[l]| && idx + |bottom| <= |ot[l]|
    ensures |r| == |bottom| + |top|
  {
    ApplyTurned(g[l], ot[l], idx, Join(g, l, idx, bottom, top))
  }

  /** First wires of the pairs. */
  function Evens(src: seq<Block>): (r: seq<Block>)
    ensures |r| == |src| / 2
  {
    seq(|src| / 2, k requires 0 <= k < |src| / 2 => src[2 * k])
  }

  /** Second wires of the pairs, then the unpaired last wire. */
  function Odds(src: seq<Block>): (r: seq<Block>)
    ensures |r| == (|src| + 1) / 2
  {
    seq((|src| + 1) / 2, k requires 0 <= k < (|src| + 1) / 2 => if k < |src| / 2 then src[2 * k + 1]
      else src[|src| - 1])
  }

  function Zip(bottom: seq<Block>, top: seq<Block>): (r: seq<Block>)
    requires |bottom| <= |top| <= |bottom| + 1
    ensures |r| == |bottom| + |top|
  {
    seq(|bottom| + |top|, i requires 0 <= i < |bottom| + |top| =>
      if i / 2 < |bottom| && i % 2 == 0 then bottom[i / 2] else top[i / 2])
  }

  /** The masks that the input level hands to the two halves. */
  function LowIn(t: PairGrid, lvl: nat, idx: nat, m: seq<Block>): (r: seq<Block>)
    requires lvl < |t| && idx + |m| / 2 <= |t[lvl]|
    ensures |r| == |m| / 2
  {
    Evens(ApplyLevel(t[lvl], idx, m))
  }

  function HighIn(t: PairGrid, lvl: nat, idx: nat, m: seq<Block>): (r: seq<Block>)
    requires lvl < |t| && idx + |m| / 2 <= |t[lvl]|
    ensures |r| == (|m| + 1) / 2
  {
    Odds(ApplyLevel(t[lvl], idx, m))
  }

  /**
   * How the other party's masks run through the network: straight, whatever the switches are. `t`
   * holds message 0 of every switch.
   */
  function OutMasks(t: PairGrid, n: nat, lvl: nat, idx: nat, m: seq<Block>): (r: seq<Block>)
    requires PairRoom(t, n, lvl, idx, |m|)
    ensures |r| == |m|
    decreases |m|, 1
  {
    hide LowOut, HighOut, Zip, ApplyLevel, OutSmall, PairRoom;
    if |m| <= 3 then
      OutSmall(t, n, lvl, idx, m)
    else
      SubPairRoom(t, n, lvl, idx, |m|);
      ApplyLevel(t[lvl + 2 * n - 2], idx, Zip(LowOut(t, n, lvl, idx, m), HighOut(t, n, lvl, idx, m)))
  }

  /** The output masks of the two halves. */
  function LowOut(t: PairGrid, n: nat, lvl: nat, idx: nat, m: seq<Block>): (r: seq<Block>)
    requires PairRoom(t, n, lvl, idx, |m|) && |m| >= 4
    ensures |r| == |m| / 2
    decreases |m|, 0
  {
    hide OutMasks, LowIn, PairRoom;
    SubPairRoom(t, n, lvl, idx, |m|);
    OutMasks(t, n - 1, lvl + 1, idx, LowIn(t, lvl, idx, m))
  }

  function HighOut(t: PairGrid, n: nat, lvl: nat, idx: nat, m: seq<Block>): (r: seq<Block>)
    requires PairRoom(t, n, lvl, idx, |m|) && |m| >= 4
    ensures |r| == (|m| + 1) / 2
    decreases |m|, 0
  {
    hide OutMasks, HighIn, PairRoom;
    SubPairRoom(t, n, lvl, idx, |m|);
    OutMasks(t, n - 1, lvl + 1, idx + |m| / 4, HighIn(t, lvl, idx, m))
  }

  function OutSmall(t: PairGrid, n: nat, lvl: nat, idx: nat, m: seq<Block>): (r: seq<Block>)
    requires PairRoom(t, n, lvl, idx, |m|) && |m| <= 3
    ensures |r| == |m|
  {
    if |m| == 2 then
      assert n <= 2 by { TwoWires(n); }
      Apply(t[MiddleLevel(n, lvl)][idx], 0, m)
    else
      assert n == 2 by { ThreeWires(n); }
      Apply(t[lvl + 2][idx], 0, Apply(t[lvl + 1][idx], 1, Apply(t[lvl][idx], 0, m)))
  }

  /** Message 1 of a switch whose wires come in under masks m0 and m1, when `t` is its message 0. */
  function Message1(t: Pair, m0: Block, m1: Block): Pair {
    Pair(Xor(m0, Xor(m1, t.b)), Xor(m1, Xor(m0, t.a)))
  }

  /** The pair that the party holding switch bit `s` must end up with. */
  function Served(s: Bit, t: Pair, m0: Block, m1: Block): Pair {
    if s == 0 then t else Message1(t, m0, m1)
  }

  /** The switches, the received pairs and message 0 of every switch all cover the box. */
  predicate Rooms(g: Grid, ot: PairGrid, t: PairGrid, n: nat, lvl: nat, idx: nat, values: nat) {
    Room(g, n, lvl, idx, values) && PairRoom(ot, n, lvl, idx, values) && PairRoom(t, n, lvl, idx, values)
  }

  lemma SubRooms(g: Grid, ot: PairGrid, t: PairGrid, n: nat, lvl: nat, idx: nat, values: nat)
    requires Rooms(g, ot, t, n, lvl, idx, values) && values >= 4
    ensures n >= 2
    ensures Rooms(g, ot, t, n - 1, lvl + 1, idx, values / 2)
    ensures Rooms(g, ot, t, n - 1, lvl + 1, idx + values / 4, (values + 1) / 2)
    ensures var last := lvl + 2 * n - 2;
      && last < |g| && last < |ot| && last < |t|
      && idx + values / 2 <= |g[lvl]| && idx + values / 2 <= |ot[lvl]| && idx + values / 2 <= |t[lvl]|
      && idx + values / 2 <= |g[last]| && idx + values / 2 <= |ot[last]| && idx + values / 2 <= |t[last]|
  {
    SubRoom(g, n, lvl, idx, values);
    SubPairRoom(ot, n, lvl, idx, values);
    SubPairRoom(t, n, lvl, idx, values);
  }

  /** Every switch of the network gets the pair that its own bit and its incoming masks call for. */
  ghost predicate AllServed(g: Grid, ot: PairGrid, t: PairGrid, n: nat, lvl: nat, idx: nat, m: seq<Block>)
    requires Rooms(g, ot, t, n, lvl, idx, |m|)
    decreases |m|, 1
  {
    hide LowServed, HighServed, SmallServed, OuterServed, Rooms;
    if |m| <= 3 then
      SmallServed(g, ot, t, n, lvl, idx, m)
    else
      OuterServed(g, ot, t, n, lvl, idx, m) && LowServed(g, ot, t, n, lvl, idx, m) &&
        HighServed(g, ot, t, n, lvl, idx, m)
  }

  ghost predicate LowServed(g: Grid, ot: PairGrid, t: PairGrid, n: nat, lvl: nat, idx: nat, m: seq<Block>)
    requires Rooms(g, ot, t, n, lvl, idx, |m|) && |m| >= 4
    decreases |m|, 0
  {
    hide AllServed, LowIn, Rooms;
    SubRooms(g, ot, t, n, lvl, idx, |m|);
    AllServed(g, ot, t, n - 1, lvl + 1, idx, LowIn(t, lvl, idx, m))
  }

  ghost predicate HighServed(g: Grid, ot: PairGrid, t: PairGrid, n: nat, lvl: nat, idx: nat, m: seq<Block>)
    requires Rooms(g, ot, t, n, lvl, idx, |m|) && |m| >= 4
    decreases |m|, 0
  {
    hide AllServed, HighIn, Rooms;
    SubRooms(g, ot, t, n, lvl, idx, |m|);
    AllServed(g, ot, t, n - 1, lvl + 1, idx + |m| / 4, HighIn(t, lvl, idx, m))
  }

  /** The same for the input and output levels of one recursion. */
  ghost predicate OuterServed(g: Grid, ot: PairGrid, t: PairGrid, n: nat, lvl: nat, idx: nat, m: seq<Block>)
    requires Rooms(g, ot, t, n, lvl, idx, |m|) && |m| >= 4
  {
    hide LowOut, HighOut, LevelServed, Evens, Odds;
    SubRooms(g, ot, t, n, lvl, idx, |m|);
    var last := lvl + 2 * n - 2;
    && LevelServed(g[lvl], ot[lvl], t[lvl], idx, Evens(m), Odds(m))
    && LevelServed(g[last], ot[last], t[last], idx, LowOut(t, n, lvl, idx, m), HighOut(t, n, lvl, idx, m))
  }

  lemma OuterParts(g: Grid, ot: PairGrid, t: PairGrid, n: nat, lvl: nat, idx: nat, m: seq<Block>)
    requires Rooms(g, ot, t, n, lvl, idx, |m|) && |m| >= 4 && OuterServed(g, ot, t, n, lvl, idx, m)
    ensures PairRoom(t, n, lvl, idx, |m|)
    ensures var last := lvl + 2 * n - 2;
      && last < |g| && last < |ot| && last < |t|
      && idx + |m| / 2 <= |g[lvl]| && idx + |m| / 2 <= |ot[lvl]| && idx + |m| / 2 <= |t[lvl]|
      && idx + |m| / 2 <= |g[last]| && idx + |m| / 2 <= |ot[last]| && idx + |m| / 2 <= |t[last]|
      && LevelServed(g[lvl], ot[lvl], t[lvl], idx, Evens(m), Odds(m))
      && LevelServed(g[last], ot[last], t[last], idx, LowOut(t, n, lvl, idx, m), HighOut(t, n, lvl, idx, m))
  {
    hide LowOut, HighOut, LevelServed, Evens, Odds;
    SubRooms(g, ot, t, n, lvl, idx, |m|);
  }

  ghost predicate SmallServed(g: Grid, ot: PairGrid, t: PairGrid, n: nat, lvl: nat, idx: nat, m: seq<Block>)
    requires Rooms(g, ot, t, n, lvl, idx, |m|) && |m| <= 3
  {
    if |m| == 2 then
      assert n <= 2 by { TwoWires(n); }
      var l := MiddleLevel(n, lvl);
      ot[l][idx] == Served(g[l][idx], t[l][idx], m[0], m[1])
    else
      assert n == 2 by { ThreeWires(n); }
      var m' := Apply(t[lvl][idx], 0, m);
      var m'' := Apply(t[lvl + 1][idx], 1, m');
      && ot[lvl][idx] == Served(g[lvl][idx], t[lvl][idx], m[0], m[1])
      && ot[lvl + 1][idx] == Served(g[lvl + 1][idx], t[lvl + 1][idx], m'[1], m'[2])
      && ot[lvl + 2][idx] == Served(g[lvl + 2][idx], t[lvl + 2][idx], m''[0], m''[1])
  }

  ghost predicate LevelServed(switches: seq<Bit>, row: seq<Pair>, t: seq<Pair>, idx: nat, m0: seq<Block>,
          m1: seq<Block>)
    requires |m0| <= |m1| && idx + |m0| <= |switches| && idx + |m0| <= |row| && idx + |m0| <= |t|
  {
    forall k :: 0 <= k < |m0| ==> row[idx + k] == Served(switches[idx + k], t[idx + k], m0[k], m1[k])
  }

  function XorAll(v: seq<Block>, m: seq<Block>): (r: seq<Block>)
    requires |v| == |m|
    ensures |r| == |v|
  {
    seq(|v|, i requires 0 <= i < |v| => Xor(v[i], m[i]))
  }

  /**
   * One switch: masked by m0 and m1 on the way in, masked by `t` applied to them on the way out, in
   * either position.
   */
  lemma SwitchServed(s: Bit, t: Pair, m0: Block, m1: Block, v0: Block, v1: Block)
    ensures var p := Served(s, t, m0, m1);
      if s == 0 then
        Xor(Xor(v0, m0), p.a) == Xor(v0, Xor(m0, t.a)) && Xor(Xor(v1, m1), p.b) == Xor(v1, Xor(m1, t.b))
      else
        Xor(Xor(v0, m0), p.a) == Xor(v0, Xor(m1, t.b)) && Xor(Xor(v1, m1), p.b) == Xor(v1, Xor(m0, t.a))
  {
    XorCancels(v0, m0, Xor(m1, t.b));
    XorCancels(v1, m1, Xor(m0, t.a));
    XorAssociates(v0, m0, t.a);
    XorAssociates(v1, m1, t.b);
  }

  lemma XorAssociates(a: Block, b: Block, c: Block)
    ensures Xor(Xor(a, b), c) == Xor(a, Xor(b, c))
  {
  }

  lemma XorCancels(v: Block, m: Block, w: Block)
    ensures Xor(Xor(v, m), Xor(m, w)) == Xor(v, w)
    ensures Xor(Xor(v, m), m) == v
    ensures Xor(v, m) == Xor(m, v)
  {
  }

  lemma LevelServedAt(switches: seq<Bit>, row: seq<Pair>, t: seq<Pair>, idx: nat, m0: seq<Block>, m1: seq<Block>,
          k: nat)
    requires |m0| <= |m1| && idx + |m0| <= |switches| && idx + |m0| <= |row| && idx + |m0| <= |t|
    requires LevelServed(switches, row, t, idx, m0, m1) && k < |m0|
    ensures row[idx + k] == Served(switches[idx + k], t[idx + k], m0[k], m1[k])
  {
    assert m0[k] == m0[k];
  }

  lemma EnterLowerAt(g: Grid, ot: PairGrid, t: PairGrid, lvl: nat, idx: nat, v: seq<Block>, m: seq<Block>, k: nat)
    requires |v| == |m| && lvl < |g| && lvl < |ot| && lvl < |t| && k < |m| / 2
    requires idx + |m| / 2 <= |g[lvl]| && idx + |m| / 2 <= |ot[lvl]| && idx + |m| / 2 <= |t[lvl]|
    requires ot[lvl][idx + k] == Served(g[lvl][idx + k], t[lvl][idx + k], m[2 * k], m[2 * k + 1])
    ensures EnterLower(g, ot, lvl, idx, XorAll(v, m))[k] == Xor(Lower(g, lvl, idx, v)[k], LowIn(t, lvl, idx, m)[k])
  {
    hide Xor;
    SwitchServed(g[lvl][idx + k], t[lvl][idx + k], m[2 * k], m[2 * k + 1], v[2 * k], v[2 * k + 1]);
  }

  lemma EnterUpperAt(g: Grid, ot: PairGrid, t: PairGrid, lvl: nat, idx: nat, v: seq<Block>, m: seq<Block>, k: nat)
    requires |v| == |m| && lvl < |g| && lvl < |ot| && lvl < |t| && k < |m| / 2
    requires idx + |m| / 2 <= |g[lvl]| && idx + |m| / 2 <= |ot[lvl]| && idx + |m| / 2 <= |t[lvl]|
    requires ot[lvl][idx + k] == Served(g[lvl][idx + k], t[lvl][idx + k], m[2 * k], m[2 * k + 1])
    ensures EnterUpper(g, ot, lvl, idx, XorAll(v, m))[k] == Xor(Upper(g, lvl, idx, v)[k], HighIn(t, lvl, idx, m)[k])
  {
    hide Xor;
    SwitchServed(g[lvl][idx + k], t[lvl][idx + k], m[2 * k], m[2 * k + 1], v[2 * k], v[2 * k + 1]);
  }

  /** The input level turns masked wires into wires masked by what the other party hands to each half. */
  lemma EnterServed(g: Grid, ot: PairGrid, t: PairGrid, lvl: nat, idx: nat, v: seq<Block>, m: seq<Block>)
    requires |v| == |m| && lvl < |g| && lvl < |ot| && lvl < |t|
    requires idx + |m| / 2 <= |g[lvl]| && idx + |m| / 2 <= |ot[lvl]| && idx + |m| / 2 <= |t[lvl]|
    requires LevelServed(g[lvl], ot[lvl], t[lvl], idx, Evens(m), Odds(m))
    ensures EnterLower(g, ot, lvl, idx, XorAll(v, m)) == XorAll(Lower(g, lvl, idx, v), LowIn(t, lvl, idx, m))
    ensures EnterUpper(g, ot, lvl, idx, XorAll(v, m)) == XorAll(Upper(g, lvl, idx, v), HighIn(t, lvl, idx, m))
  {
    forall k: nat | k < |m| / 2
      ensures EnterLower(g, ot, lvl, idx, XorAll(v, m))[k] == Xor(Lower(g, lvl, idx, v)[k], LowIn(t, lvl, idx, m)[k])
      ensures EnterUpper(g, ot, lvl, idx, XorAll(v, m))[k] == Xor(Upper(g, lvl, idx, v)[k], HighIn(t, lvl, idx, m)[k])
    {
      LevelServedAt(g[lvl], ot[lvl], t[lvl], idx, Evens(m), Odds(m), k);
      EnterLowerAt(g, ot, t, lvl, idx, v, m, k);
      EnterUpperAt(g, ot, t, lvl, idx, v, m, k);
    }
    if |m| % 2 == 1 {
      LastEnters(g, ot, t, lvl, idx, v, m);
    }
    hide EnterLower, EnterUpper, Lower, Upper, LowIn, HighIn, Xor;
  }

  lemma LastEnters(g: Grid, ot: PairGrid, t: PairGrid, lvl: nat, idx: nat, v: seq<Block>, m: seq<Block>)
    requires |v| == |m| && lvl < |g| && lvl < |ot| && lvl < |t| && |m| % 2 == 1
    requires idx + |m| / 2 <= |g[lvl]| && idx + |m| / 2 <= |ot[lvl]| && idx + |m| / 2 <= |t[lvl]|
    ensures EnterUpper(g, ot, lvl, idx, XorAll(v, m))[|m| / 2] ==
        Xor(Upper(g, lvl, idx, v)[|m| / 2], HighIn(t, lvl, idx, m)[|m| / 2])
  {
  }

  /** The output level does the same on the way out of the halves. */
  lemma LeaveServed(g: Grid, ot: PairGrid, t: PairGrid, l: nat, idx: nat,
                    bv: seq<Block>, tv: seq<Block>, bm: seq<Block>, tm: seq<Block>)
    requires |bv| == |bm| <= |tv| == |tm| <= |bm| + 1 && l < |g| && l < |ot| && l < |t|
    requires idx + |bm| <= |g[l]| && idx + |bm| <= |ot[l]| && idx + |bm| <= |t[l]|
    requires LevelServed(g[l], ot[l], t[l], idx, bm, tm)
    ensures Leave(g, ot, l, idx, XorAll(bv, bm), XorAll(tv, tm))
         == XorAll(Join(g, l, idx, bv, tv), ApplyLevel(t[l], idx, Zip(bm, tm)))
  {
    hide Xor;
    var left, right := Leave(g, ot, l, idx, XorAll(bv, bm), XorAll(tv, tm)),
                       XorAll(Join(g, l, idx, bv, tv), ApplyLevel(t[l], idx, Zip(bm, tm)));
    forall i | 0 <= i < |bm| + |tm|
      ensures left[i] == right[i]
    {
      var k := i / 2;
      if k < |bm| {
        assert ot[l][idx + k] == Served(g[l][idx + k], t[l][idx + k], bm[k], tm[k]);
        SwitchServed(g[l][idx + k], t[l][idx + k], bm[k], tm[k], bv[k], tv[k]);
      }
    }
  }

  lemma MaskedUnfold(g: Grid, ot: PairGrid, n: nat, lvl: nat, idx: nat, src: seq<Block>)
    requires Room(g, n, lvl, idx, |src|) && PairRoom(ot, n, lvl, idx, |src|) && |src| >= 4
    ensures lvl + 2 * n - 2 < |g| && idx + |src| / 2 <= |g[lvl + 2 * n - 2]|
    ensures lvl + 2 * n - 2 < |ot| && idx + |src| / 2 <= |ot[lvl + 2 * n - 2]|
    ensures MaskedEval(g, ot, n, lvl, idx, src) ==
      Leave(g, ot, lvl + 2 * n - 2, idx, MaskedLow(g, ot, n, lvl, idx, src), MaskedHigh(g, ot, n, lvl, idx, src))
  {
    hide Room, PairRoom, EnterLower, EnterUpper, Leave;
    SubRoom(g, n, lvl, idx, |src|);
    SubPairRoom(ot, n, lvl, idx, |src|);
  }

  lemma OutUnfold(t: PairGrid, n: nat, lvl: nat, idx: nat, m: seq<Block>)
    requires PairRoom(t, n, lvl, idx, |m|) && |m| >= 4
    ensures lvl + 2 * n - 2 < |t| && idx + |m| / 2 <= |t[lvl + 2 * n - 2]|
    ensures OutMasks(t, n, lvl, idx, m) ==
      ApplyLevel(t[lvl + 2 * n - 2], idx, Zip(LowOut(t, n, lvl, idx, m), HighOut(t, n, lvl, idx, m)))
  {
    hide PairRoom, LowIn, HighIn, Zip, ApplyLevel;
    SubPairRoom(t, n, lvl, idx, |m|);
  }

  lemma MaskedSmallRefines(g: Grid, ot: PairGrid, t: PairGrid, n: nat, lvl: nat, idx: nat, v: seq<Block>, m: seq<Block>)
    requires Rooms(g, ot, t, n, lvl, idx, |m|) && |v| == |m| <= 3 && SmallServed(g, ot, t, n, lvl, idx, m)
    ensures MaskedSmall(g, ot, n, lvl, idx, XorAll(v, m)) ==
        XorAll(Eval(g, n, lvl, idx, v), OutSmall(t, n, lvl, idx, m))
  {
    hide Xor;
    if |m| == 2 {
      TwoWires(n);
      var l := MiddleLevel(n, lvl);
      CrossServed(g[l][idx], ot[l][idx], t[l][idx], 0, v, m);
    } else {
      ThreeWires(n);
      var v', m' := Cross(g[lvl][idx], 0, v), Apply(t[lvl][idx], 0, m);
      var v'', m'' := Cross(g[lvl + 1][idx], 1, v'), Apply(t[lvl + 1][idx], 1, m');
      CrossServed(g[lvl][idx], ot[lvl][idx], t[lvl][idx], 0, v, m);
      CrossServed(g[lvl + 1][idx], ot[lvl + 1][idx], t[lvl + 1][idx], 1, v', m');
      CrossServed(g[lvl + 2][idx], ot[lvl + 2][idx], t[lvl + 2][idx], 0, v'', m'');
    }
  }

  lemma CrossServed(s: Bit, p: Pair, t: Pair, at: nat, v: seq<Block>, m: seq<Block>)
    requires |v| == |m| && at + 1 < |m| && p == Served(s, t, m[at], m[at + 1])
    ensures Cross(s, at, Apply(p, at, XorAll(v, m))) == XorAll(Cross(s, at, v), Apply(t, at, m))
  {
    hide Xor;
    SwitchServed(s, t, m[at], m[at + 1], v[at], v[at + 1]);
  }

  /**
   * Refinement. Whatever the switches are, running the masked network on masked wires gives the
   * plain network's result, masked by the output masks that the other party computed without
   * knowing the switches.
   */
  lemma {:induction false} MaskedRefines(g: Grid, ot: PairGrid, t: PairGrid, n: nat, lvl: nat, idx: nat, v: seq<Block>,
          m: seq<Block>)
    requires |v| == |m| && Rooms(g, ot, t, n, lvl, idx, |m|)
    requires AllServed(g, ot, t, n, lvl, idx, m)
    ensures MaskedEval(g, ot, n, lvl, idx, XorAll(v, m)) == XorAll(Eval(g, n, lvl, idx, v), OutMasks(t, n, lvl, idx, m))
    decreases |m|
  {
    if |m| <= 3 {
      hide XorAll, MaskedSmall, OutSmall, SmallServed;
      MaskedSmallRefines(g, ot, t, n, lvl, idx, v, m);
    } else {
      MaskedRefinesLarge(g, ot, t, n, lvl, idx, v, m);
    }
  }

  lemma {:induction false} MaskedRefinesLarge(g: Grid, ot: PairGrid, t: PairGrid, n: nat, lvl: nat, idx: nat,
          v: seq<Block>, m: seq<Block>)
    requires |v| == |m| >= 4 && Rooms(g, ot, t, n, lvl, idx, |m|)
    requires AllServed(g, ot, t, n, lvl, idx, m)
    ensures MaskedEval(g, ot, n, lvl, idx, XorAll(v, m)) == XorAll(Eval(g, n, lvl, idx, v), OutMasks(t, n, lvl, idx, m))
    decreases |m|, 0
  {
    hide *;
    SubRooms(g, ot, t, n, lvl, idx, |m|);
    ServedParts(g, ot, t, n, lvl, idx, m);
    LowServedIs(g, ot, t, n, lvl, idx, m);
    HighServedIs(g, ot, t, n, lvl, idx, m);
    OuterParts(g, ot, t, n, lvl, idx, m);
    RoomsParts(g, ot, t, n, lvl, idx, |m|);
    EvalUnfold(g, n, lvl, idx, v);
    var bv := Eval(g, n - 1, lvl + 1, idx, Lower(g, lvl, idx, v));
    var tv := Eval(g, n - 1, lvl + 1, idx + |m| / 4, Upper(g, lvl, idx, v));
    assert MaskedLow(g, ot, n, lvl, idx, XorAll(v, m)) == XorAll(bv, LowOut(t, n, lvl, idx, m))
        && MaskedHigh(g, ot, n, lvl, idx, XorAll(v, m)) == XorAll(tv, HighOut(t, n, lvl, idx, m)) by {
      MaskedHalvesAre(g, ot, n, lvl, idx, XorAll(v, m));
      OutHalvesAre(t, n, lvl, idx, m);
      EnterServed(g, ot, t, lvl, idx, v, m);
      MaskedRefines(g, ot, t, n - 1, lvl + 1, idx, Lower(g, lvl, idx, v), LowIn(t, lvl, idx, m));
      MaskedRefines(g, ot, t, n - 1, lvl + 1, idx + |m| / 4, Upper(g, lvl, idx, v), HighIn(t, lvl, idx, m));
    }
    MaskedUnfold(g, ot, n, lvl, idx, XorAll(v, m));
    OutUnfold(t, n, lvl, idx, m);
    LeaveServed(g, ot, t, lvl + 2 * n - 2, idx, bv, tv, LowOut(t, n, lvl, idx, m), HighOut(t, n, lvl, idx, m));
  }

  lemma RoomsParts(g: Grid, ot: PairGrid, t: PairGrid, n: nat, lvl: nat, idx: nat, values: nat)
    requires Rooms(g, ot, t, n, lvl, idx, values)
    ensures Room(g, n, lvl, idx, values) && PairRoom(ot, n, lvl, idx, values) && PairRoom(t, n, lvl, idx, values)
  {
  }

  lemma MaskedHalvesAre(g: Grid, ot: PairGrid, n: nat, lvl: nat, idx: nat, src: seq<Block>)
    requires Room(g, n, lvl, idx, |src|) && PairRoom(ot, n, lvl, idx, |src|) && |src| >= 4
    ensures n >= 2 && lvl < |g| && lvl < |ot|
    ensures idx + |src| / 2 <= |g[lvl]| && idx + |src| / 2 <= |ot[lvl]|
    ensures Room(g, n - 1, lvl + 1, idx, |src| / 2) && PairRoom(ot, n - 1, lvl + 1, idx, |src| / 2)
    ensures Room(g, n - 1, lvl + 1, idx + |src| / 4, (|src| + 1) / 2)
    ensures PairRoom(ot, n - 1, lvl + 1, idx + |src| / 4, (|src| + 1) / 2)
    ensures MaskedLow(g, ot, n, lvl, idx, src) ==
        MaskedEval(g, ot, n - 1, lvl + 1, idx, EnterLower(g, ot, lvl, idx, src))
    ensures MaskedHigh(g, ot, n, lvl, idx, src) ==
        MaskedEval(g, ot, n - 1, lvl + 1, idx + |src| / 4, EnterUpper(g, ot, lvl, idx, src))
  {
    hide MaskedEval, EnterLower, EnterUpper, Room, PairRoom;
    SubRoom(g, n, lvl, idx, |src|);
    SubPairRoom(ot, n, lvl, idx, |src|);
  }

  lemma OutHalvesAre(t: PairGrid, n: nat, lvl: nat, idx: nat, m: seq<Block>)
    requires PairRoom(t, n, lvl, idx, |m|) && |m| >= 4
    ensures n >= 2 && lvl < |t| && idx + |m| / 2 <= |t[lvl]|
    ensures PairRoom(t, n - 1, lvl + 1, idx, |m| / 2)
    ensures PairRoom(t, n - 1, lvl + 1, idx + |m| / 4, (|m| + 1) / 2)
    ensures LowOut(t, n, lvl, idx, m) == OutMasks(t, n - 1, lvl + 1, idx, LowIn(t, lvl, idx, m))
    ensures HighOut(t, n, lvl, idx, m) == OutMasks(t, n - 1, lvl + 1, idx + |m| / 4, HighIn(t, lvl, idx, m))
  {
    hide OutMasks, LowIn, HighIn, PairRoom;
    SubPairRoom(t, n, lvl, idx, |m|);
  }

  lemma LowServedIs(g: Grid, ot: PairGrid, t: PairGrid, n: nat, lvl: nat, idx: nat, m: seq<Block>)
    requires Rooms(g, ot, t, n, lvl, idx, |m|) && |m| >= 4
    ensures n >= 2 && lvl < |t| && idx + |m| / 2 <= |t[lvl]| && Rooms(g, ot, t, n - 1, lvl + 1, idx, |m| / 2)
    ensures LowServed(g, ot, t, n, lvl, idx, m) <==> AllServed(g, ot, t, n - 1, lvl + 1, idx, LowIn(t, lvl, idx, m))
  {
    hide AllServed, LowIn, Rooms;
    SubRooms(g, ot, t, n, lvl, idx, |m|);
  }

  lemma HighServedIs(g: Grid, ot: PairGrid, t: PairGrid, n: nat, lvl: nat, idx: nat, m: seq<Block>)
    requires Rooms(g, ot, t, n, lvl, idx, |m|) && |m| >= 4
    ensures n >= 2 && lvl < |t| && idx + |m| / 2 <= |t[lvl]|
    ensures Rooms(g, ot, t, n - 1, lvl + 1, idx + |m| / 4, (|m| + 1) / 2)
    ensures HighServed(g, ot, t, n, lvl, idx, m) <==>
        AllServed(g, ot, t, n - 1, lvl + 1, idx + |m| / 4, HighIn(t, lvl, idx, m))
  {
    hide AllServed, HighIn, Rooms;
    SubRooms(g, ot, t, n, lvl, idx, |m|);
  }

  lemma ServedParts(g: Grid, ot: PairGrid, t: PairGrid, n: nat, lvl: nat, idx: nat, m: seq<Block>)
    requires Rooms(g, ot, t, n, lvl, idx, |m|) && |m| >= 4
    ensures AllServed(g, ot, t, n, lvl, idx, m) <==>
      OuterServed(g, ot, t, n, lvl, idx, m) && LowServed(g, ot, t, n, lvl, idx, m) &&
        HighServed(g, ot, t, n, lvl, idx, m)
  {
    hide LowServed, HighServed, OuterServed, Rooms;
  }

  /**
   * A cell whose received pair suits switch bit `g` also suits bit `g'` in the other table: either
   * nothing changed, or the first table holds message 1 (the pair for a set switch) and the second
   * one takes message 0 instead when its own switch is not set.
   */
  ghost predicate Carries(g: Bit, ot: Pair, g': Bit, ot': Pair, t: Pair) {
    || (g' == g && ot' == ot)
    || (g == 1 && ot' == if g' == 0 then t else ot)
  }

  ghost predicate CarriesRow(g: seq<Bit>, ot: seq<Pair>, g': seq<Bit>, ot': seq<Pair>, t: seq<Pair>, idx: nat,
          count: nat)
    requires idx + count <= |g| && idx + count <= |ot| && idx + count <= |t| && idx + count <= |g'|
    requires idx + count <= |ot'|
  {
    forall c :: idx <= c < idx + count ==> Carries(g[c], ot[c], g'[c], ot'[c], t[c])
  }

  ghost predicate CarriesBox(g: Grid, ot: PairGrid, g': Grid, ot': PairGrid, t: PairGrid, n: nat, lvl: nat, idx: nat,
          values: nat)
    requires Rooms(g, ot, t, n, lvl, idx, values) && Rooms(g', ot', t, n, lvl, idx, values)
  {
    forall l: nat, c: nat {:trigger Used(l, c, n, lvl, idx, values)} :: Used(l, c, n, lvl, idx, values) ==>
      CarriesAt(g, ot, g', ot', t, l, c)
  }

  ghost predicate CarriesAt(g: Grid, ot: PairGrid, g': Grid, ot': PairGrid, t: PairGrid, l: nat, c: nat) {
    && l < |g| && l < |ot| && l < |g'| && l < |ot'| && l < |t|
    && c < |g[l]| && c < |ot[l]| && c < |g'[l]| && c < |ot'[l]| && c < |t[l]|
    && Carries(g[l][c], ot[l][c], g'[l][c], ot'[l][c], t[l][c])
  }

  lemma LevelCarries(g: seq<Bit>, ot: seq<Pair>, g': seq<Bit>, ot': seq<Pair>, t: seq<Pair>, idx: nat, m0: seq<Block>,
          m1: seq<Block>)
    requires |m0| <= |m1| && idx + |m0| <= |g| && idx + |m0| <= |ot| && idx + |m0| <= |t| && idx + |m0| <= |g'|
    requires idx + |m0| <= |ot'|
    requires CarriesRow(g, ot, g', ot', t, idx, |m0|) && LevelServed(g, ot, t, idx, m0, m1)
    ensures LevelServed(g', ot', t, idx, m0, m1)
  {
    forall k | 0 <= k < |m0|
      ensures ot'[idx + k] == Served(g'[idx + k], t[idx + k], m0[k], m1[k])
    {
      LevelServedAt(g, ot, t, idx, m0, m1, k);
      assert Carries(g[idx + k], ot[idx + k], g'[idx + k], ot'[idx + k], t[idx + k]);
    }
  }

  lemma CarriesParts(g: Grid, ot: PairGrid, g': Grid, ot': PairGrid, t: PairGrid, n: nat, lvl: nat, idx: nat,
          values: nat)
    requires values >= 4 && Rooms(g, ot, t, n, lvl, idx, values) && Rooms(g', ot', t, n, lvl, idx, values)
    requires CarriesBox(g, ot, g', ot', t, n, lvl, idx, values)
    ensures n >= 2
    ensures Rooms(g, ot, t, n - 1, lvl + 1, idx, values / 2) && Rooms(g', ot', t, n - 1, lvl + 1, idx, values / 2)
    ensures Rooms(g, ot, t, n - 1, lvl + 1, idx + values / 4, (values + 1) / 2)
    ensures Rooms(g', ot', t, n - 1, lvl + 1, idx + values / 4, (values + 1) / 2)
    ensures CarriesBox(g, ot, g', ot', t, n - 1, lvl + 1, idx, values / 2)
    ensures CarriesBox(g, ot, g', ot', t, n - 1, lvl + 1, idx + values / 4, (values + 1) / 2)
  {
    SubRooms(g, ot, t, n, lvl, idx, values);
    SubRooms(g', ot', t, n, lvl, idx, values);
    forall l: nat, c: nat | Used(l, c, n - 1, lvl + 1, idx, values / 2)
      ensures CarriesAt(g, ot, g', ot', t, l, c)
    {
      assert Used(l, c, n, lvl, idx, values);
    }
    forall l: nat, c: nat | Used(l, c, n - 1, lvl + 1, idx + values / 4, (values + 1) / 2)
      ensures CarriesAt(g, ot, g', ot', t, l, c)
    {
      assert Used(l, c, n, lvl, idx, values);
    }
  }

  lemma OuterCarries(g: Grid, ot: PairGrid, g': Grid, ot': PairGrid, t: PairGrid, n: nat, lvl: nat, idx: nat,
          m: seq<Block>)
    requires |m| >= 4 && Rooms(g, ot, t, n, lvl, idx, |m|) && Rooms(g', ot', t, n, lvl, idx, |m|)
    requires CarriesBox(g, ot, g', ot', t, n, lvl, idx, |m|) && OuterServed(g, ot, t, n, lvl, idx, m)
    ensures OuterServed(g', ot', t, n, lvl, idx, m)
  {
    hide LowOut, HighOut, LevelServed, Evens, Odds, Carries, Rooms;
    SubRooms(g, ot, t, n, lvl, idx, |m|);
    SubRooms(g', ot', t, n, lvl, idx, |m|);
    OuterParts(g, ot, t, n, lvl, idx, m);
    var last := lvl + 2 * n - 2;
    forall c: nat | idx <= c < idx + |m| / 2
      ensures Carries(g[lvl][c], ot[lvl][c], g'[lvl][c], ot'[lvl][c], t[lvl][c])
      ensures Carries(g[last][c], ot[last][c], g'[last][c], ot'[last][c], t[last][c])
    {
      assert Used(lvl, c, n, lvl, idx, |m|) && Used(last, c, n, lvl, idx, |m|);
    }
    LevelCarries(g[lvl], ot[lvl], g'[lvl], ot'[lvl], t[lvl], idx, Evens(m), Odds(m));
    LevelCarries(g[last], ot[last], g'[last], ot'[last], t[last], idx, LowOut(t, n, lvl, idx, m),
      HighOut(t, n, lvl, idx, m));
  }

  lemma SmallCarries(g: Grid, ot: PairGrid, g': Grid, ot': PairGrid, t: PairGrid, n: nat, lvl: nat, idx: nat,
          m: seq<Block>)
    requires |m| <= 3 && Rooms(g, ot, t, n, lvl, idx, |m|) && Rooms(g', ot', t, n, lvl, idx, |m|)
    requires CarriesBox(g, ot, g', ot', t, n, lvl, idx, |m|) && SmallServed(g, ot, t, n, lvl, idx, m)
    ensures SmallServed(g', ot', t, n, lvl, idx, m)
  {
    hide Xor;
    if |m| == 2 {
      TwoWires(n);
      assert Used(MiddleLevel(n, lvl), idx, n, lvl, idx, 2);
    } else {
      ThreeWires(n);
      assert Used(lvl, idx, n, lvl, idx, 3) && Used(lvl + 1, idx, n, lvl, idx, 3) && Used(lvl + 2, idx, n, lvl, idx, 3);
    }
  }

  /** Being served depends only on the cells of the box, and message 1 everywhere serves any setting of the switches. */
  lemma {:induction false} ServedCarries(g: Grid, ot: PairGrid, g': Grid, ot': PairGrid, t: PairGrid, n: nat, lvl: nat,
          idx: nat, m: seq<Block>)
    requires Rooms(g, ot, t, n, lvl, idx, |m|) && Rooms(g', ot', t, n, lvl, idx, |m|)
    requires CarriesBox(g, ot, g', ot', t, n, lvl, idx, |m|) && AllServed(g, ot, t, n, lvl, idx, m)
    ensures AllServed(g', ot', t, n, lvl, idx, m)
    decreases |m|
  {
    hide SmallServed, OuterServed, LowServed, HighServed, Rooms, CarriesBox, LowIn, HighIn, LowOut, HighOut;
    if |m| <= 3 {
      SmallCarries(g, ot, g', ot', t, n, lvl, idx, m);
    } else {
      ServedParts(g, ot, t, n, lvl, idx, m);
      LowServedIs(g, ot, t, n, lvl, idx, m);
      HighServedIs(g, ot, t, n, lvl, idx, m);
      LowServedIs(g', ot', t, n, lvl, idx, m);
      HighServedIs(g', ot', t, n, lvl, idx, m);
      CarriesParts(g, ot, g', ot', t, n, lvl, idx, |m|);
      OuterCarries(g, ot, g', ot', t, n, lvl, idx, m);
      ServedCarries(g, ot, g', ot', t, n - 1, lvl + 1, idx, LowIn(t, lvl, idx, m));
      ServedCarries(g, ot, g', ot', t, n - 1, lvl + 1, idx + |m| / 4, HighIn(t, lvl, idx, m));
    }
  }
}
