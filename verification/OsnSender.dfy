/**
 * The party that holds the permutation (class `OSNSender`): it draws and routes it, obtains one
 * pair per switch, and runs the masked network.
 */
module OsnSender {
  import opened Bits
  import opened BenesNetwork
  import opened BenesSplit
  import opened BenesRouting
  import opened FlatTables
  import opened MaskedNetwork
  import opened CorrectionTables
  import opened Shuffles

  class OSNSender {
    var size: nat
    var otType: int
    var benes: Benes
    var dest: seq<int>

    ghost predicate Ready()
      reads this, benes
    {
      && size >= 2 && |dest| == size
      && Permutes(Identity(size), dest)
      && |benes.switched| == 2 * CeilLog2(size) - 1
      && (forall l :: 0 <= l < |benes.switched| ==> |benes.switched[l]| == size / 2)
      && Room(benes.switched, CeilLog2(size), 0, 0, size)
      && Eval(benes.switched, CeilLog2(size), 0, 0, Identity(size)) == dest
    }

    /** `init`, with no cache file: `draws[i]` is the random word used at position i of the shuffle. */
    constructor (size: nat, otType: int, draws: seq<nat>)
      requires size >= 2 && |draws| == size
      ensures Ready() && fresh(benes) && this.size == size && this.otType == otType
      ensures dest == Shuffled(size, draws)
    {
      this.size := size;
      this.otType := otType;
      hide Permutes, Eval, OnlyBox, Shuffled;
      var n := CeilLog2(size);
      var src := Identity(size);
      var d := ShuffleIdentity(size, draws);
      ShuffledPermutes(size, draws);
      var b := new Benes(size, 2 * n - 1);
      ghost var blank := b.switched;
      FreshRoom(blank, size);
      b.GenBenesRoute(n, 0, 0, src, d);
      ShapeAfterRoute(blank, b.switched, size, src, d);
      benes, dest := b, d;
    }

    /** The bits sent to the other party when the choices were random. */
    method BitCorrection(switches: seq<Bit>, choices: seq<Bit>) returns (correction: seq<Bit>)
      requires |choices| == |switches|
      ensures |correction| == |switches|
      ensures forall k :: 0 <= k < |switches| ==> correction[k] == if switches[k] == choices[k] then 0 else 1
    {
      correction := seq(|switches|, k requires 0 <= k < |switches| => if switches[k] == choices[k] then 0 else 1);
    }

    /**
     * `gen_benes_server_osn` after the transfers: expands what was received and corrects it where
     * the switch is set.
     */
    method GenBenesServerOsn(switches: seq<Bit>, received: seq<Block>, corrections: seq<Pair>, aes: Block -> Block)
      returns (pairs: seq<Pair>)
      requires |received| == |corrections| == |switches|
      ensures |pairs| == |switches|
      ensures forall k :: 0 <= k < |switches| ==>
        pairs[k] == CorrectedPair(switches[k], received[k], corrections[k], aes)
      ensures forall k :: 0 <= k < |switches| ==>
        && pairs[k].a == (if switches[k] == 1 then Xor(corrections[k].a, received[k]) else received[k])
        && pairs[k].b == if switches[k] == 1 then Xor(corrections[k].b, aes(received[k])) else aes(received[k])
    {
      hide Xor;
      pairs := [];
      for k := 0 to |received|
        invariant |pairs| == k
        invariant forall j :: 0 <= j < k ==> pairs[j] == Pair(received[j], aes(received[j]))
      {
        pairs := pairs + [Pair(received[k], aes(received[k]))];
      }
      for k := 0 to |pairs|
        invariant |pairs| == |switches|
        invariant forall j :: 0 <= j < |pairs| ==>
          pairs[j] == if j < k then CorrectedPair(switches[j], received[j], corrections[j], aes)
            else Pair(received[j], aes(received[j]))
      {
        if switches[k] == 1 {
          pairs := pairs[k := XorPair(corrections[k], pairs[k])];
        }
      }
    }

    /** `run_osn` once the pairs and the masked inputs are there. */
    method RunOsn(input: seq<Block>, pairs: seq<Pair>) returns (share: seq<Block>)
      requires Ready() && |input| == size && |pairs| == Cells(2 * CeilLog2(size) - 1, size / 2)
      ensures PairRoom(Rows(pairs, 2 * CeilLog2(size) - 1, size / 2), CeilLog2(size), 0, 0, size)
      ensures share == MaskedEval(benes.switched, Rows(pairs, 2 * CeilLog2(size) - 1, size / 2), CeilLog2(size), 0, 0,
          input)
    {
      hide Eval, MaskedEval, Rows, Permutes;
      var n := CeilLog2(size);
      var matrix := MatrixOf(pairs, 2 * n - 1, size / 2);
      MatrixRoom(matrix, size);
      var vec := new Block[|input|](i requires 0 <= i < |input| => input[i]);
      assert vec[..] == input;
      benes.GenBenesMaskedEvaluate(n, 0, 0, vec, matrix);
      share := vec[..];
    }
  }

  /** The nested loop that lays the pairs out by level, counting through the flat vector. */
  method MatrixOf(pairs: seq<Pair>, levels: nat, width: nat) returns (matrix: PairGrid)
    requires |pairs| == Cells(levels, width)
    ensures matrix == Rows(pairs, levels, width)
  {
    hide Rows;
    matrix := [];
    var ctr := 0;
    for i := 0 to levels
      invariant |matrix| == i && ctr == i * width
      invariant matrix == Rows(pairs, levels, width)[..i]
    {
      var row := [];
      for j := 0 to width
        invariant |row| == j && ctr == i * width + j
        invariant row == Rows(pairs, levels, width)[i][..j]
      {
        RowsAt(pairs, levels, width, i, j);
        row := row + [pairs[ctr]];
        ctr := ctr + 1;
      }
      assert row == Rows(pairs, levels, width)[i];
      matrix := matrix + [row];
    }
  }

  lemma MatrixRoom(t: PairGrid, size: nat)
    requires size >= 2 && |t| == 2 * CeilLog2(size) - 1 && forall l :: 0 <= l < |t| ==> |t[l]| == size / 2
    ensures PairRoom(t, CeilLog2(size), 0, 0, size)
  {
  }

  lemma FreshRoom(g: Grid, size: nat)
    requires size >= 2 && |g| == 2 * CeilLog2(size) - 1 && forall l :: 0 <= l < |g| ==> g[l] == seq(size / 2, _ => 0)
    ensures Room(g, CeilLog2(size), 0, 0, size)
  {
  }

  lemma ShapeAfterRoute(g: Grid, h: Grid, size: nat, src: seq<int>, d: seq<int>)
    requires size >= 2 && |g| == 2 * CeilLog2(size) - 1 && OnlyBox(g, h, CeilLog2(size), 0, 0, size)
    requires forall l :: 0 <= l < |g| ==> |g[l]| == size / 2
    ensures |h| == |g| && forall l :: 0 <= l < |h| ==> |h[l]| == size / 2
    ensures Room(h, CeilLog2(size), 0, 0, size)
  {
  }

  /** The shuffle: from the last position down, exchange with a random position not above it. */
  method ShuffleIdentity(size: nat, draws: seq<nat>) returns (d: seq<int>)
    requires size >= 2 && |draws| == size
    ensures d == Shuffled(size, draws)
  {
    d := Identity(size);
    var i := size - 1;
    while i > 0
      invariant 0 <= i < size && |d| == size
      invariant ShuffledFrom(d, draws, i) == Shuffled(size, draws)
    {
      var loc := draws[i] % (i + 1);
      d := d[i := d[loc]][loc := d[i]];
      i := i - 1;
    }
  }

  /** The pair of a switch after the correction. */
  function CorrectedPair(s: Bit, received: Block, correction: Pair, aes: Block -> Block): Pair {
    if s == 1 then XorPair(correction, Pair(received, aes(received))) else Pair(received, aes(received))
  }
}
