/** Two-dimensional tables stored in one flat vector, as the switches and the messages on the wire are. */
module FlatTables {

  /** The number of switches of the network. */
  function Cells(levels: nat, width: nat): nat {
    levels * width
  }

  lemma CellIndex(l: nat, c: nat, levels: nat, width: nat)
    requires l < levels && c < width
    ensures 0 <= l * width + c < levels * width
  {
    assert (l + 1) * width <= levels * width;
  }

  lemma ProductMono(a: nat, b: nat, width: nat)
    ensures a <= b ==> a * width <= b * width
  {
  }

  lemma CellIndexUnique(l: nat, c: nat, k: nat, d: nat, width: nat)
    requires c < width && d < width && l * width + c == k * width + d
    ensures l == k && c == d
  {
    ProductMono(l + 1, k, width);
    ProductMono(k + 1, l, width);
  }

  /** A flat vector with cell (l, c) at index l * width + c, by rows. */
  function Rows<T>(s: seq<T>, levels: nat, width: nat): (r: seq<seq<T>>)
    requires |s| == Cells(levels, width)
    ensures |r| == levels && forall l {:trigger r[l]} :: 0 <= l < levels ==> |r[l]| == width
  {
    seq(levels, l requires 0 <= l < levels =>
      seq(width, c requires 0 <= c < width => CellIndex(l, c, levels, width); s[l * width + c]))
  }

  lemma RowsPut<T>(s: seq<T>, levels: nat, width: nat, l: nat, c: nat, x: T)
    requires |s| == Cells(levels, width) && l < levels && c < width
    ensures 0 <= l * width + c < |s|
    ensures Rows(s, levels, width)[l][c] == s[l * width + c]
    ensures Rows(s[l * width + c := x], levels, width) == Rows(s, levels, width)[l := Rows(s, levels, width)[l][c := x]]
  {
    CellIndex(l, c, levels, width);
    var s' := s[l * width + c := x];
    var r, r' := Rows(s, levels, width), Rows(s', levels, width);
    forall k, d | 0 <= k < levels && 0 <= d < width
      ensures r'[k][d] == if k == l && d == c then x else r[k][d]
    {
      CellIndex(k, d, levels, width);
      if k * width + d == l * width + c {
        CellIndexUnique(k, d, l, c, width);
      }
    }
    forall k | 0 <= k < levels
      ensures r'[k] == r[l := r[l][c := x]][k]
    {
    }
  }

  lemma RowsAt<T>(s: seq<T>, levels: nat, width: nat, l: nat, c: nat)
    requires |s| == Cells(levels, width) && l < levels && c < width
    ensures l * width + c < |s| && Rows(s, levels, width)[l][c] == s[l * width + c]
  {
    CellIndex(l, c, levels, width);
  }

  /** The flat vector holds the table row after row. */
  ghost predicate RowByRow<T>(s: seq<T>, g: seq<seq<T>>, width: nat) {
    forall l: nat, c: nat :: l < |g| && c < |g[l]| ==> CellAt(s, g, width, l, c)
  }

  ghost predicate CellAt<T>(s: seq<T>, g: seq<seq<T>>, width: nat, l: nat, c: nat)
    requires l < |g| && c < |g[l]|
  {
    l * width + c < |s| && s[l * width + c] == g[l][c]
  }

  lemma FlatIs<T>(s: seq<T>, g: seq<seq<T>>, width: nat)
    requires |s| == Cells(|g|, width) && Rows(s, |g|, width) == g
    ensures RowByRow(s, g, width)
  {
    hide Rows;
    forall l: nat, c: nat | l < |g| && c < |g[l]|
      ensures CellAt(s, g, width, l, c)
    {
      assert |Rows(s, |g|, width)[l]| == width;
      RowsAt(s, |g|, width, l, c);
    }
  }
}
