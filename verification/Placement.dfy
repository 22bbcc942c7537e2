/**
 * Where inserted items go, on values: a bundle is a row of bins, and all bundles at one bundle index
 * together hold what was inserted there.
 */
module Placement {
  import opened Parameters

  type Felt = nat
  type Bins = seq<seq<Felt>>

  /** An item as field elements, with its place in the table. */
  datatype Data = Data(felts: seq<Felt>, cuckooIdx: nat)

  function EmptyBins(count: nat): (r: Bins)
    ensures |r| == count && forall k :: 0 <= k < count ==> r[k] == []
  {
    seq(count, _ => [])
  }

  /** Is there a bin for every field element? */
  predicate Room(bins: Bins, items: seq<Felt>, start: nat) {
    items != [] && start < |bins| && |items| <= |bins| - start
  }

  /** With labels a bin holds no field element twice. */
  predicate Clash(bins: Bins, items: seq<Felt>, start: nat)
    requires Room(bins, items, start)
  {
    exists j :: 0 <= j < |items| && items[j] in bins[start + j]
  }

  predicate Allowed(bins: Bins, items: seq<Felt>, start: nat, labelled: bool) {
    Room(bins, items, start) && !(labelled && Clash(bins, items, start))
  }

  /** Field element j appended to bin start + j. */
  function Inserted(bins: Bins, items: seq<Felt>, start: nat): (r: Bins)
    requires Room(bins, items, start)
    ensures |r| == |bins|
  {
    seq(|bins|, k requires 0 <= k < |bins| => if start <= k < start + |items| then bins[k] + [items[k - start]]
      else bins[k])
  }

  /** The largest of the bins that get something. */
  function LargestAfter(bins: Bins, items: seq<Felt>, start: nat, upto: nat): nat
    requires Room(bins, items, start) && upto <= |items|
  {
    if upto == 0 then 0
    else
      var before := LargestAfter(bins, items, start, upto - 1);
      if before < |bins[start + upto - 1]| + 1 then |bins[start + upto - 1]| + 1 else before
  }

  lemma {:induction false} LargestBounds(bins: Bins, items: seq<Felt>, start: nat, upto: nat)
    requires Room(bins, items, start) && upto <= |items|
    ensures forall k :: start <= k < start + upto ==> |bins[k]| + 1 <= LargestAfter(bins, items, start, upto)
    ensures upto > 0 ==>
        exists k :: start <= k < start + upto && |bins[k]| + 1 == LargestAfter(bins, items, start, upto)
    decreases upto
  {
    if upto == 0 {
    } else {
      LargestBounds(bins, items, start, upto - 1);
      var k := start + upto - 1;
      assert |bins[k]| + 1 == LargestAfter(bins, items, start, upto) ||
        LargestAfter(bins, items, start, upto - 1) == LargestAfter(bins, items, start, upto);
    }
  }

  /** Would this bundle take the item without a bin growing to the limit? */
  predicate Takes(bins: Bins, items: seq<Felt>, start: nat, max: nat, labelled: bool) {
    Allowed(bins, items, start, labelled) && LargestAfter(bins, items, start, |items|) < max
  }

  /** The last bundle that takes the item, or the number of bundles. */
  function LastTaking(bundles: seq<Bins>, items: seq<Felt>, start: nat, max: nat, labelled: bool): (b: nat)
    ensures b <= |bundles|
    ensures b < |bundles| ==> Takes(bundles[b], items, start, max, labelled)
    ensures forall c :: 0 <= c < |bundles| && Takes(bundles[c], items, start, max, labelled) ==> b < |bundles| && c <= b
  {
    if bundles == [] then 0
    else
      var last := |bundles| - 1;
      if Takes(bundles[last], items, start, max, labelled) then last
      else
        var b := LastTaking(bundles[..last], items, start, max, labelled);
        if b == last then |bundles| else b
  }

  /** What one insertion makes of the bundles at an index. */
  function InsertOne(bundles: seq<Bins>, items: seq<Felt>, start: nat, max: nat, binCount: nat,
          labelled: bool): seq<Bins> {
    var b := LastTaking(bundles, items, start, max, labelled);
    if b < |bundles| then bundles[b := Inserted(bundles[b], items, start)]
    else if Room(EmptyBins(binCount), items, start) then bundles + [Inserted(EmptyBins(binCount), items, start)]
    else bundles
  }

  /** What the worker for one bundle index makes of them. */
  function InsertAll(bundles: seq<Bins>, data: seq<Data>, index: nat, max: nat, binCount: nat,
          labelled: bool): seq<Bins>
    requires binCount > 0
    decreases |data|
  {
    if data == [] then bundles
    else
      var before := InsertAll(bundles, data[..|data| - 1], index, max, binCount, labelled);
      var last := data[|data| - 1];
      var place := Unpack(last.cuckooIdx, binCount);
      if place.bundle != index then before
      else InsertOne(before, last.felts, place.bin, max, binCount, labelled)
  }

  lemma InsertAllNext(bundles: seq<Bins>, data: seq<Data>, p: nat, index: nat, max: nat, binCount: nat, labelled: bool)
    requires binCount > 0 && p < |data|
    ensures var before, place := InsertAll(bundles, data[..p], index, max, binCount, labelled),
        Unpack(data[p].cuckooIdx, binCount);
      InsertAll(bundles, data[..p + 1], index, max, binCount, labelled) ==
        if place.bundle != index then before else InsertOne(before, data[p].felts, place.bin, max, binCount, labelled)
  {
    hide InsertOne, Unpack;
    assert data[..p + 1][..p] == data[..p] && data[..p + 1][p] == data[p];
  }

  /** Every item has room in the bundle where it starts. */
  predicate Placed(data: seq<Data>, binCount: nat)
    requires binCount > 0
  {
    forall d :: d in data ==> d.felts != [] && Unpack(d.cuckooIdx, binCount).bin + |d.felts| <= binCount
  }

  predicate BinsBounded(bundles: seq<Bins>, max: nat) {
    forall b, k :: 0 <= b < |bundles| && 0 <= k < |bundles[b]| ==> |bundles[b][k]| <= Bound(max)
  }

  /** The bin bound that insertion keeps: one below the limit, but never below one. */
  function Bound(max: nat): nat {
    if max <= 2 then 1 else max - 1
  }

  lemma InsertOneBounded(bundles: seq<Bins>, items: seq<Felt>, start: nat, max: nat, binCount: nat, labelled: bool)
    requires BinsBounded(bundles, max)
    ensures BinsBounded(InsertOne(bundles, items, start, max, binCount, labelled), max)
  {
    hide LargestAfter;
    var b := LastTaking(bundles, items, start, max, labelled);
    if b < |bundles| {
      LargestBounds(bundles[b], items, start, |items|);
      forall k | 0 <= k < |bundles[b]|
        ensures |Inserted(bundles[b], items, start)[k]| <= Bound(max)
      {
      }
    }
  }

  /** Every bin stays within the bound, through any number of insertions. */
  lemma {:induction false} InsertAllBounded(bundles: seq<Bins>, data: seq<Data>, index: nat, max: nat, binCount: nat,
          labelled: bool)
    requires binCount > 0 && BinsBounded(bundles, max)
    ensures BinsBounded(InsertAll(bundles, data, index, max, binCount, labelled), max)
    decreases |data|
  {
    hide BinsBounded, InsertOne;
    if data == [] {
    } else {
      InsertAllBounded(bundles, data[..|data| - 1], index, max, binCount, labelled);
      var last := data[|data| - 1];
      InsertOneBounded(InsertAll(bundles, data[..|data| - 1], index, max, binCount, labelled), last.felts,
        Unpack(last.cuckooIdx, binCount).bin, max, binCount, labelled);
    }
  }

  /** All that the bundles hold in bin k, with multiplicity. */
  ghost function Held(bundles: seq<Bins>, k: nat): multiset<Felt> {
    if bundles == [] then multiset{} else Held(bundles[..|bundles| - 1], k) + InBin(bundles[|bundles| - 1], k)
  }

  ghost function InBin(bins: Bins, k: nat): multiset<Felt> {
    if k < |bins| then multiset(bins[k]) else multiset{}
  }

  /** What one item adds to bin k. */
  ghost function Adds(items: seq<Felt>, start: nat, k: nat): multiset<Felt> {
    if start <= k < start + |items| then multiset{items[k - start]} else multiset{}
  }

  lemma HeldLast(bundles: seq<Bins>, k: nat)
    requires bundles != []
    ensures Held(bundles, k) == Held(bundles[..|bundles| - 1], k) + InBin(bundles[|bundles| - 1], k)
  {
  }

  lemma InsertedBin(bins: Bins, items: seq<Felt>, start: nat, k: nat)
    requires Room(bins, items, start)
    ensures InBin(Inserted(bins, items, start), k) == InBin(bins, k) + Adds(items, start, k)
  {
  }

  lemma {:induction false} HeldPut(bundles: seq<Bins>, b: nat, items: seq<Felt>, start: nat, k: nat)
    requires b < |bundles| && Room(bundles[b], items, start)
    ensures Held(bundles[b := Inserted(bundles[b], items, start)], k) == Held(bundles, k) + Adds(items, start, k)
    decreases |bundles|
  {
    hide Held, InBin, Adds, Inserted, Room;
    var last := |bundles| - 1;
    var bundles' := bundles[b := Inserted(bundles[b], items, start)];
    HeldLast(bundles, k);
    HeldLast(bundles', k);
    if b == last {
      assert bundles'[..last] == bundles[..last];
      InsertedBin(bundles[b], items, start, k);
    } else {
      HeldPut(bundles[..last], b, items, start, k);
      assert bundles'[..last] == bundles[..last][b := Inserted(bundles[b], items, start)];
    }
  }

  lemma HeldAppend(bundles: seq<Bins>, bins: Bins, k: nat)
    ensures Held(bundles + [bins], k) == Held(bundles, k) + InBin(bins, k)
  {
    assert (bundles + [bins])[..|bundles|] == bundles;
  }

  /** One insertion adds the item to the bins it belongs to, and changes nothing else. */
  lemma InsertOneHeld(bundles: seq<Bins>, items: seq<Felt>, start: nat, max: nat, binCount: nat, labelled: bool, k: nat)
    requires Room(EmptyBins(binCount), items, start)
    ensures Held(InsertOne(bundles, items, start, max, binCount, labelled), k) ==
        Held(bundles, k) + Adds(items, start, k)
  {
    hide Held, Takes, Inserted, Adds;
    var b := LastTaking(bundles, items, start, max, labelled);
    if b < |bundles| {
      TakesRoom(bundles[b], items, start, max, labelled);
      HeldPut(bundles, b, items, start, k);
    } else {
      HeldAppend(bundles, Inserted(EmptyBins(binCount), items, start), k);
      InsertedBin(EmptyBins(binCount), items, start, k);
    }
  }

  lemma TakesRoom(bins: Bins, items: seq<Felt>, start: nat, max: nat, labelled: bool)
    requires Takes(bins, items, start, max, labelled)
    ensures Room(bins, items, start)
  {
  }

  /** What the data put into bin k of a bundle index. */
  ghost function Wanted(data: seq<Data>, index: nat, binCount: nat, k: nat): multiset<Felt>
    requires binCount > 0
  {
    if data == [] then multiset{}
    else
      var last := data[|data| - 1];
      var place := Unpack(last.cuckooIdx, binCount);
      Wanted(data[..|data| - 1], index, binCount, k) +
        (if place.bundle == index then Adds(last.felts, place.bin, k) else multiset{})
  }

  /** Conservation: the bundles at an index hold what they held before and what was inserted, no more and no less. */
  lemma {:induction false} InsertAllHeld(bundles: seq<Bins>, data: seq<Data>, index: nat, max: nat, binCount: nat,
          labelled: bool, k: nat)
    requires binCount > 0 && Placed(data, binCount)
    ensures Held(InsertAll(bundles, data, index, max, binCount, labelled), k) ==
        Held(bundles, k) + Wanted(data, index, binCount, k)
    decreases |data|
  {
    hide Held, InsertOne, Adds;
    if data == [] {
    } else {
      var rest, last := data[..|data| - 1], data[|data| - 1];
      assert last in data && forall d :: d in rest ==> d in data;
      InsertAllHeld(bundles, rest, index, max, binCount, labelled, k);
      InsertOneHeld(InsertAll(bundles, rest, index, max, binCount, labelled), last.felts,
        Unpack(last.cuckooIdx, binCount).bin, max, binCount, labelled, k);
    }
  }

  /** Some bundle holds field element j of the item in bin start + j, for all j at once. */
  ghost predicate Stored(bundles: seq<Bins>, items: seq<Felt>, start: nat) {
    exists b :: 0 <= b < |bundles| && StoredIn(bundles[b], items, start)
  }

  ghost predicate StoredIn(bins: Bins, items: seq<Felt>, start: nat) {
    start + |items| <= |bins| && forall j :: 0 <= j < |items| ==> items[j] in bins[start + j]
  }

  lemma InsertedStores(bins: Bins, items: seq<Felt>, start: nat)
    requires Room(bins, items, start)
    ensures StoredIn(Inserted(bins, items, start), items, start)
  {
  }

  lemma InsertedKeeps(bins: Bins, items: seq<Felt>, start: nat, other: seq<Felt>, at: nat)
    requires Room(bins, items, start) && StoredIn(bins, other, at)
    ensures StoredIn(Inserted(bins, items, start), other, at)
  {
  }

  lemma InsertOneStores(bundles: seq<Bins>, items: seq<Felt>, start: nat, max: nat, binCount: nat, labelled: bool,
          other: seq<Felt>, at: nat)
    ensures Room(EmptyBins(binCount), items, start) ==>
        Stored(InsertOne(bundles, items, start, max, binCount, labelled), items, start)
    ensures Stored(bundles, other, at) ==> Stored(InsertOne(bundles, items, start, max, binCount, labelled), other, at)
  {
    hide Takes, StoredIn, Inserted;
    var b, after := LastTaking(bundles, items, start, max, labelled),
      InsertOne(bundles, items, start, max, binCount, labelled);
    if b < |bundles| {
      TakesRoom(bundles[b], items, start, max, labelled);
      InsertedStores(bundles[b], items, start);
      assert after[b] == Inserted(bundles[b], items, start);
    } else if Room(EmptyBins(binCount), items, start) {
      InsertedStores(EmptyBins(binCount), items, start);
      assert after[|bundles|] == Inserted(EmptyBins(binCount), items, start);
    }
    if Stored(bundles, other, at) {
      var c :| 0 <= c < |bundles| && StoredIn(bundles[c], other, at);
      if c == b {
        InsertedKeeps(bundles[b], items, start, other, at);
      } else {
        assert after[c] == bundles[c];
      }
    }
  }

  /** Nothing is lost: every inserted item is stored whole, in one bundle at its bundle index. */
  lemma {:induction false} InsertAllStores(bundles: seq<Bins>, data: seq<Data>, index: nat, max: nat, binCount: nat,
          labelled: bool, i: nat)
    requires binCount > 0 && Placed(data, binCount) && i < |data| && Unpack(data[i].cuckooIdx, binCount).bundle == index
    ensures Stored(InsertAll(bundles, data, index, max, binCount, labelled), data[i].felts,
        Unpack(data[i].cuckooIdx, binCount).bin)
    decreases |data|
  {
    hide Stored, InsertOne;
    var rest, last := data[..|data| - 1], data[|data| - 1];
    var before := InsertAll(bundles, rest, index, max, binCount, labelled);
    assert last in data && forall d :: d in rest ==> d in data;
    InsertOneStores(before, last.felts, Unpack(last.cuckooIdx, binCount).bin, max, binCount, labelled,
      data[i].felts, Unpack(data[i].cuckooIdx, binCount).bin);
    if i < |data| - 1 {
      InsertAllStores(bundles, rest, index, max, binCount, labelled, i);
    }
  }
}
