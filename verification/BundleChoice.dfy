/**
 * Which bundle an item goes to, said in terms of bins and sizes: the last one that does not refuse it,
 * and a new one only when all refuse. And what a labelled bundle gains from refusing.
 */
module BundleChoice {
  import opened Parameters
  import opened Placement

  /** No room at the bins, an element that a labelled bin holds already, or a bin that would reach the limit. */
  predicate Refuses(bins: Bins, items: seq<Felt>, start: nat, max: nat, labelled: bool) {
    || items == [] || start + |items| > |bins|
    || (labelled && exists j :: 0 <= j < |items| && items[j] in bins[start + j])
    || exists k :: start <= k < start + |items| && |bins[k]| + 1 >= max
  }

  predicate AllRefuse(bundles: seq<Bins>, items: seq<Felt>, start: nat, max: nat, labelled: bool) {
    forall b :: 0 <= b < |bundles| ==> Refuses(bundles[b], items, start, max, labelled)
  }

  /** Every element at the end of its bin, all other bins as they were. */
  predicate Appended(before: Bins, after: Bins, items: seq<Felt>, start: nat) {
    && |after| == |before|
    && forall k :: 0 <= k < |before| ==>
        after[k] == before[k] + if start <= k < start + |items| then [items[k - start]] else []
  }

  /** A fresh bundle with this one item. */
  predicate Opened(bins: Bins, items: seq<Felt>, start: nat, binCount: nat) {
    |bins| == binCount && forall k :: 0 <= k < binCount ==>
        bins[k] == if start <= k < start + |items| then [items[k - start]] else []
  }

  /** All bundles refuse the item, and a new one would have no room for it. */
  predicate Homeless(before: seq<Bins>, items: seq<Felt>, start: nat, max: nat, binCount: nat, labelled: bool) {
    AllRefuse(before, items, start, max, labelled) && (items == [] || start + |items| > binCount)
  }

  /** One insertion: exactly one bundle changes, or one is added because all refuse. */
  ghost predicate OneInsertion(before: seq<Bins>, after: seq<Bins>, items: seq<Felt>, start: nat, max: nat,
          binCount: nat, labelled: bool) {
    if AllRefuse(before, items, start, max, labelled) then
      |after| == |before| + 1 && after[..|before|] == before && Opened(after[|before|], items, start, binCount)
    else
      |after| == |before| && exists b :: 0 <= b < |before| && GoesTo(before, after, b, items, start, max, labelled)
  }

  /** The item goes to bundle `b`, and all later ones refuse it. */
  ghost predicate GoesTo(before: seq<Bins>, after: seq<Bins>, b: nat, items: seq<Felt>, start: nat, max: nat,
          labelled: bool)
    requires b < |before| == |after|
  {
    && !Refuses(before[b], items, start, max, labelled) && Appended(before[b], after[b], items, start)
    && (forall c :: b < c < |before| ==> Refuses(before[c], items, start, max, labelled))
    && forall c :: 0 <= c < |before| && c != b ==> after[c] == before[c]
  }

  /** The dry run comes out below the limit exactly when the bundle does not refuse. */
  lemma TakesIff(bins: Bins, items: seq<Felt>, start: nat, max: nat, labelled: bool)
    ensures Takes(bins, items, start, max, labelled) <==> !Refuses(bins, items, start, max, labelled)
  {
    hide LargestAfter;
    if Room(bins, items, start) {
      LargestBounds(bins, items, start, |items|);
      var k :| start <= k < start + |items| && |bins[k]| + 1 == LargestAfter(bins, items, start, |items|);
      if LargestAfter(bins, items, start, |items|) >= max {
        assert |bins[k]| + 1 >= max;
      }
    }
  }

  lemma WrittenIff(bundles: seq<Bins>, items: seq<Felt>, start: nat, max: nat, labelled: bool)
    ensures LastTaking(bundles, items, start, max, labelled) == |bundles| <==>
        AllRefuse(bundles, items, start, max, labelled)
  {
    hide Takes, Refuses;
    forall b | 0 <= b < |bundles|
      ensures Takes(bundles[b], items, start, max, labelled) <==> !Refuses(bundles[b], items, start, max, labelled)
    {
      TakesIff(bundles[b], items, start, max, labelled);
    }
    var b := LastTaking(bundles, items, start, max, labelled);
  }

  /** One insertion changes one bundle, and opens a new one only if it must. */
  lemma InsertOneChooses(bundles: seq<Bins>, items: seq<Felt>, start: nat, max: nat, binCount: nat, labelled: bool)
    requires Room(EmptyBins(binCount), items, start) || !AllRefuse(bundles, items, start, max, labelled)
    ensures OneInsertion(bundles, InsertOne(bundles, items, start, max, binCount, labelled), items, start, max,
        binCount, labelled)
  {
    hide Takes, Refuses, Room;
    forall b | 0 <= b < |bundles|
      ensures Takes(bundles[b], items, start, max, labelled) <==> !Refuses(bundles[b], items, start, max, labelled)
    {
      TakesIff(bundles[b], items, start, max, labelled);
    }
    var b := LastTaking(bundles, items, start, max, labelled);
    if b < |bundles| {
      TakesRoom(bundles[b], items, start, max, labelled);
      assert GoesTo(bundles, InsertOne(bundles, items, start, max, binCount, labelled), b, items, start, max, labelled);
    }
  }

  /** Nothing changes when all refuse and a new bundle has no room either. */
  lemma InsertOneNowhere(bundles: seq<Bins>, items: seq<Felt>, start: nat, max: nat, binCount: nat, labelled: bool)
    requires !Room(EmptyBins(binCount), items, start) && AllRefuse(bundles, items, start, max, labelled)
    ensures InsertOne(bundles, items, start, max, binCount, labelled) == bundles
  {
    hide Takes, Refuses, Room;
    var b := LastTaking(bundles, items, start, max, labelled);
    if b < |bundles| {
      TakesIff(bundles[b], items, start, max, labelled);
    }
  }

  /** The item that opened a bundle: none of the bundles before it would take that item. */
  ghost predicate OpenedBy(bundles: seq<Bins>, data: seq<Data>, i: nat, b: nat, index: nat, max: nat, binCount: nat,
          labelled: bool)
    requires binCount > 0 && i < |data|
  {
    var before, place := InsertAll(bundles, data[..i], index, max, binCount, labelled),
                         Unpack(data[i].cuckooIdx, binCount);
    place.bundle == index && |before| == b && AllRefuse(before, data[i].felts, place.bin, max, labelled)
  }

  /** The worker cannot place item `i`. */
  ghost predicate FailsAt(bundles: seq<Bins>, data: seq<Data>, i: nat, index: nat, max: nat, binCount: nat,
          labelled: bool)
    requires binCount > 0 && i < |data|
  {
    var before, place := InsertAll(bundles, data[..i], index, max, binCount, labelled),
                         Unpack(data[i].cuckooIdx, binCount);
    place.bundle == index && Homeless(before, data[i].felts, place.bin, max, binCount, labelled)
  }

  ghost predicate Stuck(bundles: seq<Bins>, data: seq<Data>, index: nat, max: nat, binCount: nat, labelled: bool)
    requires binCount > 0
  {
    exists i :: 0 <= i < |data| && FailsAt(bundles, data, i, index, max, binCount, labelled)
  }

  lemma BundlesStay(bundles: seq<Bins>, items: seq<Felt>, start: nat, max: nat, binCount: nat,
          labelled: bool)
    ensures var after := InsertOne(bundles, items, start, max, binCount, labelled);
      |bundles| <= |after| <= |bundles| + 1 && (|after| > |bundles| ==> AllRefuse(bundles, items, start, max, labelled))
  {
    hide Takes, Refuses, Room, AllRefuse;
    if Room(EmptyBins(binCount), items, start) || !AllRefuse(bundles, items, start, max, labelled) {
      InsertOneChooses(bundles, items, start, max, binCount, labelled);
    } else {
      InsertOneNowhere(bundles, items, start, max, binCount, labelled);
    }
  }

  lemma {:induction false} BundlesGrow(bundles: seq<Bins>, data: seq<Data>, index: nat, max: nat, binCount: nat,
          labelled: bool)
    requires binCount > 0
    ensures |InsertAll(bundles, data, index, max, binCount, labelled)| >= |bundles|
    decreases |data|
  {
    hide InsertOne, AllRefuse, Unpack;
    if data == [] {
    } else {
      var n := |data| - 1;
      BundlesGrow(bundles, data[..n], index, max, binCount, labelled);
      BundlesStay(InsertAll(bundles, data[..n], index, max, binCount, labelled), data[n].felts,
        Unpack(data[n].cuckooIdx, binCount).bin, max, binCount, labelled);
    }
  }

  /** Over any number of insertions: a bundle that was added was opened by an item that all earlier ones refused. */
  lemma {:induction false} Opener(bundles: seq<Bins>, data: seq<Data>, b: nat, index: nat, max: nat, binCount: nat,
          labelled: bool)
      returns (i: nat)
    requires binCount > 0 && |bundles| <= b < |InsertAll(bundles, data, index, max, binCount, labelled)|
    ensures i < |data| && OpenedBy(bundles, data, i, b, index, max, binCount, labelled)
    decreases |data|
  {
    hide InsertOne, AllRefuse, Unpack;
    var n := |data| - 1;
    var before := InsertAll(bundles, data[..n], index, max, binCount, labelled);
    BundlesGrow(bundles, data[..n], index, max, binCount, labelled);
    if b < |before| {
      i := Opener(bundles, data[..n], b, index, max, binCount, labelled);
      assert data[..n][..i] == data[..i] && data[..n][i] == data[i];
    } else {
      i := n;
      BundlesStay(before, data[n].felts, Unpack(data[n].cuckooIdx, binCount).bin, max, binCount, labelled);
    }
  }

  /** The bin holds an element twice. */
  predicate Repeats(bin: seq<Felt>) {
    exists i, j :: 0 <= i < j < |bin| && bin[i] == bin[j]
  }

  predicate Unrepeated(bins: Bins) {
    forall k :: 0 <= k < |bins| ==> !Repeats(bins[k])
  }

  predicate NoneRepeated(bundles: seq<Bins>) {
    forall b :: 0 <= b < |bundles| ==> Unrepeated(bundles[b])
  }

  lemma RepeatsIff(bin: seq<Felt>, item: Felt)
    requires !Repeats(bin)
    ensures Repeats(bin + [item]) <==> item in bin
  {
    var longer := bin + [item];
    if item in bin {
      var i :| 0 <= i < |bin| && bin[i] == item;
      assert longer[i] == longer[|bin|];
    }
  }

  /** An element is refused exactly when appending it would make a bin repeat one. */
  lemma ClashIff(bins: Bins, items: seq<Felt>, start: nat)
    requires Room(bins, items, start) && Unrepeated(bins)
    ensures Clash(bins, items, start) <==> exists j :: 0 <= j < |items| && Repeats(bins[start + j] + [items[j]])
  {
    hide Repeats;
    forall j | 0 <= j < |items|
      ensures Repeats(bins[start + j] + [items[j]]) <==> items[j] in bins[start + j]
    {
      RepeatsIff(bins[start + j], items[j]);
    }
  }

  lemma InsertedUnrepeated(bins: Bins, items: seq<Felt>, start: nat)
    requires Room(bins, items, start) && Unrepeated(bins) && !Clash(bins, items, start)
    ensures Unrepeated(Inserted(bins, items, start))
  {
    hide Repeats;
    forall k | 0 <= k < |bins|
      ensures !Repeats(Inserted(bins, items, start)[k])
    {
      if start <= k < start + |items| {
        assert items[k - start] !in bins[start + (k - start)];
        RepeatsIff(bins[k], items[k - start]);
      }
    }
  }

  lemma InsertOneUnrepeated(bundles: seq<Bins>, items: seq<Felt>, start: nat, max: nat, binCount: nat)
    requires NoneRepeated(bundles)
    ensures NoneRepeated(InsertOne(bundles, items, start, max, binCount, true))
  {
    hide Repeats, Clash, Inserted, LargestAfter;
    var b := LastTaking(bundles, items, start, max, true);
    if b < |bundles| {
      InsertedUnrepeated(bundles[b], items, start);
    } else if Room(EmptyBins(binCount), items, start) {
      EmptyUnrepeated(binCount, items, start);
      InsertedUnrepeated(EmptyBins(binCount), items, start);
    }
  }

  lemma EmptyUnrepeated(binCount: nat, items: seq<Felt>, start: nat)
    requires Room(EmptyBins(binCount), items, start)
    ensures Unrepeated(EmptyBins(binCount)) && !Clash(EmptyBins(binCount), items, start)
  {
  }

  /** In labelled bundles no bin ever repeats an element. */
  lemma {:induction false} InsertAllUnrepeated(bundles: seq<Bins>, data: seq<Data>, index: nat, max: nat, binCount: nat)
    requires binCount > 0 && NoneRepeated(bundles)
    ensures NoneRepeated(InsertAll(bundles, data, index, max, binCount, true))
    decreases |data|
  {
    hide InsertOne, NoneRepeated, Unpack;
    if data == [] {
    } else {
      var n := |data| - 1;
      InsertAllUnrepeated(bundles, data[..n], index, max, binCount);
      InsertOneUnrepeated(InsertAll(bundles, data[..n], index, max, binCount, true), data[n].felts,
        Unpack(data[n].cuckooIdx, binCount).bin, max, binCount);
    }
  }
}
