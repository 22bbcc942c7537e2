/** Bin bundles as objects, and the workers that insert into the bundles of one bundle index each. */
module BinBundles {
  import opened Parameters
  import opened Placement
  import opened BundleChoice

  class BinBundle {
    var itemBins: seq<seq<Felt>>
    const labelled: bool

    constructor (numBins: nat, labels: bool)
      ensures itemBins == EmptyBins(numBins) && labelled == labels
    {
      itemBins := EmptyBins(numBins);
      labelled := labels;
    }

    /** Is any of the field elements in its bin already? */
    method HasClash(items: seq<Felt>, startBinIdx: nat) returns (found: bool)
      requires Room(itemBins, items, startBinIdx)
      ensures found <==> Clash(itemBins, items, startBinIdx)
    {
      for j := 0 to |items|
        invariant forall i :: 0 <= i < j ==> items[i] !in itemBins[startBinIdx + i]
      {
        if items[j] in itemBins[startBinIdx + j] {
          return true;
        }
      }
      return false;
    }

    /** The loop of `multi_insert`: appends, unless it is a dry run, and finds the largest bin size. */
    method AppendAll(items: seq<Felt>, startBinIdx: nat, dryRun: bool) returns (maxBinSize: nat)
      requires Room(itemBins, items, startBinIdx)
      modifies this
      ensures Room(old(itemBins), items, startBinIdx)
      ensures maxBinSize == LargestAfter(old(itemBins), items, startBinIdx, |items|) > 0
      ensures itemBins == if dryRun then old(itemBins) else Inserted(old(itemBins), items, startBinIdx)
    {
      hide LargestAfter, Inserted, InsertedUpTo;
      ghost var before := itemBins;
      InsertedEnds(before, items, startBinIdx);
      maxBinSize := 0;
      var currBinIdx := startBinIdx;
      for j := 0 to |items|
        invariant currBinIdx == startBinIdx + j
        invariant maxBinSize == LargestAfter(before, items, startBinIdx, j) && (j > 0 ==> maxBinSize > 0)
        invariant itemBins == if dryRun then before else InsertedUpTo(before, items, startBinIdx, j)
      {
        InsertedStep(before, items, startBinIdx, j);
        var currBin := itemBins[currBinIdx];
        if maxBinSize < |currBin| + 1 {
          maxBinSize := |currBin| + 1;
        }
        if !dryRun {
          itemBins := itemBins[currBinIdx := currBin + [items[j]]];
        }
        currBinIdx := currBinIdx + 1;
      }
    }

    /** `multi_insert`: inserts an item over consecutive bins and returns the largest bin size, or -1 when it cannot. */
    method MultiInsert(items: seq<Felt>, startBinIdx: nat, dryRun: bool) returns (result: int)
      modifies this
      ensures var before := old(itemBins);
        if Allowed(before, items, startBinIdx, labelled) then
          && result == LargestAfter(before, items, startBinIdx, |items|) > 0
          && itemBins == if dryRun then before else Inserted(before, items, startBinIdx)
        else
          result == -1 && itemBins == before
      ensures labelled && items != [] && startBinIdx + |items| <= |old(itemBins)| && Unrepeated(old(itemBins)) ==>
          (result == -1 <==>
            exists j :: 0 <= j < |items| && Repeats(old(itemBins)[startBinIdx + j] + [items[j]]))
      ensures result != -1 ==>
        && (forall k :: startBinIdx <= k < startBinIdx + |items| ==> |old(itemBins)[k]| + 1 <= result)
        && exists k :: startBinIdx <= k < startBinIdx + |items| && |old(itemBins)[k]| + 1 == result
    {
      hide LargestAfter, Inserted, Clash, Repeats, Unrepeated;
      if Room(itemBins, items, startBinIdx) {
        LargestBounds(itemBins, items, startBinIdx, |items|);
        if Unrepeated(itemBins) {
          ClashIff(itemBins, items, startBinIdx);
        }
      }
      if items == [] {
        return -1;
      }
      if startBinIdx >= |itemBins| || |items| > |itemBins| - startBinIdx {
        return -1;
      }
      if labelled {
        var clash := HasClash(items, startBinIdx);
        if clash {
          return -1;
        }
      }
      result := AppendAll(items, startBinIdx, dryRun);
    }
  }

  /** The bins when the first j field elements have been appended. */
  ghost function InsertedUpTo(bins: Bins, items: seq<Felt>, start: nat, j: nat): (r: Bins)
    requires Room(bins, items, start) && j <= |items|
    ensures |r| == |bins|
  {
    seq(|bins|, k requires 0 <= k < |bins| => if start <= k < start + j then bins[k] + [items[k - start]] else bins[k])
  }

  lemma InsertedEnds(bins: Bins, items: seq<Felt>, start: nat)
    requires Room(bins, items, start)
    ensures InsertedUpTo(bins, items, start, 0) == bins
    ensures InsertedUpTo(bins, items, start, |items|) == Inserted(bins, items, start)
    ensures LargestAfter(bins, items, start, 0) == 0
  {
  }

  lemma InsertedStep(bins: Bins, items: seq<Felt>, start: nat, j: nat)
    requires Room(bins, items, start) && j < |items|
    ensures InsertedUpTo(bins, items, start, j)[start + j] == bins[start + j]
    ensures InsertedUpTo(bins, items, start, j + 1) ==
        InsertedUpTo(bins, items, start, j)[start + j := bins[start + j] + [items[j]]]
    ensures LargestAfter(bins, items, start, j + 1) ==
      if LargestAfter(bins, items, start, j) < |bins[start + j]| + 1 then |bins[start + j]| + 1
        else LargestAfter(bins, items, start, j)
  {
  }

  /** What the bundles of one index hold. */
  function Contents(bundleSet: seq<BinBundle>): (r: seq<Bins>)
    reads bundleSet
    ensures |r| == |bundleSet|
  {
    seq(|bundleSet|, b requires 0 <= b < |bundleSet| reads bundleSet => bundleSet[b].itemBins)
  }

  /** Different positions are different objects, of the same kind. */
  predicate Apart(bundleSet: seq<BinBundle>, labelled: bool) {
    && (forall b, c :: 0 <= b < c < |bundleSet| ==> bundleSet[b] != bundleSet[c])
    && forall b :: 0 <= b < |bundleSet| ==> bundleSet[b].labelled == labelled
  }

  datatype Outcome = LogicError | Done(bundleSet: seq<BinBundle>)

  /** Looks for a bundle that takes the item, from the last one back: a dry run, then the insertion. */
  method TryInsert(bundleSet: seq<BinBundle>, items: seq<Felt>, binIdx: nat, maxBinSize: nat, labelled: bool)
          returns (written: bool)
    requires Apart(bundleSet, labelled)
    modifies bundleSet
    ensures var before := old(Contents(bundleSet));
      var b := LastTaking(before, items, binIdx, maxBinSize, labelled);
      && (written <==> b < |bundleSet|)
      && if written then Room(before[b], items, binIdx) &&
        Contents(bundleSet) == before[b := Inserted(before[b], items, binIdx)]
         else Contents(bundleSet) == before
  {
    hide LargestAfter, Inserted, Clash, Room, LastTaking;
    ghost var before := Contents(bundleSet);
    written := false;
    var b: int := |bundleSet| - 1;
    while b >= 0
      invariant -1 <= b < |bundleSet| && Contents(bundleSet) == before
      invariant forall c :: b < c < |bundleSet| ==> !Takes(before[c], items, binIdx, maxBinSize, labelled)
    {
      assert before[b] == bundleSet[b].itemBins;
      var newLargest := bundleSet[b].MultiInsert(items, binIdx, true);
      assert Contents(bundleSet) == before;
      if newLargest > 0 && newLargest < maxBinSize {
        var _ := bundleSet[b].MultiInsert(items, binIdx, false);
        assert Contents(bundleSet) == before[b := Inserted(before[b], items, binIdx)];
        LastIs(before, items, binIdx, maxBinSize, labelled, b);
        return true;
      }
      b := b - 1;
    }
    NoneTakes(before, items, binIdx, maxBinSize, labelled);
  }

  lemma LastIs(bundles: seq<Bins>, items: seq<Felt>, start: nat, max: nat, labelled: bool, b: nat)
    requires b < |bundles| && Takes(bundles[b], items, start, max, labelled)
    requires forall c :: b < c < |bundles| ==> !Takes(bundles[c], items, start, max, labelled)
    ensures LastTaking(bundles, items, start, max, labelled) == b
  {
    hide Takes;
    var l := LastTaking(bundles, items, start, max, labelled);
  }

  lemma NoneTakes(bundles: seq<Bins>, items: seq<Felt>, start: nat, max: nat, labelled: bool)
    requires forall c :: 0 <= c < |bundles| ==> !Takes(bundles[c], items, start, max, labelled)
    ensures LastTaking(bundles, items, start, max, labelled) == |bundles|
  {
    hide Takes;
    var l := LastTaking(bundles, items, start, max, labelled);
  }

  /** One item: into the last bundle that takes it, or into a new one. */
  method InsertItem(bundleSet: seq<BinBundle>, items: seq<Felt>, binIdx: nat, maxBinSize: nat, binsPerBundle: nat,
          labelled: bool)
      returns (out: Outcome)
    requires Apart(bundleSet, labelled)
    modifies bundleSet
    ensures out.LogicError? <==>
        Homeless(old(Contents(bundleSet)), items, binIdx, maxBinSize, binsPerBundle, labelled)
    ensures out.Done? ==> OneInsertion(old(Contents(bundleSet)), Contents(out.bundleSet), items, binIdx, maxBinSize,
        binsPerBundle, labelled)
    ensures out.Done? ==>
      && Contents(out.bundleSet) == InsertOne(old(Contents(bundleSet)), items, binIdx, maxBinSize, binsPerBundle,
        labelled)
      && Apart(out.bundleSet, labelled) && (forall b :: 0 <= b < |out.bundleSet| ==>
        out.bundleSet[b] in bundleSet || fresh(out.bundleSet[b]))
  {
    hide LargestAfter, Inserted, LastTaking, Takes, OneInsertion, Refuses, AllRefuse;
    ghost var before := Contents(bundleSet);
    WrittenIff(before, items, binIdx, maxBinSize, labelled);
    if Room(EmptyBins(binsPerBundle), items, binIdx) || !AllRefuse(before, items, binIdx, maxBinSize, labelled) {
      InsertOneChooses(before, items, binIdx, maxBinSize, binsPerBundle, labelled);
    }
    var written := TryInsert(bundleSet, items, binIdx, maxBinSize, labelled);
    if written {
      return Done(bundleSet);
    }
    var newBundle := new BinBundle(binsPerBundle, labelled);
    var res := newBundle.MultiInsert(items, binIdx, false);
    if res < 0 {
      return LogicError;
    }
    out := Done(bundleSet + [newBundle]);
    assert Contents(out.bundleSet) == before + [newBundle.itemBins];
  }

  lemma InsertAllNone(bundles: seq<Bins>, data: seq<Data>, index: nat, max: nat, binCount: nat, labelled: bool)
    requires binCount > 0
    ensures InsertAll(bundles, data[..0], index, max, binCount, labelled) == bundles
  {
  }

  /** `insert_or_assign_worker`, inserting only: the items of one bundle index, one after the other. */
  method InsertWorker(data: seq<Data>, bundleSet: seq<BinBundle>, bundleIndex: nat, binsPerBundle: nat,
          maxBinSize: nat, labelled: bool)
      returns (out: Outcome)
    requires binsPerBundle > 0 && Apart(bundleSet, labelled)
    modifies bundleSet
    ensures Placed(data, binsPerBundle) ==> out.Done?
    ensures out.LogicError? <==>
        Stuck(old(Contents(bundleSet)), data, bundleIndex, maxBinSize, binsPerBundle, labelled)
    ensures out.Done? ==>
      && Contents(out.bundleSet) == InsertAll(old(Contents(bundleSet)), data, bundleIndex, maxBinSize, binsPerBundle,
        labelled)
      && Apart(out.bundleSet, labelled) && (forall b :: 0 <= b < |out.bundleSet| ==>
        out.bundleSet[b] in bundleSet || fresh(out.bundleSet[b]))
  {
    hide InsertOne, InsertAll, AllRefuse, OneInsertion;
    ghost var before := Contents(bundleSet);
    InsertAllNone(before, data, bundleIndex, maxBinSize, binsPerBundle, labelled);
    var current := bundleSet;
    for i := 0 to |data|
      invariant Apart(current, labelled)
      invariant forall b :: 0 <= b < |current| ==> current[b] in bundleSet || fresh(current[b])
      invariant Contents(current) == InsertAll(before, data[..i], bundleIndex, maxBinSize, binsPerBundle, labelled)
      invariant forall j :: 0 <= j < i ==>
          !FailsAt(before, data, j, bundleIndex, maxBinSize, binsPerBundle, labelled)
    {
      InsertAllNext(before, data, i, bundleIndex, maxBinSize, binsPerBundle, labelled);
      assert data[i] in data;
      var place := Unpack(data[i].cuckooIdx, binsPerBundle);
      if place.bundle != bundleIndex {
        continue;
      }
      var inserted := InsertItem(current, data[i].felts, place.bin, maxBinSize, binsPerBundle, labelled);
      if inserted.LogicError? {
        assert FailsAt(before, data, i, bundleIndex, maxBinSize, binsPerBundle, labelled);
        return LogicError;
      }
      current := inserted.bundleSet;
    }
    assert data[..|data|] == data;
    return Done(current);
  }
}
