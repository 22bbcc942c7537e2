/**
 * What preprocessing makes of items and the locations of their hashes: one entry for every item and
 * location, no more and no less, also when the same entry comes from several of them.
 */
module PreprocessedData {
  import opened Parameters
  import opened Placement

  function EntriesOf(item: seq<Felt>, locations: seq<nat>, feltsPerItem: nat): (r: seq<Data>)
    ensures |r| == |locations|
  {
    seq(|locations|, l requires 0 <= l < |locations| => Data(item, locations[l] * feltsPerItem))
  }

  /** All entries, item by item. */
  function Entries(items: seq<seq<Felt>>, locations: seq<seq<nat>>, feltsPerItem: nat): seq<Data>
    requires |items| == |locations|
    decreases |items|
  {
    if items == [] then []
    else
      var n := |items| - 1;
      Entries(items[..n], locations[..n], feltsPerItem) + EntriesOf(items[n], locations[n], feltsPerItem)
  }

  /** The item at one of its locations. */
  function Entry(items: seq<seq<Felt>>, locations: seq<seq<nat>>, feltsPerItem: nat, i: nat, l: nat): Data
    requires i < |items| == |locations| && l < |locations[i]|
  {
    Data(items[i], locations[i][l] * feltsPerItem)
  }

  /** How many of the data have a property. */
  ghost function Tally(data: seq<Data>, p: Data -> bool): nat {
    if data == [] then 0 else Tally(data[..|data| - 1], p) + if p(data[|data| - 1]) then 1 else 0
  }

  /** The item and location pairs whose entry has the property. */
  ghost function Pairs(items: seq<seq<Felt>>, locations: seq<seq<nat>>, feltsPerItem: nat,
                       p: Data -> bool): set<(nat, nat)>
    requires |items| == |locations|
  {
    set i: nat, l: nat | i < |items| && l < |locations[i]| && p(Entry(items, locations, feltsPerItem, i, l)) :: (i, l)
  }

  lemma {:induction false} TallyConcat(a: seq<Data>, b: seq<Data>, p: Data -> bool)
    ensures Tally(a + b, p) == Tally(a, p) + Tally(b, p)
    decreases |b|
  {
    if b == [] {
      assert a + b == a;
    } else {
      var n := |b| - 1;
      TallyConcat(a, b[..n], p);
      assert (a + b)[..|a + b| - 1] == a + b[..n];
    }
  }

  /** The pairs of item `i` with its first `upto` locations. */
  ghost function PairsOf(item: seq<Felt>, locations: seq<nat>, feltsPerItem: nat, i: nat, upto: nat,
                         p: Data -> bool): set<(nat, nat)>
    requires upto <= |locations|
  {
    set l: nat | l < upto && p(Data(item, locations[l] * feltsPerItem)) :: (i, l)
  }

  lemma {:induction false} TallyOf(item: seq<Felt>, locations: seq<nat>, feltsPerItem: nat, i: nat, upto: nat,
          p: Data -> bool)
    requires upto <= |locations|
    ensures Tally(EntriesOf(item, locations, feltsPerItem)[..upto], p) ==
        |PairsOf(item, locations, feltsPerItem, i, upto, p)|
    decreases upto
  {
    if upto == 0 {
      assert PairsOf(item, locations, feltsPerItem, i, 0, p) == {};
    } else {
      var n := upto - 1;
      TallyOf(item, locations, feltsPerItem, i, n, p);
      var entries := EntriesOf(item, locations, feltsPerItem);
      assert entries[..upto][..n] == entries[..n];
      var before := PairsOf(item, locations, feltsPerItem, i, n, p);
      assert (i, n) !in before;
      assert PairsOf(item, locations, feltsPerItem, i, upto, p) ==
        before + if p(entries[n]) then {(i, n)} else {};
    }
  }

  /** As many entries have a property as there are pairs of an item and a location that have it. */
  lemma {:induction false} TallyIsPairs(items: seq<seq<Felt>>, locations: seq<seq<nat>>, feltsPerItem: nat,
          p: Data -> bool)
    requires |items| == |locations|
    ensures Tally(Entries(items, locations, feltsPerItem), p) == |Pairs(items, locations, feltsPerItem, p)|
    decreases |items|
  {
    if items == [] {
      assert Pairs(items, locations, feltsPerItem, p) == {};
    } else {
      var n := |items| - 1;
      var last := EntriesOf(items[n], locations[n], feltsPerItem);
      TallyIsPairs(items[..n], locations[..n], feltsPerItem, p);
      TallyConcat(Entries(items[..n], locations[..n], feltsPerItem), last, p);
      TallyOf(items[n], locations[n], feltsPerItem, n, |locations[n]|, p);
      assert last[..|last|] == last;
      SplitPairs(items, locations, feltsPerItem, p);
    }
  }

  lemma SplitPairs(items: seq<seq<Felt>>, locations: seq<seq<nat>>, feltsPerItem: nat, p: Data -> bool)
    requires |items| == |locations| && items != []
    ensures var n := |items| - 1;
      |Pairs(items, locations, feltsPerItem, p)| == |Pairs(items[..n], locations[..n], feltsPerItem, p)|
        + |PairsOf(items[n], locations[n], feltsPerItem, n, |locations[n]|, p)|
  {
    var n := |items| - 1;
    var all, before := Pairs(items, locations, feltsPerItem, p), Pairs(items[..n], locations[..n], feltsPerItem, p);
    var last := PairsOf(items[n], locations[n], feltsPerItem, n, |locations[n]|, p);
    assert before !! last;
    forall q: (nat, nat)
      ensures q in all <==> q in before || q in last
    {
    }
    assert all == before + last;
  }

  lemma {:induction false} CopiesAreTally(data: seq<Data>, d: Data)
    ensures multiset(data)[d] == Tally(data, x => x == d)
  {
    if data == [] {
    } else {
      var n := |data| - 1;
      CopiesAreTally(data[..n], d);
      assert data == data[..n] + [data[n]];
    }
  }

  function Total(locations: seq<seq<nat>>): nat {
    if locations == [] then 0 else Total(locations[..|locations| - 1]) + |locations[|locations| - 1]|
  }

  lemma {:induction false} EntryCount(items: seq<seq<Felt>>, locations: seq<seq<nat>>, feltsPerItem: nat)
    requires |items| == |locations|
    ensures |Entries(items, locations, feltsPerItem)| == Total(locations)
    decreases |items|
  {
    if items == [] {
    } else {
      var n := |items| - 1;
      EntryCount(items[..n], locations[..n], feltsPerItem);
    }
  }

  /** The item puts the field element `v` into bin `k` of the bundle index. */
  ghost predicate Puts(d: Data, index: nat, binCount: nat, k: nat, v: Felt)
    requires binCount > 0
  {
    var place := Unpack(d.cuckooIdx, binCount);
    place.bundle == index && place.bin <= k < place.bin + |d.felts| && d.felts[k - place.bin] == v
  }

  lemma {:induction false} WantedIsTally(data: seq<Data>, index: nat, binCount: nat, k: nat, v: Felt)
    requires binCount > 0
    ensures Wanted(data, index, binCount, k)[v] == Tally(data, d => Puts(d, index, binCount, k, v))
    decreases |data|
  {
    hide Unpack;
    if data == [] {
    } else {
      WantedIsTally(data[..|data| - 1], index, binCount, k, v);
    }
  }

  /** Bin by bin, insertion into an empty index stores one copy for every item and location that puts it there. */
  lemma CopiesInserted(items: seq<seq<Felt>>, locations: seq<seq<nat>>, feltsPerItem: nat, index: nat, max: nat,
          binCount: nat, labelled: bool, k: nat, v: Felt)
    requires |items| == |locations| && binCount > 0 && Placed(Entries(items, locations, feltsPerItem), binCount)
    ensures Held(InsertAll([], Entries(items, locations, feltsPerItem), index, max, binCount, labelled), k)[v] ==
        |Pairs(items, locations, feltsPerItem, d => Puts(d, index, binCount, k, v))|
  {
    hide InsertAll, Entries, Puts, Tally, Pairs, Wanted;
    var data := Entries(items, locations, feltsPerItem);
    InsertAllHeld([], data, index, max, binCount, labelled, k);
    WantedIsTally(data, index, binCount, k, v);
    TallyIsPairs(items, locations, feltsPerItem, d => Puts(d, index, binCount, k, v));
  }

  lemma EntriesStart(feltsPerItem: nat)
    ensures Entries([], [], feltsPerItem) == []
  {
  }

  lemma EntriesNext(items: seq<seq<Felt>>, locations: seq<seq<nat>>, feltsPerItem: nat, i: nat)
    requires i < |items| == |locations|
    ensures Entries(items[..i + 1], locations[..i + 1], feltsPerItem) ==
        Entries(items[..i], locations[..i], feltsPerItem) + EntriesOf(items[i], locations[i], feltsPerItem)
  {
    assert items[..i + 1][..i] == items[..i] && locations[..i + 1][..i] == locations[..i];
  }

  lemma EntryAt(item: seq<Felt>, locations: seq<nat>, feltsPerItem: nat, l: nat)
    requires l < |locations|
    ensures EntriesOf(item, locations, feltsPerItem)[..l + 1] ==
        EntriesOf(item, locations, feltsPerItem)[..l] + [Data(item, locations[l] * feltsPerItem)]
    ensures EntriesOf(item, locations, feltsPerItem)[..0] == []
  {
  }

  lemma EntriesWhole(item: seq<Felt>, locations: seq<nat>, feltsPerItem: nat)
    ensures EntriesOf(item, locations, feltsPerItem)[..|locations|] == EntriesOf(item, locations, feltsPerItem)
  {
  }

  /** Every entry comes from a pair, and every pair has its entry. */
  lemma {:induction false} EntriesAre(items: seq<seq<Felt>>, locations: seq<seq<nat>>, feltsPerItem: nat)
    requires |items| == |locations|
    ensures forall i, l :: 0 <= i < |items| && 0 <= l < |locations[i]| ==>
        Data(items[i], locations[i][l] * feltsPerItem) in Entries(items, locations, feltsPerItem)
    ensures forall d :: d in Entries(items, locations, feltsPerItem) ==>
        exists i, l :: 0 <= i < |items| && 0 <= l < |locations[i]| &&
                       d == Data(items[i], locations[i][l] * feltsPerItem)
    decreases |items|
  {
    if items == [] {
    } else {
      var n := |items| - 1;
      var before, last := Entries(items[..n], locations[..n], feltsPerItem),
                          EntriesOf(items[n], locations[n], feltsPerItem);
      EntriesAre(items[..n], locations[..n], feltsPerItem);
      forall i, l | 0 <= i < |items| && 0 <= l < |locations[i]|
        ensures Data(items[i], locations[i][l] * feltsPerItem) in Entries(items, locations, feltsPerItem)
      {
        if i < n {
          assert items[..n][i] == items[i] && locations[..n][i] == locations[i];
        } else {
          assert last[l] in last;
        }
      }
      forall d | d in Entries(items, locations, feltsPerItem)
        ensures exists i, l :: 0 <= i < |items| && 0 <= l < |locations[i]| &&
                               d == Data(items[i], locations[i][l] * feltsPerItem)
      {
        if d in before {
          var i, l :| 0 <= i < n && 0 <= l < |locations[..n][i]| &&
            d == Data(items[..n][i], locations[..n][i][l] * feltsPerItem);
          assert items[..n][i] == items[i] && locations[..n][i] == locations[i];
        } else {
          var l :| 0 <= l < |last| && last[l] == d;
        }
      }
    }
  }
}
