/**
 * Insertion into the whole database: preprocessing, one worker for each bundle index, and what the
 * result is good for.
 */
module InsertDispatch {
  import opened Division
  import opened Parameters
  import opened Placement
  import opened PreprocessedData
  import opened BinBundles
  import BundleResult

  /** `preprocess_unlabeled_data`: every item once for every location of its hashes. */
  method Preprocess(items: seq<seq<Felt>>, locations: seq<seq<nat>>, feltsPerItem: nat) returns (data: seq<Data>)
    requires |locations| == |items|
    ensures data == Entries(items, locations, feltsPerItem) && |data| == Total(locations)
    ensures forall d :: multiset(data)[d] == |Pairs(items, locations, feltsPerItem, x => x == d)|
    ensures forall i, l :: 0 <= i < |items| && 0 <= l < |locations[i]| ==>
        Data(items[i], locations[i][l] * feltsPerItem) in data
    ensures forall d :: d in data ==>
        exists i, l :: 0 <= i < |items| && 0 <= l < |locations[i]| &&
                       d == Data(items[i], locations[i][l] * feltsPerItem)
  {
    hide Entries, EntriesOf, Pairs, Total;
    data := [];
    EntriesStart(feltsPerItem);
    for i := 0 to |items|
      invariant data == Entries(items[..i], locations[..i], feltsPerItem)
    {
      EntriesNext(items, locations, feltsPerItem, i);
      for l := 0 to |locations[i]|
        invariant data == Entries(items[..i], locations[..i], feltsPerItem) +
            EntriesOf(items[i], locations[i], feltsPerItem)[..l]
      {
        EntryAt(items[i], locations[i], feltsPerItem, l);
        data := data + [Data(items[i], locations[i][l] * feltsPerItem)];
      }
      EntriesWhole(items[i], locations[i], feltsPerItem);
    }
    assert items[..|items|] == items && locations[..|items|] == locations;
    EntryCount(items, locations, feltsPerItem);
    forall d
      ensures multiset(data)[d] == |Pairs(items, locations, feltsPerItem, x => x == d)|
    {
      CopiesAreTally(data, d);
      TallyIsPairs(items, locations, feltsPerItem, x => x == d);
    }
    EntriesAre(items, locations, feltsPerItem);
  }

  /** Preprocessed items never straddle bundles, so inserting one into a fresh bundle cannot fail. */
  lemma PreprocessedPlaced(data: seq<Data>, items: seq<seq<Felt>>, locations: seq<seq<nat>>, feltsPerItem: nat,
          itemsPerBundle: nat, bundleIdxCount: nat)
    requires |locations| == |items| && feltsPerItem > 0 && itemsPerBundle > 0
    requires forall i :: 0 <= i < |items| ==> |items[i]| == feltsPerItem
    requires forall i, l :: 0 <= i < |items| && 0 <= l < |locations[i]| ==>
        locations[i][l] < itemsPerBundle * bundleIdxCount
    requires forall d :: d in data ==>
        exists i, l :: 0 <= i < |items| && 0 <= l < |locations[i]| &&
                       d == Data(items[i], locations[i][l] * feltsPerItem)
    ensures itemsPerBundle * feltsPerItem > 0 && Placed(data, itemsPerBundle * feltsPerItem)
    ensures InTable(data, itemsPerBundle * feltsPerItem, bundleIdxCount)
  {
    hide Unpack;
    MulMono(1, itemsPerBundle, feltsPerItem);
    forall d | d in data
      ensures d.felts != [] && Unpack(d.cuckooIdx, itemsPerBundle * feltsPerItem).bin +
          |d.felts| <= itemsPerBundle * feltsPerItem
      ensures Unpack(d.cuckooIdx, itemsPerBundle * feltsPerItem).bundle < bundleIdxCount
    {
      var i, l :| 0 <= i < |items| && 0 <= l < |locations[i]| && d == Data(items[i], locations[i][l] * feltsPerItem);
      NoStraddle(locations[i][l], feltsPerItem, itemsPerBundle, bundleIdxCount);
    }
  }

  /** A worker with nothing to do changes nothing. */
  lemma {:induction false} NothingToInsert(bundles: seq<Bins>, data: seq<Data>, index: nat, max: nat, binCount: nat,
          labelled: bool)
    requires binCount > 0 && forall d :: d in data ==> Unpack(d.cuckooIdx, binCount).bundle != index
    ensures InsertAll(bundles, data, index, max, binCount, labelled) == bundles
    decreases |data|
  {
    hide InsertOne, Unpack;
    if data == [] {
    } else {
      assert data[|data| - 1] in data && forall d :: d in data[..|data| - 1] ==> d in data;
      NothingToInsert(bundles, data[..|data| - 1], index, max, binCount, labelled);
    }
  }

  /** One pass over the data, every item into the bundles of its own index. */
  function Pass(db: seq<seq<Bins>>, data: seq<Data>, max: nat, binCount: nat, labelled: bool): (r: seq<seq<Bins>>)
    requires binCount > 0
    ensures |r| == |db|
    decreases |data|
  {
    if data == [] then db
    else
      var before, last := Pass(db, data[..|data| - 1], max, binCount, labelled), data[|data| - 1];
      var place := Unpack(last.cuckooIdx, binCount);
      if place.bundle < |before| then before[place.bundle :=
        InsertOne(before[place.bundle], last.felts, place.bin, max, binCount, labelled)]
      else before
  }

  lemma {:induction false} PassIsWorkers(db: seq<seq<Bins>>, data: seq<Data>, max: nat, binCount: nat, labelled: bool,
          index: nat)
    requires binCount > 0 && index < |db|
    ensures Pass(db, data, max, binCount, labelled)[index] == InsertAll(db[index], data, index, max, binCount, labelled)
    decreases |data|
  {
    hide InsertOne, Unpack;
    if data == [] {
    } else {
      PassIsWorkers(db, data[..|data| - 1], max, binCount, labelled, index);
    }
  }

  /** The workers side by side: how far each has got in the data, and the bundles of its index. */
  datatype Workers = Workers(position: seq<nat>, db: seq<seq<Bins>>)

  /** Worker `index` handles its next item, if there is one. */
  function WorkerStep(w: Workers, data: seq<Data>, index: nat, max: nat, binCount: nat, labelled: bool): Workers
    requires |w.position| == |w.db| && binCount > 0
  {
    if index >= |w.db| || w.position[index] >= |data| then w
    else
      var d := data[w.position[index]];
      var place := Unpack(d.cuckooIdx, binCount);
      Workers(w.position[index := w.position[index] + 1],
              if place.bundle != index then w.db
              else w.db[index := InsertOne(w.db[index], d.felts, place.bin, max, binCount, labelled)])
  }

  function Interleave(w: Workers, data: seq<Data>, schedule: seq<nat>, max: nat, binCount: nat,
          labelled: bool): (r: Workers)
    requires |w.position| == |w.db| && binCount > 0
    decreases |schedule|
  {
    if schedule == [] then w
    else Interleave(WorkerStep(w, data, schedule[0], max, binCount, labelled), data, schedule[1..], max, binCount,
      labelled)
  }

  /** Each worker has done its own part of the data read so far. */
  ghost predicate Consistent(w: Workers, db0: seq<seq<Bins>>, data: seq<Data>, max: nat, binCount: nat, labelled: bool)
    requires binCount > 0
  {
    && |w.position| == |w.db| == |db0|
    && forall i :: 0 <= i < |db0| ==>
      w.position[i] <= |data| && w.db[i] == InsertAll(db0[i], data[..w.position[i]], i, max, binCount, labelled)
  }

  lemma StepConsistent(w: Workers, db0: seq<seq<Bins>>, data: seq<Data>, index: nat, max: nat, binCount: nat,
          labelled: bool)
    requires binCount > 0 && Consistent(w, db0, data, max, binCount, labelled)
    ensures Consistent(WorkerStep(w, data, index, max, binCount, labelled), db0, data, max, binCount, labelled)
  {
    hide InsertOne, Unpack, InsertAll;
    if index < |w.db| && w.position[index] < |data| {
      InsertAllNext(db0[index], data, w.position[index], index, max, binCount, labelled);
    }
  }

  /** Before the first step. */
  function Begun(db: seq<seq<Bins>>): Workers {
    Workers(seq(|db|, _ => 0), db)
  }

  lemma WorkersStart(db0: seq<seq<Bins>>, data: seq<Data>, max: nat, binCount: nat, labelled: bool)
    requires binCount > 0
    ensures Consistent(Begun(db0), db0, data, max, binCount, labelled)
  {
  }

  /** Any interleaving of the workers leaves what one sequential pass over the data leaves. */
  lemma {:induction false} AnyInterleaving(w: Workers, db0: seq<seq<Bins>>, data: seq<Data>, schedule: seq<nat>,
          max: nat, binCount: nat, labelled: bool)
    requires binCount > 0 && Consistent(w, db0, data, max, binCount, labelled)
    ensures var end := Interleave(w, data, schedule, max, binCount, labelled);
      && Consistent(end, db0, data, max, binCount, labelled)
      && ((forall i :: 0 <= i < |end.position| ==> end.position[i] == |data|) ==>
        end.db == Pass(db0, data, max, binCount, labelled))
    decreases |schedule|
  {
    hide WorkerStep, InsertAll;
    if schedule == [] {
      if forall i :: 0 <= i < |w.position| ==> w.position[i] == |data| {
        assert data[..|data|] == data;
        forall i | 0 <= i < |db0|
          ensures w.db[i] == Pass(db0, data, max, binCount, labelled)[i]
        {
          PassIsWorkers(db0, data, max, binCount, labelled, i);
        }
      }
    } else {
      StepConsistent(w, db0, data, schedule[0], max, binCount, labelled);
      AnyInterleaving(WorkerStep(w, data, schedule[0], max, binCount, labelled), db0, data, schedule[1..], max,
        binCount, labelled);
    }
  }

  /** How often a worker gets a turn. */
  function Turns(schedule: seq<nat>, index: nat): nat {
    if schedule == [] then 0 else (if schedule[0] == index then 1 else 0) + Turns(schedule[1..], index)
  }

  /** A worker is as far as its turns, or through with its data. */
  lemma {:induction false} PositionIsTurns(w: Workers, data: seq<Data>, schedule: seq<nat>, index: nat, max: nat,
          binCount: nat, labelled: bool)
    requires |w.position| == |w.db| && binCount > 0 && index < |w.db| && w.position[index] <= |data|
    ensures var end, reached := Interleave(w, data, schedule, max, binCount, labelled),
        w.position[index] + Turns(schedule, index);
      |end.position| == |w.position| && end.position[index] == if reached < |data| then reached else |data|
    decreases |schedule|
  {
    hide InsertOne, Unpack;
    if schedule == [] {
    } else {
      PositionIsTurns(WorkerStep(w, data, schedule[0], max, binCount, labelled), data, schedule[1..], index, max,
        binCount, labelled);
    }
  }

  /**
   * From the state in which the workers start: every schedule that gives each worker with something
   * to insert enough turns to read the data leaves what one sequential pass leaves. A worker without
   * anything to insert may or may not run.
   */
  lemma EnoughTurns(db0: seq<seq<Bins>>, data: seq<Data>, schedule: seq<nat>, max: nat, binCount: nat, labelled: bool)
    requires binCount > 0
    requires forall d :: d in data ==> Turns(schedule, Unpack(d.cuckooIdx, binCount).bundle) >= |data|
    ensures Interleave(Begun(db0), data, schedule, max, binCount, labelled).db ==
        Pass(db0, data, max, binCount, labelled)
  {
    hide Interleave, Pass, Turns, InsertAll, Unpack;
    WorkersStart(db0, data, max, binCount, labelled);
    AnyInterleaving(Begun(db0), db0, data, schedule, max, binCount, labelled);
    var end := Interleave(Begun(db0), data, schedule, max, binCount, labelled);
    forall i | 0 <= i < |db0|
      ensures |end.db| == |db0| && end.db[i] == Pass(db0, data, max, binCount, labelled)[i]
    {
      WorkerThrough(db0, data, schedule, end, i, max, binCount, labelled);
    }
  }

  lemma WorkerThrough(db0: seq<seq<Bins>>, data: seq<Data>, schedule: seq<nat>, end: Workers, i: nat, max: nat,
          binCount: nat, labelled: bool)
    requires binCount > 0 && i < |db0|
    requires forall d :: d in data ==> Turns(schedule, Unpack(d.cuckooIdx, binCount).bundle) >= |data|
    requires end == Interleave(Begun(db0), data, schedule, max, binCount, labelled)
    requires Consistent(end, db0, data, max, binCount, labelled)
    ensures |end.db| == |db0| && end.db[i] == Pass(db0, data, max, binCount, labelled)[i]
  {
    hide InsertAll, Interleave, Unpack, Pass, Turns;
    PassIsWorkers(db0, data, max, binCount, labelled, i);
    if d :| d in data && Unpack(d.cuckooIdx, binCount).bundle == i {
      PositionIsTurns(Begun(db0), data, schedule, i, max, binCount, labelled);
      assert data[..|data|] == data;
    } else {
      NothingToInsert(db0[i], data, i, max, binCount, labelled);
      NothingToInsert(db0[i], data[..end.position[i]], i, max, binCount, labelled);
    }
  }

  /**
   * The polynomial of a bin has one coefficient more than the bin has items. In a bundle that keeps
   * the bin bound, the batched polynomial is never longer than the vector of powers, so evaluation
   * never refuses it for want of powers.
   */
  lemma {:induction false} EnoughPowers(bins: Bins, polyns: seq<seq<nat>>, maxItems: nat)
    requires maxItems >= 1 && |polyns| == |bins|
    requires forall k :: 0 <= k < |bins| ==> |bins[k]| <= Bound(maxItems) && |polyns[k]| == |bins[k]| + 1
    ensures BundleResult.Longest(polyns) <= maxItems + 1
    decreases |polyns|
  {
    if polyns == [] {
    } else {
      EnoughPowers(bins[..|bins| - 1], polyns[..|polyns| - 1], maxItems);
    }
  }

  /** No object stands at two places of the database. */
  ghost predicate Separate(db: seq<seq<BinBundle>>, labelled: bool) {
    && (forall i :: 0 <= i < |db| ==> Apart(db[i], labelled))
    && forall i, j, b, c :: 0 <= i < j < |db| && 0 <= b < |db[i]| && 0 <= c < |db[j]| ==> db[i][b] != db[j][c]
  }

  ghost function Objects(db: seq<seq<BinBundle>>): set<BinBundle> {
    set i, b | 0 <= i < |db| && 0 <= b < |db[i]| :: db[i][b]
  }

  ghost function AllContents(db: seq<seq<BinBundle>>): (r: seq<seq<Bins>>)
    reads Objects(db)
    ensures |r| == |db| && forall i :: 0 <= i < |db| ==> r[i] == Contents(db[i])
  {
    seq(|db|, i requires 0 <= i < |db| reads Objects(db) => Contents(db[i]))
  }

  /** The bundle indices of the data. */
  ghost predicate IndicesOf(data: seq<Data>, indices: set<nat>, binsPerBundle: nat)
    requires binsPerBundle > 0
  {
    forall i :: i in indices <==> exists d :: d in data && Unpack(d.cuckooIdx, binsPerBundle).bundle == i
  }

  ghost predicate InTable(data: seq<Data>, binsPerBundle: nat, count: nat)
    requires binsPerBundle > 0
  {
    forall d :: d in data ==> Unpack(d.cuckooIdx, binsPerBundle).bundle < count
  }

  /** Which bundle indices the data need. */
  method BundleIndices(data: seq<Data>, binsPerBundle: nat) returns (indices: set<nat>)
    requires binsPerBundle > 0
    ensures IndicesOf(data, indices, binsPerBundle)
  {
    hide Unpack;
    indices := {};
    for k := 0 to |data|
      invariant forall i :: i in indices <==>
        exists d :: d in data[..k] && Unpack(d.cuckooIdx, binsPerBundle).bundle == i
    {
      assert data[..k + 1] == data[..k] + [data[k]];
      var bundle := Unpack(data[k].cuckooIdx, binsPerBundle).bundle;
      forall i | i == bundle || i in indices
        ensures exists d :: d in data[..k + 1] && Unpack(d.cuckooIdx, binsPerBundle).bundle == i
      {
        if i == bundle {
          assert data[k] in data[..k + 1];
        }
      }
      indices := indices + {bundle};
    }
    assert data[..|data|] == data;
  }

  /** The bundles of one index replaced by what its worker made of them: the others are as they were. */
  method DispatchOne(data: seq<Data>, db0: seq<seq<BinBundle>>, index: nat, binsPerBundle: nat, maxBinSize: nat,
          labelled: bool)
      returns (db: seq<seq<BinBundle>>, ghost added: set<BinBundle>)
    requires binsPerBundle > 0 && Separate(db0, labelled) && Placed(data, binsPerBundle) && index < |db0|
    modifies Objects(db0)
    ensures |db| == |db0| && Separate(db, labelled)
    ensures fresh(added) && Objects(db) <= Objects(db0) + added
    ensures AllContents(db) == old(AllContents(db0))[index :=
        InsertAll(old(AllContents(db0))[index], data, index, maxBinSize, binsPerBundle, labelled)]
  {
    hide InsertAll, Placed;
    ghost var before := AllContents(db0);
    InObjects(db0, index);
    var inserted := InsertWorker(data, db0[index], index, binsPerBundle, maxBinSize, labelled);
    db := db0[index := inserted.bundleSet];
    added := set b | 0 <= b < |db[index]| && db[index][b] !in db0[index] :: db[index][b];
    forall o | o in Objects(db)
      ensures o in Objects(db0) + added
    {
      var i, b :| 0 <= i < |db| && 0 <= b < |db[i]| && db[i][b] == o;
      InObjects(db0, i);
    }
    InObjects(db0, index);
    forall i | 0 <= i < |db0| && i != index
      ensures Contents(db[i]) == before[i]
    {
    }
  }

  lemma InObjects(db: seq<seq<BinBundle>>, i: nat)
    ensures i < |db| ==> forall o :: o in db[i] ==> o in Objects(db)
  {
  }

  /** `dispatch_insert_or_assign`, inserting only: a worker for every bundle index that the data need. */
  method Dispatch(data: seq<Data>, db0: seq<seq<BinBundle>>, binsPerBundle: nat, maxBinSize: nat,
          labelled: bool) returns (db: seq<seq<BinBundle>>)
    requires binsPerBundle > 0 && Separate(db0, labelled) && Placed(data, binsPerBundle)
    requires InTable(data, binsPerBundle, |db0|)
    modifies Objects(db0)
    ensures |db| == |db0| && Separate(db, labelled)
    ensures forall i :: 0 <= i < |db0| ==>
      AllContents(db)[i] == InsertAll(old(AllContents(db0))[i], data, i, maxBinSize, binsPerBundle, labelled)
  {
    hide *;
    ghost var before := AllContents(db0);
    ProcessedEnds(before, data, maxBinSize, binsPerBundle, labelled);
    db := db0;
    var todo := BundleIndices(data, binsPerBundle);
    ghost var all := todo;
    ghost var created: set<BinBundle> := {};
    InRange(data, all, binsPerBundle, |db0|);
    assert all - todo == {};
    while todo != {}
      invariant todo <= all
      invariant |db| == |db0| && Separate(db, labelled)
      invariant fresh(created)
      invariant Objects(db) <= Objects(db0) + created
      invariant AllContents(db) == Processed(before, data, all - todo, maxBinSize, binsPerBundle, labelled)
      decreases |todo|
    {
      var index :| index in todo;
      InObjects(db, index);
      ProcessedNext(before, data, all - todo, index, maxBinSize, binsPerBundle, labelled);
      Taken(all, todo, index);
      ghost var added: set<BinBundle>;
      db, added := DispatchOne(data, db, index, binsPerBundle, maxBinSize, labelled);
      created := created + added;
      todo := todo - {index};
    }
    assert all - todo == all;
    ProcessedRest(before, data, all, maxBinSize, binsPerBundle, labelled);
  }

  lemma Taken(all: set<nat>, todo: set<nat>, index: nat)
    requires index in todo && todo <= all
    ensures (all - todo) + {index} == all - (todo - {index}) && index !in all - todo
  {
  }

  lemma InRange(data: seq<Data>, indices: set<nat>, binsPerBundle: nat, count: nat)
    requires binsPerBundle > 0 && InTable(data, binsPerBundle, count) && IndicesOf(data, indices, binsPerBundle)
    ensures forall i :: i in indices ==> i < count
  {
    hide Unpack;
  }

  /** The database when the workers for the indices in `done` have finished. */
  ghost function Processed(before: seq<seq<Bins>>, data: seq<Data>, done: set<nat>, max: nat, binCount: nat,
          labelled: bool): (r: seq<seq<Bins>>)
    requires binCount > 0
    ensures |r| == |before|
  {
    seq(|before|, i requires 0 <= i < |before| => if i in done
      then InsertAll(before[i], data, i, max, binCount, labelled) else before[i])
  }

  lemma ProcessedEnds(before: seq<seq<Bins>>, data: seq<Data>, max: nat, binCount: nat, labelled: bool)
    requires binCount > 0
    ensures Processed(before, data, {}, max, binCount, labelled) == before
  {
  }

  lemma ProcessedNext(before: seq<seq<Bins>>, data: seq<Data>, done: set<nat>, index: nat, max: nat, binCount: nat,
          labelled: bool)
    requires binCount > 0 && index < |before| && index !in done
    ensures var now := Processed(before, data, done, max, binCount, labelled);
      Processed(before, data, done + {index}, max, binCount, labelled) ==
        now[index := InsertAll(now[index], data, index, max, binCount, labelled)]
  {
    hide InsertAll;
  }

  lemma ProcessedRest(before: seq<seq<Bins>>, data: seq<Data>, all: set<nat>, max: nat, binCount: nat, labelled: bool)
    requires binCount > 0 && IndicesOf(data, all, binCount)
    ensures forall i :: 0 <= i < |before| ==>
      Processed(before, data, all, max, binCount, labelled)[i] == InsertAll(before[i], data, i, max, binCount, labelled)
  {
    hide InsertAll, Unpack;
    forall i | 0 <= i < |before| && i !in all
      ensures InsertAll(before[i], data, i, max, binCount, labelled) == before[i]
    {
      NothingToInsert(before[i], data, i, max, binCount, labelled);
    }
  }
}
