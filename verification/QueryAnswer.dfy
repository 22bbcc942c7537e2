/**
 * The whole of a query: the sent powers, the workers, and the answers of all bundles of the database.
 * What the answers match is what was inserted.
 */
module QueryAnswer {
  import opened BundleAnswer
  import opened Ciphertexts
  import opened Parameters
  import opened Placement
  import opened PreprocessedData
  import opened PowersDags
  import opened PowersPlan
  import opened PowersWorkers
  import opened Primes
  import opened QueryRun
  import opened Rings
  import opened SlotVectors
  import opened SourcePowers

  lemma {:induction false} InHeld(bundles: seq<Bins>, k: nat, v: Felt)
    ensures v in Held(bundles, k) <==> exists b :: 0 <= b < |bundles| && k < |bundles[b]| && v in bundles[b][k]
  {
    if bundles == [] {
    } else {
      var last := |bundles| - 1;
      InHeld(bundles[..last], k, v);
      HeldLast(bundles, k);
      if b :| 0 <= b < |bundles| && k < |bundles[b]| && v in bundles[b][k] {
        assert b == last || bundles[..last][b] == bundles[b];
      }
    }
  }

  lemma PutsIs(d: Data, index: nat, binCount: nat, k: nat, v: Felt)
    requires binCount > 0
    ensures var place := Unpack(d.cuckooIdx, binCount);
      Puts(d, index, binCount, k, v) <==> place.bundle == index && v in Adds(d.felts, place.bin, k)
  {
    hide Unpack;
  }

  lemma {:induction false} InWanted(data: seq<Data>, index: nat, binCount: nat, k: nat, v: Felt)
    requires binCount > 0
    ensures v in Wanted(data, index, binCount, k) <==> exists d :: d in data && Puts(d, index, binCount, k, v)
    decreases |data|
  {
    hide Unpack, Puts, Adds;
    if data == [] {
    } else {
      var rest, last := data[..|data| - 1], data[|data| - 1];
      InWanted(rest, index, binCount, k, v);
      PutsIs(last, index, binCount, k, v);
      assert forall d :: d in data <==> d in rest || d == last;
    }
  }

  /** Every inserted field element is a slot value. */
  ghost predicate SlotValues(data: seq<Data>) {
    forall d :: d in data ==> ReducedBin(d.felts)
  }

  ghost predicate AllStand(bundles: seq<Bins>, binCount: nat) {
    forall b :: 0 <= b < |bundles| ==> |bundles[b]| == binCount && Reduced(bundles[b])
  }

  lemma InsertedReduced(bins: Bins, items: seq<Felt>, start: nat)
    requires Room(bins, items, start) && Reduced(bins) && ReducedBin(items)
    ensures Reduced(Inserted(bins, items, start))
  {
    forall k | 0 <= k < |bins|
      ensures ReducedBin(Inserted(bins, items, start)[k])
    {
      assert ReducedBin(bins[k]);
    }
  }

  lemma InsertOneStands(bundles: seq<Bins>, items: seq<Felt>, start: nat, max: nat, binCount: nat, labelled: bool)
    requires AllStand(bundles, binCount) && ReducedBin(items)
    ensures AllStand(InsertOne(bundles, items, start, max, binCount, labelled), binCount)
  {
    hide Takes, Reduced, ReducedBin, Inserted;
    var b := LastTaking(bundles, items, start, max, labelled);
    if b < |bundles| {
      TakesRoom(bundles[b], items, start, max, labelled);
      InsertedReduced(bundles[b], items, start);
    } else if Room(EmptyBins(binCount), items, start) {
      EmptyReduced(binCount);
      InsertedReduced(EmptyBins(binCount), items, start);
    }
  }

  lemma EmptyReduced(binCount: nat)
    ensures Reduced(EmptyBins(binCount))
  {
  }

  lemma {:induction false} InsertAllStands(data: seq<Data>, index: nat, max: nat, binCount: nat, labelled: bool)
    requires binCount > 0 && SlotValues(data)
    ensures AllStand(InsertAll([], data, index, max, binCount, labelled), binCount)
    decreases |data|
  {
    hide InsertOne, ReducedBin, Reduced, Unpack;
    if data == [] {
    } else {
      var rest, last := data[..|data| - 1], data[|data| - 1];
      assert last in data && forall d :: d in rest ==> d in data;
      InsertAllStands(rest, index, max, binCount, labelled);
      InsertOneStands(InsertAll([], rest, index, max, binCount, labelled), last.felts,
        Unpack(last.cuckooIdx, binCount).bin, max, binCount, labelled);
    }
  }

  /**
   * Every bundle of a database that was filled by insertion can be answered: the check for enough
   * powers never fails on it.
   */
  lemma DatabaseStands(data: seq<Data>, index: nat, max: nat, binCount: nat, labelled: bool)
    requires 0 < binCount <= SLOTS && SlotValues(data)
    ensures var bundles := InsertAll([], data, index, max, binCount, labelled);
      forall b :: 0 <= b < |bundles| ==> Stands(bundles[b], max) && |bundles[b]| == binCount
  {
    hide InsertAll, Bound, Reduced, SlotValues;
    InsertAllStands(data, index, max, binCount, labelled);
    InsertAllBounded([], data, index, max, binCount, labelled);
  }

  /** Result `b` is the answer of bundle `b`. */
  ghost predicate AllMatch(bundles: seq<Bins>, x: Slots, randoms: seq<Slots>, results: seq<Slots>) {
    && |results| == |randoms| == |bundles|
    && forall b :: 0 <= b < |bundles| ==> Matches(bundles[b], x, randoms[b], results[b])
  }

  /** Some bundle answers slot `k` with its random value. */
  ghost predicate SlotMatched(randoms: seq<Slots>, results: seq<Slots>, k: nat)
    requires k < SLOTS && |results| == |randoms|
  {
    exists b :: 0 <= b < |results| && results[b][k] == randoms[b][k]
  }

  /** A slot is matched by some bundle if and only if an item that was inserted put that value into that bin. */
  lemma SlotMatchedIff(data: seq<Data>, index: nat, max: nat, binCount: nat, labelled: bool, x: Slots,
          randoms: seq<Slots>, results: seq<Slots>, k: nat)
    requires 0 < binCount <= SLOTS && Placed(data, binCount) && SlotValues(data) && k < binCount
    requires AllMatch(InsertAll([], data, index, max, binCount, labelled), x, randoms, results)
    ensures SlotMatched(randoms, results, k) <==> exists d :: d in data && Puts(d, index, binCount, k, x[k])
  {
    hide InsertAll, Held, Wanted, Puts, Placed, Stands, SlotValues, Matches;
    var bundles := InsertAll([], data, index, max, binCount, labelled);
    InsertAllHeld([], data, index, max, binCount, labelled, k);
    NothingHeld(k);
    InHeld(bundles, k, x[k]);
    InWanted(data, index, binCount, k, x[k]);
    DatabaseStands(data, index, max, binCount, labelled);
    forall b | 0 <= b < |bundles|
      ensures results[b][k] == randoms[b][k] <==> k < |bundles[b]| && x[k] in bundles[b][k]
    {
      MatchesAt(bundles[b], x, randoms[b], results[b], k);
    }
  }

  lemma NothingHeld(k: nat)
    ensures Held([], k) == multiset{}
  {
  }

  lemma MatchesAt(bins: Bins, x: Slots, random: Slots, result: Slots, k: nat)
    requires k < |bins| && k < SLOTS && Matches(bins, x, random, result)
    ensures result[k] == random[k] <==> x[k] in bins[k]
  {
  }

  /** The query holds this item where it was inserted: one bundle matches in all its slots. */
  lemma InsertedItemMatches(data: seq<Data>, i: nat, max: nat, binCount: nat, labelled: bool, x: Slots,
          randoms: seq<Slots>, results: seq<Slots>)
    requires 0 < binCount <= SLOTS && Placed(data, binCount) && SlotValues(data) && i < |data|
    requires AllMatch(InsertAll([], data, Unpack(data[i].cuckooIdx, binCount).bundle, max, binCount, labelled), x,
        randoms, results)
    requires Holds(data[i].felts, Unpack(data[i].cuckooIdx, binCount).bin, x)
    ensures ItemMatched(data[i].felts, Unpack(data[i].cuckooIdx, binCount).bin, randoms, results)
  {
    hide InsertAll, Placed, Stands, SlotValues, Matches, Unpack;
    var place, items := Unpack(data[i].cuckooIdx, binCount), data[i].felts;
    var bundles := InsertAll([], data, place.bundle, max, binCount, labelled);
    InsertAllStores([], data, place.bundle, max, binCount, labelled, i);
    DatabaseStands(data, place.bundle, max, binCount, labelled);
    var b :| 0 <= b < |bundles| && StoredIn(bundles[b], items, place.bin);
    forall k | place.bin <= k < place.bin + |items|
      ensures results[b][k] == randoms[b][k]
    {
      assert items[k - place.bin] in bundles[b][place.bin + (k - place.bin)];
      MatchesAt(bundles[b], x, randoms[b], results[b], k);
    }
    assert ItemMatchedBy(items, place.bin, randoms[b], results[b]);
  }

  /** The query's slots from `start` on are the item's field elements. */
  ghost predicate Holds(items: seq<Felt>, start: nat, x: Slots) {
    start + |items| <= SLOTS && forall k :: start <= k < start + |items| ==> x[k] == items[k - start]
  }

  ghost predicate ItemMatchedBy(items: seq<Felt>, start: nat, random: Slots, result: Slots) {
    start + |items| <= SLOTS && forall k :: start <= k < start + |items| ==> result[k] == random[k]
  }

  ghost predicate ItemMatched(items: seq<Felt>, start: nat, randoms: seq<Slots>, results: seq<Slots>) {
    |results| == |randoms| && exists b :: 0 <= b < |results| && ItemMatchedBy(items, start, randoms[b], results[b])
  }

  /** What `source_nodes` reports of a planned object covers every given power, so all of them are sent. */
  lemma AllSourcesSent(nodes: map<nat, PowersNode>, source: seq<nat>, target: seq<nat>, sources: seq<PowersNode>,
                       powers: map<nat, seq<nat>>, values: seq<nat>)
    requires Acceptable(source, target) && Planned(nodes, source, target)
    requires forall node :: node in sources <==> exists p :: p in nodes && nodes[p] == node && node.IsSource()
    requires forall s :: s in sources ==> Answers(powers, values, s.power)
    ensures forall p :: p in source ==> Answers(powers, values, p)
  {
    hide Answers, Planned;
    forall p | p in source
      ensures Answers(powers, values, p)
    {
      PlannedMeans(nodes, source, target, p);
      assert nodes[p] in sources;
    }
  }

  /** The query as the workers get it: the sent powers in their slots, the other slots blank. */
  ghost function Received(powers: map<nat, seq<nat>>, targets: seq<nat>): map<nat, Slots> {
    map p | p in targets :: if p in powers then Encode(powers[p]) else Constant(0)
  }

  /**
   * A query against one bundle, from the powers that were sent to the answer. Whatever schedule the
   * workers took, once one of them has returned the bundle's answer matches exactly where its bins
   * hold the query's values.
   */
  method AnswerQuery(bins: Bins, values: seq<nat>, powers: map<nat, seq<nat>>, source: seq<nat>, job: Job<Slots>,
          computed: map<nat, Slots>,
                     random: Plaintext<Slots>, low: nat, maxItems: nat, top: nat, ghost workers: nat,
                       ghost schedule: seq<nat>, ghost w: nat)
      returns (out: Outcome<Ciphertext<Slots>>)
    requires Prime(MODULUS) && Stands(bins, maxItems) && maxItems >= 1 && low <= maxItems && !random.ntt
    requires QueryPowersAccepted(source, low, maxItems) && forall p :: p in source ==> Answers(powers, values, p)
    requires job.mul == SlotRing().mul && Ascending(job.targets) && forall p: nat :: p in job.targets <==>
        Needed(low, maxItems, p)
    requires Planned(job.nodes, source, job.targets)
    requires forall v :: v in schedule ==> v < workers
    requires Inv(job, Received(powers, job.targets), Start(job, Received(powers, job.targets), workers))
    requires After(job, Received(powers, job.targets), workers, schedule, w, computed)
    ensures out.Ok? <==> !(low == 1 && Crowded(bins))
    ensures out.Ok? ==> Matches(bins, Encode(values), random.value, out.value.value)
    ensures out != Fail(NotEnoughPowers) && out != Fail(BadLowDegree)
  {
    hide *;
    SlotsLawful();
    ReceivedSources(powers, values, source, job.targets, low, maxItems);
    var prepared := QueryRun.ComputePowers(SlotRing(), job, computed, source, low, maxItems, top,
                                           Encode(values), Received(powers, job.targets), workers, schedule, w);
    out := Answer(bins, prepared, random, low, maxItems, top, Encode(values));
  }

  lemma ReceivedSources(powers: map<nat, seq<nat>>, values: seq<nat>, source: seq<nat>, targets: seq<nat>, low: nat,
          maxItems: nat)
    requires QueryPowersAccepted(source, low, maxItems) && forall p :: p in source ==> Answers(powers, values, p)
    requires forall p: nat :: p in targets <==> Needed(low, maxItems, p)
    ensures forall p :: p in targets ==> p in Received(powers, targets)
    ensures forall p :: p in source ==>
        p in Received(powers, targets) && Received(powers, targets)[p] == Power(SlotRing(), Encode(values), p)
  {
    hide Power, Encode;
    forall p | p in source
      ensures p in targets
    {
      assert Needed(low, maxItems, p);
    }
  }
}
