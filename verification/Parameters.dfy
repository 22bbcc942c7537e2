/** Protocol parameters, and the sizes that placement of items in bundles rests on. */
module Parameters {
  import opened Division

  /** What a parameter set gives, besides the ring parameters that SEAL checks itself. */
  datatype Given = Given(tableSize: nat, maxItemsPerBin: nat, hashFuncCount: nat, feltsPerItem: nat,
                         psLowDegree: nat, queryPowers: set<nat>, polyModulusDegree: nat, plainModulusBits: nat)

  datatype Derived = Derived(itemBitCountPerFelt: nat, itemBitCount: nat, itemsPerBundle: nat, binsPerBundle: nat,
    bundleIdxCount: nat)

  datatype Checked = InvalidArgument | Accepted(derived: Derived)

  /** The conditions on a parameter set. */
  predicate Valid(g: Given) {
    && ChecksFirst(g) && SizesFit(g.plainModulusBits, g.polyModulusDegree, g.feltsPerItem, g.tableSize)
  }

  predicate ChecksFirst(g: Given) {
    && g.tableSize > 0 && g.maxItemsPerBin > 0 && 1 <= g.hashFuncCount <= 8 && 2 <= g.feltsPerItem <= 32
    && g.psLowDegree <= g.maxItemsPerBin
    && 0 !in g.queryPowers && 1 in g.queryPowers && |g.queryPowers| <= g.maxItemsPerBin
    && (forall p :: p in g.queryPowers ==>
      p <= g.maxItemsPerBin && (p > g.psLowDegree ==> p % (g.psLowDegree + 1) == 0))
  }

  predicate SizesFit(plainModulusBits: nat, polyModulusDegree: nat, feltsPerItem: nat, tableSize: nat) {
    && plainModulusBits > 0 && feltsPerItem > 0 && 80 <= (plainModulusBits - 1) * feltsPerItem <= 128
    && polyModulusDegree / feltsPerItem > 0 && tableSize % (polyModulusDegree / feltsPerItem) == 0
  }

  /** What the derived sizes are worth to placement. */
  predicate SizesUseful(d: Derived, polyModulusDegree: nat, feltsPerItem: nat, tableSize: nat) {
    && d.itemBitCount == d.itemBitCountPerFelt * feltsPerItem && 80 <= d.itemBitCount <= 128
    && d.binsPerBundle == d.itemsPerBundle * feltsPerItem &&
      0 < d.binsPerBundle <= polyModulusDegree < d.binsPerBundle + feltsPerItem
    && d.bundleIdxCount > 0 && d.itemsPerBundle * d.bundleIdxCount == tableSize
  }

  lemma SizesFollow(degree: nat, felts: nat, tableSize: nat, items: nat, count: nat)
    requires felts > 0 && tableSize > 0 && items > 0 && items == degree / felts
    requires tableSize % items == 0 && count == tableSize / items
    ensures 0 < items * felts <= degree < items * felts + felts
    ensures count > 0 && items * count == tableSize
  {
    RemainderBelow(degree, felts);
    RemainderBelow(tableSize, items);
    MulMono(1, items, felts);
    MulMono(count, 0, items);
    assert count * items == items * count;
  }

  /** The second half of `initialize`. */
  method Derive(plainModulusBits: nat, polyModulusDegree: nat, feltsPerItem: nat, tableSize: nat) returns (r: Checked)
    requires plainModulusBits > 0 && feltsPerItem > 0 && tableSize > 0
    ensures r.Accepted? <==> SizesFit(plainModulusBits, polyModulusDegree, feltsPerItem, tableSize)
    ensures r.Accepted? ==> r.derived.itemBitCountPerFelt + 1 == plainModulusBits
    ensures r.Accepted? ==> SizesUseful(r.derived, polyModulusDegree, feltsPerItem, tableSize)
  {
    var itemBitCountPerFelt := plainModulusBits - 1;
    var itemBitCount := itemBitCountPerFelt * feltsPerItem;
    if itemBitCount < 80 || itemBitCount > 128 {
      return InvalidArgument;
    }
    var itemsPerBundle := polyModulusDegree / feltsPerItem;
    if itemsPerBundle == 0 {
      return InvalidArgument;
    }
    var binsPerBundle := itemsPerBundle * feltsPerItem;
    if tableSize % itemsPerBundle != 0 {
      return InvalidArgument;
    }
    var bundleIdxCount := tableSize / itemsPerBundle;
    SizesFollow(polyModulusDegree, feltsPerItem, tableSize, itemsPerBundle, bundleIdxCount);
    return Accepted(Derived(itemBitCountPerFelt, itemBitCount, itemsPerBundle, binsPerBundle, bundleIdxCount));
  }

  /** `PSUParams::initialize`: the checks in order, then the derived sizes. */
  method Initialize(g: Given) returns (r: Checked)
    requires g.plainModulusBits > 0
    ensures r.Accepted? <==> Valid(g)
    ensures r.Accepted? ==> r.derived.itemBitCountPerFelt + 1 == g.plainModulusBits
    ensures r.Accepted? ==> SizesUseful(r.derived, g.polyModulusDegree, g.feltsPerItem, g.tableSize)
  {
    hide SizesFit, SizesUseful;
    if g.tableSize == 0 {
      return InvalidArgument;
    }
    if g.maxItemsPerBin == 0 {
      return InvalidArgument;
    }
    if g.hashFuncCount < 1 || g.hashFuncCount > 8 {
      return InvalidArgument;
    }
    if g.feltsPerItem < 2 || g.feltsPerItem > 32 {
      return InvalidArgument;
    }
    if g.psLowDegree > g.maxItemsPerBin {
      return InvalidArgument;
    }
    if 0 in g.queryPowers || 1 !in g.queryPowers {
      return InvalidArgument;
    }
    if |g.queryPowers| > g.maxItemsPerBin {
      return InvalidArgument;
    }
    var todo := g.queryPowers;
    while todo != {}
      invariant todo <= g.queryPowers
      invariant forall p :: p in g.queryPowers && p !in todo ==>
          p <= g.maxItemsPerBin && (p > g.psLowDegree ==> p % (g.psLowDegree + 1) == 0)
      decreases |todo|
    {
      var p :| p in todo;
      if p > g.maxItemsPerBin {
        return InvalidArgument;
      }
      if p > g.psLowDegree && p % (g.psLowDegree + 1) != 0 {
        return InvalidArgument;
      }
      todo := todo - {p};
    }
    r := Derive(g.plainModulusBits, g.polyModulusDegree, g.feltsPerItem, g.tableSize);
  }

  datatype Place = Place(bin: nat, bundle: nat)

  /** `unpack_cuckoo_idx` */
  function Unpack(cuckooIdx: nat, binsPerBundle: nat): (r: Place)
    requires binsPerBundle > 0
    ensures r.bin < binsPerBundle && r.bundle * binsPerBundle + r.bin == cuckooIdx
  {
    var bin := cuckooIdx % binsPerBundle;
    RemainderBelow(cuckooIdx, binsPerBundle);
    Remainder(binsPerBundle, cuckooIdx / binsPerBundle, 0);
    Place(bin, (cuckooIdx - bin) / binsPerBundle)
  }

  /**
   * No item straddles two bundles: all its field elements have bins in the bundle where it starts,
   * and that bundle exists.
   */
  lemma NoStraddle(location: nat, feltsPerItem: nat, itemsPerBundle: nat, bundleIdxCount: nat)
    requires feltsPerItem > 0 && itemsPerBundle > 0 && location < itemsPerBundle * bundleIdxCount
    ensures itemsPerBundle * feltsPerItem > 0
    ensures var place := Unpack(location * feltsPerItem, itemsPerBundle * feltsPerItem);
      place.bin + feltsPerItem <= itemsPerBundle * feltsPerItem && place.bundle < bundleIdxCount
  {
    hide Unpack;
    var bins := itemsPerBundle * feltsPerItem;
    MulMono(1, itemsPerBundle, feltsPerItem);
    var q, r := location / itemsPerBundle, location % itemsPerBundle;
    RemainderBelow(location, itemsPerBundle);
    ProductAssoc(q, itemsPerBundle, feltsPerItem);
    assert location * feltsPerItem == (q * itemsPerBundle) * feltsPerItem + r * feltsPerItem;
    MulMono(r + 1, itemsPerBundle, feltsPerItem);
    assert (r + 1) * feltsPerItem == r * feltsPerItem + feltsPerItem;
    UnpackIs(q, r * feltsPerItem, bins);
    MulMono(bundleIdxCount, q, itemsPerBundle);
  }

  lemma UnpackIs(bundle: nat, bin: nat, binsPerBundle: nat)
    requires bin < binsPerBundle
    ensures Unpack(bundle * binsPerBundle + bin, binsPerBundle) == Place(bin, bundle)
  {
    Remainder(binsPerBundle, bundle, bin);
    Remainder(binsPerBundle, bundle, 0);
  }
}
