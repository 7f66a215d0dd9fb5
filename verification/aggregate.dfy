/** The two `groupby(...).agg(...)` steps: per mapped category on the product
    side (mean price, mean rating, count of ids), per normalised
    `masterCategory` on the catalog side (count of the count column). */
module Aggregate {
  import opened Wrappers
  import opened Tables
  import opened StringOrder
  import opened Grouping
  import opened Stats

  function MappedKey(m: MappedProduct): string {
    m.mappedCategory
  }

  function HasId(m: MappedProduct): bool {
    m.product.id.Some?
  }

  function Prices(g: seq<MappedProduct>): (xs: seq<Option<real>>)
    ensures |xs| == |g| && forall i :: 0 <= i < |g| ==> xs[i] == g[i].product.price
  {
    seq(|g|, i requires 0 <= i < |g| => g[i].product.price)
  }

  function Ratings(g: seq<MappedProduct>): (xs: seq<Option<real>>)
    ensures |xs| == |g| && forall i :: 0 <= i < |g| ==> xs[i] == g[i].product.rating
  {
    seq(|g|, i requires 0 <= i < |g| => g[i].product.rating)
  }

  /** The number of product rows in group `k` that have an id. */
  ghost function IdCount(rows: seq<MappedProduct>, k: string): nat {
    |set j | 0 <= j < |rows| && rows[j].mappedCategory == k && rows[j].product.id.Some?|
  }

  /** One row of the product aggregate. */
  function AggregateProductGroup(rows: seq<MappedProduct>, k: string): (a: ProductAgg)
    ensures a.mappedCategory == k
    ensures a.dummyCount == IdCount(rows, k)
  {
    var g := Group(rows, MappedKey, k);
    GroupCountIsIndexCount(rows, MappedKey, HasId, k);
    assert GroupIndices(rows, MappedKey, HasId, k)
        == set j | 0 <= j < |rows| && rows[j].mappedCategory == k && rows[j].product.id.Some?;
    ProductAgg(k, Mean(Prices(g)), Mean(Ratings(g)), CountWhere(g, HasId))
  }

  function ProductAggKey(p: ProductAgg): string {
    p.mappedCategory
  }

  /** The key column of the product aggregate: `Keys` with the row type fixed,
      so that proofs about it index a first-order sequence. */
  function ProductKeys(r: seq<ProductAgg>): (ks: seq<string>)
    ensures |ks| == |r| && forall i :: 0 <= i < |r| ==> ks[i] == r[i].mappedCategory
  {
    Keys(r, ProductAggKey)
  }

  /** The product aggregate rows for the keys `ks`, in that order. */
  function ProductRows(rows: seq<MappedProduct>, ks: seq<string>): (r: seq<ProductAgg>)
    ensures |r| == |ks|
    ensures forall i :: 0 <= i < |ks| ==> r[i] == AggregateProductGroup(rows, ks[i])
  {
    if |ks| == 0 then [] else [AggregateProductGroup(rows, ks[0])] + ProductRows(rows, ks[1..])
  }

  /** `groupby("mappedCategory").agg(avg_price=("price", "mean"),
      avg_rating=("rating", "mean"), dummy_count=("id", "count"))`: one row
      per mapped category that occurs and none other; the count is the number
      of rows of that category with an id, and the means are over that
      category's rows. The rows are ascending by `AggregateProductsSorted`. */
  function AggregateProducts(rows: seq<MappedProduct>): (r: seq<ProductAgg>)
    ensures forall k :: k in ProductKeys(r) <==> k in Keys(rows, MappedKey)
    ensures forall i :: 0 <= i < |r| ==> r[i].dummyCount == IdCount(rows, r[i].mappedCategory)
    ensures forall i :: 0 <= i < |r| ==>
      var g := Group(rows, MappedKey, r[i].mappedCategory);
      r[i].avgPrice == Mean(Prices(g)) && r[i].avgRating == Mean(Ratings(g))
  {
    var ks := GroupKeys(rows, MappedKey);
    var r := ProductRows(rows, ks);
    assert ProductKeys(r) == ks;
    r
  }

  /** The product aggregate is ascending by mapped category, so no category
      has two rows. */
  lemma AggregateProductsSorted(rows: seq<MappedProduct>)
    ensures StrictlySorted(ProductKeys(AggregateProducts(rows)))
  {
    GroupKeysSorted(rows, MappedKey);
    assert ProductKeys(AggregateProducts(rows)) == GroupKeys(rows, MappedKey);
  }

  /** One catalog row's key. */
  function EntryKey(e: CatalogEntry): string {
    e.masterCategory
  }

  function IsCounted(e: CatalogEntry): bool {
    e.counted
  }

  /** The number of catalog rows in group `k` whose count column holds a value. */
  ghost function CatalogCount(entries: seq<CatalogEntry>, k: string): nat {
    |set j | 0 <= j < |entries| && entries[j].masterCategory == k && entries[j].counted|
  }

  function AggregateCatalogGroup(entries: seq<CatalogEntry>, k: string): (a: CatalogAgg)
    ensures a.masterCategory == k
    ensures a.kaggleCount == CatalogCount(entries, k)
  {
    GroupCountIsIndexCount(entries, EntryKey, IsCounted, k);
    assert GroupIndices(entries, EntryKey, IsCounted, k)
        == set j | 0 <= j < |entries| && entries[j].masterCategory == k && entries[j].counted;
    CatalogAgg(k, CountWhere(Group(entries, EntryKey, k), IsCounted))
  }

  function CatalogAggKey(a: CatalogAgg): string {
    a.masterCategory
  }

  /** The key column of the catalog aggregate: `Keys` with the row type fixed. */
  function CatalogKeys(r: seq<CatalogAgg>): (ks: seq<string>)
    ensures |ks| == |r| && forall i :: 0 <= i < |r| ==> ks[i] == r[i].masterCategory
  {
    Keys(r, CatalogAggKey)
  }

  /** The catalog aggregate rows for the keys `ks`, in that order. */
  function CatalogRows(entries: seq<CatalogEntry>, ks: seq<string>): (r: seq<CatalogAgg>)
    ensures |r| == |ks|
    ensures forall i :: 0 <= i < |ks| ==> r[i] == AggregateCatalogGroup(entries, ks[i])
  {
    if |ks| == 0 then [] else [AggregateCatalogGroup(entries, ks[0])] + CatalogRows(entries, ks[1..])
  }

  /** `groupby("masterCategory").agg(kaggle_count=(count_col, "count"))`: one
      row per category that occurs and none other, counting the rows of that
      category whose count column holds a value. The rows are ascending by
      `AggregateCatalogSorted`. */
  function AggregateCatalog(entries: seq<CatalogEntry>): (r: seq<CatalogAgg>)
    ensures forall k :: k in CatalogKeys(r) <==> k in Keys(entries, EntryKey)
    ensures forall i :: 0 <= i < |r| ==> r[i].kaggleCount == CatalogCount(entries, r[i].masterCategory)
  {
    var ks := GroupKeys(entries, EntryKey);
    var r := CatalogRows(entries, ks);
    assert CatalogKeys(r) == ks;
    r
  }

  /** The catalog aggregate is ascending by category, so no category has two rows. */
  lemma AggregateCatalogSorted(entries: seq<CatalogEntry>)
    ensures StrictlySorted(CatalogKeys(AggregateCatalog(entries)))
  {
    GroupKeysSorted(entries, EntryKey);
    assert CatalogKeys(AggregateCatalog(entries)) == GroupKeys(entries, EntryKey);
  }

  function DummyCounts(aggs: seq<ProductAgg>): (cs: seq<nat>)
    ensures |cs| == |aggs| && forall i :: 0 <= i < |aggs| ==> cs[i] == aggs[i].dummyCount
  {
    seq(|aggs|, i requires 0 <= i < |aggs| => aggs[i].dummyCount)
  }

  function KaggleCounts(aggs: seq<CatalogAgg>): (cs: seq<nat>)
    ensures |cs| == |aggs| && forall i :: 0 <= i < |aggs| ==> cs[i] == aggs[i].kaggleCount
  {
    seq(|aggs|, i requires 0 <= i < |aggs| => aggs[i].kaggleCount)
  }

  /** The product counts add up to the number of surviving rows with an id,
      and so to the number of surviving rows when every id is present. */
  lemma ProductCountsAddUp(rows: seq<MappedProduct>)
    ensures Total(DummyCounts(AggregateProducts(rows))) == CountWhere(rows, HasId)
    ensures (forall j :: 0 <= j < |rows| ==> rows[j].product.id.Some?)
        ==> Total(DummyCounts(AggregateProducts(rows))) == |rows|
  {
    var ks := GroupKeys(rows, MappedKey);
    var r := AggregateProducts(rows);
    assert |r| == |ks| && forall i :: 0 <= i < |ks| ==> r[i] == AggregateProductGroup(rows, ks[i]);
    TotalOfGroupCounts(rows, MappedKey, HasId, ks, DummyCounts(r));
    GroupCountsAddUp(rows, MappedKey, HasId);
    if forall j :: 0 <= j < |rows| ==> rows[j].product.id.Some? {
      CountWhereAll(rows, HasId);
    }
  }

  /** The catalog counts add up to the number of catalog rows whose count column
      holds a value. */
  lemma CatalogCountsAddUp(entries: seq<CatalogEntry>)
    ensures Total(KaggleCounts(AggregateCatalog(entries))) == CountWhere(entries, IsCounted)
    ensures (forall j :: 0 <= j < |entries| ==> entries[j].counted)
        ==> Total(KaggleCounts(AggregateCatalog(entries))) == |entries|
  {
    var ks := GroupKeys(entries, EntryKey);
    var r := AggregateCatalog(entries);
    assert |r| == |ks| && forall i :: 0 <= i < |ks| ==> r[i] == AggregateCatalogGroup(entries, ks[i]);
    TotalOfGroupCounts(entries, EntryKey, IsCounted, ks, KaggleCounts(r));
    GroupCountsAddUp(entries, EntryKey, IsCounted);
    if forall j :: 0 <= j < |entries| ==> entries[j].counted {
      CountWhereAll(entries, IsCounted);
    }
  }

  /** A group in which no row has a price gets a missing average price, not 0. */
  lemma NoPriceMeansMissingAverage(rows: seq<MappedProduct>, i: int)
    requires 0 <= i < |AggregateProducts(rows)|
    requires forall j :: 0 <= j < |rows| && rows[j].mappedCategory == AggregateProducts(rows)[i].mappedCategory
                     ==> rows[j].product.price.None?
    ensures AggregateProducts(rows)[i].avgPrice.None?
  {
    var k := AggregateProducts(rows)[i].mappedCategory;
    var g := Group(rows, MappedKey, k);
    GroupSelects(rows, MappedKey, k);
    var idx := GroupPositions(rows, MappedKey, k);
    forall m | 0 <= m < |g| ensures Prices(g)[m].None? {
      assert g[m] == rows[idx[m]];
    }
  }
}
