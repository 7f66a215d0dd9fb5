/** The whole integration step: load the three inputs, normalise the category
    columns, map and drop the product categories, aggregate both sides and
    join them on the coarse category. */
module Pipeline {
  import opened Wrappers
  import opened Tables
  import opened Labels
  import opened StringOrder
  import opened Grouping
  import opened Vocabulary
  import opened Aggregate
  import opened Join
  import opened Stats

  /** `load_csv`: the parsed contents of the file at `path`, or an error naming
      the path when no file is there. `files` stands for the file system, as
      the parsed table of every file that exists. */
  function LoadCsv<T>(files: map<string, T>, path: string): (r: Result<T, Error>)
    ensures r.Success? <==> path in files
    ensures r.Success? ==> r.value == files[path]
    ensures r.Failure? ==> r.error == MissingInput(path)
  {
    if path in files then Success(files[path]) else Failure(MissingInput(path))
  }

  function CatalogPath(base: string): string {
    base + "/data/processed/kaggle_clean.csv"
  }

  function FashionPath(base: string): string {
    base + "/data/raw/dummyjson_fashion_products.csv"
  }

  function BeautyPath(base: string): string {
    base + "/data/raw/dummyjson_beauty_products.csv"
  }

  /** The position of the first column called `name`. */
  function IndexOf(columns: seq<string>, name: string): (r: Option<nat>)
    ensures r.Some? <==> name in columns
    ensures r.Some? ==> r.value < |columns| && columns[r.value] == name && name !in columns[..r.value]
  {
    if |columns| == 0 then None
    else if columns[0] == name then Some(0)
    else
      match IndexOf(columns[1..], name)
      case None => None
      case Some(i) =>
        assert columns[..i + 1] == [columns[0]] + columns[1..][..i];
        Some(i + 1)
  }

  /** The cell of a catalog row in column `c`; a short row reads as missing there. */
  function CellAt(row: seq<Option<string>>, c: nat): Option<string> {
    if c < |row| then row[c] else None
  }

  /** `"id" if "id" in df_kaggle.columns else df_kaggle.columns[0]`: the
      position of the column the catalog count reads. */
  function CountColumn(columns: seq<string>): (c: nat)
    requires |columns| > 0
    ensures c < |columns|
    ensures "id" in columns ==> columns[c] == "id"
    ensures "id" !in columns ==> c == 0
  {
    match IndexOf(columns, "id")
    case Some(i) => i
    case None => 0
  }

  /** Reads the catalog table down to what the aggregation needs: each row's
      normalised `masterCategory`, and whether its count column holds a value.
      When the count column is `masterCategory` itself it has been normalised
      to text already, so every row counts. A table without `masterCategory`
      stops the run. */
  function CatalogEntries(catalog: Frame): (r: Result<seq<CatalogEntry>, Error>)
    ensures r.Failure? <==> "masterCategory" !in catalog.columns
    ensures r.Failure? ==> r.error == MissingColumn("masterCategory")
    ensures r.Success? ==>
      var m, c := IndexOf(catalog.columns, "masterCategory").value, CountColumn(catalog.columns);
      && |r.value| == |catalog.rows|
      && forall i :: 0 <= i < |catalog.rows| ==>
        && r.value[i].masterCategory == NormaliseCell(CellAt(catalog.rows[i], m))
        && (r.value[i].counted <==> c == m || CellAt(catalog.rows[i], c).Some?)
  {
    match IndexOf(catalog.columns, "masterCategory")
    case None => Failure(MissingColumn("masterCategory"))
    case Some(m) =>
      var c := CountColumn(catalog.columns);
      Success(seq(|catalog.rows|, i requires 0 <= i < |catalog.rows| =>
        CatalogEntry(NormaliseCell(CellAt(catalog.rows[i], m)), c == m || CellAt(catalog.rows[i], c).Some?)))
  }

  /** `df_dummy["category"].astype(str).str.lower().str.strip()`: every row keeps
      its id, price and rating, and its category becomes normalised text. */
  function NormaliseProducts(raw: seq<RawProduct>): (r: seq<Product>)
    ensures |r| == |raw|
    ensures forall i :: 0 <= i < |raw| ==>
      && r[i].id == raw[i].id && r[i].price == raw[i].price && r[i].rating == raw[i].rating
      && r[i].category == NormaliseCell(raw[i].category)
      && IsNormalised(r[i].category)
  {
    seq(|raw|, i requires 0 <= i < |raw| =>
      Product(raw[i].id, NormaliseCell(raw[i].category), raw[i].price, raw[i].rating))
  }

  /** The product rows that reach the product aggregate: both files concatenated,
      normalised, mapped, and the unmapped ones dropped. */
  function MappedProducts(fashion: seq<RawProduct>, beauty: seq<RawProduct>): (r: seq<MappedProduct>)
    ensures |r| <= |fashion| + |beauty|
    ensures forall j :: 0 <= j < |r| ==> r[j].mappedCategory in Canonical
    ensures forall j :: 0 <= j < |r| ==> r[j].product in NormaliseProducts(fashion + beauty)
  {
    var rows := NormaliseProducts(fashion + beauty);
    MappingOntoCanonical();
    MapAndDropSelects(CategoryMapping, rows);
    MapAndDrop(CategoryMapping, rows)
  }

  /** The mapped rows are exactly the normalised rows of the concatenated files
      whose label is on the table, in file order, each carrying the table's
      category for its label. */
  lemma MappedProductsSelect(fashion: seq<RawProduct>, beauty: seq<RawProduct>)
    ensures var raw, r := fashion + beauty, MappedProducts(fashion, beauty);
      var idx := KeptPositions(CategoryMapping, NormaliseProducts(raw));
      && |idx| == |r|
      && (forall j :: 0 <= j < |idx| ==>
            && 0 <= idx[j] < |raw|
            && r[j].product == NormaliseProducts(raw)[idx[j]]
            && r[j].mappedCategory == CategoryMapping[NormaliseCell(raw[idx[j]].category)])
      && (forall j1, j2 :: 0 <= j1 < j2 < |idx| ==> idx[j1] < idx[j2])
      && (forall i :: 0 <= i < |raw| ==> (i in idx <==> NormaliseCell(raw[i].category) in CategoryMapping))
  {
    MapAndDropSelects(CategoryMapping, NormaliseProducts(fashion + beauty));
  }

  /** Lines 26 to 74 on tables already read: the integrated rows, or the
      missing-column error of the catalog side. */
  function Integrate(catalog: Frame, fashion: seq<RawProduct>, beauty: seq<RawProduct>): (r: Result<seq<IntegratedRow>, Error>)
    ensures r.Failure? <==> "masterCategory" !in catalog.columns
    ensures r.Failure? ==> r.error == MissingColumn("masterCategory")
    ensures r.Success? ==> forall n :: 0 <= n < |r.value| ==> r.value[n].masterCategory == r.value[n].mappedCategory
  {
    var entries :- CatalogEntries(catalog);
    Success(InnerJoin(AggregateCatalog(entries), AggregateProducts(MappedProducts(fashion, beauty))))
  }

  /** `main` up to the output file: the inputs are loaded in the order catalog,
      fashion products, beauty products, and the first missing one stops the run. */
  function Run(catalogFiles: map<string, Frame>, productFiles: map<string, seq<RawProduct>>, base: string)
    : (r: Result<seq<IntegratedRow>, Error>)
    ensures CatalogPath(base) !in catalogFiles ==> r == Failure(MissingInput(CatalogPath(base)))
    ensures CatalogPath(base) in catalogFiles && FashionPath(base) !in productFiles
      ==> r == Failure(MissingInput(FashionPath(base)))
    ensures CatalogPath(base) in catalogFiles && FashionPath(base) in productFiles && BeautyPath(base) !in productFiles
      ==> r == Failure(MissingInput(BeautyPath(base)))
    ensures r.Success? <==>
      && CatalogPath(base) in catalogFiles && FashionPath(base) in productFiles && BeautyPath(base) in productFiles
      && "masterCategory" in catalogFiles[CatalogPath(base)].columns
    ensures r.Success? ==>
      r == Integrate(catalogFiles[CatalogPath(base)], productFiles[FashionPath(base)], productFiles[BeautyPath(base)])
  {
    var catalog :- LoadCsv(catalogFiles, CatalogPath(base));
    var fashion :- LoadCsv(productFiles, FashionPath(base));
    var beauty :- LoadCsv(productFiles, BeautyPath(base));
    Integrate(catalog, fashion, beauty)
  }

  /** Some catalog row's normalised `masterCategory` is `k`. */
  ghost predicate InCatalog(catalog: Frame, k: string)
    requires "masterCategory" in catalog.columns
  {
    exists i :: 0 <= i < |catalog.rows| && CatalogLabel(catalog, i) == k
  }

  /** Some product row's normalised category is on the mapping table and maps to `k`. */
  ghost predicate OfferedAs(raw: seq<RawProduct>, k: string) {
    exists i :: 0 <= i < |raw| && MapCategory(CategoryMapping, NormaliseCell(raw[i].category)) == Some(k)
  }

  /** The normalised `masterCategory` of every catalog row, in row order. */
  ghost function CatalogLabel(catalog: Frame, i: int): string
    requires "masterCategory" in catalog.columns
    requires 0 <= i < |catalog.rows|
  {
    NormaliseCell(CellAt(catalog.rows[i], IndexOf(catalog.columns, "masterCategory").value))
  }

  lemma CatalogKeyIsCategory(catalog: Frame, k: string)
    requires "masterCategory" in catalog.columns
    ensures k in Keys(CatalogEntries(catalog).value, EntryKey) <==> InCatalog(catalog, k)
  {
    var entries := CatalogEntries(catalog).value;
    var ks := Keys(entries, EntryKey);
    assert forall i :: 0 <= i < |ks| ==> ks[i] == CatalogLabel(catalog, i);
    if k in ks {
      var i :| 0 <= i < |ks| && ks[i] == k;
      assert CatalogLabel(catalog, i) == k;
    }
    if InCatalog(catalog, k) {
      var i :| 0 <= i < |catalog.rows| && CatalogLabel(catalog, i) == k;
      assert ks[i] == k;
    }
  }

  lemma CatalogKeysAreCategories(catalog: Frame)
    requires "masterCategory" in catalog.columns
    ensures forall k :: k in Keys(CatalogEntries(catalog).value, EntryKey) <==> InCatalog(catalog, k)
  {
    forall k ensures k in Keys(CatalogEntries(catalog).value, EntryKey) <==> InCatalog(catalog, k) {
      CatalogKeyIsCategory(catalog, k);
    }
  }

  /** A mapped category occurs among the surviving rows exactly when some row's
      label maps onto it. */
  lemma MapAndDropKey(table: map<string, string>, products: seq<Product>, k: string)
    ensures k in Keys(MapAndDrop(table, products), MappedKey)
      <==> exists i :: 0 <= i < |products| && products[i].category in table && table[products[i].category] == k
  {
    var mapped := MapAndDrop(table, products);
    MapAndDropSelects(table, products);
    var idx := KeptPositions(table, products);
    if k in Keys(mapped, MappedKey) {
      var j :| 0 <= j < |mapped| && Keys(mapped, MappedKey)[j] == k;
      assert products[idx[j]] == mapped[j].product;
    }
    if exists i :: 0 <= i < |products| && products[i].category in table && table[products[i].category] == k {
      var i :| 0 <= i < |products| && products[i].category in table && table[products[i].category] == k;
      var j :| 0 <= j < |idx| && idx[j] == i;
      assert Keys(mapped, MappedKey)[j] == k;
    }
  }

  lemma MappedKeyIsOffered(fashion: seq<RawProduct>, beauty: seq<RawProduct>, k: string)
    ensures k in Keys(MappedProducts(fashion, beauty), MappedKey) <==> OfferedAs(fashion + beauty, k)
  {
    var raw := fashion + beauty;
    var products := NormaliseProducts(raw);
    MapAndDropKey(CategoryMapping, products, k);
    if OfferedAs(raw, k) {
      var i :| 0 <= i < |raw| && MapCategory(CategoryMapping, NormaliseCell(raw[i].category)) == Some(k);
      assert products[i].category == NormaliseCell(raw[i].category);
    }
    if exists i :: 0 <= i < |products| && products[i].category in CategoryMapping && CategoryMapping[products[i].category] == k {
      var i :| 0 <= i < |products| && products[i].category in CategoryMapping && CategoryMapping[products[i].category] == k;
      assert MapCategory(CategoryMapping, NormaliseCell(raw[i].category)) == Some(k);
    }
  }

  lemma MappedKeysAreOffered(fashion: seq<RawProduct>, beauty: seq<RawProduct>)
    ensures forall k :: k in Keys(MappedProducts(fashion, beauty), MappedKey) <==> OfferedAs(fashion + beauty, k)
  {
    forall k ensures k in Keys(MappedProducts(fashion, beauty), MappedKey) <==> OfferedAs(fashion + beauty, k) {
      MappedKeyIsOffered(fashion, beauty, k);
    }
  }

  /** A category appears in the output exactly when the catalog has it (after
      normalisation) and some product maps onto it. */
  lemma IntegratedKeys(catalog: Frame, fashion: seq<RawProduct>, beauty: seq<RawProduct>)
    requires "masterCategory" in catalog.columns
    ensures forall k ::
      k in OutKeys(Integrate(catalog, fashion, beauty).value) <==> InCatalog(catalog, k) && OfferedAs(fashion + beauty, k)
  {
    var entries := CatalogEntries(catalog).value;
    var mapped := MappedProducts(fashion, beauty);
    JoinKeys(AggregateCatalog(entries), AggregateProducts(mapped));
    CatalogKeysAreCategories(catalog);
    MappedKeysAreOffered(fashion, beauty);
  }

  /** The output is ascending by category, so each category occurs at most once. */
  lemma IntegratedSorted(catalog: Frame, fashion: seq<RawProduct>, beauty: seq<RawProduct>)
    requires "masterCategory" in catalog.columns
    ensures StrictlySorted(OutKeys(Integrate(catalog, fashion, beauty).value))
  {
    var entries := CatalogEntries(catalog).value;
    var mapped := MappedProducts(fashion, beauty);
    var left, right := AggregateCatalog(entries), AggregateProducts(mapped);
    AggregateCatalogSorted(entries);
    AggregateProductsSorted(mapped);
    StrictlySortedIsDistinct(ProductKeys(right));
    JoinOrdered(left, right);
  }

  /** Every output category is one of the four canonical ones. */
  lemma IntegratedCanonical(catalog: Frame, fashion: seq<RawProduct>, beauty: seq<RawProduct>)
    requires "masterCategory" in catalog.columns
    ensures forall o :: o in Integrate(catalog, fashion, beauty).value ==> o.masterCategory in Canonical
  {
    var entries := CatalogEntries(catalog).value;
    var mapped := MappedProducts(fashion, beauty);
    var left, right := AggregateCatalog(entries), AggregateProducts(mapped);
    var out := Integrate(catalog, fashion, beauty).value;
    forall o | o in out ensures o.masterCategory in Canonical {
      var n :| 0 <= n < |out| && out[n] == o;
      OutKeySound(left, right, n);
      var j :| 0 <= j < |right| && ProductKeys(right)[j] == o.masterCategory;
      var i :| 0 <= i < |mapped| && Keys(mapped, MappedKey)[i] == right[j].mappedCategory;
    }
  }

  /** So the output has at most four rows. */
  lemma IntegratedAtMostFour(catalog: Frame, fashion: seq<RawProduct>, beauty: seq<RawProduct>)
    requires "masterCategory" in catalog.columns
    ensures |Integrate(catalog, fashion, beauty).value| <= 4
  {
    var out := Integrate(catalog, fashion, beauty).value;
    IntegratedSorted(catalog, fashion, beauty);
    IntegratedCanonical(catalog, fashion, beauty);
    forall k | k in Elements(OutKeys(out)) ensures k in Canonical {
      var n :| 0 <= n < |out| && OutKeys(out)[n] == k;
      assert out[n] in out;
    }
    MappingOntoCanonical();
    StrictlySortedIsDistinct(OutKeys(out));
    DistinctElements(OutKeys(out));
    SubsetSize(Elements(OutKeys(out)), Canonical);
  }

  /** Output row `o` carries the catalog count of its category and the product
      statistics of the same category. */
  ghost predicate CarriesAggregates(catalog: Frame, fashion: seq<RawProduct>, beauty: seq<RawProduct>, o: IntegratedRow)
    requires "masterCategory" in catalog.columns
  {
    var entries, mapped := CatalogEntries(catalog).value, MappedProducts(fashion, beauty);
    var g := Group(mapped, MappedKey, o.masterCategory);
    && o.kaggleCount == CatalogCount(entries, o.masterCategory)
    && o.dummyCount == IdCount(mapped, o.masterCategory)
    && o.avgPrice == Mean(Prices(g))
    && o.avgRating == Mean(Ratings(g))
  }

  /** Each output row carries the catalog count of its category (the catalog
      rows of that category whose count column holds a value), the number of
      mapped products of that category with an id, and the means of their
      prices and ratings. */
  lemma IntegratedRowValues(catalog: Frame, fashion: seq<RawProduct>, beauty: seq<RawProduct>)
    requires "masterCategory" in catalog.columns
    ensures forall o :: o in Integrate(catalog, fashion, beauty).value ==> CarriesAggregates(catalog, fashion, beauty, o)
  {
    var entries := CatalogEntries(catalog).value;
    var mapped := MappedProducts(fashion, beauty);
    var left, right := AggregateCatalog(entries), AggregateProducts(mapped);
    var out := Integrate(catalog, fashion, beauty).value;
    forall o | o in out ensures CarriesAggregates(catalog, fashion, beauty, o) {
      var n :| 0 <= n < |out| && out[n] == o;
      JoinSound(left, right, n);
    }
  }
}
