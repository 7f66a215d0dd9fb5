/** The fixed many-to-one table from the product API's fine-grained categories
    to the catalog's coarse ones, and the map-then-drop step that applies it. */
module Vocabulary {
  import opened Wrappers
  import opened Tables
  import Labels

  /** The four coarse categories the catalog and the products are reconciled onto. */
  const Canonical: set<string> := {"apparel", "footwear", "accessories", "personal care"}

  /** `category_mapping`. */
  const CategoryMapping: map<string, string> := map[
    "mens-shirts" := "apparel",
    "womens-dresses" := "apparel",
    "tops" := "apparel",
    "mens-shoes" := "footwear",
    "womens-shoes" := "footwear",
    "womens-bags" := "accessories",
    "sunglasses" := "accessories",
    "mens-watches" := "accessories",
    "womens-watches" := "accessories",
    "beauty" := "personal care",
    "fragrances" := "personal care",
    "skin-care" := "personal care"
  ]

  /** Every label of the table maps into the canonical categories, every
      canonical category is reached, and there are exactly four of them. */
  lemma MappingOntoCanonical()
    ensures forall fine :: fine in CategoryMapping ==> CategoryMapping[fine] in Canonical
    ensures forall c :: c in Canonical ==> exists fine :: fine in CategoryMapping && CategoryMapping[fine] == c
    ensures |Canonical| == 4
  {
    assert CategoryMapping["mens-shirts"] == "apparel";
    assert CategoryMapping["mens-shoes"] == "footwear";
    assert CategoryMapping["womens-bags"] == "accessories";
    assert CategoryMapping["beauty"] == "personal care";
  }

  /** The table's labels are already normalised, so normalising a product's
      label never moves it off the table; and the text a missing label becomes
      is not on it. */
  lemma MappingKeysNormalised()
    ensures forall fine :: fine in CategoryMapping ==> Labels.IsNormalised(fine)
    ensures "nan" !in CategoryMapping
  {
  }

  /** `Series.map(dict)` on one label: the mapped category, or missing. */
  function MapCategory(table: map<string, string>, fine: string): (r: Option<string>)
    ensures r.Some? <==> fine in table
    ensures r.Some? ==> r.value == table[fine]
  {
    if fine in table then Some(table[fine]) else None
  }

  /** `df["mappedCategory"] = df["category"].map(table)` followed by
      `dropna(subset=["mappedCategory"])`: rows whose label is on the table,
      each with its mapped category. */
  function MapAndDrop(table: map<string, string>, rows: seq<Product>): (r: seq<MappedProduct>)
    ensures |r| <= |rows|
    ensures forall j :: 0 <= j < |r| ==> r[j].product.category in table && r[j].mappedCategory == table[r[j].product.category]
  {
    if |rows| == 0 then []
    else
      var last := rows[|rows| - 1];
      MapAndDrop(table, rows[..|rows| - 1])
        + (match MapCategory(table, last.category)
           case Some(c) => [MappedProduct(last, c)]
           case None => [])
  }

  /** The positions of the rows whose label is on the table. */
  ghost function KeptPositions(table: map<string, string>, rows: seq<Product>): seq<int> {
    if |rows| == 0 then []
    else
      var n := |rows| - 1;
      KeptPositions(table, rows[..n]) + (if rows[n].category in table then [n] else [])
  }

  /** A row survives iff its label is on the table; survivors are unchanged
      and keep their relative order. */
  lemma {:induction false} MapAndDropSelects(table: map<string, string>, rows: seq<Product>)
    ensures var r, idx := MapAndDrop(table, rows), KeptPositions(table, rows);
      && |idx| == |r|
      && (forall j :: 0 <= j < |idx| ==> 0 <= idx[j] < |rows| && r[j].product == rows[idx[j]])
      && (forall j1, j2 :: 0 <= j1 < j2 < |idx| ==> idx[j1] < idx[j2])
      && (forall i :: 0 <= i < |rows| ==> (i in idx <==> rows[i].category in table))
  {
    if |rows| > 0 {
      var n := |rows| - 1;
      MapAndDropSelects(table, rows[..n]);
      var idx := KeptPositions(table, rows[..n]);
      assert forall j :: 0 <= j < |idx| ==> idx[j] < n;
    }
  }
}
