/** Small worked cases of the integration step. */
module Scenarios {
  import opened Wrappers
  import opened Tables
  import opened Vocabulary
  import opened Join

  /** Catalog categories apparel and footwear against product aggregates for
      accessories and apparel: only apparel, present on both sides, comes out. */
  lemma OnlySharedCategoryIsJoined()
    ensures InnerJoin(
        [CatalogAgg("apparel", 100), CatalogAgg("footwear", 50)],
        [ProductAgg("accessories", Some(35.0), Some(3.5), 10), ProductAgg("apparel", Some(20.0), Some(4.0), 40)])
      == [IntegratedRow("apparel", 100, "apparel", Some(20.0), Some(4.0), 40)]
  {
  }

  /** "beauty" and "mens-shirts" are mapped onto personal care and apparel, in
      that order, and an unlisted label is dropped. */
  lemma UnlistedLabelIsDropped()
    ensures var rows := [
        Product(Some(1), "beauty", Some(10.0), None),
        Product(Some(2), "shoes-unlisted", Some(30.0), None),
        Product(Some(3), "mens-shirts", None, Some(4.5))];
      MapAndDrop(CategoryMapping, rows)
      == [MappedProduct(rows[0], "personal care"), MappedProduct(rows[2], "apparel")]
  {
  }
}
