/** The tables of the integration step, one datatype per row shape. Only the
    columns the step reads are kept. */
module Tables {
  import opened Wrappers

  /** A row of the concatenated product files, as read: every cell may be missing. */
  datatype RawProduct = RawProduct(id: Option<int>, category: Option<string>, price: Option<real>, rating: Option<real>)

  /** A product row once its `category` column has been normalised. */
  datatype Product = Product(id: Option<int>, category: string, price: Option<real>, rating: Option<real>)

  /** A product row that survived the mapping, with its new `mappedCategory` column. */
  datatype MappedProduct = MappedProduct(product: Product, mappedCategory: string)

  /** The catalog file as read: column names, and rows of possibly missing text
      cells in column order. A row shorter than the header reads as missing
      cells, as `read_csv` pads it. */
  datatype Frame = Frame(columns: seq<string>, rows: seq<seq<Option<string>>>)

  /** What the catalog aggregation reads from one catalog row: the normalised
      `masterCategory` and whether the count column holds a value. */
  datatype CatalogEntry = CatalogEntry(masterCategory: string, counted: bool)

  /** A row of the catalog aggregate. */
  datatype CatalogAgg = CatalogAgg(masterCategory: string, kaggleCount: nat)

  /** A row of the product aggregate. */
  datatype ProductAgg = ProductAgg(mappedCategory: string, avgPrice: Option<real>, avgRating: Option<real>, dummyCount: nat)

  /** A row of the integrated output, in the output file's column order. */
  datatype IntegratedRow = IntegratedRow(
    masterCategory: string, kaggleCount: nat,
    mappedCategory: string, avgPrice: Option<real>, avgRating: Option<real>, dummyCount: nat)

  /** Why a run stops: an input file that does not exist, or a column the step needs. */
  datatype Error = MissingInput(path: string) | MissingColumn(column: string)
}
