# Category integration, modelled in Dafny

This project models the category-integration step of `scripts/integrate_data.py`.
The step reconciles two product sources on one coarse category:

- a fashion catalog (the processed Kaggle file, one row per catalog item, with a `masterCategory` column);
- the product API's fashion and beauty products (two files, one row per product, with a fine-grained `category`).

The step:

1. **Loads the three input files.** A missing file stops the run.
2. **Normalises category labels.** Each label is converted to text, lower-cased and stripped of surrounding whitespace. A missing label becomes the text `nan`.
3. **Maps product labels onto the four canonical categories** through a fixed table. Products whose label is not on the table are dropped.
4. **Aggregates the products per mapped category:**
   - the mean price and mean rating over the prices and ratings that are present;
   - the number of products with an id.
5. **Aggregates the catalog per `masterCategory`:** the number of rows whose count column holds a value. The count column is `id`, or the first column when there is no `id`.
6. **Inner-joins the two aggregates** on the category.

The model is purely functional: immutable row datatypes over sequences, and pure functions for each stage.

| file | module | what it models |
|---|---|---|
| `wrappers.dfy` | `Wrappers` | `Option` for a missing cell; `Result` for a run that stops |
| `tables.dfy` | `Tables` | the row shapes of the inputs, the aggregates and the output |
| `labels.dfy` | `Ascii`, `Labels` | `astype(str).str.lower().str.strip()` |
| `vocabulary.dfy` | `Vocabulary` | `category_mapping`, `Series.map` and `dropna` |
| `string_order.dfy` | `StringOrder` | Python string order, which sorts the group keys |
| `grouping.dfy` | `Grouping` | `groupby(sort=True)`: group keys, groups and the `count` aggregation |
| `stats.dfy` | `Stats` | the `mean` aggregation over values that may be missing |
| `aggregate.dfy` | `Aggregate` | the two `groupby().agg()` steps |
| `join.dfy` | `Join` | `pd.merge(..., how="inner")` |
| `pipeline.dfy` | `Pipeline` | `load_csv`, the catalog count column, and the whole step end to end |
| `scenarios.dfy` | `Scenarios` | small worked cases |

Modelling choices:

- **Missing cells** are `None`. `read_csv` pads a catalog row shorter than the header with missing cells, and `CellAt` does the same.
- **The file system** is a map from path to the parsed table of each existing file. There are two maps: catalog tables and product tables. The base directory is plain text, and the three input paths are built by appending the fixed relative paths of lines 17-19.
- **Group keys** are ordered as Python compares strings: lexicographically by code point. This is the order `groupby` (`sort=True` by default) gives its keys.
- **Means** are exact real arithmetic: the sum of the present values divided by their number. The mean is `None` when no value is present.
- **The inner join** keeps the order of the left (catalog) aggregate. For one left row, it keeps the order of the right rows.
- **A missing category label** becomes the text `"nan"`, as `astype(str)` makes it. This follows the code, which uses no other sentinel for a missing label and keeps no count of dropped rows.
- **On the catalog side**, a missing `masterCategory` therefore forms its own `"nan"` group.
- **On the product side**, `"nan"` is not a key of the mapping table, so the row is dropped.
- **When the count column is `masterCategory` itself** (no `id` column, and `masterCategory` first), the column has already been normalised to text by line 28. Every row then counts.

## Model

| member | source | states |
|---|---|---|
| `Ascii.Lower` | scripts/integrate_data.py:28-29 | `str.lower` keeps the length and lower-cases each character: `A`-`Z` become `a`-`z` (code point plus 32), every other character is unchanged, and no character of the result is upper case |
| `Labels.Strip` | scripts/integrate_data.py:28-29 | `str.strip` returns a middle slice of its input. Everything cut off before and after it is whitespace. The result neither starts nor ends with whitespace |
| `Labels.Normalise` | scripts/integrate_data.py:28-29 | a normalised label has no upper-case letter and no surrounding whitespace. It is the lower-cased input with only whitespace cut from the two ends |
| `Labels.NormaliseCell` | scripts/integrate_data.py:28-29 | a present cell becomes its lower-cased, stripped text, a missing cell becomes `"nan"`, and either way the result is normalised |
| `Labels.NormalisedIsFixed` | scripts/integrate_data.py:28-29 | normalisation leaves an already normalised label unchanged |
| `Labels.NormaliseIdempotent` | scripts/integrate_data.py:28-29 | normalising twice gives the same label as normalising once |
| `Pipeline.NormaliseProducts` | scripts/integrate_data.py:29 | every product row keeps its id, price and rating; its category becomes the normalised label, missing becoming `"nan"` |
| `Vocabulary.MappingOntoCanonical` | scripts/integrate_data.py:31-45 | every label of the table maps to one of the four canonical categories, each of the four is reached, and there are exactly four |
| `Vocabulary.MappingKeysNormalised` | scripts/integrate_data.py:31-45 | the table's labels are all normalised, and `"nan"` is not one of them |
| `Vocabulary.MapCategory` | scripts/integrate_data.py:47 | `Series.map(dict)` on one label: present exactly when the label is a key, and then the table's value |
| `Vocabulary.MapAndDrop` | scripts/integrate_data.py:47-49 | every surviving row's label is a key of the table, and its mapped category is the table's value for that label |
| `Vocabulary.MapAndDropSelects` | scripts/integrate_data.py:47-49 | a row survives iff its label is a key. Survivors are unchanged and keep their relative order |
| `Pipeline.MappedProducts` | scripts/integrate_data.py:26-49 | every row reaching the product aggregate is a normalised row of the concatenated product files, there are no more of them than input rows, and every mapped category is canonical |
| `Pipeline.MappedProductsSelect` | scripts/integrate_data.py:26-49 | a row of the concatenated product files reaches the product aggregate iff its normalised label is on the mapping table; survivors keep file order and carry the table's category for their label |
| `Pipeline.MappedKeysAreOffered` | scripts/integrate_data.py:26-49 | a category occurs among the mapped rows iff some product's normalised label maps onto it |
| `StringOrder.LtTotal` | scripts/integrate_data.py:53 | any two different strings are ordered one way or the other |
| `StringOrder.LtTransitive` | scripts/integrate_data.py:53 | the string order is transitive |
| `StringOrder.LtIrreflexive` | scripts/integrate_data.py:53 | no string is before itself |
| `StringOrder.SortedKeys` | scripts/integrate_data.py:53 | the sorted distinct keys are strictly ascending and hold exactly the keys of the column |
| `StringOrder.SortedUnique` | scripts/integrate_data.py:53 | two strictly ascending key lists with the same elements are equal, so the key order depends only on the set of keys |
| `Grouping.GroupKeys` | scripts/integrate_data.py:51-53 | the group keys are exactly the keys that occur in the key column |
| `Grouping.GroupKeysSorted` | scripts/integrate_data.py:51-53 | the group keys are strictly ascending, hence distinct |
| `Grouping.GroupSelects` | scripts/integrate_data.py:51-53 | a group holds exactly the rows with its key, unchanged, in their original order |
| `Grouping.GroupCountIsIndexCount` | scripts/integrate_data.py:57 | the `count` of a group equals the number of row positions with that key at which the counted column holds a value |
| `Grouping.CountsAddUp` | scripts/integrate_data.py:57 | over distinct keys covering every row, the group counts sum to the count over the whole table |
| `Grouping.GroupCountsAddUp` | scripts/integrate_data.py:57 | the counts of the `groupby` groups sum to the count over the whole table |
| `Stats.CountPresentZero` | scripts/integrate_data.py:55-56 | the number of present values is zero exactly when every value is missing |
| `Stats.Mean` | scripts/integrate_data.py:55-56 | the mean is missing exactly when no value is present; otherwise mean × count of present values = sum of present values |
| `Stats.MeanBounds` | scripts/integrate_data.py:55-56 | the mean of values that all lie in an interval lies in that interval |
| `Stats.MeanOfConstant` | scripts/integrate_data.py:55-56 | when the present values are all `c` and there is at least one, the mean is `c` |
| `Aggregate.AggregateProductGroup` | scripts/integrate_data.py:54-58 | a product aggregate row's `dummy_count` is the number of rows of its category that have an id |
| `Aggregate.AggregateProducts` | scripts/integrate_data.py:51-59 | the product aggregate has a row for a category iff the category occurs among the mapped rows. Each row has its group's id count, and the means of its group's prices and ratings |
| `Aggregate.AggregateProductsSorted` | scripts/integrate_data.py:51-53 | the product aggregate is strictly ascending by category, so each category has one row |
| `Aggregate.ProductCountsAddUp` | scripts/integrate_data.py:57 | the `dummy_count` column sums to the number of mapped rows with an id. With every id present, it sums to the number of mapped rows |
| `Aggregate.NoPriceMeansMissingAverage` | scripts/integrate_data.py:55 | a category none of whose rows has a price gets a missing `avg_price`, not 0 |
| `Pipeline.CountColumn` | scripts/integrate_data.py:61 | the count column is `id` when the catalog has one, and the first column otherwise |
| `Pipeline.CatalogEntries` | scripts/integrate_data.py:61-65 | reading the catalog fails iff it has no `masterCategory` column. Otherwise it gives, per row, the normalised `masterCategory` and whether the count column holds a value, every row counting when that column is `masterCategory` itself |
| `Aggregate.AggregateCatalogGroup` | scripts/integrate_data.py:64-65 | a catalog aggregate row's `kaggle_count` is the number of rows of its category whose count column holds a value |
| `Aggregate.AggregateCatalog` | scripts/integrate_data.py:62-66 | the catalog aggregate has a row for a category iff the category occurs in the catalog, with that category's count |
| `Aggregate.AggregateCatalogSorted` | scripts/integrate_data.py:62-64 | the catalog aggregate is strictly ascending by category, so each category has one row |
| `Aggregate.CatalogCountsAddUp` | scripts/integrate_data.py:65 | the `kaggle_count` column sums to the number of catalog rows whose count column holds a value, and to the number of rows when all do |
| `Join.MatchesOf` | scripts/integrate_data.py:68-74 | one catalog row yields at most as many output rows as there are product rows. Each carries that catalog row's columns and an equal `mappedCategory` |
| `Join.MatchesAtMostOne` | scripts/integrate_data.py:68-74 | with distinct product keys, a catalog row yields one output row if its key is among them and none otherwise |
| `Join.InnerJoin` | scripts/integrate_data.py:68-74 | every output row has `masterCategory == mappedCategory` |
| `Join.JoinSound` | scripts/integrate_data.py:68-74 | every output row combines a catalog row and a product row with equal keys |
| `Join.JoinComplete` | scripts/integrate_data.py:68-74 | every pair of a catalog row and a product row with equal keys is in the output |
| `Join.JoinKeys` | scripts/integrate_data.py:68-74 | a key occurs in the output iff it occurs in both aggregates |
| `Join.JoinOrdered` | scripts/integrate_data.py:68-74 | with ascending catalog keys and distinct product keys, the output keys ascend, so each key occurs at most once. The output has no more rows than the catalog aggregate |
| `Join.JoinBoundedByRight` | scripts/integrate_data.py:68-74 | under the same conditions the output has no more rows than the product aggregate |
| `Join.JoinKeepsLeftOrder` | scripts/integrate_data.py:68-74 | with distinct product keys, the catalog halves of the output rows are exactly the catalog rows that have a partner, in catalog order |
| `Pipeline.LoadCsv` | scripts/integrate_data.py:5-8 | loading succeeds iff a file exists at the path, giving its table. Otherwise the error names the path |
| `Pipeline.Run` | scripts/integrate_data.py:17-24 | the first missing input, in the order catalog, fashion, beauty, stops the run with an error naming it. The run succeeds iff all three exist and the catalog has `masterCategory`, and then integrates those three tables |
| `Pipeline.Integrate` | scripts/integrate_data.py:26-74 | the step fails iff the catalog has no `masterCategory`, and otherwise every output row has equal key columns |
| `Pipeline.IntegratedKeys` | scripts/integrate_data.py:28-74 | a category appears in the output iff some catalog row's normalised `masterCategory` is that category and some product's normalised label maps onto it |
| `Pipeline.IntegratedSorted` | scripts/integrate_data.py:51-74 | the output is strictly ascending by category, so each category appears at most once |
| `Pipeline.IntegratedCanonical` | scripts/integrate_data.py:31-74 | every output category is one of the four canonical categories |
| `Pipeline.IntegratedAtMostFour` | scripts/integrate_data.py:31-74 | the output has at most four rows |
| `Pipeline.IntegratedRowValues` | scripts/integrate_data.py:51-74 | each output row carries its category's catalog count, product id count, and mean price and rating |
| `Scenarios.OnlySharedCategoryIsJoined` | scripts/integrate_data.py:68-74 | catalog categories apparel and footwear against product aggregates for accessories and apparel give the apparel row alone |
| `Scenarios.UnlistedLabelIsDropped` | scripts/integrate_data.py:47-49 | `beauty` and `mens-shirts` map to personal care and apparel, in order, and an unlisted label is dropped |

## Left out

- Command-line parsing and path resolution (lines 11-15) are left out. The base directory is a parameter, and `Path.resolve` is not modelled.
- CSV parsing by `read_csv` is left out (line 8). Inputs arrive already parsed: catalog cells as text or missing, product columns as typed optional values.
- Writing the output file and creating its directory (lines 76-77) are left out. So is the printed report (lines 79-87).
- Missing product-side columns are not modelled. A product file without `category`, `price`, `rating` or `id` makes pandas raise a `KeyError`; product rows here always have those four fields.
- Duplicate column names in the catalog are not modelled. `IndexOf` takes the first match.
- `astype(str)` on a non-text `masterCategory` or `category` value, such as a number, is left out, because cells are text or missing.
- `str.lower` and `str.strip` are modelled on ASCII only, as full Unicode case mapping and whitespace classes are out of scope. Letters `A`-`Z` are lower-cased. Whitespace is code points 9-13, 28-31 and 32.
- IEEE floating point is replaced by exact reals. A mean is exact, not rounded, and it is `Some(value)` or `None` rather than a float or NaN.
- `pd.concat` of product files with different column sets is left out. Both files have the four product columns.
- The data-fetching, database, web and plotting scripts of the repository are not part of this model. Neither are `scripts/fetch_dummyjson.py`, `scripts/create_db.py`, `scripts/process_kaggle.py`, `scripts/analysis_visualization.py` and `main.py`.
