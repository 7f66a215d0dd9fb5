/** `pd.merge(catalog_agg, product_agg, left_on="masterCategory",
    right_on="mappedCategory", how="inner")`: every pair of a catalog row and a
    product row with equal keys, in the order of the catalog rows (and, for one
    catalog row, in the order of the product rows). */
module Join {
  import opened Tables
  import opened StringOrder
  import opened Grouping
  import opened Aggregate

  /** The output row for a matching pair: the catalog columns, then the product columns. */
  function Combine(l: CatalogAgg, p: ProductAgg): IntegratedRow {
    IntegratedRow(l.masterCategory, l.kaggleCount, p.mappedCategory, p.avgPrice, p.avgRating, p.dummyCount)
  }

  /** The output rows one catalog row contributes. */
  function MatchesOf(l: CatalogAgg, right: seq<ProductAgg>): (m: seq<IntegratedRow>)
    ensures |m| <= |right|
    ensures forall n :: 0 <= n < |m| ==>
      CatalogAgg(m[n].masterCategory, m[n].kaggleCount) == l && m[n].mappedCategory == l.masterCategory
  {
    if |right| == 0 then []
    else
      var head := if right[0].mappedCategory == l.masterCategory then [Combine(l, right[0])] else [];
      head + MatchesOf(l, right[1..])
  }

  /** The inner join on `masterCategory == mappedCategory`; the two key
      columns of every output row are equal. */
  function InnerJoin(left: seq<CatalogAgg>, right: seq<ProductAgg>): (out: seq<IntegratedRow>)
    ensures forall n :: 0 <= n < |out| ==> out[n].masterCategory == out[n].mappedCategory
  {
    if |left| == 0 then [] else MatchesOf(left[0], right) + InnerJoin(left[1..], right)
  }

  function OutKey(o: IntegratedRow): string {
    o.masterCategory
  }

  /** The key column of the output: `Keys` with the row type fixed. */
  function OutKeys(out: seq<IntegratedRow>): (ks: seq<string>)
    ensures |ks| == |out| && forall n :: 0 <= n < |out| ==> ks[n] == out[n].masterCategory
  {
    Keys(out, OutKey)
  }

  /** The catalog half of each output row. */
  function LeftParts(out: seq<IntegratedRow>): (ls: seq<CatalogAgg>)
    ensures |ls| == |out| && forall n :: 0 <= n < |out| ==> ls[n] == CatalogAgg(out[n].masterCategory, out[n].kaggleCount)
  {
    seq(|out|, n requires 0 <= n < |out| => CatalogAgg(out[n].masterCategory, out[n].kaggleCount))
  }

  /** The catalog rows whose key occurs among the product keys, in their order. */
  function MatchedLeft(left: seq<CatalogAgg>, right: seq<ProductAgg>): (r: seq<CatalogAgg>)
    ensures |r| <= |left|
    ensures forall n :: 0 <= n < |r| ==> r[n] in left && r[n].masterCategory in ProductKeys(right)
  {
    if |left| == 0 then []
    else (if left[0].masterCategory in ProductKeys(right) then [left[0]] else []) + MatchedLeft(left[1..], right)
  }

  lemma {:induction false} MatchesSound(l: CatalogAgg, right: seq<ProductAgg>, n: int)
    requires 0 <= n < |MatchesOf(l, right)|
    ensures exists j ::
      0 <= j < |right| && right[j].mappedCategory == l.masterCategory && MatchesOf(l, right)[n] == Combine(l, right[j])
  {
    var head := if right[0].mappedCategory == l.masterCategory then [Combine(l, right[0])] else [];
    var tail := MatchesOf(l, right[1..]);
    if n < |head| {
      assert MatchesOf(l, right)[n] == Combine(l, right[0]);
    } else {
      MatchesSound(l, right[1..], n - |head|);
      var j :| 0 <= j < |right[1..]| && right[1..][j].mappedCategory == l.masterCategory
               && tail[n - |head|] == Combine(l, right[1..][j]);
      assert right[1..][j] == right[j + 1];
    }
  }

  lemma {:induction false} MatchesComplete(l: CatalogAgg, right: seq<ProductAgg>)
    ensures forall j ::
      0 <= j < |right| && right[j].mappedCategory == l.masterCategory ==> Combine(l, right[j]) in MatchesOf(l, right)
  {
    if |right| > 0 {
      MatchesComplete(l, right[1..]);
      forall j | 0 <= j < |right| && right[j].mappedCategory == l.masterCategory
        ensures Combine(l, right[j]) in MatchesOf(l, right)
      {
        if j > 0 {
          assert right[1..][j - 1] == right[j];
        }
      }
    }
  }

  /** Soundness: every output row combines a catalog row and a product row with
      equal keys. */
  lemma {:induction false} JoinSound(left: seq<CatalogAgg>, right: seq<ProductAgg>, n: int)
    requires 0 <= n < |InnerJoin(left, right)|
    ensures exists i, j ::
      0 <= i < |left| && 0 <= j < |right| && left[i].masterCategory == right[j].mappedCategory
      && InnerJoin(left, right)[n] == Combine(left[i], right[j])
  {
    var m := MatchesOf(left[0], right);
    var rest := InnerJoin(left[1..], right);
    if n < |m| {
      MatchesSound(left[0], right, n);
      var j :| 0 <= j < |right| && right[j].mappedCategory == left[0].masterCategory && m[n] == Combine(left[0], right[j]);
      assert InnerJoin(left, right)[n] == Combine(left[0], right[j]);
    } else {
      JoinSound(left[1..], right, n - |m|);
      var i, j :| 0 <= i < |left[1..]| && 0 <= j < |right|
        && left[1..][i].masterCategory == right[j].mappedCategory && rest[n - |m|] == Combine(left[1..][i], right[j]);
      assert left[1..][i] == left[i + 1];
    }
  }

  /** Completeness: every pair of a catalog row and a product row with equal
      keys gives an output row. */
  lemma {:induction false} JoinComplete(left: seq<CatalogAgg>, right: seq<ProductAgg>)
    ensures forall i, j ::
      0 <= i < |left| && 0 <= j < |right| && left[i].masterCategory == right[j].mappedCategory
      ==> Combine(left[i], right[j]) in InnerJoin(left, right)
  {
    if |left| > 0 {
      MatchesComplete(left[0], right);
      JoinComplete(left[1..], right);
      forall i, j | 0 <= i < |left| && 0 <= j < |right| && left[i].masterCategory == right[j].mappedCategory
        ensures Combine(left[i], right[j]) in InnerJoin(left, right)
      {
        if i > 0 {
          assert left[1..][i - 1] == left[i];
        }
      }
    }
  }

  lemma OutKeySound(left: seq<CatalogAgg>, right: seq<ProductAgg>, n: int)
    requires 0 <= n < |InnerJoin(left, right)|
    ensures InnerJoin(left, right)[n].masterCategory in CatalogKeys(left)
    ensures InnerJoin(left, right)[n].masterCategory in ProductKeys(right)
  {
    JoinSound(left, right, n);
    var i, j :| 0 <= i < |left| && 0 <= j < |right| && left[i].masterCategory == right[j].mappedCategory
      && InnerJoin(left, right)[n] == Combine(left[i], right[j]);
    assert CatalogKeys(left)[i] == left[i].masterCategory;
    assert ProductKeys(right)[j] == right[j].mappedCategory;
  }

  lemma OutKeyComplete(left: seq<CatalogAgg>, right: seq<ProductAgg>, i: int, j: int)
    requires 0 <= i < |left| && 0 <= j < |right| && left[i].masterCategory == right[j].mappedCategory
    ensures left[i].masterCategory in OutKeys(InnerJoin(left, right))
  {
    var out := InnerJoin(left, right);
    JoinComplete(left, right);
    var n :| 0 <= n < |out| && out[n] == Combine(left[i], right[j]);
    assert OutKeys(out)[n] == left[i].masterCategory;
  }

  /** A key occurs in the output exactly when it occurs on both sides. */
  lemma JoinKeys(left: seq<CatalogAgg>, right: seq<ProductAgg>)
    ensures forall k :: k in OutKeys(InnerJoin(left, right)) <==> k in CatalogKeys(left) && k in ProductKeys(right)
  {
    var out := InnerJoin(left, right);
    forall k | k in OutKeys(out) ensures k in CatalogKeys(left) && k in ProductKeys(right) {
      var n :| 0 <= n < |out| && OutKeys(out)[n] == k;
      OutKeySound(left, right, n);
    }
    forall k | k in CatalogKeys(left) && k in ProductKeys(right) ensures k in OutKeys(out) {
      var i :| 0 <= i < |left| && CatalogKeys(left)[i] == k;
      var j :| 0 <= j < |right| && ProductKeys(right)[j] == k;
      OutKeyComplete(left, right, i, j);
    }
  }

  /** With distinct product keys a catalog row has at most one partner. */
  lemma {:induction false} MatchesAtMostOne(l: CatalogAgg, right: seq<ProductAgg>)
    requires Distinct(ProductKeys(right))
    ensures |MatchesOf(l, right)| == if l.masterCategory in ProductKeys(right) then 1 else 0
  {
    if |right| > 0 {
      var ks := ProductKeys(right);
      assert ProductKeys(right[1..]) == ks[1..];
      assert Distinct(ks[1..]);
      MatchesAtMostOne(l, right[1..]);
      if right[0].mappedCategory == l.masterCategory {
        assert ks[0] == l.masterCategory;
        assert l.masterCategory !in ks[1..];
      } else {
        assert l.masterCategory in ks <==> l.masterCategory in ks[1..];
      }
    }
  }

  /** A group key of the output comes from a catalog row. */
  lemma OutKeyFromLeft(left: seq<CatalogAgg>, right: seq<ProductAgg>, k: string)
    requires k in OutKeys(InnerJoin(left, right))
    ensures k in CatalogKeys(left)
  {
    JoinKeys(left, right);
  }

  /** When the catalog keys ascend and the product keys are distinct (as both
      aggregates guarantee), the output keys ascend too, so each key occurs
      at most once, and there are no more output rows than catalog rows. */
  lemma {:induction false} JoinOrdered(left: seq<CatalogAgg>, right: seq<ProductAgg>)
    requires StrictlySorted(CatalogKeys(left))
    requires Distinct(ProductKeys(right))
    ensures StrictlySorted(OutKeys(InnerJoin(left, right)))
    ensures |InnerJoin(left, right)| <= |left|
  {
    if |left| > 0 {
      var out := InnerJoin(left, right);
      var m := MatchesOf(left[0], right);
      var rest := InnerJoin(left[1..], right);
      assert CatalogKeys(left[1..]) == CatalogKeys(left)[1..];
      JoinOrdered(left[1..], right);
      MatchesAtMostOne(left[0], right);
      var x := left[0].masterCategory;
      forall n | 0 <= n < |rest| ensures Lt(x, OutKeys(rest)[n]) {
        OutKeyFromLeft(left[1..], right, OutKeys(rest)[n]);
        var i :| 0 <= i < |left[1..]| && CatalogKeys(left[1..])[i] == OutKeys(rest)[n];
        assert CatalogKeys(left)[0] == x && CatalogKeys(left)[i + 1] == OutKeys(rest)[n];
      }
      forall a, b | 0 <= a < b < |out| ensures Lt(OutKeys(out)[a], OutKeys(out)[b]) {
        assert OutKeys(out)[b] == OutKeys(rest)[b - |m|];
        if a >= |m| {
          assert OutKeys(out)[a] == OutKeys(rest)[a - |m|];
        }
      }
    }
  }

  /** With ascending catalog keys and distinct product keys there are no more
      output rows than product rows either. */
  lemma JoinBoundedByRight(left: seq<CatalogAgg>, right: seq<ProductAgg>)
    requires StrictlySorted(CatalogKeys(left))
    requires Distinct(ProductKeys(right))
    ensures |InnerJoin(left, right)| <= |right|
  {
    var out := InnerJoin(left, right);
    JoinOrdered(left, right);
    JoinKeys(left, right);
    StrictlySortedIsDistinct(OutKeys(out));
    DistinctElements(OutKeys(out));
    ElementsBound(ProductKeys(right));
    SubsetSize(Elements(OutKeys(out)), Elements(ProductKeys(right)));
  }

  lemma LeftPartsAppend(a: seq<IntegratedRow>, b: seq<IntegratedRow>)
    ensures LeftParts(a + b) == LeftParts(a) + LeftParts(b)
  {
    assert forall n :: 0 <= n < |b| ==> (a + b)[|a| + n] == b[n];
  }

  /** With distinct product keys, the catalog halves of the output are exactly
      the catalog rows that have a partner, in catalog order. */
  lemma {:induction false} JoinKeepsLeftOrder(left: seq<CatalogAgg>, right: seq<ProductAgg>)
    requires Distinct(ProductKeys(right))
    ensures LeftParts(InnerJoin(left, right)) == MatchedLeft(left, right)
  {
    if |left| > 0 {
      var m := MatchesOf(left[0], right);
      var rest := InnerJoin(left[1..], right);
      JoinKeepsLeftOrder(left[1..], right);
      MatchesAtMostOne(left[0], right);
      LeftPartsAppend(m, rest);
      if |m| == 1 {
        assert LeftParts(m) == [left[0]];
      } else {
        assert LeftParts(m) == [];
      }
    }
  }
}
