/** pandas' `mean` aggregation over a column with missing values, computed
    exactly over the reals: missing values are skipped, and a column with no
    present value has a missing mean. */
module Stats {
  import opened Wrappers

  /** The number of present values, as the real it is divided by. */
  function CountPresent(xs: seq<Option<real>>): (n: real)
    ensures 0.0 <= n
  {
    if |xs| == 0 then 0.0
    else CountPresent(xs[..|xs| - 1]) + (if xs[|xs| - 1].Some? then 1.0 else 0.0)
  }

  /** No value is present exactly when the count is zero. */
  lemma {:induction false} CountPresentZero(xs: seq<Option<real>>)
    ensures CountPresent(xs) == 0.0 <==> forall i :: 0 <= i < |xs| ==> xs[i].None?
  {
    if |xs| > 0 {
      var init := xs[..|xs| - 1];
      CountPresentZero(init);
      assert forall i :: 0 <= i < |init| ==> init[i] == xs[i];
    }
  }

  /** The sum of the present values. */
  function SumPresent(xs: seq<Option<real>>): real {
    if |xs| == 0 then 0.0
    else SumPresent(xs[..|xs| - 1]) + (if xs[|xs| - 1].Some? then xs[|xs| - 1].value else 0.0)
  }

  /** The arithmetic mean of the present values; missing when there are none. */
  function Mean(xs: seq<Option<real>>): (m: Option<real>)
    ensures m.None? <==> forall i :: 0 <= i < |xs| ==> xs[i].None?
    ensures m.Some? ==> m.value * CountPresent(xs) == SumPresent(xs)
  {
    CountPresentZero(xs);
    var n := CountPresent(xs);
    if n == 0.0 then None else Some(SumPresent(xs) / n)
  }

  /** Every present value lies in `[lo, hi]`. */
  ghost predicate Within(xs: seq<Option<real>>, lo: real, hi: real) {
    forall i :: 0 <= i < |xs| && xs[i].Some? ==> lo <= xs[i].value <= hi
  }

  lemma SnocTotals(xs: seq<Option<real>>)
    requires |xs| > 0
    ensures var init, last := xs[..|xs| - 1], xs[|xs| - 1];
      && CountPresent(xs) == CountPresent(init) + (if last.Some? then 1.0 else 0.0)
      && SumPresent(xs) == SumPresent(init) + (if last.Some? then last.value else 0.0)
  {
  }

  lemma {:induction false} SumAtLeast(xs: seq<Option<real>>, lo: real)
    requires forall i :: 0 <= i < |xs| && xs[i].Some? ==> lo <= xs[i].value
    ensures lo * CountPresent(xs) <= SumPresent(xs)
  {
    if |xs| > 0 {
      var init, last := xs[..|xs| - 1], xs[|xs| - 1];
      assert forall i :: 0 <= i < |init| && init[i].Some? ==> lo <= init[i].value by {
        forall i | 0 <= i < |init| ensures init[i] == xs[i] { }
      }
      SumAtLeast(init, lo);
      SnocTotals(xs);
      if last.Some? {
        StepAtLeast(lo, CountPresent(init), SumPresent(init), last.value, CountPresent(xs), SumPresent(xs));
      }
    }
  }

  lemma {:induction false} SumAtMost(xs: seq<Option<real>>, hi: real)
    requires forall i :: 0 <= i < |xs| && xs[i].Some? ==> xs[i].value <= hi
    ensures SumPresent(xs) <= hi * CountPresent(xs)
  {
    if |xs| > 0 {
      var init, last := xs[..|xs| - 1], xs[|xs| - 1];
      assert forall i :: 0 <= i < |init| && init[i].Some? ==> init[i].value <= hi by {
        forall i | 0 <= i < |init| ensures init[i] == xs[i] { }
      }
      SumAtMost(init, hi);
      SnocTotals(xs);
      if last.Some? {
        StepAtMost(hi, CountPresent(init), SumPresent(init), last.value, CountPresent(xs), SumPresent(xs));
      }
    }
  }

  lemma StepAtLeast(lo: real, n: real, total: real, v: real, n': real, total': real)
    requires lo * n <= total
    requires lo <= v
    requires n' == n + 1.0 && total' == total + v
    ensures lo * n' <= total'
  {
  }

  lemma StepAtMost(hi: real, n: real, total: real, v: real, n': real, total': real)
    requires total <= hi * n
    requires v <= hi
    requires n' == n + 1.0 && total' == total + v
    ensures total' <= hi * n'
  {
  }

  lemma DivideBounds(lo: real, hi: real, n: real, total: real)
    requires n > 0.0
    requires lo * n <= total <= hi * n
    ensures lo <= total / n <= hi
  {
  }

  /** The mean of values that all lie in `[lo, hi]` lies in `[lo, hi]`. */
  lemma MeanBounds(xs: seq<Option<real>>, lo: real, hi: real)
    requires Within(xs, lo, hi)
    ensures Mean(xs).Some? ==> lo <= Mean(xs).value <= hi
  {
    if Mean(xs).Some? {
      SumAtLeast(xs, lo);
      SumAtMost(xs, hi);
      DivideBounds(lo, hi, CountPresent(xs), SumPresent(xs));
    }
  }

  /** When every present value is `c` and at least one is present, the mean is `c`. */
  lemma MeanOfConstant(xs: seq<Option<real>>, c: real)
    requires Within(xs, c, c)
    requires exists i :: 0 <= i < |xs| && xs[i].Some?
    ensures Mean(xs) == Some(c)
  {
    MeanBounds(xs, c, c);
  }
}
