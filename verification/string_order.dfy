/** The order pandas' `groupby(sort=True)` puts group keys in: Python string
    comparison, which is lexicographic on code points. */
module StringOrder {

  /** `a < b` on Python strings. */
  predicate Lt(a: string, b: string) {
    if |a| == 0 then |b| > 0
    else if |b| == 0 then false
    else if a[0] != b[0] then a[0] < b[0]
    else Lt(a[1..], b[1..])
  }

  lemma {:induction false} LtIrreflexive(a: string)
    ensures !Lt(a, a)
  {
    if |a| > 0 {
      LtIrreflexive(a[1..]);
    }
  }

  lemma {:induction false} LtTransitive(a: string, b: string, c: string)
    requires Lt(a, b) && Lt(b, c)
    ensures Lt(a, c)
  {
    if |a| > 0 && a[0] == b[0] && b[0] == c[0] {
      LtTransitive(a[1..], b[1..], c[1..]);
    }
  }

  /** Any two distinct strings are ordered one way or the other. */
  lemma {:induction false} LtTotal(a: string, b: string)
    requires a != b
    ensures Lt(a, b) || Lt(b, a)
  {
    if |a| > 0 && |b| > 0 && a[0] == b[0] {
      assert a == [a[0]] + a[1..] && b == [b[0]] + b[1..];
      LtTotal(a[1..], b[1..]);
    }
  }

  lemma {:induction false} LtAsymmetric(a: string, b: string)
    requires Lt(a, b)
    ensures !Lt(b, a)
  {
    if Lt(b, a) {
      LtTransitive(a, b, a);
      LtIrreflexive(a);
    }
  }

  /** Ascending with no repeats: the shape of a group-by key column. */
  ghost predicate StrictlySorted(s: seq<string>) {
    forall i, j :: 0 <= i < j < |s| ==> Lt(s[i], s[j])
  }

  ghost predicate Distinct(s: seq<string>) {
    forall i, j :: 0 <= i < j < |s| ==> s[i] != s[j]
  }

  lemma StrictlySortedIsDistinct(s: seq<string>)
    requires StrictlySorted(s)
    ensures Distinct(s)
  {
    forall i, j | 0 <= i < j < |s| ensures s[i] != s[j] {
      if s[i] == s[j] {
        LtIrreflexive(s[i]);
      }
    }
  }

  /** The elements of a sequence, as a set. */
  ghost function Elements(s: seq<string>): set<string> {
    set x | x in s
  }

  lemma {:induction false} DistinctElements(s: seq<string>)
    requires Distinct(s)
    ensures |Elements(s)| == |s|
  {
    if |s| > 0 {
      assert Distinct(s[1..]);
      DistinctElements(s[1..]);
      assert Elements(s) == Elements(s[1..]) + {s[0]};
      assert s[0] !in Elements(s[1..]);
    } else {
      assert Elements(s) == {};
    }
  }

  lemma {:induction false} ElementsBound(s: seq<string>)
    ensures |Elements(s)| <= |s|
  {
    if |s| > 0 {
      ElementsBound(s[1..]);
      assert Elements(s) == Elements(s[1..]) + {s[0]};
    } else {
      assert Elements(s) == {};
    }
  }

  lemma SubsetSize(a: set<string>, b: set<string>)
    requires a <= b
    ensures |a| <= |b|
  {
    assert b == a + (b - a);
  }

  /** Inserts `k` into a strictly sorted sequence, unless it is already there. */
  function Insert(s: seq<string>, k: string): (r: seq<string>)
    requires StrictlySorted(s)
    ensures StrictlySorted(r)
    ensures forall x :: x in r <==> x in s || x == k
  {
    if |s| == 0 then [k]
    else if k == s[0] then s
    else if Lt(k, s[0]) then
      InsertFront(s, k);
      [k] + s
    else
      LtTotal(k, s[0]);
      var t := Insert(s[1..], k);
      assert forall x :: x in t ==> Lt(s[0], x) by {
        forall x | x in t ensures Lt(s[0], x) {
          if x != k {
            var m :| 1 <= m < |s| && s[m] == x;
          }
        }
      }
      [s[0]] + t
  }

  lemma InsertFront(s: seq<string>, k: string)
    requires StrictlySorted(s) && |s| > 0 && Lt(k, s[0])
    ensures StrictlySorted([k] + s)
  {
    forall j | 1 <= j < |s| + 1 ensures Lt(k, ([k] + s)[j]) {
      if j > 1 {
        LtTransitive(k, s[0], s[j - 1]);
      }
    }
  }

  /** The sorted distinct keys of a column: what `groupby(sort=True)` iterates over. */
  function SortedKeys(keys: seq<string>): (r: seq<string>)
    ensures StrictlySorted(r)
    ensures forall x :: x in r <==> x in keys
  {
    if |keys| == 0 then []
    else Insert(SortedKeys(keys[..|keys| - 1]), keys[|keys| - 1])
  }

  /** Two strictly sorted sequences with the same elements are equal, so the
      group-key order is determined by the set of keys alone. */
  lemma {:induction false} SortedUnique(a: seq<string>, b: seq<string>)
    requires StrictlySorted(a) && StrictlySorted(b)
    requires forall x :: x in a <==> x in b
    ensures a == b
  {
    assert |a| > 0 ==> a[0] in b;
    assert |b| > 0 ==> b[0] in a;
    if |a| > 0 && |b| > 0 {
      var m :| 0 <= m < |b| && b[m] == a[0];
      var n :| 0 <= n < |a| && a[n] == b[0];
      if m > 0 && n > 0 {
        LtAsymmetric(b[0], a[0]);
      }
      assert a[0] == b[0];
      forall x ensures x in a[1..] <==> x in b[1..] {
        if x in a[1..] {
          var k :| 1 <= k < |a| && a[k] == x;
          if x == b[0] { LtIrreflexive(x); }
          assert x in b;
        }
        if x in b[1..] {
          var k :| 1 <= k < |b| && b[k] == x;
          if x == a[0] { LtIrreflexive(x); }
          assert x in a;
        }
      }
      SortedUnique(a[1..], b[1..]);
      assert a == [a[0]] + a[1..] && b == [b[0]] + b[1..];
    }
  }
}
