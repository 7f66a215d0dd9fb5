/** Character classes and case mapping of Python's `str` methods, restricted
    to the ASCII range. */
module Ascii {

  /** Python's `str.isspace` on the ASCII range: tab, line feed, vertical tab,
      form feed, carriage return, the four information separators and space. */
  predicate IsSpace(c: char) {
    var n := c as int;
    n == 32 || (9 <= n <= 13) || (28 <= n <= 31)
  }

  predicate IsUpper(c: char) {
    'A' <= c <= 'Z'
  }

  /** `str.lower` on one character (ASCII letters only). */
  function ToLower(c: char): (d: char)
    ensures !IsUpper(d)
    ensures IsSpace(d) <==> IsSpace(c)
    ensures IsUpper(c) ==> d as int == c as int + 32
    ensures !IsUpper(c) ==> d == c
  {
    if IsUpper(c) then (c as int + 32) as char else c
  }

  ghost predicate AllSpace(s: string) {
    forall i :: 0 <= i < |s| ==> IsSpace(s[i])
  }

  function Lower(s: string): (r: string)
    ensures |r| == |s|
    ensures forall i :: 0 <= i < |s| ==> r[i] == ToLower(s[i])
  {
    seq(|s|, i requires 0 <= i < |s| => ToLower(s[i]))
  }
}

/** Category-label normalisation: `astype(str).str.lower().str.strip()` on a
    column of possibly missing labels, restricted to ASCII case mapping and
    ASCII whitespace. */
module Labels {
  import opened Wrappers
  import opened Ascii

  /** A label that `strip` leaves alone: it neither starts nor ends with whitespace. */
  ghost predicate Unpadded(s: string) {
    |s| > 0 ==> !IsSpace(s[0]) && !IsSpace(s[|s| - 1])
  }

  /** A label that normalisation leaves alone. */
  ghost predicate IsNormalised(s: string) {
    Unpadded(s) && forall i :: 0 <= i < |s| ==> !IsUpper(s[i])
  }

  /** The length of the longest all-whitespace prefix. */
  function LeadingSpaces(s: string): (n: nat)
    ensures n <= |s|
    ensures forall k :: 0 <= k < n ==> IsSpace(s[k])
    ensures n < |s| ==> !IsSpace(s[n])
  {
    if |s| > 0 && IsSpace(s[0]) then
      var n := LeadingSpaces(s[1..]);
      assert forall k :: 0 < k < n + 1 ==> s[k] == s[1..][k - 1];
      n + 1
    else 0
  }

  /** The length of the longest all-whitespace suffix. */
  function TrailingSpaces(s: string): (n: nat)
    ensures n <= |s|
    ensures forall k :: |s| - n <= k < |s| ==> IsSpace(s[k])
    ensures n < |s| ==> !IsSpace(s[|s| - 1 - n])
  {
    if |s| > 0 && IsSpace(s[|s| - 1]) then
      var n := TrailingSpaces(s[..|s| - 1]);
      assert forall k :: |s| - 1 - n <= k < |s| - 1 ==> s[k] == s[..|s| - 1][k];
      n + 1
    else 0
  }

  /** `lstrip()`: the result is the suffix left after the longest all-whitespace prefix. */
  function TrimStart(s: string): (r: string)
    ensures |r| <= |s| && r == s[|s| - |r|..]
    ensures AllSpace(s[..|s| - |r|])
    ensures |r| > 0 ==> !IsSpace(r[0])
  {
    var n := LeadingSpaces(s);
    assert forall k :: 0 <= k < n ==> s[..n][k] == s[k];
    s[n..]
  }

  /** `rstrip()`: the result is the prefix left before the longest all-whitespace suffix. */
  function TrimEnd(s: string): (r: string)
    ensures |r| <= |s| && r == s[..|r|]
    ensures AllSpace(s[|r|..])
    ensures |r| > 0 ==> !IsSpace(r[|r| - 1])
  {
    var n := TrailingSpaces(s);
    var m := |s| - n;
    assert forall k :: 0 <= k < n ==> s[m..][k] == s[m + k];
    s[..m]
  }

  /** `strip()`: the result is the middle of `s` once whitespace is cut from both ends. */
  function Strip(s: string): (r: string)
    ensures Unpadded(r)
    ensures exists i, j :: 0 <= i <= j <= |s| && r == s[i..j] && AllSpace(s[..i]) && AllSpace(s[j..])
  {
    var t := TrimStart(s);
    var r := TrimEnd(t);
    var i := |s| - |t|;
    assert r == s[i..i + |r|];
    assert s[i + |r|..] == t[|r|..];
    r
  }

  /** `astype(str)` on a category cell: a missing value becomes the text "nan". */
  function AsStr(cell: Option<string>): (r: string)
    ensures cell.Some? ==> r == cell.value
    ensures cell.None? ==> r == "nan"
  {
    match cell
    case Some(s) => s
    case None => "nan"
  }

  /** `r` is `s[i..j]` lower-cased, and everything outside `s[i..j]` is whitespace. */
  ghost predicate LowerMiddle(s: string, i: int, j: int, r: string) {
    0 <= i <= j <= |s| && r == Lower(s)[i..j] && AllSpace(s[..i]) && AllSpace(s[j..])
  }

  /** `.str.lower().str.strip()`: the result is the lower-cased middle of `s`
      between an all-whitespace prefix and an all-whitespace suffix, and it is
      itself normalised. */
  function Normalise(s: string): (r: string)
    ensures IsNormalised(r)
    ensures exists i, j :: LowerMiddle(s, i, j, r)
  {
    NormaliseShape(s);
    Strip(Lower(s))
  }

  lemma NormaliseShape(s: string)
    ensures exists i, j :: LowerMiddle(s, i, j, Strip(Lower(s)))
  {
    var l := Lower(s);
    var i, j :| 0 <= i <= j <= |l| && Strip(l) == l[i..j] && AllSpace(l[..i]) && AllSpace(l[j..]);
    SpacePrefix(s, i);
    SpaceSuffix(s, j);
    assert LowerMiddle(s, i, j, Strip(l));
  }

  lemma SpacePrefix(s: string, i: int)
    requires 0 <= i <= |s| && AllSpace(Lower(s)[..i])
    ensures AllSpace(s[..i])
  {
    forall k | 0 <= k < i ensures IsSpace(s[..i][k]) {
      assert IsSpace(Lower(s)[..i][k]);
    }
  }

  lemma SpaceSuffix(s: string, j: int)
    requires 0 <= j <= |s| && AllSpace(Lower(s)[j..])
    ensures AllSpace(s[j..])
  {
    forall k | 0 <= k < |s| - j ensures IsSpace(s[j..][k]) {
      assert IsSpace(Lower(s)[j..][k]);
    }
  }

  /** `Normalise` applied to one cell of the category column. */
  function NormaliseCell(cell: Option<string>): (r: string)
    ensures IsNormalised(r)
    ensures cell.None? ==> r == "nan"
    ensures cell.Some? ==> r == Normalise(cell.value)
  {
    Normalise(AsStr(cell))
  }

  /** A normalised label is a fixed point of `Normalise`. */
  lemma NormalisedIsFixed(s: string)
    requires IsNormalised(s)
    ensures Normalise(s) == s
  {
    assert Lower(s) == s;
    assert TrimStart(s) == s;
  }

  /** Normalisation is idempotent. */
  lemma NormaliseIdempotent(s: string)
    ensures Normalise(Normalise(s)) == Normalise(s)
  {
    NormalisedIsFixed(Normalise(s));
  }
}
