/** Substring search as the formatter uses it: `std::string::find`, which
    returns the index of the leftmost occurrence of a pattern or the
    sentinel `npos`, modelled here as `None`. */
module Search {

  datatype Option<+T> = None | Some(value: T)

  /** `pat` occurs in `s` starting at index `i`. */
  predicate OccursAt(s: string, pat: string, i: nat)
  {
    i + |pat| <= |s| && s[i..i + |pat|] == pat
  }

  /** `pat` occurs nowhere in `s`. */
  predicate Absent(s: string, pat: string)
  {
    forall i: nat :: i <= |s| ==> !OccursAt(s, pat, i)
  }

  /** Leftmost occurrence of `pat` in `s` at or after `from`. */
  function FindFrom(s: string, pat: string, from: nat): (r: Option<nat>)
    requires from <= |s|
    ensures r.Some? ==> from <= r.value && OccursAt(s, pat, r.value)
    ensures r.Some? ==> forall j: nat :: from <= j < r.value ==> !OccursAt(s, pat, j)
    ensures r.None? ==> forall j: nat :: from <= j ==> !OccursAt(s, pat, j)
    decreases |s| - from
  {
    if OccursAt(s, pat, from) then Some(from)
    else if from == |s| then None
    else FindFrom(s, pat, from + 1)
  }

  /** `str.find(pat)`: the leftmost occurrence, or `None` for `npos`. */
  function Find(s: string, pat: string): (r: Option<nat>)
    ensures r.Some? ==> OccursAt(s, pat, r.value) && r.value + |pat| <= |s|
    ensures r.Some? ==> forall j: nat :: j < r.value ==> !OccursAt(s, pat, j)
    ensures r.None? <==> Absent(s, pat)
  {
    FindFrom(s, pat, 0)
  }

  /** An occurrence inside a slice of `s` is an occurrence in `s`. */
  lemma {:induction false} OccursInSlice(s: string, pat: string, lo: nat, hi: nat, j: nat)
    requires lo <= hi <= |s|
    requires OccursAt(s[lo..hi], pat, j)
    ensures OccursAt(s, pat, lo + j)
  {
    assert j + |pat| <= hi - lo;
    forall k | 0 <= k < |pat|
      ensures s[lo + j..lo + j + |pat|][k] == pat[k]
    {
      assert s[lo..hi][j..j + |pat|][k] == pat[k];
    }
  }

  /** An occurrence at or after `lo` is an occurrence in the suffix from `lo`. */
  lemma {:induction false} OccursInSuffix(s: string, pat: string, lo: nat, p: nat)
    requires lo <= p && OccursAt(s, pat, p)
    ensures OccursAt(s[lo..], pat, p - lo)
  {
    assert s[lo..][p - lo..p - lo + |pat|] == s[p..p + |pat|];
  }

  /** Putting text after a string keeps its occurrences in place. */
  lemma {:induction false} OccursBeforeSuffix(a: string, b: string, pat: string, q: nat)
    requires OccursAt(a, pat, q)
    ensures OccursAt(a + b, pat, q)
  {
    assert (a + b)[q..q + |pat|] == a[q..q + |pat|];
  }

  /** Putting text before a string shifts its occurrences by its length. */
  lemma {:induction false} OccursAfterPrefix(a: string, b: string, pat: string, q: nat)
    requires OccursAt(b, pat, q)
    ensures OccursAt(a + b, pat, |a| + q)
  {
    assert (a + b)[|a| + q..|a| + q + |pat|] == b[q..q + |pat|];
  }
}
