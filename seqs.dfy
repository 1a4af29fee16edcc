/** Keeping some elements of a sequence and transforming them, in order. */
module Seqs {

  /** `[f(x) for x in s if keep(x)]` */
  function FilterMap<T, U>(s: seq<T>, keep: T -> bool, f: T -> U): seq<U>
    decreases |s|
  {
    if s == [] then []
    else FilterMap(s[..|s| - 1], keep, f) + (if keep(s[|s| - 1]) then [f(s[|s| - 1])] else [])
  }

  /**
   * The result is a subsequence of `s` mapped through `f`: `idx` lists, in
   * increasing order, exactly the positions of the kept elements.
   */
  lemma {:induction false} FilterMapIndices<T, U>(s: seq<T>, keep: T -> bool, f: T -> U)
    returns (idx: seq<nat>)
    ensures |idx| == |FilterMap(s, keep, f)|
    ensures forall k :: 0 <= k < |idx| ==> idx[k] < |s| && FilterMap(s, keep, f)[k] == f(s[idx[k]])
    ensures forall k, k' :: 0 <= k < k' < |idx| ==> idx[k] < idx[k']
    ensures forall j :: 0 <= j < |s| ==> (keep(s[j]) <==> j in idx)
    decreases |s|
  {
    if s == [] {
      idx := [];
    } else {
      var n := |s| - 1;
      var front := FilterMapIndices(s[..n], keep, f);
      var r := FilterMap(s, keep, f);
      var r0 := FilterMap(s[..n], keep, f);
      assert r == r0 + (if keep(s[n]) then [f(s[n])] else []);
      assert forall j :: 0 <= j < n ==> s[..n][j] == s[j];
      assert forall k :: 0 <= k < |front| ==> front[k] < n;
      if keep(s[n]) {
        idx := front + [n];
        assert forall k :: 0 <= k < |front| ==> idx[k] == front[k] && r[k] == r0[k];
        assert idx[|front|] == n && r[|front|] == f(s[n]);
      } else {
        idx := front;
        assert n !in idx;
      }
    }
  }

  lemma {:induction false} FilterMapLength<T, U>(s: seq<T>, keep: T -> bool, f: T -> U)
    ensures |FilterMap(s, keep, f)| <= |s|
    decreases |s|
  {
    if s != [] {
      FilterMapLength(s[..|s| - 1], keep, f);
    }
  }
}
