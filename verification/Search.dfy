/** The two searches over sorted slices: galloping and bisection (src/datafrog/join.rs,
    src/datafrog/treefrog.rs). */
module Search {

  function Pow2(n: nat): (r: nat)
    ensures r >= 1
  {
    if n == 0 then 1 else 2 * Pow2(n - 1)
  }

  /** The floor of the binary logarithm. */
  ghost function Log2(n: nat): (k: nat)
    requires n >= 1
    ensures Pow2(k) <= n < Pow2(k + 1)
  {
    if n == 1 then 0 else 1 + Log2(n / 2)
  }

  lemma {:induction false} Log2AtLeast(k: nat, n: nat)
    requires Pow2(k) <= n
    ensures k <= Log2(n)
  {
    if k > 0 {
      assert Pow2(k - 1) <= n / 2;
      assert n >= 2;
      Log2AtLeast(k - 1, n / 2);
    }
  }

  /** True on a prefix of the slice and false after it. */
  ghost predicate Partitioned<T>(s: seq<T>, cmp: T -> bool) {
    forall i, j :: 0 <= i < j < |s| && cmp(s[j]) ==> cmp(s[i])
  }

  /** `r` is the part of `s` from the first element that fails `cmp`. */
  ghost predicate FromFirstFailure<T>(s: seq<T>, cmp: T -> bool, r: seq<T>) {
    && |r| <= |s|
    && r == s[|s| - |r|..]
    && (forall i :: 0 <= i < |s| - |r| ==> cmp(s[i]))
    && (forall i :: 0 <= i < |r| ==> !cmp(r[i]))
  }

  /** Skips the elements that satisfy `cmp` in exponentially growing, then shrinking
      steps. `calls` counts the evaluations of `cmp`. No slice operation of the body
      leaves its range, whatever `cmp` is. */
  method Gallop<T>(s: seq<T>, cmp: T -> bool) returns (r: seq<T>, ghost calls: nat)
    ensures |r| <= |s| && r == s[|s| - |r|..]
    ensures Partitioned(s, cmp) ==> FromFirstFailure(s, cmp, r)
    ensures |r| == |s| ==> calls <= 1
    ensures |r| < |s| ==> calls <= 2 * Log2(|s| - |r|) + 2
  {
    hide Partitioned, FromFirstFailure, Log2;
    var lo := 0;  // the slice is s[lo..]
    calls := 0;
    if s != [] {
      calls := 1;
      if cmp(s[0]) {
        var step := 1;
        ghost var m := 0;
        while lo + step < |s| && cmp(s[lo + step])
          invariant lo < |s| && cmp(s[lo])
          invariant step == Pow2(m) && lo == step - 1
          invariant calls == 1 + m
          decreases |s| - lo
        {
          calls, m := calls + 1, m + 1;
          lo := lo + step;
          step := step * 2;
        }
        calls := if lo + step < |s| then calls + 1 else calls;
        ghost var k: nat, bound := m, step;
        step := step / 2;
        while step > 0
          invariant Pow2(m) - 1 <= lo < |s| && cmp(s[lo])
          invariant k <= m && bound == Pow2(k) && step == bound / 2
          invariant lo + bound < |s| && Partitioned(s, cmp) ==> !cmp(s[lo + bound])
          invariant calls <= 2 + m + (m - k)
          decreases step
        {
          if lo + step < |s| {
            calls := calls + 1;
            if cmp(s[lo + step]) {
              lo := lo + step;
            }
          }
          k, bound := k - 1, step;
          step := step / 2;
        }
        lo := lo + 1;
        Log2AtLeast(m, lo);
      }
    }
    r := s[lo..];
    FirstFailureAt(s, cmp, lo);
  }

  lemma FirstFailureAt<T>(s: seq<T>, cmp: T -> bool, lo: nat)
    requires lo <= |s| && (lo > 0 ==> cmp(s[lo - 1]))
    requires Partitioned(s, cmp) && lo < |s| ==> !cmp(s[lo])
    ensures Partitioned(s, cmp) ==> FromFirstFailure(s, cmp, s[lo..])
  {
  }

  /** The number of leading elements that satisfy `cmp`. */
  method BinarySearch<T>(s: seq<T>, cmp: T -> bool) returns (lo: nat)
    ensures lo <= |s|
    ensures Partitioned(s, cmp) ==> FromFirstFailure(s, cmp, s[lo..])
  {
    var hi := |s|;
    lo := 0;
    while lo < hi
      invariant lo <= hi <= |s|
      invariant lo > 0 ==> cmp(s[lo - 1])
      invariant hi < |s| ==> !cmp(s[hi])
    {
      var mid := lo + (hi - lo) / 2;
      if cmp(s[mid]) {
        lo := mid + 1;
      } else {
        hi := mid;
      }
    }
  }
}
