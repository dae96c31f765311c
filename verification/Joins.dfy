/** Joins of key-sorted slices (src/datafrog/join.rs). */
module Joins {
  import opened Orders
  import opened Search
  import opened Relations

  /** The rows a tuple `(k, v)` makes with a slice, in slice order. */
  function Matches<K(==), V1, V2>(k: K, v: V1, s: seq<(K, V2)>): (r: seq<(K, V1, V2)>) {
    if s == [] then []
    else (if s[0].0 == k then [(k, v, s[0].1)] else []) + Matches(k, v, s[1..])
  }

  /** The reference join: a plain nested loop. */
  function NestedLoop<K(==), V1, V2>(s1: seq<(K, V1)>, s2: seq<(K, V2)>): (r: seq<(K, V1, V2)>) {
    if s1 == [] then []
    else Matches(s1[0].0, s1[0].1, s2) + NestedLoop(s1[1..], s2)
  }

  lemma {:induction false} MatchesConcat<K, V1, V2>(k: K, v: V1, a: seq<(K, V2)>, b: seq<(K, V2)>)
    ensures Matches(k, v, a + b) == Matches(k, v, a) + Matches(k, v, b)
  {
    if a == [] {
      assert a + b == b;
    } else {
      assert (a + b)[0] == a[0] && (a + b)[1..] == a[1..] + b;
      MatchesConcat(k, v, a[1..], b);
      var row := if a[0].0 == k then [(k, v, a[0].1)] else [];
      assert row + (Matches(k, v, a[1..]) + Matches(k, v, b)) == (row + Matches(k, v, a[1..])) + Matches(k, v, b);
    }
  }

  lemma {:induction false} NestedLoopConcat<K, V1, V2>(a: seq<(K, V1)>, b: seq<(K, V1)>, s: seq<(K, V2)>)
    ensures NestedLoop(a + b, s) == NestedLoop(a, s) + NestedLoop(b, s)
  {
    if a == [] {
      assert a + b == b;
    } else {
      assert (a + b)[1..] == a[1..] + b;
      NestedLoopConcat(a[1..], b, s);
    }
  }

  lemma {:induction false} NoMatches<K, V1, V2>(k: K, v: V1, s: seq<(K, V2)>)
    requires forall i :: 0 <= i < |s| ==> s[i].0 != k
    ensures Matches(k, v, s) == []
  {
    if s != [] {
      NoMatches(k, v, s[1..]);
    }
  }

  /** Rows of the left slice that match nothing can be dropped. */
  lemma {:induction false} DropLeft<K, V1, V2>(a: seq<(K, V1)>, b: seq<(K, V1)>, s: seq<(K, V2)>)
    requires forall i, j :: 0 <= i < |a| && 0 <= j < |s| ==> a[i].0 != s[j].0
    ensures NestedLoop(a + b, s) == NestedLoop(b, s)
  {
    if a == [] {
      assert a + b == b;
    } else {
      NoMatches(a[0].0, a[0].1, s);
      assert (a + b)[1..] == a[1..] + b;
      DropLeft(a[1..], b, s);
    }
  }

  lemma {:induction false} SameMatches<K, V1, V2>(s: seq<(K, V1)>, t: seq<(K, V2)>, u: seq<(K, V2)>)
    requires forall i :: 0 <= i < |s| ==> Matches(s[i].0, s[i].1, t) == Matches(s[i].0, s[i].1, u)
    ensures NestedLoop(s, t) == NestedLoop(s, u)
  {
    if s != [] {
      SameMatches(s[1..], t, u);
    }
  }

  lemma {:induction false} MatchesDrop<K, V1, V2>(k: K, v: V1, a: seq<(K, V2)>, b: seq<(K, V2)>)
    requires forall i :: 0 <= i < |a| ==> a[i].0 != k
    ensures Matches(k, v, a + b) == Matches(k, v, b)
    ensures Matches(k, v, b + a) == Matches(k, v, b)
  {
    NoMatches(k, v, a);
    MatchesConcat(k, v, a, b);
    MatchesConcat(k, v, b, a);
  }

  /** Rows of the right slice that match nothing can be dropped, from either end. */
  lemma {:induction false} DropRight<K, V1, V2>(s: seq<(K, V1)>, a: seq<(K, V2)>, b: seq<(K, V2)>)
    requires forall i, j :: 0 <= i < |a| && 0 <= j < |s| ==> a[i].0 != s[j].0
    ensures NestedLoop(s, a + b) == NestedLoop(s, b)
    ensures NestedLoop(s, b + a) == NestedLoop(s, b)
  {
    forall i | 0 <= i < |s|
      ensures Matches(s[i].0, s[i].1, a + b) == Matches(s[i].0, s[i].1, b)
      ensures Matches(s[i].0, s[i].1, b + a) == Matches(s[i].0, s[i].1, b)
    {
      MatchesDrop(s[i].0, s[i].1, a, b);
    }
    SameMatches(s, a + b, b);
    SameMatches(s, b + a, b);
  }

  /** One key: both slices split into a group of that key and larger keys. */
  lemma GroupStep<K(!new), V1, V2>(ltK: (K, K) -> bool, k: K, g1: seq<(K, V1)>, r1: seq<(K, V1)>,
                                   g2: seq<(K, V2)>, r2: seq<(K, V2)>)
    requires StrictTotal(ltK)
    requires forall i :: 0 <= i < |g1| ==> g1[i].0 == k
    requires forall i :: 0 <= i < |g2| ==> g2[i].0 == k
    requires forall i :: 0 <= i < |r1| ==> ltK(k, r1[i].0)
    requires forall i :: 0 <= i < |r2| ==> ltK(k, r2[i].0)
    ensures NestedLoop(g1 + r1, g2 + r2) == NestedLoop(g1, g2) + NestedLoop(r1, r2)
  {
    NestedLoopConcat(g1, r1, g2 + r2);
    DropRight(g1, r2, g2);
    DropRight(r1, g2, r2);
  }

  /** How many leading tuples carry the first tuple's key. */
  method LeadingGroup<K(!new, ==), V>(ltK: (K, K) -> bool, s: seq<(K, V)>, from: nat) returns (n: nat)
    requires StrictTotal(ltK) && KeyAscending(ltK, s) && from < |s|
    ensures from < n <= |s|
    ensures forall i :: from <= i < n ==> s[i].0 == s[from].0
    ensures forall i :: n <= i < |s| ==> ltK(s[from].0, s[i].0)
  {
    n := from;
    while n < |s| && s[n].0 == s[from].0
      invariant from <= n <= |s|
      invariant forall i :: from <= i < n ==> s[i].0 == s[from].0
    {
      n := n + 1;
    }
    forall i | n <= i < |s|
      ensures ltK(s[from].0, s[i].0)
    {
      assert ltK(s[from].0, s[n].0);
      assert i == n || !ltK(s[i].0, s[n].0);
    }
  }

  /** The cross product of two groups of one key, row by row. */
  method CrossProduct<K(==), V1, V2>(k: K, g1: seq<(K, V1)>, g2: seq<(K, V2)>) returns (out: seq<(K, V1, V2)>)
    requires forall i :: 0 <= i < |g1| ==> g1[i].0 == k
    requires forall i :: 0 <= i < |g2| ==> g2[i].0 == k
    ensures out == NestedLoop(g1, g2)
  {
    out := [];
    for i := 0 to |g1|
      invariant out == NestedLoop(g1[..i], g2)
    {
      ghost var before := out;
      for j := 0 to |g2|
        invariant out == before + Matches(k, g1[i].1, g2[..j])
      {
        assert g2[..j + 1] == g2[..j] + [g2[j]];
        MatchesConcat(k, g1[i].1, g2[..j], [g2[j]]);
        out := out + [(k, g1[i].1, g2[j].1)];
      }
      assert g2[..|g2|] == g2;
      assert g1[..i + 1] == g1[..i] + [g1[i]];
      NestedLoopConcat(g1[..i], [g1[i]], g2);
      assert NestedLoop([g1[i]], g2) == Matches(k, g1[i].1, g2) + NestedLoop([], g2);
    }
    assert g1[..|g1|] == g1;
  }

  /** Galloping past smaller keys: where the cursor lands. */
  method SkipSmaller<K(!new), V>(ltK: (K, K) -> bool, s: seq<(K, V)>, from: nat, k: K) returns (n: nat)
    requires StrictTotal(ltK) && KeyAscending(ltK, s) && from < |s| && ltK(s[from].0, k)
    ensures from < n <= |s|
    ensures forall i :: from <= i < n ==> ltK(s[i].0, k)
  {
    var rest := s[from..];
    ghost var cmp := (x: (K, V)) => ltK(x.0, k);
    var slice, _ := Gallop(rest, (x: (K, V)) => ltK(x.0, k));
    assert Partitioned(rest, cmp) by {
      forall i, j | 0 <= i < j < |rest| && cmp(rest[j])
        ensures cmp(rest[i])
      {
        assert !ltK(s[from + j].0, s[from + i].0);
      }
    }
    n := |s| - |slice|;
    assert rest[0] == s[from] && cmp(rest[0]);
    forall i | from <= i < n
      ensures ltK(s[i].0, k)
    {
      assert cmp(rest[i - from]);
    }
  }

  /** The galloping merge join produces exactly the rows of the nested loop, each
      once and in the same order. */
  method JoinHelper<K(!new, ==), V1, V2>(ltK: (K, K) -> bool, s1: seq<(K, V1)>, s2: seq<(K, V2)>)
      returns (out: seq<(K, V1, V2)>)
    requires StrictTotal(ltK) && KeyAscending(ltK, s1) && KeyAscending(ltK, s2)
    ensures out == NestedLoop(s1, s2)
  {
    hide NestedLoop, StrictTotal, KeyAscending, Matches;
    out := [];
    var a: nat, b: nat := 0, 0;  // the slices are s1[a..] and s2[b..]
    assert s1[0..] == s1 && s2[0..] == s2;
    while a < |s1| && b < |s2|
      invariant a <= |s1| && b <= |s2|
      invariant out + NestedLoop(s1[a..], s2[b..]) == NestedLoop(s1, s2)
      decreases |s1| - a + |s2| - b
    {
      var k1, k2 := s1[a].0, s2[b].0;
      if ltK(k1, k2) {
        var n := SkipSmaller(ltK, s1, a, k2);
        assert s1[a..] == s1[a..n] + s1[n..];
        SmallerKeysDiffer(ltK, s1, a, n, s2, b);
        DropLeft(s1[a..n], s1[n..], s2[b..]);
        a := n;
      } else if k1 == k2 {
        var n1 := LeadingGroup(ltK, s1, a);
        var n2 := LeadingGroup(ltK, s2, b);
        var rows := CrossProduct(k1, s1[a..n1], s2[b..n2]);
        assert s1[a..] == s1[a..n1] + s1[n1..];
        assert s2[b..] == s2[b..n2] + s2[n2..];
        GroupStep(ltK, k1, s1[a..n1], s1[n1..], s2[b..n2], s2[n2..]);
        out, a, b := out + rows, n1, n2;
      } else {
        Trichotomy(ltK, k1, k2);
        var n := SkipSmaller(ltK, s2, b, k1);
        assert s2[b..] == s2[b..n] + s2[n..];
        SmallerKeysDiffer(ltK, s2, b, n, s1, a);
        DropRight(s1[a..], s2[b..n], s2[n..]);
        b := n;
      }
    }
    NothingToJoin(s1[a..], s2[b..]);
  }

  lemma Trichotomy<K(!new)>(ltK: (K, K) -> bool, a: K, b: K)
    requires StrictTotal(ltK)
    ensures a == b || ltK(a, b) || ltK(b, a)
  {
  }

  lemma {:induction false} NothingToJoin<K, V1, V2>(s1: seq<(K, V1)>, s2: seq<(K, V2)>)
    requires s1 == [] || s2 == []
    ensures NestedLoop(s1, s2) == []
  {
    if s1 != [] {
      NothingToJoin(s1[1..], s2);
    }
  }

  lemma SmallerKeysDiffer<K(!new), V1, V2>(ltK: (K, K) -> bool, s1: seq<(K, V1)>, a: nat, n: nat,
                                           s2: seq<(K, V2)>, b: nat)
    requires StrictTotal(ltK) && KeyAscending(ltK, s2)
    requires a <= n <= |s1| && b < |s2|
    requires forall i :: a <= i < n ==> ltK(s1[i].0, s2[b].0)
    ensures forall i, j :: 0 <= i < |s1[a..n]| && 0 <= j < |s2[b..]| ==> s1[a..n][i].0 != s2[b..][j].0
  {
    forall i, j | a <= i < n && b <= j < |s2|
      ensures s1[i].0 != s2[j].0
    {
      assert ltK(s1[i].0, s2[b].0);
      assert j == b || !ltK(s2[j].0, s2[b].0);
    }
  }

  /** Every matching pair gives a row, and every row comes from one. */
  lemma {:induction false} NestedLoopRows<K(!new), V1(!new), V2(!new)>(s1: seq<(K, V1)>, s2: seq<(K, V2)>)
    ensures forall k, v1, v2 :: (k, v1, v2) in NestedLoop(s1, s2) <==> (k, v1) in s1 && (k, v2) in s2
  {
    if s1 != [] {
      MatchesRows(s1[0].0, s1[0].1, s2);
      NestedLoopRows(s1[1..], s2);
      assert s1 == [s1[0]] + s1[1..];
    }
  }

  lemma {:induction false} MatchesRows<K(!new), V1(!new), V2(!new)>(k: K, v: V1, s: seq<(K, V2)>)
    ensures forall k', v1, v2 :: (k', v1, v2) in Matches(k, v, s) <==> k' == k && v1 == v && (k, v2) in s
  {
    if s != [] {
      MatchesRows(k, v, s[1..]);
      assert s == [s[0]] + s[1..];
    }
  }

  /** The join of two sets. */
  ghost function JoinSet<K, V1, V2, R>(a: set<(K, V1)>, b: set<(K, V2)>, logic: (K, V1, V2) -> R): set<R> {
    set x, y | x in a && y in b && x.0 == y.0 :: logic(x.0, x.1, y.1)
  }

  /** `join_helper` with the closure that pushes `logic`'s results. */
  method JoinSlices<K(!new, ==), V1(!new), V2(!new), R(!new)>(ltK: (K, K) -> bool, s1: seq<(K, V1)>, s2: seq<(K, V2)>,
                                                         logic: (K, V1, V2) -> R) returns (out: seq<R>)
    requires StrictTotal(ltK) && KeyAscending(ltK, s1) && KeyAscending(ltK, s2)
    ensures Elems(out) == JoinSet(Elems(s1), Elems(s2), logic)
  {
    var rows := JoinHelper(ltK, s1, s2);
    out := seq(|rows|, i requires 0 <= i < |rows| => logic(rows[i].0, rows[i].1, rows[i].2));
    NestedLoopRows(s1, s2);
    forall r: R
      ensures r in Elems(out) <==> r in JoinSet(Elems(s1), Elems(s2), logic)
    {
      if r in Elems(out) {
        var i :| 0 <= i < |rows| && out[i] == r;
        assert rows[i] in rows;
        assert (rows[i].0, rows[i].1) in Elems(s1) && (rows[i].0, rows[i].2) in Elems(s2);
      }
      if r in JoinSet(Elems(s1), Elems(s2), logic) {
        var x, y :| x in Elems(s1) && y in Elems(s2) && x.0 == y.0 && r == logic(x.0, x.1, y.1);
        assert (x.0, x.1) == x && (x.0, y.1) == y;
        assert (x.0, x.1, y.1) in rows;
        var i :| 0 <= i < |rows| && rows[i] == (x.0, x.1, y.1);
        assert out[i] == r;
      }
    }
    assert Elems(out) == JoinSet(Elems(s1), Elems(s2), logic);
  }

  /** What a join reads: a variable's stages, or a fixed relation, which has no
      recent tuples and a single stable batch. */
  datatype JoinInput<T> = Varying(variableRecent: seq<T>, variableStable: seq<seq<T>>) | Fixed(elements: seq<T>) {
    function Recent(): seq<T> {
      if Varying? then variableRecent else []
    }

    function Stable(): seq<seq<T>> {
      if Varying? then variableStable else [elements]
    }

    /** Everything the input holds. */
    ghost function Contents(): set<T> {
      Union(Stable()) + Elems(Recent())
    }

    ghost predicate Valid(lt: (T, T) -> bool) {
      Sorted(lt, Recent()) && forall b :: b in Stable() ==> Sorted(lt, b)
    }
  }

  lemma JoinSetUnionLeft<K, V1, V2, R>(a: set<(K, V1)>, a': set<(K, V1)>, b: set<(K, V2)>, logic: (K, V1, V2) -> R)
    ensures JoinSet(a + a', b, logic) == JoinSet(a, b, logic) + JoinSet(a', b, logic)
  {
  }

  lemma JoinSetUnionRight<K, V1, V2, R>(a: set<(K, V1)>, b: set<(K, V2)>, b': set<(K, V2)>, logic: (K, V1, V2) -> R)
    ensures JoinSet(a, b + b', logic) == JoinSet(a, b, logic) + JoinSet(a, b', logic)
  {
  }

  lemma UnionPush<T>(batches: seq<seq<T>>, i: nat)
    requires i < |batches|
    ensures Union(batches[..i + 1]) == Union(batches[..i]) + Elems(batches[i])
  {
    assert batches[..i + 1] == batches[..i] + [batches[i]];
    assert forall b :: b in batches[..i + 1] <==> b in batches[..i] || b == batches[i];
  }

  /** A slice against every batch of a list. */
  method JoinBatchesRight<K(!new, ==), V1(!new), V2(!new), R(!new)>(
      ltK: (K, K) -> bool, ltV2: (V2, V2) -> bool, slice: seq<(K, V1)>, batches: seq<seq<(K, V2)>>,
      logic: (K, V1, V2) -> R) returns (results: seq<R>)
    requires StrictTotal(ltK) && KeyAscending(ltK, slice)
    requires forall b :: b in batches ==> Sorted(Lex(ltK, ltV2), b)
    ensures Elems(results) == JoinSet(Elems(slice), Union(batches), logic)
  {
    results := [];
    ghost var done: set<(K, V2)> := {};
    for i := 0 to |batches|
      invariant done == Union(batches[..i])
      invariant Elems(results) == JoinSet(Elems(slice), done, logic)
    {
      assert batches[i] in batches;
      SortedIsKeyAscending(ltK, ltV2, batches[i]);
      var rows := JoinSlices(ltK, slice, batches[i], logic);
      UnionPush(batches, i);
      JoinSetUnionRight(Elems(slice), done, Elems(batches[i]), logic);
      ElemsConcat(results, rows);
      results := results + rows;
      done := done + Elems(batches[i]);
    }
    assert batches[..|batches|] == batches;
  }

  /** Every batch of a list against a slice. */
  method JoinBatchesLeft<K(!new, ==), V1(!new), V2(!new), R(!new)>(
      ltK: (K, K) -> bool, ltV1: (V1, V1) -> bool, batches: seq<seq<(K, V1)>>, slice: seq<(K, V2)>,
      logic: (K, V1, V2) -> R) returns (results: seq<R>)
    requires StrictTotal(ltK) && KeyAscending(ltK, slice)
    requires forall b :: b in batches ==> Sorted(Lex(ltK, ltV1), b)
    ensures Elems(results) == JoinSet(Union(batches), Elems(slice), logic)
  {
    results := [];
    ghost var done: set<(K, V1)> := {};
    for i := 0 to |batches|
      invariant done == Union(batches[..i])
      invariant Elems(results) == JoinSet(done, Elems(slice), logic)
    {
      assert batches[i] in batches;
      SortedIsKeyAscending(ltK, ltV1, batches[i]);
      var rows := JoinSlices(ltK, batches[i], slice, logic);
      UnionPush(batches, i);
      JoinSetUnionLeft(done, Elems(batches[i]), Elems(slice), logic);
      ElemsConcat(results, rows);
      results := results + rows;
      done := done + Elems(batches[i]);
    }
    assert batches[..|batches|] == batches;
  }

  /** One round of the semi-naive join: the pairs that involve a recent tuple. */
  method JoinInto<K(!new, ==), V1(!new), V2(!new), R(!new, ==)>(
      ltK: (K, K) -> bool, ltV1: (V1, V1) -> bool, ltV2: (V2, V2) -> bool, ltR: (R, R) -> bool,
      input1: JoinInput<(K, V1)>, input2: JoinInput<(K, V2)>, logic: (K, V1, V2) -> R) returns (r: seq<R>)
    requires StrictTotal(ltK) && StrictTotal(ltR)
    requires input1.Valid(Lex(ltK, ltV1)) && input2.Valid(Lex(ltK, ltV2))
    ensures Sorted(ltR, r)
    ensures Elems(r) == JoinSet(Elems(input1.Recent()), input2.Contents(), logic)
                      + JoinSet(Union(input1.Stable()), Elems(input2.Recent()), logic)
  {
    var recent1, recent2 := input1.Recent(), input2.Recent();
    SortedIsKeyAscending(ltK, ltV1, recent1);
    SortedIsKeyAscending(ltK, ltV2, recent2);
    var newOld := JoinBatchesRight(ltK, ltV2, recent1, input2.Stable(), logic);
    var oldNew := JoinBatchesLeft(ltK, ltV1, input1.Stable(), recent2, logic);
    var newNew := JoinSlices(ltK, recent1, recent2, logic);
    JoinSetUnionRight(Elems(recent1), Union(input2.Stable()), Elems(recent2), logic);
    ThreeParts(newOld, oldNew, newNew);
    r := FromVec(ltR, newOld + oldNew + newNew);
  }

  lemma ThreeParts<R>(a: seq<R>, b: seq<R>, c: seq<R>)
    ensures Elems(a + b + c) == (Elems(a) + Elems(c)) + Elems(b)
  {
  }

  /** The tuples of `a` whose key is absent from `keys`, transformed. */
  ghost function AntijoinSet<K, V, R>(a: set<(K, V)>, keys: set<K>, logic: (K, V) -> R): set<R> {
    set x | x in a && x.0 !in keys :: logic(x.0, x.1)
  }

  lemma AntijoinStep<K, V, R>(s: seq<(K, V)>, i: nat, keys: set<K>, logic: (K, V) -> R)
    requires i < |s|
    ensures AntijoinSet(Elems(s[..i + 1]), keys, logic)
         == AntijoinSet(Elems(s[..i]), keys, logic) + if s[i].0 in keys then {} else {logic(s[i].0, s[i].1)}
  {
    ElemsPush(s, i);
  }

  /** The antijoin reads only the recent tuples of its input. */
  method Antijoin<K(!new, ==), V(!new), R(!new, ==)>(
      ltK: (K, K) -> bool, ltV: (V, V) -> bool, ltR: (R, R) -> bool,
      input1: JoinInput<(K, V)>, input2: seq<K>, logic: (K, V) -> R) returns (r: seq<R>)
    requires StrictTotal(ltK) && StrictTotal(ltR)
    requires input1.Valid(Lex(ltK, ltV)) && Sorted(ltK, input2)
    ensures Sorted(ltR, r)
    ensures Elems(r) == AntijoinSet(Elems(input1.Recent()), Elems(input2), logic)
  {
    var recent := input1.Recent();
    SortedIsKeyAscending(ltK, ltV, recent);
    var results := AntijoinRows(ltK, recent, input2, logic);
    r := FromVec(ltR, results);
  }

  lemma NothingAbsent<K, V, R>(s: seq<(K, V)>, keys: set<K>, logic: (K, V) -> R)
    requires s == []
    ensures AntijoinSet(Elems(s), keys, logic) == {} && Elems<R>([]) == {}
  {
  }

  lemma ElemsOne<T>(x: T)
    ensures Elems([x]) == {x}
  {
  }

  /** The filter with the moving gallop cursor, then the map. */
  method AntijoinRows<K(!new,
        ==), V(!new), R(!new)>(ltK: (K, K) -> bool, recent: seq<(K, V)>, keys: seq<K>, logic: (K, V) -> R)
      returns (results: seq<R>)
    requires StrictTotal(ltK) && KeyAscending(ltK, recent) && Sorted(ltK, keys)
    ensures Elems(results) == AntijoinSet(Elems(recent), Elems(keys), logic)
  {
    hide AntijoinSet, StrictTotal;
    results := [];
    ghost var done: set<R> := {};
    NothingAbsent(recent[..0], Elems(keys), logic);
    var c: nat := 0;  // the slice is keys[c..]
    for i := 0 to |recent|
      invariant c <= |keys|
      invariant forall j :: 0 <= j < c && i < |recent| ==> ltK(keys[j], recent[i].0)
      invariant done == AntijoinSet(Elems(recent[..i]), Elems(keys), logic)
      invariant Elems(results) == done
    {
      var key := recent[i].0;
      c := MoveCursor(ltK, keys, c, key, true);
      CursorDecides(ltK, keys, c, key);
      AntijoinStep(recent, i, Elems(keys), logic);
      if c == |keys| || keys[c] != key {
        ElemsConcat(results, [logic(key, recent[i].1)]);
        ElemsOne(logic(key, recent[i].1));
        results := results + [logic(key, recent[i].1)];
        done := done + {logic(key, recent[i].1)};
      }
      KeyStaysAbove(ltK, recent, i, keys, c);
    }
    assert recent[..|recent|] == recent;
  }

  lemma KeyStaysAbove<K(!new), V>(ltK: (K, K) -> bool, s: seq<(K, V)>, i: nat, keys: seq<K>, c: nat)
    requires StrictTotal(ltK) && KeyAscending(ltK, s) && i < |s| && c <= |keys|
    requires forall j :: 0 <= j < c ==> ltK(keys[j], s[i].0)
    ensures forall j :: 0 <= j < c && i + 1 < |s| ==> ltK(keys[j], s[i + 1].0)
  {
    if i + 1 < |s| {
      assert !ltK(s[i + 1].0, s[i].0);
    }
  }

  /** An input on which the result of `Relation::from_antijoin` is not the documented one. */
  lemma RelationAntijoinLosesTuples()
    ensures AntijoinSet(Elems(Fixed([(0, 1)]).Recent()), {}, (k: int, v: int) => v)
         != AntijoinSet(Elems([(0, 1)]), {}, (k: int, v: int) => v)
  {
    assert (0, 1) in Elems([(0, 1)]);
    assert 1 in AntijoinSet(Elems([(0, 1)]), {}, (k: int, v: int) => v);
  }

  /** `Relation::from_antijoin` hands a relation, which has no recent tuples, to
      `antijoin`: the result is always empty. It is the documented one exactly when
      every key of the first relation is in the second. */
  method RelationFromAntijoin<K(!new, ==), V(!new), R(!new, ==)>(
      ltK: (K, K) -> bool, ltV: (V, V) -> bool, ltR: (R, R) -> bool,
      input1: seq<(K, V)>, input2: seq<K>, logic: (K, V) -> R) returns (r: seq<R>)
    requires StrictTotal(ltK) && StrictTotal(ltR)
    requires Sorted(Lex(ltK, ltV), input1) && Sorted(ltK, input2)
    ensures r == []
    ensures Elems(r) == AntijoinSet(Elems(input1), Elems(input2), logic)
       <==> forall x :: x in input1 ==> x.0 in input2
  {
    r := Antijoin(ltK, ltV, ltR, Fixed(input1), input2, logic);
    NoElems(r);
    assert Fixed(input1).Recent() == [];
    if x :| x in input1 && x.0 !in input2 {
      assert x in Elems(input1) && x.0 !in Elems(input2);
      assert logic(x.0, x.1) in AntijoinSet(Elems(input1), Elems(input2), logic);
    }
  }
}
