/** Variables: monotonically growing sets of tuples kept in three stages
    (src/datafrog/mod.rs:260-288, 460-568). */
module Variables {
  import opened Options
  import opened Orders
  import opened Search
  import opened Relations

  ghost predicate AllSorted<T>(lt: (T, T) -> bool, batches: seq<seq<T>>) {
    forall b :: b in batches ==> Sorted(lt, b)
  }

  ghost predicate NoneEmpty<T>(batches: seq<seq<T>>) {
    forall b :: b in batches ==> b != []
  }

  /** No tuple is in two batches. */
  ghost predicate PairwiseDisjoint<T>(batches: seq<seq<T>>) {
    forall i, j :: 0 <= i < j < |batches| ==> Elems(batches[i]) !! Elems(batches[j])
  }

  /** Every batch is non-empty and longer than twice the next one, and so than twice
      any later one. */
  ghost predicate Tower<T>(batches: seq<seq<T>>) {
    && NoneEmpty(batches)
    && forall i, j :: 0 <= i < j < |batches| ==> |batches[i]| > 2 * |batches[j]|
  }

  /** With k batches, the first one holds at least 2^k - 1 tuples. */
  lemma {:induction false} TowerGrows<T>(batches: seq<seq<T>>)
    requires Tower(batches) && batches != []
    ensures Pow2(|batches|) <= |batches[0]| + 1
  {
    assert batches[0] in batches;
    if |batches| > 1 {
      var rest := batches[1..];
      assert forall b :: b in rest ==> b in batches;
      TowerGrows(rest);
    }
  }

  lemma {:induction false} SortedCardinality<T(!new)>(lt: (T, T) -> bool, s: seq<T>)
    requires StrictTotal(lt) && Sorted(lt, s)
    ensures |Elems(s)| == |s|
  {
    if s != [] {
      TailElems(lt, s);
      SortedCardinality(lt, s[1..]);
      assert s[0] in Elems(s);
    }
  }

  lemma SubsetCardinality<T>(a: set<T>, b: set<T>)
    requires a <= b
    ensures |a| <= |b|
  {
    assert b == a + (b - a);
  }

  /** The number of batches is logarithmic in the number of tuples. */
  lemma TowerHeight<T(!new)>(lt: (T, T) -> bool, batches: seq<seq<T>>)
    requires StrictTotal(lt) && AllSorted(lt, batches) && Tower(batches)
    ensures |batches| <= Log2(|Union(batches)| + 1)
  {
    if batches != [] {
      TowerGrows(batches);
      assert batches[0] in batches;
      SortedCardinality(lt, batches[0]);
      assert Elems(batches[0]) <= Union(batches);
      SubsetCardinality(Elems(batches[0]), Union(batches));
      Log2AtLeast(|batches|, |Union(batches)| + 1);
    }
  }

  lemma UnionConcat<T>(a: seq<seq<T>>, b: seq<seq<T>>)
    ensures Union(a + b) == Union(a) + Union(b)
  {
  }

  lemma UnionSingle<T>(b: seq<T>)
    ensures Union([b]) == Elems(b)
  {
    assert b in [b];
  }

  lemma UnionSnoc<T>(a: seq<seq<T>>, b: seq<T>)
    ensures Union(a + [b]) == Union(a) + Elems(b)
  {
    UnionConcat(a, [b]);
    UnionSingle(b);
  }

  /** Merging the last two batches keeps the batches disjoint. */
  lemma DisjointMerge<T>(s: seq<seq<T>>, last: seq<T>, r: seq<T>, merged: seq<T>)
    requires PairwiseDisjoint(s + [last] + [r])
    requires Elems(merged) == Elems(r) + Elems(last)
    ensures PairwiseDisjoint(s + [merged])
  {
    var before, after := s + [last] + [r], s + [merged];
    forall i, j | 0 <= i < j < |after|
      ensures Elems(after[i]) !! Elems(after[j])
    {
      assert after[i] == before[i];
      if j < |s| {
        assert after[j] == before[j];
      } else {
        assert before[|s|] == last && before[|s| + 1] == r;
        assert Elems(before[i]) !! Elems(last) && Elems(before[i]) !! Elems(r);
      }
    }
  }

  lemma FoldStep<T>(s: seq<seq<T>>, last: seq<T>, r: seq<T>, merged: seq<T>)
    requires r != [] && Elems(merged) == Elems(r) + Elems(last)
    ensures merged != []
    ensures Union(s) + Elems(merged) == Union(s + [last]) + Elems(r)
    ensures PairwiseDisjoint(s + [last] + [r]) ==> PairwiseDisjoint(s + [merged])
  {
    NoElems(r);
    NoElems(merged);
    UnionSnoc(s, last);
    if PairwiseDisjoint(s + [last] + [r]) {
      DisjointMerge(s, last, r, merged);
    }
  }

  /** Folds the recent tuples into the stable batches, merging while the last batch
      is at most twice as long. */
  method FoldRecent<T(!new, ==)>(lt: (T, T) -> bool, stable: seq<seq<T>>, recent: seq<T>) returns (s: seq<seq<T>>)
    requires StrictTotal(lt) && AllSorted(lt, stable) && Tower(stable)
    requires Sorted(lt, recent) && recent != []
    ensures AllSorted(lt, s) && Tower(s)
    ensures Union(s) == Union(stable) + Elems(recent)
    ensures PairwiseDisjoint(stable + [recent]) ==> PairwiseDisjoint(s)
  {
    hide Union, PairwiseDisjoint, StrictTotal, Elems, Sorted, Tower;
    var r, n := recent, |stable|;  // the batches left are stable[..n]
    ghost var total := Union(stable) + Elems(recent);
    ghost var disjoint := PairwiseDisjoint(stable + [recent]);
    assert stable[..n] == stable;
    while n > 0 && |stable[n - 1]| <= 2 * |r|
      invariant n <= |stable|
      invariant Sorted(lt, r) && r != []
      invariant Union(stable[..n]) + Elems(r) == total
      invariant disjoint ==> PairwiseDisjoint(stable[..n] + [r])
    {
      var last := stable[n - 1];
      assert last in stable;
      var merged := Merge(lt, r, last);
      assert stable[..n] == stable[..n - 1] + [last];
      FoldStep(stable[..n - 1], last, r, merged);
      n, r := n - 1, merged;
    }
    UnionSnoc(stable[..n], r);
    TowerPush(lt, stable, n, r);
    s := stable[..n] + [r];
  }

  lemma TowerPush<T>(lt: (T, T) -> bool, stable: seq<seq<T>>, n: nat, r: seq<T>)
    requires n <= |stable| && AllSorted(lt, stable) && Tower(stable)
    requires Sorted(lt, r) && r != [] && (n > 0 ==> |stable[n - 1]| > 2 * |r|)
    ensures AllSorted(lt, stable[..n] + [r]) && Tower(stable[..n] + [r])
  {
    var s := stable[..n] + [r];
    forall b | b in s
      ensures Sorted(lt, b) && b != []
    {
      assert b in stable[..n] ==> b in stable;
    }
    forall i, j | 0 <= i < j < |s|
      ensures |s[i]| > 2 * |s[j]|
    {
      assert i < n - 1 ==> |stable[i]| > 2 * |stable[n - 1]|;
    }
  }

  /** Merges a list of batches, the last one first. */
  method MergeAll<T(!new, ==)>(lt: (T, T) -> bool, batches: seq<seq<T>>) returns (r: seq<T>)
    requires StrictTotal(lt) && AllSorted(lt, batches)
    ensures Sorted(lt, r) && Elems(r) == Union(batches)
  {
    r := [];
    var rest := batches;
    while rest != []
      invariant |rest| <= |batches| && rest == batches[..|rest|]
      invariant Sorted(lt, r) && Union(rest) + Elems(r) == Union(batches)
    {
      var n := |rest| - 1;
      assert rest[n] == batches[n] && rest[n] in batches;
      assert rest == rest[..n] + [rest[n]];
      UnionSnoc(rest[..n], rest[n]);
      r := Merge(lt, r, rest[n]);
      rest := rest[..n];
    }
  }

  /** Restricts `toAdd` to the tuples in no stable batch. */
  method Deduplicate<T(!new, ==)>(lt: (T, T) -> bool, stable: seq<seq<T>>, toAdd: seq<T>) returns (r: seq<T>)
    requires StrictTotal(lt) && AllSorted(lt, stable) && Sorted(lt, toAdd)
    ensures Sorted(lt, r) && Elems(r) == Elems(toAdd) - Union(stable)
  {
    r := toAdd;
    for i := 0 to |stable|
      invariant Sorted(lt, r) && Elems(r) == Elems(toAdd) - Union(stable[..i])
    {
      assert stable[i] in stable;
      r := RetainAbsent(lt, r, stable[i]);
      assert stable[..i + 1] == stable[..i] + [stable[i]];
      UnionSnoc(stable[..i], stable[i]);
    }
    assert stable[..|stable|] == stable;
  }

  /** The stages of a variable, as a value. */
  datatype Stages<T> = Stages(distinct: bool, stable: seq<seq<T>>, recent: seq<T>, toAdd: seq<seq<T>>) {
    ghost predicate Valid(lt: (T, T) -> bool) {
      && AllSorted(lt, stable) && Sorted(lt, recent) && AllSorted(lt, toAdd)
      && Tower(stable) && NoneEmpty(toAdd)
      && (distinct ==> PairwiseDisjoint(stable + [recent]))
    }

    /** What the rules may read. */
    ghost function Visible(): set<T> {
      Union(stable) + Elems(recent)
    }

    ghost function All(): set<T> {
      Visible() + Union(toAdd)
    }
  }

  /** What a call of `changed` does to the stages. */
  ghost predicate Advances<T>(before: Stages<T>, after: Stages<T>) {
    && after.distinct == before.distinct
    && Union(after.stable) == before.Visible()
    && Elems(after.recent) == (if before.distinct then Union(before.toAdd) - before.Visible() else Union(before.toAdd))
    && after.toAdd == []
  }

  /** Nothing is lost; everything visible is stable; and a distinct variable shows a
      tuple as recent once only. */
  lemma AdvancesConserves<T>(before: Stages<T>, after: Stages<T>)
    requires Advances(before, after)
    ensures after.All() == before.All() && after.Visible() == before.All()
    ensures before.distinct ==> Elems(after.recent) !! before.Visible()
    ensures before.distinct && after.recent != [] ==> before.Visible() < after.Visible()
  {
    assert Union<T>([]) == {};
    assert |after.recent| > 0 ==> after.recent[0] in Elems(after.recent);
  }

  class Variable<T(!new, ==)> {
    const lt: (T, T) -> bool
    const distinct: bool
    var stable: seq<seq<T>>
    var recent: seq<T>
    var toAdd: seq<seq<T>>

    ghost function View(): Stages<T>
      reads this
    {
      Stages(distinct, stable, recent, toAdd)
    }

    ghost predicate Valid()
      reads this
    {
      StrictTotal(lt) && View().Valid(lt)
    }

    constructor (lt: (T, T) -> bool, distinct: bool)
      requires StrictTotal(lt)
      ensures Valid() && this.lt == lt && View() == Stages(distinct, [], [], [])
    {
      this.lt, this.distinct := lt, distinct;
      stable, recent, toAdd := [], [], [];
    }

    /** Inserts a relation; an empty one is ignored. */
    method Insert(relation: seq<T>)
      requires Valid() && Sorted(lt, relation)
      modifies this`toAdd
      ensures Valid()
      ensures View() == old(View()).(toAdd := toAdd)
      ensures Union(toAdd) == old(Union(toAdd)) + Elems(relation)
    {
      UnionSnoc(toAdd, relation);
      NoElems(relation);
      if relation != [] {
        toAdd := toAdd + [relation];
      }
    }

    /** Moves every tuple on by one stage; true when there are recent tuples. */
    method Changed() returns (result: bool)
      requires Valid()
      modifies this`stable, this`recent, this`toAdd
      ensures Valid()
      ensures Advances(old(View()), View())
      ensures result <==> recent != []
    {
      assert View().distinct ==> PairwiseDisjoint(stable + [recent]);
      if recent != [] {
        stable := FoldRecent(lt, stable, recent);
        recent := [];
      }
      assert distinct ==> PairwiseDisjoint(stable) by {
        if recent == [] && old(recent) == [] && distinct {
          DisjointPrefix(stable, recent);
        }
      }
      assert Union<T>([]) == {};
      if distinct {
        DisjointSnoc(stable, []);
      }
      if toAdd != [] {
        var added := MergeAll(lt, toAdd);
        toAdd := [];
        if distinct {
          added := Deduplicate(lt, stable, added);
          DisjointSnoc(stable, added);
        }
        recent := added;
      }
      return recent != [];
    }

    /** Flattens a variable whose iteration is over; `None` is the failed assertion
        that tuples are still on their way. */
    method Complete() returns (r: Option<seq<T>>)
      requires Valid()
      modifies this`stable
      ensures r.None? <==> recent != [] || toAdd != []
      ensures r.Some? ==> Sorted(lt, r.value) && Elems(r.value) == old(View()).All()
    {
      if recent != [] || toAdd != [] {
        return None;
      }
      assert Union<T>([]) == {};
      var result := MergeAll(lt, stable);
      stable := [];
      return Some(result);
    }
  }

  lemma DisjointPrefix<T>(s: seq<seq<T>>, r: seq<T>)
    requires PairwiseDisjoint(s + [r])
    ensures PairwiseDisjoint(s)
  {
    forall i, j | 0 <= i < j < |s|
      ensures Elems(s[i]) !! Elems(s[j])
    {
      assert (s + [r])[i] == s[i] && (s + [r])[j] == s[j];
    }
  }

  lemma DisjointSnoc<T>(s: seq<seq<T>>, r: seq<T>)
    requires PairwiseDisjoint(s) && Elems(r) !! Union(s)
    ensures PairwiseDisjoint(s + [r])
  {
    forall i | 0 <= i < |s|
      ensures Elems(s[i]) !! Elems(r)
    {
      assert s[i] in s;
      assert Elems(s[i]) <= Union(s);
    }
  }
}
