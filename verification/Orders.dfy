/** Total orders, strictly sorted sequences and the lexicographic order of pairs.

    Every tuple type of the Datalog engine is ordered; the order is passed around
    as a strict "less than" function. */
module Orders {

  /** What an implementation of `Ord` promises about its strict order. */
  ghost predicate StrictTotal<T(!new)>(lt: (T, T) -> bool) {
    && (forall x :: !lt(x, x))
    && (forall x, y, z :: lt(x, y) && lt(y, z) ==> lt(x, z))
    && (forall x, y :: x == y || lt(x, y) || lt(y, x))
  }

  /** Ascending without duplicates: the representation invariant of a relation. */
  ghost predicate Sorted<T>(lt: (T, T) -> bool, s: seq<T>) {
    forall i, j :: 0 <= i < j < |s| ==> lt(s[i], s[j])
  }

  ghost function Elems<T>(s: seq<T>): set<T> {
    set x | x in s
  }

  lemma NoElems<T>(s: seq<T>)
    ensures Elems(s) == {} <==> s == []
  {
    assert |s| > 0 ==> s[0] in Elems(s);
  }

  /** The union of a list of batches. */
  ghost function Union<T>(batches: seq<seq<T>>): set<T> {
    set b, x | b in batches && x in b :: x
  }

  /** The order Rust derives for pairs. */
  function Lex<K(==), V>(ltK: (K, K) -> bool, ltV: (V, V) -> bool): ((K, V), (K, V)) -> bool {
    (a: (K, V), b: (K, V)) => ltK(a.0, b.0) || (a.0 == b.0 && ltV(a.1, b.1))
  }

  lemma LexIsStrictTotal<K(!new), V(!new)>(ltK: (K, K) -> bool, ltV: (V, V) -> bool)
    requires StrictTotal(ltK) && StrictTotal(ltV)
    ensures StrictTotal(Lex(ltK, ltV))
  {
    var lt := Lex(ltK, ltV);
    forall x, y, z | lt(x, y) && lt(y, z)
      ensures lt(x, z)
    {
      assert ltK(x.0, y.0) || x.0 == y.0;
      assert ltK(y.0, z.0) || y.0 == z.0;
    }
    forall x: (K, V), y: (K, V)
      ensures x == y || lt(x, y) || lt(y, x)
    {
      assert x.0 == y.0 || ltK(x.0, y.0) || ltK(y.0, x.0);
      assert x.1 == y.1 || ltV(x.1, y.1) || ltV(y.1, x.1);
    }
  }

  /** The elements kept by a predicate, in order. */
  function Filter<T>(p: T -> bool, s: seq<T>): (r: seq<T>) {
    if s == [] then []
    else
      var last := s[|s| - 1];
      Filter(p, s[..|s| - 1]) + if p(last) then [last] else []
  }

  lemma FilterElems<T>(p: T -> bool, s: seq<T>)
    ensures forall x :: x in Filter(p, s) ==> x in s && p(x)
    ensures forall x :: x in s && p(x) ==> x in Filter(p, s)
  {
    if s != [] {
      var n := |s| - 1;
      FilterElems(p, s[..n]);
      assert s == s[..n] + [s[n]];
    }
  }

  /** Filtering a strictly sorted sequence leaves it strictly sorted. */
  lemma {:induction false} FilterSorted<T>(lt: (T, T) -> bool, p: T -> bool, s: seq<T>)
    requires Sorted(lt, s)
    ensures Sorted(lt, Filter(p, s))
  {
    if s != [] {
      var n := |s| - 1;
      FilterSorted(lt, p, s[..n]);
      FilterElems(p, s[..n]);
      var f := Filter(p, s[..n]);
      forall i | 0 <= i < |f|
        ensures f[i] in s[..n]
      {
        assert f[i] in Filter(p, s[..n]);
      }
    }
  }

  /** A set has only one strictly sorted listing, so a contract that fixes the
      elements of a sorted result fixes the result. */
  lemma {:induction false} SortedListingIsUnique<T(!new)>(lt: (T, T) -> bool, a: seq<T>, b: seq<T>)
    requires StrictTotal(lt) && Sorted(lt, a) && Sorted(lt, b)
    requires Elems(a) == Elems(b)
    ensures a == b
  {
    assert |b| > 0 ==> b[0] in Elems(b);
    if a != [] {
      assert a[0] in Elems(a);
      FirstIsLeast(lt, a, b[0]);
      FirstIsLeast(lt, b, a[0]);
      assert Elems(a[1..]) == Elems(a) - {a[0]} by { TailElems(lt, a); }
      assert Elems(b[1..]) == Elems(b) - {b[0]} by { TailElems(lt, b); }
      SortedListingIsUnique(lt, a[1..], b[1..]);
      assert a == [a[0]] + a[1..];
      assert b == [b[0]] + b[1..];
    }
  }

  lemma FirstIsLeast<T(!new)>(lt: (T, T) -> bool, s: seq<T>, x: T)
    requires StrictTotal(lt) && Sorted(lt, s) && s != []
    requires x in Elems(s)
    ensures x == s[0] || lt(s[0], x)
  {
  }

  lemma TailElems<T(!new)>(lt: (T, T) -> bool, s: seq<T>)
    requires StrictTotal(lt) && Sorted(lt, s) && s != []
    ensures Elems(s[1..]) == Elems(s) - {s[0]}
  {
    assert s == [s[0]] + s[1..];
    assert s[0] !in s[1..];
  }

  /** Ascending by key; keys may repeat. */
  ghost predicate KeyAscending<K, V>(ltK: (K, K) -> bool, s: seq<(K, V)>) {
    forall i, j :: 0 <= i < j < |s| ==> !ltK(s[j].0, s[i].0)
  }

  lemma SortedIsKeyAscending<K(!new), V(!new)>(ltK: (K, K) -> bool, ltV: (V, V) -> bool, s: seq<(K, V)>)
    requires StrictTotal(ltK) && Sorted(Lex(ltK, ltV), s)
    ensures KeyAscending(ltK, s)
  {
    forall i, j | 0 <= i < j < |s|
      ensures !ltK(s[j].0, s[i].0)
    {
      assert Lex(ltK, ltV)(s[i], s[j]);
    }
  }
}
