/** Treefrog leapjoin: one varying source against several fixed relations
    (src/datafrog/treefrog.rs). */
module Leapjoin {
  import opened Options
  import opened Orders
  import opened Search
  import opened Relations
  import opened Machine

  /** The leapers, by what they were built from. */
  datatype Kind<!T, !V, !K> =
    | ExtendWith(relation: seq<(K, V)>, key: T -> K)
    | ExtendAnti(relation: seq<(K, V)>, key: T -> K)
    | FilterWith(members: seq<K>, key: T -> K)
    | FilterAnti(members: seq<K>, key: T -> K)
    | PrefixFilter(prefix: T -> bool)
    | ValueFilter(keeps: (T, V) -> bool)
  {
    /** Relations are sorted and, like every vector, shorter than the address space. */
    ghost predicate Valid(ltK: (K, K) -> bool, ltV: (V, V) -> bool) {
      match this
      case ExtendWith(relation, _) => Sorted(Lex(ltK, ltV), relation) && |relation| < USIZE_MAX
      case ExtendAnti(relation, _) => Sorted(Lex(ltK, ltV), relation) && |relation| < USIZE_MAX
      case _ => true
    }

    /** Whether the leaper lets a source tuple through at all. */
    ghost predicate Passes(t: T) {
      match this
      case FilterWith(members, key) => key(t) in members
      case FilterAnti(members, key) => key(t) !in members
      case PrefixFilter(prefix) => prefix(t)
      case _ => true
    }

    /** The naive meaning: whether the leaper lets value `v` join tuple `t`. */
    ghost predicate Allows(t: T, v: V) {
      match this
      case ExtendWith(relation, key) => (key(t), v) in relation
      case ExtendAnti(relation, key) => (key(t), v) !in relation
      case ValueFilter(keeps) => keeps(t, v)
      case _ => Passes(t)
    }
  }

  /** `start` and `end` delimit the tuples with this key. */
  ghost predicate KeyRange<K(!new), V>(ltK: (K, K) -> bool, relation: seq<(K, V)>, key: K, start: nat, end: nat) {
    && start <= end <= |relation|
    && (forall i :: 0 <= i < start ==> ltK(relation[i].0, key))
    && (forall i :: start <= i < end ==> relation[i].0 == key)
    && (forall i :: end <= i < |relation| ==> ltK(key, relation[i].0))
  }

  /** Bisect to the first tuple with the key, then gallop past the last one. */
  method FindRange<K(!new), V(!new)>(ltK: (K, K) -> bool, ltV: (V, V) -> bool, relation: seq<(K, V)>, key: K)
      returns (start: nat, end: nat)
    requires StrictTotal(ltK) && Sorted(Lex(ltK, ltV), relation)
    ensures KeyRange(ltK, relation, key, start, end)
  {
    start := BinarySearch(relation, (x: (K, V)) => ltK(x.0, key));
    var slice1 := relation[start..];
    var slice2, _ := Gallop(slice1, (x: (K, V)) => !ltK(key, x.0));
    end := |relation| - |slice2|;
    RangeFound(ltK, ltV, relation, key, start, slice2);
  }

  lemma RangeFound<K(!new), V(!new)>(ltK: (K, K) -> bool, ltV: (V, V) -> bool, relation: seq<(K, V)>, key: K,
                                     start: nat, slice2: seq<(K, V)>)
    requires StrictTotal(ltK) && Sorted(Lex(ltK, ltV), relation) && start <= |relation|
    requires Partitioned(relation, (x: (K, V)) => ltK(x.0, key))
         ==> FromFirstFailure(relation, (x: (K, V)) => ltK(x.0, key), relation[start..])
    requires Partitioned(relation[start..], (x: (K, V)) => !ltK(key, x.0))
         ==> FromFirstFailure(relation[start..], (x: (K, V)) => !ltK(key, x.0), slice2)
    ensures |slice2| <= |relation| && KeyRange(ltK, relation, key, start, |relation| - |slice2|)
  {
    var below, upTo := (x: (K, V)) => ltK(x.0, key), (x: (K, V)) => !ltK(key, x.0);
    var slice1 := relation[start..];
    SortedIsKeyAscending(ltK, ltV, relation);
    assert Partitioned(relation, below);
    assert Partitioned(slice1, upTo) by {
      forall i, j | 0 <= i < j < |slice1| && upTo(slice1[j])
        ensures upTo(slice1[i])
      {
        assert !ltK(relation[start + j].0, relation[start + i].0);
      }
    }
    var end := |relation| - |slice2|;
    forall i | 0 <= i < start
      ensures ltK(relation[i].0, key)
    {
      assert below(relation[i]);
    }
    forall i | start <= i < end
      ensures relation[i].0 == key
    {
      assert upTo(slice1[i - start]);
      assert !below(relation[start..][i - start]);
    }
    forall i | end <= i < |relation|
      ensures ltK(key, relation[i].0)
    {
      assert !upTo(slice2[i - end]);
    }
  }

  /** The values of a slice. */
  function Column<K, V>(pairs: seq<(K, V)>): (r: seq<V>)
    ensures |r| == |pairs|
  {
    seq(|pairs|, i requires 0 <= i < |pairs| => pairs[i].1)
  }

  /** Within one key the values are strictly ascending, and are the values of the key. */
  lemma RangeColumn<K(!new), V(!new)>(ltK: (K, K) -> bool, ltV: (V, V) -> bool, relation: seq<(K, V)>, key: K,
                                      start: nat, end: nat)
    requires StrictTotal(ltK) && StrictTotal(ltV) && Sorted(Lex(ltK, ltV), relation)
    requires KeyRange(ltK, relation, key, start, end)
    ensures Sorted(ltV, Column(relation[start..end]))
    ensures forall v :: v in Column(relation[start..end]) <==> (key, v) in relation
  {
    var slice := relation[start..end];
    var column := Column(slice);
    forall i, j | 0 <= i < j < |column|
      ensures ltV(column[i], column[j])
    {
      assert Lex(ltK, ltV)(relation[start + i], relation[start + j]);
    }
    forall v
      ensures v in column <==> (key, v) in relation
    {
      if v in column {
        var i :| 0 <= i < |column| && column[i] == v;
        assert relation[start + i] == (key, v);
      }
      if (key, v) in relation {
        var i :| 0 <= i < |relation| && relation[i] == (key, v);
        assert start <= i < end;
        assert column[i - start] == v;
      }
    }
  }

  /** Gallops a cursor over the pairs of one key to the first value not below `v`. */
  method Seek<K(!new), V(!new)>(ltV: (V, V) -> bool, pairs: seq<(K, V)>, c: nat, v: V) returns (n: nat)
    requires StrictTotal(ltV) && Sorted(ltV, Column(pairs)) && c <= |pairs|
    ensures c <= n <= |pairs|
    ensures forall j :: c <= j < n ==> ltV(pairs[j].1, v)
    ensures n < |pairs| ==> !ltV(pairs[n].1, v)
  {
    var slice, _ := Gallop(pairs[c..], (kv: (K, V)) => ltV(kv.1, v));
    n := |pairs| - |slice|;
    Sought(ltV, pairs, c, v, slice);
  }

  lemma Sought<K(!new), V(!new)>(ltV: (V, V) -> bool, pairs: seq<(K, V)>, c: nat, v: V, slice: seq<(K, V)>)
    requires StrictTotal(ltV) && Sorted(ltV, Column(pairs)) && c <= |pairs|
    requires Partitioned(pairs[c..], (kv: (K, V)) => ltV(kv.1, v))
         ==> FromFirstFailure(pairs[c..], (kv: (K, V)) => ltV(kv.1, v), slice)
    ensures c <= |pairs| - |slice|
    ensures forall j :: c <= j < |pairs| - |slice| ==> ltV(pairs[j].1, v)
    ensures slice != [] ==> !ltV(pairs[|pairs| - |slice|].1, v)
  {
    var rest, cmp, column := pairs[c..], (kv: (K, V)) => ltV(kv.1, v), Column(pairs);
    assert Partitioned(rest, cmp) by {
      forall i, j | 0 <= i < j < |rest| && cmp(rest[j])
        ensures cmp(rest[i])
      {
        assert ltV(column[c + i], column[c + j]);
      }
    }
    var n := |pairs| - |slice|;
    forall j | c <= j < n
      ensures ltV(pairs[j].1, v)
    {
      assert cmp(rest[j - c]);
    }
    assert slice != [] ==> slice[0] == pairs[n] && !cmp(slice[0]);
  }

  /** `values.retain` with a moving cursor: keeps the values that are (`present`) or
      are not among the pairs' values. */
  method Retain<K(!new), V(!new, ==)>(ltV: (V, V) -> bool, pairs: seq<(K, V)>, values: seq<V>, present: bool)
    returns (r: seq<V>)
    requires StrictTotal(ltV) && Sorted(ltV, Column(pairs)) && Sorted(ltV, values)
    ensures Sorted(ltV, r)
    ensures forall v :: v in r <==> v in values && (v in Column(pairs) <==> present)
  {
    r := [];
    ghost var column := Column(pairs);
    ghost var keep := v => v in column <==> present;
    var c: nat := 0;
    for i := 0 to |values|
      invariant c <= |pairs| && r == Filter(keep, values[..i])
      invariant forall j :: 0 <= j < c && i < |values| ==> ltV(column[j], values[i])
    {
      var v := values[i];
      c := Seek(ltV, pairs, c, v);
      CursorDecides(ltV, column, c, v);
      assert values[..i + 1][..i] == values[..i];
      if (c < |pairs| && pairs[c].1 == v) == present {
        r := r + [v];
      }
      assert i + 1 < |values| ==> ltV(v, values[i + 1]);
    }
    assert values[..|values|] == values;
    FilterSorted(ltV, keep, values);
    FilterElems(keep, values);
  }

  /** A leaper; only `ExtendWith` uses the range that `count` leaves behind. */
  class Leaper<T, V(!new, ==), K(!new, ==)> {
    const kind: Kind<T, V, K>
    var start: nat
    var end: nat

    constructor (kind: Kind<T, V, K>)
      ensures this.kind == kind
    {
      this.kind := kind;
      start, end := 0, 0;
    }

    /** The stored range is the one for tuple `t`. */
    ghost predicate Current(ltK: (K, K) -> bool, t: T)
      reads this
    {
      kind.ExtendWith? ==> KeyRange(ltK, kind.relation, kind.key(t), start, end)
    }

    /** How many values the leaper would propose: none, a number, or no bound. */
    method Count(ltK: (K, K) -> bool, ltV: (V, V) -> bool, t: T) returns (count: nat)
      requires StrictTotal(ltK) && kind.Valid(ltK, ltV)
      modifies this
      ensures Current(ltK, t)
      ensures kind.ExtendWith? ==> count == end - start < USIZE_MAX
      ensures !kind.ExtendWith? ==> count == if kind.Passes(t) then USIZE_MAX else 0
    {
      match kind
      case ExtendWith(relation, key) =>
        start, end := FindRange(ltK, ltV, relation, key(t));
        return end - start;
      case FilterWith(members, key) =>
        return if key(t) in members then USIZE_MAX else 0;
      case FilterAnti(members, key) =>
        return if key(t) in members then 0 else USIZE_MAX;
      case PrefixFilter(prefix) =>
        return if prefix(t) then USIZE_MAX else 0;
      case ExtendAnti(_, _) =>
        return USIZE_MAX;
      case ValueFilter(_) =>
        return USIZE_MAX;
    }

    /** Only `ExtendWith` can propose; every other leaper panics here. */
    method Propose(ltK: (K, K) -> bool, ltV: (V, V) -> bool, t: T) returns (values: seq<V>)
      requires StrictTotal(ltK) && StrictTotal(ltV) && kind.Valid(ltK, ltV)
      requires kind.ExtendWith? && Current(ltK, t)
      ensures Sorted(ltV, values)
      ensures forall v :: v in values <==> kind.Allows(t, v)
    {
      RangeColumn(ltK, ltV, kind.relation, kind.key(t), start, end);
      values := Column(kind.relation[start..end]);
    }

    /** Restricts the values to the allowed ones. Filters on the source tuple do
        nothing here: they have already let the tuple pass. */
    method Intersect(ltK: (K, K) -> bool, ltV: (V, V) -> bool, t: T, values: seq<V>) returns (r: seq<V>)
      requires StrictTotal(ltK) && StrictTotal(ltV) && kind.Valid(ltK, ltV)
      requires Current(ltK, t) && kind.Passes(t) && Sorted(ltV, values)
      ensures Sorted(ltV, r)
      ensures forall v :: v in r <==> v in values && kind.Allows(t, v)
    {
      match kind
      case ExtendWith(relation, key) =>
        RangeColumn(ltK, ltV, relation, key(t), start, end);
        r := Retain(ltV, relation[start..end], values, true);
      case ExtendAnti(relation, key) =>
        var start, end := FindRange(ltK, ltV, relation, key(t));
        RangeColumn(ltK, ltV, relation, key(t), start, end);
        var slice := relation[start..end];
        if slice != [] {
          r := Retain(ltV, slice, values, false);
        } else {
          assert Column(slice) == [];
          r := values;
        }
      case ValueFilter(keeps) =>
        ghost var p := v => keeps(t, v);
        FilterSorted(ltV, p, values);
        FilterElems(p, values);
        r := Filter(v => keeps(t, v), values);
      case _ =>
        r := values;
    }
  }

  ghost predicate AllAllow<T, V, K>(kinds: seq<Kind<T, V, K>>, t: T, v: V) {
    forall i :: 0 <= i < |kinds| ==> kinds[i].Allows(t, v)
  }

  /** No leaper bounds the values of this tuple: the engine's assertion fails. */
  ghost predicate Unbounded<T, V, K>(kinds: seq<Kind<T, V, K>>, t: T) {
    forall i :: 0 <= i < |kinds| ==> !kinds[i].ExtendWith? && kinds[i].Passes(t)
  }

  /** What can be joined: several leapers, or one that extends. A lone filter is joined
      by `FilterJoin`. */
  ghost predicate Joinable<T, V, K>(kinds: seq<Kind<T, V, K>>) {
    |kinds| >= 2 || (|kinds| == 1 && kinds[0].ExtendWith?)
  }

  ghost predicate ValidLeapers<T, V(!new), K(!new)>(ltK: (K, K) -> bool, ltV: (V, V) -> bool,
                                                    leapers: seq<Leaper<T, V, K>>) {
    && StrictTotal(ltK) && StrictTotal(ltV) && Joinable(Kinds(leapers))
    && (forall i :: 0 <= i < |leapers| ==> leapers[i].kind.Valid(ltK, ltV))
    && (forall i, j :: 0 <= i < j < |leapers| ==> leapers[i] != leapers[j])
  }

  ghost function Kinds<T, V(!new), K(!new)>(leapers: seq<Leaper<T, V, K>>): (r: seq<Kind<T, V, K>>)
    ensures |r| == |leapers| && forall i :: 0 <= i < |r| ==> r[i] == leapers[i].kind
  {
    seq(|leapers|, i requires 0 <= i < |leapers| => leapers[i].kind)
  }

  /** Counts with every leaper and picks the first with the fewest values. */
  method ForEachCount<T, V(!new,
        ==), K(!new, ==)>(ltK: (K, K) -> bool, ltV: (V, V) -> bool, leapers: seq<Leaper<T, V, K>>, t: T)
      returns (minIndex: nat, minCount: nat)
    requires ValidLeapers(ltK, ltV, leapers)
    modifies leapers
    ensures forall i :: 0 <= i < |leapers| ==> leapers[i].Current(ltK, t)
    ensures minCount <= USIZE_MAX
    ensures minCount == USIZE_MAX <==> Unbounded(Kinds(leapers), t)
    ensures minCount == 0 ==> forall v :: !AllAllow(Kinds(leapers), t, v)
    ensures 0 < minCount < USIZE_MAX ==> minIndex < |leapers| && leapers[minIndex].kind.ExtendWith?
    ensures 0 < minCount < USIZE_MAX ==> minCount == leapers[minIndex].end - leapers[minIndex].start
    ensures forall i :: 0 <= i < |leapers| && leapers[i].kind.ExtendWith? ==>
              minCount <= leapers[i].end - leapers[i].start
    ensures 0 < minCount ==> forall i :: 0 <= i < |leapers| ==> leapers[i].kind.Passes(t)
  {
    hide StrictTotal, KeyRange;
    ghost var kinds := Kinds(leapers);
    minIndex, minCount := USIZE_MAX, USIZE_MAX;
    for i := 0 to |leapers|
      invariant forall j :: 0 <= j < i ==> leapers[j].Current(ltK, t)
      invariant minCount <= USIZE_MAX
      invariant minCount == USIZE_MAX <==> forall j :: 0 <= j < i ==> !kinds[j].ExtendWith? && kinds[j].Passes(t)
      invariant minCount < USIZE_MAX ==> minIndex < i
      invariant 0 < minCount < USIZE_MAX ==> kinds[minIndex].ExtendWith?
      invariant 0 < minCount < USIZE_MAX ==> minCount == leapers[minIndex].end - leapers[minIndex].start
      invariant forall j :: 0 <= j < i && kinds[j].ExtendWith? ==> minCount <= leapers[j].end - leapers[j].start
      invariant minCount == 0 ==> forall v :: !kinds[minIndex].Allows(t, v)
      invariant 0 < minCount ==> forall j :: 0 <= j < i ==> kinds[j].Passes(t)
    {
      var count := leapers[i].Count(ltK, ltV, t);
      if count == 0 {
        NothingProposed(ltK, leapers[i], t);
      }
      if minCount > count {
        minIndex, minCount := i, count;
      }
    }
    if minCount == 0 {
      forall v
        ensures !AllAllow(kinds, t, v)
      {
        assert !kinds[minIndex].Allows(t, v);
      }
    }
  }

  lemma NothingProposed<T, V(!new), K(!new)>(ltK: (K, K) -> bool, leaper: Leaper<T, V, K>, t: T)
    requires StrictTotal(ltK) && leaper.Current(ltK, t)
    requires leaper.kind.ExtendWith? ==> leaper.start == leaper.end
    requires !leaper.kind.ExtendWith? ==> !leaper.kind.Passes(t)
    ensures forall v :: !leaper.kind.Allows(t, v)
  {
    if leaper.kind.ExtendWith? {
      var relation := leaper.kind.relation;
      forall v
        ensures (leaper.kind.key(t), v) !in relation
      {
        assert forall i :: 0 <= i < |relation| ==> relation[i].0 != leaper.kind.key(t);
      }
    }
  }

  /** The values one source tuple joins with. */
  method ValuesFor<T, V(!new,
                        ==), K(!new, ==)>(ltK: (K, K) -> bool, ltV: (V, V) -> bool, leapers: seq<Leaper<T, V, K>>, t: T)
      returns (values: Option<seq<V>>)
    requires ValidLeapers(ltK, ltV, leapers)
    modifies leapers
    ensures values.None? <==> Unbounded(Kinds(leapers), t)
    ensures values.Some? ==> Sorted(ltV, values.value)
    ensures values.Some? ==> forall v :: v in values.value <==> AllAllow(Kinds(leapers), t, v)
  {
    var minIndex, minCount := ForEachCount(ltK, ltV, leapers, t);
    if minCount == USIZE_MAX {
      return None;
    }
    if minCount == 0 {
      return Some([]);
    }
    var vs := leapers[minIndex].Propose(ltK, ltV, t);
    for i := 0 to |leapers|
      invariant forall j :: 0 <= j < |leapers| ==> leapers[j].Current(ltK, t)
      invariant Sorted(ltV, vs)
      invariant forall v :: v in vs <==>
        leapers[minIndex].kind.Allows(t, v) && forall j :: 0 <= j < i ==> leapers[j].kind.Allows(t, v)
    {
      if i != minIndex {
        vs := leapers[i].Intersect(ltK, ltV, t, vs);
      }
    }
    return Some(vs);
  }

  /** The naive meaning of a leapjoin. */
  ghost predicate Yields<T(!new), V(!new), K, R>(source: seq<T>, kinds: seq<Kind<T, V, K>>, logic: (T, V) -> R, r: R) {
    exists t, v :: t in source && AllAllow(kinds, t, v) && r == logic(t, v)
  }

  /** The leapjoin of a source with a tuple of leapers, whichever of them proposes.
      `None` is the failed assertion that some leaper restricts the values. */
  method Leapjoin<T(!new), V(!new, ==), K(!new, ==), R(!new, ==)>(
      ltK: (K, K) -> bool, ltV: (V, V) -> bool, ltR: (R, R) -> bool,
      source: seq<T>, leapers: seq<Leaper<T, V, K>>, logic: (T, V) -> R) returns (r: Option<seq<R>>)
    requires ValidLeapers(ltK, ltV, leapers) && StrictTotal(ltR)
    modifies leapers
    ensures r.None? <==> exists t :: t in source && Unbounded(Kinds(leapers), t)
    ensures r.Some? ==> Sorted(ltR, r.value)
    ensures r.Some? ==> forall x :: x in r.value <==> Yields(source, Kinds(leapers), logic, x)
  {
    ghost var kinds := Kinds(leapers);
    var result: seq<R> := [];
    for i := 0 to |source|
      invariant forall j :: 0 <= j < i ==> !Unbounded(kinds, source[j])
      invariant forall x :: x in result <==> Yields(source[..i], kinds, logic, x)
    {
      var values := ValuesFor(ltK, ltV, leapers, source[i]);
      if values.None? {
        return None;
      }
      var rows := seq(|values.value|, j requires 0 <= j < |values.value| => logic(source[i], values.value[j]));
      YieldsStep(source, i, kinds, logic, values.value, result, rows);
      result := result + rows;
    }
    assert source[..|source|] == source;
    var relation := FromVec(ltR, result);
    assert forall x :: x in relation <==> x in Elems(relation);
    assert forall x :: x in result <==> x in Elems(result);
    return Some(relation);
  }

  lemma YieldsStep<T(!new), V(!new), K, R(!new)>(source: seq<T>, i: nat, kinds: seq<Kind<T, V, K>>, logic: (T, V) -> R,
                                                 values: seq<V>, result: seq<R>, rows: seq<R>)
    requires i < |source|
    requires forall v :: v in values <==> AllAllow(kinds, source[i], v)
    requires |rows| == |values| && forall j :: 0 <= j < |rows| ==> rows[j] == logic(source[i], values[j])
    requires forall x :: x in result <==> Yields(source[..i], kinds, logic, x)
    ensures forall x :: x in result + rows <==> Yields(source[..i + 1], kinds, logic, x)
  {
    assert source[..i + 1] == source[..i] + [source[i]];
    forall x
      ensures x in result + rows <==> Yields(source[..i + 1], kinds, logic, x)
    {
      if x in rows {
        var j :| 0 <= j < |rows| && rows[j] == x;
        assert values[j] in values;
        assert source[i] in source[..i + 1];
      }
      if Yields(source[..i + 1], kinds, logic, x) && !Yields(source[..i], kinds, logic, x) {
        var t, v :| t in source[..i + 1] && AllAllow(kinds, t, v) && x == logic(t, v);
        assert t == source[i];
        assert v in values;
        var j :| 0 <= j < |values| && values[j] == v;
        assert rows[j] == x;
      }
    }
  }

  /** A filter that may stand alone: it proposes the unit value for the tuples that pass. */
  predicate StandsAlone<T, V, K>(kind: Kind<T, V, K>) {
    kind.FilterWith? || kind.FilterAnti? || kind.PrefixFilter?
  }

  /** The leapjoin with one filter alone. It never panics: the filter counts one value,
      or none. */
  method FilterJoin<T(!new), K(!new, ==), R(!new, ==)>(
      ltK: (K, K) -> bool, ltR: (R, R) -> bool, source: seq<T>, leaper: Leaper<T, (), K>,
      logic: (T, ()) -> R) returns (r: seq<R>)
    requires StrictTotal(ltK) && StrictTotal(ltR) && StandsAlone(leaper.kind)
    modifies leaper
    ensures Sorted(ltR, r)
    ensures forall x :: x in r <==> Yields(source, [leaper.kind], logic, x)
  {
    ghost var kinds := [leaper.kind];
    var result: seq<R> := [];
    for i := 0 to |source|
      invariant forall x :: x in result <==> Yields(source[..i], kinds, logic, x)
    {
      var count := leaper.Count(ltK, (a, b) => false, source[i]);
      var minCount := if count == 0 then 0 else 1;
      var values: seq<()> := [];
      if minCount > 0 {
        values := values + [()];
        assert |values| == 1;
      }
      var rows := seq(|values|, j requires 0 <= j < |values| => logic(source[i], values[j]));
      AloneAllows(leaper.kind, source[i], values);
      YieldsStep(source, i, kinds, logic, values, result, rows);
      result := result + rows;
    }
    assert source[..|source|] == source;
    r := FromVec(ltR, result);
    assert forall x :: x in r <==> x in Elems(r);
    assert forall x :: x in result <==> x in Elems(result);
  }

  lemma AloneAllows<T, K>(kind: Kind<T, (), K>, t: T, values: seq<()>)
    requires StandsAlone(kind) && values == if kind.Passes(t) then [()] else []
    ensures forall v :: v in values <==> AllAllow([kind], t, v)
  {
    forall v
      ensures v in values <==> AllAllow([kind], t, v)
    {
      assert v == ();
      assert AllAllow([kind], t, v) <==> [kind][0].Allows(t, v);
    }
  }
}
