/** Relations: strictly sorted vectors (src/datafrog/mod.rs:44-207). */
module Relations {
  import opened Orders
  import opened Search

  lemma PushSorted<T(!new)>(lt: (T, T) -> bool, r: seq<T>, x: T)
    requires StrictTotal(lt) && Sorted(lt, r)
    requires r != [] ==> lt(r[|r| - 1], x)
    ensures Sorted(lt, r + [x])
    ensures forall y :: y in r ==> lt(y, x)
  {
    forall i | 0 <= i < |r|
      ensures lt(r[i], x)
    {
    }
  }

  /** `r` lists, strictly ascending, the elements of `a[..i]` and of `b[..j]`, and
      everything still to come is larger. */
  ghost predicate Merged<T(!new)>(lt: (T, T) -> bool, a: seq<T>, i: nat, b: seq<T>, j: nat, r: seq<T>) {
    && i <= |a| && j <= |b|
    && Sorted(lt, r) && r != []
    && Elems(r) == Elems(a[..i]) + Elems(b[..j])
    && (i < |a| ==> lt(r[|r| - 1], a[i]))
    && (j < |b| ==> lt(r[|r| - 1], b[j]))
  }

  lemma ElemsPush<T>(s: seq<T>, i: nat)
    requires i < |s|
    ensures Elems(s[..i + 1]) == Elems(s[..i]) + {s[i]}
  {
    assert s[..i + 1] == s[..i] + [s[i]];
  }

  lemma ElemsConcat<T>(a: seq<T>, b: seq<T>)
    ensures Elems(a + b) == Elems(a) + Elems(b)
  {
  }

  /** Taking the next element of the second list. */
  lemma MergeTakesSecond<T(!new)>(lt: (T, T) -> bool, a: seq<T>, i: nat, b: seq<T>, j: nat, r: seq<T>)
    requires StrictTotal(lt) && Sorted(lt, a) && Sorted(lt, b)
    requires Merged(lt, a, i, b, j, r) && j < |b| && (i < |a| ==> lt(b[j], a[i]))
    ensures Merged(lt, a, i, b, j + 1, r + [b[j]])
  {
    PushSorted(lt, r, b[j]);
    ElemsPush(b, j);
    ElemsConcat(r, [b[j]]);
  }

  /** Taking the next element of the first list, and its twin in the second. */
  lemma MergeTakesFirst<T(!new)>(lt: (T, T) -> bool, a: seq<T>, i: nat, b: seq<T>, j: nat, r: seq<T>)
    requires StrictTotal(lt) && Sorted(lt, a) && Sorted(lt, b)
    requires Merged(lt, a, i, b, j, r) && i < |a|
    requires j < |b| ==> !lt(b[j], a[i])
    ensures j < |b| && b[j] == a[i] ==> Merged(lt, a, i + 1, b, j + 1, r + [a[i]])
    ensures j < |b| && b[j] != a[i] ==> Merged(lt, a, i + 1, b, j, r + [a[i]])
    ensures j == |b| ==> Merged(lt, a, i + 1, b, j, r + [a[i]])
  {
    PushSorted(lt, r, a[i]);
    ElemsPush(a, i);
    ElemsConcat(r, [a[i]]);
    if j < |b| {
      ElemsPush(b, j);
      assert b[j] == a[i] || lt(a[i], b[j]);
    }
  }

  lemma ConcatSorted<T(!new)>(lt: (T, T) -> bool, a: seq<T>, b: seq<T>)
    requires StrictTotal(lt) && Sorted(lt, a) && Sorted(lt, b)
    requires a != [] && b != [] ==> lt(a[|a| - 1], b[0])
    ensures Sorted(lt, a + b)
  {
    forall i, j | 0 <= i < |a| && 0 <= j < |b|
      ensures lt(a[i], b[j])
    {
      assert lt(a[i], b[0]) by {
        assert i == |a| - 1 || lt(a[i], a[|a| - 1]);
      }
      assert j == 0 || lt(b[0], b[j]);
    }
  }

  /** The union of two relations. */
  method Merge<T(!new, ==)>(lt: (T, T) -> bool, left: seq<T>, right: seq<T>) returns (r: seq<T>)
    requires StrictTotal(lt) && Sorted(lt, left) && Sorted(lt, right)
    ensures Sorted(lt, r) && Elems(r) == Elems(left) + Elems(right)
  {
    hide StrictTotal, Sorted;
    if left == [] {
      return right;
    }
    if right == [] {
      return left;
    }
    var a, b := left, right;
    if lt(b[0], a[0]) {
      a, b := b, a;
      Asymmetric(lt, a[0], b[0]);
    }
    if lt(a[|a| - 1], b[0]) {
      ConcatSorted(lt, a, b);
      ElemsConcat(a, b);
      return a + b;
    }
    r := [a[0]];
    var i: nat, j: nat := 1, if b[0] == a[0] then 1 else 0;
    MergeStarts(lt, a, b);
    while i < |a|
      invariant Merged(lt, a, i, b, j, r)
    {
      while j < |b| && lt(b[j], a[i])
        invariant Merged(lt, a, i, b, j, r)
      {
        MergeTakesSecond(lt, a, i, b, j, r);
        r, j := r + [b[j]], j + 1;
      }
      MergeTakesFirst(lt, a, i, b, j, r);
      if j < |b| && b[j] == a[i] {
        j := j + 1;
      }
      r, i := r + [a[i]], i + 1;
    }
    MergeEnds(lt, a, i, b, j, r);
    r := r + b[j..];
  }

  lemma Asymmetric<T(!new)>(lt: (T, T) -> bool, x: T, y: T)
    requires StrictTotal(lt) && lt(x, y)
    ensures !lt(y, x)
  {
  }

  lemma MergeStarts<T(!new)>(lt: (T, T) -> bool, a: seq<T>, b: seq<T>)
    requires StrictTotal(lt) && Sorted(lt, a) && Sorted(lt, b)
    requires a != [] && b != [] && !lt(b[0], a[0])
    ensures Merged(lt, a, 1, b, if b[0] == a[0] then 1 else 0, [a[0]])
  {
    assert a[..1] == [a[0]] && b[..1] == [b[0]];
    assert a[0] == b[0] || lt(a[0], b[0]);
  }

  lemma MergeEnds<T(!new)>(lt: (T, T) -> bool, a: seq<T>, i: nat, b: seq<T>, j: nat, r: seq<T>)
    requires StrictTotal(lt) && Sorted(lt, b) && Merged(lt, a, i, b, j, r) && i == |a|
    ensures Sorted(lt, r + b[j..]) && Elems(r + b[j..]) == Elems(a) + Elems(b)
  {
    ConcatSorted(lt, r, b[j..]);
    assert a[..i] == a && b[..j] + b[j..] == b;
    ElemsConcat(b[..j], b[j..]);
    ElemsConcat(r, b[j..]);
  }

  /** Ascending, duplicates allowed: what `sort` establishes. */
  ghost predicate Ascending<T>(lt: (T, T) -> bool, s: seq<T>) {
    forall i, j :: 0 <= i < j < |s| ==> lt(s[i], s[j]) || s[i] == s[j]
  }

  method Sort<T(!new, ==)>(lt: (T, T) -> bool, s: seq<T>) returns (r: seq<T>)
    requires StrictTotal(lt)
    ensures Ascending(lt, r) && multiset(r) == multiset(s)
  {
    hide Ascending, StrictTotal;
    r := [];
    SortedNothing(lt);
    for i := 0 to |s|
      invariant Ascending(lt, r) && multiset(r) == multiset(s[..i])
    {
      var k: nat := |r|;
      while k > 0 && lt(s[i], r[k - 1])
        invariant k <= |r|
        invariant k < |r| ==> lt(s[i], r[k])
      {
        k := k - 1;
      }
      InsertAscending(lt, r, k, s[i]);
      assert r == r[..k] + r[k..];
      assert s[..i + 1] == s[..i] + [s[i]];
      r := r[..k] + [s[i]] + r[k..];
    }
    assert s[..|s|] == s;
  }

  lemma SortedNothing<T>(lt: (T, T) -> bool)
    ensures Ascending(lt, [])
  {
  }

  lemma InsertAscending<T(!new)>(lt: (T, T) -> bool, r: seq<T>, k: nat, x: T)
    requires StrictTotal(lt) && Ascending(lt, r) && k <= |r|
    requires k > 0 ==> !lt(x, r[k - 1])
    requires k < |r| ==> lt(x, r[k])
    ensures Ascending(lt, r[..k] + [x] + r[k..])
  {
    forall i | 0 <= i < k
      ensures lt(r[i], x) || r[i] == x
    {
      assert i == k - 1 || lt(r[i], r[k - 1]) || r[i] == r[k - 1];
    }
    forall i | k <= i < |r|
      ensures lt(x, r[i])
    {
      assert i == k || lt(r[k], r[i]) || r[k] == r[i];
    }
  }

  /** Keeps the first of every run of equal elements. */
  method Dedup<T(!new, ==)>(lt: (T, T) -> bool, s: seq<T>) returns (r: seq<T>)
    requires StrictTotal(lt) && Ascending(lt, s)
    ensures Sorted(lt, r) && Elems(r) == Elems(s)
  {
    r := [];
    for i := 0 to |s|
      invariant Sorted(lt, r) && Elems(r) == Elems(s[..i])
      invariant i == 0 <==> r == []
      invariant i > 0 ==> r[|r| - 1] == s[i - 1]
    {
      ElemsPush(s, i);
      if r == [] || r[|r| - 1] != s[i] {
        PushSorted(lt, r, s[i]);
        ElemsConcat(r, [s[i]]);
        r := r + [s[i]];
      } else {
        assert s[i] in Elems(s[..i]) by { assert s[..i][i - 1] == s[i]; }
      }
    }
    assert s[..|s|] == s;
  }

  /** Sort, then drop duplicates. */
  method FromVec<T(!new, ==)>(lt: (T, T) -> bool, elements: seq<T>) returns (r: seq<T>)
    requires StrictTotal(lt)
    ensures Sorted(lt, r) && Elems(r) == Elems(elements)
    ensures elements == [] <==> r == []
  {
    var s := Sort(lt, elements);
    r := Dedup(lt, s);
    assert forall x :: x in s <==> x in multiset(s);
    assert forall x :: x in elements <==> x in multiset(elements);
    assert elements != [] ==> elements[0] in Elems(elements);
    assert r != [] ==> r[0] in Elems(r);
  }

  /** Restricts a relation to what a batch does not hold, moving a cursor through
      the batch: galloping when the batch is relatively large, stepping otherwise.
      Both cursors amount to a membership test. */
  method RetainAbsent<T(!new, ==)>(lt: (T, T) -> bool, toAdd: seq<T>, batch: seq<T>) returns (r: seq<T>)
    requires StrictTotal(lt) && Sorted(lt, toAdd) && Sorted(lt, batch)
    ensures Sorted(lt, r) && Elems(r) == Elems(toAdd) - Elems(batch)
  {
    hide StrictTotal, Sorted, Filter;
    r := [];
    ghost var p := x => x !in batch;
    FilterPush(p, toAdd, 0);
    var gallop := |batch| > 4 * |toAdd|;
    var c: nat := 0;  // the slice is batch[c..]
    for i := 0 to |toAdd|
      invariant c <= |batch| && r == Filter(p, toAdd[..i])
      invariant forall j :: 0 <= j < c && i < |toAdd| ==> lt(batch[j], toAdd[i])
    {
      var x := toAdd[i];
      c := MoveCursor(lt, batch, c, x, gallop);
      CursorDecides(lt, batch, c, x);
      FilterPush(p, toAdd, i);
      if c == |batch| || batch[c] != x {
        r := r + [x];
      }
      CursorStays(lt, toAdd, i, batch, c);
    }
    assert toAdd[..|toAdd|] == toAdd;
    FilterSorted(lt, p, toAdd);
    FilterElems(p, toAdd);
  }

  /** Moves a cursor to the first element not below `x`. */
  method MoveCursor<T(!new)>(lt: (T, T) -> bool, batch: seq<T>, from: nat, x: T, gallop: bool) returns (c: nat)
    requires StrictTotal(lt) && Sorted(lt, batch) && from <= |batch|
    requires forall j :: 0 <= j < from ==> lt(batch[j], x)
    ensures from <= c <= |batch|
    ensures forall j :: 0 <= j < c ==> lt(batch[j], x)
    ensures c < |batch| ==> !lt(batch[c], x)
  {
    if gallop {
      var slice, _ := Gallop(batch[from..], y => lt(y, x));
      CursorAdvances(lt, batch, from, x, slice);
      c := |batch| - |slice|;
    } else {
      c := from;
      while c < |batch| && lt(batch[c], x)
        invariant from <= c <= |batch|
        invariant forall j :: 0 <= j < c ==> lt(batch[j], x)
      {
        c := c + 1;
      }
    }
  }

  lemma CursorStays<T(!new)>(lt: (T, T) -> bool, s: seq<T>, i: nat, batch: seq<T>, c: nat)
    requires StrictTotal(lt) && Sorted(lt, s) && i < |s| && c <= |batch|
    requires forall j :: 0 <= j < c ==> lt(batch[j], s[i])
    ensures forall j :: 0 <= j < c && i + 1 < |s| ==> lt(batch[j], s[i + 1])
  {
    assert i + 1 < |s| ==> lt(s[i], s[i + 1]);
  }

  lemma FilterPush<T>(p: T -> bool, s: seq<T>, i: nat)
    ensures Filter(p, []) == []
    ensures i < |s| ==> Filter(p, s[..i + 1]) == Filter(p, s[..i]) + if p(s[i]) then [s[i]] else []
  {
    if i < |s| {
      assert s[..i + 1][..i] == s[..i];
    }
  }

  /** A gallop from cursor `c` leaves exactly the smaller elements behind. */
  lemma CursorAdvances<T(!new)>(lt: (T, T) -> bool, batch: seq<T>, c: nat, x: T, slice: seq<T>)
    requires StrictTotal(lt) && Sorted(lt, batch) && c <= |batch|
    requires forall j :: 0 <= j < c ==> lt(batch[j], x)
    requires Partitioned(batch[c..], y => lt(y, x)) ==> FromFirstFailure(batch[c..], y => lt(y, x), slice)
    ensures c <= |batch| - |slice| && slice == batch[|batch| - |slice|..]
    ensures forall j :: 0 <= j < |batch| - |slice| ==> lt(batch[j], x)
    ensures slice != [] ==> !lt(slice[0], x)
  {
    var rest, cmp := batch[c..], (y: T) => lt(y, x);
    assert Partitioned(rest, cmp);
    forall j | c <= j < |batch| - |slice|
      ensures lt(batch[j], x)
    {
      assert cmp(rest[j - c]);
    }
  }

  /** With everything smaller behind the cursor, the element at it decides membership. */
  lemma CursorDecides<T(!new)>(lt: (T, T) -> bool, batch: seq<T>, c: nat, x: T)
    requires StrictTotal(lt) && Sorted(lt, batch) && c <= |batch|
    requires forall j :: 0 <= j < c ==> lt(batch[j], x)
    requires c < |batch| ==> !lt(batch[c], x)
    ensures x in batch <==> c < |batch| && batch[c] == x
  {
  }
}
