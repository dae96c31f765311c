/** The alignment arithmetic of the arenas (frontend_arena/src/lib.rs:221-230). */
module Alignment {
  import opened Search

  ghost predicate PowerOfTwo(n: nat) {
    n > 0 && Pow2(Log2(n)) == n
  }

  /** The bits of `v` that are not in `m`. */
  function AndNot(v: nat, m: nat): nat {
    if v == 0 then 0
    else (if v % 2 == 1 && m % 2 == 0 then 1 else 0) + 2 * AndNot(v / 2, m / 2)
  }

  lemma SmallMultiple(t: int, d: int)
    requires -d < t * d < d
    ensures t == 0
  {
    assert t >= 1 ==> (t - 1) * d >= 0;
    assert t <= -1 ==> (-1 - t) * d >= 0;
  }

  lemma ModIs(x: int, q: int, r: int, d: int)
    requires 0 <= r < d && x == q * d + r
    ensures x % d == r
  {
    var t := x / d - q;
    assert t * d == r - x % d by {
      assert x == x / d * d + x % d;
    }
    SmallMultiple(t, d);
  }

  predicate Multiple(x: int, d: nat) {
    d > 0 && x % d == 0
  }

  lemma MultipleOf(q: int, d: nat)
    requires d > 0
    ensures Multiple(q * d, d)
  {
    ModIs(q * d, q, 0, d);
  }

  /** Sums and differences of multiples of `d` are multiples of `d`. */
  lemma MultipleSum(x: int, y: int, d: nat)
    requires Multiple(x, d) && Multiple(y, d)
    ensures Multiple(x + y, d) && Multiple(x - y, d)
  {
    var p, q := x / d, y / d;
    assert x == p * d && y == q * d;
    ModIs(x + y, p + q, 0, d);
    ModIs(x - y, p - q, 0, d);
  }

  /** A multiple of a multiple of `d`. */
  lemma MultipleTrans(x: int, y: nat, d: nat)
    requires Multiple(x, y) && Multiple(y, d)
    ensures Multiple(x, d)
  {
    var p, q := x / y, y / d;
    assert x == p * y && y == q * d;
    assert x == p * q * d;
    MultipleOf(p * q, d);
  }

  /** Different multiples of `d` are at least `d` apart. */
  lemma MultiplesApart(m: int, n: int, d: nat)
    requires Multiple(m, d) && Multiple(n, d) && m < n
    ensures m + d <= n
  {
    MultipleSum(n, m, d);
    assert n - m == (n - m) / d * d;
  }

  lemma {:induction false} AndNotNothing(v: nat)
    ensures AndNot(v, 0) == v
  {
    if v > 0 {
      AndNotNothing(v / 2);
    }
  }

  function Rem(v: nat, d: nat): (r: nat)
    requires d > 0
    ensures r <= v
  {
    v % d
  }

  /** The remainder by an even number, from the remainder of the half. */
  lemma HalfRemainder(v: nat, half: nat)
    requires half > 0
    ensures Rem(v, 2 * half) == 2 * Rem(v / 2, half) + v % 2
  {
    var h := v / 2;
    var q, r := h / half, h % half;
    assert h == q * half + r;
    assert q * (2 * half) == 2 * (q * half);
    ModIs(v, q, 2 * r + v % 2, 2 * half);
  }

  lemma AndNotOdd(v: nat, m: nat)
    ensures AndNot(v, 2 * m + 1) == 2 * AndNot(v / 2, m)
  {
    assert (2 * m + 1) / 2 == m && (2 * m + 1) % 2 == 1;
  }

  /** Clearing the `k` lowest bits takes the remainder by 2^k away. */
  lemma {:induction false} AndNotLow(v: nat, k: nat)
    ensures AndNot(v, Pow2(k) - 1) == v - Rem(v, Pow2(k))
  {
    hide AndNot, Rem;
    if k == 0 {
      AndNotNothing(v);
      RemOne(v);
    } else {
      var half, h := Pow2(k - 1), v / 2;
      AndNotOdd(v, half - 1);
      HalfRemainder(v, half);
      AndNotLow(h, k - 1);
      assert Pow2(k) == 2 * half && v == 2 * h + v % 2;
      assert 2 * (half - 1) + 1 == Pow2(k) - 1;
    }
  }

  lemma RemOne(v: nat)
    ensures Rem(v, 1) == 0
  {
  }

  lemma RemainderAway(v: nat, d: nat)
    requires d > 0
    ensures Multiple(v - v % d, d) && v - v % d <= v < v - v % d + d
  {
    assert v - v % d == v / d * d;
    MultipleOf(v / d, d);
  }

  /** The greatest multiple of `align` that is not above `val`: the mask clears the low
      bits. */
  function AlignDown(val: nat, align: nat): (r: nat)
    requires PowerOfTwo(align)
    ensures Multiple(r, align) && r <= val < r + align
  {
    AndNotLow(val, Log2(align));
    RemainderAway(val, align);
    AndNot(val, align - 1)
  }

  /** The least multiple of `align` that is not below `val`. */
  function AlignUp(val: nat, align: nat): (r: nat)
    requires PowerOfTwo(align)
    ensures Multiple(r, align) && val <= r < val + align
  {
    AlignDown(val + align - 1, align)
  }

  /** Between two powers of two the smaller divides the greater. */
  lemma {:induction false} PowersDivide(i: nat, j: nat)
    requires i <= j
    ensures Multiple(Pow2(j), Pow2(i))
  {
    if i == j {
      MultipleOf(1, Pow2(i));
    } else {
      PowersDivide(i, j - 1);
      assert Pow2(j) == 2 * Pow2(j - 1);
      MultipleOf(2, Pow2(j - 1));
      MultipleTrans(Pow2(j), Pow2(j - 1), Pow2(i));
    }
  }

  lemma PowersOfTwoDivide(a: nat, b: nat)
    requires PowerOfTwo(a) && PowerOfTwo(b) && a <= b
    ensures Multiple(b, a)
  {
    Log2AtLeast(Log2(a), b);
    PowersDivide(Log2(a), Log2(b));
  }

  lemma {:induction false} Log2OfPower(k: nat)
    ensures Log2(Pow2(k)) == k && PowerOfTwo(Pow2(k))
  {
    if k > 0 {
      assert Pow2(k) / 2 == Pow2(k - 1);
      Log2OfPower(k - 1);
    }
  }
}
