/** What programs of rules compute, said without the rules: the three documented examples
    of the engine for every input, and laws between the kinds of rule
    (src/datafrog/mod.rs:291-445). */
module RuleLaws {
  import opened Options
  import opened Orders
  import opened Relations
  import opened Leapjoin
  import opened Variables
  import opened Iteration

  /** The facts of a single variable. */
  ghost function Facts<K(!new), V(!new)>(tuples: iset<(K, V)>): iset<Fact<K, V>> {
    iset f: Fact<K, V> | f.0 == 0 && f.1 in tuples
  }

  /** What one rule from a variable to itself computes. */
  ghost predicate Computes<K(!new), V(!new)>(rule: Rule<K, V>, tuples: iset<(K, V)>, x: (K, V)) {
    InLeast([rule], Facts(tuples), (0, x))
  }

  /** A set that holds the tuples and is kept by the rule holds all that is computed. */
  lemma ComputesWithin<K(!new), V(!new)>(rule: Rule<K, V>, tuples: iset<(K, V)>, u: iset<(K, V)>, x: (K, V))
    requires rule.out == 0 && tuples <= u
    requires forall y :: Derives(rule, Facts(u), y) ==> y in u
    ensures Computes(rule, tuples, x) ==> x in u
  {
    hide Derives;
    assert Closed([rule], Facts(u));
    assert Facts(tuples) <= Facts(u);
  }

  // ----- maps: the journey of a tuple -----

  function Iterated<T>(f: T -> T, n: nat, x: T): T {
    if n == 0 then x else f(Iterated(f, n - 1, x))
  }

  ghost predicate Visits<T(!new)>(f: T -> T, from: iset<T>, x: T) {
    exists n: nat, a :: a in from && x == Iterated(f, n, a)
  }

  /** A map from a variable to itself computes everything its tuples visit. */
  lemma MapVisits<K(!new), V(!new)>(logic: ((K, V)) -> (K, V), tuples: iset<(K, V)>, x: (K, V))
    ensures Computes(Map(0, 0, logic), tuples, x) <==> Visits(logic, tuples, x)
  {
    hide Iterated, InLeast;
    var rule := Map(0, 0, logic);
    var u := iset y: (K, V) | Visits(logic, tuples, y);
    forall a | a in tuples
      ensures a in u
    {
      NoStep(logic, a);
    }
    forall y | Derives(rule, Facts(u), y)
      ensures y in u
    {
      var b :| (0 as nat, b) in Facts(u) && y == logic(b);
      OneStep(logic, tuples, b);
    }
    ComputesWithin(rule, tuples, u, x);
    if Visits(logic, tuples, x) {
      VisitedIsComputed(logic, tuples, x);
    }
  }

  lemma NoStep<T>(f: T -> T, x: T)
    ensures Iterated(f, 0, x) == x
  {
  }

  lemma OneStep<T(!new)>(f: T -> T, from: iset<T>, x: T)
    requires Visits(f, from, x)
    ensures Visits(f, from, f(x))
  {
    var n: nat, a :| a in from && x == Iterated(f, n, a);
    assert f(x) == Iterated(f, n + 1, a);
  }

  lemma VisitedIsComputed<K(!new), V(!new)>(logic: ((K, V)) -> (K, V), tuples: iset<(K, V)>, x: (K, V))
    requires Visits(logic, tuples, x)
    ensures Computes(Map(0, 0, logic), tuples, x)
  {
    hide Closed;
    var n: nat, a :| a in tuples && x == Iterated(logic, n, a);
    forall w: iset<Fact<K, V>> | Facts(tuples) <= w && Closed([Map(0, 0, logic)], w)
      ensures (0, x) in w
    {
      assert (0, a) in Facts(tuples);
      Visited(logic, n, a, w);
    }
  }

  lemma {:induction false} Visited<K(!new), V(!new)>(logic: ((K, V)) -> (K, V), n: nat, a: (K, V), w: iset<Fact<K, V>>)
    requires (0, a) in w && Closed([Map(0, 0, logic)], w)
    ensures (0, Iterated(logic, n, a)) in w
    decreases n
  {
    if n > 0 {
      Visited(logic, n - 1, a, w);
      var rule: Rule<K, V> := Map(0, 0, logic);
      assert Derives([rule][0], w, Iterated(logic, n, a));
    }
  }

  // ----- antijoins: pairs turned round -----

  /** An antijoin that turns pairs round adds exactly the pairs whose key is absent. */
  lemma AntijoinTurns<N(!new)>(keys: seq<N>, single: (N, N) -> (N, N), tuples: iset<(N, N)>, x: (N, N))
    requires forall k, v :: single(k, v) == (v, k)
    ensures Computes(Antijoin(0, 0, keys, single), tuples, x) <==>
            x in tuples || (x.1 !in keys && (x.1, x.0) in tuples)
  {
    var rule := Antijoin(0, 0, keys, single);
    var u := iset y: (N, N) | y in tuples || (y.1 !in keys && (y.1, y.0) in tuples);
    forall y | Derives(rule, Facts(u), y)
      ensures y in u
    {
      var a :| (0 as nat, a) in Facts(u) && a.0 !in keys && y == single(a.0, a.1);
      assert y == (a.1, a.0) && (y.1, y.0) == a;
    }
    ComputesWithin(rule, tuples, u, x);
    if x in u {
      forall w: iset<Fact<N, N>> | Facts(tuples) <= w && Closed([rule], w)
        ensures (0, x) in w
      {
        if x !in tuples {
          assert (0, (x.1, x.0)) in w;
          assert x == single(x.1, x.0);
          assert Derives([rule][0], w, x);
        }
      }
    }
  }

  // ----- joins: pairs that are connected -----

  /** Consecutive nodes are pairs. */
  ghost predicate Walk<N(!new)>(pairs: iset<(N, N)>, path: seq<N>) {
    |path| >= 2 && forall i :: 0 <= i < |path| - 1 ==> (path[i], path[i + 1]) in pairs
  }

  ghost predicate From<N>(path: seq<N>, x: (N, N)) {
    |path| >= 2 && path[0] == x.0 && path[|path| - 1] == x.1
  }

  ghost predicate Connected<N(!new)>(pairs: iset<(N, N)>, x: (N, N)) {
    exists path :: Walk(pairs, path) && From(path, x)
  }

  ghost predicate Symmetric<N(!new)>(pairs: iset<(N, N)>) {
    forall x: (N, N) :: x in pairs ==> (x.1, x.0) in pairs
  }

  lemma {:induction false} WalkBack<N(!new)>(pairs: iset<(N, N)>, path: seq<N>) returns (back: seq<N>)
    requires Symmetric(pairs) && Walk(pairs, path)
    ensures Walk(pairs, back) && |back| == |path| && From(back, (path[|path| - 1], path[0]))
  {
    back := seq(|path|, i requires 0 <= i < |path| => path[|path| - 1 - i]);
    forall i | 0 <= i < |back| - 1
      ensures (back[i], back[i + 1]) in pairs
    {
      var j := |path| - 2 - i;
      assert (path[j], path[j + 1]) in pairs;
    }
  }

  lemma WalkOn<N(!new)>(pairs: iset<(N, N)>, p: seq<N>, q: seq<N>)
    requires Walk(pairs, p) && Walk(pairs, q) && p[|p| - 1] == q[0]
    ensures Connected(pairs, (p[0], q[|q| - 1]))
  {
    var path := p + q[1..];
    forall i | 0 <= i < |path| - 1
      ensures (path[i], path[i + 1]) in pairs
    {
      if i < |p| - 1 {
        assert (p[i], p[i + 1]) in pairs;
      } else {
        var j := i - (|p| - 1);
        assert (q[j], q[j + 1]) in pairs;
      }
    }
    assert Walk(pairs, path) && From(path, (p[0], q[|q| - 1]));
  }

  /** Joining a symmetric variable with itself on the key computes what is connected. */
  lemma JoinConnects<N(!new)>(combine: (N, N, N) -> (N, N), pairs: iset<(N, N)>, x: (N, N))
    requires Symmetric(pairs) && forall k, a, b :: combine(k, a, b) == (a, b)
    ensures Computes(Join(0, 0, 0, combine), pairs, x) <==> Connected(pairs, x)
  {
    hide Symmetric;
    var rule := Join(0, 0, 0, combine);
    var u := iset y: (N, N) | Connected(pairs, y);
    forall y | y in pairs
      ensures y in u
    {
      assert Walk(pairs, [y.0, y.1]) && From([y.0, y.1], y);
    }
    forall y | Derives(rule, Facts(u), y)
      ensures y in u
    {
      var a, b :| (0 as nat, a) in Facts(u) && (0 as nat, b) in Facts(u) && a.0 == b.0 && y == combine(a.0, a.1, b.1);
      var p :| Walk(pairs, p) && From(p, a);
      var q :| Walk(pairs, q) && From(q, b);
      var back := WalkBack(pairs, p);
      WalkOn(pairs, back, q);
    }
    ComputesWithin(rule, pairs, u, x);
    if path :| Walk(pairs, path) && From(path, x) {
      forall w: iset<Fact<N, N>> | Facts(pairs) <= w && Closed([rule], w)
        ensures (0, x) in w
      {
        Joined(combine, pairs, path, w);
        assert x == (path[0], path[|path| - 1]);
      }
    }
  }

  lemma {:induction false} Joined<N(!new)>(combine: (N, N, N) -> (N, N), pairs: iset<(N, N)>, path: seq<N>,
                                           w: iset<Fact<N, N>>)
    requires Symmetric(pairs) && forall k, a, b :: combine(k, a, b) == (a, b)
    requires Walk(pairs, path) && Facts(pairs) <= w && Closed([Join(0, 0, 0, combine)], w)
    ensures (0, (path[0], path[|path| - 1])) in w
    decreases |path|
  {
    hide Symmetric;
    var n := |path| - 1;
    assert (path[n - 1], path[n]) in pairs;
    assert (0, (path[n - 1], path[n])) in Facts(pairs);
    if n > 1 {
      assert Walk(pairs, path[..n]);
      var back := WalkBack(pairs, path[..n]);
      Joined(combine, pairs, back, w);
      var a, b := (path[n - 1], path[0]), (path[n - 1], path[n]);
      var rule: Rule<N, N> := Join(0, 0, 0, combine);
      assert (0, a) in w && (0, b) in w && a.0 == b.0 && (path[0], path[n]) == combine(a.0, a.1, b.1);
      assert Derives([rule][0], w, (path[0], path[n]));
    }
  }

  // ----- a whole run -----

  /** The pairs and the pairs turned round. */
  ghost function BothWays<N(!new)>(edges: seq<(N, N)>): iset<(N, N)> {
    iset x: (N, N) | x in edges || (x.1, x.0) in edges
  }

  ghost function Tuples<T(!new)>(s: seq<T>): iset<T> {
    iset x: T | x in s
  }

  lemma OneVariable<K(!new), V(!new)>(relation: seq<(K, V)>, st: seq<Stages<(K, V)>>)
    requires |st| == 1 && st[0].stable == [] && st[0].recent == [] && Union(st[0].toAdd) == Elems(relation)
    ensures AllFacts(st) == Facts(Tuples(relation))
  {
    assert Union<(K, V)>([]) == {};
    assert forall x :: x in relation <==> x in Elems(relation);
  }

  /** One rule, from a de-duplicating variable that starts with a relation to itself: the
      run gives what the rule computes, and ends when the rounds are enough for a finite
      universe. */
  method RunRule<K(!new, ==), V(!new, ==)>(ltK: (K, K) -> bool, ltV: (V, V) -> bool, relation: seq<(K, V)>,
                                           rule: Rule<K, V>, maxRounds: nat) returns (r: Option<seq<(K, V)>>)
    requires StrictTotal(ltK) && StrictTotal(ltV) && Sorted(Lex(ltK, ltV), relation)
    requires ValidRule(ltK, ltV, 1, rule)
    ensures r.Some? ==> Sorted(Lex(ltK, ltV), r.value)
    ensures r.Some? ==> forall x :: x in r.value <==> Computes(rule, Tuples(relation), x)
    ensures forall u :: Universe([rule], Facts(Tuples(relation)), u) && |u| < maxRounds ==> r.Some?
  {
    hide StrictTotal, AllFacts, Universe, InLeast, CyclesDistinct, Indistinct, Facts, ValidRule, Sorted, Tuples;
    LexIsStrictTotal(ltK, ltV);
    var variable := new Variable<(K, V)>(Lex(ltK, ltV), true);
    assert Union<(K, V)>(variable.toAdd) == {};
    variable.Insert(relation);
    OneVariable(relation, Views([variable]));
    DistinctSuffices([rule], Views([variable]));
    var results := Solve(ltK, ltV, [variable], [rule], maxRounds);
    r := if results.None? then None else Some(results.value[0]);
  }

  lemma BothWaysHeld<N(!new)>(edges: seq<(N, N)>, back: seq<(N, N)>, both: seq<(N, N)>)
    requires |back| == |edges| && forall i :: 0 <= i < |edges| ==> back[i] == (edges[i].1, edges[i].0)
    requires Elems(both) == Elems(edges + back)
    ensures Tuples(both) == BothWays(edges)
  {
    forall x
      ensures x in both <==> x in BothWays(edges)
    {
      assert x in both <==> x in Elems(both);
      assert x in edges + back <==> x in Elems(edges + back);
      if x in back {
        var i :| 0 <= i < |back| && back[i] == x;
        assert (x.1, x.0) == edges[i];
      }
      if (x.1, x.0) in edges {
        var i :| 0 <= i < |edges| && edges[i] == (x.1, x.0);
        assert back[i] == x;
      }
    }
  }

  /** All pairs of nodes are enough for the run. */
  lemma PairsSuffice<N(!new)>(combine: (N, N, N) -> (N, N), pairs: iset<(N, N)>, nodes: set<N>,
                              universe: set<Fact<N, N>>)
    requires forall k, a, b :: combine(k, a, b) == (a, b)
    requires Symmetric(pairs) && forall x :: x in pairs ==> x.0 in nodes
    requires forall f :: f in universe <==> f.0 == 0 && f.1.0 in nodes && f.1.1 in nodes
    ensures Universe([Join(0, 0, 0, combine)], Facts(pairs), universe)
  {
    var rule: Rule<N, N> := Join(0, 0, 0, combine);
    var facts: iset<Fact<N, N>> := iset f | f in universe;
    forall x | x in pairs
      ensures x.1 in nodes
    {
      assert (x.1, x.0) in pairs;
    }
    forall x | Derives(rule, facts, x)
      ensures (0, x) in facts
    {
      var a, b :| (0 as nat, a) in facts && (0 as nat, b) in facts && a.0 == b.0 && x == combine(a.0, a.1, b.1);
    }
  }

  /** The engine, run on a variable that is joined with itself: it ends, and gives the pairs
      of nodes that a walk along the edges connects. */
  method ConnectedPairs<N(!new, ==)>(lt: (N, N) -> bool, edges: seq<(N, N)>) returns (r: seq<(N, N)>)
    requires StrictTotal(lt)
    ensures Sorted(Lex(lt, lt), r)
    ensures forall x :: x in r <==> Connected(BothWays(edges), x)
  {
    hide StrictTotal, Computes, Connected, BothWays, Universe, Facts, Sorted;
    var back := seq(|edges|, i requires 0 <= i < |edges| => (edges[i].1, edges[i].0));
    LexIsStrictTotal(lt, lt);
    var both := FromVec(Lex(lt, lt), edges + back);
    var nodes := set x | x in both :: x.0;
    var universe: set<Fact<N, N>> := set a, b | a in nodes && b in nodes :: (0 as nat, (a, b));
    var combine := (k: N, a: N, b: N) => (a, b);
    BothWaysHeld(edges, back, both);
    TurnedRound(edges);
    PairsSuffice(combine, Tuples(both), nodes, universe);
    var result := RunRule(lt, lt, both, Join(0, 0, 0, combine), |universe| + 1);
    r := result.value;
    forall x
      ensures x in r <==> Connected(BothWays(edges), x)
    {
      JoinConnects(combine, BothWays(edges), x);
    }
  }

  lemma TurnedRound<N(!new)>(edges: seq<(N, N)>)
    ensures Symmetric(BothWays(edges))
  {
  }

  /** The documented example, for a chain of any length: every pair of its nodes. */
  method ChainPairs(n: nat) returns (r: seq<(int, int)>)
    ensures forall x, y :: (x, y) in r <==> 0 < n && 0 <= x <= n && 0 <= y <= n
  {
    hide Connected;
    var edges: seq<(int, int)> := seq(n, i requires 0 <= i < n => (i, i + 1));
    r := ConnectedPairs((a: int, b: int) => a < b, edges);
    forall x, y
      ensures (x, y) in r <==> 0 < n && 0 <= x <= n && 0 <= y <= n
    {
      ChainWalks(n, edges, x, y);
    }
  }

  /** Neighbours on the chain. */
  ghost predicate Next(n: int, a: int, b: int) {
    0 <= a <= n && 0 <= b <= n && (b == a + 1 || a == b + 1)
  }

  lemma ChainNeighbours(n: nat, edges: seq<(int, int)>)
    requires |edges| == n && forall i :: 0 <= i < n ==> edges[i] == (i, i + 1)
    ensures forall a, b :: (a, b) in BothWays(edges) <==> Next(n, a, b)
  {
    forall a, b
      ensures (a, b) in BothWays(edges) <==> Next(n, a, b)
    {
      if Next(n, a, b) && b == a + 1 {
        assert edges[a] == (a, b);
      } else if Next(n, a, b) {
        assert edges[b] == (b, a);
      }
    }
  }

  lemma ChainWalks(n: nat, edges: seq<(int, int)>, x: int, y: int)
    requires |edges| == n && forall i :: 0 <= i < n ==> edges[i] == (i, i + 1)
    ensures Connected(BothWays(edges), (x, y)) <==> 0 < n && 0 <= x <= n && 0 <= y <= n
  {
    hide BothWays;
    var pairs := BothWays(edges);
    ChainNeighbours(n, edges);
    if path :| Walk(pairs, path) && From(path, (x, y)) {
      var last := |path| - 2;
      assert (path[0], path[0 + 1]) in pairs && (path[last], path[last + 1]) in pairs;
      assert Next(n, path[0], path[1]) && Next(n, path[last], path[last + 1]);
    }
    if 0 < n && 0 <= x <= n && 0 <= y <= n {
      if x == y {
        var z := if x == 0 then 1 else x - 1;
        assert Walk(pairs, [x, z, x]) && From([x, z, x], (x, y));
      } else if x < y {
        var path := UpTheChain(pairs, n, x, y);
      } else {
        var path := UpTheChain(pairs, n, y, x);
        TurnedRound(edges);
        var back := WalkBack(pairs, path);
      }
    }
  }

  lemma UpTheChain(pairs: iset<(int, int)>, n: int, x: int, y: int) returns (path: seq<int>)
    requires forall a, b :: Next(n, a, b) ==> (a, b) in pairs
    requires 0 <= x < y <= n
    ensures Walk(pairs, path) && From(path, (x, y))
  {
    path := seq(y - x + 1, i => x + i);
    forall i | 0 <= i < |path| - 1
      ensures (path[i], path[i + 1]) in pairs
    {
      assert Next(n, x + i, x + i + 1);
    }
  }

  // ----- the kinds of rule -----

  /** Two rules that derive the same from the same facts. */
  ghost predicate SameRule<K(!new), V(!new)>(a: Rule<K, V>, b: Rule<K, V>) {
    a.out == b.out && forall facts: iset<Fact<K, V>>, x :: Derives(a, facts, x) <==> Derives(b, facts, x)
  }

  /** A program may be rewritten rule by rule. */
  lemma SameProgram<K(!new), V(!new)>(p: seq<Rule<K, V>>, q: seq<Rule<K, V>>, inserts: iset<Fact<K, V>>, f: Fact<K, V>)
    requires |p| == |q| && forall i :: 0 <= i < |p| ==> SameRule(p[i], q[i])
    ensures InLeast(p, inserts, f) <==> InLeast(q, inserts, f)
  {
    hide Derives;
    forall u: iset<Fact<K, V>>
      ensures Closed(p, u) <==> Closed(q, u)
    {
    }
  }

  /** A leapjoin with one relation is a join with it. */
  lemma ExtendIsJoin<K(!new), V(!new)>(out: nat, source: nat, relation: seq<(K, V)>, key: ((K, V)) -> K,
                                       combine: (K, V, V) -> (K, V), extend: ((K, V), V) -> (K, V))
    requires forall t: (K, V) :: key(t) == t.0
    requires forall t: (K, V), v :: extend(t, v) == combine(t.0, t.1, v)
    ensures SameRule(JoinRelation(out, source, relation, combine),
                     Leap(out, source, [ExtendWith(relation, key)], extend))
  {
    var join: Rule<K, V> := JoinRelation(out, source, relation, combine);
    var kinds: seq<Kind<(K, V), V, K>> := [ExtendWith(relation, key)];
    var leap: Rule<K, V> := Leap(out, source, kinds, extend);
    assert forall t, v :: AllAllow(kinds, t, v) <==> kinds[0].Allows(t, v);
    forall facts: iset<Fact<K, V>>, x
      ensures Derives(join, facts, x) <==> Derives(leap, facts, x)
    {
      if Derives(join, facts, x) {
        var a, b :| (source, a) in facts && b in relation && a.0 == b.0 && x == combine(a.0, a.1, b.1);
        assert b == (key(a), b.1);
        assert AllAllow(kinds, a, b.1) && x == extend(a, b.1);
      }
      if Derives(leap, facts, x) {
        var a, v :| (source, a) in facts && AllAllow(kinds, a, v) && x == extend(a, v);
        assert (a.0, v) in relation && x == combine(a.0, a.1, (a.0, v).1);
      }
    }
  }

  /** An anti-filter on the key is an antijoin. */
  lemma FilterIsAntijoin<K(!new), V(!new)>(out: nat, source: nat, keys: seq<K>, key: ((K, V)) -> K,
                                           single: (K, V) -> (K, V), emit: ((K, V), ()) -> (K, V))
    requires forall t: (K, V) :: key(t) == t.0
    requires forall t: (K, V), u :: emit(t, u) == single(t.0, t.1)
    ensures SameRule(Antijoin(out, source, keys, single), LeapFilter(out, source, FilterAnti(keys, key), emit))
  {
    var anti: Rule<K, V> := Antijoin(out, source, keys, single);
    var leap: Rule<K, V> := LeapFilter(out, source, FilterAnti(keys, key), emit);
    forall facts: iset<Fact<K, V>>, x
      ensures Derives(anti, facts, x) <==> Derives(leap, facts, x)
    {
    }
  }

  /** A filter derives from the tuples whose key is a member, an anti-filter from the
      others, and a prefix filter from those it accepts. */
  lemma FiltersDivide<K(!new), V(!new)>(out: nat, source: nat, keys: seq<K>, key: ((K, V)) -> K,
                                        accepts: ((K, V)) -> bool, emit: ((K, V), ()) -> (K, V),
                                        facts: iset<Fact<K, V>>, x: (K, V))
    ensures Derives(LeapFilter(out, source, FilterWith(keys, key), emit), facts, x) <==>
            exists a :: (source, a) in facts && key(a) in keys && x == emit(a, ())
    ensures Derives(LeapFilter(out, source, FilterAnti(keys, key), emit), facts, x) <==>
            exists a :: (source, a) in facts && key(a) !in keys && x == emit(a, ())
    ensures Derives(LeapFilter(out, source, PrefixFilter(accepts), emit), facts, x) <==>
            exists a :: (source, a) in facts && accepts(a) && x == emit(a, ())
  {
  }

  /** A second relation that is subtracted takes away exactly its own values. */
  lemma ExtendsBut<K(!new), V(!new)>(out: nat, source: nat, plus: seq<(K, V)>, minus: seq<(K, V)>, key: ((K, V)) -> K,
                                     extend: ((K, V), V) -> (K, V), facts: iset<Fact<K, V>>, x: (K, V))
    requires forall t: (K, V) :: key(t) == t.0
    requires forall t: (K, V), v :: extend(t, v) == (t.0, v)
    ensures Derives(Leap(out, source, [ExtendWith(plus, key), ExtendAnti(minus, key)], extend), facts, x) <==>
            (exists a :: (source, a) in facts && a.0 == x.0) && x in plus && x !in minus
  {
    var kinds: seq<Kind<(K, V), V, K>> := [ExtendWith(plus, key), ExtendAnti(minus, key)];
    assert forall t, v :: AllAllow(kinds, t, v) <==> kinds[0].Allows(t, v) && kinds[1].Allows(t, v);
    if x in plus && x !in minus && exists a :: (source, a) in facts && a.0 == x.0 {
      var a :| (source, a) in facts && a.0 == x.0;
      assert x == (key(a), x.1) && x == extend(a, x.1);
      assert AllAllow(kinds, a, x.1);
    }
  }

  /** A value filter takes away those it refuses. */
  lemma ExtendsWhere<K(!new), V(!new)>(out: nat, source: nat, plus: seq<(K, V)>, key: ((K, V)) -> K,
                                       keeps: ((K, V), V) -> bool, extend: ((K, V), V) -> (K, V),
                                       facts: iset<Fact<K, V>>, x: (K, V))
    requires forall t: (K, V) :: key(t) == t.0
    requires forall t: (K, V), v :: extend(t, v) == (t.0, v)
    ensures Derives(Leap(out, source, [ValueFilter(keeps), ExtendWith(plus, key)], extend), facts, x) <==>
            x in plus && exists a :: (source, a) in facts && a.0 == x.0 && keeps(a, x.1)
  {
    var kinds: seq<Kind<(K, V), V, K>> := [ValueFilter(keeps), ExtendWith(plus, key)];
    assert forall t, v :: AllAllow(kinds, t, v) <==> kinds[0].Allows(t, v) && kinds[1].Allows(t, v);
    if x in plus && exists a :: (source, a) in facts && a.0 == x.0 && keeps(a, x.1) {
      var a :| (source, a) in facts && a.0 == x.0 && keeps(a, x.1);
      assert x == (key(a), x.1) && x == extend(a, x.1);
      assert AllAllow(kinds, a, x.1);
    }
  }
}
