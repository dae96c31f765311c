/** The iterative context and the driver loop: semi-naive evaluation computes the
    least fixpoint of its rules (src/datafrog/mod.rs:209-252, 323-327). */
module Iteration {
  import opened Options
  import opened Orders
  import opened Relations
  import opened Joins
  import opened Leapjoin
  import opened Variables

  /** A fact: a variable, by its index, and a tuple. */
  type Fact<K, V> = (nat, (K, V))

  /** A rule writes variable `out` from variable `source`, and from a second variable
      or from fixed relations. */
  datatype Rule<!K, !V> =
    | Join(out: nat, source: nat, other: nat, combine: (K, V, V) -> (K, V))
    | JoinRelation(out: nat, source: nat, relation: seq<(K, V)>, combine: (K, V, V) -> (K, V))
    | Antijoin(out: nat, source: nat, keys: seq<K>, single: (K, V) -> (K, V))
    | Map(out: nat, source: nat, logic: ((K, V)) -> (K, V))
    | Leap(out: nat, source: nat, kinds: seq<Kind<(K, V), V, K>>, extend: ((K, V), V) -> (K, V))
    | LeapFilter(out: nat, source: nat, filter: Kind<(K, V), (), K>, emit: ((K, V), ()) -> (K, V))

  /** The rule names existing variables, its relations are relations, and a leapjoin
      always has a leaper that restricts the values. */
  ghost predicate ValidRule<K(!new), V(!new)>(ltK: (K, K) -> bool, ltV: (V, V) -> bool, n: nat, rule: Rule<K, V>) {
    && rule.out < n && rule.source < n
    && match rule
       case Join(_, _, other, _) => other < n
       case JoinRelation(_, _, relation, _) => Sorted(Lex(ltK, ltV), relation)
       case Antijoin(_, _, keys, _) => Sorted(ltK, keys)
       case Map(_, _, _) => true
       case Leap(_, _, kinds, _) =>
         && Joinable(kinds) && (forall i :: 0 <= i < |kinds| ==> kinds[i].Valid(ltK, ltV))
         && (forall t :: !Unbounded(kinds, t))
       case LeapFilter(_, _, filter, _) => StandsAlone(filter)
  }

  /** `x` follows by `rule` from the facts of `facts`: the rule's plain reading. */
  ghost predicate Derives<K(!new), V(!new)>(rule: Rule<K, V>, facts: iset<Fact<K, V>>, x: (K, V)) {
    match rule
    case Join(_, source, other, combine) =>
      exists a, b :: (source, a) in facts && (other, b) in facts && a.0 == b.0 && x == combine(a.0, a.1, b.1)
    case JoinRelation(_, source, relation, combine) =>
      exists a, b :: (source, a) in facts && b in relation && a.0 == b.0 && x == combine(a.0, a.1, b.1)
    case Antijoin(_, source, keys, single) =>
      exists a :: (source, a) in facts && a.0 !in keys && x == single(a.0, a.1)
    case Map(_, source, logic) =>
      exists a :: (source, a) in facts && x == logic(a)
    case Leap(_, source, kinds, extend) =>
      exists a, v :: (source, a) in facts && AllAllow(kinds, a, v) && x == extend(a, v)
    case LeapFilter(_, source, filter, emit) =>
      exists a :: (source, a) in facts && filter.Passes(a) && x == emit(a, ())
  }

  ghost predicate Closed<K(!new), V(!new)>(rules: seq<Rule<K, V>>, facts: iset<Fact<K, V>>) {
    forall i, x :: 0 <= i < |rules| && Derives(rules[i], facts, x) ==> (rules[i].out, x) in facts
  }

  /** The least set of facts that contains `inserts` and is closed under the rules. */
  ghost predicate InLeast<K(!new), V(!new)>(rules: seq<Rule<K, V>>, inserts: iset<Fact<K, V>>, f: Fact<K, V>) {
    forall u: iset<Fact<K, V>> :: inserts <= u && Closed(rules, u) ==> f in u
  }

  lemma DerivesMonotone<K(!new), V(!new)>(rule: Rule<K, V>, a: iset<Fact<K, V>>, b: iset<Fact<K, V>>, x: (K, V))
    requires a <= b && Derives(rule, a, x)
    ensures Derives(rule, b, x)
  {
  }

  // ----- facts of a list of stages -----

  ghost function StableFacts<K(!new), V(!new)>(st: seq<Stages<(K, V)>>): iset<Fact<K, V>> {
    iset f: Fact<K, V> | f.0 < |st| && f.1 in Union(st[f.0].stable)
  }

  ghost function VisibleFacts<K(!new), V(!new)>(st: seq<Stages<(K, V)>>): iset<Fact<K, V>> {
    iset f: Fact<K, V> | f.0 < |st| && f.1 in st[f.0].Visible()
  }

  ghost function AllFacts<K(!new), V(!new)>(st: seq<Stages<(K, V)>>): iset<Fact<K, V>> {
    iset f: Fact<K, V> | f.0 < |st| && f.1 in st[f.0].All()
  }

  /** The visible facts as a finite set. */
  ghost function Known<K, V>(st: seq<Stages<(K, V)>>): set<Fact<K, V>> {
    if st == [] then {}
    else
      var n := |st| - 1;
      Known(st[..n]) + (set x | x in st[n].Visible() :: (n, x))
  }

  lemma {:induction false} KnownFacts<K(!new), V(!new)>(st: seq<Stages<(K, V)>>)
    ensures forall f :: f in Known(st) <==> f in VisibleFacts(st)
  {
    if st != [] {
      var n := |st| - 1;
      KnownFacts(st[..n]);
      forall f: Fact<K, V>
        ensures f in Known(st) <==> f in VisibleFacts(st)
      {
        if f.0 < n {
          assert f in VisibleFacts(st[..n]) <==> f in VisibleFacts(st);
        } else {
          assert f !in VisibleFacts(st[..n]);
        }
      }
    }
  }

  // ----- one round -----

  /** The round invariant: what the rules derive from the visible facts is on its way. */
  ghost predicate Saturated<K(!new), V(!new)>(rules: seq<Rule<K, V>>, st: seq<Stages<(K, V)>>) {
    forall i, x :: 0 <= i < |rules| && Derives(rules[i], VisibleFacts(st), x) ==> (rules[i].out, x) in AllFacts(st)
  }

  /** Inside a round, after the first `n` rules: those rules are saturated, and the
      others are so on the stable facts. */
  ghost predicate SaturatedTo<K(!new), V(!new)>(rules: seq<Rule<K, V>>, n: nat, st: seq<Stages<(K, V)>>) {
    && (forall i, x :: 0 <= i < |rules| && Derives(rules[i], StableFacts(st), x) ==> (rules[i].out, x) in AllFacts(st))
    && (forall i, x :: 0 <= i < n <= |rules| && Derives(rules[i], VisibleFacts(st), x) ==>
          (rules[i].out, x) in AllFacts(st))
  }

  ghost predicate Sound<K(!new), V(!new)>(rules: seq<Rule<K, V>>, inserts: iset<Fact<K, V>>, st: seq<Stages<(K, V)>>) {
    && inserts <= AllFacts(st)
    && forall u: iset<Fact<K, V>> :: inserts <= u && Closed(rules, u) ==> AllFacts(st) <= u
  }

  ghost predicate AllAdvance<K, V>(before: seq<Stages<(K, V)>>, after: seq<Stages<(K, V)>>) {
    |before| == |after| && forall i :: 0 <= i < |before| ==> Advances(before[i], after[i])
  }

  /** `changed` makes the visible facts stable and all facts visible. */
  lemma AdvanceFacts<K(!new), V(!new)>(before: seq<Stages<(K, V)>>, after: seq<Stages<(K, V)>>)
    requires AllAdvance(before, after)
    ensures StableFacts(after) == VisibleFacts(before)
    ensures VisibleFacts(after) == AllFacts(before) == AllFacts(after)
  {
    forall i | 0 <= i < |before|
      ensures Union(after[i].stable) == before[i].Visible()
      ensures after[i].Visible() == before[i].All() == after[i].All()
    {
      AdvancesConserves(before[i], after[i]);
    }
  }

  lemma AdvanceSaturates<K(!new), V(!new)>(rules: seq<Rule<K, V>>, before: seq<Stages<(K, V)>>,
                                           after: seq<Stages<(K, V)>>)
    requires Saturated(rules, before) && AllAdvance(before, after)
    ensures SaturatedTo(rules, 0, after)
  {
    AdvanceFacts(before, after);
  }

  lemma AdvanceSound<K(!new), V(!new)>(rules: seq<Rule<K, V>>, inserts: iset<Fact<K, V>>, before: seq<Stages<(K, V)>>,
                                       after: seq<Stages<(K, V)>>)
    requires Sound(rules, inserts, before) && AllAdvance(before, after)
    ensures Sound(rules, inserts, after)
  {
    AdvanceFacts(before, after);
  }

  lemma AllSaturated<K(!new), V(!new)>(rules: seq<Rule<K, V>>, st: seq<Stages<(K, V)>>)
    requires SaturatedTo(rules, |rules|, st)
    ensures Saturated(rules, st)
  {
  }

  lemma AdvanceEmpties<K(!new), V(!new)>(before: seq<Stages<(K, V)>>, after: seq<Stages<(K, V)>>)
    requires AllAdvance(before, after)
    ensures |after| == |before| && forall i :: 0 <= i < |after| ==>
              after[i].toAdd == [] && after[i].distinct == before[i].distinct
  {
  }

  /** The variable is read by the rule. */
  predicate Feeds<K, V>(rule: Rule<K, V>, v: nat) {
    v == rule.source || (rule.Join? && v == rule.other)
  }

  /** Some variable that the rule reads has recent tuples. */
  ghost predicate HasInput<K, V>(rule: Rule<K, V>, st: seq<Stages<(K, V)>>) {
    exists v: nat :: v < |st| && Feeds(rule, v) && st[v].recent != []
  }

  /** What a rule application adds: only consequences of visible facts, all of them but
      those the stable facts alone give, and nothing without recent tuples. */
  ghost predicate Step<K(!new), V(!new)>(rule: Rule<K, V>, st: seq<Stages<(K, V)>>, added: set<(K, V)>) {
    && (forall x :: x in added ==> Derives(rule, VisibleFacts(st), x))
    && (forall x :: Derives(rule, VisibleFacts(st), x) ==> x in added || Derives(rule, StableFacts(st), x))
    && (added != {} ==> HasInput(rule, st))
  }

  /** Only the `toAdd` of one variable grew. */
  ghost predicate Inserted<K, V>(before: seq<Stages<(K, V)>>, out: nat, added: set<(K, V)>,
                                 after: seq<Stages<(K, V)>>) {
    && |after| == |before| && out < |before|
    && (forall i :: 0 <= i < |before| && i != out ==> after[i] == before[i])
    && after[out] == before[out].(toAdd := after[out].toAdd)
    && Union(after[out].toAdd) == Union(before[out].toAdd) + added
  }

  lemma InsertedFacts<K(!new), V(!new)>(before: seq<Stages<(K, V)>>, out: nat, added: set<(K, V)>,
                                        after: seq<Stages<(K, V)>>)
    requires Inserted(before, out, added, after)
    ensures StableFacts(after) == StableFacts(before) && VisibleFacts(after) == VisibleFacts(before)
    ensures forall f :: f in AllFacts(after) <==> f in AllFacts(before) || (f.0 == out && f.1 in added)
  {
    forall i | 0 <= i < |before|
      ensures after[i].stable == before[i].stable && after[i].Visible() == before[i].Visible()
    {
    }
  }

  lemma StepSaturates<K(!new), V(!new)>(rules: seq<Rule<K, V>>, n: nat, before: seq<Stages<(K, V)>>,
                                        added: set<(K, V)>, after: seq<Stages<(K, V)>>)
    requires n < |rules| && SaturatedTo(rules, n, before)
    requires Step(rules[n], before, added) && Inserted(before, rules[n].out, added, after)
    ensures SaturatedTo(rules, n + 1, after)
  {
    hide Derives, StableFacts, VisibleFacts, AllFacts, Inserted;
    InsertedFacts(before, rules[n].out, added, after);
    forall i, x | 0 <= i < n + 1 && Derives(rules[i], VisibleFacts(after), x)
      ensures (rules[i].out, x) in AllFacts(after)
    {
      assert i < n ==> (rules[i].out, x) in AllFacts(before);
    }
  }

  lemma VisibleWithinAll<K(!new), V(!new)>(st: seq<Stages<(K, V)>>)
    ensures StableFacts(st) <= VisibleFacts(st) <= AllFacts(st)
  {
  }

  lemma StepSound<K(!new), V(!new)>(rules: seq<Rule<K, V>>, n: nat, inserts: iset<Fact<K, V>>,
                                    before: seq<Stages<(K, V)>>, added: set<(K, V)>, after: seq<Stages<(K, V)>>)
    requires n < |rules| && Sound(rules, inserts, before)
    requires Step(rules[n], before, added) && Inserted(before, rules[n].out, added, after)
    ensures Sound(rules, inserts, after)
  {
    hide Derives, StableFacts, VisibleFacts, AllFacts, Inserted;
    InsertedFacts(before, rules[n].out, added, after);
    VisibleWithinAll(before);
    forall u: iset<Fact<K, V>>, f | inserts <= u && Closed(rules, u) && f in AllFacts(after)
      ensures f in u
    {
      if f !in AllFacts(before) {
        DerivesMonotone(rules[n], VisibleFacts(before), u, f.1);
      }
    }
  }

  /** At the end of the run the facts are exactly the least closed set. */
  lemma FixpointIsLeast<K(!new), V(!new)>(rules: seq<Rule<K, V>>, inserts: iset<Fact<K, V>>, st: seq<Stages<(K, V)>>)
    requires Sound(rules, inserts, st) && SaturatedTo(rules, 0, st)
    requires forall i :: 0 <= i < |st| ==> st[i].recent == [] && st[i].toAdd == []
    ensures forall f :: f in AllFacts(st) <==> InLeast(rules, inserts, f)
  {
    assert Union<(K, V)>([]) == {};
    assert AllFacts(st) == StableFacts(st);
    assert Closed(rules, AllFacts(st));
  }

  // ----- applying a rule -----

  ghost predicate ValidVariables<K(!new), V(!new)>(ltK: (K, K) -> bool, ltV: (V, V) -> bool,
                                                   vars: seq<Variable<(K, V)>>)
    reads vars
  {
    && (forall i, j :: 0 <= i < j < |vars| ==> vars[i] != vars[j])
    && (forall i :: 0 <= i < |vars| ==> vars[i].Valid() && vars[i].lt == Lex(ltK, ltV))
  }

  ghost function Views<K(!new), V(!new)>(vars: seq<Variable<(K, V)>>): (r: seq<Stages<(K, V)>>)
    reads vars
    ensures |r| == |vars| && forall i :: 0 <= i < |r| ==> r[i] == vars[i].View()
  {
    seq(|vars|, i requires 0 <= i < |vars| reads vars => vars[i].View())
  }

  lemma JoinStepSound<K(!new), V(!new)>(rule: Rule<K, V>, st: seq<Stages<(K, V)>>, s1: set<(K, V)>, s2: set<(K, V)>,
                                        x: (K, V))
    requires rule.Join? && rule.source < |st| && rule.other < |st|
    requires s1 <= st[rule.source].Visible() && s2 <= st[rule.other].Visible()
    requires x in JoinSet(s1, s2, rule.combine)
    ensures Derives(rule, VisibleFacts(st), x)
  {
    var a, b :| a in s1 && b in s2 && a.0 == b.0 && x == rule.combine(a.0, a.1, b.1);
    assert (rule.source, a) in VisibleFacts(st) && (rule.other, b) in VisibleFacts(st);
  }

  lemma JoinStepComplete<K(!new), V(!new)>(rule: Rule<K, V>, st: seq<Stages<(K, V)>>, x: (K, V))
    requires rule.Join? && rule.source < |st| && rule.other < |st|
    requires Derives(rule, VisibleFacts(st), x)
    ensures x in JoinSet(Elems(st[rule.source].recent), st[rule.other].Visible(), rule.combine)
         || x in JoinSet(Union(st[rule.source].stable), Elems(st[rule.other].recent), rule.combine)
         || Derives(rule, StableFacts(st), x)
  {
    var i, j := rule.source, rule.other;
    var a, b :| (i, a) in VisibleFacts(st) && (j, b) in VisibleFacts(st)
        && a.0 == b.0 && x == rule.combine(a.0, a.1, b.1);
    if a in Elems(st[i].recent) {
      assert b in st[j].Visible();
    } else if b !in Elems(st[j].recent) {
      assert (i, a) in StableFacts(st) && (j, b) in StableFacts(st);
    }
  }

  lemma JoinStep<K(!new), V(!new)>(rule: Rule<K, V>, st: seq<Stages<(K, V)>>, added: set<(K, V)>)
    requires rule.Join? && rule.source < |st| && rule.other < |st|
    requires added == JoinSet(Elems(st[rule.source].recent), st[rule.other].Visible(), rule.combine)
                    + JoinSet(Union(st[rule.source].stable), Elems(st[rule.other].recent), rule.combine)
    ensures Step(rule, st, added)
  {
    hide HasInput, Derives;
    var recent1, stable1 := Elems(st[rule.source].recent), Union(st[rule.source].stable);
    var recent2, visible2 := Elems(st[rule.other].recent), st[rule.other].Visible();
    forall x | x in added
      ensures Derives(rule, VisibleFacts(st), x)
    {
      if x in JoinSet(recent1, visible2, rule.combine) {
        JoinStepSound(rule, st, recent1, visible2, x);
      } else {
        JoinStepSound(rule, st, stable1, recent2, x);
      }
    }
    forall x | Derives(rule, VisibleFacts(st), x)
      ensures x in added || Derives(rule, StableFacts(st), x)
    {
      JoinStepComplete(rule, st, x);
    }
    JoinNeedsInput(rule, st, added);
  }

  lemma JoinNeedsInput<K(!new), V(!new)>(rule: Rule<K, V>, st: seq<Stages<(K, V)>>, added: set<(K, V)>)
    requires rule.Join? && rule.source < |st| && rule.other < |st|
    requires added == JoinSet(Elems(st[rule.source].recent), st[rule.other].Visible(), rule.combine)
                    + JoinSet(Union(st[rule.source].stable), Elems(st[rule.other].recent), rule.combine)
    ensures added != {} ==> HasInput(rule, st)
  {
    assert Feeds(rule, rule.source) && Feeds(rule, rule.other);
  }

  lemma JoinRelationStep<K(!new), V(!new)>(rule: Rule<K, V>, st: seq<Stages<(K, V)>>, added: set<(K, V)>)
    requires rule.JoinRelation? && rule.source < |st|
    requires added == JoinSet(Elems(st[rule.source].recent), Elems(rule.relation), rule.combine)
    ensures Step(rule, st, added)
  {
    var i := rule.source;
    forall x | x in added
      ensures Derives(rule, VisibleFacts(st), x)
    {
      var a, b :| a in Elems(st[i].recent) && b in rule.relation && a.0 == b.0 && x == rule.combine(a.0, a.1, b.1);
      assert (i, a) in VisibleFacts(st);
    }
    forall x | Derives(rule, VisibleFacts(st), x)
      ensures x in added || Derives(rule, StableFacts(st), x)
    {
      var a, b :| (i, a) in VisibleFacts(st) && b in rule.relation && a.0 == b.0 && x == rule.combine(a.0, a.1, b.1);
      if a in Union(st[i].stable) {
        assert (i, a) in StableFacts(st);
      } else {
        assert a in Elems(st[i].recent) && b in Elems(rule.relation);
      }
    }
    assert Feeds(rule, i);
  }

  lemma AntijoinStepFacts<K(!new), V(!new)>(rule: Rule<K, V>, st: seq<Stages<(K, V)>>, added: set<(K, V)>)
    requires rule.Antijoin? && rule.source < |st|
    requires added == AntijoinSet(Elems(st[rule.source].recent), Elems(rule.keys), rule.single)
    ensures Step(rule, st, added)
  {
    var i := rule.source;
    forall x | x in added
      ensures Derives(rule, VisibleFacts(st), x)
    {
      var a :| a in Elems(st[i].recent) && a.0 !in Elems(rule.keys) && x == rule.single(a.0, a.1);
      assert (i, a) in VisibleFacts(st);
    }
    forall x | Derives(rule, VisibleFacts(st), x)
      ensures x in added || Derives(rule, StableFacts(st), x)
    {
      var a :| (i, a) in VisibleFacts(st) && a.0 !in rule.keys && x == rule.single(a.0, a.1);
      if a in Union(st[i].stable) {
        assert (i, a) in StableFacts(st);
      } else {
        assert a in Elems(st[i].recent) && a.0 !in Elems(rule.keys);
      }
    }
    assert Feeds(rule, i);
  }

  lemma MapStep<K(!new), V(!new)>(rule: Rule<K, V>, st: seq<Stages<(K, V)>>, added: set<(K, V)>)
    requires rule.Map? && rule.source < |st|
    requires forall x :: x in added <==> exists a :: a in st[rule.source].recent && x == rule.logic(a)
    ensures Step(rule, st, added)
  {
    var i := rule.source;
    forall x | x in added
      ensures Derives(rule, VisibleFacts(st), x)
    {
      var a :| a in st[i].recent && x == rule.logic(a);
      assert (i, a) in VisibleFacts(st);
    }
    forall x | Derives(rule, VisibleFacts(st), x)
      ensures x in added || Derives(rule, StableFacts(st), x)
    {
      var a :| (i, a) in VisibleFacts(st) && x == rule.logic(a);
      if a in Union(st[i].stable) {
        assert (i, a) in StableFacts(st);
      }
    }
    assert Feeds(rule, i);
  }

  lemma LeapStep<K(!new), V(!new)>(rule: Rule<K, V>, st: seq<Stages<(K, V)>>, added: set<(K, V)>)
    requires rule.Leap? && rule.source < |st|
    requires forall x :: x in added <==> Yields(st[rule.source].recent, rule.kinds, rule.extend, x)
    ensures Step(rule, st, added)
  {
    var i := rule.source;
    forall x | x in added
      ensures Derives(rule, VisibleFacts(st), x)
    {
      var a, v :| a in st[i].recent && AllAllow(rule.kinds, a, v) && x == rule.extend(a, v);
      assert (i, a) in VisibleFacts(st);
    }
    forall x | Derives(rule, VisibleFacts(st), x)
      ensures x in added || Derives(rule, StableFacts(st), x)
    {
      var a, v :| (i, a) in VisibleFacts(st) && AllAllow(rule.kinds, a, v) && x == rule.extend(a, v);
      if a in Union(st[i].stable) {
        assert (i, a) in StableFacts(st);
      }
    }
    assert Feeds(rule, i);
  }

  lemma LeapFilterStep<K(!new), V(!new)>(rule: Rule<K, V>, st: seq<Stages<(K, V)>>, added: set<(K, V)>)
    requires rule.LeapFilter? && rule.source < |st| && StandsAlone(rule.filter)
    requires forall x :: x in added <==> Yields(st[rule.source].recent, [rule.filter], rule.emit, x)
    ensures Step(rule, st, added)
  {
    var i, kinds := rule.source, [rule.filter];
    forall x | x in added
      ensures Derives(rule, VisibleFacts(st), x)
    {
      var a, v :| a in st[i].recent && AllAllow(kinds, a, v) && x == rule.emit(a, v);
      assert kinds[0].Allows(a, v) && v == ();
      assert (i, a) in VisibleFacts(st);
    }
    forall x | Derives(rule, VisibleFacts(st), x)
      ensures x in added || Derives(rule, StableFacts(st), x)
    {
      var a :| (i, a) in VisibleFacts(st) && rule.filter.Passes(a) && x == rule.emit(a, ());
      if a in Union(st[i].stable) {
        assert (i, a) in StableFacts(st);
      } else {
        assert AllAllow(kinds, a, ());
      }
    }
    assert Feeds(rule, i);
  }

  /** Fresh leapers for one application. */
  method MakeLeapers<T, V(!new, ==), K(!new, ==)>(kinds: seq<Kind<T, V, K>>) returns (leapers: seq<Leaper<T, V, K>>)
    ensures Kinds(leapers) == kinds
    ensures fresh(leapers)
    ensures forall i, j :: 0 <= i < j < |leapers| ==> leapers[i] != leapers[j]
  {
    leapers := [];
    for n := 0 to |kinds|
      invariant |leapers| == n && forall i :: 0 <= i < n ==> fresh(leapers[i]) && leapers[i].kind == kinds[i]
      invariant forall i, j :: 0 <= i < j < n ==> leapers[i] != leapers[j]
    {
      var leaper := new Leaper<T, V, K>(kinds[n]);
      leapers := leapers + [leaper];
    }
  }

  /** `map_into`: the image of the recent tuples. */
  method MapInto<T1(!new), T2(!new, ==)>(lt: (T2, T2) -> bool, recent: seq<T1>, logic: T1 -> T2) returns (r: seq<T2>)
    requires StrictTotal(lt)
    ensures Sorted(lt, r)
    ensures forall x :: x in Elems(r) <==> exists a :: a in recent && x == logic(a)
  {
    var results := seq(|recent|, i requires 0 <= i < |recent| => logic(recent[i]));
    r := FromVec(lt, results);
    forall x
      ensures x in Elems(results) <==> exists a :: a in recent && x == logic(a)
    {
      if a :| a in recent && x == logic(a) {
        var i :| 0 <= i < |recent| && recent[i] == a;
        assert results[i] == x;
      }
      if x in Elems(results) {
        var i :| 0 <= i < |results| && results[i] == x;
        assert recent[i] in recent;
      }
    }
  }

  /** The relation a rule computes from the variables' present stages. */
  method Evaluate<K(!new,
        ==), V(!new, ==)>(ltK: (K, K) -> bool, ltV: (V, V) -> bool, vars: seq<Variable<(K, V)>>, rule: Rule<K, V>)
      returns (r: seq<(K, V)>)
    requires StrictTotal(ltK) && StrictTotal(ltV)
    requires ValidVariables(ltK, ltV, vars) && ValidRule(ltK, ltV, |vars|, rule)
    ensures Sorted(Lex(ltK, ltV), r)
    ensures Step(rule, Views(vars), Elems(r))
  {
    var lt := Lex(ltK, ltV);
    LexIsStrictTotal(ltK, ltV);
    var source := vars[rule.source];
    assert source.View().Valid(lt);
    var input := Varying(source.recent, source.stable);
    match rule
    case Join(_, _, other, combine) =>
      assert vars[other].View().Valid(lt);
      r := JoinInto(ltK, ltV, ltV, lt, input, Varying(vars[other].recent, vars[other].stable), combine);
      JoinStep(rule, Views(vars), Elems(r));
    case JoinRelation(_, _, relation, combine) =>
      r := JoinInto(ltK, ltV, ltV, lt, input, Fixed(relation), combine);
      UnionSingle(relation);
      assert JoinSet(Union(source.stable), {}, combine) == {};
      JoinRelationStep(rule, Views(vars), Elems(r));
    case Antijoin(_, _, keys, single) =>
      r := Joins.Antijoin(ltK, ltV, lt, input, keys, single);
      AntijoinStepFacts(rule, Views(vars), Elems(r));
    case Map(_, _, logic) =>
      r := MapInto(lt, source.recent, logic);
      MapStep(rule, Views(vars), Elems(r));
    case Leap(_, _, kinds, extend) =>
      var leapers := MakeLeapers(kinds);
      var result := Leapjoin.Leapjoin(ltK, ltV, lt, source.recent, leapers, extend);
      r := result.value;
      LeapStep(rule, Views(vars), Elems(r));
    case LeapFilter(_, _, filter, emit) =>
      var leaper := new Leaper<(K, V), (), K>(filter);
      r := FilterJoin(ltK, lt, source.recent, leaper, emit);
      LeapFilterStep(rule, Views(vars), Elems(r));
  }

  /** Applies a rule: evaluates it and inserts the result into its output. */
  method Apply<K(!new,
        ==), V(!new, ==)>(ltK: (K, K) -> bool, ltV: (V, V) -> bool, vars: seq<Variable<(K, V)>>, rule: Rule<K, V>)
      returns (ghost added: set<(K, V)>)
    requires StrictTotal(ltK) && StrictTotal(ltV)
    requires ValidVariables(ltK, ltV, vars) && ValidRule(ltK, ltV, |vars|, rule)
    modifies vars
    ensures ValidVariables(ltK, ltV, vars)
    ensures Step(rule, old(Views(vars)), added)
    ensures Inserted(old(Views(vars)), rule.out, added, Views(vars))
  {
    var r := Evaluate(ltK, ltV, vars, rule);
    added := Elems(r);
    vars[rule.out].Insert(r);
  }

  /** `Iteration::changed`: advances every variable and reports whether any changed. */
  method Changed<K(!new, ==), V(!new, ==)>(ltK: (K, K) -> bool, ltV: (V, V) -> bool, vars: seq<Variable<(K, V)>>)
    returns (result: bool)
    requires ValidVariables(ltK, ltV, vars)
    modifies vars
    ensures ValidVariables(ltK, ltV, vars)
    ensures AllAdvance(old(Views(vars)), Views(vars))
    ensures result <==> exists i :: 0 <= i < |vars| && vars[i].recent != []
  {
    hide Advances;
    result := false;
    for n := 0 to |vars|
      invariant ValidVariables(ltK, ltV, vars)
      invariant forall i :: 0 <= i < n ==> Advances(old(vars[i].View()), vars[i].View())
      invariant forall i :: n <= i < |vars| ==> vars[i].View() == old(vars[i].View())
      invariant result <==> exists i :: 0 <= i < n && vars[i].recent != []
    {
      var changed := vars[n].Changed();
      if changed {
        result := true;
      }
    }
  }

  // ----- why it stops -----

  ghost predicate AllDistinct<K, V>(st: seq<Stages<(K, V)>>) {
    forall i :: 0 <= i < |st| ==> st[i].distinct
  }

  /** The variables that may show a tuple as recent again and again. */
  ghost function Indistinct<K, V>(st: seq<Stages<(K, V)>>): set<nat> {
    set i: nat | i < |st| && !st[i].distinct
  }

  /** Some rule reads `v` and writes `w`. */
  ghost predicate Edge<K, V>(rules: seq<Rule<K, V>>, v: nat, w: nat) {
    exists i :: 0 <= i < |rules| && Feeds(rules[i], v) && rules[i].out == w
  }

  ghost predicate Path<K, V>(rules: seq<Rule<K, V>>, path: seq<nat>) {
    forall i :: 0 <= i < |path| - 1 ==> Edge(rules, path[i], path[i + 1])
  }

  ghost predicate Cycle<K, V>(rules: seq<Rule<K, V>>, path: seq<nat>) {
    |path| > 1 && path[0] == path[|path| - 1] && Path(rules, path)
  }

  /** Every cycle of derivations has a distinct variable on it. */
  ghost predicate CyclesDistinct<K, V>(rules: seq<Rule<K, V>>, st: seq<Stages<(K, V)>>) {
    forall path :: Cycle(rules, path) ==> exists i :: 0 <= i < |path| && path[i] !in Indistinct(st)
  }

  /** A path of indistinct variables that ends in `v`. */
  ghost predicate Trail<K, V>(rules: seq<Rule<K, V>>, st: seq<Stages<(K, V)>>, path: seq<nat>, v: nat) {
    && path != [] && path[|path| - 1] == v && Path(rules, path)
    && forall i :: 0 <= i < |path| ==> path[i] in Indistinct(st)
  }

  lemma DistinctSuffices<K, V>(rules: seq<Rule<K, V>>, st: seq<Stages<(K, V)>>)
    requires AllDistinct(st)
    ensures CyclesDistinct(rules, st) && Indistinct(st) == {}
  {
    forall path | Cycle(rules, path)
      ensures exists i :: 0 <= i < |path| && path[i] !in Indistinct(st)
    {
      assert path[0] !in Indistinct(st);
    }
  }

  lemma {:induction false} NoRepeats(path: seq<nat>, within: set<nat>)
    requires forall i :: 0 <= i < |path| ==> path[i] in within
    requires forall i, j :: 0 <= i < j < |path| ==> path[i] != path[j]
    ensures |path| <= |within|
  {
    if path != [] {
      var n := |path| - 1;
      NoRepeats(path[..n], within - {path[n]});
    }
  }

  /** Without a cycle of indistinct variables a trail visits each of them at most once. */
  lemma TrailIsShort<K, V>(rules: seq<Rule<K, V>>, st: seq<Stages<(K, V)>>, path: seq<nat>, v: nat)
    requires CyclesDistinct(rules, st) && Trail(rules, st, path, v)
    ensures |path| <= |Indistinct(st)|
  {
    forall i, j | 0 <= i < j < |path|
      ensures path[i] != path[j]
    {
      if path[i] == path[j] {
        var cycle := path[i..j + 1];
        assert forall k :: 0 <= k < |cycle| ==> cycle[k] == path[i + k];
        assert Cycle(rules, cycle);
        var k :| 0 <= k < |cycle| && cycle[k] !in Indistinct(st);
        assert false;
      }
    }
    NoRepeats(path, Indistinct(st));
  }

  /** Every indistinct variable with pending tuples ends a trail of `n` variables. */
  ghost predicate PendingTrails<K, V>(rules: seq<Rule<K, V>>, st: seq<Stages<(K, V)>>, n: nat) {
    forall v :: v in Indistinct(st) && Union(st[v].toAdd) != {} ==>
      exists path :: Trail(rules, st, path, v) && |path| == n
  }

  /** Every variable with recent tuples does. */
  ghost predicate RecentTrails<K, V>(rules: seq<Rule<K, V>>, st: seq<Stages<(K, V)>>, n: nat) {
    forall v: nat :: v < |st| && st[v].recent != [] ==> exists path :: Trail(rules, st, path, v) && |path| == n
  }

  /** Pending tuples come from rules with recent input. */
  ghost predicate Fed<K, V>(rules: seq<Rule<K, V>>, st: seq<Stages<(K, V)>>) {
    forall v: nat :: v < |st| && Union(st[v].toAdd) != {} ==>
      exists i :: 0 <= i < |rules| && rules[i].out == v && HasInput(rules[i], st)
  }

  /** Only pending tuples differ. */
  ghost predicate SamePast<K, V>(a: seq<Stages<(K, V)>>, b: seq<Stages<(K, V)>>) {
    |a| == |b| && forall i :: 0 <= i < |a| ==> b[i] == a[i].(toAdd := b[i].toAdd)
  }

  lemma FedByStep<K(!new), V(!new)>(rules: seq<Rule<K, V>>, n: nat, before: seq<Stages<(K, V)>>,
                                    added: set<(K, V)>, after: seq<Stages<(K, V)>>)
    requires n < |rules| && Fed(rules, before)
    requires Step(rules[n], before, added) && Inserted(before, rules[n].out, added, after)
    ensures Fed(rules, after) && SamePast(before, after)
  {
    hide Derives, Feeds, VisibleFacts, StableFacts;
    forall i | 0 <= i < |rules| && HasInput(rules[i], before)
      ensures HasInput(rules[i], after)
    {
      var v: nat :| v < |before| && Feeds(rules[i], v) && before[v].recent != [];
      assert after[v].recent == before[v].recent;
    }
  }

  /** At first every pending variable is a trail of its own. */
  lemma FirstTrails<K, V>(rules: seq<Rule<K, V>>, st: seq<Stages<(K, V)>>)
    ensures PendingTrails(rules, st, 1)
  {
    forall v | v in Indistinct(st)
      ensures exists path :: Trail(rules, st, path, v) && |path| == 1
    {
      assert Trail(rules, st, [v], v);
    }
  }

  /** When no distinct variable shows tuples, those that do were pending. */
  lemma AdvanceTrails<K(!new), V(!new)>(rules: seq<Rule<K, V>>, before: seq<Stages<(K, V)>>,
                                        after: seq<Stages<(K, V)>>, n: nat)
    requires AllAdvance(before, after) && PendingTrails(rules, before, n)
    requires forall v :: 0 <= v < |after| && after[v].recent != [] ==> v in Indistinct(after)
    ensures RecentTrails(rules, after, n)
  {
    assert Indistinct(before) == Indistinct(after);
    forall v: nat | v < |after| && after[v].recent != []
      ensures exists path :: Trail(rules, after, path, v) && |path| == n
    {
      assert Advances(before[v], after[v]) && v in Indistinct(before);
      assert after[v].recent[0] in Elems(after[v].recent);
      var path :| Trail(rules, before, path, v) && |path| == n;
      assert Trail(rules, after, path, v);
    }
  }

  /** What the rules then add extends the trails. */
  lemma FedTrails<K, V>(rules: seq<Rule<K, V>>, st: seq<Stages<(K, V)>>, n: nat)
    requires Fed(rules, st) && RecentTrails(rules, st, n)
    ensures PendingTrails(rules, st, n + 1)
  {
    forall v | v in Indistinct(st) && Union(st[v].toAdd) != {}
      ensures exists path :: Trail(rules, st, path, v) && |path| == n + 1
    {
      var i :| 0 <= i < |rules| && rules[i].out == v && HasInput(rules[i], st);
      var w: nat :| w < |st| && Feeds(rules[i], w) && st[w].recent != [];
      var path :| Trail(rules, st, path, w) && |path| == n;
      assert Edge(rules, w, v);
      assert Trail(rules, st, path + [v], v);
    }
  }

  /** A round in which a distinct variable shows tuples makes more facts known. */
  lemma RoundGrows<K(!new), V(!new)>(before: seq<Stages<(K, V)>>, after: seq<Stages<(K, V)>>, i: nat)
    requires AllAdvance(before, after)
    requires i < |after| && before[i].distinct && after[i].recent != []
    ensures |Known(before)| < |Known(after)|
  {
    KnownFacts(before);
    KnownFacts(after);
    AdvanceFacts(before, after);
    VisibleWithinAll(before);
    AdvancesConserves(before[i], after[i]);
    var x :| x in after[i].Visible() && x !in before[i].Visible();
    assert (i, x) in VisibleFacts(after) && (i, x) !in VisibleFacts(before);
    assert Known(before) <= Known(after) - {(i, x)};
    SubsetCardinality(Known(before), Known(after) - {(i, x)});
  }

  /** No round makes fewer facts known. */
  lemma RoundKeeps<K(!new), V(!new)>(before: seq<Stages<(K, V)>>, after: seq<Stages<(K, V)>>)
    requires AllAdvance(before, after)
    ensures |Known(before)| <= |Known(after)|
  {
    KnownFacts(before);
    KnownFacts(after);
    AdvanceFacts(before, after);
    VisibleWithinAll(before);
    assert Known(before) <= Known(after);
    SubsetCardinality(Known(before), Known(after));
  }

  /** How far the run can be: `gap` rounds ago a distinct variable showed tuples, and
      between two such rounds there are at most as many as there are indistinct
      variables. */
  ghost predicate OnTime<K, V>(rules: seq<Rule<K, V>>, st: seq<Stages<(K, V)>>, rounds: nat, gap: nat) {
    && PendingTrails(rules, st, gap + 1)
    && gap <= |Indistinct(st)|
    && rounds <= |Known(st)| * (|Indistinct(st)| + 1) + gap
  }

  /** The same once `changed` reported a change, before the rules. */
  ghost predicate InRound<K, V>(rules: seq<Rule<K, V>>, st: seq<Stages<(K, V)>>, rounds: nat, gap: nat) {
    && (gap > 0 ==> RecentTrails(rules, st, gap))
    && gap <= |Indistinct(st)|
    && rounds <= |Known(st)| * (|Indistinct(st)| + 1) + gap
  }

  lemma RoundInTime<K(!new), V(!new)>(rules: seq<Rule<K, V>>, before: seq<Stages<(K, V)>>, after: seq<Stages<(K, V)>>,
                                      rounds: nat, gap: nat, i: nat) returns (gap': nat)
    requires AllAdvance(before, after) && CyclesDistinct(rules, before) && OnTime(rules, before, rounds, gap)
    requires i < |after| && after[i].recent != []
    ensures InRound(rules, after, rounds + 1, gap')
  {
    hide Known, Advances, CyclesDistinct, PendingTrails, RecentTrails, Trail;
    var m := |Indistinct(before)|;
    AdvanceEmpties(before, after);
    assert Indistinct(before) == Indistinct(after);
    if v :| 0 <= v < |after| && after[v].recent != [] && v !in Indistinct(after) {
      RoundGrows(before, after, v);
      Products(|Known(before)| + 1, |Known(after)|, m + 1);
      gap' := 0;
    } else {
      AdvanceTrails(rules, before, after, gap + 1);
      RoundKeeps(before, after);
      Products(|Known(before)|, |Known(after)|, m + 1);
      gap' := gap + 1;
      var path := RecentTrail(rules, after, gap + 1, i);
      SameCycles(rules, before, after);
      TrailIsShort(rules, after, path, i);
    }
  }

  lemma RecentTrail<K, V>(rules: seq<Rule<K, V>>, st: seq<Stages<(K, V)>>, n: nat, v: nat) returns (path: seq<nat>)
    requires RecentTrails(rules, st, n) && v < |st| && st[v].recent != []
    ensures Trail(rules, st, path, v) && |path| == n
  {
    hide Trail;
    path :| Trail(rules, st, path, v) && |path| == n;
  }

  lemma SameCycles<K, V>(rules: seq<Rule<K, V>>, a: seq<Stages<(K, V)>>, b: seq<Stages<(K, V)>>)
    requires Indistinct(a) == Indistinct(b) && CyclesDistinct(rules, a)
    ensures CyclesDistinct(rules, b)
  {
  }

  lemma Products(a: nat, b: nat, c: nat)
    requires a <= b
    ensures a * c <= b * c
  {
  }

  lemma RulesInTime<K(!new), V(!new)>(rules: seq<Rule<K, V>>, before: seq<Stages<(K, V)>>, after: seq<Stages<(K, V)>>,
                                      rounds: nat, gap: nat)
    requires SamePast(before, after) && Fed(rules, after) && InRound(rules, before, rounds, gap)
    requires VisibleFacts(before) == VisibleFacts(after) && CyclesDistinct(rules, before)
    ensures OnTime(rules, after, rounds, gap) && CyclesDistinct(rules, after)
  {
    hide Known, VisibleFacts, Fed;
    assert Indistinct(before) == Indistinct(after);
    SameKnown(before, after);
    FirstTrails(rules, after);
    if gap > 0 {
      forall v: nat | v < |after| && after[v].recent != []
        ensures exists path :: Trail(rules, after, path, v) && |path| == gap
      {
        var path := RecentTrail(rules, before, gap, v);
        assert Trail(rules, after, path, v);
      }
      FedTrails(rules, after, gap);
    }
  }

  /** A run that is on time and not over is short of the bound. */
  lemma ShortOfBound<K(!new), V(!new)>(rules: seq<Rule<K, V>>, inserts: iset<Fact<K, V>>, st: seq<Stages<(K, V)>>,
                                       rounds: nat, gap: nat, u: set<Fact<K, V>>)
    requires Sound(rules, inserts, st) && Universe(rules, inserts, u) && OnTime(rules, st, rounds, gap)
    ensures rounds < Bound(|u|, |Indistinct(st)|)
  {
    hide Known, Sound, Universe, PendingTrails;
    var m := |Indistinct(st)|;
    KnownWithinUniverse(rules, inserts, st, u);
    Products(|Known(st)|, |u|, m + 1);
    assert (|u| + 1) * (m + 1) == |u| * (m + 1) + m + 1;
  }

  ghost predicate ValidProgram<K(!new), V(!new)>(ltK: (K, K) -> bool, ltV: (V, V) -> bool, n: nat,
                                                 rules: seq<Rule<K, V>>) {
    && StrictTotal(ltK) && StrictTotal(ltV)
    && forall i :: 0 <= i < |rules| ==> ValidRule(ltK, ltV, n, rules[i])
  }

  /** A finite set of facts that is big enough for the whole run. */
  ghost predicate Universe<K(!new), V(!new)>(rules: seq<Rule<K, V>>, inserts: iset<Fact<K, V>>, u: set<Fact<K, V>>) {
    var facts := iset f | f in u;
    inserts <= facts && Closed(rules, facts)
  }

  /** Applies every rule once. */
  method ApplyAll<K(!new, ==), V(!new, ==)>(ltK: (K, K) -> bool, ltV: (V, V) -> bool, vars: seq<Variable<(K, V)>>,
                                            rules: seq<Rule<K, V>>, ghost inserts: iset<Fact<K, V>>)
    requires ValidVariables(ltK, ltV, vars) && ValidProgram(ltK, ltV, |vars|, rules)
    requires SaturatedTo(rules, 0, Views(vars)) && Sound(rules, inserts, Views(vars))
    modifies vars
    ensures ValidVariables(ltK, ltV, vars)
    ensures Saturated(rules, Views(vars)) && Sound(rules, inserts, Views(vars))
    ensures VisibleFacts(Views(vars)) == old(VisibleFacts(Views(vars)))
    ensures SamePast(old(Views(vars)), Views(vars))
    ensures old(Fed(rules, Views(vars))) ==> Fed(rules, Views(vars))
  {
    hide SaturatedTo, Sound, Inserted, Step, VisibleFacts, StableFacts, AllFacts, StrictTotal, Fed;
    for n := 0 to |rules|
      invariant ValidVariables(ltK, ltV, vars)
      invariant SaturatedTo(rules, n, Views(vars)) && Sound(rules, inserts, Views(vars))
      invariant VisibleFacts(Views(vars)) == old(VisibleFacts(Views(vars)))
      invariant SamePast(old(Views(vars)), Views(vars))
      invariant old(Fed(rules, Views(vars))) ==> Fed(rules, Views(vars))
    {
      ghost var before := Views(vars);
      ghost var added := Apply(ltK, ltV, vars, rules[n]);
      if Fed(rules, before) {
        FedByStep(rules, n, before, added, Views(vars));
      }
      StepSaturates(rules, n, before, added, Views(vars));
      StepSound(rules, n, inserts, before, added, Views(vars));
      InsertedFacts(before, rules[n].out, added, Views(vars));
    }
    AllSaturated(rules, Views(vars));
  }

  /** How many rounds are enough for a number of facts and of indistinct variables. */
  function Bound(facts: nat, indistinct: nat): nat {
    (facts + 1) * (indistinct + 1)
  }

  /** The driver loop: `changed`, then every rule once, until nothing changes, for at
      most `maxRounds` calls of `changed`. When it stops by itself (`done`) the facts
      are exactly the least fixpoint. It does stop by itself when every cycle of
      derivations has a distinct variable on it and some finite universe holds all
      facts; how many rounds that takes depends on the size of the universe and on the
      number of indistinct variables. */
  method Run<K(!new, ==), V(!new, ==)>(ltK: (K, K) -> bool, ltV: (V, V) -> bool, vars: seq<Variable<(K, V)>>,
                                       rules: seq<Rule<K, V>>, maxRounds: nat) returns (done: bool)
    requires ValidVariables(ltK, ltV, vars) && ValidProgram(ltK, ltV, |vars|, rules)
    requires forall i :: 0 <= i < |vars| ==> vars[i].stable == [] && vars[i].recent == []
    modifies vars
    ensures ValidVariables(ltK, ltV, vars)
    ensures done ==> forall i :: 0 <= i < |vars| ==> vars[i].recent == [] && vars[i].toAdd == []
    ensures done ==> forall f :: f in AllFacts(Views(vars)) <==> InLeast(rules, old(AllFacts(Views(vars))), f)
    ensures old(CyclesDistinct(rules, Views(vars))) ==>
              forall u :: Universe(rules, old(AllFacts(Views(vars))), u) ==>
                Bound(|u|, old(|Indistinct(Views(vars))|)) <= maxRounds ==> done
  {
    hide Saturated, SaturatedTo, Sound, AllAdvance, VisibleFacts, Known, Universe, AllFacts, InLeast, CyclesDistinct,
      OnTime, InRound, SamePast, Fed, Indistinct;
    ghost var inserts := AllFacts(Views(vars));
    ghost var first := Views(vars);
    ghost var cycles := CyclesDistinct(rules, first);
    done := false;
    NothingVisible(rules, first);
    StartsOnTime(rules, first);
    var rounds := 0;
    ghost var gap: nat := 0;
    while rounds < maxRounds && !done
      invariant rounds <= maxRounds
      invariant ValidVariables(ltK, ltV, vars)
      invariant Sound(rules, inserts, Views(vars))
      invariant !done ==> Saturated(rules, Views(vars))
      invariant !done ==> Indistinct(Views(vars)) == Indistinct(first)
      invariant !done && cycles ==> CyclesDistinct(rules, Views(vars)) && OnTime(rules, Views(vars), rounds, gap)
      invariant done ==> SaturatedTo(rules, 0, Views(vars))
      invariant done ==> forall i :: 0 <= i < |vars| ==> vars[i].recent == [] && vars[i].toAdd == []
      decreases maxRounds - rounds, !done
    {
      ghost var before := Views(vars);
      var changed := Changed(ltK, ltV, vars);
      ghost var after := Views(vars);
      AdvanceSaturates(rules, before, after);
      AdvanceSound(rules, inserts, before, after);
      AdvanceEmpties(before, after);
      if changed {
        ghost var i :| 0 <= i < |vars| && vars[i].recent != [];
        NothingFed(rules, before, after);
        assert after == Views(vars);
        ApplyAll(ltK, ltV, vars, rules, inserts);
        SameIndistinct(after, Views(vars));
        if cycles {
          SameCycles(rules, before, after);
          gap := RoundInTime(rules, before, after, rounds, gap, i);
          RulesInTime(rules, after, Views(vars), rounds + 1, gap);
        }
      } else {
        done := true;
      }
      rounds := rounds + 1;
    }
    if done {
      FixpointIsLeast(rules, inserts, Views(vars));
    } else if cycles {
      forall u | Universe(rules, inserts, u)
        ensures maxRounds < Bound(|u|, |Indistinct(first)|)
      {
        ShortOfBound(rules, inserts, Views(vars), rounds, gap, u);
      }
    }
  }

  lemma StartsOnTime<K, V>(rules: seq<Rule<K, V>>, st: seq<Stages<(K, V)>>)
    ensures OnTime(rules, st, 0, 0)
  {
    FirstTrails(rules, st);
  }

  lemma NothingFed<K, V>(rules: seq<Rule<K, V>>, before: seq<Stages<(K, V)>>, after: seq<Stages<(K, V)>>)
    requires AllAdvance(before, after)
    ensures Fed(rules, after) && Indistinct(after) == Indistinct(before)
  {
    assert Union<(K, V)>([]) == {};
  }

  lemma SameIndistinct<K, V>(a: seq<Stages<(K, V)>>, b: seq<Stages<(K, V)>>)
    requires SamePast(a, b)
    ensures Indistinct(a) == Indistinct(b)
  {
  }

  lemma NothingVisible<K(!new), V(!new)>(rules: seq<Rule<K, V>>, st: seq<Stages<(K, V)>>)
    requires forall i :: 0 <= i < |st| ==> st[i].stable == [] && st[i].recent == []
    ensures Saturated(rules, st) && Sound(rules, AllFacts(st), st)
  {
    assert Union<(K, V)>([]) == {};
    assert VisibleFacts(st) == iset{};
  }

  lemma SameKnown<K(!new), V(!new)>(a: seq<Stages<(K, V)>>, b: seq<Stages<(K, V)>>)
    requires VisibleFacts(a) == VisibleFacts(b)
    ensures Known(a) == Known(b)
  {
    KnownFacts(a);
    KnownFacts(b);
  }

  lemma KnownWithinUniverse<K(!new), V(!new)>(rules: seq<Rule<K, V>>, inserts: iset<Fact<K, V>>,
                                              st: seq<Stages<(K, V)>>, u: set<Fact<K, V>>)
    requires Sound(rules, inserts, st) && Universe(rules, inserts, u)
    ensures |Known(st)| <= |u|
  {
    KnownFacts(st);
    VisibleWithinAll(st);
    var facts := iset f | f in u;
    assert AllFacts(st) <= facts;
    assert Known(st) <= u;
    SubsetCardinality(Known(st), u);
  }

  /** Runs the program and completes every variable: the least fixpoint, each
      variable's part of it strictly sorted. No assertion of `complete` fails. */
  method Solve<K(!new, ==), V(!new, ==)>(ltK: (K, K) -> bool, ltV: (V, V) -> bool, vars: seq<Variable<(K, V)>>,
                                         rules: seq<Rule<K, V>>, maxRounds: nat) returns (r: Option<seq<seq<(K, V)>>>)
    requires ValidVariables(ltK, ltV, vars) && ValidProgram(ltK, ltV, |vars|, rules)
    requires forall i :: 0 <= i < |vars| ==> vars[i].stable == [] && vars[i].recent == []
    modifies vars
    ensures r.Some? ==> |r.value| == |vars|
    ensures r.Some? ==> forall i :: 0 <= i < |vars| ==> Sorted(Lex(ltK, ltV), r.value[i])
    ensures r.Some? ==> forall i, x :: 0 <= i < |vars| ==>
      (x in r.value[i] <==> InLeast(rules, old(AllFacts(Views(vars))), (i, x)))
    ensures old(CyclesDistinct(rules, Views(vars))) ==>
              forall u :: Universe(rules, old(AllFacts(Views(vars))), u) ==>
                Bound(|u|, old(|Indistinct(Views(vars))|)) <= maxRounds ==> r.Some?
  {
    hide InLeast, Universe, StrictTotal, CyclesDistinct, Bound;
    var done := Run(ltK, ltV, vars, rules, maxRounds);
    if !done {
      return None;
    }
    ghost var st := Views(vars);
    var results: seq<seq<(K, V)>> := [];
    for n := 0 to |vars|
      invariant |results| == n
      invariant forall i :: n <= i < |vars| ==>
                  vars[i].View() == st[i] && vars[i].Valid() && vars[i].lt == Lex(ltK, ltV)
      invariant forall i :: 0 <= i < n ==> Sorted(Lex(ltK, ltV), results[i]) && Elems(results[i]) == st[i].All()
    {
      var result := vars[n].Complete();
      results := results + [result.value];
    }
    forall i, x | 0 <= i < |vars|
      ensures x in results[i] <==> (i, x) in AllFacts(st)
    {
      assert x in results[i] <==> x in Elems(results[i]);
    }
    return Some(results);
  }
}
