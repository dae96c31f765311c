/** What a select renders as, in terms of the argument alone: which keys an argument
    answers to, and that the first such variant is taken, else the first default. */
module TemplateSelects {
  import opened Options
  import opened Template

  /** The keys an argument answers to: a text to its own name; a number to itself and to
      its English plural category. */
  function AnswersKeys(v: Value): set<Key> {
    match v
    case Str(s) => {Name(s)}
    case Num(n) => {NumberKey(n), Name(if n == 1 || n == -1 then "one" else "other")}
  }

  function SelectOn(x: Inline, variants: seq<Variant>): Pattern {
    Pattern([Placeable(Select(x, variants))])
  }

  // ----- any list of variants -----

  lemma OneElement(e: Expression, args: Args)
    ensures Render(Pattern([Placeable(e)]), args) == RenderExpression(e, args)
  {
    var p := Pattern([Placeable(e)]);
    var r := RenderElement(p.elements[0], args);
    assert p.elements[1..] == [];
    assert RenderElements(p.elements[1..], args) == Just("");
    assert RenderElements(p.elements, args) == r.Append(Just(""));
    assert r.Append(Just("")) == r;
  }

  lemma {:induction false} ChosenRenders(variants: seq<Variant>, i: nat, args: Args)
    requires i < |variants|
    ensures RenderChosen(variants, i, args) == Render(variants[i].value, args)
  {
    if i > 0 {
      ChosenRenders(variants[1..], i - 1, args);
    }
  }

  lemma AnswersTo(key: Key, v: Value)
    ensures KeyMatches(key, match v case Str(s) => SelectStr(s) case Num(n) => SelectNum(n)) <==> key in AnswersKeys(v)
  {
  }

  /** The first variant with a key that the argument answers to is rendered. */
  lemma FirstAnswer(x: string, variants: seq<Variant>, args: Args, i: nat)
    requires x in args && i < |variants| && variants[i].key in AnswersKeys(args[x])
    requires forall j :: 0 <= j < i ==> variants[j].key !in AnswersKeys(args[x])
    ensures Render(SelectOn(Variable(x), variants), args) == Render(variants[i].value, args)
  {
    hide KeyMatches, Render;
    forall j | 0 <= j < |variants|
      ensures KeyMatches(variants[j].key, Resolve(Variable(x), args).0) <==> variants[j].key in AnswersKeys(args[x])
    {
      AnswersTo(variants[j].key, args[x]);
    }
    OneElement(Select(Variable(x), variants), args);
    ChosenRenders(variants, i, args);
    assert Choose(variants, Resolve(Variable(x), args).0) == Some(i);
    NothingAsked(Render(variants[i].value, args));
  }

  lemma NothingAsked(r: Rendered)
    ensures Rendered("", []).Append(r) == r
  {
  }

  /** Otherwise the first default is. */
  lemma NoAnswer(x: string, variants: seq<Variant>, args: Args, i: nat)
    requires x in args && i < |variants| && variants[i].isDefault
    requires forall j :: 0 <= j < |variants| ==> variants[j].key !in AnswersKeys(args[x])
    requires forall j :: 0 <= j < i ==> !variants[j].isDefault
    ensures Render(SelectOn(Variable(x), variants), args) == Render(variants[i].value, args)
  {
    hide KeyMatches, Render;
    forall j | 0 <= j < |variants|
      ensures !KeyMatches(variants[j].key, Resolve(Variable(x), args).0)
    {
      AnswersTo(variants[j].key, args[x]);
    }
    OneElement(Select(Variable(x), variants), args);
    ChosenRenders(variants, i, args);
    assert Choose(variants, Resolve(Variable(x), args).0) == Some(i);
    NothingAsked(Render(variants[i].value, args));
  }

  /** And without a default nothing is. */
  lemma NothingAnswers(x: string, variants: seq<Variant>, args: Args)
    requires x in args
    requires forall j :: 0 <= j < |variants| ==> variants[j].key !in AnswersKeys(args[x]) && !variants[j].isDefault
    ensures Render(SelectOn(Variable(x), variants), args) == Rendered("", [])
  {
    hide KeyMatches;
    forall j | 0 <= j < |variants|
      ensures !KeyMatches(variants[j].key, Resolve(Variable(x), args).0)
    {
      AnswersTo(variants[j].key, args[x]);
    }
    OneElement(Select(Variable(x), variants), args);
  }

  /** A variable that is missing is reported, and the first default is rendered. */
  lemma MissingSelector(x: string, variants: seq<Variant>, args: Args, i: nat)
    requires x !in args && i < |variants| && variants[i].isDefault
    requires forall j :: 0 <= j < i ==> !variants[j].isDefault
    ensures Render(SelectOn(Variable(x), variants), args) == Rendered("", [x]).Append(Render(variants[i].value, args))
  {
    OneElement(Select(Variable(x), variants), args);
    ChosenRenders(variants, i, args);
    assert Choose(variants, SelectError) == Some(i);
  }

  // ----- two variants -----

  /** A variant and the default, in either order. */
  function TwoWay(key: Key, a: Pattern, other: Key, b: Pattern, defaultFirst: bool): seq<Variant> {
    var one, two := Variant(key, a, false), Variant(other, b, true);
    if defaultFirst then [two, one] else [one, two]
  }

  lemma TwoWayRenders(x: string, key: Key, a: Pattern, other: Key, b: Pattern, defaultFirst: bool, args: Args)
    requires x in args
    ensures Render(SelectOn(Variable(x), TwoWay(key, a, other, b, defaultFirst)), args) ==
            if key in AnswersKeys(args[x]) && !(defaultFirst && other in AnswersKeys(args[x])) then Render(a, args)
            else Render(b, args)
  {
    hide Render, AnswersKeys;
    var variants := TwoWay(key, a, other, b, defaultFirst);
    var k, d := if defaultFirst then 1 else 0, if defaultFirst then 0 else 1;
    assert variants[k] == Variant(key, a, false) && variants[d] == Variant(other, b, true);
    if key in AnswersKeys(args[x]) && !(defaultFirst && other in AnswersKeys(args[x])) {
      FirstAnswer(x, variants, args, k);
    } else if other in AnswersKeys(args[x]) {
      FirstAnswer(x, variants, args, d);
    } else {
      NoAnswer(x, variants, args, d);
    }
  }

  /** `[one] a *[other] b`: the English plural of the absolute value. */
  lemma Plural(x: string, n: int, a: Pattern, b: Pattern, defaultFirst: bool, args: Args)
    requires x in args && args[x] == Num(n)
    ensures Render(SelectOn(Variable(x), TwoWay(Name("one"), a, Name("other"), b, defaultFirst)), args) ==
            if n == 1 || n == -1 then Render(a, args) else Render(b, args)
  {
    hide Render;
    TwoWayRenders(x, Name("one"), a, Name("other"), b, defaultFirst, args);
  }

  /** `[k] a *[other] b`: the number itself. With the default first, its own key comes
      before the number for all but one and minus one. */
  lemma NumberedVariant(x: string, n: int, k: int, a: Pattern, b: Pattern, defaultFirst: bool, args: Args)
    requires x in args && args[x] == Num(n)
    ensures Render(SelectOn(Variable(x), TwoWay(NumberKey(k), a, Name("other"), b, defaultFirst)), args) ==
            if n == k && (!defaultFirst || n == 1 || n == -1) then Render(a, args) else Render(b, args)
  {
    hide Render;
    TwoWayRenders(x, NumberKey(k), a, Name("other"), b, defaultFirst, args);
  }

  /** `[name] a *[d] b` on a text. */
  lemma NamedVariant(x: string, s: string, name: string, a: Pattern, d: string, b: Pattern, defaultFirst: bool,
                     args: Args)
    requires x in args && args[x] == Str(s)
    ensures Render(SelectOn(Variable(x), TwoWay(Name(name), a, Name(d), b, defaultFirst)), args) ==
            if s == name && !(defaultFirst && s == d) then Render(a, args) else Render(b, args)
  {
    hide Render;
    TwoWayRenders(x, Name(name), a, Name(d), b, defaultFirst, args);
  }

  /** No other plural category ever matches a number. */
  lemma NoOtherCategory(x: string, n: int, name: string, a: Pattern, d: Key, b: Pattern, defaultFirst: bool, args: Args)
    requires x in args && args[x] == Num(n) && name != "one" && name != "other"
    ensures Render(SelectOn(Variable(x), TwoWay(Name(name), a, d, b, defaultFirst)), args) == Render(b, args)
    ensures forall c :: c in {"zero", "two", "few", "many"} ==>
              Render(SelectOn(Variable(x), TwoWay(Name(c), a, d, b, defaultFirst)), args) == Render(b, args)
  {
    hide Render;
    TwoWayRenders(x, Name(name), a, d, b, defaultFirst, args);
    forall c | c in {"zero", "two", "few", "many"}
      ensures Render(SelectOn(Variable(x), TwoWay(Name(c), a, d, b, defaultFirst)), args) == Render(b, args)
    {
      TwoWayRenders(x, Name(c), a, d, b, defaultFirst, args);
    }
  }

  /** A number key never matches a text. */
  lemma TextIsNoNumber(x: string, s: string, k: int, a: Pattern, d: Key, b: Pattern, defaultFirst: bool, args: Args)
    requires x in args && args[x] == Str(s)
    ensures Render(SelectOn(Variable(x), TwoWay(NumberKey(k), a, d, b, defaultFirst)), args) == Render(b, args)
  {
    hide Render;
    TwoWayRenders(x, NumberKey(k), a, d, b, defaultFirst, args);
  }

  /** A number literal selects like an argument, as long as it fits 32 bits. */
  lemma LiteralSelector(n: int, k: int, a: Pattern, b: Pattern, args: Args)
    ensures Render(SelectOn(Number(n), TwoWay(NumberKey(k), a, Name("other"), b, false)), args) ==
            if n == k && -0x8000_0000 <= n < 0x8000_0000 then Render(a, args) else Render(b, args)
  {
    var variants := TwoWay(NumberKey(k), a, Name("other"), b, false);
    OneElement(Select(Number(n), variants), args);
    ChosenRenders(variants, 0, args);
    ChosenRenders(variants, 1, args);
    NothingAsked(Render(a, args));
    NothingAsked(Render(b, args));
  }

  // ----- comparing texts -----

  function Equals(x: string, y: string): Inline {
    StrEq(Variable(x), Variable(y))
  }

  /** `STREQ` tells whether two texts are equal; numbers are no texts. */
  lemma EqualTexts(x: string, y: string, args: Args)
    requires x in args && y in args
    ensures Render(Pattern([Placeable(Simple(Equals(x, y)))]), args).text ==
            if args[x].Num? || args[y].Num? then "STREQ()" else if args[x] == args[y] then "true" else "false"
    ensures Render(Pattern([Placeable(Simple(Equals(x, y)))]), args).unresolved == []
  {
    OneElement(Simple(Equals(x, y)), args);
    assert Resolve(Variable(x), args).1 == [] && Resolve(Variable(y), args).1 == [];
    assert RenderExpression(Simple(Equals(x, y)), args) == RenderInline(Equals(x, y), args);
    assert Resolve(Equals(x, y), args).1 == [];
  }

  /** And a select on it takes `[true]` exactly when they are. */
  lemma SelectEqual(x: string, y: string, a: Pattern, b: Pattern, args: Args)
    requires x in args && y in args
    ensures Render(SelectOn(Equals(x, y), TwoWay(Name("true"), a, Name("false"), b, false)), args) ==
            if args[x].Str? && args[x] == args[y] then Render(a, args) else Render(b, args)
  {
    var variants := TwoWay(Name("true"), a, Name("false"), b, false);
    OneElement(Select(Equals(x, y), variants), args);
    ChosenRenders(variants, 0, args);
    ChosenRenders(variants, 1, args);
    NothingAsked(Render(a, args));
    NothingAsked(Render(b, args));
    assert Resolve(Equals(x, y), args).1 == [];
  }

  // ----- a variable alone -----

  /** A variable is its argument; a missing one is written back and reported. */
  lemma VariableRenders(x: string, args: Args)
    ensures Render(Pattern([Placeable(Simple(Variable(x)))]), args) ==
            if x !in args then Rendered("{$" + x + "}", [x])
            else Rendered(match args[x] case Str(s) => s case Num(n) => Decimal(n), [])
  {
    OneElement(Simple(Variable(x)), args);
  }
}
