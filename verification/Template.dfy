/** The template tree of a diagnostic message and its renderer
    (frontend_diag_template/src/lib.rs:43-186, 778-933). */
module Template {
  import opened Options

  datatype Pattern = Pattern(elements: seq<Element>)

  datatype Element = Text(text: string) | Placeable(expression: Expression)

  datatype Expression = Simple(inline: Inline) | Select(selector: Inline, variants: seq<Variant>)

  datatype Inline =
    | Variable(name: string)
    | Literal(text: string)
    | Number(number: int)
    | StrEq(left: Inline, right: Inline)
    | Nested(expression: Expression)

  datatype Variant = Variant(key: Key, value: Pattern, isDefault: bool)

  datatype Key = Name(name: string) | NumberKey(number: int)

  // ----- references -----

  /** Every `$variable`, in source order, duplicates kept. */
  function References(p: Pattern): seq<string>
    decreases p, 1
  {
    ElementReferences(p.elements)
  }

  function ElementReferences(es: seq<Element>): seq<string>
    decreases es, 0
  {
    if es == [] then [] else OneReferences(es[0]) + ElementReferences(es[1..])
  }

  function OneReferences(e: Element): seq<string>
    decreases e, 3
  {
    if e.Text? then [] else ExpressionReferences(e.expression)
  }

  function ExpressionReferences(e: Expression): seq<string>
    decreases e, 2
  {
    match e
    case Simple(inline) => InlineReferences(inline)
    case Select(selector, variants) => InlineReferences(selector) + VariantReferences(variants)
  }

  function VariantReferences(vs: seq<Variant>): seq<string>
    decreases vs, 0
  {
    if vs == [] then [] else OwnReferences(vs[0]) + VariantReferences(vs[1..])
  }

  function OwnReferences(v: Variant): seq<string>
    decreases v, 2
  {
    References(v.value)
  }

  function InlineReferences(i: Inline): seq<string>
    decreases i, 1
  {
    match i
    case Variable(name) => [name]
    case Literal(_) => []
    case Number(_) => []
    case StrEq(a, b) => InlineReferences(a) + InlineReferences(b)
    case Nested(e) => ExpressionReferences(e)
  }

  // ----- rendering -----

  datatype Value = Str(text: string) | Num(number: int)

  type Args = map<string, Value>

  /** The text so far and the variables the arguments did not carry. */
  datatype Rendered = Rendered(text: string, unresolved: seq<string>) {
    function Append(more: Rendered): Rendered {
      Rendered(text + more.text, unresolved + more.unresolved)
    }
  }

  datatype Selector = SelectStr(text: string) | SelectNum(number: int) | SelectError

  function Just(text: string): Rendered {
    Rendered(text, [])
  }

  /** Decimal notation. */
  function Decimal(n: int): string
    decreases if n < 0 then 1 - n else n
  {
    if n < 0 then "-" + Decimal(-n)
    else if n < 10 then [('0' as int + n) as char]
    else Decimal(n / 10) + [('0' as int + n % 10) as char]
  }

  const I32_MIN := -0x8000_0000
  const I32_MAX := 0x7FFF_FFFF

  predicate KeyMatches(key: Key, selector: Selector) {
    match (key, selector)
    case (Name(name), SelectStr(value)) => name == value
    case (NumberKey(n), SelectNum(value)) => n == value
    case (Name(name), SelectNum(value)) =>
      if name == "one" then value == 1 || value == -1
      else name == "other" && value != 1 && value != -1
    case _ => false
  }

  /** The variant that answers for a selector: the first that matches, else the first
      marked default. */
  function Choose(variants: seq<Variant>, selector: Selector): (r: Option<nat>)
    ensures r.Some? ==> r.value < |variants|
  {
    var hit := if selector.SelectError? then None else FirstMatch(variants, selector, 0);
    if hit.Some? then hit else FirstDefault(variants, 0)
  }

  function FirstMatch(variants: seq<Variant>, selector: Selector, i: nat): (r: Option<nat>)
    requires i <= |variants|
    ensures r.Some? ==> i <= r.value < |variants| && KeyMatches(variants[r.value].key, selector)
    ensures forall j :: i <= j < (if r.Some? then r.value else |variants|) ==> !KeyMatches(variants[j].key, selector)
    decreases |variants| - i
  {
    if i == |variants| then None
    else if KeyMatches(variants[i].key, selector) then Some(i)
    else FirstMatch(variants, selector, i + 1)
  }

  function FirstDefault(variants: seq<Variant>, i: nat): (r: Option<nat>)
    requires i <= |variants|
    ensures r.Some? ==> i <= r.value < |variants| && variants[r.value].isDefault
    ensures forall j :: i <= j < (if r.Some? then r.value else |variants|) ==> !variants[j].isDefault
    decreases |variants| - i
  {
    if i == |variants| then None
    else if variants[i].isDefault then Some(i)
    else FirstDefault(variants, i + 1)
  }

  function Render(p: Pattern, args: Args): Rendered
    decreases p, 1
  {
    RenderElements(p.elements, args)
  }

  function RenderElements(es: seq<Element>, args: Args): Rendered
    decreases es, 0
  {
    if es == [] then Just("") else RenderElement(es[0], args).Append(RenderElements(es[1..], args))
  }

  function RenderElement(e: Element, args: Args): Rendered
    decreases e, 3
  {
    match e
    case Text(text) => Just(text)
    case Placeable(expression) => RenderExpression(expression, args)
  }

  function RenderExpression(e: Expression, args: Args): Rendered
    decreases e, 2
  {
    match e
    case Simple(inline) => RenderInline(inline, args)
    case Select(selector, variants) =>
      var (s, asked) := Resolve(selector, args);
      var chosen := Choose(variants, s);
      if chosen.None? then Rendered("", asked)
      else Rendered("", asked).Append(RenderChosen(variants, chosen.value, args))
  }

  function RenderChosen(variants: seq<Variant>, i: nat, args: Args): Rendered
    requires i < |variants|
    decreases variants, 0
  {
    if i == 0 then RenderVariant(variants[0], args) else RenderChosen(variants[1..], i - 1, args)
  }

  function RenderVariant(v: Variant, args: Args): Rendered
    decreases v, 2
  {
    Render(v.value, args)
  }

  function RenderInline(i: Inline, args: Args): Rendered
    decreases i, 1
  {
    match i
    case Variable(name) =>
      if name !in args then Rendered("{$" + name + "}", [name])
      else Just(match args[name] case Str(s) => s case Num(n) => Decimal(n))
    case Literal(s) => Just(s)
    case Number(n) => Just(Decimal(n))
    case StrEq(_, _) =>
      var (s, asked) := Resolve(i, args);
      Rendered(match s case SelectStr(t) => t case SelectNum(n) => Decimal(n) case SelectError => "STREQ()", asked)
    case Nested(e) => RenderExpression(e, args)
  }

  /** What a selector resolves to, and the variables it asked for in vain. */
  function Resolve(i: Inline, args: Args): (Selector, seq<string>)
    decreases i, 0
  {
    match i
    case Variable(name) =>
      if name !in args then (SelectError, [name])
      else (match args[name] case Str(s) => SelectStr(s) case Num(n) => SelectNum(n), [])
    case Literal(s) => (SelectStr(s), [])
    case Number(n) => (if I32_MIN <= n <= I32_MAX then SelectNum(n) else SelectError, [])
    case StrEq(a, b) =>
      var (x, asked) := Resolve(a, args);
      var (y, asked') := Resolve(b, args);
      (if x.SelectStr? && y.SelectStr? then SelectStr(if x.text == y.text then "true" else "false") else SelectError,
       asked + asked')
    case Nested(e) =>
      var nested := RenderExpression(e, args);
      (SelectStr(nested.text), nested.unresolved)
  }

  // ----- subsequences -----

  /** `a` arises from `b` by leaving out elements. */
  ghost predicate Subsequence<T>(a: seq<T>, b: seq<T>)
    decreases b
  {
    if a == [] then true
    else if b == [] then false
    else (a[0] == b[0] && Subsequence(a[1..], b[1..])) || Subsequence(a, b[1..])
  }

  lemma {:induction false} SubsequenceSkips<T>(a: seq<T>, p: seq<T>, b: seq<T>)
    requires Subsequence(a, b)
    ensures Subsequence(a, p + b)
  {
    if p == [] {
      assert p + b == b;
    } else {
      SubsequenceSkips(a, p[1..], b);
      assert (p + b)[1..] == p[1..] + b;
    }
  }

  lemma {:induction false} SubsequenceConcat<T>(a: seq<T>, a': seq<T>, b: seq<T>, b': seq<T>)
    requires Subsequence(a, b) && Subsequence(a', b')
    ensures Subsequence(a + a', b + b')
    decreases b
  {
    if a == [] {
      assert a + a' == a';
      SubsequenceSkips(a', b, b');
    } else {
      assert (b + b')[1..] == b[1..] + b';
      if a[0] == b[0] && Subsequence(a[1..], b[1..]) {
        assert (a + a')[1..] == a[1..] + a';
        SubsequenceConcat(a[1..], a', b[1..], b');
      } else {
        SubsequenceConcat(a, a', b[1..], b');
      }
    }
  }

  lemma {:induction false} SubsequenceMembers<T>(a: seq<T>, b: seq<T>, x: T)
    requires Subsequence(a, b) && x in a
    ensures x in b
    decreases b
  {
    if !(a[0] == b[0] && Subsequence(a[1..], b[1..])) {
      SubsequenceMembers(a, b[1..], x);
    } else if x != a[0] {
      SubsequenceMembers(a[1..], b[1..], x);
    }
  }

  // ----- what rendering asks for -----

  ghost predicate Missing(asked: seq<string>, refs: seq<string>, args: Args) {
    Subsequence(asked, refs) && forall n :: n in asked ==> n !in args
  }

  lemma MissingConcat(a: seq<string>, a': seq<string>, r: seq<string>, r': seq<string>, args: Args)
    requires Missing(a, r, args) && Missing(a', r', args)
    ensures Missing(a + a', r + r', args)
  {
    SubsequenceConcat(a, a', r, r');
  }

  lemma MissingSkips(a: seq<string>, r: seq<string>, r': seq<string>, args: Args)
    requires Missing(a, r, args)
    ensures Missing(a, r + r', args) && Missing(a, r' + r, args)
  {
    SubsequenceConcat(a, [], r, r');
    assert a + [] == a;
    SubsequenceSkips(a, r', r);
  }

  /** The unresolved variables are references that the arguments lack, in order. */
  lemma {:induction false} UnresolvedAreReferences(p: Pattern, args: Args)
    ensures Missing(Render(p, args).unresolved, References(p), args)
    decreases p, 1
  {
    UnresolvedElements(p.elements, args);
  }

  lemma {:induction false} UnresolvedElements(es: seq<Element>, args: Args)
    ensures Missing(RenderElements(es, args).unresolved, ElementReferences(es), args)
    decreases es, 0
  {
    if es != [] {
      UnresolvedElement(es[0], args);
      UnresolvedElements(es[1..], args);
      MissingConcat(RenderElement(es[0], args).unresolved, RenderElements(es[1..], args).unresolved,
                    OneReferences(es[0]), ElementReferences(es[1..]), args);
    }
  }

  lemma {:induction false} UnresolvedElement(e: Element, args: Args)
    ensures Missing(RenderElement(e, args).unresolved, OneReferences(e), args)
    decreases e, 3
  {
    if e.Placeable? {
      UnresolvedExpression(e.expression, args);
    }
  }

  lemma {:induction false} UnresolvedExpression(e: Expression, args: Args)
    ensures Missing(RenderExpression(e, args).unresolved, ExpressionReferences(e), args)
    decreases e, 2
  {
    match e
    case Simple(inline) => UnresolvedInline(inline, args);
    case Select(selector, variants) =>
      UnresolvedSelector(selector, args);
      var (s, asked) := Resolve(selector, args);
      var chosen := Choose(variants, s);
      if chosen.Some? {
        UnresolvedChosen(variants, chosen.value, args);
        MissingConcat(asked, RenderChosen(variants, chosen.value, args).unresolved,
            InlineReferences(selector), VariantReferences(variants), args);
      } else {
        MissingSkips(asked, InlineReferences(selector), VariantReferences(variants), args);
      }
  }

  lemma {:induction false} UnresolvedChosen(variants: seq<Variant>, i: nat, args: Args)
    requires i < |variants|
    ensures Missing(RenderChosen(variants, i, args).unresolved, VariantReferences(variants), args)
    decreases variants, 0
  {
    var first, rest := OwnReferences(variants[0]), VariantReferences(variants[1..]);
    if i == 0 {
      UnresolvedVariant(variants[0], args);
      MissingSkips(RenderVariant(variants[0], args).unresolved, first, rest, args);
    } else {
      UnresolvedChosen(variants[1..], i - 1, args);
      MissingSkips(RenderChosen(variants[1..], i - 1, args).unresolved, rest, first, args);
    }
  }

  lemma {:induction false} UnresolvedVariant(v: Variant, args: Args)
    ensures Missing(RenderVariant(v, args).unresolved, OwnReferences(v), args)
    decreases v, 2
  {
    UnresolvedAreReferences(v.value, args);
  }

  lemma {:induction false} UnresolvedInline(i: Inline, args: Args)
    ensures Missing(RenderInline(i, args).unresolved, InlineReferences(i), args)
    decreases i, 1
  {
    match i
    case StrEq(_, _) => UnresolvedSelector(i, args);
    case Nested(e) => UnresolvedExpression(e, args);
    case _ =>
  }

  lemma {:induction false} UnresolvedSelector(i: Inline, args: Args)
    ensures Missing(Resolve(i, args).1, InlineReferences(i), args)
    decreases i, 0
  {
    match i
    case StrEq(a, b) =>
      UnresolvedSelector(a, args);
      UnresolvedSelector(b, args);
      MissingConcat(Resolve(a, args).1, Resolve(b, args).1, InlineReferences(a), InlineReferences(b), args);
    case Nested(e) => UnresolvedExpression(e, args);
    case _ =>
  }

  /** Nothing is unresolved when every reference is supplied. */
  lemma SuppliedResolves(p: Pattern, args: Args)
    requires forall n :: n in References(p) ==> n in args
    ensures Render(p, args).unresolved == []
  {
    UnresolvedAreReferences(p, args);
    var u := Render(p, args).unresolved;
    if u != [] {
      SubsequenceMembers(u, References(p), u[0]);
      assert false;
    }
  }

  // ----- what rendering depends on -----

  ghost predicate Agree(refs: seq<string>, a: Args, b: Args) {
    forall n :: n in refs ==> (n in a <==> n in b) && (n in a ==> a[n] == b[n])
  }

  /** Only the referenced arguments matter. */
  lemma {:induction false} RenderDependsOnReferences(p: Pattern, a: Args, b: Args)
    requires Agree(References(p), a, b)
    ensures Render(p, a) == Render(p, b)
    decreases p, 1
  {
    ElementsDepend(p.elements, a, b);
  }

  lemma {:induction false} ElementsDepend(es: seq<Element>, a: Args, b: Args)
    requires Agree(ElementReferences(es), a, b)
    ensures RenderElements(es, a) == RenderElements(es, b)
    decreases es, 0
  {
    if es != [] {
      ElementDepends(es[0], a, b);
      ElementsDepend(es[1..], a, b);
    }
  }

  lemma {:induction false} ElementDepends(e: Element, a: Args, b: Args)
    requires Agree(OneReferences(e), a, b)
    ensures RenderElement(e, a) == RenderElement(e, b)
    decreases e, 3
  {
    if e.Placeable? {
      ExpressionDepends(e.expression, a, b);
    }
  }

  lemma {:induction false} ExpressionDepends(e: Expression, a: Args, b: Args)
    requires Agree(ExpressionReferences(e), a, b)
    ensures RenderExpression(e, a) == RenderExpression(e, b)
    decreases e, 2
  {
    match e
    case Simple(inline) => InlineDepends(inline, a, b);
    case Select(selector, variants) =>
      SelectorDepends(selector, a, b);
      var chosen := Choose(variants, Resolve(selector, a).0);
      if chosen.Some? {
        ChosenDepends(variants, chosen.value, a, b);
      }
  }

  lemma {:induction false} ChosenDepends(variants: seq<Variant>, i: nat, a: Args, b: Args)
    requires i < |variants| && Agree(VariantReferences(variants), a, b)
    ensures RenderChosen(variants, i, a) == RenderChosen(variants, i, b)
    decreases variants, 0
  {
    if i == 0 {
      VariantDepends(variants[0], a, b);
    } else {
      ChosenDepends(variants[1..], i - 1, a, b);
    }
  }

  lemma {:induction false} VariantDepends(v: Variant, a: Args, b: Args)
    requires Agree(OwnReferences(v), a, b)
    ensures RenderVariant(v, a) == RenderVariant(v, b)
    decreases v, 2
  {
    RenderDependsOnReferences(v.value, a, b);
  }

  lemma {:induction false} InlineDepends(i: Inline, a: Args, b: Args)
    requires Agree(InlineReferences(i), a, b)
    ensures RenderInline(i, a) == RenderInline(i, b)
    decreases i, 1
  {
    match i
    case StrEq(_, _) => SelectorDepends(i, a, b);
    case Nested(e) => ExpressionDepends(e, a, b);
    case _ =>
  }

  lemma {:induction false} SelectorDepends(i: Inline, a: Args, b: Args)
    requires Agree(InlineReferences(i), a, b)
    ensures Resolve(i, a) == Resolve(i, b)
    decreases i, 0
  {
    match i
    case StrEq(x, y) =>
      SelectorDepends(x, a, b);
      SelectorDepends(y, a, b);
    case Nested(e) => ExpressionDepends(e, a, b);
    case _ =>
  }

  // ----- defaults -----

  function Defaults(vs: seq<Variant>): nat {
    if vs == [] then 0 else Defaults(vs[..|vs| - 1]) + if vs[|vs| - 1].isDefault then 1 else 0
  }

  /** A select with a default always finds a variant; without one it finds one exactly
      when a key matches. */
  lemma {:induction false} DefaultsAnswer(vs: seq<Variant>, s: Selector)
    ensures Choose(vs, s).None? <==>
              Defaults(vs) == 0 && (s.SelectError? || forall v :: v in vs ==> !KeyMatches(v.key, s))
  {
    NoDefaults(vs);
  }

  lemma {:induction false} NoDefaults(vs: seq<Variant>)
    ensures Defaults(vs) == 0 <==> forall i :: 0 <= i < |vs| ==> !vs[i].isDefault
  {
    if vs != [] {
      NoDefaults(vs[..|vs| - 1]);
    }
  }
}
