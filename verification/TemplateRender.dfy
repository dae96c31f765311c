/** The walks over the tree that write into an accumulator, and what supplying an argument
    means (frontend_diag_template/src/lib.rs:147-186, 814-933). */
module TemplateRender {
  import opened Options
  import opened Template

  // ----- collecting references -----

  class Names {
    var refs: seq<string>

    constructor ()
      ensures refs == []
    {
      refs := [];
    }
  }

  method VariableReferences(p: Pattern) returns (r: seq<string>)
    ensures r == References(p)
  {
    var names := new Names();
    WalkPattern(p, names);
    r := names.refs;
  }

  method WalkPattern(p: Pattern, names: Names)
    modifies names
    ensures names.refs == old(names.refs) + References(p)
    decreases p, 1
  {
    WalkElements(p.elements, names);
  }

  method WalkElements(es: seq<Element>, names: Names)
    modifies names
    ensures names.refs == old(names.refs) + ElementReferences(es)
    decreases es, 0
  {
    for i := 0 to |es|
      invariant old(names.refs) + ElementReferences(es) == names.refs + ElementReferences(es[i..])
    {
      assert es[i..][1..] == es[i + 1..];
      WalkElement(es[i], names);
    }
  }

  method WalkElement(e: Element, names: Names)
    modifies names
    ensures names.refs == old(names.refs) + OneReferences(e)
    decreases e, 3
  {
    if e.Placeable? {
      WalkExpression(e.expression, names);
    }
  }

  method WalkExpression(e: Expression, names: Names)
    modifies names
    ensures names.refs == old(names.refs) + ExpressionReferences(e)
    decreases e, 2
  {
    match e
    case Simple(inline) => WalkInline(inline, names);
    case Select(selector, variants) =>
      WalkInline(selector, names);
      WalkVariants(variants, names);
  }

  method WalkVariants(vs: seq<Variant>, names: Names)
    modifies names
    ensures names.refs == old(names.refs) + VariantReferences(vs)
    decreases vs, 0
  {
    for i := 0 to |vs|
      invariant old(names.refs) + VariantReferences(vs) == names.refs + VariantReferences(vs[i..])
    {
      assert vs[i..][1..] == vs[i + 1..];
      WalkVariant(vs[i], names);
    }
  }

  method WalkVariant(v: Variant, names: Names)
    modifies names
    ensures names.refs == old(names.refs) + OwnReferences(v)
    decreases v, 2
  {
    WalkPattern(v.value, names);
  }

  method WalkInline(i: Inline, names: Names)
    modifies names
    ensures names.refs == old(names.refs) + InlineReferences(i)
    decreases i, 1
  {
    match i
    case Variable(name) => names.refs := names.refs + [name];
    case Literal(_) =>
    case Number(_) =>
    case StrEq(a, b) =>
      WalkInline(a, names);
      WalkInline(b, names);
    case Nested(e) => WalkExpression(e, names);
  }

  // ----- rendering into an accumulator -----

  class Output {
    var text: string
    var unresolved: seq<string>

    ghost function View(): Rendered
      reads this
    {
      Rendered(text, unresolved)
    }

    constructor ()
      ensures View() == Just("")
    {
      text, unresolved := "", [];
    }
  }

  lemma AppendAssociative(a: Rendered, b: Rendered, c: Rendered)
    ensures a.Append(b).Append(c) == a.Append(b.Append(c))
  {
  }

  method RenderMessage(p: Pattern, args: Args) returns (r: Rendered)
    ensures r == Render(p, args)
  {
    var out := new Output();
    WritePattern(p, args, out);
    r := Rendered(out.text, out.unresolved);
  }

  method WritePattern(p: Pattern, args: Args, out: Output)
    modifies out
    ensures out.View() == old(out.View()).Append(Render(p, args))
    decreases p, 1
  {
    WriteElements(p.elements, args, out);
  }

  method WriteElements(es: seq<Element>, args: Args, out: Output)
    modifies out
    ensures out.View() == old(out.View()).Append(RenderElements(es, args))
    decreases es, 0
  {
    for i := 0 to |es|
      invariant old(out.View()).Append(RenderElements(es, args)) == out.View().Append(RenderElements(es[i..], args))
    {
      assert es[i..][1..] == es[i + 1..];
      AppendAssociative(out.View(), RenderElement(es[i], args), RenderElements(es[i + 1..], args));
      WriteElement(es[i], args, out);
    }
  }

  method WriteElement(e: Element, args: Args, out: Output)
    modifies out
    ensures out.View() == old(out.View()).Append(RenderElement(e, args))
    decreases e, 3
  {
    match e
    case Text(text) => out.text := out.text + text;
    case Placeable(expression) => WriteExpression(expression, args, out);
  }

  method WriteExpression(e: Expression, args: Args, out: Output)
    modifies out
    ensures out.View() == old(out.View()).Append(RenderExpression(e, args))
    decreases e, 2
  {
    match e
    case Simple(inline) => WriteInline(inline, args, out);
    case Select(selector, variants) =>
      ghost var asked := Rendered("", Resolve(selector, args).1);
      var s := ResolveInto(selector, args, out);
      assert out.View() == old(out.View()).Append(asked);
      var chosen := WriteChosen(variants, s, args, out);
      if chosen.Some? {
        AppendAssociative(old(out.View()), asked, RenderChosen(variants, chosen.value, args));
      }
  }

  /** The first variant that matches, else the first default, else nothing. */
  method WriteChosen(variants: seq<Variant>, s: Selector, args: Args, out: Output) returns (chosen: Option<nat>)
    modifies out
    ensures chosen == Choose(variants, s)
    ensures chosen.None? ==> out.View() == old(out.View())
    ensures chosen.Some? ==> out.View() == old(out.View()).Append(RenderChosen(variants, chosen.value, args))
    decreases variants, 0
  {
    if !s.SelectError? {
      for i := 0 to |variants|
        invariant out.View() == old(out.View())
        invariant forall j :: 0 <= j < i ==> !KeyMatches(variants[j].key, s)
      {
        if KeyMatches(variants[i].key, s) {
          ChosenIs(variants, i, args);
          WriteVariant(variants[i], args, out);
          return Some(i);
        }
      }
    }
    for i := 0 to |variants|
      invariant out.View() == old(out.View())
      invariant forall j :: 0 <= j < i ==> !variants[j].isDefault
    {
      if variants[i].isDefault {
        ChosenIs(variants, i, args);
        WriteVariant(variants[i], args, out);
        return Some(i);
      }
    }
    return None;
  }

  lemma {:induction false} ChosenIs(variants: seq<Variant>, i: nat, args: Args)
    requires i < |variants|
    ensures RenderChosen(variants, i, args) == RenderVariant(variants[i], args)
    decreases i
  {
    if i > 0 {
      ChosenIs(variants[1..], i - 1, args);
    }
  }

  method WriteVariant(v: Variant, args: Args, out: Output)
    modifies out
    ensures out.View() == old(out.View()).Append(RenderVariant(v, args))
    decreases v, 2
  {
    WritePattern(v.value, args, out);
  }

  method WriteInline(i: Inline, args: Args, out: Output)
    modifies out
    ensures out.View() == old(out.View()).Append(RenderInline(i, args))
    decreases i, 1
  {
    match i
    case Variable(name) =>
      if name in args {
        match args[name]
        case Str(s) => out.text := out.text + s;
        case Num(n) => out.text := out.text + Decimal(n);
      } else {
        out.unresolved := out.unresolved + [name];
        out.text := out.text + ("{$" + name + "}");
      }
    case Literal(s) => out.text := out.text + s;
    case Number(n) => out.text := out.text + Decimal(n);
    case StrEq(_, _) =>
      var s := ResolveInto(i, args, out);
      out.text := out.text + match s
                             case SelectStr(t) => t
                             case SelectNum(n) => Decimal(n)
                             case SelectError => "STREQ()";
    case Nested(e) => WriteExpression(e, args, out);
  }

  /** Only the variables asked for in vain are written. */
  method ResolveInto(i: Inline, args: Args, out: Output) returns (s: Selector)
    modifies out
    ensures s == Resolve(i, args).0
    ensures out.text == old(out.text) && out.unresolved == old(out.unresolved) + Resolve(i, args).1
    decreases i, 0
  {
    match i
    case Variable(name) =>
      if name in args {
        match args[name]
        case Str(t) => s := SelectStr(t);
        case Num(n) => s := SelectNum(n);
      } else {
        out.unresolved := out.unresolved + [name];
        s := SelectError;
      }
    case Literal(t) => s := SelectStr(t);
    case Number(n) => s := if I32_MIN <= n <= I32_MAX then SelectNum(n) else SelectError;
    case StrEq(a, b) =>
      var x := ResolveInto(a, args, out);
      var y := ResolveInto(b, args, out);
      s := if x.SelectStr? && y.SelectStr? then SelectStr(if x.text == y.text then "true" else "false")
          else SelectError;
    case Nested(e) =>
      var nested := new Output();
      WriteExpression(e, args, nested);
      out.unresolved := out.unresolved + nested.unresolved;
      s := SelectStr(nested.text);
  }

  // ----- supplying an argument -----

  function Written(v: Value): Inline {
    match v case Str(s) => Literal(s) case Num(n) => Number(n)
  }

  /** The template with an argument written out in place of a variable. */
  function Fill(p: Pattern, name: string, v: Value): Pattern
    decreases p, 1
  {
    Pattern(FillElements(p.elements, name, v))
  }

  function FillElements(es: seq<Element>, name: string, v: Value): seq<Element>
    decreases es, 0
  {
    if es == [] then [] else [FillElement(es[0], name, v)] + FillElements(es[1..], name, v)
  }

  function FillElement(e: Element, name: string, v: Value): Element
    decreases e, 3
  {
    if e.Text? then e else Placeable(FillExpression(e.expression, name, v))
  }

  function FillExpression(e: Expression, name: string, v: Value): Expression
    decreases e, 2
  {
    match e
    case Simple(inline) => Simple(FillInline(inline, name, v))
    case Select(selector, variants) => Select(FillInline(selector, name, v), FillVariants(variants, name, v))
  }

  function FillVariants(vs: seq<Variant>, name: string, v: Value): (r: seq<Variant>)
    ensures |r| == |vs|
    decreases vs, 0
  {
    if vs == [] then [] else [FillVariant(vs[0], name, v)] + FillVariants(vs[1..], name, v)
  }

  function FillVariant(variant: Variant, name: string, v: Value): Variant
    decreases variant, 2
  {
    Variant(variant.key, Fill(variant.value, name, v), variant.isDefault)
  }

  function FillInline(i: Inline, name: string, v: Value): Inline
    decreases i, 1
  {
    match i
    case Variable(n) => if n == name then Written(v) else i
    case StrEq(a, b) => StrEq(FillInline(a, name, v), FillInline(b, name, v))
    case Nested(e) => Nested(FillExpression(e, name, v))
    case _ => i
  }

  predicate InRange(v: Value) {
    v.Num? ==> I32_MIN <= v.number <= I32_MAX
  }

  /** Supplying an argument renders as writing it into the template, in text, selectors
      and comparisons alike. */
  lemma {:induction false} FillRenders(p: Pattern, name: string, v: Value, args: Args)
    requires InRange(v)
    ensures Render(Fill(p, name, v), args) == Render(p, args[name := v])
    decreases p, 1
  {
    FillElementsRender(p.elements, name, v, args);
  }

  lemma {:induction false} FillElementsRender(es: seq<Element>, name: string, v: Value, args: Args)
    requires InRange(v)
    ensures RenderElements(FillElements(es, name, v), args) == RenderElements(es, args[name := v])
    decreases es, 0
  {
    if es != [] {
      FillElementRenders(es[0], name, v, args);
      FillElementsRender(es[1..], name, v, args);
    }
  }

  lemma {:induction false} FillElementRenders(e: Element, name: string, v: Value, args: Args)
    requires InRange(v)
    ensures RenderElement(FillElement(e, name, v), args) == RenderElement(e, args[name := v])
    decreases e, 3
  {
    if e.Placeable? {
      FillExpressionRenders(e.expression, name, v, args);
    }
  }

  lemma {:induction false} FillExpressionRenders(e: Expression, name: string, v: Value, args: Args)
    requires InRange(v)
    ensures RenderExpression(FillExpression(e, name, v), args) == RenderExpression(e, args[name := v])
    decreases e, 2
  {
    match e
    case Simple(inline) => FillInlineRenders(inline, name, v, args);
    case Select(selector, variants) =>
      FillResolves(selector, name, v, args);
      var s := Resolve(selector, args[name := v]).0;
      FillChooses(variants, name, v, s);
      if Choose(variants, s).Some? {
        FillChosenRenders(variants, Choose(variants, s).value, name, v, args);
      }
  }

  lemma {:induction false} FillVariantsAre(vs: seq<Variant>, name: string, v: Value)
    ensures forall i :: 0 <= i < |vs| ==>
              FillVariants(vs, name, v)[i].key == vs[i].key && FillVariants(vs, name, v)[i].isDefault == vs[i].isDefault
    decreases vs, 0
  {
    if vs != [] {
      FillVariantsAre(vs[1..], name, v);
    }
  }

  /** The choice of a variant looks at keys and defaults only. */
  lemma {:induction false} FillChooses(vs: seq<Variant>, name: string, v: Value, s: Selector)
    ensures Choose(FillVariants(vs, name, v), s) == Choose(vs, s)
  {
    FillVariantsAre(vs, name, v);
  }

  lemma {:induction false} FillChosenRenders(vs: seq<Variant>, i: nat, name: string, v: Value, args: Args)
    requires InRange(v) && i < |vs|
    ensures RenderChosen(FillVariants(vs, name, v), i, args) == RenderChosen(vs, i, args[name := v])
    decreases vs, 0
  {
    if i == 0 {
      FillVariantRenders(vs[0], name, v, args);
    } else {
      FillChosenRenders(vs[1..], i - 1, name, v, args);
    }
  }

  lemma {:induction false} FillVariantRenders(variant: Variant, name: string, v: Value, args: Args)
    requires InRange(v)
    ensures RenderVariant(FillVariant(variant, name, v), args) == RenderVariant(variant, args[name := v])
    decreases variant, 2
  {
    FillRenders(variant.value, name, v, args);
  }

  lemma {:induction false} FillInlineRenders(i: Inline, name: string, v: Value, args: Args)
    requires InRange(v)
    ensures RenderInline(FillInline(i, name, v), args) == RenderInline(i, args[name := v])
    decreases i, 1
  {
    match i
    case StrEq(_, _) => FillResolves(i, name, v, args);
    case Nested(e) => FillExpressionRenders(e, name, v, args);
    case _ =>
  }

  lemma {:induction false} FillResolves(i: Inline, name: string, v: Value, args: Args)
    requires InRange(v)
    ensures Resolve(FillInline(i, name, v), args) == Resolve(i, args[name := v])
    decreases i, 0
  {
    match i
    case StrEq(a, b) =>
      FillResolves(a, name, v, args);
      FillResolves(b, name, v, args);
    case Nested(e) => FillExpressionRenders(e, name, v, args);
    case _ =>
  }
}
