/** Messages that consist of one placeable: what is written in it is what it renders as,
    and what a select without variants comes to. */
module TemplateMessages {
  import opened Options
  import opened Template
  import opened TemplateLexis
  import opened TemplateLines
  import opened TemplateGrammar
  import opened TemplateUnique
  import opened TemplateAbsent
  import opened TemplateCollect
  import opened TemplateDefaults
  import opened TemplateParser
  import opened TemplateSelects

  // ----- one placeable -----

  /** A placeable and the appended line feed are a pattern of one element. */
  lemma OnePlaceable(s: string, e: Expression)
    requires |s| > 1 && s[0] == '{' && s[|s| - 1] == '\n' && SpellsPlaceable(s, 1, |s| - 1, e)
    ensures SpellsPattern(s, 0, |s|, Pattern([Placeable(e)]))
  {
    hide TiledBy, LaidOut, SpellsPlaceable;
    OneTile(s, e);
    OneLaid(s, e);
    var parts, p := [OneHole(s, e), OneBreak(s)], Pattern([Placeable(e)]);
    assert p.elements[0] == Placeable(e);
    assert HoleSpelt(s, parts[0], p);
  }

  ghost function OneHole(s: string, e: Expression): Part
    requires |s| > 0
  {
    Hole(0, |s| - 1, false, e)
  }

  ghost function OneBreak(s: string): Part
    requires |s| > 0
  {
    Run(|s| - 1, |s|, |s|, false)
  }

  lemma OneTile(s: string, e: Expression)
    requires |s| > 1 && s[0] == '{' && s[|s| - 1] == '\n'
    ensures TiledBy(s, 0, |s|, [OneHole(s, e), OneBreak(s)])
  {
    var hole, run := OneHole(s, e), OneBreak(s);
    assert [hole, run][..1] == [hole] && [hole][..0] == [];
    assert Chained(s, 0, false, []);
    assert PartAt(s, hole, 0, false);
    assert Chained(s, 0, false, [hole]);
    assert TextStop(s, |s| - 1) == |s| - 1;
    assert PartAt(s, run, |s| - 1, false);
  }

  lemma OneLaid(s: string, e: Expression)
    requires |s| > 1 && s[0] == '{' && s[|s| - 1] == '\n'
    ensures LaidOut(s, [OneHole(s, e), OneBreak(s)], [Placeable(e)])
  {
    hide CommonIndent;
    var hole, run := OneHole(s, e), OneBreak(s);
    assert [hole, run][..1] == [hole] && [hole][..0] == [];
    assert Kept(s, [hole]) == [hole];
    assert Kept(s, [hole, run]) == [hole, run];
    assert LastSolid(s, [hole]) == Some(0);
    assert LastSolid(s, [hole, run]) == Some(0);
  }

  /** An inline expression between braces. */
  lemma OneInline(s: string, x: Inline)
    requires |s| > 2 && s[0] == '{' && s[|s| - 2] == '}' && s[|s| - 1] == '\n' && SpellsInline(s, 1, |s| - 2, x)
    ensures SpellsPattern(s, 0, |s|, Pattern([Placeable(Simple(x))]))
  {
    hide SpellsInline, SpellsPattern;
    InlineStarts(s, 1, |s| - 2, x);
    assert BlankEnd(s, 1) == 1 && BlankEnd(s, |s| - 2) == |s| - 2;
    assert SpellsExpression(s, 1, |s| - 2, Simple(x));
    OnePlaceable(s, Simple(x));
  }

  /** Parsing such a message gives its placeable, and renders as it. */
  method ParseOne(message: string, ghost e: Expression) returns (r: Result<Pattern>)
    requires SpellsPattern(message + "\n", 0, |message| + 1, Pattern([Placeable(e)]))
    ensures r == Ok(Pattern([Placeable(e)]))
    ensures forall args :: Render(r.value, args) == RenderExpression(e, args)
  {
    hide SpellsPattern, RenderExpression;
    ghost var p := Pattern([Placeable(e)]);
    r := Parse(message);
    assert r == Ok(p);
    forall args
      ensures Render(p, args) == RenderExpression(e, args)
    {
      OneElement(e, args);
    }
  }

  // ----- texts and numbers -----

  /** A text as a string literal in a placeable. */
  function Quoted(t: string): string {
    "{\"" + Escaped(t) + "\"}"
  }

  lemma QuotedSpelt(t: string)
    requires '\n' !in t
    ensures SpellsPattern(Quoted(t) + "\n", 0, |Quoted(t)| + 1, Pattern([Placeable(Simple(Literal(t)))]))
  {
    hide SpellsPattern, CloseQuote, Unescaped, Escaped, WellEscaped;
    var s := Quoted(t) + "\n";
    assert s == "{\"" + Escaped(t) + "\"" + "}\n";
    QuotedTextCloses("{\"", t, "}\n");
    assert s[2..2 + |Escaped(t)|] == Escaped(t);
    EscapeRoundTrip(t);
    assert LiteralAt(s, 1, |s| - 2, t);
    OneInline(s, Literal(t));
  }

  /** Every text without a line feed can be written as a message: the message is accepted,
      and renders as the text under any arguments. */
  method ParseQuoted(t: string) returns (r: Result<Pattern>)
    requires '\n' !in t
    ensures SpellsPattern(Quoted(t) + "\n", 0, |Quoted(t)| + 1, Pattern([Placeable(Simple(Literal(t)))]))
    ensures r == Ok(Pattern([Placeable(Simple(Literal(t)))]))
    ensures forall args :: Render(r.value, args) == Rendered(t, [])
  {
    hide SpellsPattern;
    QuotedSpelt(t);
    r := ParseOne(Quoted(t), Simple(Literal(t)));
    assert forall args :: RenderExpression(Simple(Literal(t)), args) == RenderInline(Literal(t), args);
  }

  /** What the renderer prints for a number reads back as it, wherever no digit follows. */
  lemma DecimalDigits(before: string, n: int, after: string)
    requires after != "" ==> !IsDigit(after[0])
    ensures var s, i, j := before + Decimal(n) + after, |before|, |before| + |Decimal(n)|;
            var digits := if n < 0 then i + 1 else i;
            && i < digits + 1 <= j <= |s| && (s[i] == '-' <==> n < 0) && (n >= 0 ==> IsDigit(s[i]))
            && DigitsEnd(s, digits) == j && NumberFrom(s, digits, n < 0) == n
  {
    hide DecimalValue, Decimal;
    var s, i, j := before + Decimal(n) + after, |before|, |before| + |Decimal(n)|;
    DecimalRoundTrip(n);
    DecimalShape(n);
    assert s[i..j] == Decimal(n);
    assert s[i] == Decimal(n)[0];
    var digits := if n < 0 then i + 1 else i;
    assert forall k :: digits <= k < j ==> s[k] == Decimal(n)[k - i];
    assert j < |s| ==> s[j] == after[0];
    DigitsEndIs(s, digits, j);
    assert s[digits..j] == if n < 0 then Decimal(n)[1..] else Decimal(n);
  }

  /** And is a number of the grammar when no fraction follows and it fits 64 bits. */
  lemma DecimalSpelt(before: string, n: int, after: string)
    requires I64_MIN <= n <= I64_MAX && (after != "" ==> !IsDigit(after[0]) && after[0] != '.')
    ensures NumberAt(before + Decimal(n) + after, |before|, |before| + |Decimal(n)|, n)
  {
    hide Decimal, NumberFrom, DigitsEnd;
    var s, j := before + Decimal(n) + after, |before| + |Decimal(n)|;
    DecimalDigits(before, n, after);
    assert j < |s| ==> s[j] == after[0];
  }

  /** Otherwise there is none. */
  lemma DecimalRefused(before: string, n: int, after: string)
    requires after != "" && !IsDigit(after[0]) && (after[0] == '.' || n < I64_MIN || n > I64_MAX)
    ensures NoNumber(before + Decimal(n) + after, |before|)
  {
    hide Decimal, NumberFrom, DigitsEnd;
    var s, j := before + Decimal(n) + after, |before| + |Decimal(n)|;
    DecimalDigits(before, n, after);
    assert s[j] == after[0];
  }

  lemma DecimalShape(n: int)
    ensures Decimal(n) != ""
    ensures n < 0 ==> Decimal(n)[0] == '-' && |Decimal(n)| > 1 && Decimal(n)[1..] == Decimal(-n)
    ensures n < 0 ==> forall k :: 1 <= k < |Decimal(n)| ==> IsDigit(Decimal(n)[k])
    ensures n >= 0 ==> forall k :: 0 <= k < |Decimal(n)| ==> IsDigit(Decimal(n)[k])
  {
    DecimalIsDigits(if n < 0 then -n else n);
  }

  lemma {:induction false} DigitsEndIs(s: string, p: nat, j: nat)
    requires p <= j <= |s| && (forall k :: p <= k < j ==> IsDigit(s[k])) && (j < |s| ==> !IsDigit(s[j]))
    ensures DigitsEnd(s, p) == j
  {
  }

  /** Every 64-bit number can be written as a message, and renders as it was printed. */
  method ParseNumber(n: int) returns (r: Result<Pattern>)
    requires I64_MIN <= n <= I64_MAX
    ensures SpellsPattern("{" + Decimal(n) + "}" + "\n", 0, |Decimal(n)| + 3, Pattern([Placeable(Simple(Number(n)))]))
    ensures r == Ok(Pattern([Placeable(Simple(Number(n)))]))
    ensures forall args :: Render(r.value, args) == Rendered(Decimal(n), [])
  {
    hide SpellsPattern, Decimal, NumberAt;
    var message := "{" + Decimal(n) + "}";
    DecimalSpelt("{", n, "}\n");
    DecimalShape(n);
    assert message + "\n" == "{" + Decimal(n) + "}\n";
    OneInline(message + "\n", Number(n));
    r := ParseOne(message, Simple(Number(n)));
    assert forall args :: RenderExpression(Simple(Number(n)), args) == RenderInline(Number(n), args);
  }

  // ----- a select without a default -----

  const LONE_STAR := "{0 ->\n*}"

  const EmptySelect := Select(Number(0), [])

  /** A select that the parser accepts although it has no default, and that renders as
      nothing. */
  method SelectWithoutDefault() returns (r: Result<Pattern>)
    ensures SpellsPattern(LONE_STAR + "\n", 0, |LONE_STAR| + 1, Pattern([Placeable(EmptySelect)]))
    ensures r == Ok(Pattern([Placeable(EmptySelect)])) && !DefaultsIn(r.value, 1)
    ensures forall args :: Render(r.value, args) == Rendered("", [])
  {
    hide SpellsPattern;
    EmptySelectSpelt();
    r := ParseOne(LONE_STAR, EmptySelect);
    assert !DefaultsInElement(r.value.elements[0], 1);
  }

  lemma EmptySelectSpelt()
    ensures SpellsPattern(LONE_STAR + "\n", 0, |LONE_STAR| + 1, Pattern([Placeable(EmptySelect)]))
  {
    hide SpellsPattern, SpellsPlaceable;
    var s := LONE_STAR + "\n";
    assert s == "{0 ->\n*}\n";
    EmptySelectRead(s);
    OnePlaceable(s, EmptySelect);
  }

  lemma EmptySelectRead(s: string)
    requires s == "{0 ->\n*}\n"
    ensures SpellsPlaceable(s, 1, 8, EmptySelect)
  {
    hide SpellsInline, SpellsList, BlankEnd, SpacesEnd, EolEnd;
    ZeroSpelt(s);
    NoVariantsSpelt(s);
    EmptySelectLayout(s);
    assert SpellsExpression(s, 1, 7, EmptySelect);
  }

  lemma EmptySelectLayout(s: string)
    requires s == "{0 ->\n*}\n"
    ensures BlankEnd(s, 1) == 1 && BlankEnd(s, 2) == 3 && BlankEnd(s, 6) == 6
    ensures SpacesEnd(s, 5) == 5 && EolEnd(s, 5) == 6 && SpacesEnd(s, 7) == 7
  {
  }

  lemma ZeroSpelt(s: string)
    requires s == "{0 ->\n*}\n"
    ensures SpellsInline(s, 1, 2, Number(0))
  {
    assert DigitsEnd(s, 1) == 2;
    assert s[1..2] == "0" && "0"[..0] == "";
    assert DecimalValue("0") == 0;
  }

  lemma NoVariantsSpelt(s: string)
    requires s == "{0 ->\n*}\n"
    ensures SpellsList(s, 6, 7, [])
  {
    assert Cuts([6], 6, 6, 0);
    assert SpellsVariants(s, 6, 6, []);
  }
}
