/** How many defaults the selects of an accepted message have: at most one each, and
    exactly one unless a line of the message starts with a `*` that stands alone before
    a closing brace. */
module TemplateDefaults {
  import opened Template
  import opened TemplateLexis
  import opened TemplateLines
  import opened TemplateGrammar
  import opened TemplateUnique

  // ----- selects and their defaults -----

  /** Every select of the tree has at least `lo` and at most one default. */
  ghost predicate DefaultsIn(p: Pattern, lo: nat)
    decreases p, 1
  {
    forall i :: 0 <= i < |p.elements| ==> DefaultsInElement(p.elements[i], lo)
  }

  ghost predicate DefaultsInElement(e: Element, lo: nat)
    decreases e, 2
  {
    e.Placeable? ==> DefaultsInExpression(e.expression, lo)
  }

  ghost predicate DefaultsInExpression(e: Expression, lo: nat)
    decreases e, 2
  {
    match e
    case Simple(inline) => DefaultsInInline(inline, lo)
    case Select(selector, variants) =>
      lo <= Defaults(variants) <= 1 && DefaultsInInline(selector, lo) && DefaultsInVariants(variants, lo)
  }

  ghost predicate DefaultsInVariants(vs: seq<Variant>, lo: nat)
    decreases vs, 1
  {
    forall i :: 0 <= i < |vs| ==> DefaultsInVariant(vs[i], lo)
  }

  ghost predicate DefaultsInVariant(v: Variant, lo: nat)
    decreases v, 2
  {
    DefaultsIn(v.value, lo)
  }

  ghost predicate DefaultsInInline(i: Inline, lo: nat)
    decreases i, 1
  {
    match i
    case StrEq(a, b) => DefaultsInInline(a, lo) && DefaultsInInline(b, lo)
    case Nested(e) => DefaultsInExpression(e, lo)
    case _ => true
  }

  // ----- lone stars -----

  /** The line from `a` on starts with a `*` at `i` and, apart from spaces, the closing
      brace at `k` follows. */
  ghost predicate StarLine(s: string, a: nat, i: nat, k: nat) {
    && a <= i < k < |s| && (a == 0 || s[a - 1] == '\n') && s[i] == '*' && s[k] == '}'
    && (forall n :: a <= n < k && n != i ==> s[n] == ' ')
  }

  ghost predicate LoneClose(s: string, k: nat) {
    exists a: nat, i: nat :: StarLine(s, a, i, k)
  }

  /** No brace from `i` to `j` closes behind a lone star. */
  ghost predicate Clear(s: string, i: nat, j: nat) {
    forall k: nat :: i <= k < j ==> !LoneClose(s, k)
  }

  /** No line starts with a lone star before a closing brace. */
  ghost predicate NoLoneStar(s: string) {
    forall a: nat, i: nat, k: nat :: !StarLine(s, a, i, k)
  }

  lemma ClearIsNoLoneStar(s: string)
    ensures Clear(s, 0, |s|) <==> NoLoneStar(s)
  {
    if Clear(s, 0, |s|) {
      forall a: nat, i: nat, k: nat
        ensures !StarLine(s, a, i, k)
      {
        assert k < |s| ==> !LoneClose(s, k);
      }
    }
  }

  /** The appended line feed adds no lone star. */
  lemma StarsAgree(message: string)
    ensures NoLoneStar(message) <==> NoLoneStar(message + "\n")
  {
    var s := message + "\n";
    forall a: nat, i: nat, k: nat
      ensures StarLine(s, a, i, k) <==> StarLine(message, a, i, k)
    {
      assert forall n :: 0 <= n < |message| ==> s[n] == message[n];
    }
  }

  ghost predicate NoBrace(s: string, i: nat, j: nat) {
    forall k :: i <= k < j && k < |s| ==> s[k] != '}'
  }

  lemma NoBraceIsClear(s: string, i: nat, j: nat)
    requires NoBrace(s, i, j)
    ensures Clear(s, i, j)
  {
  }

  /** A brace behind layout, and a character before it that is no lone star. */
  lemma NotLone(s: string, q: nat, k: nat)
    requires 0 < q <= k < |s| && s[q - 1] != ' ' && s[q - 1] != '*' && forall n :: q <= n < k ==> s[n] != '*'
    ensures !LoneClose(s, k)
  {
  }

  // ----- layout -----

  lemma {:induction false} BlankChars(s: string, i: nat)
    requires i <= |s|
    ensures forall k :: i <= k < BlankEnd(s, i) ==> s[k] == ' ' || s[k] == '\n' || s[k] == '\r'
    decreases |s| - i
  {
    if CharAt(s, i, ' ') {
      BlankChars(s, i + 1);
    } else if EolEnd(s, i) > i {
      BlankChars(s, EolEnd(s, i));
    }
  }

  /** Layout that starts a line ends on a line with spaces only before it. */
  lemma {:induction false} BlankLine(s: string, x: nat) returns (a: nat)
    requires 0 < x <= |s| && s[x - 1] == '\n'
    ensures 0 < a <= BlankEnd(s, x) && s[a - 1] == '\n' && forall n :: a <= n < BlankEnd(s, x) ==> s[n] == ' '
    decreases |s| - x
  {
    hide BlankEnd;
    var n := SpacesEnd(s, x);
    BlankSpaces(s, x);
    if EolEnd(s, n) > n {
      a := BlankLine(s, EolEnd(s, n));
    } else {
      a := x;
    }
  }

  lemma {:induction false} BlankSpaces(s: string, i: nat)
    requires i <= |s|
    ensures var n := SpacesEnd(s, i); BlankEnd(s, i) == if EolEnd(s, n) > n then BlankEnd(s, EolEnd(s, n)) else n
    decreases |s| - i
  {
    if CharAt(s, i, ' ') {
      BlankSpaces(s, i + 1);
    }
  }

  lemma {:induction false} BlankLinesChars(s: string, i: nat)
    requires i <= |s|
    ensures NoBrace(s, i, BlankLinesEnd(s, i))
    decreases |s| - i
  {
    hide SpacesEnd;
    var eol := SpacesEnd(s, i);
    if EolEnd(s, eol) > eol {
      BlankLinesChars(s, EolEnd(s, eol));
    }
  }

  lemma OpenChars(s: string, i: nat)
    requires i <= |s|
    ensures NoBrace(s, i, OpenEnd(s, i))
  {
    hide SpacesEnd, BlankLinesEnd;
    var eol := SpacesEnd(s, i);
    if EolEnd(s, eol) > eol {
      BlankLinesChars(s, EolEnd(s, eol));
    }
  }

  lemma KeyChars(s: string, i: nat, c: nat, key: Key)
    requires KeyAt(s, i, c, key)
    ensures i < c <= |s| && NoBrace(s, i, c)
  {
    hide BlankEnd, NumberFrom;
    var z: nat :| z <= |s| && KeyText(s, BlankEnd(s, i), z, key)
        && CharAt(s, BlankEnd(s, z), ']') && c == BlankEnd(s, z) + 1;
    BlankChars(s, i);
    BlankChars(s, z);
  }

  lemma RunChars(s: string, part: Part)
    requires part.Run? && RunAt(s, part)
    ensures part.from <= part.to <= |s| && NoBrace(s, part.from, part.to)
  {
    hide LineContinues, TextStop, SpacesEnd;
    var mid := Mid(s, part);
    var stop := TextStop(s, mid);
  }

  // ----- where pieces end -----

  /** A pattern that does not end with the source ends behind a line feed. */
  lemma PatternEnd(s: string, i: nat, j: nat, p: Pattern)
    requires SpellsPattern(s, i, j, p)
    ensures j < |s| ==> 0 < j && s[j - 1] == '\n'
  {
    hide LaidPart, HoleSpelt, OpenEnd, OpensLine, Kept, LastSolid, CommonIndent;
    var parts: seq<Part> :| && TiledBy(s, i, j, parts) && LaidOut(s, parts, p.elements)
                            && forall k :: 0 <= k < |parts| && parts[k].Hole? ==> HoleSpelt(s, parts[k], p);
    NothingLaid(s, parts, p.elements);
    var last := parts[|parts| - 1];
    if j < |s| {
      assert EndsLine(s, last);
      RunEnd(s, last);
    }
  }

  lemma NothingLaid(s: string, parts: seq<Part>, es: seq<Element>)
    requires LaidOut(s, parts, es)
    ensures parts != []
  {
  }

  lemma RunEnd(s: string, part: Part)
    requires part.Run? && RunAt(s, part) && EndsLine(s, part) && part.to < |s| && !LineContinues(s, part.to)
    ensures 0 < part.to && s[part.to - 1] == '\n'
  {
    hide TextStop;
  }

  lemma InlineEnd(s: string, i: nat, j: nat, x: Inline)
    requires SpellsInline(s, i, j, x)
    ensures 0 < j <= |s| && s[j - 1] != ' ' && s[j - 1] != '*'
  {
    hide SpellsExpression, BlankEnd, CloseQuote, Unescaped, NumberFrom, SpacesEnd;
    InlineStarts(s, i, j, x);
    match x
    case Nested(e) => PlaceableEnd(s, i + 1, j, e);
    case _ =>
  }

  lemma PlaceableEnd(s: string, i: nat, j: nat, e: Expression)
    requires SpellsPlaceable(s, i, j, e)
    ensures 0 < j <= |s| && s[j - 1] == '}'
  {
    hide SpellsExpression, BlankEnd, SpacesEnd;
    var q: nat :| q <= |s| && SpellsExpression(s, BlankEnd(s, i), q, e)
                  && var close := if e.Simple? then BlankEnd(s, q) else SpacesEnd(s, q);
                     CharAt(s, close, '}') && j == close + 1;
  }

  /** Behind a list of variants, as before it, layout started a line. */
  lemma {:induction false} ListEnd(s: string, x: nat, t: nat, vs: seq<Variant>) returns (y: nat)
    requires 0 < x <= |s| && s[x - 1] == '\n' && SpellsVariants(s, BlankEnd(s, x), t, vs)
    ensures 0 < y <= |s| && t == BlankEnd(s, y) && (y < |s| ==> s[y - 1] == '\n')
  {
    hide SpellsVariant, SpellsPattern, BlankEnd;
    var cuts: seq<nat> :| Cuts(cuts, BlankEnd(s, x), t, |vs|)
        && forall k {:trigger vs[k]} :: 0 <= k < |vs| ==> SpellsVariant(s, cuts[k], cuts[k + 1], vs[k]);
    if vs == [] {
      y := x;
    } else {
      var n := |vs| - 1;
      var c, e := VariantParts(s, cuts[n], cuts[n + 1], vs[n]);
      PatternEnd(s, c, e, vs[n].value);
      KeyChars(s, if vs[n].isDefault then cuts[n] + 2 else cuts[n] + 1, c, vs[n].key);
      y := e;
    }
  }

  // ----- the theorem, piece by piece -----

  ghost predicate PatternClear(s: string, i: nat, j: nat, p: Pattern) {
    i <= j <= |s| && DefaultsIn(p, 0) && (DefaultsIn(p, 1) <==> Clear(s, i, j))
  }

  ghost predicate ExpressionClear(s: string, i: nat, j: nat, e: Expression) {
    i <= j <= |s| && DefaultsInExpression(e, 0) && (DefaultsInExpression(e, 1) <==> Clear(s, i, j))
  }

  ghost predicate VariantsClear(s: string, i: nat, j: nat, vs: seq<Variant>) {
    i <= j <= |s| && DefaultsInVariants(vs, 0) && (DefaultsInVariants(vs, 1) <==> Clear(s, i, j))
  }

  ghost predicate InlineClear(s: string, i: nat, j: nat, x: Inline) {
    i <= j <= |s| && DefaultsInInline(x, 0) && (DefaultsInInline(x, 1) <==> Clear(s, i, j))
  }

  /** A pattern has a default in every select exactly when no line of it starts with a
      lone star before a closing brace. */
  lemma {:induction false} DefaultsOfPattern(s: string, i: nat, j: nat, p: Pattern)
    requires SpellsPattern(s, i, j, p)
    ensures PatternClear(s, i, j, p)
    decreases p, 1
  {
    hide LaidOut, HoleSpelt, OpenEnd, OpensLine, Chained, Clear, DefaultsInExpression, Ends;
    var parts: seq<Part> :| && TiledBy(s, i, j, parts) && LaidOut(s, parts, p.elements)
                            && forall k :: 0 <= k < |parts| && parts[k].Hole? ==> HoleSpelt(s, parts[k], p);
    assert HolesSpelt(s, parts, p);
    DefaultsOfParts(s, i, parts, p, |parts|);
    assert parts[..|parts|] == parts;
    forall lo: nat
      ensures DefaultsIn(p, lo) <==> DefaultsInHoles(parts, |parts|, lo)
    {
      ElementsAreHoles(s, parts, p, lo);
    }
  }

  ghost predicate DefaultsInHoles(parts: seq<Part>, n: nat, lo: nat)
    requires n <= |parts|
  {
    forall k :: 0 <= k < n && parts[k].Hole? ==> DefaultsInExpression(parts[k].expression, lo)
  }

  lemma ElementsAreHoles(s: string, parts: seq<Part>, p: Pattern, lo: nat)
    requires LaidOut(s, parts, p.elements) && HolesSpelt(s, parts, p)
    ensures DefaultsIn(p, lo) <==> DefaultsInHoles(parts, |parts|, lo)
  {
    hide CommonIndent, Kept, LastSolid, SpellsPlaceable, DefaultsInExpression, KeptPart;
    if DefaultsIn(p, lo) {
      forall k | 0 <= k < |parts| && parts[k].Hole?
        ensures DefaultsInExpression(parts[k].expression, lo)
      {
        assert HoleSpelt(s, parts[k], p);
        var m :| 0 <= m < |p.elements| && p.elements[m] == Placeable(parts[k].expression)
                 && SpellsPlaceable(s, parts[k].from + 1, parts[k].to, p.elements[m].expression);
        assert DefaultsInElement(p.elements[m], lo);
      }
    }
    if DefaultsInHoles(parts, |parts|, lo) {
      forall m | 0 <= m < |p.elements|
        ensures DefaultsInElement(p.elements[m], lo)
      {
        var k := KeptFrom(s, parts, m);
      }
    }
  }

  lemma {:induction false} KeptFrom(s: string, parts: seq<Part>, m: nat) returns (k: nat)
    requires m < |Kept(s, parts)|
    ensures k < |parts| && parts[k] == Kept(s, parts)[m]
    decreases |parts|
  {
    hide KeptPart;
    var n := |parts| - 1;
    if m < |Kept(s, parts[..n])| {
      k := KeptFrom(s, parts[..n], m);
    } else {
      k := n;
    }
  }

  lemma {:induction false} DefaultsOfParts(s: string, i: nat, parts: seq<Part>, p: Pattern, n: nat)
    requires i <= |s| && n <= |parts| && Chained(s, OpenEnd(s, i), OpensLine(s, i), parts) && HolesSpelt(s, parts, p)
    ensures var end := PartsEnd(OpenEnd(s, i), parts[..n]);
            i <= end <= |s| && DefaultsInHoles(parts, n, 0) && (DefaultsInHoles(parts, n, 1) <==> Clear(s, i, end))
    decreases p, 0, n
  {
    hide Chained, RunAt, EndsLine, OpenEnd, OpensLine, HoleSpelt, Clear, DefaultsInExpression, AtLine;
    if n == 0 {
      OpenChars(s, i);
      NoBraceIsClear(s, i, OpenEnd(s, i));
    } else {
      DefaultsOfParts(s, i, parts, p, n - 1);
      ChainedPrefix(s, OpenEnd(s, i), OpensLine(s, i), parts, n - 1);
      var part := parts[n - 1];
      assert parts[..n][n - 1] == part;
      ClearJoins(s, i, part.from, part.to);
      if part.Hole? {
        DefaultsOfHole(s, part, p);
      } else {
        RunChars(s, part);
        NoBraceIsClear(s, part.from, part.to);
      }
    }
  }

  lemma ClearJoins(s: string, i: nat, m: nat, j: nat)
    ensures i <= m <= j ==> (Clear(s, i, j) <==> Clear(s, i, m) && Clear(s, m, j))
  {
    hide LoneClose;
  }

  lemma {:induction false} DefaultsOfHole(s: string, part: Part, p: Pattern)
    requires part.Hole? && HoleSpelt(s, part, p) && CharAt(s, part.from, '{')
    ensures ExpressionClear(s, part.from, part.to, part.expression)
    decreases p, 0, 0
  {
    hide SpellsPlaceable, DefaultsInExpression, Clear;
    var m :| 0 <= m < |p.elements| && p.elements[m] == Placeable(part.expression)
             && SpellsPlaceable(s, part.from + 1, part.to, p.elements[m].expression);
    DefaultsOfPlaceable(s, part.from + 1, part.to, p.elements[m].expression);
    NoBraceIsClear(s, part.from, part.from + 1);
    ClearJoins(s, part.from, part.from + 1, part.to);
  }

  lemma {:induction false} DefaultsOfPlaceable(s: string, i: nat, j: nat, e: Expression)
    requires SpellsPlaceable(s, i, j, e)
    ensures ExpressionClear(s, i, j, e)
    decreases e, 3
  {
    hide SpellsExpression, Clear, BlankEnd, SpacesEnd, DefaultsInInline, DefaultsInVariants;
    var q: nat :| q <= |s| && SpellsExpression(s, BlankEnd(s, i), q, e)
                  && var close := if e.Simple? then BlankEnd(s, q) else SpacesEnd(s, q);
                     CharAt(s, close, '}') && j == close + 1;
    BlankChars(s, i);
    var from := BlankEnd(s, i);
    NoBraceIsClear(s, i, from);
    ClearJoins(s, i, from, j);
    if e.Simple? {
      DefaultsOfSimple(s, from, q, e);
    } else {
      DefaultsOfSelect(s, from, q, e);
    }
  }

  /** An inline expression and what closes it. */
  lemma {:induction false} DefaultsOfSimple(s: string, i: nat, q: nat, e: Expression)
    requires e.Simple? && q <= |s| && SpellsExpression(s, i, q, e) && CharAt(s, BlankEnd(s, q), '}')
    ensures ExpressionClear(s, i, BlankEnd(s, q) + 1, e)
    decreases e, 2
  {
    hide Clear, BlankEnd, DefaultsInInline, SpellsInline;
    var close := BlankEnd(s, q);
    DefaultsOfInline(s, i, q, e.inline);
    InlineEnd(s, i, q, e.inline);
    BlankChars(s, q);
    NotLone(s, q, close);
    ClearSpan(s, q, close);
    ClearJoins(s, i, q, close + 1);
  }

  lemma ClearSpan(s: string, q: nat, close: nat)
    requires q <= close && NoBrace(s, q, close)
    ensures Clear(s, q, close + 1) <==> !LoneClose(s, close)
  {
    hide LoneClose;
    NoBraceIsClear(s, q, close);
  }

  lemma {:induction false} DefaultsOfSelect(s: string, i: nat, q: nat, e: Expression)
    requires e.Select? && q <= |s| && SpellsExpression(s, i, q, e) && CharAt(s, SpacesEnd(s, q), '}')
    ensures ExpressionClear(s, i, SpacesEnd(s, q) + 1, e)
    decreases e, 2
  {
    hide SpellsExpression, SpellsInline, SpellsVariants, Clear, BlankEnd, SpacesEnd, DefaultsInInline,
      DefaultsInVariants, VariantAt, EolEnd, LoneClose;
    var u := SelectorEnd(s, i, q, e);
    DefaultsOfInline(s, i, u, e.selector);
    var x := ListStart(s, u);
    var from := BlankEnd(s, x);
    ClearJoins(s, i, u, from);
    var close := SpacesEnd(s, q);
    var t: nat :| SpellsVariants(s, from, t, e.variants) && !VariantAt(s, t)
               && if CharAt(s, t, '*') then q == t + 1 && Defaults(e.variants) == 0
                  else q == t && Defaults(e.variants) == 1;
    DefaultsOfVariants(s, from, t, e.variants);
    ClearJoins(s, i, from, t);
    ClosesList(s, x, t, q, e.variants);
    ClearJoins(s, i, t, close + 1);
  }

  /** Between a selector and its variants. */
  lemma ListStart(s: string, u: nat) returns (x: nat)
    requires u <= |s| && ArrowAt(s, BlankEnd(s, u)) && BlankEnd(s, u) + 2 <= |s|
    requires var eol := SpacesEnd(s, BlankEnd(s, u) + 2); EolEnd(s, eol) > eol
    ensures x == EolEnd(s, SpacesEnd(s, BlankEnd(s, u) + 2)) && 0 < x <= |s| && s[x - 1] == '\n'
    ensures u <= BlankEnd(s, x) && Clear(s, u, BlankEnd(s, x))
  {
    hide BlankEnd, SpacesEnd, Clear;
    x := EolEnd(s, SpacesEnd(s, BlankEnd(s, u) + 2));
    BlankChars(s, u);
    BlankChars(s, x);
    NoBraceIsClear(s, u, BlankEnd(s, x));
  }

  /** A brace that closes a list stands behind a lone star or behind layout. */
  lemma ClosesList(s: string, x: nat, t: nat, q: nat, vs: seq<Variant>)
    requires 0 < x <= |s| && s[x - 1] == '\n' && SpellsVariants(s, BlankEnd(s, x), t, vs) && t <= |s|
    requires q == if CharAt(s, t, '*') then t + 1 else t
    requires CharAt(s, SpacesEnd(s, q), '}')
    ensures Clear(s, t, SpacesEnd(s, q) + 1) <==> !CharAt(s, t, '*')
  {
    hide Clear, BlankEnd, SpacesEnd, SpellsVariants;
    var y := ListEnd(s, x, t, vs);
    var close := SpacesEnd(s, q);
    BlankChars(s, y);
    assert y < |s|;
    if CharAt(s, t, '*') {
      var a := BlankLine(s, y);
      assert StarLine(s, a, t, close);
    } else {
      NotLone(s, y, close);
    }
    ClearSpan(s, t, close);
  }

  lemma {:induction false} DefaultsOfVariants(s: string, i: nat, t: nat, vs: seq<Variant>)
    requires i <= |s| && SpellsVariants(s, i, t, vs)
    ensures VariantsClear(s, i, t, vs)
    decreases vs, 1
  {
    hide SpellsVariant, Clear, DefaultsIn;
    var cuts: seq<nat> :| Cuts(cuts, i, t, |vs|)
        && forall k {:trigger vs[k]} :: 0 <= k < |vs| ==> SpellsVariant(s, cuts[k], cuts[k + 1], vs[k]);
    DefaultsOfCuts(s, i, cuts, vs, |vs|);
    assert vs[..|vs|] == vs;
  }

  lemma {:induction false} DefaultsOfCuts(s: string, i: nat, cuts: seq<nat>, vs: seq<Variant>, n: nat)
    requires i <= |s| && SpeltAt(s, i, cuts, vs) && n <= |vs|
    ensures VariantsClear(s, i, cuts[n], vs[..n])
    decreases vs, 0, n
  {
    hide SpellsVariant, Clear, DefaultsIn;
    if n == 0 {
      NoBraceIsClear(s, i, i);
    } else {
      DefaultsOfCuts(s, i, cuts, vs, n - 1);
      DefaultsOfVariant(s, cuts[n - 1], cuts[n], vs[n - 1]);
      ClearJoins(s, i, cuts[n - 1], cuts[n]);
      assert vs[..n] == vs[..n - 1] + [vs[n - 1]];
      MoreVariants(vs[..n - 1], vs[n - 1], 0);
      MoreVariants(vs[..n - 1], vs[n - 1], 1);
    }
  }

  lemma MoreVariants(vs: seq<Variant>, v: Variant, lo: nat)
    ensures DefaultsInVariants(vs + [v], lo) <==> DefaultsInVariants(vs, lo) && DefaultsInVariant(v, lo)
  {
    hide DefaultsInVariant;
    var more := vs + [v];
    assert more[|vs|] == v && forall k :: 0 <= k < |vs| ==> more[k] == vs[k];
  }

  lemma {:induction false} DefaultsOfVariant(s: string, i: nat, j: nat, v: Variant)
    requires SpellsVariant(s, i, j, v)
    ensures PatternClear(s, i, j, v.value)
    decreases v, 2
  {
    hide KeyAt, SpellsPattern, BlankEnd, Clear, DefaultsIn;
    var c, e := VariantParts(s, i, j, v);
    KeyChars(s, if v.isDefault then i + 2 else i + 1, c, v.key);
    NoBraceIsClear(s, i, c);
    DefaultsOfPattern(s, c, e, v.value);
    BlankChars(s, e);
    NoBraceIsClear(s, e, j);
    ClearJoins(s, i, c, e);
    ClearJoins(s, i, e, j);
  }

  lemma {:induction false} DefaultsOfInline(s: string, i: nat, j: nat, x: Inline)
    requires SpellsInline(s, i, j, x)
    ensures InlineClear(s, i, j, x)
    decreases x, 1
  {
    hide SpellsPlaceable, BlankEnd, CloseQuote, Unescaped, NumberFrom, ArgEnd, Clear, CallAt, DefaultsInExpression;
    InlineStarts(s, i, j, x);
    match x
    case Variable(_) => NoBraceIsClear(s, i, j);
    case Literal(_) => LiteralClear(s, i, j, x.text);
    case Number(_) => NoBraceIsClear(s, i, j);
    case StrEq(a, b) =>
      var q: nat, u: nat :| q <= |s| && SpellsInline(s, CallStart(s, i), q, a)
          && u <= |s| && SpellsInline(s, ArgEnd(s, q), u, b)
                         && CharAt(s, ArgEnd(s, u), ')') && j == ArgEnd(s, u) + 1;
      CallChars(s, i);
      DefaultsOfInline(s, CallStart(s, i), q, a);
      ArgChars(s, q);
      DefaultsOfInline(s, ArgEnd(s, q), u, b);
      ArgChars(s, u);
      ClearJoins(s, i, CallStart(s, i), q);
      ClearJoins(s, i, q, ArgEnd(s, q));
      ClearJoins(s, i, ArgEnd(s, q), u);
      ClearJoins(s, i, u, j);
    case Nested(e) =>
      DefaultsOfPlaceable(s, i + 1, j, e);
      NoBraceIsClear(s, i, i + 1);
      ClearJoins(s, i, i + 1, j);
  }

  lemma CallChars(s: string, i: nat)
    requires CallAt(s, i)
    ensures i <= CallStart(s, i) && Clear(s, i, CallStart(s, i))
  {
    hide BlankEnd, Clear;
    BlankChars(s, i + 5);
    BlankChars(s, BlankEnd(s, i + 5) + 1);
    NoBraceIsClear(s, i, CallStart(s, i));
  }

  lemma ArgChars(s: string, i: nat)
    requires i <= |s|
    ensures Clear(s, i, ArgEnd(s, i))
    ensures CharAt(s, ArgEnd(s, i), ')') ==> Clear(s, i, ArgEnd(s, i) + 1)
  {
    hide BlankEnd, Clear;
    BlankChars(s, i);
    var m := BlankEnd(s, i);
    if CharAt(s, m, ',') {
      BlankChars(s, m + 1);
    }
    NoBraceIsClear(s, i, ArgEnd(s, i));
    if CharAt(s, ArgEnd(s, i), ')') {
      NoBraceIsClear(s, i, ArgEnd(s, i) + 1);
    }
  }

  /** A literal stays on its line, so no line starts inside it. */
  lemma LiteralClear(s: string, i: nat, j: nat, text: string)
    requires LiteralAt(s, i, j, text)
    ensures i <= j <= |s| && Clear(s, i, j)
  {
    hide CloseQuote, Unescaped;
    OneLine(s, i + 1);
    forall k: nat | i <= k < j
      ensures !LoneClose(s, k)
    {
      forall a: nat, n: nat
        ensures !StarLine(s, a, n, k)
      {
        assert s[i] == '"';
      }
    }
  }

  lemma {:induction false} OneLine(s: string, p: nat)
    requires p <= |s|
    ensures CloseQuote(s, p).Some? ==> forall k :: p <= k < CloseQuote(s, p).value ==> s[k] != '\n'
    decreases |s| - p
  {
    hide EscapeLength, WellEscaped, CloseQuote;
    QuoteStep(s, p);
    if p < |s| && s[p] != '\n' && s[p] != '"' {
      if s[p] != '\\' {
        OneLine(s, p + 1);
      } else {
        EscapeOnLine(s[p..]);
        if EscapeLength(s[p..]) > 0 {
          OneLine(s, p + EscapeLength(s[p..]));
        }
      }
    }
  }

  lemma EscapeOnLine(s: string)
    ensures forall k :: 0 <= k < EscapeLength(s) ==> s[k] != '\n'
  {
  }
}
