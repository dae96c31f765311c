/** The grammar is unambiguous: from a position on, the source is at most one tree. */
module TemplateUnique {
  import opened Template
  import opened TemplateLexis
  import opened TemplateLines
  import opened TemplateGrammar

  // ----- names, numbers and keys -----

  lemma UniqueIdentifier(s: string, i: nat, j: nat, j': nat)
    ensures IdentifierAt(s, i, j) && IdentifierAt(s, i, j') ==> j == j'
  {
  }

  lemma UniqueKeyText(s: string, i: nat, j: nat, key: Key, j': nat, key': Key)
    requires KeyText(s, i, j, key) && KeyText(s, i, j', key')
    ensures j == j' && key == key'
  {
    hide DigitsEnd, NumberFrom, IsNameChar;
    if key.Name? && key'.Name? {
      UniqueIdentifier(s, i, j, j');
    } else if key.Name? || key'.Name? {
      LetterIsNoNumber(s, i);
    }
  }

  lemma UniqueKey(s: string, i: nat, j: nat, key: Key, j': nat, key': Key)
    requires KeyAt(s, i, j, key) && KeyAt(s, i, j', key')
    ensures j == j' && key == key'
  {
    hide BlankEnd, KeyText;
    var a := BlankEnd(s, i);
    var z: nat :| z <= |s| && KeyText(s, a, z, key) && CharAt(s, BlankEnd(s, z), ']') && j == BlankEnd(s, z) + 1;
    var z': nat :| z' <= |s| && KeyText(s, a, z', key') && CharAt(s, BlankEnd(s, z'), ']') && j' == BlankEnd(s, z') + 1;
    UniqueKeyText(s, a, z, key, z', key');
  }

  lemma LetterIsNoNumber(s: string, i: nat)
    ensures !(i < |s| && IsAlphabetic(s[i]) && exists j: nat, n :: NumberAt(s, i, j, n))
  {
    if i < |s| && IsAlphabetic(s[i]) {
      forall j: nat, n
        ensures !NumberAt(s, i, j, n)
      {
      }
    }
  }

  // ----- parts -----

  lemma ChainedPrefix(s: string, start: nat, ls: bool, parts: seq<Part>, n: nat)
    requires Chained(s, start, ls, parts) && n <= |parts|
    ensures Chained(s, start, ls, parts[..n])
    ensures n < |parts| ==> PartAt(s, parts[n], PartsEnd(start, parts[..n]), AtLine(s, ls, parts[..n]))
    decreases |parts|
  {
    hide PartAt, EndsLine;
    if n == |parts| {
      assert parts[..n] == parts;
    } else {
      var before := parts[..|parts| - 1];
      if n < |parts| - 1 {
        ChainedPrefix(s, start, ls, before, n);
        assert before[..n] == parts[..n] && before[n] == parts[n];
      }
    }
  }

  /** Two runs at one place are one. */
  lemma UniqueRun(s: string, part: Part, part': Part, from: nat, ls: bool)
    requires PartAt(s, part, from, ls) && PartAt(s, part', from, ls) && !CharAt(s, from, '{')
    ensures part == part'
  {
    hide TextStop, LineContinues;
  }

  /** Where a pattern ends there is no part. */
  lemma NoPartAtEnd(s: string, part: Part, from: nat, ls: bool)
    requires Ends(s, from, ls)
    ensures !PartAt(s, part, from, ls)
  {
    hide TextStop, LineContinues;
  }

  // ----- trees -----

  /** Every placeable among the parts is spelled. */
  ghost predicate HolesSpelt(s: string, parts: seq<Part>, p: Pattern) {
    forall k :: 0 <= k < |parts| && parts[k].Hole? ==> HoleSpelt(s, parts[k], p)
  }

  lemma {:induction false} UniquePattern(s: string, i: nat, j: nat, p: Pattern, j': nat, p': Pattern)
    requires SpellsPattern(s, i, j, p) && SpellsPattern(s, i, j', p')
    ensures j == j' && p == p'
    decreases p, 2
  {
    hide HoleSpelt, Chained, Ends, Kept, CommonIndent, LastSolid, LaidPart, OpenEnd, OpensLine, AtLine;
    var parts: seq<Part> :| TiledBy(s, i, j, parts) && LaidOut(s, parts, p.elements)
      && forall k :: 0 <= k < |parts| && parts[k].Hole? ==> HoleSpelt(s, parts[k], p);
    var parts': seq<Part> :| TiledBy(s, i, j', parts') && LaidOut(s, parts', p'.elements)
      && forall k :: 0 <= k < |parts'| && parts'[k].Hole? ==> HoleSpelt(s, parts'[k], p');
    UniqueParts(s, i, j, parts, p, j', parts', p');
    assert p.elements == p'.elements;
  }

  lemma {:induction false} UniqueParts(s: string, i: nat, j: nat, parts: seq<Part>, p: Pattern, j': nat,
                                       parts': seq<Part>, p': Pattern)
    requires TiledBy(s, i, j, parts) && TiledBy(s, i, j', parts')
    requires HolesSpelt(s, parts, p) && HolesSpelt(s, parts', p')
    ensures j == j' && parts == parts'
    decreases p, 1
  {
    hide HoleSpelt, Chained, Ends, PartAt, OpenEnd, OpensLine, AtLine, HolesSpelt;
    var n := if |parts| < |parts'| then |parts| else |parts'|;
    SameParts(s, i, parts, p, parts', p', n);
    assert parts[..|parts|] == parts && parts'[..|parts'|] == parts';
    if n < |parts'| {
      ChainedPrefix(s, OpenEnd(s, i), OpensLine(s, i), parts', n);
      NoPartAtEnd(s, parts'[n], j, AtLine(s, OpensLine(s, i), parts));
      assert false;
    }
    if n < |parts| {
      ChainedPrefix(s, OpenEnd(s, i), OpensLine(s, i), parts, n);
      NoPartAtEnd(s, parts[n], j', AtLine(s, OpensLine(s, i), parts'));
      assert false;
    }
  }

  lemma {:induction false} SameParts(s: string, i: nat, parts: seq<Part>, p: Pattern,
                                     parts': seq<Part>, p': Pattern, n: nat)
    requires i <= |s| && n <= |parts| && n <= |parts'| && HolesSpelt(s, parts, p) && HolesSpelt(s, parts', p')
    requires Chained(s, OpenEnd(s, i), OpensLine(s, i), parts) && Chained(s, OpenEnd(s, i), OpensLine(s, i), parts')
    ensures parts[..n] == parts'[..n]
    decreases p, 0
  {
    hide Chained, OpenEnd, OpensLine, SpellsPlaceable;
    forall k | 0 <= k < n && SamePlace(parts[k], parts'[k])
      ensures parts[k] == parts'[k]
    {
      var a, b := parts[k], parts'[k];
      assert HoleSpelt(s, a, p) && HoleSpelt(s, b, p');
      var m :| 0 <= m < |p.elements| && p.elements[m] == Placeable(a.expression)
            && SpellsPlaceable(s, a.from + 1, a.to, p.elements[m].expression);
      UniquePlaceable(s, a.from + 1, a.to, p.elements[m].expression, b.to, b.expression);
    }
    PrefixAgrees(s, OpenEnd(s, i), OpensLine(s, i), parts, parts', n);
  }

  predicate SamePlace(a: Part, b: Part) {
    a.Hole? && b.Hole? && a.from == b.from && a.lineStart == b.lineStart
  }

  /** Chains of parts from one position agree as long as their placeables do. */
  lemma {:induction false} PrefixAgrees(s: string, start: nat, ls: bool, parts: seq<Part>, parts': seq<Part>, n: nat)
    requires n <= |parts| && n <= |parts'| && Chained(s, start, ls, parts) && Chained(s, start, ls, parts')
    requires forall k :: 0 <= k < n && SamePlace(parts[k], parts'[k]) ==> parts[k] == parts'[k]
    ensures parts[..n] == parts'[..n]
    decreases n
  {
    hide Chained, RunAt, EndsLine;
    if n > 0 {
      PrefixAgrees(s, start, ls, parts, parts', n - 1);
      ChainedPrefix(s, start, ls, parts, n - 1);
      ChainedPrefix(s, start, ls, parts', n - 1);
      var a, b := parts[n - 1], parts'[n - 1];
      var from, line := PartsEnd(start, parts[..n - 1]), AtLine(s, ls, parts[..n - 1]);
      if CharAt(s, from, '{') {
        RunIsNoHole(s, a, from, line);
        RunIsNoHole(s, b, from, line);
      } else {
        UniqueRun(s, a, b, from, line);
      }
      assert parts[..n] == parts[..n - 1] + [a] && parts'[..n] == parts'[..n - 1] + [b];
    }
  }

  lemma RunIsNoHole(s: string, part: Part, from: nat, ls: bool)
    requires PartAt(s, part, from, ls) && CharAt(s, from, '{')
    ensures part.Hole?
  {
    hide TextStop, LineContinues;
  }

  lemma {:induction false} UniquePlaceable(s: string, i: nat, j: nat, e: Expression, j': nat, e': Expression)
    requires SpellsPlaceable(s, i, j, e) && SpellsPlaceable(s, i, j', e')
    ensures j == j' && e == e'
    decreases e, 3
  {
    hide SpellsExpression, BlankEnd, SpacesEnd;
    var p := BlankEnd(s, i);
    var q: nat :| q <= |s| && SpellsExpression(s, p, q, e)
        && var close := if e.Simple? then BlankEnd(s, q) else SpacesEnd(s, q);
                  CharAt(s, close, '}') && j == close + 1;
    var q': nat :| q' <= |s| && SpellsExpression(s, p, q', e')
        && var close := if e'.Simple? then BlankEnd(s, q') else SpacesEnd(s, q');
                  CharAt(s, close, '}') && j' == close + 1;
    UniqueExpression(s, p, q, e, q', e');
  }

  lemma {:induction false} UniqueExpression(s: string, i: nat, j: nat, e: Expression, j': nat, e': Expression)
    requires SpellsExpression(s, i, j, e) && SpellsExpression(s, i, j', e')
    ensures j == j' && e == e'
    decreases e, 2
  {
    hide SpellsInline, SpellsList, BlankEnd, SpacesEnd, EolEnd, ArrowAt;
    var q := SelectorEnd(s, i, j, e);
    var q' := SelectorEnd(s, i, j', e');
    UniqueInline(s, i, q, SelectorOf(e), q', SelectorOf(e'));
    if e.Select? && e'.Select? {
      var eol := SpacesEnd(s, BlankEnd(s, q) + 2);
      UniqueList(s, BlankEnd(s, EolEnd(s, eol)), j, e.variants, j', e'.variants);
    }
  }

  function SelectorOf(e: Expression): (x: Inline)
    ensures x < e
  {
    match e case Simple(inline) => inline case Select(selector, _) => selector
  }

  lemma SelectorEnd(s: string, i: nat, j: nat, e: Expression) returns (q: nat)
    requires SpellsExpression(s, i, j, e)
    ensures q <= |s| && SpellsInline(s, i, q, SelectorOf(e)) && (e.Select? <==> ArrowAt(s, BlankEnd(s, q)))
    ensures e.Simple? ==> q == j
    ensures e.Select? ==>
              && BlankEnd(s, q) + 2 <= |s|
              && var eol := SpacesEnd(s, BlankEnd(s, q) + 2);
              EolEnd(s, eol) > eol && SpellsList(s, BlankEnd(s, EolEnd(s, eol)), j, e.variants)
  {
    hide SpellsInline, SpellsList, BlankEnd, SpacesEnd, EolEnd;
    match e
    case Simple(_) => q := j;
    case Select(selector, variants) =>
      q :| q <= |s| && SpellsInline(s, i, q, selector) && ArrowAt(s, BlankEnd(s, q))
        && var eol := SpacesEnd(s, BlankEnd(s, q) + 2);
           EolEnd(s, eol) > eol && SpellsList(s, BlankEnd(s, EolEnd(s, eol)), j, variants);
  }

  lemma {:induction false} UniqueList(s: string, i: nat, j: nat, vs: seq<Variant>, j': nat, vs': seq<Variant>)
    requires SpellsList(s, i, j, vs) && SpellsList(s, i, j', vs')
    ensures j == j' && vs == vs'
    decreases vs, 2
  {
    hide SpellsVariants, VariantAt, Defaults;
    var t: nat :| SpellsVariants(s, i, t, vs) && !VariantAt(s, t)
               && if CharAt(s, t, '*') then j == t + 1 && Defaults(vs) == 0 else j == t && Defaults(vs) == 1;
    var t': nat :| SpellsVariants(s, i, t', vs') && !VariantAt(s, t')
               && if CharAt(s, t', '*') then j' == t' + 1 && Defaults(vs') == 0 else j' == t' && Defaults(vs') == 1;
    UniqueVariants(s, i, t, vs, t', vs');
  }

  lemma {:induction false} UniqueVariants(s: string, i: nat, t: nat, vs: seq<Variant>, t': nat, vs': seq<Variant>)
    requires SpellsVariants(s, i, t, vs) && SpellsVariants(s, i, t', vs') && !VariantAt(s, t) && !VariantAt(s, t')
    ensures t == t' && vs == vs'
    decreases vs, 1
  {
    hide SpellsVariant, VariantAt;
    var cuts: seq<nat> :| Cuts(cuts, i, t, |vs|)
        && forall k {:trigger vs[k]} :: 0 <= k < |vs| ==> SpellsVariant(s, cuts[k], cuts[k + 1], vs[k]);
    var cuts': seq<nat> :| Cuts(cuts', i, t', |vs'|)
        && forall k {:trigger vs'[k]} :: 0 <= k < |vs'| ==> SpellsVariant(s, cuts'[k], cuts'[k + 1], vs'[k]);
    var n := if |vs| < |vs'| then |vs| else |vs'|;
    SameVariants(s, i, cuts, vs, cuts', vs', n);
    assert vs[..|vs|] == vs && vs'[..|vs'|] == vs';
    if n < |vs'| {
      VariantStarts(s, cuts'[n], cuts'[n + 1], vs'[n]);
      assert false;
    }
    if n < |vs| {
      VariantStarts(s, cuts[n], cuts[n + 1], vs[n]);
      assert false;
    }
  }

  lemma VariantStarts(s: string, i: nat, j: nat, v: Variant)
    requires SpellsVariant(s, i, j, v)
    ensures VariantAt(s, i)
  {
    hide KeyAt, SpellsPattern, BlankEnd;
  }

  /** The first `n` variants are spelled at the cuts. */
  ghost predicate SpeltAt(s: string, i: nat, cuts: seq<nat>, vs: seq<Variant>) {
    |cuts| == |vs| + 1 && cuts[0] == i
        && forall k {:trigger vs[k]} :: 0 <= k < |vs| ==> SpellsVariant(s, cuts[k], cuts[k + 1], vs[k])
  }

  lemma {:induction false} SameVariants(s: string, i: nat, cuts: seq<nat>, vs: seq<Variant>, cuts': seq<nat>,
                                        vs': seq<Variant>, n: nat)
    requires SpeltAt(s, i, cuts, vs) && SpeltAt(s, i, cuts', vs') && n <= |vs| && n <= |vs'|
    ensures cuts[n] == cuts'[n] && vs[..n] == vs'[..n]
    decreases vs, 0, n
  {
    hide SpellsVariant;
    if n > 0 {
      SameVariants(s, i, cuts, vs, cuts', vs', n - 1);
      UniqueVariant(s, cuts[n - 1], cuts[n], vs[n - 1], cuts'[n], vs'[n - 1]);
      assert vs[..n] == vs[..n - 1] + [vs[n - 1]] && vs'[..n] == vs'[..n - 1] + [vs'[n - 1]];
    }
  }

  lemma VariantParts(s: string, i: nat, j: nat, v: Variant) returns (c: nat, e: nat)
    requires SpellsVariant(s, i, j, v)
    ensures CharAt(s, i, '*') <==> v.isDefault
    ensures KeyAt(s, if v.isDefault then i + 2 else i + 1, c, v.key)
    ensures e <= |s| && SpellsPattern(s, c, e, v.value) && j == BlankEnd(s, e)
  {
    hide KeyAt, SpellsPattern, BlankEnd;
    var b := if v.isDefault then i + 1 else i;
    c, e :| KeyAt(s, b + 1, c, v.key) && e <= |s| && SpellsPattern(s, c, e, v.value) && j == BlankEnd(s, e);
  }

  lemma {:induction false} UniqueVariant(s: string, i: nat, j: nat, v: Variant, j': nat, v': Variant)
    requires SpellsVariant(s, i, j, v) && SpellsVariant(s, i, j', v')
    ensures j == j' && v == v'
    decreases v, 2
  {
    hide KeyAt, SpellsPattern, BlankEnd, SpellsVariant;
    var c, e := VariantParts(s, i, j, v);
    var c', e' := VariantParts(s, i, j', v');
    UniqueKey(s, if v.isDefault then i + 2 else i + 1, c, v.key, c', v'.key);
    UniquePattern(s, c, e, v.value, e', v'.value);
  }

  /** The first character tells the kinds of inline expressions apart. */
  ghost predicate StartsInline(s: string, i: nat, x: Inline) {
    && i < |s|
    && match x
       case Variable(_) => s[i] == '$'
       case Literal(_) => s[i] == '"'
       case Number(_) => IsDigit(s[i]) || s[i] == '-'
       case StrEq(_, _) => IsAlphabetic(s[i])
       case Nested(_) => s[i] == '{'
  }

  lemma InlineStarts(s: string, i: nat, j: nat, x: Inline)
    requires SpellsInline(s, i, j, x)
    ensures StartsInline(s, i, x) && j <= |s|
  {
    hide SpellsPlaceable, BlankEnd, CloseQuote, Unescaped, NumberFrom;
    if x.Nested? {
      PlaceableInside(s, i + 1, j, x.expression);
    }
  }

  lemma PlaceableInside(s: string, i: nat, j: nat, e: Expression)
    requires SpellsPlaceable(s, i, j, e)
    ensures j <= |s|
  {
    hide SpellsExpression;
    var q: nat :| q <= |s| && SpellsExpression(s, BlankEnd(s, i), q, e)
        && var close := if e.Simple? then BlankEnd(s, q) else SpacesEnd(s, q);
                  CharAt(s, close, '}') && j == close + 1;
  }

  lemma {:induction false} UniqueInline(s: string, i: nat, j: nat, x: Inline, j': nat, x': Inline)
    requires SpellsInline(s, i, j, x) && SpellsInline(s, i, j', x')
    ensures j == j' && x == x'
    decreases x, 1
  {
    hide SpellsPlaceable, BlankEnd, CloseQuote, Unescaped, NumberFrom, DigitsEnd, ArgEnd, IsNameChar;
    InlineStarts(s, i, j, x);
    InlineStarts(s, i, j', x');
    match x
    case Variable(_) => UniqueIdentifier(s, i + 1, j, j');
    case StrEq(a, b) =>
      var q: nat, u: nat :| q <= |s| && SpellsInline(s, CallStart(s, i), q, a)
          && u <= |s| && SpellsInline(s, ArgEnd(s, q), u, b)
                         && CharAt(s, ArgEnd(s, u), ')') && j == ArgEnd(s, u) + 1;
      var q': nat, u': nat :| q' <= |s| && SpellsInline(s, CallStart(s, i), q', x'.left)
          && u' <= |s| && SpellsInline(s, ArgEnd(s, q'), u', x'.right)
                         && CharAt(s, ArgEnd(s, u'), ')') && j' == ArgEnd(s, u') + 1;
      UniqueInline(s, CallStart(s, i), q, a, q', x'.left);
      UniqueInline(s, ArgEnd(s, q), u, b, u', x'.right);
    case Nested(e) => UniquePlaceable(s, i + 1, j, e, j', x'.expression);
    case _ =>
  }
}
