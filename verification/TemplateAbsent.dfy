/** When the source at a position is no tree of the grammar. */
module TemplateAbsent {
  import opened Options
  import opened Template
  import opened TemplateLexis
  import opened TemplateLines
  import opened TemplateGrammar
  import opened TemplateUnique

  ghost predicate NoPattern(s: string, i: nat) {
    forall j: nat, p :: !SpellsPattern(s, i, j, p)
  }

  ghost predicate NoPlaceable(s: string, i: nat) {
    forall j: nat, e :: !SpellsPlaceable(s, i, j, e)
  }

  ghost predicate NoExpression(s: string, i: nat) {
    forall j: nat, e :: !SpellsExpression(s, i, j, e)
  }

  ghost predicate NoList(s: string, i: nat) {
    forall j: nat, vs :: !SpellsList(s, i, j, vs)
  }

  ghost predicate NoVariant(s: string, i: nat) {
    forall j: nat, v :: !SpellsVariant(s, i, j, v)
  }

  ghost predicate NoKey(s: string, i: nat) {
    forall j: nat, key :: !KeyAt(s, i, j, key)
  }

  ghost predicate NoNumber(s: string, i: nat) {
    forall j: nat, n :: !NumberAt(s, i, j, n)
  }

  ghost predicate NoInline(s: string, i: nat) {
    forall j: nat, x :: !SpellsInline(s, i, j, x)
  }

  // ----- inline expressions -----

  /** It has to start with one of a few characters. */
  lemma NoInlineStart(s: string, i: nat)
    requires i < |s| ==>
               s[i] != '$' && s[i] != '"' && s[i] != '-' && s[i] != '{' && !IsDigit(s[i]) && !IsAlphabetic(s[i])
    ensures NoInline(s, i)
  {
    hide SpellsInline;
    forall j: nat, x
      ensures !SpellsInline(s, i, j, x)
    {
      if SpellsInline(s, i, j, x) {
        InlineStarts(s, i, j, x);
      }
    }
  }

  lemma NoVariable(s: string, i: nat)
    requires CharAt(s, i, '$') && !(i + 1 < |s| && IsAlphabetic(s[i + 1]))
    ensures NoInline(s, i)
  {
    hide SpellsPlaceable, BlankEnd;
    forall j: nat, x
      ensures !SpellsInline(s, i, j, x)
    {
      if SpellsInline(s, i, j, x) {
        InlineStarts(s, i, j, x);
      }
    }
  }

  lemma NoLiteral(s: string, i: nat)
    requires CharAt(s, i, '"') && CloseQuote(s, i + 1) == None
    ensures NoInline(s, i)
  {
    hide SpellsPlaceable, BlankEnd, CloseQuote;
    forall j: nat, x
      ensures !SpellsInline(s, i, j, x)
    {
      if SpellsInline(s, i, j, x) {
        InlineStarts(s, i, j, x);
      }
    }
  }

  lemma NoNumberInline(s: string, i: nat)
    requires i < |s| && (IsDigit(s[i]) || s[i] == '-') && NoNumber(s, i)
    ensures NoInline(s, i)
  {
    hide SpellsPlaceable, BlankEnd, NumberAt;
    forall j: nat, x
      ensures !SpellsInline(s, i, j, x)
    {
      if SpellsInline(s, i, j, x) {
        InlineStarts(s, i, j, x);
      }
    }
  }

  lemma NoNested(s: string, i: nat)
    requires CharAt(s, i, '{') && NoPlaceable(s, i + 1)
    ensures NoInline(s, i)
  {
    hide SpellsPlaceable, BlankEnd;
    forall j: nat, x
      ensures !SpellsInline(s, i, j, x)
    {
      if SpellsInline(s, i, j, x) {
        InlineStarts(s, i, j, x);
      }
    }
  }

  /** A letter starts a call or nothing. */
  lemma NoCall(s: string, i: nat)
    requires i < |s| && IsAlphabetic(s[i]) && !CallAt(s, i)
    ensures NoInline(s, i)
  {
    hide SpellsPlaceable, BlankEnd, CallAt;
    forall j: nat, x
      ensures !SpellsInline(s, i, j, x)
    {
      if SpellsInline(s, i, j, x) {
        InlineStarts(s, i, j, x);
      }
    }
  }

  lemma OtherName(s: string, i: nat, named: nat)
    requires IdentifierAt(s, i, named) && (s[i..named] != "STREQ" || !CharAt(s, BlankEnd(s, named), '('))
    ensures !CallAt(s, i)
  {
    UniqueIdentifier(s, i, named, i + 5);
  }

  /** The arguments of a call read so far, with where they start and end. */
  ghost predicate ArgsRead(s: string, first: nat, starts: seq<nat>, ends: seq<nat>, args: seq<Inline>) {
    && |starts| == |args| + 1 && |ends| == |args| && starts[0] == first
    && forall k {:trigger args[k]} :: 0 <= k < |args| ==>
         ends[k] <= |s| && SpellsInline(s, starts[k], ends[k], args[k]) && starts[k + 1] == ArgEnd(s, ends[k])
  }

  /** Fewer or more than two arguments, or no parenthesis behind them. */
  ghost predicate CallFails(s: string, starts: seq<nat>, args: seq<Inline>)
    requires |starts| == |args| + 1
  {
    if |args| < 2 then NoInline(s, starts[|args|]) else !CharAt(s, starts[2], ')')
  }

  lemma NoCallWith(s: string, i: nat, starts: seq<nat>, ends: seq<nat>, args: seq<Inline>)
    requires CallAt(s, i) && ArgsRead(s, CallStart(s, i), starts, ends, args) && CallFails(s, starts, args)
    ensures NoInline(s, i)
  {
    hide BlankEnd, CallAt, CallStart, ArgEnd, SpellsPlaceable;
    forall j: nat, x
      ensures !SpellsInline(s, i, j, x)
    {
      if SpellsInline(s, i, j, x) {
        InlineStarts(s, i, j, x);
        CallIsLetter(s, i);
        NoCallTo(s, i, starts, ends, args, j, x.left, x.right);
      }
    }
  }

  lemma CallIsLetter(s: string, i: nat)
    requires CallAt(s, i)
    ensures i < |s| && IsAlphabetic(s[i])
  {
  }

  lemma NoCallTo(s: string, i: nat, starts: seq<nat>, ends: seq<nat>, args: seq<Inline>, j: nat, a: Inline, b: Inline)
    requires CallAt(s, i) && ArgsRead(s, CallStart(s, i), starts, ends, args) && CallFails(s, starts, args)
    ensures !SpellsInline(s, i, j, StrEq(a, b))
  {
    hide BlankEnd, CallAt, CallStart, ArgEnd, SpellsPlaceable;
    if SpellsInline(s, i, j, StrEq(a, b)) {
      var q: nat, u: nat :| q <= |s| && SpellsInline(s, CallStart(s, i), q, a)
          && u <= |s| && SpellsInline(s, ArgEnd(s, q), u, b)
                         && CharAt(s, ArgEnd(s, u), ')') && j == ArgEnd(s, u) + 1;
      if |args| > 0 {
        UniqueInline(s, CallStart(s, i), ends[0], args[0], q, a);
        if |args| > 1 {
          UniqueInline(s, ArgEnd(s, q), ends[1], args[1], u, b);
        }
      }
    }
  }

  // ----- expressions -----

  lemma NoSelector(s: string, i: nat)
    requires NoInline(s, i)
    ensures NoExpression(s, i)
  {
    hide SpellsInline, SpellsExpression;
    forall j: nat, e
      ensures !SpellsExpression(s, i, j, e)
    {
      if SpellsExpression(s, i, j, e) {
        var q := SelectorEnd(s, i, j, e);
      }
    }
  }

  /** Behind an arrow there must be a line break and a list of variants. */
  lemma NoSelect(s: string, i: nat, q: nat, x: Inline)
    requires q <= |s| && SpellsInline(s, i, q, x) && ArrowAt(s, BlankEnd(s, q))
    requires var eol := SpacesEnd(s, BlankEnd(s, q) + 2);
             EolEnd(s, eol) == eol || NoList(s, BlankEnd(s, EolEnd(s, eol)))
    ensures NoExpression(s, i)
  {
    hide SpellsInline, SpellsExpression, BlankEnd, EolEnd, SpacesEnd, ArrowAt, SpellsList;
    forall j: nat, e
      ensures !SpellsExpression(s, i, j, e)
    {
      if SpellsExpression(s, i, j, e) {
        var q' := SelectorEnd(s, i, j, e);
        UniqueInline(s, i, q, x, q', SelectorOf(e));
      }
    }
  }

  lemma NothingPlaced(s: string, i: nat)
    requires i <= |s| && NoExpression(s, BlankEnd(s, i))
    ensures NoPlaceable(s, i)
  {
    hide SpellsExpression, BlankEnd;
    forall j: nat, e
      ensures !SpellsPlaceable(s, i, j, e)
    {
      assert forall q: nat :: !SpellsExpression(s, BlankEnd(s, i), q, e);
    }
  }

  lemma Unclosed(s: string, i: nat, q: nat, e: Expression)
    requires i <= |s| && q <= |s| && SpellsExpression(s, BlankEnd(s, i), q, e)
    requires !CharAt(s, if e.Simple? then BlankEnd(s, q) else SpacesEnd(s, q), '}')
    ensures NoPlaceable(s, i)
  {
    hide SpellsExpression, BlankEnd, SpacesEnd;
    forall j: nat, e'
      ensures !SpellsPlaceable(s, i, j, e')
    {
      if SpellsPlaceable(s, i, j, e') {
        var q': nat :| q' <= |s| && SpellsExpression(s, BlankEnd(s, i), q', e')
          && var close := if e'.Simple? then BlankEnd(s, q') else SpacesEnd(s, q');
              CharAt(s, close, '}') && j == close + 1;
        UniqueExpression(s, BlankEnd(s, i), q, e, q', e');
      }
    }
  }

  // ----- variants -----

  lemma NoVariantKey(s: string, i: nat, isDefault: bool)
    requires isDefault ==> CharAt(s, i, '*')
    requires CharAt(s, if isDefault then i + 1 else i, '[') && NoKey(s, if isDefault then i + 2 else i + 1)
    ensures NoVariant(s, i)
  {
    hide KeyAt, SpellsPattern, BlankEnd;
  }

  lemma NoVariantValue(s: string, i: nat, isDefault: bool, c: nat, key: Key)
    requires isDefault ==> CharAt(s, i, '*')
    requires CharAt(s, if isDefault then i + 1 else i, '[')
    requires KeyAt(s, if isDefault then i + 2 else i + 1, c, key) && NoPattern(s, c)
    ensures NoVariant(s, i)
  {
    hide KeyAt, SpellsPattern, BlankEnd;
    forall j: nat, v
      ensures !SpellsVariant(s, i, j, v)
    {
      if SpellsVariant(s, i, j, v) {
        var c', e := VariantParts(s, i, j, v);
        UniqueKey(s, if isDefault then i + 2 else i + 1, c, key, c', v.key);
      }
    }
  }

  /** Every list goes on from the variants that were read: with a next one at the end of
      them, unless the list ends there. */
  lemma ListGoesOn(s: string, i: nat, cuts: seq<nat>, vs: seq<Variant>, j: nat, vs': seq<Variant>) returns (t: nat)
    requires SpeltAt(s, i, cuts, vs) && SpellsList(s, i, j, vs')
    ensures vs == vs' ==>
              && t == cuts[|vs|] && !VariantAt(s, t)
              && if CharAt(s, t, '*') then Defaults(vs) == 0 else Defaults(vs) == 1
    ensures vs != vs' ==>
              |vs| < |vs'| && vs == vs'[..|vs|] && Defaults(vs') <= 1 && SpellsVariant(s, cuts[|vs|], t, vs'[|vs|])
  {
    hide SpellsVariant, VariantAt, Defaults;
    t :| SpellsVariants(s, i, t, vs') && !VariantAt(s, t)
      && if CharAt(s, t, '*') then j == t + 1 && Defaults(vs') == 0 else j == t && Defaults(vs') == 1;
    var cuts': seq<nat> :| Cuts(cuts', i, t, |vs'|)
        && forall k {:trigger vs'[k]} :: 0 <= k < |vs'| ==> SpellsVariant(s, cuts'[k], cuts'[k + 1], vs'[k]);
    var n := if |vs| < |vs'| then |vs| else |vs'|;
    SameVariants(s, i, cuts, vs, cuts', vs', n);
    assert vs[..|vs|] == vs && vs'[..|vs'|] == vs';
    if n < |vs| {
      VariantStarts(s, cuts[n], cuts[n + 1], vs[n]);
      assert false;
    }
    if n < |vs'| {
      t := cuts'[n + 1];
    }
  }

  lemma NoNextVariant(s: string, i: nat, cuts: seq<nat>, vs: seq<Variant>)
    requires SpeltAt(s, i, cuts, vs) && VariantAt(s, cuts[|vs|]) && NoVariant(s, cuts[|vs|])
    ensures NoList(s, i)
  {
    hide SpellsVariant, VariantAt, Defaults, SpeltAt, SpellsList;
    forall j: nat, vs'
      ensures !SpellsList(s, i, j, vs')
    {
      if SpellsList(s, i, j, vs') {
        var t := ListGoesOn(s, i, cuts, vs, j, vs');
      }
    }
  }

  lemma {:induction false} DefaultsGrow(vs: seq<Variant>, n: nat)
    requires n < |vs|
    ensures Defaults(vs[..n]) + (if vs[n].isDefault then 1 else 0) <= Defaults(vs)
    decreases |vs|
  {
    var last := |vs| - 1;
    if n < last {
      DefaultsGrow(vs[..last], n);
      assert vs[..last][..n] == vs[..n];
    }
  }

  /** Two stars spoil the list. */
  lemma SecondStar(s: string, i: nat, cuts: seq<nat>, vs: seq<Variant>)
    requires SpeltAt(s, i, cuts, vs) && CharAt(s, cuts[|vs|], '*') && Defaults(vs) == 1
    ensures NoList(s, i)
  {
    hide VariantAt, Defaults, SpellsList, KeyAt, SpellsPattern, BlankEnd;
    forall j: nat, vs'
      ensures !SpellsList(s, i, j, vs')
    {
      if SpellsList(s, i, j, vs') {
        var t := ListGoesOn(s, i, cuts, vs, j, vs');
        if vs != vs' {
          DefaultsGrow(vs', |vs|);
        }
      }
    }
  }

  lemma MissingDefault(s: string, i: nat, cuts: seq<nat>, vs: seq<Variant>)
    requires SpeltAt(s, i, cuts, vs) && !VariantAt(s, cuts[|vs|]) && !CharAt(s, cuts[|vs|], '*') && Defaults(vs) == 0
    ensures NoList(s, i)
  {
    hide SpellsVariant, VariantAt, Defaults, SpellsList;
    forall j: nat, vs'
      ensures !SpellsList(s, i, j, vs')
    {
      if SpellsList(s, i, j, vs') {
        var t := ListGoesOn(s, i, cuts, vs, j, vs');
        if vs != vs' {
          VariantStarts(s, cuts[|vs|], t, vs'[|vs|]);
        }
      }
    }
  }
}
