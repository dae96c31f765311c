/** The template parser (frontend_diag_template/src/lib.rs:106-145, 188-730). The source
    is a sequence of characters; the grammar only tells ASCII characters apart. */
module TemplateParser {
  import opened Options
  import opened Template
  import opened TemplateLexis
  import opened TemplateLines
  import opened TemplateGrammar
  import opened TemplateUnique
  import opened TemplateAbsent
  import opened TemplateCollect
  import opened TemplateDefaults
  import opened TemplatePlain

  predicate OnlySpaces(s: string) {
    forall i :: 0 <= i < |s| ==> s[i] == ' '
  }

  class Parser {
    const src: string
    var ptr: nat

    constructor (src: string)
      ensures this.src == src && ptr == 0
    {
      this.src := src;
      ptr := 0;
    }

    /** The source ends with the line feed that `parse` appended. */
    predicate Valid()
      reads this
    {
      src != "" && src[|src| - 1] == '\n' && ptr <= |src|
    }

    predicate IsCur(c: char)
      reads this
    {
      ptr < |src| && src[ptr] == c
    }

    method Take(c: char) returns (taken: bool)
      requires Valid()
      modifies this`ptr
      ensures Valid() && taken == old(IsCur(c)) && ptr == old(ptr) + if taken then 1 else 0
    {
      taken := IsCur(c);
      if taken {
        ptr := ptr + 1;
      }
    }

    method SkipEol() returns (skipped: bool)
      requires Valid()
      modifies this`ptr
      ensures Valid() && ptr == EolEnd(src, old(ptr)) && (skipped <==> ptr > old(ptr))
    {
      if IsCur('\n') {
        ptr := ptr + 1;
        return true;
      }
      if IsCur('\r') && ptr + 1 < |src| && src[ptr + 1] == '\n' {
        ptr := ptr + 2;
        return true;
      }
      return false;
    }

    method SkipBlankInline() returns (n: nat)
      requires Valid()
      modifies this`ptr
      ensures Valid() && ptr == old(ptr) + n && ptr == SpacesEnd(src, old(ptr))
    {
      var start := ptr;
      while IsCur(' ')
        invariant Valid() && start <= ptr
        invariant forall i :: start <= i < ptr ==> src[i] == ' '
        decreases |src| - ptr
      {
        ptr := ptr + 1;
      }
      n := ptr - start;
    }

    /** Blank lines only. */
    method SkipBlankBlock()
      requires Valid()
      modifies this`ptr
      ensures Valid() && ptr == BlankLinesEnd(src, old(ptr))
    {
      var going := true;
      while going
        invariant Valid() && old(ptr) <= ptr
        invariant BlankLinesEnd(src, ptr) == BlankLinesEnd(src, old(ptr))
        invariant !going ==> BlankLinesEnd(src, ptr) == ptr
        decreases going, |src| - ptr
      {
        var start := ptr;
        var _ := SkipBlankInline();
        going := SkipEol();
        if !going {
          ptr := start;
        }
      }
    }

    method SkipBlank()
      requires Valid()
      modifies this`ptr
      ensures Valid() && ptr == BlankEnd(src, old(ptr))
    {
      while IsCur(' ') || IsCur('\n') || (IsCur('\r') && ptr + 1 < |src| && src[ptr + 1] == '\n')
        invariant Valid() && old(ptr) <= ptr
        invariant BlankEnd(src, ptr) == BlankEnd(src, old(ptr))
        decreases |src| - ptr
      {
        ptr := ptr + if IsCur('\r') then 2 else 1;
      }
    }

    /** Consumes an identifier whose first character has already been consumed. */
    method GetIdentifierUnchecked() returns (name: string)
      requires Valid() && ptr > 0
      modifies this`ptr
      ensures Valid() && old(ptr) <= ptr
      ensures name == src[old(ptr) - 1..ptr]
      ensures forall i :: old(ptr) <= i < ptr ==> IsNameChar(src[i])
      ensures ptr < |src| ==> !IsNameChar(src[ptr])
    {
      var start := ptr - 1;
      while ptr < |src| && IsNameChar(src[ptr])
        invariant Valid() && old(ptr) <= ptr
        invariant forall i :: old(ptr) <= i < ptr ==> IsNameChar(src[i])
        decreases |src| - ptr
      {
        ptr := ptr + 1;
      }
      name := src[start..ptr];
    }

    method GetIdentifier() returns (r: Result<string>)
      requires Valid()
      modifies this`ptr
      ensures Valid() && old(ptr) <= ptr
      ensures r.Err? ==> old(ptr) <= r.error.offset <= |src|
      ensures r.Ok? <==> old(ptr) < |src| && IsAlphabetic(src[old(ptr)])
      ensures r.Ok? ==> IdentifierAt(src, old(ptr), ptr) && r.value == src[old(ptr)..ptr]
    {
      if !(ptr < |src| && IsAlphabetic(src[ptr])) {
        return Err(ParseError(ptr, ExpectedIdentifier));
      }
      ptr := ptr + 1;
      var name := GetIdentifierUnchecked();
      r := Ok(name);
    }

    /** Integers within 64 bits only. */
    method GetNumberLiteral() returns (r: Result<int>)
      requires Valid()
      modifies this`ptr
      ensures Valid() && old(ptr) <= ptr
      ensures r.Err? ==> old(ptr) <= r.error.offset <= |src|
      ensures r.Ok? ==> NumberAt(src, old(ptr), ptr, r.value) && IsNumber(src[old(ptr)..ptr], r.value)
      ensures r.Err? ==> NoNumber(src, old(ptr))
      ensures var digits := if old(IsCur('-')) then old(ptr) + 1 else old(ptr);
              var end := DigitsEnd(src, digits);
              && ptr == end
              && (r.Err? && r.error.reason == ExpectedDigit <==> end == digits)
              && (r.Err? && r.error.reason == FractionalNumber <==> end > digits && CharAt(src, end, '.'))
    {
      var start := ptr;
      var negative := Take('-');
      var digits := ptr;
      while ptr < |src| && IsDigit(src[ptr])
        invariant Valid() && digits <= ptr
        invariant forall i :: digits <= i < ptr ==> IsDigit(src[i])
        decreases |src| - ptr
      {
        ptr := ptr + 1;
      }
      assert ptr == DigitsEnd(src, digits);
      if ptr == digits {
        return Err(ParseError(ptr, ExpectedDigit));
      }
      if IsCur('.') {
        return Err(ParseError(ptr, FractionalNumber));
      }
      var text := src[digits..ptr];
      assert forall i :: 0 <= i < |text| ==> text[i] == src[digits + i];
      var magnitude: int := DecimalValue(text);
      var number := if negative then -magnitude else magnitude;
      assert number == NumberFrom(src, digits, negative);
      if I64_MIN <= number <= I64_MAX {
        assert negative ==> src[start..ptr][1..] == src[digits..ptr];
        r := Ok(number);
      } else {
        r := Err(ParseError(start, NumberTooLarge));
      }
    }

    /** A run of text. Behind the appended line feed it never meets the end of the input. */
    method GetTextSlice() returns (r: Result<Slice>)
      requires Valid()
      modifies this`ptr
      ensures Valid() && old(ptr) <= ptr
      ensures r.Err? ==> old(ptr) <= r.error.offset <= |src|
      ensures r.Err? <==> old(ptr) < |src| && src[TextStop(src, old(ptr))] == '}'
      ensures r.Err? ==> r.error == ParseError(TextStop(src, old(ptr)), UnbalancedBrace)
      ensures r.Ok? ==> (r.value.termination.Eof? <==> old(ptr) == |src|)
      ensures r.Ok? && old(ptr) < |src| ==>
                var stop := TextStop(src, old(ptr));
                SliceAt(src, old(ptr), stop, ptr, r.value)
    {
      var start := ptr;
      if ptr == |src| {
        return Ok(Slice(ptr, true, Eof));
      }
      var n := ptr;
      while n < |src| && src[n] != '\n' && src[n] != '{' && src[n] != '}'
        invariant start <= n <= |src|
        invariant forall i :: start <= i < n ==> src[i] != '\n' && src[i] != '{' && src[i] != '}'
      {
        n := n + 1;
      }
      assert n == TextStop(src, start);
      if src[n] == '}' {
        ptr := n;
        return Err(ParseError(ptr, UnbalancedBrace));
      }
      if src[n] == '{' {
        ptr := n;
        return Ok(Slice(n, OnlySpaces(src[start..n]), PlaceableStart));
      }
      if n > start && src[n - 1] == '\r' {
        ptr := n;
        return Ok(Slice(n - 1, OnlySpaces(src[start..n - 1]), Crlf));
      }
      ptr := n + 1;
      return Ok(Slice(n + 1, OnlySpaces(src[start..n]), LineFeed));
    }

    /** The start of `get_pattern`: the spaces of the first line and, when nothing else
        is on it, the blank lines after it. */
    method OpenPattern() returns (role: Position)
      requires Valid()
      modifies this`ptr
      ensures Valid() && ptr == OpenEnd(src, old(ptr))
      ensures role == if OpensLine(src, old(ptr)) then LineStart else InitialLineStart
    {
      hide SpacesEnd, EolEnd, BlankLinesEnd;
      var _ := SkipBlankInline();
      var eol := SkipEol();
      if eol {
        SkipBlankBlock();
        role := LineStart;
      } else {
        role := InitialLineStart;
      }
    }

    /** One run of text, with its indentation when it starts a line. */
    method GetPiece(role: Position) returns (piece: Piece)
      requires Valid() && ptr < |src| && !IsCur('{')
      modifies this`ptr
      ensures Valid() && old(ptr) <= ptr
      ensures piece.Stop? <==> role == LineStart && !LineContinues(src, old(ptr))
      ensures piece.Stop? ==> ptr == old(ptr)
      ensures piece.Failed? ==> old(ptr) <= piece.error.offset <= |src|
      ensures piece.Failed? ==> NoRun(src, old(ptr), role == LineStart)
      ensures piece.Failed? ==>
                StrayFrom(src, old(ptr), role == LineStart, piece.error.offset) && piece.error.reason == UnbalancedBrace
      ensures piece.Found? ==> old(ptr) < ptr && PieceIs(src, piece, Run(old(ptr), piece.end, ptr, role == LineStart))
    {
      hide TextStop, PieceIs, SliceAt, NoRun;
      var start := ptr;
      var indent := 0;
      if role == LineStart {
        indent := SkipBlankInline();
        if ptr == |src| {
          // Not possible: the last character is a line feed.
          return Stop;
        }
        if (indent == 0 && src[ptr] != '\r' && src[ptr] != '\n')
           || (indent > 0 && src[ptr] in {'.', '}', '[', '*'}) {
          ptr := start;
          return Stop;
        }
      }
      var mid := ptr;
      var slice := GetTextSlice();
      if slice.Err? {
        NoRunHere(src, start, mid, role == LineStart);
        return Failed(slice.error);
      }
      var s := slice.value;
      piece := Found(s.end, indent, s.blank, mid == s.end, s.termination);
      SliceIsRun(src, start, mid, ptr, role == LineStart, s);
    }

    /** `get_pattern`: the pattern of the grammar, or `None` or an error when there is
        none. */
    method GetPattern() returns (r: Result<Option<Pattern>>)
      requires Valid()
      modifies this`ptr
      ensures Valid() && old(ptr) <= ptr
      ensures r.Err? ==> old(ptr) <= r.error.offset <= |src|
      ensures r.Ok? && r.value.Some? ==> SpellsPattern(src, old(ptr), ptr, r.value.value)
      ensures r.Err? || r.value.None? ==> NoPattern(src, old(ptr))
      ensures r.Ok? ==> exists parts :: OverAfter(src, old(ptr), parts) && ptr == ReadTo(src, old(ptr), parts)
                                     && (r.value.None? <==> LastSolid(src, Kept(src, parts)) == None)
      ensures r.Err? ==> exists parts :: FailsAfter(src, old(ptr), parts, r.error)
      decreases |src| - ptr, 3
    {
      hide OpenEnd, OpensLine, Gathered, Ends, LineContinues, SpellsPlaceable, SpellsPattern, NoPattern, NoPlaceable,
        NoRun, PieceIs, Finished, Collected.WithHole, Collected.WithText, OverAfter, FailsAfter, ReadTo, StrayFrom,
        Kept, LastSolid;
      var role := OpenPattern();
      var c := Collected([], None, None, role);
      ghost var parts: seq<Part> := [];
      GatheredNothing(src, old(ptr), role);
      var going := true;
      while going && ptr < |src|
        invariant Valid() && old(ptr) <= ptr && Gathered(src, old(ptr), ptr, parts, c)
        invariant !going ==> Ends(src, ptr, c.role == LineStart)
        decreases going, |src| - ptr
      {
        var start := ptr;
        var brace := Take('{');
        if brace {
          NotTheEnd(src, start, c.role == LineStart);
          NoRunAtBrace(src, start, c.role == LineStart);
          var e := GetPlaceable();
          if e.Err? {
            NoPatternAt(src, old(ptr), start, parts, c);
            FailsInPlaceable(src, old(ptr), start, parts, c, e.error);
            return Err(e.error);
          }
          ghost var part := GatheredHole(src, old(ptr), start, parts, c, ptr, e.value);
          parts := parts + [part];
          c := c.WithHole(e.value);
        } else {
          var piece := GetPiece(c.role);
          match piece {
            case Stop =>
              StopsHere(src, ptr);
              going := false;
            case Failed(error) =>
              NotTheEndEither(src, start, c.role == LineStart);
              NoPatternAt(src, old(ptr), start, parts, c);
              FailsInText(src, old(ptr), start, parts, c, error);
              return Err(error);
            case Found(end, _, _, _, _) =>
              ghost var part := Run(start, end, ptr, c.role == LineStart);
              GatheredText(src, old(ptr), start, parts, c, piece, part);
              parts := parts + [part];
              c := c.WithText(start, piece);
          }
        }
      }
      if going {
        EndsWithSource(src, c.role == LineStart);
      }
      ReadingOver(src, old(ptr), ptr, parts, c);
      if c.last.None? {
        NoPatternBlank(src, old(ptr), ptr, parts, c);
        return Ok(None);
      }
      GatheredPattern(src, old(ptr), ptr, parts, c);
      r := Ok(Some(Finished(src, c)));
    }

    /** `get_placeable`, with the opening brace already consumed. */
    method GetPlaceable() returns (r: Result<Expression>)
      requires Valid()
      modifies this`ptr
      ensures Valid() && old(ptr) <= ptr
      ensures r.Err? ==> old(ptr) <= r.error.offset <= |src|
      ensures r.Ok? ==> ptr > old(ptr) && SpellsPlaceable(src, old(ptr), ptr, r.value)
      ensures r.Err? ==> NoPlaceable(src, old(ptr))
      decreases |src| - ptr, 2
    {
      hide BlankEnd, SpacesEnd, SpellsExpression, NoExpression, NoPlaceable;
      SkipBlank();
      var e, q := GetExpression();
      if e.Err? {
        NothingPlaced(src, old(ptr));
        return Err(e.error);
      }
      SpacesAfterBlank(src, q);
      var _ := SkipBlankInline();
      var closed := Take('}');
      if !closed {
        Unclosed(src, old(ptr), q, e.value);
        return Err(ParseError(ptr, Expected('}')));
      }
      r := Ok(e.value);
    }

    /** `get_expression`: an inline expression, or a select on one. `q` is its end. */
    method GetExpression() returns (r: Result<Expression>, ghost q: nat)
      requires Valid()
      modifies this`ptr
      ensures Valid() && old(ptr) <= ptr
      ensures r.Err? ==> old(ptr) <= r.error.offset <= |src|
      ensures r.Ok? ==> q <= |src| && SpellsExpression(src, old(ptr), q, r.value)
      ensures r.Ok? ==> ptr == if r.value.Simple? then BlankEnd(src, q) else q
      ensures r.Err? ==> NoExpression(src, old(ptr))
      decreases |src| - ptr, 1
    {
      hide BlankEnd, SpacesEnd, EolEnd, SpellsInline, SpellsList, NoExpression, NoInline, NoList;
      var selector := GetInlineExpression();
      q := ptr;
      if selector.Err? {
        NoSelector(src, old(ptr));
        return Err(selector.error), q;
      }
      SkipBlank();
      if !(IsCur('-') && ptr + 1 < |src| && src[ptr + 1] == '>') {
        return Ok(Simple(selector.value)), q;
      }
      ghost var end := q;
      ptr := ptr + 2;
      var _ := SkipBlankInline();
      var eol := SkipEol();
      if !eol {
        NoSelect(src, old(ptr), end, selector.value);
        return Err(ParseError(ptr, ArrowNeedsNewline)), q;
      }
      SkipBlank();
      var variants := GetVariants();
      if variants.Err? {
        NoSelect(src, old(ptr), end, selector.value);
        return Err(variants.error), q;
      }
      q := ptr;
      r := Ok(Select(selector.value, variants.value));
    }

    /** `get_variants`: a lone `*` at the end is taken for the mark of a default. */
    method GetVariants() returns (r: Result<seq<Variant>>)
      requires Valid()
      modifies this`ptr
      ensures Valid() && old(ptr) <= ptr
      ensures r.Err? ==> old(ptr) <= r.error.offset <= |src|
      ensures r.Ok? ==> SpellsList(src, old(ptr), ptr, r.value)
      ensures r.Err? ==> NoList(src, old(ptr))
      decreases |src| - ptr, 3
    {
      hide SpellsPattern, SpellsVariant, SpellsList, NoList, NoVariant, NoKey, NoPattern, KeyAt, BlankEnd, Defaults,
        SpeltAt, StrayFrom, FailsAfter;
      var variants: seq<Variant>, hasDefault := [], false;
      ghost var cuts: seq<nat> := [ptr];
      NothingSpelt(src, ptr);
      while true
        invariant Valid() && old(ptr) <= ptr
        invariant |cuts| == |variants| + 1 && cuts[|variants|] == ptr && SpeltAt(src, old(ptr), cuts, variants)
        invariant Defaults(variants) == if hasDefault then 1 else 0
        decreases |src| - ptr
      {
        ghost var start := ptr;
        var isDefault := Take('*');
        if isDefault {
          if hasDefault {
            SecondStar(src, old(ptr), cuts, variants);
            return Err(ParseError(ptr, SecondDefault));
          }
          hasDefault := true;
        }
        var bracket := Take('[');
        if !bracket {
          ListEnds(src, old(ptr), cuts, variants, ptr);
          break;
        }
        var key := GetVariantKey();
        if key.Err? {
          NoVariantKey(src, start, isDefault);
          NoNextVariant(src, old(ptr), cuts, variants);
          return Err(key.error);
        }
        ghost var c := ptr;
        var value := GetPattern();
        if value.Err? {
          NoVariantValue(src, start, isDefault, c, key.value);
          NoNextVariant(src, old(ptr), cuts, variants);
          return Err(value.error);
        }
        if value.value.None? {
          NoVariantValue(src, start, isDefault, c, key.value);
          NoNextVariant(src, old(ptr), cuts, variants);
          return Err(ParseError(ptr, VariantWithoutValue));
        }
        ghost var e := ptr;
        SkipBlank();
        var variant := Variant(key.value, value.value.value, isDefault);
        VariantSpelt(src, start, c, e, variant);
        SpeltSnoc(src, old(ptr), cuts, variants, ptr, variant);
        DefaultsSnoc(variants, variant);
        variants := variants + [variant];
        cuts := cuts + [ptr];
      }
      if hasDefault {
        r := Ok(variants);
      } else {
        r := Err(ParseError(ptr, NoDefault));
      }
    }

    method GetVariantKey() returns (r: Result<Key>)
      requires Valid()
      modifies this`ptr
      ensures Valid() && old(ptr) <= ptr
      ensures r.Err? ==> old(ptr) <= r.error.offset <= |src|
      ensures r.Ok? ==> ptr > old(ptr) && KeyAt(src, old(ptr), ptr, r.value)
      ensures r.Err? ==> NoKey(src, old(ptr))
    {
      hide BlankEnd, NumberAt, IdentifierAt, NoKey, KeyAt;
      SkipBlank();
      var key: Key;
      if ptr < |src| && (IsDigit(src[ptr]) || src[ptr] == '-') {
        var n := GetNumberLiteral();
        if n.Err? {
          NoKeyText(src, old(ptr));
          return Err(n.error);
        }
        key := NumberKey(n.value);
      } else {
        var name := GetIdentifier();
        if name.Err? {
          NoKeyText(src, old(ptr));
          return Err(name.error);
        }
        key := Name(name.value);
      }
      ghost var z := ptr;
      SkipBlank();
      var closed := Take(']');
      if !closed {
        NoKeyEnd(src, old(ptr), z, key);
        return Err(ParseError(ptr, Expected(']')));
      }
      KeySpelt(src, old(ptr), z, key);
      r := Ok(key);
    }

    /** `get_inline_expression` */
    method GetInlineExpression() returns (r: Result<Inline>)
      requires Valid()
      modifies this`ptr
      ensures Valid() && old(ptr) <= ptr
      ensures r.Err? ==> old(ptr) <= r.error.offset <= |src|
      ensures r.Ok? ==> ptr > old(ptr) && SpellsInline(src, old(ptr), ptr, r.value)
      ensures r.Err? ==> NoInline(src, old(ptr))
      decreases |src| - ptr, 0
    {
      hide CloseQuote, Unescaped, WellEscaped, SpellsPlaceable, IsNumber, NumberAt, NoInline, NoNumber, NoPlaceable,
        BlankEnd, IsNameChar;
      if ptr == |src| {
        NoInlineStart(src, ptr);
        return Err(ParseError(ptr, ExpectedExpression));
      }
      var c := src[ptr];
      if c == '"' {
        ptr := ptr + 1;
        var text := GetStringLiteral();
        if text.Err? {
          NoLiteral(src, old(ptr));
        }
        return if text.Ok? then Ok(Literal(text.value)) else Err(text.error);
      }
      if IsDigit(c) {
        var n := GetNumberLiteral();
        if n.Err? {
          NoNumberInline(src, old(ptr));
        }
        return if n.Ok? then Ok(Number(n.value)) else Err(n.error);
      }
      if c == '-' {
        if ptr + 1 < |src| && IsAlphabetic(src[ptr + 1]) {
          NoNumberBeforeName(src, ptr);
          NoNumberInline(src, ptr);
          return Err(ParseError(ptr, TermReference));
        }
        var n := GetNumberLiteral();
        if n.Err? {
          NoNumberInline(src, old(ptr));
        }
        return if n.Ok? then Ok(Number(n.value)) else Err(n.error);
      }
      if c == '$' {
        ptr := ptr + 1;
        var name := GetIdentifier();
        if name.Err? {
          NoVariable(src, old(ptr));
        }
        return if name.Ok? then Ok(Variable(name.value)) else Err(name.error);
      }
      if IsAlphabetic(c) {
        var start := ptr;
        ptr := ptr + 1;
        var name := GetIdentifierUnchecked();
        ghost var named := ptr;
        SkipBlank();
        var open := Take('(');
        if !open {
          OtherName(src, start, named);
          NoCall(src, start);
          return Err(ParseError(start, MessageReference));
        }
        r := GetCall(start, name, named);
        return;
      }
      if c == '{' {
        ptr := ptr + 1;
        var e := GetPlaceable();
        if e.Err? {
          NoNested(src, old(ptr));
        }
        return if e.Ok? then Ok(Nested(e.value)) else Err(e.error);
      }
      NoInlineStart(src, ptr);
      return Err(ParseError(ptr, ExpectedExpression));
    }

    /** The rest of a string literal, with the opening quote consumed. Only whole
        escapes reach `unescape`. */
    method GetStringLiteral() returns (r: Result<string>)
      requires Valid()
      modifies this`ptr
      ensures Valid() && old(ptr) <= ptr
      ensures r.Err? ==> old(ptr) <= r.error.offset <= |src|
      ensures r.Ok? <==> CloseQuote(src, old(ptr)).Some?
      ensures r.Ok? ==> ptr == CloseQuote(src, old(ptr)).value + 1 && r.value == Unescaped(src[old(ptr)..ptr - 1])
    {
      hide EscapedChar, Unescaped, WellEscaped, EscapeLength, CloseQuote;
      var start := ptr;
      NothingEscaped();
      assert src[start..ptr] == "";
      while ptr < |src| && src[ptr] != '"'
        invariant Valid() && start <= ptr
        invariant CloseQuote(src, ptr) == CloseQuote(src, start)
        invariant WellEscaped(src[start..ptr])
        decreases |src| - ptr
      {
        var at := ptr;
        QuoteStep(src, ptr);
        if src[ptr] == '\\' {
          var n := EscapeLength(src[ptr..]);
          if n == 0 {
            return if ptr + 1 < |src| && (src[ptr + 1] == 'u' || src[ptr + 1] == 'U')
              then Err(ParseError(ptr + 2, InvalidUnicodeEscape))
              else Err(ParseError(ptr, UnknownEscape));
          }
          OneEscape(src, ptr, n);
          ptr := ptr + n;
        } else if src[ptr] == '\n' {
          return Err(ParseError(ptr, UnterminatedLiteral));
        } else {
          OnePlain(src, ptr);
          ptr := ptr + 1;
        }
        WellEscapedConcat(src[start..at], src[at..ptr]);
        SlicesJoin(src, start, at, ptr);
      }
      QuoteStep(src, ptr);
      var closed := Take('"');
      if !closed {
        return Err(ParseError(ptr, Expected('"')));
      }
      assert CloseQuote(src, start) == Some(ptr - 1) && WellEscaped(src[start..ptr - 1]);
      var text := Unescape(src[start..ptr - 1]);
      r := Ok(text);
    }

    /** `get_call`, with the parenthesis consumed: `STREQ` is the only function. */
    method GetCall(nameStart: nat, name: string, ghost named: nat) returns (r: Result<Inline>)
      requires Valid() && nameStart <= |src| && IdentifierAt(src, nameStart, named) && name == src[nameStart..named]
      requires CharAt(src, BlankEnd(src, named), '(') && ptr == BlankEnd(src, named) + 1
      modifies this`ptr
      ensures Valid() && old(ptr) <= ptr
      ensures r.Err? ==> nameStart <= r.error.offset <= |src|
      ensures r.Ok? ==> SpellsInline(src, nameStart, ptr, r.value)
      ensures r.Err? ==> NoInline(src, nameStart)
      decreases |src| - ptr, 1
    {
      hide SpellsInline, NoInline, BlankEnd, ArgsRead;
      if name != "STREQ" {
        OtherName(src, nameStart, named);
        NoCall(src, nameStart);
        return Err(ParseError(nameStart, UnknownFunction(name)));
      }
      assert named == nameStart + |name|;
      assert CallAt(src, nameStart);
      var args: seq<Inline> := [];
      SkipBlank();
      ghost var starts: seq<nat>, ends: seq<nat> := [ptr], [];
      NothingRead(src, ptr);
      while ptr < |src| && !IsCur(')')
        invariant Valid() && old(ptr) <= ptr
        invariant |starts| == |args| + 1 && starts[|args|] == ptr
        invariant ArgsRead(src, CallStart(src, nameStart), starts, ends, args)
        invariant |args| > 2 ==> !CharAt(src, starts[2], ')')
        decreases |src| - ptr
      {
        var arg := GetInlineExpression();
        if arg.Err? {
          NoCallWith(src, nameStart, starts, ends, args);
          return Err(arg.error);
        }
        ghost var q := ptr;
        SkipBlank();
        var comma := Take(',');
        SkipBlank();
        BlankTwice(src, q);
        ArgsSnoc(src, CallStart(src, nameStart), starts, ends, args, q, arg.value);
        starts, ends := starts + [ptr], ends + [q];
        args := args + [arg.value];
      }
      var closed := Take(')');
      if !closed {
        NoInlineStart(src, ptr);
        NoCallWith(src, nameStart, starts, ends, args);
        return Err(ParseError(ptr, Expected(')')));
      }
      if |args| != 2 {
        NoInlineStart(src, ptr - 1);
        NoCallWith(src, nameStart, starts, ends, args);
        return Err(ParseError(nameStart, WrongArgumentCount));
      }
      CallSpelt(src, nameStart, starts, ends, args);
      r := Ok(StrEq(args[0], args[1]));
    }
  }

  /** Behind the parts there is what the error is about: a closing brace in a text, or a
      brace that opens no placeable. */
  ghost predicate FailsAfter(s: string, i: nat, parts: seq<Part>, error: ParseError) {
    || (StrayAfter(s, i, parts, error.offset) && error.reason == UnbalancedBrace)
    || (BrokenAfter(s, i, parts) && ReadTo(s, i, parts) < error.offset <= |s|)
  }

  lemma FailsInPlaceable(s: string, i: nat, ptr: nat, parts: seq<Part>, c: Collected, error: ParseError)
    requires Gathered(s, i, ptr, parts, c) && CharAt(s, ptr, '{')
    requires NoPlaceable(s, ptr + 1) && ptr < error.offset <= |s|
    ensures FailsAfter(s, i, parts, error)
  {
    hide Chained, OpenEnd, OpensLine, NoPlaceable;
  }

  lemma FailsInText(s: string, i: nat, ptr: nat, parts: seq<Part>, c: Collected, error: ParseError)
    requires Gathered(s, i, ptr, parts, c)
    requires StrayFrom(s, ptr, c.role == LineStart, error.offset) && error.reason == UnbalancedBrace
    ensures FailsAfter(s, i, parts, error)
  {
    hide Chained, OpenEnd, OpensLine, NoPlaceable, StrayFrom;
  }

  lemma ReadingOver(s: string, i: nat, ptr: nat, parts: seq<Part>, c: Collected)
    requires Gathered(s, i, ptr, parts, c) && Ends(s, ptr, c.role == LineStart)
    ensures OverAfter(s, i, parts) && ptr == ReadTo(s, i, parts)
    ensures c.last.None? <==> LastSolid(s, Kept(s, parts)) == None
  {
    hide Chained, OpenEnd, OpensLine, Ends, Kept, LastSolid;
  }

  /** What a text slice says of the text from `mid` to where it stops. */
  ghost predicate SliceAt(s: string, mid: nat, stop: nat, ptr: nat, slice: Slice) {
    && mid <= stop < |s| && slice.end <= ptr <= |s| && mid <= slice.end
    && match slice.termination
       case PlaceableStart => s[stop] == '{' && slice.end == ptr == stop && (slice.blank <==> OnlySpaces(s[mid..stop]))
       case Crlf => s[stop] == '\n' && mid < stop && s[stop - 1] == '\r' && slice.end == stop - 1
           && ptr == stop && (slice.blank <==> OnlySpaces(s[mid..stop - 1]))
       case LineFeed => s[stop] == '\n' && !(mid < stop && s[stop - 1] == '\r')
           && slice.end == ptr == stop + 1 && (slice.blank <==> OnlySpaces(s[mid..stop]))
       case Eof => false
  }

  /** No run of text starts here. */
  ghost predicate NoRun(s: string, from: nat, lineStart: bool) {
    forall part: Part :: part.Run? && part.from == from && part.lineStart == lineStart ==> !RunAt(s, part)
  }

  lemma NoRunHere(s: string, from: nat, mid: nat, lineStart: bool)
    requires from <= mid < |s| && mid == (if lineStart then SpacesEnd(s, from) else from)
    requires TextStop(s, mid) < |s| && s[TextStop(s, mid)] == '}'
    ensures NoRun(s, from, lineStart)
  {
    hide TextStop, SpacesEnd, LineContinues;
  }

  /** A run that ends the line is blank when only spaces are before its line feed. */
  lemma SliceIsRun(s: string, from: nat, mid: nat, ptr: nat, lineStart: bool, slice: Slice)
    requires from <= mid < |s| && s[from] != '{' && mid == (if lineStart then SpacesEnd(s, from) else from)
    requires lineStart ==> LineContinues(s, from)
    requires SliceAt(s, mid, TextStop(s, mid), ptr, slice)
    ensures from < ptr
    ensures PieceIs(s, Found(slice.end, mid - from, slice.blank, mid == slice.end, slice.termination),
              Run(from, slice.end, ptr, lineStart))
  {
    hide TextStop, SpacesEnd, LineContinues, Solid, OnlySpaces;
    var part := Run(from, slice.end, ptr, lineStart);
    assert Mid(s, part) == mid;
    assert RunAt(s, part);
    BlankSlice(s, part, mid, TextStop(s, mid), slice);
    if slice.termination.PlaceableStart? {
      assert s[ptr - 1] != '\n' by {
        assert mid == ptr ==> s[ptr - 1] == ' ';
      }
    }
  }

  lemma BlankSlice(s: string, part: Part, mid: nat, stop: nat, slice: Slice)
    requires part.Run? && Mid(s, part) == mid && part.end == slice.end && SliceAt(s, mid, stop, part.to, slice)
    requires forall k :: mid <= k < stop ==> s[k] != '\n'
    ensures slice.blank <==> !Solid(s, part)
  {
    hide Mid;
    var end := if slice.termination == LineFeed then slice.end - 1 else slice.end;
    var text := s[mid..end];
    assert slice.blank <==> OnlySpaces(text);
    if !OnlySpaces(text) {
      var k :| 0 <= k < |text| && text[k] != ' ';
      assert s[mid + k] == text[k];
    }
    if Solid(s, part) {
      var k :| mid <= k < part.end && k < |s| && s[k] != ' ' && s[k] != '\n';
      assert text[k - mid] == s[k];
    }
  }

  // ----- steps of the parser -----

  lemma NotTheEnd(s: string, i: nat, ls: bool)
    requires CharAt(s, i, '{')
    ensures !Ends(s, i, ls)
  {
    hide LineContinues;
  }

  lemma NotTheEndEither(s: string, i: nat, ls: bool)
    requires i < |s| && (ls ==> LineContinues(s, i))
    ensures !Ends(s, i, ls)
  {
    hide LineContinues;
  }

  lemma StopsHere(s: string, i: nat)
    requires i < |s| && s[i] != '{' && !LineContinues(s, i)
    ensures Ends(s, i, true)
  {
    hide LineContinues;
  }

  lemma EndsWithSource(s: string, ls: bool)
    ensures Ends(s, |s|, ls)
  {
  }

  lemma NoRunAtBrace(s: string, i: nat, ls: bool)
    requires CharAt(s, i, '{')
    ensures NoRun(s, i, ls)
  {
    hide LineContinues, TextStop;
  }

  lemma NoPatternAt(s: string, i: nat, ptr: nat, parts: seq<Part>, c: Collected)
    requires Gathered(s, i, ptr, parts, c) && !Ends(s, ptr, c.role == LineStart)
    requires (CharAt(s, ptr, '{') ==> NoPlaceable(s, ptr + 1)) && NoRun(s, ptr, c.role == LineStart)
    ensures NoPattern(s, i)
  {
    hide Gathered, Ends, NoPlaceable, RunAt;
    NoPatternHere(s, i, ptr, parts, c);
  }

  lemma SpacesAfterBlank(s: string, i: nat)
    requires i <= |s|
    ensures SpacesEnd(s, BlankEnd(s, i)) == BlankEnd(s, i)
  {
  }

  lemma NothingSpelt(s: string, i: nat)
    ensures SpeltAt(s, i, [i], []) && Defaults([]) == 0
  {
  }

  lemma VariantSpelt(s: string, i: nat, c: nat, e: nat, v: Variant)
    requires v.isDefault ==> CharAt(s, i, '*')
    requires CharAt(s, if v.isDefault then i + 1 else i, '[')
    requires KeyAt(s, if v.isDefault then i + 2 else i + 1, c, v.key)
    requires e <= |s| && SpellsPattern(s, c, e, v.value)
    ensures SpellsVariant(s, i, BlankEnd(s, e), v)
  {
    hide KeyAt, SpellsPattern, BlankEnd;
  }

  lemma SpeltSnoc(s: string, i: nat, cuts: seq<nat>, vs: seq<Variant>, j: nat, v: Variant)
    requires SpeltAt(s, i, cuts, vs) && SpellsVariant(s, cuts[|vs|], j, v)
    ensures SpeltAt(s, i, cuts + [j], vs + [v])
  {
    hide SpellsVariant;
    var more, all := cuts + [j], vs + [v];
    forall k | 0 <= k < |all|
      ensures SpellsVariant(s, more[k], more[k + 1], all[k])
    {
      if k < |vs| {
        assert all[k] == vs[k] && more[k] == cuts[k] && more[k + 1] == cuts[k + 1];
      }
    }
  }

  lemma DefaultsSnoc(vs: seq<Variant>, v: Variant)
    ensures Defaults(vs + [v]) == Defaults(vs) + if v.isDefault then 1 else 0
  {
    assert (vs + [v])[..|vs|] == vs;
  }

  /** Where no further variant starts the list is complete, or no list at all. */
  lemma ListEnds(s: string, i: nat, cuts: seq<nat>, vs: seq<Variant>, ptr: nat)
    requires SpeltAt(s, i, cuts, vs) && Defaults(vs) <= 1 && !VariantAt(s, cuts[|vs|])
    requires ptr == if CharAt(s, cuts[|vs|], '*') then cuts[|vs|] + 1 else cuts[|vs|]
    requires CharAt(s, cuts[|vs|], '*') ==> Defaults(vs) == 0
    ensures Defaults(vs) == 1 || CharAt(s, cuts[|vs|], '*') ==> SpellsList(s, i, ptr, vs)
    ensures Defaults(vs) == 0 && !CharAt(s, cuts[|vs|], '*') ==> NoList(s, i)
  {
    hide SpellsVariant, Defaults, VariantAt, NoList;
    assert Cuts(cuts, i, cuts[|vs|], |vs|);
    assert SpellsVariants(s, i, cuts[|vs|], vs);
    if Defaults(vs) == 0 && !CharAt(s, cuts[|vs|], '*') {
      MissingDefault(s, i, cuts, vs);
    }
  }

  lemma NoKeyText(s: string, i: nat)
    requires i <= |s|
    requires var a := BlankEnd(s, i);
               if a < |s| && (IsDigit(s[a]) || s[a] == '-') then NoNumber(s, a) else !(a < |s| && IsAlphabetic(s[a]))
    ensures NoKey(s, i)
  {
    hide BlankEnd, KeyText;
    var a := BlankEnd(s, i);
    forall z: nat, key
      ensures !KeyText(s, a, z, key)
    {
      KeyStarts(s, a, z, key);
    }
  }

  lemma KeyStarts(s: string, i: nat, j: nat, key: Key)
    requires if i < |s| && (IsDigit(s[i]) || s[i] == '-') then NoNumber(s, i) else !(i < |s| && IsAlphabetic(s[i]))
    ensures !KeyText(s, i, j, key)
  {
  }

  lemma NoKeyEnd(s: string, i: nat, z: nat, key: Key)
    requires i <= |s| && z <= |s| && KeyText(s, BlankEnd(s, i), z, key) && !CharAt(s, BlankEnd(s, z), ']')
    ensures NoKey(s, i)
  {
    hide BlankEnd, KeyText;
    var a := BlankEnd(s, i);
    forall j: nat, key'
      ensures !KeyAt(s, i, j, key')
    {
      if KeyAt(s, i, j, key') {
        var z': nat :| z' <= |s| && KeyText(s, a, z', key')
            && CharAt(s, BlankEnd(s, z'), ']') && j == BlankEnd(s, z') + 1;
        UniqueKeyText(s, a, z, key, z', key');
      }
    }
  }

  lemma KeySpelt(s: string, i: nat, z: nat, key: Key)
    requires i <= |s| && z <= |s| && KeyText(s, BlankEnd(s, i), z, key) && CharAt(s, BlankEnd(s, z), ']')
    ensures KeyAt(s, i, BlankEnd(s, z) + 1, key)
  {
    hide BlankEnd, KeyText;
  }

  lemma NoNumberBeforeName(s: string, i: nat)
    requires CharAt(s, i, '-') && i + 1 < |s| && IsAlphabetic(s[i + 1])
    ensures NoNumber(s, i)
  {
  }

  lemma NothingRead(s: string, first: nat)
    ensures ArgsRead(s, first, [first], [], [])
  {
  }

  lemma BlankTwice(s: string, i: nat)
    requires i <= |s|
    ensures BlankEnd(s, BlankEnd(s, i)) == BlankEnd(s, i)
  {
  }

  lemma ArgsSnoc(s: string, first: nat, starts: seq<nat>, ends: seq<nat>, args: seq<Inline>, q: nat, x: Inline)
    requires ArgsRead(s, first, starts, ends, args) && q <= |s| && SpellsInline(s, starts[|args|], q, x)
    ensures ArgsRead(s, first, starts + [ArgEnd(s, q)], ends + [q], args + [x])
  {
    hide SpellsInline, ArgEnd;
    var more, all, done := starts + [ArgEnd(s, q)], args + [x], ends + [q];
    forall k | 0 <= k < |all|
      ensures done[k] <= |s| && SpellsInline(s, more[k], done[k], all[k]) && more[k + 1] == ArgEnd(s, done[k])
    {
      if k < |args| {
        assert all[k] == args[k] && more[k] == starts[k] && more[k + 1] == starts[k + 1] && done[k] == ends[k];
      }
    }
  }

  lemma CallSpelt(s: string, i: nat, starts: seq<nat>, ends: seq<nat>, args: seq<Inline>)
    requires CallAt(s, i) && ArgsRead(s, CallStart(s, i), starts, ends, args)
    requires |args| == 2 && CharAt(s, starts[2], ')')
    ensures SpellsInline(s, i, starts[2] + 1, StrEq(args[0], args[1]))
  {
    hide CallAt, CallStart, ArgEnd;
    assert SpellsInline(s, CallStart(s, i), ends[0], args[0]) && SpellsInline(s, ArgEnd(s, ends[0]), ends[1], args[1]);
  }

  // ----- the whole message -----

  /** `parse`: accepts exactly the messages that are patterns of the grammar and yields
      the one pattern each of them is. Where a pattern ends early, it says where.
      In an accepted message every select has at most one default, and all have one
      exactly when no line starts with a `*` that stands alone before a closing brace.
      A message without braces and carriage returns is accepted exactly when its lines
      continue it, and renders, under any arguments, as its line-based dedent. */
  method Parse(message: string) returns (r: Result<Pattern>)
    ensures forall p :: r == Ok(p) <==> SpellsPattern(message + "\n", 0, |message| + 1, p)
    ensures forall j: nat, p :: SpellsPattern(message + "\n", 0, j, p) && j <= |message| ==>
              r == Err(ParseError(j, EndsEarly))
    ensures r.Err? ==> r.error.offset <= |message| + 1
    ensures forall parts :: Reports(message, parts, r)
    ensures r.Ok? ==> DefaultsIn(r.value, 0) && (DefaultsIn(r.value, 1) <==> NoLoneStar(message))
    ensures Plain(message) ==> (r.Ok? <==> Acceptable(message))
    ensures Plain(message) && r.Ok? ==> forall args :: Render(r.value, args) == Rendered(DedentMessage(message), [])
  {
    hide SpellsPattern, NoPattern, DefaultsIn, NoLoneStar, Plain, Acceptable, Render, DedentMessage, Reports, OverAfter,
      FailsAfter, ReadTo, LastSolid, Kept;
    var source := message + "\n";
    var parser := new Parser(source);
    var pattern := parser.GetPattern();
    if pattern.Err? {
      Refused(message);
      ghost var parts :| FailsAfter(source, 0, parts, pattern.error);
      ReportsFailure(message, parts, pattern.error);
      return Err(pattern.error);
    }
    ghost var parts :| OverAfter(source, 0, parts) && parser.ptr == ReadTo(source, 0, parts)
                    && (pattern.value.None? <==> LastSolid(source, Kept(source, parts)) == None);
    if pattern.value.Some? {
      OnlyPattern(source, 0, parser.ptr, pattern.value.value);
    }
    if parser.ptr < |source| {
      if pattern.value.None? {
        Refused(message);
      } else {
        EndsBefore(message, parser.ptr, pattern.value.value);
      }
      ReportsEnd(message, parts, Err(ParseError(parser.ptr, EndsEarly)));
      return Err(ParseError(parser.ptr, EndsEarly));
    }
    if pattern.value.None? {
      Refused(message);
      ReportsEnd(message, parts, Err(ParseError(0, EmptyMessage)));
      return Err(ParseError(0, EmptyMessage));
    }
    Accepted(message, pattern.value.value);
    ReportsEnd(message, parts, Ok(pattern.value.value));
    r := Ok(pattern.value.value);
  }

  /** What the result is when the reading of the message ends behind the parts: where a
      text has a closing brace, there; where a brace opens no placeable, behind that brace;
      where the pattern is over too early, there; and a message of blanks is empty. */
  ghost predicate Reports(message: string, parts: seq<Part>, r: Result<Pattern>) {
    var source := message + "\n";
    && (forall at: nat :: StrayAfter(source, 0, parts, at) ==> r == Err(ParseError(at, UnbalancedBrace)))
    && (BrokenAfter(source, 0, parts) ==> r.Err? && ReadTo(source, 0, parts) < r.error.offset)
    && (OverAfter(source, 0, parts) ==>
          if ReadTo(source, 0, parts) <= |message| then r == Err(ParseError(ReadTo(source, 0, parts), EndsEarly))
          else if LastSolid(source, Kept(source, parts)) == None then r == Err(ParseError(0, EmptyMessage))
          else r.Ok?)
  }

  /** There is only one reading, so a result that is right for it is right. */
  lemma OneReading(message: string, parts: seq<Part>, r: Result<Pattern>)
    requires FinalAfter(message + "\n", 0, parts) && Reports(message, parts, r)
    ensures forall parts' :: Reports(message, parts', r)
  {
    hide OverAfter, BrokenAfter, StrayAfter, LastSolid, Kept;
    var source := message + "\n";
    forall parts'
      ensures Reports(message, parts', r)
    {
      if FinalAfter(source, 0, parts') {
        ReadingsAgree(source, 0, parts, parts');
      }
    }
  }

  lemma ReportsFailure(message: string, parts: seq<Part>, error: ParseError)
    requires FailsAfter(message + "\n", 0, parts, error)
    ensures forall parts' :: Reports(message, parts', Err(error))
  {
    hide ReadFrom, TextStop, LineContinues, SpacesEnd, NoPlaceable, LastSolid, Kept;
    OneReading(message, parts, Err(error));
  }

  lemma ReportsEnd(message: string, parts: seq<Part>, r: Result<Pattern>)
    requires OverAfter(message + "\n", 0, parts) && EndsSo(message, parts, r)
    ensures forall parts' :: Reports(message, parts', r)
  {
    hide Reports, OverAfter, EndsSo;
    OnlyEnds(message, parts, r);
    OneReading(message, parts, r);
  }

  ghost predicate EndsSo(message: string, parts: seq<Part>, r: Result<Pattern>) {
    var source := message + "\n";
    if ReadTo(source, 0, parts) <= |message| then r == Err(ParseError(ReadTo(source, 0, parts), EndsEarly))
    else if LastSolid(source, Kept(source, parts)) == None then r == Err(ParseError(0, EmptyMessage))
    else r.Ok?
  }

  lemma OnlyEnds(message: string, parts: seq<Part>, r: Result<Pattern>)
    requires OverAfter(message + "\n", 0, parts) && EndsSo(message, parts, r)
    ensures Reports(message, parts, r)
  {
    hide ReadFrom, TextStop, SpacesEnd, NoPlaceable, LastSolid, Kept;
  }

  lemma OnlyPattern(s: string, i: nat, j: nat, p: Pattern)
    requires SpellsPattern(s, i, j, p)
    ensures forall j': nat, p' :: SpellsPattern(s, i, j', p') ==> j' == j && p' == p
  {
    hide SpellsPattern;
    forall j': nat, p' | SpellsPattern(s, i, j', p')
      ensures j' == j && p' == p
    {
      UniquePattern(s, i, j, p, j', p');
    }
  }

  lemma Refused(message: string)
    requires NoPattern(message + "\n", 0)
    ensures forall j: nat, p :: !SpellsPattern(message + "\n", 0, j, p)
    ensures Plain(message) ==> !Acceptable(message)
  {
    hide SpellsPattern, Plain, Acceptable;
    if Plain(message) && Acceptable(message) {
      var p := AcceptedPattern(message);
    }
  }

  lemma EndsBefore(message: string, j: nat, p: Pattern)
    requires SpellsPattern(message + "\n", 0, j, p) && j <= |message|
    ensures Plain(message) ==> !Acceptable(message)
  {
    hide SpellsPattern, Plain, Acceptable;
    if Plain(message) && Acceptable(message) {
      var p' := AcceptedPattern(message);
      UniquePattern(message + "\n", 0, j, p, |message| + 1, p');
    }
  }

  lemma Accepted(message: string, p: Pattern)
    requires SpellsPattern(message + "\n", 0, |message| + 1, p)
    ensures DefaultsIn(p, 0) && (DefaultsIn(p, 1) <==> NoLoneStar(message))
    ensures Plain(message) ==>
              Acceptable(message) && forall args :: Render(p, args) == Rendered(DedentMessage(message), [])
  {
    hide SpellsPattern, DefaultsIn, NoLoneStar, Plain, Acceptable, Render, DedentMessage, Clear;
    var source := message + "\n";
    DefaultsOfPattern(source, 0, |source|, p);
    ClearIsNoLoneStar(source);
    StarsAgree(message);
    if Plain(message) {
      PlainPattern(message, p);
    }
  }
}
