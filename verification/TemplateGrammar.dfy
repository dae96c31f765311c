/** The grammar of the template language: which piece of a source is which tree
    (frontend_diag_template/src/lib.rs:267-730). It says nothing of how to find the tree. */
module TemplateGrammar {
  import opened Options
  import opened Template
  import opened TemplateLexis
  import opened TemplateLines

  // ----- characters and layout -----

  predicate CharAt(s: string, i: nat, c: char) {
    i < |s| && s[i] == c
  }

  /** Behind a line break at `i`, or `i` itself. */
  function EolEnd(s: string, i: nat): (n: nat)
    requires i <= |s|
    ensures i <= n <= |s|
  {
    if CharAt(s, i, '\n') then i + 1 else if CharAt(s, i, '\r') && CharAt(s, i + 1, '\n') then i + 2 else i
  }

  /** Behind the spaces and line breaks at `i`. */
  function BlankEnd(s: string, i: nat): (n: nat)
    requires i <= |s|
    ensures i <= n <= |s| && !CharAt(s, n, ' ') && EolEnd(s, n) == n
    decreases |s| - i
  {
    if CharAt(s, i, ' ') then BlankEnd(s, i + 1)
    else if EolEnd(s, i) > i then BlankEnd(s, EolEnd(s, i))
    else i
  }

  /** Behind the blank lines at `i`, which starts a line. */
  function BlankLinesEnd(s: string, i: nat): (n: nat)
    requires i <= |s|
    ensures i <= n <= |s|
    decreases |s| - i
  {
    var eol := SpacesEnd(s, i);
    if EolEnd(s, eol) > eol then BlankLinesEnd(s, EolEnd(s, eol)) else i
  }

  /** A whole identifier. */
  ghost predicate IdentifierAt(s: string, i: nat, j: nat) {
    && i < j <= |s| && IsAlphabetic(s[i])
    && (forall k :: i < k < j ==> IsNameChar(s[k]))
    && (j < |s| ==> !IsNameChar(s[j]))
  }

  /** A whole number: no digit is left over, no fraction follows, and it fits. */
  ghost predicate NumberAt(s: string, i: nat, j: nat, n: int) {
    && i < |s|
    && var digits := if s[i] == '-' then i + 1 else i;
    && digits < j && j == DigitsEnd(s, digits) && !CharAt(s, j, '.')
    && n == NumberFrom(s, digits, s[i] == '-') && I64_MIN <= n <= I64_MAX
  }

  ghost predicate LiteralAt(s: string, i: nat, j: nat, text: string) {
    CharAt(s, i, '"') && 0 < j && CloseQuote(s, i + 1) == Some(j - 1) && text == Unescaped(s[i + 1..j - 1])
  }

  ghost predicate ArrowAt(s: string, i: nat) {
    CharAt(s, i, '-') && CharAt(s, i + 1, '>')
  }

  ghost predicate KeyText(s: string, i: nat, j: nat, key: Key) {
    match key
    case Name(name) => IdentifierAt(s, i, j) && name == s[i..j]
    case NumberKey(n) => NumberAt(s, i, j, n)
  }

  /** A key, the opening bracket already passed. */
  ghost predicate KeyAt(s: string, i: nat, j: nat, key: Key) {
    && i <= |s|
    && exists z: nat :: z <= |s| && KeyText(s, BlankEnd(s, i), z, key)
        && CharAt(s, BlankEnd(s, z), ']') && j == BlankEnd(s, z) + 1
  }

  /** Behind what may follow a call argument: layout, and at most one comma in it. */
  function ArgEnd(s: string, i: nat): (n: nat)
    requires i <= |s|
    ensures i <= n <= |s|
  {
    var m := BlankEnd(s, i);
    if CharAt(s, m, ',') then BlankEnd(s, m + 1) else m
  }

  ghost predicate VariantAt(s: string, i: nat) {
    CharAt(s, i, '[') || (CharAt(s, i, '*') && CharAt(s, i + 1, '['))
  }

  // ----- the parts of a pattern -----

  /** Where a run of text stops: at a line feed, a brace or the end. */
  function TextStop(s: string, p: nat): (n: nat)
    requires p <= |s|
    ensures p <= n <= |s|
    ensures n < |s| ==> s[n] == '\n' || s[n] == '{' || s[n] == '}'
    ensures forall i :: p <= i < n ==> s[i] != '\n' && s[i] != '{' && s[i] != '}'
    decreases |s| - p
  {
    if p == |s| || s[p] == '\n' || s[p] == '{' || s[p] == '}' then p else TextStop(s, p + 1)
  }

  /** A placeable, or a run of text from `from` to `end`; the next part is at `to`.
      `lineStart` says that the part starts a line. */
  datatype Part =
    | Hole(from: nat, to: nat, lineStart: bool, expression: Expression)
    | Run(from: nat, end: nat, to: nat, lineStart: bool)

  /** Whether a line that starts at `i` may continue a pattern: it is indented and does
      not start with a character of the select syntax, or nothing is on it. */
  predicate LineContinues(s: string, i: nat)
    requires i <= |s|
  {
    var mid := SpacesEnd(s, i);
    mid < |s| && if mid == i then s[i] == '\n' || s[i] == '\r' else s[mid] !in {'.', '}', '[', '*'}
  }

  /** Where the text of a part starts, behind the indentation of its line. */
  function Mid(s: string, part: Part): nat {
    if part.lineStart && part.from <= |s| then SpacesEnd(s, part.from) else part.from
  }

  /** A run holds its line feed but not the carriage return before it, and no brace. */
  ghost predicate RunAt(s: string, part: Part)
    requires part.Run?
  {
    && part.from < |s| && s[part.from] != '{'
    && (part.lineStart ==> LineContinues(s, part.from))
    && var mid := Mid(s, part);
       var stop := TextStop(s, mid);
    && stop < |s| && s[stop] != '}'
    && if s[stop] == '{' then part.end == part.to == stop
       else if stop > mid && s[stop - 1] == '\r' then part.end == stop - 1 && part.to == stop
       else part.end == part.to == stop + 1
  }

  predicate EndsLine(s: string, part: Part) {
    part.Run? && (part.end < part.to || (0 < part.to <= |s| && s[part.to - 1] == '\n'))
  }

  ghost predicate PartAt(s: string, part: Part, from: nat, lineStart: bool) {
    && part.from == from && part.lineStart == lineStart
    && match part
       case Hole(_, to, _, _) => CharAt(s, from, '{') && from < to <= |s|
       case Run(_, _, _, _) => RunAt(s, part)
  }

  /** Where the part after the given ones starts. */
  function PartsEnd(start: nat, parts: seq<Part>): nat {
    if parts == [] then start else parts[|parts| - 1].to
  }

  /** Whether it starts a line. */
  predicate AtLine(s: string, lineStart: bool, parts: seq<Part>) {
    if parts == [] then lineStart else EndsLine(s, parts[|parts| - 1])
  }

  /** Part after part without a gap. */
  ghost predicate Chained(s: string, start: nat, lineStart: bool, parts: seq<Part>)
    decreases |parts|
  {
    parts == [] ||
    var before := parts[..|parts| - 1];
    && Chained(s, start, lineStart, before)
    && PartAt(s, parts[|parts| - 1], PartsEnd(start, before), AtLine(s, lineStart, before))
  }

  /** A pattern ends with the source or before a line that does not continue it. */
  ghost predicate Ends(s: string, i: nat, lineStart: bool) {
    i == |s| || (i < |s| && lineStart && s[i] != '{' && !LineContinues(s, i))
  }

  /** A pattern starts behind the spaces of its first line or, when nothing else is on
      it, behind the blank lines after it. */
  function OpenEnd(s: string, i: nat): (n: nat)
    requires i <= |s|
    ensures i <= n <= |s|
  {
    var eol := SpacesEnd(s, i);
    if EolEnd(s, eol) > eol then BlankLinesEnd(s, EolEnd(s, eol)) else eol
  }

  predicate OpensLine(s: string, i: nat)
    requires i <= |s|
  {
    EolEnd(s, SpacesEnd(s, i)) > SpacesEnd(s, i)
  }

  /** The parts cover the source from the opening at `i` up to the end at `j`. */
  ghost predicate TiledBy(s: string, i: nat, j: nat, parts: seq<Part>) {
    && i <= |s| && Chained(s, OpenEnd(s, i), OpensLine(s, i), parts)
    && j == PartsEnd(OpenEnd(s, i), parts) && Ends(s, j, AtLine(s, OpensLine(s, i), parts))
  }

  // ----- the multiline rule -----

  /** Something other than spaces is on it. */
  ghost predicate Solid(s: string, part: Part) {
    part.Hole? || exists k :: Mid(s, part) <= k < part.end && k < |s| && s[k] != ' ' && s[k] != '\n'
  }

  /** A run that is not kept: nothing but the indentation of a placeable, or the spaces of
      a line that ends in a carriage return and a line feed. */
  ghost predicate KeptPart(s: string, part: Part) {
    part.Hole? || (Mid(s, part) < part.end
        && (!part.lineStart || Solid(s, part) || (part.end == part.to && CharAt(s, part.end - 1, '\n'))))
  }

  ghost function Kept(s: string, parts: seq<Part>): seq<Part> {
    if parts == [] then []
    else
      var last := parts[|parts| - 1];
      Kept(s, parts[..|parts| - 1]) + if KeptPart(s, last) then [last] else []
  }

  /** What a part says about the common indentation: a placeable in column zero takes it
      to zero, and a line with text limits it to its own. */
  ghost function Limit(s: string, part: Part): Option<nat> {
    if !part.lineStart then None
    else if part.Hole? then Some(0)
    else if Mid(s, part) < part.end && Solid(s, part) then
      Some(if part.from <= Mid(s, part) then Mid(s, part) - part.from else 0)
    else None
  }

  /** The least of these. */
  ghost function CommonIndent(s: string, parts: seq<Part>): Option<nat> {
    if parts == [] then None
    else
      match (CommonIndent(s, parts[..|parts| - 1]), Limit(s, parts[|parts| - 1]))
      case (c, None) => c
      case (None, l) => l
      case (Some(c), Some(l)) => Some(if c < l then c else l)
  }

  /** The last part that is not blank. */
  ghost function LastSolid(s: string, parts: seq<Part>): (r: Option<nat>)
    ensures r.Some? ==> r.value < |parts|
  {
    if parts == [] then None
    else if Solid(s, parts[|parts| - 1]) then Some(|parts| - 1)
    else LastSolid(s, parts[..|parts| - 1])
  }

  function Between(s: string, i: nat, j: nat): string {
    if i <= j <= |s| then s[i..j] else ""
  }

  /** A run without the common indentation, and trimmed if it is the last. */
  ghost function LaidPart(s: string, part: Part, common: Option<nat>, isLast: bool): Element {
    match part
    case Hole(_, _, _, e) => Placeable(e)
    case Run(from, end, _, _) =>
      var indent := if from <= Mid(s, part) then Mid(s, part) - from else 0;
      var text := Between(s, from + if part.lineStart then Cut(indent, common) else 0, end);
      Text(if isLast then TrimEnd(text) else text)
  }

  /** The kept parts up to the last that is not blank. */
  ghost predicate LaidOut(s: string, parts: seq<Part>, es: seq<Element>) {
    && var kept := Kept(s, parts);
       var last := LastSolid(s, kept);
    && last.Some? && |es| == last.value + 1
    && forall m :: 0 <= m < |es| ==> es[m] == LaidPart(s, kept[m], CommonIndent(s, parts), m == last.value)
  }

  /** The common indentation is the least limit that any part sets. */
  lemma {:induction false} CommonIndentIsLeast(s: string, parts: seq<Part>)
    ensures CommonIndent(s, parts) == None <==> forall k :: 0 <= k < |parts| ==> Limit(s, parts[k]) == None
    ensures CommonIndent(s, parts).Some? ==>
              && (exists k :: 0 <= k < |parts| && Limit(s, parts[k]) == CommonIndent(s, parts))
              && (forall k :: 0 <= k < |parts| && Limit(s, parts[k]).Some? ==>
                    CommonIndent(s, parts).value <= Limit(s, parts[k]).value)
    decreases |parts|
  {
    hide Limit;
    if parts != [] {
      var n := |parts| - 1;
      CommonIndentIsLeast(s, parts[..n]);
      assert forall k :: 0 <= k < n ==> parts[..n][k] == parts[k];
    }
  }

  /** With a placeable in column zero no run loses a space, save the trimmed last one. */
  lemma ColumnZero(s: string, parts: seq<Part>, k: nat, m: nat)
    requires k < |parts| && parts[k].Hole? && parts[k].lineStart && m < |parts| && parts[m].Run?
    ensures CommonIndent(s, parts) == Some(0)
    ensures LaidPart(s, parts[m], CommonIndent(s, parts), false) == Text(Between(s, parts[m].from, parts[m].end))
  {
    CommonIndentIsLeast(s, parts);
    assert Limit(s, parts[k]) == Some(0);
  }

  // ----- the grammar -----

  /** The source from `i` to `j` is the pattern. */
  ghost predicate SpellsPattern(s: string, i: nat, j: nat, p: Pattern)
    decreases p, 1
  {
    exists parts: seq<Part> ::
      && TiledBy(s, i, j, parts) && LaidOut(s, parts, p.elements)
      && forall k :: 0 <= k < |parts| && parts[k].Hole? ==> HoleSpelt(s, parts[k], p)
  }

  ghost predicate HoleSpelt(s: string, part: Part, p: Pattern)
    requires part.Hole?
    decreases p, 0
  {
    exists m :: 0 <= m < |p.elements| && p.elements[m] == Placeable(part.expression)
             && SpellsPlaceable(s, part.from + 1, part.to, p.elements[m].expression)
  }

  /** An expression and the brace that closes it. */
  ghost predicate SpellsPlaceable(s: string, i: nat, j: nat, e: Expression)
    decreases e, 3
  {
    && i <= |s|
    && exists q: nat :: q <= |s| && SpellsExpression(s, BlankEnd(s, i), q, e)
                && var close := if e.Simple? then BlankEnd(s, q) else SpacesEnd(s, q);
                   CharAt(s, close, '}') && j == close + 1
  }

  ghost predicate SpellsExpression(s: string, i: nat, j: nat, e: Expression)
    decreases e, 2
  {
    match e
    case Simple(inline) => j <= |s| && SpellsInline(s, i, j, inline) && !ArrowAt(s, BlankEnd(s, j))
    case Select(selector, variants) =>
      exists q: nat :: q <= |s| && SpellsInline(s, i, q, selector) && ArrowAt(s, BlankEnd(s, q))
               && var eol := SpacesEnd(s, BlankEnd(s, q) + 2);
                  EolEnd(s, eol) > eol && SpellsList(s, BlankEnd(s, EolEnd(s, eol)), j, variants)
  }

  /** The variants of a select: one of them is the default, or a `*` stands alone behind
      them and none is. */
  ghost predicate SpellsList(s: string, i: nat, j: nat, vs: seq<Variant>)
    decreases vs, 2
  {
    exists t: nat :: SpellsVariants(s, i, t, vs) && !VariantAt(s, t)
             && if CharAt(s, t, '*') then j == t + 1 && Defaults(vs) == 0 else j == t && Defaults(vs) == 1
  }

  /** One variant behind the other. */
  ghost predicate SpellsVariants(s: string, i: nat, j: nat, vs: seq<Variant>)
    decreases vs, 1
  {
    exists cuts: seq<nat> :: Cuts(cuts, i, j, |vs|) &&
      forall k {:trigger vs[k]} :: 0 <= k < |vs| ==> SpellsVariant(s, cuts[k], cuts[k + 1], vs[k])
  }

  predicate Cuts(cuts: seq<nat>, i: nat, j: nat, n: nat) {
    |cuts| == n + 1 && cuts[0] == i && cuts[n] == j
  }

  /** The star says that the variant is the default. */
  ghost predicate SpellsVariant(s: string, i: nat, j: nat, v: Variant)
    decreases v, 2
  {
    var bracket := if v.isDefault then i + 1 else i;
    && (v.isDefault ==> CharAt(s, i, '*')) && CharAt(s, bracket, '[')
    && exists c: nat, e: nat :: KeyAt(s, bracket + 1, c, v.key) && e <= |s|
        && SpellsPattern(s, c, e, v.value) && j == BlankEnd(s, e)
  }

  ghost predicate SpellsInline(s: string, i: nat, j: nat, x: Inline)
    decreases x, 1
  {
    match x
    case Variable(name) => CharAt(s, i, '$') && IdentifierAt(s, i + 1, j) && name == s[i + 1..j]
    case Literal(text) => LiteralAt(s, i, j, text)
    case Number(n) => NumberAt(s, i, j, n)
    case StrEq(a, b) =>
      && CallAt(s, i)
      && exists q: nat, u: nat :: && q <= |s| && SpellsInline(s, CallStart(s, i), q, a)
                        && u <= |s| && SpellsInline(s, ArgEnd(s, q), u, b)
                        && CharAt(s, ArgEnd(s, u), ')') && j == ArgEnd(s, u) + 1
    case Nested(e) => CharAt(s, i, '{') && SpellsPlaceable(s, i + 1, j, e)
  }

  /** The name of the only function and its parenthesis. */
  ghost predicate CallAt(s: string, i: nat) {
    IdentifierAt(s, i, i + 5) && s[i..i + 5] == "STREQ" && CharAt(s, BlankEnd(s, i + 5), '(')
  }

  /** Where the first argument of a call starts. */
  ghost function CallStart(s: string, i: nat): nat
    requires CallAt(s, i)
  {
    BlankEnd(s, BlankEnd(s, i + 5) + 1)
  }
}
