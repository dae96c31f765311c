/** What `get_pattern` collects, and that it collects the pattern of the grammar
    (frontend_diag_template/src/lib.rs:188-224, 378-481). */
module TemplateCollect {
  import opened Options
  import opened Template
  import opened TemplateLines
  import opened TemplateGrammar
  import opened TemplateUnique
  import opened TemplateAbsent

  /** What an error message says. */
  datatype Reason =
    | EndsEarly | EmptyMessage
    | Expected(c: char) | ExpectedIdentifier | ExpectedDigit | ExpectedExpression
    | FractionalNumber | NumberTooLarge
    | UnbalancedBrace | ArrowNeedsNewline
    | SecondDefault | NoDefault | VariantWithoutValue
    | TermReference | MessageReference | UnknownFunction(name: string) | WrongArgumentCount
    | InvalidUnicodeEscape | UnknownEscape | UnterminatedLiteral

  datatype ParseError = ParseError(offset: nat, reason: Reason)

  datatype Result<+T> = Ok(value: T) | Err(error: ParseError)

  datatype Position = InitialLineStart | LineStart | Continuation

  datatype Termination = LineFeed | Crlf | PlaceableStart | Eof

  /** A piece of a pattern before the dedent: text is a range of the source. */
  datatype Placeholder =
    | Expr(expression: Expression)
    | Range(start: nat, end: nat, indent: nat, lineStart: bool)

  datatype Slice = Slice(end: nat, blank: bool, termination: Termination)

  /** One run of text, with its indentation when it starts a line. */
  datatype Piece = Stop | Failed(error: ParseError)
      | Found(end: nat, indent: nat, blank: bool, empty: bool, termination: Termination)

  /** A text lies in the source, and its indentation in it. */
  predicate RangeOk(src: string, ph: Placeholder) {
    ph.Range? ==> ph.start <= ph.end <= |src| && ph.indent <= ph.end - ph.start
  }

  /** What `get_pattern` has collected: the elements, the last one that is not blank,
      the common indentation so far, and where the next element stands. */
  datatype Collected = Collected(elements: seq<Placeholder>, last: Option<nat>, common: Option<nat>, role: Position) {
    /** A placeable; at the start of a line it takes the indentation to zero. */
    function WithHole(e: Expression): Collected {
      Collected(elements + [Expr(e)], Some(|elements|), if role == LineStart then Some(0) else common, Continuation)
    }

    /** A text; a blank one does not count for the indentation. */
    function WithText(start: nat, piece: Piece): Collected
      requires piece.Found?
    {
      var indented := role == LineStart && !piece.empty && !piece.blank;
      var kept := !piece.empty && (role != LineStart || !piece.blank || piece.termination == LineFeed);
      Collected(
        if kept then elements + [Range(start, piece.end, piece.indent, role == LineStart)] else elements,
        if kept && !piece.blank then Some(|elements|) else last,
        if !indented then common
        else Some(if common.Some? && common.value < piece.indent then common.value else piece.indent),
        if piece.termination == LineFeed || piece.termination == Crlf then LineStart else Continuation)
    }
  }

  function FinishText(src: string, ph: Placeholder, common: Option<nat>, isLast: bool): string
    requires ph.Range? && RangeOk(src, ph)
  {
    var start := if ph.lineStart then ph.start + Cut(ph.indent, common) else ph.start;
    var value := src[start..ph.end];
    if isLast then TrimEnd(value) else value
  }

  /** The end of `get_pattern`: dedent, trim the last non-blank element, drop the rest. */
  function Finish(src: string, elements: seq<Placeholder>, last: nat, common: Option<nat>): (r: seq<Element>)
    requires last < |elements|
    requires forall i :: 0 <= i < |elements| ==> RangeOk(src, elements[i])
    ensures |r| == last + 1
    ensures forall i :: 0 <= i <= last ==>
      r[i] == if elements[i].Expr? then Placeable(elements[i].expression)
          else Text(FinishText(src, elements[i], common, i == last))
  {
    seq(last + 1, i requires 0 <= i <= last =>
      if elements[i].Expr? then Placeable(elements[i].expression)
          else Text(FinishText(src, elements[i], common, i == last)))
  }

  // ----- what was collected and the parts of the grammar -----

  /** The placeholder of a part. */
  ghost function Holder(s: string, part: Part): Placeholder {
    match part
    case Hole(_, _, _, e) => Expr(e)
    case Run(from, end, _, lineStart) =>
        Range(from, end, if from <= Mid(s, part) then Mid(s, part) - from else 0, lineStart)
  }

  /** What was collected is what the parts say. */
  ghost predicate CollectedFrom(s: string, parts: seq<Part>, c: Collected) {
    && |c.elements| == |Kept(s, parts)|
    && (forall k :: 0 <= k < |c.elements| ==>
          c.elements[k] == Holder(s, Kept(s, parts)[k]) && RangeOk(s, c.elements[k]))
    && c.common == CommonIndent(s, parts) && c.last == LastSolid(s, Kept(s, parts))
  }

  /** Every placeable among the parts is spelled. */
  ghost predicate PlaceablesSpelt(s: string, parts: seq<Part>) {
    forall k :: 0 <= k < |parts| && parts[k].Hole? ==>
        SpellsPlaceable(s, parts[k].from + 1, parts[k].to, parts[k].expression)
  }

  /** From `i` to `ptr` the parts were read and collected. */
  ghost predicate Gathered(s: string, i: nat, ptr: nat, parts: seq<Part>, c: Collected) {
    && i <= |s| && Chained(s, OpenEnd(s, i), OpensLine(s, i), parts) && PlaceablesSpelt(s, parts)
    && ptr == PartsEnd(OpenEnd(s, i), parts) && (c.role == LineStart <==> AtLine(s, OpensLine(s, i), parts))
    && CollectedFrom(s, parts, c)
  }

  lemma GatheredNothing(s: string, i: nat, role: Position)
    requires i <= |s| && (role == LineStart <==> OpensLine(s, i))
    ensures Gathered(s, i, OpenEnd(s, i), [], Collected([], None, None, role))
  {
    hide OpenEnd, OpensLine;
  }

  lemma ChainedSnoc(s: string, start: nat, ls: bool, parts: seq<Part>, part: Part)
    requires Chained(s, start, ls, parts) && PartAt(s, part, PartsEnd(start, parts), AtLine(s, ls, parts))
    ensures Chained(s, start, ls, parts + [part])
  {
    hide PartAt, EndsLine;
    assert (parts + [part])[..|parts|] == parts;
  }

  lemma CollectedSnoc(s: string, parts: seq<Part>, c: Collected, part: Part, d: Collected)
    requires CollectedFrom(s, parts, c) && RangeOk(s, Holder(s, part))
    requires d.elements == c.elements + if KeptPart(s, part) then [Holder(s, part)] else []
    requires d.last == if KeptPart(s, part) && Solid(s, part) then Some(|c.elements|) else c.last
    requires d.common == match (c.common, Limit(s, part))
                         case (x, None) => x
                         case (None, l) => l
                         case (Some(x), Some(l)) => Some(if x < l then x else l)
    ensures CollectedFrom(s, parts + [part], d)
  {
    hide KeptPart, Solid, Limit, Mid;
    var more := parts + [part];
    assert more[..|parts|] == parts;
    var kept := Kept(s, parts);
    if KeptPart(s, part) {
      assert (kept + [part])[..|kept|] == kept;
    } else {
      assert kept + [] == kept;
    }
  }

  lemma GatheredHole(s: string, i: nat, ptr: nat, parts: seq<Part>, c: Collected, to: nat, e: Expression)
    returns (part: Part)
    requires Gathered(s, i, ptr, parts, c) && CharAt(s, ptr, '{')
    requires ptr < to <= |s| && SpellsPlaceable(s, ptr + 1, to, e)
    ensures Gathered(s, i, to, parts + [part], c.WithHole(e))
  {
    hide OpenEnd, OpensLine, SpellsPlaceable, EndsLine, Chained;
    part := Hole(ptr, to, c.role == LineStart, e);
    ChainedSnoc(s, OpenEnd(s, i), OpensLine(s, i), parts, part);
    CollectedSnoc(s, parts, c, part, c.WithHole(e));
    assert !EndsLine(s, part) by {
      HoleEndsNoLine(s, part);
    }
  }

  lemma HoleEndsNoLine(s: string, part: Part)
    requires part.Hole?
    ensures !EndsLine(s, part)
  {
  }

  /** A piece of text is a run of the grammar. */
  ghost predicate PieceIs(s: string, piece: Piece, part: Part) {
    && piece.Found? && part.Run? && RunAt(s, part) && part.end == piece.end
    && part.from + piece.indent == Mid(s, part) && (piece.empty <==> Mid(s, part) == piece.end)
    && (piece.blank <==> !Solid(s, part))
    && (piece.termination == LineFeed <==> part.end == part.to && CharAt(s, part.end - 1, '\n'))
    && (piece.termination == LineFeed || piece.termination == Crlf <==> EndsLine(s, part))
  }

  lemma RunInside(s: string, part: Part)
    requires part.Run? && RunAt(s, part)
    ensures part.from <= Mid(s, part) <= part.end <= part.to <= |s| && part.from < part.to
  {
    hide LineContinues;
  }

  lemma GatheredText(s: string, i: nat, ptr: nat, parts: seq<Part>, c: Collected, piece: Piece, part: Part)
    requires Gathered(s, i, ptr, parts, c) && PieceIs(s, piece, part)
    requires part.from == ptr && part.lineStart == (c.role == LineStart)
    ensures Gathered(s, i, part.to, parts + [part], c.WithText(ptr, piece))
  {
    hide OpenEnd, OpensLine, SpellsPlaceable, EndsLine, Chained, RunAt, Mid, Solid;
    RunInside(s, part);
    ChainedSnoc(s, OpenEnd(s, i), OpensLine(s, i), parts, part);
    CollectedSnoc(s, parts, c, part, c.WithText(ptr, piece));
  }

  // ----- the end of a pattern -----

  lemma {:induction false} KeptHas(s: string, parts: seq<Part>, k: nat) returns (m: nat)
    requires k < |parts| && KeptPart(s, parts[k])
    ensures m < |Kept(s, parts)| && Kept(s, parts)[m] == parts[k]
    decreases |parts|
  {
    hide KeptPart;
    var n := |parts| - 1;
    if k == n {
      m := |Kept(s, parts)| - 1;
    } else {
      m := KeptHas(s, parts[..n], k);
    }
  }

  lemma {:induction false} LastSolidIsLast(s: string, parts: seq<Part>, m: nat)
    requires m < |parts| && Solid(s, parts[m])
    ensures LastSolid(s, parts).Some? && m <= LastSolid(s, parts).value
    decreases |parts|
  {
    hide Solid;
    if !Solid(s, parts[|parts| - 1]) {
      LastSolidIsLast(s, parts[..|parts| - 1], m);
    }
  }

  /** The finished pattern. */
  function Finished(src: string, c: Collected): Pattern
    requires c.last.Some? && c.last.value < |c.elements|
    requires forall i :: 0 <= i < |c.elements| ==> RangeOk(src, c.elements[i])
  {
    Pattern(Finish(src, c.elements, c.last.value, c.common))
  }

  lemma FinishedParts(s: string, parts: seq<Part>, c: Collected)
    requires CollectedFrom(s, parts, c) && c.last.Some?
    ensures c.last.value < |c.elements| && forall i :: 0 <= i < |c.elements| ==> RangeOk(s, c.elements[i])
    ensures LaidOut(s, parts, Finished(s, c).elements)
  {
    hide CommonIndent, Kept, LastSolid;
    var kept := Kept(s, parts);
    var es := Finished(s, c).elements;
    forall m | 0 <= m < |es|
      ensures es[m] == LaidPart(s, kept[m], CommonIndent(s, parts), m == c.last.value)
    {
      FinishedPart(s, kept[m], c.common, m == c.last.value, c.elements[m]);
    }
  }

  lemma FinishedPart(s: string, part: Part, common: Option<nat>, isLast: bool, ph: Placeholder)
    requires ph == Holder(s, part) && RangeOk(s, ph)
    ensures LaidPart(s, part, common, isLast) == if ph.Expr? then Placeable(ph.expression)
              else Text(FinishText(s, ph, common, isLast))
  {
    hide Mid, TrimEnd;
  }

  /** What was collected up to the end of the pattern is the pattern. */
  lemma GatheredPattern(s: string, i: nat, ptr: nat, parts: seq<Part>, c: Collected)
    requires Gathered(s, i, ptr, parts, c) && Ends(s, ptr, c.role == LineStart) && c.last.Some?
    ensures c.last.value < |c.elements| && forall k :: 0 <= k < |c.elements| ==> RangeOk(s, c.elements[k])
    ensures SpellsPattern(s, i, ptr, Finished(s, c))
  {
    hide OpenEnd, OpensLine, AtLine, Chained, Ends, CommonIndent, Finished, SpellsPlaceable, Kept, LaidOut, LastSolid,
      Solid;
    FinishedParts(s, parts, c);
    var p := Finished(s, c);
    assert TiledBy(s, i, ptr, parts);
    forall k | 0 <= k < |parts| && parts[k].Hole?
      ensures HoleSpelt(s, parts[k], p)
    {
      HoleIsElement(s, parts, p, k);
    }
  }

  lemma HoleIsElement(s: string, parts: seq<Part>, p: Pattern, k: nat)
    requires LaidOut(s, parts, p.elements) && k < |parts| && parts[k].Hole? && PlaceablesSpelt(s, parts)
    ensures HoleSpelt(s, parts[k], p)
  {
    hide CommonIndent, SpellsPlaceable, Kept, LastSolid;
    var m := KeptHas(s, parts, k);
    LastSolidIsLast(s, Kept(s, parts), m);
    assert p.elements[m] == Placeable(parts[k].expression);
  }

  // ----- when there is no pattern -----

  /** What was read is the start of every tiling. */
  lemma ReadAgrees(s: string, i: nat, parts: seq<Part>, parts': seq<Part>, p: Pattern, n: nat)
    requires i <= |s| && n <= |parts| && n <= |parts'| && PlaceablesSpelt(s, parts) && HolesSpelt(s, parts', p)
    requires Chained(s, OpenEnd(s, i), OpensLine(s, i), parts) && Chained(s, OpenEnd(s, i), OpensLine(s, i), parts')
    ensures parts[..n] == parts'[..n]
  {
    hide Chained, OpenEnd, OpensLine, SpellsPlaceable;
    forall k | 0 <= k < n && SamePlace(parts[k], parts'[k])
      ensures parts[k] == parts'[k]
    {
      var a, b := parts[k], parts'[k];
      assert HoleSpelt(s, b, p);
      UniquePlaceable(s, a.from + 1, a.to, a.expression, b.to, b.expression);
    }
    PrefixAgrees(s, OpenEnd(s, i), OpensLine(s, i), parts, parts', n);
  }

  /** Every tiling goes on from what was read: with a next part, unless the pattern ends. */
  lemma GoesOn(s: string, i: nat, ptr: nat, parts: seq<Part>, c: Collected, j: nat, parts': seq<Part>, p: Pattern)
    requires Gathered(s, i, ptr, parts, c) && TiledBy(s, i, j, parts') && HolesSpelt(s, parts', p)
    ensures parts == parts' || (|parts| < |parts'| && parts == parts'[..|parts|]
              && PartAt(s, parts'[|parts|], ptr, c.role == LineStart))
    ensures parts == parts' ==> j == ptr && Ends(s, ptr, c.role == LineStart)
  {
    hide Chained, PartAt, OpenEnd, OpensLine, AtLine, CollectedFrom, PlaceablesSpelt, HolesSpelt, Ends;
    var n := if |parts| < |parts'| then |parts| else |parts'|;
    ReadAgrees(s, i, parts, parts', p, n);
    assert parts[..|parts|] == parts && parts'[..|parts'|] == parts';
    if n < |parts| {
      ChainedPrefix(s, OpenEnd(s, i), OpensLine(s, i), parts, n);
      NoPartAtEnd(s, parts[n], j, AtLine(s, OpensLine(s, i), parts'));
      assert false;
    }
    if n < |parts'| {
      ChainedPrefix(s, OpenEnd(s, i), OpensLine(s, i), parts', n);
    }
  }

  /** A placeable that is none spoils the pattern. */
  lemma NoPatternHere(s: string, i: nat, ptr: nat, parts: seq<Part>, c: Collected)
    requires Gathered(s, i, ptr, parts, c) && !Ends(s, ptr, c.role == LineStart)
    requires CharAt(s, ptr, '{') ==> NoPlaceable(s, ptr + 1)
    requires forall part: Part :: part.Run? && part.from == ptr && part.lineStart == (c.role == LineStart) ==>
               !RunAt(s, part)
    ensures NoPattern(s, i)
  {
    hide Gathered, Ends, SpellsPlaceable, TiledBy, LaidOut, RunAt;
    forall j: nat, p
      ensures !SpellsPattern(s, i, j, p)
    {
      if SpellsPattern(s, i, j, p) {
        var parts': seq<Part> :| TiledBy(s, i, j, parts') && LaidOut(s, parts', p.elements)
          && forall k :: 0 <= k < |parts'| && parts'[k].Hole? ==> HoleSpelt(s, parts'[k], p);
        GoesOn(s, i, ptr, parts, c, j, parts', p);
        NoNextPart(s, parts'[|parts|], ptr, c.role == LineStart, p);
      }
    }
  }

  lemma NoNextPart(s: string, part: Part, from: nat, ls: bool, p: Pattern)
    requires CharAt(s, from, '{') ==> NoPlaceable(s, from + 1)
    requires part.Run? && part.from == from && part.lineStart == ls ==> !RunAt(s, part)
    ensures PartAt(s, part, from, ls) ==> part.Hole? && !HoleSpelt(s, part, p)
  {
    hide RunAt, SpellsPlaceable;
  }

  /** A pattern of blank text only is none. */
  lemma NoPatternBlank(s: string, i: nat, ptr: nat, parts: seq<Part>, c: Collected)
    requires Gathered(s, i, ptr, parts, c) && Ends(s, ptr, c.role == LineStart) && c.last == None
    ensures NoPattern(s, i)
  {
    hide Ends, SpellsPlaceable, TiledBy, Chained, CommonIndent, Kept, LastSolid, OpenEnd, OpensLine, AtLine, HoleSpelt;
    forall j: nat, p
      ensures !SpellsPattern(s, i, j, p)
    {
      if SpellsPattern(s, i, j, p) {
        var parts': seq<Part> :| TiledBy(s, i, j, parts') && LaidOut(s, parts', p.elements)
          && forall k :: 0 <= k < |parts'| && parts'[k].Hole? ==> HoleSpelt(s, parts'[k], p);
        GoesOn(s, i, ptr, parts, c, j, parts', p);
        if parts' != parts {
          NoPartAtEnd(s, parts'[|parts|], ptr, c.role == LineStart);
        }
      }
    }
  }

  // ----- how a reading ends -----

  /** The parts were read from the opening at `i`. */
  ghost predicate ReadFrom(s: string, i: nat, parts: seq<Part>) {
    i <= |s| && Chained(s, OpenEnd(s, i), OpensLine(s, i), parts) && PlaceablesSpelt(s, parts)
  }

  ghost function ReadTo(s: string, i: nat, parts: seq<Part>): nat
    requires i <= |s|
  {
    PartsEnd(OpenEnd(s, i), parts)
  }

  ghost predicate ReadToLine(s: string, i: nat, parts: seq<Part>)
    requires i <= |s|
  {
    AtLine(s, OpensLine(s, i), parts)
  }

  /** Behind the parts the pattern is over. */
  ghost predicate OverAfter(s: string, i: nat, parts: seq<Part>) {
    ReadFrom(s, i, parts) && Ends(s, ReadTo(s, i, parts), ReadToLine(s, i, parts))
  }

  /** Behind the parts a text comes upon a closing brace. */
  ghost predicate StrayAfter(s: string, i: nat, parts: seq<Part>, at: nat) {
    && ReadFrom(s, i, parts)
    && StrayFrom(s, ReadTo(s, i, parts), ReadToLine(s, i, parts), at)
  }

  ghost predicate StrayFrom(s: string, from: nat, ls: bool, at: nat) {
    && from < |s| && s[from] != '{' && (ls ==> LineContinues(s, from))
    && at == TextStop(s, if ls then SpacesEnd(s, from) else from) && CharAt(s, at, '}')
  }

  /** Behind the parts a brace opens no placeable. */
  ghost predicate BrokenAfter(s: string, i: nat, parts: seq<Part>) {
    ReadFrom(s, i, parts) && CharAt(s, ReadTo(s, i, parts), '{') && NoPlaceable(s, ReadTo(s, i, parts) + 1)
  }

  ghost predicate FinalAfter(s: string, i: nat, parts: seq<Part>) {
    OverAfter(s, i, parts) || BrokenAfter(s, i, parts) || exists at: nat :: StrayAfter(s, i, parts, at)
  }

  /** A reading goes on or ends in one way only. */
  lemma ReadingsAgree(s: string, i: nat, parts: seq<Part>, parts': seq<Part>)
    requires FinalAfter(s, i, parts) && FinalAfter(s, i, parts')
    ensures parts == parts'
  {
    hide OverAfter, BrokenAfter, StrayAfter, Chained, OpenEnd, OpensLine, SpellsPlaceable;
    FinalIsRead(s, i, parts);
    FinalIsRead(s, i, parts');
    var n := if |parts| < |parts'| then |parts| else |parts'|;
    forall k | 0 <= k < n && SamePlace(parts[k], parts'[k])
      ensures parts[k] == parts'[k]
    {
      UniquePlaceable(s, parts[k].from + 1, parts[k].to, parts[k].expression, parts'[k].to, parts'[k].expression);
    }
    PrefixAgrees(s, OpenEnd(s, i), OpensLine(s, i), parts, parts', n);
    assert parts[..|parts|] == parts && parts'[..|parts'|] == parts';
    if n < |parts'| {
      NothingFollows(s, i, parts, parts');
    }
    if n < |parts| {
      NothingFollows(s, i, parts', parts);
    }
  }

  lemma FinalIsRead(s: string, i: nat, parts: seq<Part>)
    requires FinalAfter(s, i, parts)
    ensures ReadFrom(s, i, parts)
  {
  }

  lemma NothingFollows(s: string, i: nat, parts: seq<Part>, more: seq<Part>)
    requires ReadFrom(s, i, more) && |parts| < |more| && more[..|parts|] == parts
    ensures !FinalAfter(s, i, parts)
  {
    hide Chained, OpenEnd, OpensLine, SpellsPlaceable, RunAt, AtLine, Ends, StrayFrom;
    var n := |parts|;
    ChainedPrefix(s, OpenEnd(s, i), OpensLine(s, i), more, n);
    var from, ls := ReadTo(s, i, parts), ReadToLine(s, i, parts);
    if OverAfter(s, i, parts) {
      NoPartAtEnd(s, more[n], from, ls);
    }
    if CharAt(s, from, '{') {
      RunIsNoHole(s, more[n], from, ls);
    }
    forall at: nat
      ensures !StrayAfter(s, i, parts, at)
    {
      if StrayFrom(s, from, ls, at) {
        NoPartAtStray(s, more[n], from, ls, at);
      }
    }
  }

  lemma NoPartAtStray(s: string, part: Part, from: nat, ls: bool, at: nat)
    requires StrayFrom(s, from, ls, at)
    ensures !PartAt(s, part, from, ls)
  {
    hide TextStop, LineContinues, SpacesEnd;
  }
}
