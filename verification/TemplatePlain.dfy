/** Messages without placeables: the grammar is the line-based dedent. */
module TemplatePlain {
  import opened Options
  import opened Template
  import opened TemplateLines
  import opened TemplateGrammar
  import opened TemplateCollect

  /** A text without braces and carriage returns that ends with a line feed. */
  ghost predicate PlainText(s: string) {
    s != "" && s[|s| - 1] == '\n' && Plain(s)
  }

  lemma {:induction false} NextLine(src: string, ptr: nat)
    requires ptr < |src| && src[|src| - 1] == '\n'
    ensures LineEnd(src, ptr) < |src|
    ensures LinesFrom(src, ptr) == [src[ptr..LineEnd(src, ptr)]] + LinesFrom(src, LineEnd(src, ptr) + 1)
  {
  }

  /** The lines hold no line feed, and no character the text does not hold. */
  lemma {:induction false} LinesHold(s: string, p: nat, c: char)
    requires p <= |s| && (c == '\n' || forall i :: p <= i < |s| ==> s[i] != c)
    ensures forall i :: 0 <= i < |LinesFrom(s, p)| ==> c !in LinesFrom(s, p)[i]
    decreases |s| - p
  {
    if p < |s| {
      var n := LineEnd(s, p);
      if n < |s| {
        LinesHold(s, n + 1, c);
      }
    }
  }

  /** The text of a pattern without placeables. */
  function Texts(es: seq<Element>): string {
    if es == [] then "" else Texts(es[..|es| - 1]) + if es[|es| - 1].Text? then es[|es| - 1].text else ""
  }

  lemma {:induction false} RenderTexts(es: seq<Element>, args: Args)
    requires forall i :: 0 <= i < |es| ==> es[i].Text?
    ensures RenderElements(es, args) == Rendered(Texts(es), [])
  {
    if es != [] {
      var n := |es| - 1;
      RenderTexts(es[..n], args);
      RenderAppend(es[..n], es[n], args);
      assert es == es[..n] + [es[n]];
    }
  }

  lemma {:induction false} RenderAppend(es: seq<Element>, e: Element, args: Args)
    ensures RenderElements(es + [e], args) == RenderElements(es, args).Append(RenderElement(e, args))
  {
    if es == [] {
      assert es + [e] == [e];
      assert RenderElements([e][1..], args) == Just("");
    } else {
      assert (es + [e])[1..] == es[1..] + [e];
      RenderAppend(es[1..], e, args);
      var a, b, c := RenderElement(es[0], args), RenderElements(es[1..], args), RenderElement(e, args);
      assert a.Append(b.Append(c)) == a.Append(b).Append(c);
    }
  }

  /** The body holds no character that the lines do not hold. */
  lemma {:induction false} BodyKeeps(lines: seq<string>, c: char, i: nat)
    requires lines != [] && (forall j :: 0 <= j < |lines| ==> c !in lines[j]) && i < |BodyOf(lines).lines|
    ensures c !in BodyOf(lines).lines[i]
  {
    var first := lines[0][Indent(lines[0])..];
    if first == "" {
      DropKeeps(lines[1..], c, i);
    } else {
      assert c !in first;
    }
  }

  lemma {:induction false} DropKeeps(lines: seq<string>, c: char, i: nat)
    requires (forall j :: 0 <= j < |lines| ==> c !in lines[j]) && i < |DropBlankLines(lines)|
    ensures c !in DropBlankLines(lines)[i]
  {
    if lines != [] && Blank(lines[0]) {
      DropKeeps(lines[1..], c, i);
    }
  }

  lemma {:induction false} BodyOfLines(line: string, rest: seq<string>)
    ensures BodyOf([line] + rest)
         == if Blank(line) then Body(DropBlankLines(rest), false) else Body([line[Indent(line)..]] + rest, true)
  {
    hide DropBlankLines;
    assert ([line] + rest)[1..] == rest;
  }

  // ----- the opening -----

  lemma {:induction false} BlankLinesDropped(s: string, p: nat)
    requires PlainText(s) && p <= |s|
    ensures LinesFrom(s, BlankLinesEnd(s, p)) == DropBlankLines(LinesFrom(s, p))
    decreases |s| - p
  {
    hide LinesFrom, LineEnd, Indent, DropBlankLines, Blank, SpacesEnd;
    var eol := SpacesEnd(s, p);
    if p == |s| {
      NoLinesLeft(s);
    } else if EolEnd(s, eol) > eol {
      var line := s[p..eol];
      assert forall i :: 0 <= i < |line| ==> line[i] == s[p + i];
      BlankIs(line);
      LinesAt(s, p, eol);
      BlankLinesDropped(s, eol + 1);
      FirstDropped(line, LinesFrom(s, eol + 1));
    } else {
      NextLine(s, p);
      var line := s[p..LineEnd(s, p)];
      assert line[eol - p] == s[eol];
      BlankIs(line);
      FirstStays(line, LinesFrom(s, LineEnd(s, p) + 1));
    }
  }

  lemma NoLinesLeft(s: string)
    ensures LinesFrom(s, |s|) == [] && DropBlankLines([]) == []
  {
  }

  lemma FirstDropped(line: string, rest: seq<string>)
    requires Blank(line)
    ensures DropBlankLines([line] + rest) == DropBlankLines(rest)
  {
    assert ([line] + rest)[1..] == rest;
  }

  lemma FirstStays(line: string, rest: seq<string>)
    requires !Blank(line)
    ensures DropBlankLines([line] + rest) == [line] + rest
  {
  }

  /** Behind the opening the lines of the body are ahead. */
  lemma BodyAhead(s: string)
    requires PlainText(s)
    ensures LinesFrom(s, 0) != []
    ensures var b := BodyOf(LinesFrom(s, 0)); b.headed == !OpensLine(s, 0) && LinesFrom(s, OpenEnd(s, 0)) == b.lines
  {
    hide LinesFrom, LineEnd, Indent, DropBlankLines, SpacesEnd, BodyOf, BlankLinesEnd, Blank;
    var n := SpacesEnd(s, 0);
    NextLine(s, 0);
    var e := LineEnd(s, 0);
    var line := s[0..e];
    assert forall i :: 0 <= i < |line| ==> line[i] == s[i];
    BlankIs(line);
    BodyOfLines(line, LinesFrom(s, e + 1));
    if OpensLine(s, 0) {
      assert e == n;
      BlankLinesDropped(s, n + 1);
    } else {
      assert n < e;
      IndentIs(line, n);
      LinesAt(s, n, e);
      assert line[n..] == s[n..e];
      assert line[n] == s[n];
    }
  }

  // ----- a line is a run -----

  ghost function LineRun(s: string, from: nat, ls: bool): Part
    requires from <= |s|
  {
    Run(from, LineEnd(s, from) + 1, LineEnd(s, from) + 1, ls)
  }

  lemma LineStop(s: string, from: nat, mid: nat)
    requires PlainText(s) && from <= mid && from < |s| && mid <= LineEnd(s, from)
    ensures LineEnd(s, from) < |s| && TextStop(s, mid) == LineEnd(s, from)
  {
    hide LinesFrom;
    NextLine(s, from);
    var e, t := LineEnd(s, from), TextStop(s, mid);
    assert t <= e && e <= t;
  }

  lemma SpacesStayInLine(s: string, from: nat)
    requires PlainText(s) && from < |s|
    ensures SpacesEnd(s, from) <= LineEnd(s, from) < |s|
    ensures SpacesEnd(s, from) == from + Indent(s[from..LineEnd(s, from)])
  {
    hide LinesFrom;
    NextLine(s, from);
    var n, e := SpacesEnd(s, from), LineEnd(s, from);
    assert n <= e;
    var line := s[from..e];
    assert forall i :: 0 <= i < |line| ==> line[i] == s[from + i];
    IndentIs(line, n - from);
  }

  /** A line continues the text as a line exactly when it does as a piece of source. */
  lemma ContinuesAgree(s: string, from: nat)
    requires PlainText(s) && from < |s|
    ensures LineEnd(s, from) < |s| && (LineContinues(s, from) <==> Continues(s[from..LineEnd(s, from)]))
  {
    hide LinesFrom, SpacesEnd, LineEnd, Indent;
    SpacesStayInLine(s, from);
    var mid, e := SpacesEnd(s, from), LineEnd(s, from);
    var line := s[from..e];
    if mid < e {
      assert line[mid - from] == s[mid];
    }
  }

  /** In plain text the only part at the start of a line is the line. */
  lemma LineIsRun(s: string, from: nat, ls: bool)
    requires PlainText(s) && from < |s|
    ensures PartAt(s, LineRun(s, from, ls), from, ls) <==> (ls ==> Continues(s[from..LineEnd(s, from)]))
    ensures forall part :: PartAt(s, part, from, ls) ==> part == LineRun(s, from, ls)
  {
    hide LinesFrom, SpacesEnd, LineEnd, Indent, Continues, TextStop, LineContinues;
    SpacesStayInLine(s, from);
    ContinuesAgree(s, from);
    var run := LineRun(s, from, ls);
    LineStop(s, from, Mid(s, run));
    assert LineEnd(s, from) > Mid(s, run) ==> s[LineEnd(s, from) - 1] != '\r';
    forall part | PartAt(s, part, from, ls)
      ensures part == run
    {
      assert s[from] != '{';
      assert Mid(s, part) == Mid(s, run);
    }
  }

  // ----- the lines that are done -----

  ghost predicate IsLine(s: string, b: Body, i: nat, part: Part) {
    && i < |b.lines| && part.Run? && part.end == part.to && part.lineStart == b.Indented(i)
    && part.from <= part.end <= |s| && s[part.from..part.end] == b.lines[i] + "\n"
  }

  ghost predicate LinesDone(s: string, b: Body, parts: seq<Part>) {
    && |parts| <= |b.lines| && AllContinue(b, |parts|)
    && forall i {:trigger parts[i]} :: 0 <= i < |parts| ==> IsLine(s, b, i, parts[i])
  }

  ghost predicate LinesAhead(s: string, b: Body, parts: seq<Part>) {
    && PartsEnd(OpenEnd(s, 0), parts) <= |s| && |parts| <= |b.lines|
    && LinesFrom(s, PartsEnd(OpenEnd(s, 0), parts)) == b.lines[|parts|..]
    && (AtLine(s, OpensLine(s, 0), parts) <==> b.Indented(|parts|))
  }

  /** The line ahead. */
  lemma LineAhead(s: string, b: Body, parts: seq<Part>)
    requires PlainText(s) && LinesAhead(s, b, parts)
    ensures |parts| == |b.lines| <==> PartsEnd(OpenEnd(s, 0), parts) == |s|
    ensures |parts| < |b.lines| ==>
              var from := PartsEnd(OpenEnd(s, 0), parts);
              && from < |s| && LineEnd(s, from) < |s| && b.lines[|parts|] == s[from..LineEnd(s, from)]
              && LinesFrom(s, LineEnd(s, from) + 1) == b.lines[|parts| + 1..]
  {
    hide OpenEnd, OpensLine, AtLine, LineEnd, LinesFrom, DropBlankLines;
    var from, k := PartsEnd(OpenEnd(s, 0), parts), |parts|;
    if from == |s| {
      NoLinesLeft(s);
    } else {
      NextLine(s, from);
      assert b.lines[k..][0] == b.lines[k] && b.lines[k..][1..] == b.lines[k + 1..];
    }
  }

  lemma LineDone(s: string, b: Body, parts: seq<Part>)
    requires PlainText(s) && LinesAhead(s, b, parts) && LinesDone(s, b, parts) && |parts| < |b.lines|
    ensures var from := PartsEnd(OpenEnd(s, 0), parts);
            && from < |s|
            && var run := LineRun(s, from, b.Indented(|parts|));
            && (PartAt(s, run, from, b.Indented(|parts|)) <==> (b.Indented(|parts|) ==> Continues(b.lines[|parts|])))
            && (PartAt(s, run, from, b.Indented(|parts|)) ==>
                  LinesAhead(s, b, parts + [run]) && LinesDone(s, b, parts + [run]))
            && forall part :: PartAt(s, part, from, b.Indented(|parts|)) ==> part == run
  {
    hide OpenEnd, OpensLine, LineEnd, LinesFrom, PartAt, Continues;
    LineAhead(s, b, parts);
    var from, k := PartsEnd(OpenEnd(s, 0), parts), |parts|;
    LineIsRun(s, from, b.Indented(k));
    var run := LineRun(s, from, b.Indented(k));
    var e := LineEnd(s, from);
    assert s[from..e + 1] == s[from..e] + "\n" by {
      EndsInLineFeed(s, from);
    }
    var more := parts + [run];
    forall i | 0 <= i < |more|
      ensures IsLine(s, b, i, more[i])
    {
      if i < k {
        assert more[i] == parts[i];
      }
    }
    EndsInLineFeed(s, from);
  }

  lemma EndsInLineFeed(s: string, from: nat)
    requires from <= |s| && LineEnd(s, from) < |s|
    ensures s[LineEnd(s, from)] == '\n'
  {
  }

  lemma NothingDone(s: string)
    requires PlainText(s)
    ensures LinesFrom(s, 0) != [] && LinesDone(s, BodyOf(LinesFrom(s, 0)), [])
    ensures LinesAhead(s, BodyOf(LinesFrom(s, 0)), [])
  {
    hide LinesFrom, BodyOf, OpenEnd, OpensLine;
    BodyAhead(s);
  }

  /** Every tiling of plain text is made of its lines. */
  lemma {:induction false} TilesAreLines(s: string, parts: seq<Part>)
    requires PlainText(s) && Chained(s, OpenEnd(s, 0), OpensLine(s, 0), parts)
    ensures LinesFrom(s, 0) != []
    ensures LinesDone(s, BodyOf(LinesFrom(s, 0)), parts) && LinesAhead(s, BodyOf(LinesFrom(s, 0)), parts)
    decreases |parts|
  {
    hide LinesFrom, BodyOf, OpenEnd, OpensLine, LinesDone, PartAt, AtLine;
    NothingDone(s);
    if parts != [] {
      var b, before, last := BodyOf(LinesFrom(s, 0)), parts[..|parts| - 1], parts[|parts| - 1];
      TilesAreLines(s, before);
      NoPartPastEnd(s, last, PartsEnd(OpenEnd(s, 0), before), AtLine(s, OpensLine(s, 0), before));
      LineAhead(s, b, before);
      LineDone(s, b, before);
      assert parts == before + [last];
    }
  }

  lemma NoPartPastEnd(s: string, part: Part, from: nat, ls: bool)
    requires PartAt(s, part, from, ls)
    ensures from < |s|
  {
    hide TextStop, LineContinues;
  }

  /** The lines of plain text tile it as far as they continue it. */
  lemma {:induction false} LinesTile(s: string, n: nat) returns (parts: seq<Part>)
    requires PlainText(s) && LinesFrom(s, 0) != []
    requires var b := BodyOf(LinesFrom(s, 0)); n <= |b.lines| && AllContinue(b, n)
    ensures |parts| == n && Chained(s, OpenEnd(s, 0), OpensLine(s, 0), parts)
    ensures LinesDone(s, BodyOf(LinesFrom(s, 0)), parts) && LinesAhead(s, BodyOf(LinesFrom(s, 0)), parts)
  {
    hide LinesFrom, BodyOf, OpenEnd, OpensLine, LinesDone, PartAt, Chained, Continues;
    NothingDone(s);
    if n == 0 {
      parts := [];
      NothingChained(s);
    } else {
      var b := BodyOf(LinesFrom(s, 0));
      var before := LinesTile(s, n - 1);
      LineDone(s, b, before);
      var run := LineRun(s, PartsEnd(OpenEnd(s, 0), before), b.Indented(n - 1));
      ChainedSnoc(s, OpenEnd(s, 0), OpensLine(s, 0), before, run);
      parts := before + [run];
    }
  }

  lemma NothingChained(s: string)
    ensures Chained(s, OpenEnd(s, 0), OpensLine(s, 0), [])
  {
  }

  // ----- what the lines come to -----

  lemma LineMid(s: string, b: Body, i: nat, part: Part)
    requires IsLine(s, b, i, part) && '\n' !in b.lines[i]
    ensures Mid(s, part) == part.from + b.IndentOf(i) <= part.from + |b.lines[i]|
  {
    var line := b.lines[i];
    var text := s[part.from..part.end];
    assert forall k :: 0 <= k < |line| ==> line[k] == text[k] == s[part.from + k];
    assert text[|line|] == '\n' && s[part.from + |line|] == text[|line|];
    if part.lineStart {
      IndentIs(line, SpacesEnd(s, part.from) - part.from);
    }
  }

  /** A line is solid when it is not blank, and always kept. */
  lemma LineSolid(s: string, b: Body, i: nat, part: Part)
    requires IsLine(s, b, i, part) && '\n' !in b.lines[i]
    ensures Solid(s, part) <==> !Blank(b.lines[i])
    ensures KeptPart(s, part)
    ensures Limit(s, part) == if b.Indented(i) && !Blank(b.lines[i]) then Some(Indent(b.lines[i])) else None
  {
    hide SpacesEnd, Mid, Blank;
    var line := b.lines[i];
    var text := s[part.from..part.end];
    LineMid(s, b, i, part);
    BlankIs(line);
    assert forall k :: 0 <= k < |line| ==> line[k] == text[k] == s[part.from + k];
    assert text[|line|] == '\n' && s[part.from + |line|] == text[|line|];
    if !Blank(line) {
      var k :| 0 <= k < |line| && line[k] != ' ';
      assert line[k] in line && s[part.from + k] == line[k];
    }
    if k :| Mid(s, part) <= k < part.end && s[k] != ' ' && s[k] != '\n' {
      assert line[k - part.from] == s[k];
    }
  }

  lemma LineLaid(s: string, b: Body, i: nat, part: Part, common: Option<nat>, isLast: bool)
    requires IsLine(s, b, i, part) && '\n' !in b.lines[i]
    ensures LaidPart(s, part, common, isLast)
              == Text(if isLast then TrimEnd(Dedented(b, common, i)) else Dedented(b, common, i))
  {
    hide SpacesEnd, Mid, Indent, TrimEnd;
    LineMid(s, b, i, part);
    var cut := Cut(b.IndentOf(i), common);
    assert s[part.from + cut..part.end] == s[part.from..part.end][cut..];
    assert (b.lines[i] + "\n")[cut..] == b.lines[i][cut..] + "\n";
  }

  ghost predicate NoLineFeed(b: Body) {
    forall i :: 0 <= i < |b.lines| ==> '\n' !in b.lines[i]
  }

  /** The collected facts about the first lines are those of the line-based rule. */
  lemma {:induction false} LinesCollected(s: string, b: Body, parts: seq<Part>)
    requires LinesDone(s, b, parts) && NoLineFeed(b)
    ensures Kept(s, parts) == parts
    ensures CommonIndent(s, parts) == Common(b, |parts|)
    ensures LastSolid(s, parts) == LastNonBlank(b, |parts|)
    decreases |parts|
  {
    hide KeptPart, Solid, Limit, Blank, Continues, IsLine;
    if parts != [] {
      var n := |parts| - 1;
      var before := parts[..n];
      assert forall i {:trigger before[i]} :: 0 <= i < n ==> before[i] == parts[i] && IsLine(s, b, i, parts[i]);
      LinesCollected(s, b, before);
      LineSolid(s, b, n, parts[n]);
      assert parts == before + [parts[n]];
    }
  }

  lemma {:induction false} LaidTexts(s: string, b: Body, parts: seq<Part>, es: seq<Element>, common: Option<nat>,
                                     last: nat, k: nat)
    requires LinesDone(s, b, parts) && NoLineFeed(b) && k <= last < |parts| && |es| == last + 1
    requires forall m :: 0 <= m <= last ==> es[m] == LaidPart(s, parts[m], common, m == last)
    ensures Texts(es[..k]) == DedentedText(b, common, k)
  {
    hide Dedented, LaidPart, IsLine, AllContinue;
    if k > 0 {
      LaidTexts(s, b, parts, es, common, last, k - 1);
      assert es[..k][..k - 1] == es[..k - 1] && es[..k][k - 1] == es[k - 1];
      LineLaid(s, b, k - 1, parts[k - 1], common, false);
    }
  }

  /** What all the lines come to. */
  lemma LinesLaid(s: string, b: Body, parts: seq<Part>, es: seq<Element>)
    requires LinesDone(s, b, parts) && NoLineFeed(b) && |parts| == |b.lines| && LaidOut(s, parts, es)
    requires forall i :: 0 <= i < |b.lines| ==> '\r' !in b.lines[i]
    ensures forall i :: 0 <= i < |es| ==> es[i].Text?
    ensures Texts(es) == TrimEnd(DedentedText(b, Common(b, |b.lines|), |b.lines|))
  {
    hide Dedented, LaidPart, IsLine, TrimEnd, DedentedText, Blank, Common, CommonIndent, LastSolid, LastNonBlank,
      AllContinue;
    LinesCollected(s, b, parts);
    var common := Common(b, |b.lines|);
    var last := LastNonBlank(b, |b.lines|).value;
    forall i | 0 <= i < |es|
      ensures es[i].Text?
    {
      LineLaid(s, b, i, parts[i], common, i == last);
    }
    LaidTexts(s, b, parts, es, common, last, last);
    LineLaid(s, b, last, parts[last], common, true);
    TrimBlankLines(b, common, last, |b.lines|);
    TrimLastLine(b, common, last);
    assert es[..|es| - 1] == es[..last];
  }

  // ----- the message -----

  lemma SourcePlain(message: string)
    requires Plain(message)
    ensures PlainText(message + "\n")
  {
  }

  lemma BodyHolds(s: string)
    requires PlainText(s) && LinesFrom(s, 0) != []
    ensures var b := BodyOf(LinesFrom(s, 0)); NoLineFeed(b) && forall i :: 0 <= i < |b.lines| ==> '\r' !in b.lines[i]
  {
    hide LinesFrom, BodyOf;
    var lines := LinesFrom(s, 0);
    LinesHold(s, 0, '\n');
    LinesHold(s, 0, '\r');
    forall i | 0 <= i < |BodyOf(lines).lines|
      ensures '\n' !in BodyOf(lines).lines[i] && '\r' !in BodyOf(lines).lines[i]
    {
      BodyKeeps(lines, '\n', i);
      BodyKeeps(lines, '\r', i);
    }
  }

  /** A plain message that is a pattern is acceptable and renders, whatever the
      arguments, as its line-based dedent. */
  lemma PlainPattern(message: string, p: Pattern)
    requires Plain(message) && SpellsPattern(message + "\n", 0, |message| + 1, p)
    ensures Acceptable(message)
    ensures forall args :: Render(p, args) == Rendered(DedentMessage(message), [])
  {
    hide LinesFrom, BodyOf, OpenEnd, OpensLine, LinesDone, LaidOut, Chained, AllContinue, Common, DedentedText, TrimEnd,
      Blank, RenderElements, Texts;
    var s := message + "\n";
    SourcePlain(message);
    var parts: seq<Part> := PatternParts(s, 0, |s|, p);
    TilesAreLines(s, parts);
    BodyHolds(s);
    var b := BodyOf(LinesFrom(s, 0));
    LineAhead(s, b, parts);
    LinesLaid(s, b, parts, p.elements);
    SomeLine(s, b, parts, p.elements);
    forall args
      ensures Render(p, args) == Rendered(DedentMessage(message), [])
    {
      RenderTexts(p.elements, args);
    }
  }

  lemma PatternParts(s: string, i: nat, j: nat, p: Pattern) returns (parts: seq<Part>)
    requires SpellsPattern(s, i, j, p)
    ensures TiledBy(s, i, j, parts) && LaidOut(s, parts, p.elements)
  {
    hide TiledBy, LaidOut;
    parts :| && TiledBy(s, i, j, parts) && LaidOut(s, parts, p.elements)
             && forall k :: 0 <= k < |parts| && parts[k].Hole? ==> HoleSpelt(s, parts[k], p);
  }

  lemma SomeLine(s: string, b: Body, parts: seq<Part>, es: seq<Element>)
    requires LinesDone(s, b, parts) && NoLineFeed(b) && |parts| == |b.lines| && LaidOut(s, parts, es)
    ensures AllContinue(b, |b.lines|) && exists i :: 0 <= i < |b.lines| && !Blank(b.lines[i])
  {
    hide Blank, Continues, LaidPart, IsLine;
    LinesCollected(s, b, parts);
    assert !Blank(b.lines[LastNonBlank(b, |b.lines|).value]);
  }

  /** An acceptable plain message is a pattern. */
  lemma AcceptedPattern(message: string) returns (p: Pattern)
    requires Plain(message) && Acceptable(message)
    ensures SpellsPattern(message + "\n", 0, |message| + 1, p)
  {
    hide LinesFrom, BodyOf, OpenEnd, OpensLine, LinesDone, Chained, AllContinue, Blank, Kept, Common, CommonIndent,
      LaidPart, AtLine, HoleSpelt;
    var s := message + "\n";
    SourcePlain(message);
    var b := BodyOf(LinesFrom(s, 0));
    var parts := LinesTile(s, |b.lines|);
    BodyHolds(s);
    LineAhead(s, b, parts);
    LinesCollected(s, b, parts);
    NoHoles(s, b, parts);
    var last := LastNonBlank(b, |b.lines|).value;
    var es := seq(last + 1, m requires 0 <= m < last + 1 => LaidPart(s, parts[m], CommonIndent(s, parts), m == last));
    p := Pattern(es);
    assert TiledBy(s, 0, |s|, parts) && LaidOut(s, parts, p.elements);
  }

  lemma NoHoles(s: string, b: Body, parts: seq<Part>)
    requires LinesDone(s, b, parts)
    ensures forall k :: 0 <= k < |parts| ==> parts[k].Run?
  {
  }
}
