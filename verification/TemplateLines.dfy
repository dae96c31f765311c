/** The multiline rule of a message without placeables, line by line: the reference
    for the parser's treatment of indentation. */
module TemplateLines {
  import opened Options

  // ----- lines -----

  /** The position of the first line feed at or after `p`. */
  function LineEnd(s: string, p: nat): (n: nat)
    requires p <= |s|
    ensures p <= n <= |s|
    ensures n < |s| ==> s[n] == '\n'
    ensures forall i :: p <= i < n ==> s[i] != '\n'
    decreases |s| - p
  {
    if p == |s| || s[p] == '\n' then p else LineEnd(s, p + 1)
  }

  /** The lines from `p` on, without their line feeds. */
  function LinesFrom(s: string, p: nat): seq<string>
    requires p <= |s|
    decreases |s| - p
  {
    if p == |s| then []
    else
      var n := LineEnd(s, p);
      [s[p..n]] + if n == |s| then [] else LinesFrom(s, n + 1)
  }

  /** The first line ends at the first line feed. */
  lemma LinesAt(s: string, p: nat, n: nat)
    requires p <= n < |s| && s[n] == '\n' && forall i :: p <= i < n ==> s[i] != '\n'
    ensures LinesFrom(s, p) == [s[p..n]] + LinesFrom(s, n + 1)
  {
    assert LineEnd(s, p) == n;
  }

  /** The position of the first character at or after `p` that is not a space. */
  function SpacesEnd(line: string, p: nat): (n: nat)
    requires p <= |line|
    ensures p <= n <= |line|
    ensures forall i :: p <= i < n ==> line[i] == ' '
    ensures n < |line| ==> line[n] != ' '
    decreases |line| - p
  {
    if p == |line| || line[p] != ' ' then p else SpacesEnd(line, p + 1)
  }

  function Indent(line: string): (n: nat)
    ensures n <= |line|
    ensures forall i :: 0 <= i < n ==> line[i] == ' '
    ensures n < |line| ==> line[n] != ' '
  {
    SpacesEnd(line, 0)
  }

  /** Spaces only. */
  predicate Blank(line: string) {
    Indent(line) == |line|
  }

  lemma IndentIs(line: string, n: nat)
    requires n <= |line| && (forall i :: 0 <= i < n ==> line[i] == ' ') && (n < |line| ==> line[n] != ' ')
    ensures Indent(line) == n
  {
  }

  lemma BlankIs(line: string)
    ensures Blank(line) <==> forall i :: 0 <= i < |line| ==> line[i] == ' '
  {
  }

  /** Leading blank lines are dropped. */
  function DropBlankLines(lines: seq<string>): (r: seq<string>)
    ensures r != [] ==> !Blank(r[0])
  {
    if lines == [] || !Blank(lines[0]) then lines else DropBlankLines(lines[1..])
  }

  /** Whether a line may continue a message. */
  predicate Continues(line: string) {
    Blank(line) || (Indent(line) > 0 && line[Indent(line)] !in {'.', '}', '[', '*'})
  }

  // ----- the message -----

  /** The lines that count: the first one without its leading spaces or, when nothing
      is left of it, what follows the leading blank lines. `headed` says which. */
  datatype Body = Body(lines: seq<string>, headed: bool) {
    /** Line `i` has an indentation of its own. */
    predicate Indented(i: nat) {
      !(headed && i == 0)
    }

    function IndentOf(i: nat): nat
      requires i < |lines|
    {
      if Indented(i) then Indent(lines[i]) else 0
    }
  }

  function BodyOf(lines: seq<string>): Body
    requires lines != []
  {
    var first := lines[0][Indent(lines[0])..];
    if first == "" then Body(DropBlankLines(lines[1..]), false) else Body([first] + lines[1..], true)
  }

  /** Every line may follow the one before it. */
  ghost predicate AllContinue(b: Body, n: nat)
    requires n <= |b.lines|
  {
    forall i :: 0 <= i < n && b.Indented(i) ==> Continues(b.lines[i])
  }

  /** The least indentation of the non-blank indented lines among the first `n`. */
  function Common(b: Body, n: nat): Option<nat>
    requires n <= |b.lines|
  {
    if n == 0 then None
    else if !b.Indented(n - 1) || Blank(b.lines[n - 1]) then Common(b, n - 1)
    else match Common(b, n - 1)
      case None => Some(Indent(b.lines[n - 1]))
      case Some(c) => Some(if c < Indent(b.lines[n - 1]) then c else Indent(b.lines[n - 1]))
  }

  /** It is the least one indeed. */
  lemma {:induction false} CommonIsLeast(b: Body, n: nat)
    requires n <= |b.lines|
    ensures Common(b, n).None? <==> forall i :: 0 <= i < n && b.Indented(i) ==> Blank(b.lines[i])
    ensures Common(b, n).Some? ==>
              forall i :: 0 <= i < n && b.Indented(i) && !Blank(b.lines[i]) ==> Common(b, n).value <= Indent(b.lines[i])
    ensures Common(b, n).Some? ==>
              exists i :: 0 <= i < n && b.Indented(i) && !Blank(b.lines[i]) && Common(b, n).value == Indent(b.lines[i])
  {
    if n > 0 {
      CommonIsLeast(b, n - 1);
    }
  }

  /** How many spaces a line loses. */
  function Cut(indent: nat, common: Option<nat>): (r: nat)
    ensures r <= indent
  {
    match common
    case None => indent
    case Some(c) => if c < indent then c else indent
  }

  /** The index of the last non-blank line among the first `n`. */
  function LastNonBlank(b: Body, n: nat): (r: Option<nat>)
    requires n <= |b.lines|
    ensures r.Some? ==> r.value < n && !Blank(b.lines[r.value])
    ensures forall i :: (if r.Some? then r.value + 1 else 0) <= i < n ==> Blank(b.lines[i])
  {
    if n == 0 then None
    else if !Blank(b.lines[n - 1]) then Some(n - 1)
    else LastNonBlank(b, n - 1)
  }

  /** Line `i` after the dedent, with its line feed. */
  function Dedented(b: Body, common: Option<nat>, i: nat): string
    requires i < |b.lines|
  {
    b.lines[i][Cut(b.IndentOf(i), common)..] + "\n"
  }

  function DedentedText(b: Body, common: Option<nat>, n: nat): string
    requires n <= |b.lines|
  {
    if n == 0 then "" else DedentedText(b, common, n - 1) + Dedented(b, common, n - 1)
  }

  predicate Trimmed(c: char) {
    c == ' ' || c == '\r' || c == '\n'
  }

  function TrimEnd(s: string): string {
    if s == "" || !Trimmed(s[|s| - 1]) then s else TrimEnd(s[..|s| - 1])
  }

  /** The text of a message without placeables. */
  function DedentMessage(message: string): string {
    var b := BodyOf(MessageLines(message));
    TrimEnd(DedentedText(b, Common(b, |b.lines|), |b.lines|))
  }

  function MessageLines(message: string): (r: seq<string>)
    ensures r != []
  {
    LinesFrom(message + "\n", 0)
  }

  /** Such a message is accepted exactly when every later line continues it and some
      line is not blank. */
  ghost predicate Acceptable(message: string) {
    var b := BodyOf(MessageLines(message));
    AllContinue(b, |b.lines|) && exists i :: 0 <= i < |b.lines| && !Blank(b.lines[i])
  }

  ghost predicate Plain(s: string) {
    forall i :: 0 <= i < |s| ==> s[i] != '{' && s[i] != '}' && s[i] != '\r'
  }

  // ----- trimming -----

  lemma {:induction false} TrimBlankTail(a: string, b: string)
    requires forall i :: 0 <= i < |b| ==> Trimmed(b[i])
    ensures TrimEnd(a + b) == TrimEnd(a)
  {
    if b == "" {
      assert a + b == a;
    } else {
      assert (a + b)[..|a + b| - 1] == a + b[..|b| - 1];
      TrimBlankTail(a, b[..|b| - 1]);
    }
  }

  lemma {:induction false} TrimSolidTail(a: string, b: string, k: nat)
    requires k < |b| && !Trimmed(b[k])
    ensures TrimEnd(a + b) == a + TrimEnd(b)
  {
    if Trimmed(b[|b| - 1]) {
      assert (a + b)[..|a + b| - 1] == a + b[..|b| - 1];
      TrimSolidTail(a, b[..|b| - 1], k);
    }
  }

  lemma BlankDedented(b: Body, common: Option<nat>, i: nat)
    requires i < |b.lines| && Blank(b.lines[i])
    ensures forall j :: 0 <= j < |Dedented(b, common, i)| ==> Trimmed(Dedented(b, common, i)[j])
  {
  }

  /** Blank lines at the end do not matter. */
  lemma {:induction false} TrimBlankLines(b: Body, common: Option<nat>, last: nat, n: nat)
    requires last < n <= |b.lines|
    requires forall i :: last < i < n ==> Blank(b.lines[i])
    ensures TrimEnd(DedentedText(b, common, n)) == TrimEnd(DedentedText(b, common, last + 1))
  {
    hide TrimEnd, Dedented, Blank;
    if n > last + 1 {
      BlankDedented(b, common, n - 1);
      TrimBlankTail(DedentedText(b, common, n - 1), Dedented(b, common, n - 1));
      TrimBlankLines(b, common, last, n - 1);
    }
  }

  /** The last non-blank line is trimmed alone, as long as it holds no other blank
      than spaces. */
  lemma TrimLastLine(b: Body, common: Option<nat>, last: nat)
    requires last < |b.lines| && !Blank(b.lines[last])
    requires '\r' !in b.lines[last] && '\n' !in b.lines[last]
    ensures TrimEnd(DedentedText(b, common, last + 1))
              == DedentedText(b, common, last) + TrimEnd(Dedented(b, common, last))
  {
    var line := b.lines[last];
    var cut := Cut(b.IndentOf(last), common);
    var k := Indent(line);
    assert line[k] != ' ' && line[k] in line;
    assert Dedented(b, common, last)[k - cut] == line[k];
    TrimSolidTail(DedentedText(b, common, last), Dedented(b, common, last), k - cut);
  }
}
