/** Messages as an author writes them: names, selects, comparisons and escapes, with the
    characters they may hold written out, and what is refused. */
module TemplateWriting {
  import opened Options
  import opened Template
  import opened TemplateLexis
  import opened TemplateLines
  import opened TemplateGrammar
  import opened TemplateUnique
  import opened TemplateAbsent
  import opened TemplateCollect
  import opened TemplateParser
  import opened TemplateSelects
  import opened TemplateMessages

  // ----- words -----

  predicate Letter(c: char) {
    'a' <= c <= 'z' || 'A' <= c <= 'Z'
  }

  predicate WordChar(c: char) {
    Letter(c) || '0' <= c <= '9' || c == '-' || c == '_'
  }

  /** An ASCII letter, then letters, digits, `-` and `_`. */
  predicate IsWord(t: string) {
    t != "" && Letter(t[0]) && forall i :: 0 <= i < |t| ==> WordChar(t[i])
  }

  lemma WordSpelt(before: string, t: string, after: string)
    requires IsWord(t) && after != "" && !WordChar(after[0])
    ensures IdentifierAt(before + t + after, |before|, |before| + |t|)
    ensures (before + t + after)[|before|..|before| + |t|] == t
  {
    var s := before + t + after;
    assert forall i :: 0 <= i < |t| ==> s[|before| + i] == t[i];
    assert s[|before| + |t|] == after[0];
  }

  /** Neither layout nor brace. */
  predicate Solid1(c: char) {
    c != ' ' && c != '\n' && c != '\r' && c != '{' && c != '}'
  }

  // ----- what is refused -----

  /** A message that starts with a brace that opens no placeable. */
  lemma NothingOpens(s: string)
    requires s != "" && s[0] == '{' && NoPlaceable(s, 1)
    ensures NoPattern(s, 0)
  {
    hide NoPlaceable, NoPattern;
    assert SpacesEnd(s, 0) == 0;
    GatheredNothing(s, 0, InitialLineStart);
    NoPatternHere(s, 0, 0, [], Collected([], None, None, InitialLineStart));
  }

  method Refuse(message: string) returns (r: Result<Pattern>)
    requires NoPattern(message + "\n", 0)
    ensures r.Err?
  {
    hide SpellsPattern;
    r := Parse(message);
  }

  lemma NoInlinePlaced(s: string)
    requires |s| > 1 && s[0] == '{' && Solid1(s[1]) && NoInline(s, 1)
    ensures NoPattern(s, 0)
  {
    hide NoInline, NoPattern, NoPlaceable, NoExpression;
    assert BlankEnd(s, 1) == 1;
    NoSelector(s, 1);
    NothingPlaced(s, 1);
    NothingOpens(s);
  }

  /** An inline expression that goes on where it should close. */
  lemma InlineGoesOn(s: string, q: nat, x: Inline)
    requires |s| > 1 && s[0] == '{' && Solid1(s[1]) && 1 < q < |s| && SpellsInline(s, 1, q, x)
    requires Solid1(s[q]) && s[q] != '-'
    ensures NoPattern(s, 0)
  {
    hide SpellsInline, NoPattern, NoPlaceable;
    assert BlankEnd(s, 1) == 1 && BlankEnd(s, q) == q;
    assert SpellsExpression(s, 1, q, Simple(x));
    Unclosed(s, 1, q, Simple(x));
    NothingOpens(s);
  }

  // ----- variables -----

  lemma VariableSpelt(t: string)
    requires IsWord(t)
    ensures SpellsPattern("{$" + t + "}" + "\n", 0, |t| + 4, Pattern([Placeable(Simple(Variable(t)))]))
  {
    hide SpellsPattern, IdentifierAt;
    var s := "{$" + t + "}" + "\n";
    assert s == "{$" + t + "}\n";
    WordSpelt("{$", t, "}\n");
    OneInline(s, Variable(t));
  }

  lemma NoWordNoVariable(t: string)
    requires !IsWord(t) && forall i :: 0 <= i < |t| ==> Solid1(t[i])
    ensures NoPattern("{$" + t + "}" + "\n", 0)
  {
    hide NoPattern, NoInline, IdentifierAt, SpellsInline;
    var s := "{$" + t + "}" + "\n";
    if t == "" || !Letter(t[0]) {
      assert s[1] == '$' && s[2] == if t == "" then '}' else t[0];
      NoVariable(s, 1);
      NoInlinePlaced(s);
    } else {
      var k := FirstNoWordChar(t, 1);
      assert s == "{$" + t[..k] + (t[k..] + "}\n");
      NameGoesOn(t[..k], t[k..] + "}\n");
    }
  }

  lemma NameGoesOn(word: string, rest: string)
    requires IsWord(word) && rest != "" && !WordChar(rest[0]) && Solid1(rest[0])
    ensures NoPattern("{$" + word + rest, 0)
  {
    hide NoPattern, IdentifierAt, SpellsInline;
    var s, q := "{$" + word + rest, 2 + |word|;
    WordSpelt("{$", word, rest);
    NameIsVariable(s, q, word);
    assert s[q] == rest[0] && s[1] == '$';
    InlineGoesOn(s, q, Variable(word));
  }

  lemma NameIsVariable(s: string, q: nat, word: string)
    requires CharAt(s, 1, '$') && IdentifierAt(s, 2, q) && s[2..q] == word
    ensures SpellsInline(s, 1, q, Variable(word))
  {
    hide IdentifierAt;
  }

  lemma {:induction false} FirstNoWordChar(t: string, i: nat) returns (k: nat)
    requires i <= |t| && (exists j :: i <= j < |t| && !WordChar(t[j]))
    ensures i <= k < |t| && !WordChar(t[k]) && forall j :: i <= j < k ==> WordChar(t[j])
    decreases |t| - i
  {
    if WordChar(t[i]) {
      k := FirstNoWordChar(t, i + 1);
    } else {
      k := i;
    }
  }

  /** A variable is accepted exactly when its name is a word, and renders as its argument,
      or as it was written when there is none. */
  method ParseVariable(t: string) returns (r: Result<Pattern>)
    requires forall i :: 0 <= i < |t| ==> Solid1(t[i])
    ensures r.Ok? <==> IsWord(t)
    ensures r.Err? ==> NoPattern("{$" + t + "}" + "\n", 0)
    ensures r.Ok? ==> r.value == Pattern([Placeable(Simple(Variable(t)))])
    ensures r.Ok? ==> SpellsPattern("{$" + t + "}" + "\n", 0, |t| + 4, r.value)
    ensures r.Ok? ==> forall args: Args ::
              Render(r.value, args) == if t !in args then Rendered("{$" + t + "}", [t])
                                       else Rendered(match args[t] case Str(s) => s case Num(n) => Decimal(n), [])
  {
    hide SpellsPattern, NoPattern, Render, IsWord;
    if IsWord(t) {
      VariableSpelt(t);
      r := ParseOne("{$" + t + "}", Simple(Variable(t)));
      forall args: Args
        ensures Render(r.value, args) == if t !in args then Rendered("{$" + t + "}", [t])
                                         else Rendered(match args[t] case Str(s) => s case Num(n) => Decimal(n), [])
      {
        VariableRenders(t, args);
      }
    } else {
      NoWordNoVariable(t);
      r := Refuse("{$" + t + "}");
    }
  }

  // ----- selects -----

  /** One variant as it is written: its key, a text on one line, and whether it is the
      default. */
  datatype Case = Case(key: Key, text: string, isDefault: bool)

  function Shown(key: Key): string {
    match key case Name(name) => name case NumberKey(n) => Decimal(n)
  }

  predicate KeyOk(key: Key) {
    match key
    case Name(name) => IsWord(name)
    case NumberKey(n) => -0x8000_0000_0000_0000 <= n < 0x8000_0000_0000_0000
  }

  /** A text on one line that neither starts nor ends with a space. */
  predicate TextOk(text: string) {
    && text != "" && text[0] != ' ' && text[|text| - 1] != ' '
    && forall i :: 0 <= i < |text| ==> text[i] != '\n' && text[i] != '\r' && text[i] != '{' && text[i] != '}'
  }

  function CaseLine(c: Case): string {
    (if c.isDefault then " *[" else " [") + Shown(c.key) + "] " + c.text + "\n"
  }

  function CaseLines(cs: seq<Case>): string {
    if cs == [] then "" else CaseLines(cs[..|cs| - 1]) + CaseLine(cs[|cs| - 1])
  }

  function CaseVariant(c: Case): Variant {
    Variant(c.key, Pattern([Text(c.text)]), c.isDefault)
  }

  function CaseVariants(cs: seq<Case>): (r: seq<Variant>)
    ensures |r| == |cs|
  {
    if cs == [] then [] else CaseVariants(cs[..|cs| - 1]) + [CaseVariant(cs[|cs| - 1])]
  }

  ghost predicate CasesOk(cs: seq<Case>) {
    forall i :: 0 <= i < |cs| ==> KeyOk(cs[i].key) && TextOk(cs[i].text)
  }

  /** A text behind a space, up to its line feed. */
  lemma TextSpelt(s: string, i: nat, text: string)
    requires TextOk(text) && i + |text| + 2 < |s| && s[i..i + |text| + 2] == " " + text + "\n"
    requires s[i + |text| + 2] != '{' && !LineContinues(s, i + |text| + 2)
    ensures SpellsPattern(s, i, i + |text| + 2, Pattern([Text(text)]))
  {
    hide LineContinues;
    var j := i + |text| + 2;
    var run := Run(i + 1, j, j, false);
    TextTiled(s, i, text);
    TextLaid(s, i, text);
    assert [run][0].Run?;
  }

  lemma TextChars(s: string, i: nat, text: string)
    requires TextOk(text) && i + |text| + 2 <= |s| && s[i..i + |text| + 2] == " " + text + "\n"
    ensures s[i] == ' ' && s[i + |text| + 1] == '\n' && forall k :: 0 <= k < |text| ==> s[i + 1 + k] == text[k]
    ensures s[i + 1..i + |text| + 1] == text
  {
    var line := s[i..i + |text| + 2];
    assert line[0] == s[i] && line[|text| + 1] == s[i + |text| + 1];
    forall k | 0 <= k < |text|
      ensures s[i + 1 + k] == text[k]
    {
      assert line[1 + k] == s[i + 1 + k];
    }
  }

  lemma TextTiled(s: string, i: nat, text: string)
    requires TextOk(text) && i + |text| + 2 < |s| && s[i..i + |text| + 2] == " " + text + "\n"
    requires s[i + |text| + 2] != '{' && !LineContinues(s, i + |text| + 2)
    ensures var j := i + |text| + 2; TiledBy(s, i, j, [Run(i + 1, j, j, false)])
  {
    hide LineContinues;
    var j := i + |text| + 2;
    var run := Run(i + 1, j, j, false);
    TextChars(s, i, text);
    assert s[i + 1] == text[0] && s[j - 2] == text[|text| - 1];
    assert SpacesEnd(s, i) == i + 1;
    assert TextStop(s, i + 1) == j - 1 by {
      assert forall k :: i + 1 <= k < j - 1 ==> s[k] == text[k - i - 1];
    }
    assert RunAt(s, run);
    assert [run][..0] == [];
    assert Chained(s, i + 1, false, []);
    assert Chained(s, i + 1, false, [run]);
  }

  lemma TextLaid(s: string, i: nat, text: string)
    requires TextOk(text) && i + |text| + 2 < |s| && s[i..i + |text| + 2] == " " + text + "\n"
    ensures var j := i + |text| + 2; LaidOut(s, [Run(i + 1, j, j, false)], [Text(text)])
  {
    hide CommonIndent, TrimEnd, Solid, KeptPart, TextOk, Kept, LastSolid;
    var j := i + |text| + 2;
    var run := Run(i + 1, j, j, false);
    TextChars(s, i, text);
    TextSolid(s, i, text);
    OneKept(s, run);
    assert s[i + 1..j] == text + "\n";
    TextTrims(text);
  }

  lemma OneKept(s: string, part: Part)
    requires Solid(s, part) && KeptPart(s, part)
    ensures Kept(s, [part]) == [part] && LastSolid(s, [part]) == Some(0)
  {
    hide Solid, KeptPart;
    assert [part][..0] == [];
    assert Kept(s, []) == [];
    assert [] + [part] == [part];
  }

  lemma TextSolid(s: string, i: nat, text: string)
    requires TextOk(text) && i + |text| + 2 < |s| && s[i + 1..i + |text| + 1] == text
    ensures var run := Run(i + 1, i + |text| + 2, i + |text| + 2, false); Solid(s, run) && KeptPart(s, run)
  {
    assert s[i + 1] == text[0];
  }

  lemma TextTrims(text: string)
    requires TextOk(text)
    ensures TrimEnd(text + "\n") == text
  {
    TrimBlankTail(text, "\n");
    assert TrimEnd(text) == text;
  }

  lemma KeySpeltAt(before: string, key: Key, after: string)
    requires KeyOk(key) && after != "" && after[0] == ']'
    ensures KeyAt(before + Shown(key) + after, |before|, |before| + |Shown(key)| + 1, key)
  {
    hide NumberAt, IdentifierAt, Decimal;
    var s, i, j := before + Shown(key) + after, |before|, |before| + |Shown(key)|;
    match key {
      case Name(name) =>
        WordSpelt(before, name, after);
      case NumberKey(n) =>
        DecimalSpelt(before, n, after);
        DecimalShape(n);
    }
    assert Shown(key) != "" && s[i] == Shown(key)[0] && s[j] == ']';
    assert BlankEnd(s, i) == i && BlankEnd(s, j) == j;
    assert KeyText(s, i, j, key);
  }

  function Open(c: Case): string {
    if c.isDefault then " *[" else " ["
  }

  lemma CaseParts(before: string, c: Case, after: string)
    requires after != ""
    ensures var s, k := before + CaseLine(c) + after, |before| + |Open(c)| + |Shown(c.key)| + 1;
            && s == (before + Open(c)) + Shown(c.key) + ("] " + c.text + "\n" + after)
            && k + |c.text| + 2 == |before| + |CaseLine(c)| < |s|
            && s[k..k + |c.text| + 2] == " " + c.text + "\n" && s[k + |c.text| + 2] == after[0]
            && (c.isDefault ==> s[|before| + 1] == '*') && s[|before| + |Open(c)| - 1] == '['
  {
    hide CaseLine, Shown;
    var head := before + Open(c) + Shown(c.key) + "]";
    CaseLineParts(c);
    LineParts(before, Open(c), Shown(c.key), c.text, after);
    CharsBetween(head, " " + c.text + "\n", after);
    CharsBetween(before, Open(c), Shown(c.key) + "]" + (" " + c.text + "\n" + after));
  }

  lemma CaseLineParts(c: Case)
    ensures CaseLine(c) == Open(c) + Shown(c.key) + "]" + (" " + c.text + "\n")
  {
    hide Shown;
  }

  lemma LineParts(before: string, open: string, shown: string, text: string, after: string)
    ensures var s := before + (open + shown + "]" + (" " + text + "\n")) + after;
            && s == (before + open + shown + "]") + (" " + text + "\n") + after
            && s == (before + open) + shown + ("] " + text + "\n" + after)
            && s == before + open + (shown + "]" + (" " + text + "\n" + after))
  {
    assert "]" + (" " + text + "\n") == "] " + text + "\n";
  }

  /** The characters of a text that stands between two others. */
  lemma CharsBetween(before: string, text: string, after: string)
    ensures var s := before + text + after;
            && s[|before|..|before| + |text|] == text
            && (forall i :: 0 <= i < |text| ==> s[|before| + i] == text[i])
            && (after != "" ==> s[|before| + |text|] == after[0])
  {
  }

  /** One line is one variant. */
  lemma CaseSpelt(s: string, before: string, c: Case, after: string)
    requires KeyOk(c.key) && TextOk(c.text) && s == before + CaseLine(c) + after && after != "" && after[0] != '{'
    requires !LineContinues(s, |before| + |CaseLine(c)|)
    ensures SpellsVariant(s, |before| + 1, BlankEnd(s, |before| + |CaseLine(c)|), CaseVariant(c))
  {
    hide LineContinues, BlankEnd, KeyAt, Shown, CaseLine, KeyOk, TextOk, SpellsVariant, Open;
    var head, rest := before + Open(c), "] " + c.text + "\n" + after;
    CaseParts(before, c, after);
    assert rest[0] == ']';
    KeySpeltAt(head, c.key, rest);
    assert |head| == |before| + |Open(c)|;
    CaseSpeltAt(s, |before|, |head| + |Shown(c.key)| + 1, c);
  }

  lemma CaseSpeltAt(s: string, p: nat, k: nat, c: Case)
    requires TextOk(c.text) && k + |c.text| + 2 < |s| && KeyAt(s, p + |Open(c)|, k, c.key)
    requires (c.isDefault ==> CharAt(s, p + 1, '*')) && CharAt(s, p + |Open(c)| - 1, '[')
    requires s[k..k + |c.text| + 2] == " " + c.text + "\n"
    requires s[k + |c.text| + 2] != '{' && !LineContinues(s, k + |c.text| + 2)
    ensures SpellsVariant(s, p + 1, BlankEnd(s, k + |c.text| + 2), CaseVariant(c))
  {
    hide LineContinues, SpellsPattern, BlankEnd, KeyAt, TextOk, SpellsVariant;
    TextSpelt(s, k, c.text);
    VariantSpelt(s, p + 1, k, k + |c.text| + 2, CaseVariant(c));
  }

  /** The first lines are the first variants. */
  lemma {:induction false} CasesSpelt(before: string, cs: seq<Case>, after: string, n: nat) returns (cuts: seq<nat>)
    requires CasesOk(cs) && n <= |cs| && after != "" && after[0] == '}'
    ensures |cuts| == n + 1
    ensures var s := before + CaseLines(cs) + after;
            && |before| + |CaseLines(cs[..n])| <= |s|
            && SpeltAt(s, BlankEnd(s, |before|), cuts, CaseVariants(cs[..n]))
            && cuts[n] == BlankEnd(s, |before| + |CaseLines(cs[..n])|)
    decreases n
  {
    hide BlankEnd, SpellsVariant, CaseLine, KeyOk, TextOk, LineContinues, CaseLines, SpeltAt, CaseVariant;
    var s := before + CaseLines(cs) + after;
    var tail := CasesTail(cs, after, n);
    assert s == before + (CaseLines(cs) + after);
    assert s == before + CaseLines(cs[..n]) + tail;
    if n == 0 {
      NoCases(s, |before|, cs[..0]);
      cuts := [BlankEnd(s, |before|)];
    } else {
      var cuts' := CasesSpelt(before, cs, after, n - 1);
      var c, head := cs[n - 1], before + CaseLines(cs[..n - 1]);
      CasesSnoc(cs, n);
      assert s == head + CaseLine(c) + tail;
      LineEnds(head + CaseLine(c), tail);
      CaseSpelt(s, head, c, tail);
      CaseStarts(head, c, tail);
      cuts := cuts' + [BlankEnd(s, |head| + |CaseLine(c)|)];
      SpeltSnoc(s, BlankEnd(s, |before|), cuts', CaseVariants(cs[..n - 1]), cuts[n], CaseVariant(c));
    }
  }

  lemma NoCases(s: string, i: nat, cs: seq<Case>)
    requires i <= |s| && cs == []
    ensures CaseLines(cs) == "" && CaseVariants(cs) == [] && SpeltAt(s, BlankEnd(s, i), [BlankEnd(s, i)], [])
  {
  }

  lemma CasesSnoc(cs: seq<Case>, n: nat)
    requires 0 < n <= |cs|
    ensures CaseLines(cs[..n]) == CaseLines(cs[..n - 1]) + CaseLine(cs[n - 1])
    ensures CaseVariants(cs[..n]) == CaseVariants(cs[..n - 1]) + [CaseVariant(cs[n - 1])]
  {
    assert cs[..n][..n - 1] == cs[..n - 1] && cs[..n][n - 1] == cs[n - 1];
  }

  lemma CaseStarts(before: string, c: Case, after: string)
    ensures var s := before + CaseLine(c) + after; BlankEnd(s, |before|) == |before| + 1
  {
    hide CaseLine, Shown;
    var s, rest := before + CaseLine(c) + after, Shown(c.key) + "]" + (" " + c.text + "\n" + after);
    CaseLineParts(c);
    LineParts(before, Open(c), Shown(c.key), c.text, after);
    CharsBetween(before, Open(c), rest);
    assert s[|before| + 0] == ' ' && (s[|before| + 1] == '*' || s[|before| + 1] == '[');
  }

  /** What follows the first lines: another line, or the end. */
  lemma {:induction false} CasesTail(cs: seq<Case>, after: string, n: nat) returns (tail: string)
    requires n <= |cs| && after != "" && after[0] == '}'
    ensures CaseLines(cs) + after == CaseLines(cs[..n]) + tail && TailOk(tail)
    decreases |cs| - n
  {
    hide CaseLine;
    if n == |cs| {
      tail := after;
      assert cs[..n] == cs;
    } else {
      var rest := CasesTail(cs, after, n + 1);
      assert cs[..n + 1][..n] == cs[..n] && cs[..n + 1][n] == cs[n];
      tail := CaseLine(cs[n]) + rest;
      LineIsTail(cs[n], rest);
      assert CaseLines(cs[..n + 1]) + rest == CaseLines(cs[..n]) + CaseLine(cs[n]) + rest;
    }
  }

  predicate TailOk(tail: string) {
    tail != "" && (tail[0] == '}' || (|tail| > 1 && tail[0] == ' ' && (tail[1] == '*' || tail[1] == '[')))
  }

  lemma LineIsTail(c: Case, rest: string)
    ensures TailOk(CaseLine(c) + rest)
  {
  }

  lemma LineEnds(head: string, tail: string)
    requires TailOk(tail)
    ensures !LineContinues(head + tail, |head|)
  {
    var s := head + tail;
    assert s[|head|] == tail[0];
    if tail[0] == ' ' {
      assert s[|head| + 1] == tail[1];
      assert SpacesEnd(s, |head|) == |head| + 1;
    }
  }

  // ----- the whole message -----

  function SelectMessage(x: string, cs: seq<Case>): string {
    "{$" + x + " ->\n" + CaseLines(cs) + "}"
  }

  /** Its selector and its variants. */
  lemma SelectSpelt(x: string, cs: seq<Case>)
    requires IsWord(x) && CasesOk(cs) && cs != [] && Defaults(CaseVariants(cs)) == 1
    ensures var s := SelectMessage(x, cs) + "\n";
            SpellsPattern(s, 0, |s|, SelectOn(Variable(x), CaseVariants(cs)))
  {
    hide SpellsPattern, SpellsPlaceable, CaseLines, CasesOk, IsWord, Defaults;
    var s := SelectMessage(x, cs) + "\n";
    SelectPlaced(x, cs);
    assert s[0] == '{' && s[|s| - 1] == '\n';
    OnePlaceable(s, Select(Variable(x), CaseVariants(cs)));
  }

  lemma SelectPlaced(x: string, cs: seq<Case>)
    requires IsWord(x) && CasesOk(cs) && cs != [] && Defaults(CaseVariants(cs)) == 1
    ensures var s := SelectMessage(x, cs) + "\n";
            SpellsPlaceable(s, 1, |s| - 1, Select(Variable(x), CaseVariants(cs)))
  {
    hide SpellsInline, SpellsList, CaseLines, CaseVariants, CasesOk, IsWord, Defaults, BlankEnd, SpacesEnd, EolEnd;
    var s := SelectMessage(x, cs) + "\n";
    var before, q := "{$" + x + " ->\n", 2 + |x|;
    var e := Select(Variable(x), CaseVariants(cs));
    assert s == before + CaseLines(cs) + "}\n";
    SelectorWritten(x, CaseLines(cs) + "}\n");
    assert s == before + (CaseLines(cs) + "}\n");
    ListWritten(before, cs);
    assert SpellsExpression(s, 1, |s| - 2, e);
    assert s[|s| - 2] == '}';
    ClosedAt(s, |s| - 2);
  }

  lemma ClosedAt(s: string, i: nat)
    requires CharAt(s, i, '}')
    ensures SpacesEnd(s, i) == i && BlankEnd(s, i) == i
  {
  }

  lemma SelectorWritten(x: string, rest: string)
    requires IsWord(x)
    ensures var s, q := "{$" + x + " ->\n" + rest, 2 + |x|;
            && BlankEnd(s, 1) == 1 && SpellsInline(s, 1, q, Variable(x))
            && BlankEnd(s, q) == q + 1 && ArrowAt(s, q + 1)
            && SpacesEnd(s, q + 3) == q + 3 && EolEnd(s, q + 3) == q + 4
  {
    hide IdentifierAt, IsWord;
    var s, q := "{$" + x + " ->\n" + rest, 2 + |x|;
    assert s == "{$" + x + (" ->\n" + rest);
    WordSpelt("{$", x, " ->\n" + rest);
    assert s[1] == '$' && s[q] == ' ' && s[q + 1] == '-' && s[q + 2] == '>' && s[q + 3] == '\n';
    NameIsVariable(s, q, x);
  }

  lemma ListWritten(before: string, cs: seq<Case>)
    requires CasesOk(cs) && Defaults(CaseVariants(cs)) == 1
    ensures var s := before + CaseLines(cs) + "}\n"; SpellsList(s, BlankEnd(s, |before|), |s| - 2, CaseVariants(cs))
  {
    hide CaseLines, CasesOk, Defaults, BlankEnd, SpellsVariant;
    var s := before + CaseLines(cs) + "}\n";
    var cuts := CasesSpelt(before, cs, "}\n", |cs|);
    assert cs[..|cs|] == cs;
    var t := |s| - 2;
    assert s[t] == '}';
    ClosedAt(s, t);
    assert Cuts(cuts, BlankEnd(s, |before|), t, |CaseVariants(cs)|);
    assert SpellsVariants(s, BlankEnd(s, |before|), t, CaseVariants(cs));
  }

  /** A select with any number of variants, one of them the default, is read as written. */
  method ParseSelect(x: string, cs: seq<Case>) returns (r: Result<Pattern>)
    requires IsWord(x) && CasesOk(cs) && Defaults(CaseVariants(cs)) == 1
    ensures r == Ok(SelectOn(Variable(x), CaseVariants(cs)))
    ensures SpellsPattern(SelectMessage(x, cs) + "\n", 0, |SelectMessage(x, cs)| + 1, r.value)
  {
    hide SpellsPattern, CaseLines, CasesOk, IsWord;
    SelectSpelt(x, cs);
    r := ParseOne(SelectMessage(x, cs), Select(Variable(x), CaseVariants(cs)));
  }

  /** Two variants, and which of them an argument takes. */
  method ParseTwoWay(x: string, key: Key, a: string, other: Key, b: string) returns (r: Result<Pattern>)
    requires IsWord(x) && KeyOk(key) && KeyOk(other) && TextOk(a) && TextOk(b)
    ensures r == Ok(SelectOn(Variable(x), TwoWay(key, Pattern([Text(a)]), other, Pattern([Text(b)]), false)))
    ensures var message := "{$" + x + " ->\n [" + Shown(key) + "] " + a + "\n *[" + Shown(other) + "] " + b + "\n}";
            SpellsPattern(message + "\n", 0, |message| + 1, r.value)
    ensures forall args: Args :: x in args ==>
              Render(r.value, args) == Rendered(if key in AnswersKeys(args[x]) then a else b, [])
  {
    hide SpellsPattern, KeyOk, TextOk, IsWord, Shown, Render, AnswersKeys;
    var cs := [Case(key, a, false), Case(other, b, true)];
    TwoCases(x, key, a, other, b);
    r := ParseSelect(x, cs);
    forall args: Args | x in args
      ensures Render(r.value, args) == Rendered(if key in AnswersKeys(args[x]) then a else b, [])
    {
      TwoWayRenders(x, key, Pattern([Text(a)]), other, Pattern([Text(b)]), false, args);
      TextRenders(a, args);
      TextRenders(b, args);
    }
  }

  lemma TextRenders(t: string, args: Args)
    ensures Render(Pattern([Text(t)]), args) == Rendered(t, [])
  {
    var p := Pattern([Text(t)]);
    assert p.elements[1..] == [];
    assert RenderElements(p.elements[1..], args) == Just("");
    assert RenderElements(p.elements, args) == Just(t).Append(Just(""));
    assert Just(t).Append(Just("")) == Just(t);
  }

  lemma TwoCases(x: string, key: Key, a: string, other: Key, b: string)
    requires KeyOk(key) && KeyOk(other) && TextOk(a) && TextOk(b)
    ensures var cs := [Case(key, a, false), Case(other, b, true)];
            && CasesOk(cs) && Defaults(CaseVariants(cs)) == 1
            && CaseVariants(cs) == TwoWay(key, Pattern([Text(a)]), other, Pattern([Text(b)]), false)
            && SelectMessage(x, cs) ==
               "{$" + x + " ->\n [" + Shown(key) + "] " + a + "\n *[" + Shown(other) + "] " + b + "\n}"
  {
    hide KeyOk, TextOk, Shown, CaseLines, CaseVariants, Defaults;
    TwoVariants(Case(key, a, false), Case(other, b, true));
    TwoLines(x, key, a, other, b);
  }

  lemma TwoVariants(c: Case, d: Case)
    requires !c.isDefault && d.isDefault
    ensures CaseVariants([c, d]) == [CaseVariant(c), CaseVariant(d)] && Defaults(CaseVariants([c, d])) == 1
  {
    assert [c, d][..1] == [c] && [c][..0] == [];
    assert CaseVariants([c]) == [CaseVariant(c)];
    var vs := [CaseVariant(c), CaseVariant(d)];
    assert CaseVariants([c, d]) == vs;
    assert vs[..1] == [CaseVariant(c)] && [CaseVariant(c)][..0] == [];
    assert Defaults([CaseVariant(c)]) == 0;
  }

  lemma TwoLines(x: string, key: Key, a: string, other: Key, b: string)
    ensures SelectMessage(x, [Case(key, a, false), Case(other, b, true)]) ==
            "{$" + x + " ->\n [" + Shown(key) + "] " + a + "\n *[" + Shown(other) + "] " + b + "\n}"
  {
    hide Shown;
    var c, d := Case(key, a, false), Case(other, b, true);
    assert [c, d][..1] == [c] && [c][..0] == [];
    assert CaseLines([c]) == CaseLine(c);
    assert CaseLines([c, d]) == CaseLine(c) + CaseLine(d);
    Glued("{$" + x, " ->\n", " [", Shown(key), "] ", a, "\n", " *[", Shown(other), b, "}");
    assert " ->\n" + " [" == " ->\n [" && "\n" + " *[" == "\n *[" && "\n" + "}" == "\n}";
  }

  /** Two lines between a head and a brace, bracketed another way. */
  lemma Glued(head: string, arrow: string, open: string, k: string, close: string, a: string, eol: string, star: string,
              d: string, b: string, brace: string)
    ensures head + arrow + ((open + k + close + a + eol) + (star + d + close + b + eol)) + brace
         == head + (arrow + open) + k + close + a + (eol + star) + d + close + b + (eol + brace)
  {
    var first, second := open + k + close + a, d + close + b;
    assert star + d + close + b + eol == star + second + eol;
    assert head + (arrow + open) + k + close + a == head + arrow + first;
    assert head + arrow + first + (eol + star) + d + close + b == head + arrow + first + (eol + star) + second;
  }

  /** The plural of the compiler's own messages. */
  method ParsePlural(x: string, a: string, b: string) returns (r: Result<Pattern>)
    requires IsWord(x) && TextOk(a) && TextOk(b)
    ensures r.Ok?
    ensures var message := "{$" + x + " ->\n [one] " + a + "\n *[other] " + b + "\n}";
            SpellsPattern(message + "\n", 0, |message| + 1, r.value)
    ensures forall args: Args, n :: x in args && args[x] == Num(n) ==>
              Render(r.value, args) == Rendered(if n == 1 || n == -1 then a else b, [])
  {
    hide SpellsPattern, TextOk, Render;
    assert IsWord("one") && IsWord("other");
    r := ParseTwoWay(x, Name("one"), a, Name("other"), b);
    assert "{$" + x + " ->\n [" + "one" + "] " + a + "\n *[" + "other" + "] " + b + "\n}" ==
           "{$" + x + " ->\n [one] " + a + "\n *[other] " + b + "\n}";
  }

  // ----- comparisons -----

  lemma EqualsSpelt(a: string, b: string)
    requires IsWord(a) && IsWord(b)
    ensures var s := "{STREQ($" + a + ", $" + b + ")}" + "\n";
            SpellsPattern(s, 0, |s|, Pattern([Placeable(Simple(Equals(a, b)))]))
  {
    hide SpellsPattern, IsWord, SpellsInline;
    var s := "{STREQ($" + a + ", $" + b + ")}" + "\n";
    EqualsRead(s, a, b);
    assert s[0] == '{' && s[|s| - 2] == '}' && s[|s| - 1] == '\n';
    OneInline(s, Equals(a, b));
  }

  lemma EqualsRead(s: string, a: string, b: string)
    requires IsWord(a) && IsWord(b) && s == "{STREQ($" + a + ", $" + b + ")}" + "\n"
    ensures SpellsInline(s, 1, |s| - 2, Equals(a, b))
  {
    hide IsWord, IdentifierAt, BlankEnd, ArgEnd, CallAt, CallStart;
    var q, u := 8 + |a|, 11 + |a| + |b|;
    EqualsWords(s, a, b);
    CommaRead(s, q);
    ParenRead(s, u);
    assert SpellsInline(s, 7, q, Variable(a));
    assert SpellsInline(s, q + 2, u, Variable(b));
  }

  lemma EqualsWords(s: string, a: string, b: string)
    requires IsWord(a) && IsWord(b) && s == "{STREQ($" + a + ", $" + b + ")}" + "\n"
    ensures var q, u := 8 + |a|, 11 + |a| + |b|;
            && CallAt(s, 1) && CallStart(s, 1) == 7 && |s| == u + 3
            && s[7] == '$' && IdentifierAt(s, 8, q) && s[8..q] == a
            && s[q] == ',' && s[q + 1] == ' ' && s[q + 2] == '$' && IdentifierAt(s, q + 3, u) && s[q + 3..u] == b
            && s[u] == ')'
  {
    hide IsWord, IdentifierAt, CallAt, CallStart;
    var q, u := 8 + |a|, 11 + |a| + |b|;
    var first, second := "{STREQ($", "{STREQ($" + a + ", $";
    EqualsCall(s, a, b);
    assert s == first + a + (", $" + b + ")}" + "\n");
    WordSpelt(first, a, ", $" + b + ")}" + "\n");
    assert s == second + b + (")}" + "\n");
    WordSpelt(second, b, ")}" + "\n");
  }

  lemma EqualsCall(s: string, a: string, b: string)
    requires s == "{STREQ($" + a + ", $" + b + ")}" + "\n"
    ensures CallAt(s, 1) && CallStart(s, 1) == 7
  {
    hide CallAt, CallStart;
    var rest := "($" + a + ", $" + b + ")}" + "\n";
    assert s == "{STREQ" + rest;
    CallRead(s, rest);
  }

  lemma CallRead(s: string, rest: string)
    requires s == "{STREQ" + rest && |rest| > 1 && rest[0] == '(' && rest[1] == '$'
    ensures CallAt(s, 1) && CallStart(s, 1) == 7
  {
    WordSpelt("{", "STREQ", rest);
    assert s == "{" + "STREQ" + rest;
    assert s[6] == '(' && s[7] == '$' && s[1..6] == "STREQ";
  }

  lemma CommaRead(s: string, i: nat)
    requires i + 2 < |s| && s[i] == ',' && s[i + 1] == ' ' && s[i + 2] == '$'
    ensures ArgEnd(s, i) == i + 2
  {
    assert BlankEnd(s, i) == i && BlankEnd(s, i + 2) == i + 2;
    assert BlankEnd(s, i + 1) == i + 2;
  }

  lemma ParenRead(s: string, i: nat)
    requires CharAt(s, i, ')')
    ensures ArgEnd(s, i) == i
  {
  }

  /** A comparison of two variables is read as written, and tells whether the texts are
      equal. */
  method ParseEquals(a: string, b: string) returns (r: Result<Pattern>)
    requires IsWord(a) && IsWord(b)
    ensures r == Ok(Pattern([Placeable(Simple(StrEq(Variable(a), Variable(b))))]))
    ensures var message := "{STREQ($" + a + ", $" + b + ")}"; SpellsPattern(message + "\n", 0, |message| + 1, r.value)
    ensures forall args: Args :: a in args && b in args && args[a].Str? && args[b].Str? ==>
              Render(r.value, args) == Rendered(if args[a] == args[b] then "true" else "false", [])
  {
    hide SpellsPattern, IsWord, Render;
    EqualsSpelt(a, b);
    var message := "{STREQ($" + a + ", $" + b + ")}";
    r := ParseOne(message, Simple(Equals(a, b)));
    forall args: Args | a in args && b in args && args[a].Str? && args[b].Str?
      ensures Render(r.value, args) == Rendered(if args[a] == args[b] then "true" else "false", [])
    {
      EqualTexts(a, b, args);
    }
  }

  /** No other name stands for anything. */
  method ParseOtherName(name: string, rest: string) returns (r: Result<Pattern>)
    requires IsWord(name) && name != "STREQ" && rest != "" && !WordChar(rest[0])
    ensures r.Err?
    ensures NoPattern("{" + name + rest + "\n", 0)
  {
    hide NoPattern, NoInline, CallAt, IdentifierAt;
    var s := "{" + name + rest + "\n";
    assert s == "{" + name + (rest + "\n");
    WordSpelt("{", name, rest + "\n");
    OtherName(s, 1, 1 + |name|);
    assert s[1] == name[0];
    NoCall(s, 1);
    NoInlinePlaced(s);
    r := Refuse("{" + name + rest);
  }

  // ----- numbers that are refused -----

  /** A fraction, or a number beyond 64 bits. */
  method ParseOtherNumber(n: int, rest: string) returns (r: Result<Pattern>)
    requires rest != "" && !('0' <= rest[0] <= '9')
    requires rest[0] == '.' || n < -0x8000_0000_0000_0000 || n >= 0x8000_0000_0000_0000
    ensures r.Err?
    ensures NoPattern("{" + Decimal(n) + rest + "\n", 0)
  {
    hide NoPattern, NoInline, NoNumber, Decimal;
    var s := "{" + Decimal(n) + rest + "\n";
    assert s == "{" + Decimal(n) + (rest + "\n");
    DecimalRefused("{", n, rest + "\n");
    DecimalShape(n);
    assert s[1] == Decimal(n)[0];
    NoNumberInline(s, 1);
    NoInlinePlaced(s);
    r := Refuse("{" + Decimal(n) + rest);
  }

  // ----- escapes -----

  function HexChar(n: nat, upper: bool): char
    requires n < 16
  {
    if upper then "0123456789ABCDEF"[n] else "0123456789abcdef"[n]
  }

  function Hex(n: nat, digits: nat, upper: bool): (r: string)
    ensures |r| == digits
  {
    if digits == 0 then "" else Hex(n / 16, digits - 1, upper) + [HexChar(n % 16, upper)]
  }

  function Sixteens(digits: nat): nat {
    if digits == 0 then 1 else 16 * Sixteens(digits - 1)
  }

  lemma {:induction false} HexReads(n: nat, digits: nat, upper: bool)
    requires n < Sixteens(digits)
    ensures forall i :: 0 <= i < digits ==> IsHexDigit(Hex(n, digits, upper)[i])
    ensures HexValue(Hex(n, digits, upper)) == n
    decreases digits
  {
    if digits > 0 {
      HexReads(n / 16, digits - 1, upper);
      var s := Hex(n, digits, upper);
      assert s[..|s| - 1] == Hex(n / 16, digits - 1, upper) && s[|s| - 1] == HexChar(n % 16, upper);
      OneHex(n % 16, upper);
    }
  }

  lemma OneHex(n: nat, upper: bool)
    requires n < 16
    ensures var c := HexChar(n, upper);
            IsHexDigit(c) && n == if IsDigit(c) then c as int - '0' as int
                                  else if 'a' <= c <= 'f' then c as int - 'a' as int + 10
                                  else c as int - 'A' as int + 10
  {
  }

  /** The character with that number, or the replacement character when there is none. */
  function Coded(n: nat): char {
    if n < 0xD800 || 0xE000 <= n < 0x11_0000 then n as char else '\U{FFFD}'
  }

  /** `\uXXXX` or `\UXXXXXX`. */
  function Escape(n: nat, long: bool, upper: bool): string {
    if long then "\\U" + Hex(n, 6, upper) else "\\u" + Hex(n, 4, upper)
  }

  lemma EscapeReads(n: nat, long: bool, upper: bool, rest: string)
    requires n < Sixteens(if long then 6 else 4)
    ensures var t := Escape(n, long, upper);
            EscapeLength(t + rest) == EscapeLength(t) == |t| && EscapedChar(t) == Coded(n)
  {
    hide Hex, HexValue;
    var d := if long then 6 else 4;
    var t, h := Escape(n, long, upper), Hex(n, d, upper);
    HexReads(n, d, upper);
    assert t[0] == '\\' && t[1] == (if long then 'U' else 'u') && t[2..] == h;
    assert forall i :: 2 <= i < |t| ==> t[i] == h[i - 2] && (t + rest)[i] == t[i];
    assert (t + rest)[0] == t[0] && (t + rest)[1] == t[1];
    assert t[2..|t|] == h;
  }

  lemma EscapeSpelt(n: nat, long: bool, upper: bool)
    requires n < Sixteens(if long then 6 else 4)
    ensures var s := "{\"" + Escape(n, long, upper) + "\"}" + "\n";
            SpellsPattern(s, 0, |s|, Pattern([Placeable(Simple(Literal([Coded(n)])))]))
  {
    hide SpellsPattern, Escape, EscapeLength, EscapedChar, CloseQuote, WellEscaped, Unescaped, Coded;
    var t := Escape(n, long, upper);
    var s := "{\"" + t + "\"}" + "\n";
    assert s == "{\"" + t + "\"}\n";
    EscapeCloses(n, long, upper, s);
    assert LiteralAt(s, 1, |s| - 2, [Coded(n)]);
    assert s[0] == '{' && s[|s| - 2] == '}' && s[|s| - 1] == '\n';
    OneInline(s, Literal([Coded(n)]));
  }

  lemma EscapeCloses(n: nat, long: bool, upper: bool, s: string)
    requires n < Sixteens(if long then 6 else 4) && s == "{\"" + Escape(n, long, upper) + "\"}\n"
    ensures var t := Escape(n, long, upper);
            && |s| == |t| + 5 && s[1] == '"' && CloseQuote(s, 2) == Some(2 + |t|) && s[2..2 + |t|] == t
            && WellEscaped(t) && Unescaped(t) == [Coded(n)]
  {
    hide EscapeLength, EscapedChar, CloseQuote, Coded, Hex;
    var t := Escape(n, long, upper);
    EscapeReads(n, long, upper, "\"}\n");
    EscapeReads(n, long, upper, "");
    assert s[2..] == t + "\"}\n" && s[2] == t[0] == '\\' && s[2 + |t|] == '"';
    QuoteStep(s, 2);
    QuoteStep(s, 2 + |t|);
    assert t[|t|..] == "";
    NothingEscaped();
  }

  /** An escaped character is read as the character with that number; numbers without a
      character are read as the replacement character. */
  method ParseEscape(n: nat, long: bool, upper: bool) returns (r: Result<Pattern>)
    requires n < if long then 0x100_0000 else 0x1_0000
    ensures r == Ok(Pattern([Placeable(Simple(Literal([Coded(n)])))]))
    ensures forall args :: Render(r.value, args) == Rendered([Coded(n)], [])
    ensures SpellsPattern("{\"" + Escape(n, long, upper) + "\"}" + "\n", 0, if long then 13 else 11, r.value)
  {
    hide SpellsPattern, Hex, Coded;
    assert Sixteens(4) == 0x1_0000 && Sixteens(6) == 0x100_0000;
    EscapeSpelt(n, long, upper);
    r := ParseOne("{\"" + Escape(n, long, upper) + "\"}", Simple(Literal([Coded(n)])));
    assert forall args :: RenderExpression(Simple(Literal([Coded(n)])), args)
             == RenderInline(Literal([Coded(n)]), args);
  }

  /** A backslash before any other character is refused. */
  method ParseOtherEscape(c: char, rest: string) returns (r: Result<Pattern>)
    requires c != '\\' && c != '"' && c != 'u' && c != 'U'
    ensures r.Err?
    ensures NoPattern("{\"\\" + [c] + rest + "\n", 0)
  {
    hide NoPattern, NoInline, CloseQuote;
    var s := "{\"\\" + [c] + rest + "\n";
    assert s[1] == '"' && s[2] == '\\' && s[2..][0] == '\\' && s[2..][1] == c;
    QuoteStep(s, 2);
    NoLiteral(s, 1);
    NoInlinePlaced(s);
    r := Refuse("{\"\\" + [c] + rest);
  }

  // ----- stray braces -----

  /** A closing brace in a text is reported where it is. */
  method ParseStray(a: string, rest: string) returns (r: Result<Pattern>)
    requires forall i :: 0 <= i < |a| ==> a[i] != '\n' && a[i] != '\r' && a[i] != '{' && a[i] != '}'
    ensures r == Err(ParseError(|a|, UnbalancedBrace))
    ensures StrayAfter(a + "}" + rest + "\n", 0, [], |a|)
  {
    hide Reports, StrayAfter;
    StrayRead(a, rest);
    r := Parse(a + "}" + rest);
    assert Reports(a + "}" + rest, [], r);
    StrayReported(a + "}" + rest, |a|, r);
  }

  lemma StrayReported(message: string, at: nat, r: Result<Pattern>)
    requires Reports(message, [], r) && StrayAfter(message + "\n", 0, [], at)
    ensures r == Err(ParseError(at, UnbalancedBrace))
  {
    hide StrayAfter;
  }

  lemma StrayRead(a: string, rest: string)
    requires forall i :: 0 <= i < |a| ==> a[i] != '\n' && a[i] != '\r' && a[i] != '{' && a[i] != '}'
    ensures StrayAfter(a + "}" + rest + "\n", 0, [], |a|)
  {
    var s := a + "}" + rest + "\n";
    assert s[|a|] == '}' && forall i :: 0 <= i < |a| ==> s[i] == a[i];
    var n := SpacesEnd(s, 0);
    assert n <= |a|;
    assert EolEnd(s, n) == n;
    assert TextStop(s, n) == |a|;
    assert Chained(s, n, false, []);
  }
}
