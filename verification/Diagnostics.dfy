/** Splitting rendered diagnostics: the slicing splitter (src/frontend_facts/mod.rs:2803-2903)
    and the line-based one (src/frontend_facts/effects.rs:343-357). */
module Diagnostics {
  import opened Options

  // ----- lines -----

  /** The position of the first line feed, or the length. */
  function FirstBreak(text: string): (n: nat)
    ensures n <= |text| && (n < |text| ==> text[n] == '\n')
    ensures forall i :: 0 <= i < n ==> text[i] != '\n'
  {
    if text == [] || text[0] == '\n' then 0 else 1 + FirstBreak(text[1..])
  }

  /** A line without the carriage return of its break. */
  function StripReturn(line: string): string {
    if line != [] && line[|line| - 1] == '\r' then line[..|line| - 1] else line
  }

  /** The lines of a text: only a carriage return right before a line feed belongs to the
      break. */
  function Lines(text: string): seq<string>
    decreases |text|
  {
    if text == [] then []
    else
      var n := FirstBreak(text);
      if n == |text| then [text] else [StripReturn(text[..n])] + Lines(text[n + 1..])
  }

  /** The lines with line feeds between them. */
  function Join(lines: seq<string>): string {
    if lines == [] then []
    else
      var last := |lines| - 1;
      if last == 0 then lines[0] else Join(lines[..last]) + ['\n'] + lines[last]
  }

  function Break(crlf: bool): string {
    if crlf then ['\r', '\n'] else ['\n']
  }

  lemma LinesUnbroken(text: string)
    requires text != [] && '\n' !in text
    ensures Lines(text) == [text]
  {
    assert FirstBreak(text) == |text|;
  }

  lemma LinesBroken(text: string, n: nat)
    requires n < |text| && text[n] == '\n' && forall i :: 0 <= i < n ==> text[i] != '\n'
    ensures Lines(text) == [StripReturn(text[..n])] + Lines(text[n + 1..])
  {
    var m := FirstBreak(text);
    assert m <= n && n <= m;
  }

  lemma TwoLines(head: string, line: string)
    requires line != [] && '\n' !in line && '\n' !in head
    ensures Lines(head + ['\n'] + line) == [StripReturn(head), line]
  {
    hide Lines, StripReturn;
    var whole := head + ['\n'] + line;
    assert whole[..|head|] == head && whole[|head| + 1..] == line;
    LinesBroken(whole, |head|);
    LinesUnbroken(line);
  }

  lemma OneBreak(text: string, crlf: bool, line: string)
    requires line != [] && '\n' !in line && '\n' !in text
    requires text != [] && text[|text| - 1] == '\r' ==> crlf
    ensures Lines(text + Break(crlf) + line) == [text, line]
  {
    hide Lines;
    if crlf {
      assert text + Break(crlf) + line == text + ['\r'] + ['\n'] + line;
      TwoLines(text + ['\r'], line);
    } else {
      TwoLines(text, line);
    }
  }

  /** One more line after a text that does not end in a break. */
  lemma {:induction false} LinesSnoc(text: string, crlf: bool, line: string)
    requires line != [] && '\n' !in line
    requires text != [] ==> text[|text| - 1] != '\n' && (text[|text| - 1] == '\r' ==> crlf)
    ensures Lines(text + Break(crlf) + line) == (if text == [] then [[]] else Lines(text)) + [line]
    decreases |text|
  {
    hide Lines, StripReturn, Break;
    var n := FirstBreak(text);
    if n == |text| {
      OneBreak(text, crlf, line);
      if text != [] {
        LinesUnbroken(text);
      }
    } else {
      var whole, rest := text + Break(crlf) + line, text[n + 1..];
      LinesBroken(text, n);
      assert whole[..n] == text[..n];
      assert whole[n + 1..] == rest + Break(crlf) + line;
      LinesBroken(whole, n);
      LinesSnoc(rest, crlf, line);
    }
  }

  // ----- entries, the simple form -----

  /** A line that starts with a space continues the last entry, if there is one; any
      other line starts an entry. */
  function AddLine(entries: seq<string>, line: string): seq<string> {
    if line != [] && line[0] == ' ' then
      if entries == [] then [] else entries[|entries| - 1 := entries[|entries| - 1] + ['\n'] + line]
    else
      entries + [line]
  }

  function Entries(entries: seq<string>, lines: seq<string>): seq<string>
    decreases |lines|
  {
    if lines == [] then entries else Entries(AddLine(entries, lines[0]), lines[1..])
  }

  datatype Severity = Error | Warning

  const ERROR := "error"
  const INTERNAL := "internal compiler error"
  const WARNING := "warning"

  function SeverityOf(text: string): Option<Severity> {
    if ERROR <= text || INTERNAL <= text then Some(Error)
    else if WARNING <= text then Some(Warning)
    else None
  }

  /** The entries with a severity, in order. */
  function Classified(entries: seq<string>): seq<(Severity, string)> {
    if entries == [] then []
    else
      var last := |entries| - 1;
      Classified(entries[..last]) +
      match SeverityOf(entries[last])
      case None => []
      case Some(severity) => [(severity, entries[last])]
  }

  function Select(classified: seq<(Severity, string)>, severity: Severity): seq<string> {
    if classified == [] then []
    else
      var last := |classified| - 1;
      Select(classified[..last], severity) +
      if classified[last].0 == severity then [classified[last].1] else []
  }

  function WithPrefix(entries: seq<string>, prefix: string): seq<string> {
    if entries == [] then []
    else
      var last := |entries| - 1;
      WithPrefix(entries[..last], prefix) + if prefix <= entries[last] then [entries[last]] else []
  }

  predicate HasWord(text: string, words: set<string>) {
    exists w :: w in words && w <= text
  }

  /** The entries that start with one of the words, in order. */
  function Starting(entries: seq<string>, words: set<string>): seq<string> {
    if entries == [] then []
    else
      var last := |entries| - 1;
      Starting(entries[..last], words) + if HasWord(entries[last], words) then [entries[last]] else []
  }

  function Texts(classified: seq<(Severity, string)>): seq<string> {
    seq(|classified|, i requires 0 <= i < |classified| => classified[i].1)
  }

  /** What the severities are, in words: errors, internal compiler errors among them, and
      warnings; anything else is dropped. */
  lemma {:induction false} ClassifiedMeans(entries: seq<string>)
    ensures Select(Classified(entries), Error) == Starting(entries, {"error", "internal compiler error"})
    ensures Select(Classified(entries), Warning) == Starting(entries, {"warning"})
    ensures Texts(Classified(entries)) == Starting(entries, {"error", "internal compiler error", "warning"})
    ensures forall i :: 0 <= i < |Classified(entries)| ==>
              Classified(entries)[i].0 == if "warning" <= Classified(entries)[i].1 then Warning else Error
  {
    hide SeverityOf, HasWord;
    if entries != [] {
      var last := |entries| - 1;
      ClassifiedMeans(entries[..last]);
      var before, entry := Classified(entries[..last]), entries[last];
      WordsMean(entry);
      match SeverityOf(entry) {
        case None =>
          assert Classified(entries) == before;
        case Some(s) =>
          assert Classified(entries) == before + [(s, entry)];
          SelectSnoc(before, s, entry);
          assert Texts(before + [(s, entry)]) == Texts(before) + [entry];
      }
    }
  }

  lemma WordsMean(text: string)
    ensures SeverityOf(text) == Some(Error) <==> HasWord(text, {"error", "internal compiler error"})
    ensures SeverityOf(text) == Some(Warning) <==> HasWord(text, {"warning"})
    ensures SeverityOf(text) == Some(Warning) <==> "warning" <= text
    ensures SeverityOf(text) == None <==> !HasWord(text, {"error", "internal compiler error", "warning"})
  {
    var two, one := {"error", "internal compiler error"}, {"warning"};
    var three := {"error", "internal compiler error", "warning"};
    assert HasWord(text, two) <==> "error" <= text || "internal compiler error" <= text by {
      assert "error" in two && "internal compiler error" in two;
    }
    assert HasWord(text, one) <==> "warning" <= text by {
      assert "warning" in one;
    }
    assert HasWord(text, three) <==> HasWord(text, two) || HasWord(text, one) by {
      assert three == two + one;
    }
    if "warning" <= text {
      assert text[0] == 'w';
    }
  }

  /** A text that goes on with a break keeps its severity. */
  lemma SeverityExtends(text: string, more: string)
    requires more != [] && (more[0] == '\n' || more[0] == '\r')
    ensures SeverityOf(text + more) == SeverityOf(text)
  {
    PrefixExtends(text, more, ERROR);
    PrefixExtends(text, more, INTERNAL);
    PrefixExtends(text, more, WARNING);
  }

  lemma PrefixExtends(text: string, more: string, prefix: string)
    requires more != [] && more[0] !in prefix
    ensures prefix <= text + more <==> prefix <= text
  {
    if |prefix| <= |text| {
      assert (text + more)[..|prefix|] == text[..|prefix|];
    } else {
      assert (text + more)[|text|] == more[0] && prefix[|text|] in prefix;
    }
  }

  // ----- entries, the slices -----

  /** One diagnostic as a slice of the text; `crlf` says that a break inside it has a
      carriage return. */
  datatype Entry = Entry(text: string, crlf: bool)

  ghost function Owned(entry: Entry): string {
    if entry.crlf then Join(Lines(entry.text)) else entry.text
  }

  /** The lines of an entry joined by line feeds. */
  method ToOwnedString(entry: Entry) returns (out: string)
    ensures out == Owned(entry)
  {
    if !entry.crlf {
      return entry.text;
    }
    out := [];
    var lines := Lines(entry.text);
    for index := 0 to |lines|
      invariant out == Join(lines[..index])
    {
      assert lines[..index + 1][..index] == lines[..index];
      if index > 0 {
        out := out + ['\n'];
      }
      out := out + lines[index];
    }
    assert lines[..|lines|] == lines;
  }

  /** The strings of emitted entries. */
  ghost function OwnedAll(out: seq<(Severity, Entry)>): seq<(Severity, string)> {
    if out == [] then []
    else
      var last := |out| - 1;
      OwnedAll(out[..last]) + [(out[last].0, Owned(out[last].1))]
  }

  /** A line at `pos` and where the next one starts. */
  ghost predicate LineAt(captured: string, pos: nat, line: string, crlf: bool, next: nat) {
    && pos + |line| <= next && pos < next <= |captured|
    && captured[pos..pos + |line|] == line && '\n' !in line
    && (next < |captured| ==> captured[pos + |line|..next] == Break(crlf))
    && (next < |captured| && line != [] && line[|line| - 1] == '\r' ==> crlf)
  }

  /** The next line of the text, without its break. */
  method NextLine(captured: string, pos: nat) returns (line: string, crlf: bool, next: nat)
    requires pos < |captured|
    ensures LineAt(captured, pos, line, crlf, next)
    ensures Lines(captured[pos..]) == [line] + Lines(captured[next..])
  {
    hide Lines;
    var rest := captured[pos..];
    var n := FirstBreak(rest);
    line, crlf, next := rest[..n], false, pos + n;
    if n < |rest| {
      next := next + 1;
      LinesBroken(rest, n);
      assert rest[n + 1..] == captured[next..];
      assert captured[pos + n] == '\n';
      if line != [] && line[|line| - 1] == '\r' {
        line, crlf := line[..|line| - 1], true;
      }
    } else {
      assert line == rest;
      LinesUnbroken(rest);
      NoLines(captured[next..]);
    }
  }

  lemma NoLines(text: string)
    requires text == []
    ensures Lines(text) == []
  {
  }

  /** The entry being read: its slice, whether a break inside it has a carriage return,
      and whether the break after its last line has. */
  datatype Current = Current(start: nat, end: nat, crlf: bool, lastCrlf: bool)

  /** The slice stands for the entry. */
  ghost predicate Tracks(captured: string, pos: nat, c: Current, entry: string) {
    && c.start <= c.end <= pos <= |captured|
    && var text := captured[c.start..c.end];
    && Join(Lines(text)) == entry && (!c.crlf ==> text == entry)
    && SeverityOf(text) == SeverityOf(entry)
    && (text != [] ==> text[|text| - 1] != '\n')
    && (pos < |captured| ==> captured[c.end..pos] == Break(c.lastCrlf))
    && (pos < |captured| && text != [] && text[|text| - 1] == '\r' ==> c.lastCrlf)
  }

  lemma StartEntry(captured: string, pos: nat, line: string, crlf: bool, next: nat)
    requires LineAt(captured, pos, line, crlf, next)
    ensures Tracks(captured, next, Current(pos, pos + |line|, false, crlf), line)
  {
    hide SeverityOf;
    if line == [] {
      NoLines(line);
    } else {
      LinesUnbroken(line);
      assert line[|line| - 1] in line;
    }
  }

  lemma JoinSnoc(lines: seq<string>, line: string)
    requires lines != []
    ensures Join(lines + [line]) == Join(lines) + ['\n'] + line
  {
    assert (lines + [line])[..|lines|] == lines;
  }

  /** A continued slice: its lines, its text when no break has a carriage return, and its
      severity. */
  lemma ContinueText(text: string, entry: string, crlf: bool, line: string)
    requires Join(Lines(text)) == entry && SeverityOf(text) == SeverityOf(entry)
    requires line != [] && '\n' !in line
    requires text != [] ==> text[|text| - 1] != '\n' && (text[|text| - 1] == '\r' ==> crlf)
    ensures Join(Lines(text + Break(crlf) + line)) == entry + ['\n'] + line
    ensures SeverityOf(text + Break(crlf) + line) == SeverityOf(entry + ['\n'] + line)
  {
    hide SeverityOf, Lines, Join;
    LinesSnoc(text, crlf, line);
    var lines := if text == [] then [[]] else Lines(text);
    assert lines != [] && Join(lines) == entry by {
      FirstLines(text);
    }
    JoinSnoc(lines, line);
    assert text + Break(crlf) + line == text + (Break(crlf) + line);
    SeverityExtends(text, Break(crlf) + line);
    assert entry + ['\n'] + line == entry + (['\n'] + line);
    SeverityExtends(entry, ['\n'] + line);
  }

  lemma FirstLines(text: string)
    ensures text != [] ==> Lines(text) != []
    ensures text == [] ==> Join(Lines(text)) == Join([[]])
  {
  }

  lemma ContinueEntry(captured: string, pos: nat, c: Current, entry: string, line: string, crlf: bool, next: nat)
    requires Tracks(captured, pos, c, entry)
    requires LineAt(captured, pos, line, crlf, next) && line != []
    ensures Tracks(captured, next, Current(c.start, pos + |line|, c.crlf || c.lastCrlf, crlf), entry + ['\n'] + line)
  {
    hide SeverityOf, Lines, Join, Break;
    var text, text' := captured[c.start..c.end], captured[c.start..pos + |line|];
    ThreeParts(captured, c.start, c.end, pos, pos + |line|);
    assert text' == text + Break(c.lastCrlf) + line;
    ContinueText(text, entry, c.lastCrlf, line);
    assert text'[|text'| - 1] == line[|line| - 1] && line[|line| - 1] in line;
    PlainBreak();
  }

  lemma ThreeParts(text: string, a: nat, b: nat, c: nat, d: nat)
    requires a <= b <= c <= d <= |text|
    ensures text[a..d] == text[a..b] + text[b..c] + text[c..d]
  {
  }

  lemma PlainBreak()
    ensures Break(false) == ['\n']
  {
  }

  /** The emitted slices stand for all entries but the one being read. */
  ghost predicate Emitted(out: seq<(Severity, Entry)>, entries: seq<string>) {
    OwnedAll(out) == if entries == [] then [] else Classified(entries[..|entries| - 1])
  }

  /** Emits the slice if it is an error or a warning. */
  method Emit(captured: string, c: Current, out: seq<(Severity, Entry)>, ghost pos: nat, ghost entries: seq<string>)
    returns (out': seq<(Severity, Entry)>)
    requires entries != [] && Emitted(out, entries) && Tracks(captured, pos, c, entries[|entries| - 1])
    ensures OwnedAll(out') == Classified(entries)
  {
    hide SeverityOf, Lines, Join;
    var text := captured[c.start..c.end];
    var severity := SeverityOf(text);
    out' := out;
    if severity.Some? {
      out' := out + [(severity.value, Entry(text, c.crlf))];
      assert out'[..|out|] == out;
    }
  }

  /** Hands out every error and warning as a slice of the text, in order. */
  method ForEachDiagnostic(captured: string) returns (out: seq<(Severity, Entry)>)
    ensures OwnedAll(out) == Classified(Entries([], Lines(captured)))
    ensures Texts(OwnedAll(out)) == Starting(Entries([], Lines(captured)),
              {"error", "internal compiler error", "warning"})
    ensures forall i :: 0 <= i < |OwnedAll(out)| ==>
              OwnedAll(out)[i].0 == if "warning" <= OwnedAll(out)[i].1 then Warning else Error
  {
    hide SeverityOf, Lines, Join, Tracks, LineAt, OwnedAll, Classified;
    var current: Option<Current> := None;
    var pos := 0;
    ghost var entries: seq<string> := [];
    out := [];
    assert captured[0..] == captured;
    NothingEmitted();
    while pos < |captured|
      invariant pos <= |captured|
      invariant Entries([], Lines(captured)) == Entries(entries, Lines(captured[pos..]))
      invariant Emitted(out, entries) && current.Some? == (entries != [])
      invariant current.Some? ==> Tracks(captured, pos, current.value, entries[|entries| - 1])
    {
      var line, crlf, next := NextLine(captured, pos);
      LineInside(captured, pos, line, crlf, next);
      var end := pos + |line|;
      ghost var entries' := AddLine(entries, line);
      NextEntries(entries, line, Lines(captured[next..]));
      if line != [] && line[0] == ' ' {
        if current.Some? {
          ContinueEntry(captured, pos, current.value, entries[|entries| - 1], line, crlf, next);
          var c := current.value;
          current := Some(Current(c.start, end, c.crlf || c.lastCrlf, crlf));
          assert entries'[..|entries| - 1] == entries[..|entries| - 1];
        }
      } else {
        if current.Some? {
          out := Emit(captured, current.value, out, pos, entries);
        }
        StartEntry(captured, pos, line, crlf, next);
        current := Some(Current(pos, end, false, crlf));
        assert entries'[..|entries|] == entries;
        NothingEmitted();
      }
      entries, pos := entries', next;
    }
    assert captured[pos..] == [];
    NoLines(captured[pos..]);
    if current.Some? {
      out := Emit(captured, current.value, out, pos, entries);
    }
    ClassifiedMeans(Entries([], Lines(captured)));
  }

  lemma NothingEmitted()
    ensures OwnedAll([]) == [] && Classified([]) == []
  {
  }

  lemma LineInside(captured: string, pos: nat, line: string, crlf: bool, next: nat)
    requires LineAt(captured, pos, line, crlf, next)
    ensures pos < next <= |captured|
  {
  }

  lemma NextEntries(entries: seq<string>, line: string, lines: seq<string>)
    ensures Entries(entries, [line] + lines) == Entries(AddLine(entries, line), lines)
  {
    assert ([line] + lines)[1..] == lines;
  }

  /** The errors and the warnings of a text: the slices give exactly the strings that
      grouping its lines gives. */
  method SplitDiagnostics(captured: string) returns (errors: seq<string>, warnings: seq<string>)
    ensures var classified := Classified(Entries([], Lines(captured)));
            errors == Select(classified, Error) && warnings == Select(classified, Warning)
    ensures errors == Starting(Entries([], Lines(captured)), {"error", "internal compiler error"})
    ensures warnings == Starting(Entries([], Lines(captured)), {"warning"})
    ensures WithPrefix(errors, ERROR) == WithPrefix(Entries([], Lines(captured)), ERROR)
  {
    hide SeverityOf, Lines, Join, Classified, Entries, Owned;
    var out := ForEachDiagnostic(captured);
    errors, warnings := [], [];
    for i := 0 to |out|
      invariant errors == Select(OwnedAll(out[..i]), Error) && warnings == Select(OwnedAll(out[..i]), Warning)
    {
      var text := ToOwnedString(out[i].1);
      assert out[..i + 1][..i] == out[..i];
      SelectSnoc(OwnedAll(out[..i]), out[i].0, text);
      if out[i].0 == Error {
        errors := errors + [text];
      } else {
        warnings := warnings + [text];
      }
    }
    assert out[..|out|] == out;
    SplittersAgree(Entries([], Lines(captured)));
    ClassifiedMeans(Entries([], Lines(captured)));
  }

  lemma SelectSnoc(classified: seq<(Severity, string)>, severity: Severity, text: string)
    ensures Select(classified + [(severity, text)], severity) == Select(classified, severity) + [text]
    ensures forall other :: other != severity ==>
              Select(classified + [(severity, text)], other) == Select(classified, other)
  {
    assert (classified + [(severity, text)])[..|classified|] == classified;
  }

  /** The line-based form: it keeps only entries that start with `error`. */
  method ErrorEntries(text: string) returns (entries: seq<string>)
    ensures entries == WithPrefix(Entries([], Lines(text)), "error")
  {
    hide Lines, SeverityOf;
    var lines := Lines(text);
    var all: seq<string> := [];
    for i := 0 to |lines|
      invariant Entries([], lines) == Entries(all, lines[i..])
    {
      var line := lines[i];
      if line != [] && line[0] == ' ' {
        if all != [] {
          all := all[|all| - 1 := all[|all| - 1] + ['\n'] + line];
        }
      } else {
        all := all + [line];
      }
      assert lines[i..][1..] == lines[i + 1..];
    }
    entries := [];
    for i := 0 to |all|
      invariant entries == WithPrefix(all[..i], ERROR)
    {
      assert all[..i + 1][..i] == all[..i];
      if ERROR <= all[i] {
        entries := entries + [all[i]];
      }
    }
    assert all[..|all|] == all;
  }

  /** The two splitters agree: the line-based list is the error list of the other one
      without the internal compiler errors. */
  lemma {:induction false} SplittersAgree(entries: seq<string>)
    ensures WithPrefix(Select(Classified(entries), Error), ERROR) == WithPrefix(entries, ERROR)
  {
    if entries != [] {
      var last := |entries| - 1;
      SplittersAgree(entries[..last]);
      var before, severity := Classified(entries[..last]), SeverityOf(entries[last]);
      match severity {
        case None =>
          assert Classified(entries) == before + [] == before;
        case Some(s) =>
          assert Classified(entries) == before + [(s, entries[last])];
          SelectSnoc(before, s, entries[last]);
          PrefixSnoc(Select(before, Error), entries[last], ERROR);
      }
    }
  }

  lemma PrefixSnoc(entries: seq<string>, entry: string, prefix: string)
    ensures WithPrefix(entries + [entry], prefix) ==
            WithPrefix(entries, prefix) + if prefix <= entry then [entry] else []
  {
    assert (entries + [entry])[..|entries|] == entries;
  }

  // ----- writing diagnostics -----

  /** The lines of one diagnostic: a first line without leading space, then lines with. */
  ghost predicate IsDiagnostic(lines: seq<string>) {
    && lines != [] && (lines[0] != [] ==> lines[0][0] != ' ')
    && (forall i :: 1 <= i < |lines| ==> lines[i] != [] && lines[i][0] == ' ')
    && (forall i :: 0 <= i < |lines| ==> IsLine(lines[i]))
  }

  /** A line without breaks, and without the half of one at its end. */
  ghost predicate IsLine(line: string) {
    '\n' !in line && (line != [] ==> line[|line| - 1] != '\r')
  }

  /** Every line with a break of its own kind. */
  function Written(lines: seq<string>, crlf: nat -> bool): string {
    if lines == [] then []
    else
      var last := |lines| - 1;
      Written(lines[..last], crlf) + lines[last] + if crlf(last) then "\r\n" else "\n"
  }

  /** The lines of a diagnostic as one string. */
  function Glued(lines: seq<string>): string {
    if lines == [] then [] else if |lines| == 1 then lines[0] else lines[0] + "\n" + Glued(lines[1..])
  }

  function AllGlued(diagnostics: seq<seq<string>>): seq<string> {
    if diagnostics == [] then []
    else AllGlued(diagnostics[..|diagnostics| - 1]) + [Glued(diagnostics[|diagnostics| - 1])]
  }

  function Concat(diagnostics: seq<seq<string>>): seq<string> {
    if diagnostics == [] then [] else Concat(diagnostics[..|diagnostics| - 1]) + diagnostics[|diagnostics| - 1]
  }

  /** Reading back what was written gives the lines, whatever the breaks. */
  lemma {:induction false} WrittenLines(lines: seq<string>, crlf: nat -> bool, more: string)
    requires forall i :: 0 <= i < |lines| ==> IsLine(lines[i])
    ensures Lines(Written(lines, crlf) + more) == lines + Lines(more)
    decreases |lines|
  {
    hide Lines, StripReturn;
    if lines == [] {
      assert Written(lines, crlf) + more == more;
    } else {
      var last := |lines| - 1;
      var end := if crlf(last) then "\r\n" else "\n";
      var rest := lines[last] + end + more;
      assert Written(lines, crlf) + more == Written(lines[..last], crlf) + rest;
      WrittenLines(lines[..last], crlf, rest);
      OneWritten(lines[last], crlf(last), more);
      assert lines == lines[..last] + [lines[last]];
    }
  }

  lemma OneWritten(line: string, crlf: bool, more: string)
    requires IsLine(line)
    ensures Lines(line + (if crlf then "\r\n" else "\n") + more) == [line] + Lines(more)
  {
    hide Lines;
    var head := if crlf then line + "\r" else line;
    var text := line + (if crlf then "\r\n" else "\n") + more;
    assert text == head + "\n" + more;
    assert text[..|head|] == head && text[|head| + 1..] == more;
    assert '\n' !in head;
    LinesBroken(text, |head|);
    assert crlf ==> head[..|head| - 1] == line;
  }

  /** Grouping the lines of diagnostics gives the diagnostics. */
  lemma {:induction false} Grouped(entries: seq<string>, diagnostics: seq<seq<string>>)
    requires forall i :: 0 <= i < |diagnostics| ==> IsDiagnostic(diagnostics[i])
    ensures Entries(entries, Concat(diagnostics)) == entries + AllGlued(diagnostics)
    decreases |diagnostics|
  {
    hide IsLine, AddLine;
    if diagnostics == [] {
      assert entries + [] == entries;
    } else {
      var n := |diagnostics| - 1;
      var before, last := diagnostics[..n], diagnostics[n];
      Grouped(entries, before);
      EntriesConcat(entries, Concat(before), last);
      OneGroup(Entries(entries, Concat(before)), last);
    }
  }

  lemma {:induction false} EntriesConcat(entries: seq<string>, a: seq<string>, b: seq<string>)
    ensures Entries(entries, a + b) == Entries(Entries(entries, a), b)
    decreases |a|
  {
    if a == [] {
      assert a + b == b;
    } else {
      assert (a + b)[1..] == a[1..] + b;
      EntriesConcat(AddLine(entries, a[0]), a[1..], b);
    }
  }

  lemma OneGroup(entries: seq<string>, lines: seq<string>)
    requires IsDiagnostic(lines)
    ensures Entries(entries, lines) == entries + [Glued(lines)]
  {
    hide IsLine;
    assert Entries(entries, lines) == Entries(entries + [lines[0]], lines[1..]);
    Continued(entries, lines[0], lines[1..]);
  }

  lemma {:induction false} Continued(entries: seq<string>, entry: string, lines: seq<string>)
    requires forall i :: 0 <= i < |lines| ==> lines[i] != [] && lines[i][0] == ' '
    ensures Entries(entries + [entry], lines) == entries + [Glued([entry] + lines)]
    decreases |lines|
  {
    if lines == [] {
      assert [entry] + lines == [entry];
    } else {
      var more := entry + "\n" + lines[0];
      assert (entries + [entry])[|entries| := more] == entries + [more];
      Continued(entries, more, lines[1..]);
      GluedAgain(entry, lines);
    }
  }

  lemma {:induction false} GluedAgain(entry: string, lines: seq<string>)
    requires lines != []
    ensures Glued([entry + "\n" + lines[0]] + lines[1..]) == Glued([entry] + lines)
  {
    assert ([entry] + lines)[1..] == lines;
    if |lines| == 1 {
      assert [entry + "\n" + lines[0]] + lines[1..] == [entry + "\n" + lines[0]];
    } else {
      assert ([entry + "\n" + lines[0]] + lines[1..])[1..] == lines[1..];
      var rest := Glued(lines[1..]);
      assert entry + "\n" + lines[0] + "\n" + rest == entry + "\n" + (lines[0] + "\n" + rest);
    }
  }

  /** Diagnostics that were written out, with any mix of breaks, come back: the errors and
      internal compiler errors in order, and the warnings in order. */
  method SplitWritten(diagnostics: seq<seq<string>>, crlf: nat -> bool)
    returns (errors: seq<string>, warnings: seq<string>)
    requires forall i :: 0 <= i < |diagnostics| ==> IsDiagnostic(diagnostics[i])
    ensures errors == Starting(AllGlued(diagnostics), {"error", "internal compiler error"})
    ensures warnings == Starting(AllGlued(diagnostics), {"warning"})
  {
    hide Lines, Entries, IsDiagnostic, Starting;
    var lines := Concat(diagnostics);
    ConcatLines(diagnostics);
    WrittenLines(lines, crlf, []);
    NoLines([]);
    assert Written(lines, crlf) + [] == Written(lines, crlf) && lines + [] == lines;
    Grouped([], diagnostics);
    assert [] + AllGlued(diagnostics) == AllGlued(diagnostics);
    errors, warnings := SplitDiagnostics(Written(lines, crlf));
  }

  lemma {:induction false} ConcatLines(diagnostics: seq<seq<string>>)
    requires forall i :: 0 <= i < |diagnostics| ==> IsDiagnostic(diagnostics[i])
    ensures forall i :: 0 <= i < |Concat(diagnostics)| ==> IsLine(Concat(diagnostics)[i])
  {
    hide IsLine;
    if diagnostics != [] {
      ConcatLines(diagnostics[..|diagnostics| - 1]);
    }
  }
}
