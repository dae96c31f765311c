/** Numbers, escapes and string literals of the template language
    (frontend_diag_template/src/lib.rs:325-361, 608-640, 717-776). */
module TemplateLexis {
  import opened Options
  import opened Template

  const I64_MIN := -0x8000_0000_0000_0000
  const I64_MAX := 0x7FFF_FFFF_FFFF_FFFF

  predicate IsDigit(c: char) { '0' <= c <= '9' }

  predicate IsAlphabetic(c: char) { 'a' <= c <= 'z' || 'A' <= c <= 'Z' }

  predicate IsHexDigit(c: char) { IsDigit(c) || 'a' <= c <= 'f' || 'A' <= c <= 'F' }

  predicate IsNameChar(c: char) { IsAlphabetic(c) || IsDigit(c) || c == '-' || c == '_' }

  function HexValue(s: string): (n: nat)
    requires forall i :: 0 <= i < |s| ==> IsHexDigit(s[i])
  {
    if s == "" then 0
    else
      var c := s[|s| - 1];
      assert IsHexDigit(c);
      16 * HexValue(s[..|s| - 1]) + if IsDigit(c) then c as int - '0' as int
                                    else if 'a' <= c <= 'f' then c as int - 'a' as int + 10
                                    else c as int - 'A' as int + 10
  }

  /** Where the digits from `p` on end. */
  function DigitsEnd(s: string, p: nat): (n: nat)
    requires p <= |s|
    ensures p <= n <= |s| && (n < |s| ==> !IsDigit(s[n]))
    ensures forall i :: p <= i < n ==> IsDigit(s[i])
    decreases |s| - p
  {
    if p < |s| && IsDigit(s[p]) then DigitsEnd(s, p + 1) else p
  }

  function DecimalValue(s: string): (n: nat)
    requires forall i :: 0 <= i < |s| ==> IsDigit(s[i])
  {
    if s == "" then 0
    else
      assert IsDigit(s[|s| - 1]);
      10 * DecimalValue(s[..|s| - 1]) + (s[|s| - 1] as int - '0' as int)
  }

  /** The number the digits from `p` on stand for. */
  function NumberFrom(s: string, p: nat, negative: bool): int
    requires p <= |s|
  {
    var digits := s[p..DigitsEnd(s, p)];
    assert forall i :: 0 <= i < |digits| ==> digits[i] == s[p + i];
    var magnitude: int := DecimalValue(digits);
    if negative then -magnitude else magnitude
  }

  /** `s` is a number literal for `n`. */
  ghost predicate IsNumber(s: string, n: int) {
    || (s != "" && (forall i :: 0 <= i < |s| ==> IsDigit(s[i])) && n == DecimalValue(s))
    || (|s| > 1 && s[0] == '-' && (forall i :: 0 <= i < |s[1..]| ==> IsDigit(s[1..][i]))
        && n == 0 - DecimalValue(s[1..]))
  }

  /** What the renderer prints for a number is a literal for it. */
  lemma {:induction false} DecimalRoundTrip(n: int)
    ensures IsNumber(Decimal(n), n)
  {
    var magnitude := if n < 0 then -n else n;
    DecimalIsDigits(magnitude);
    DecimalReads(magnitude);
    if n < 0 {
      assert Decimal(n)[0] == '-' && Decimal(n)[1..] == Decimal(magnitude);
    }
  }

  lemma {:induction false} DecimalReads(n: nat)
    requires forall i :: 0 <= i < |Decimal(n)| ==> IsDigit(Decimal(n)[i])
    ensures DecimalValue(Decimal(n)) == n
  {
    if n >= 10 {
      DecimalIsDigits(n / 10);
      DecimalReads(n / 10);
      var s := Decimal(n);
      assert s[..|s| - 1] == Decimal(n / 10);
    }
  }

  lemma {:induction false} DecimalIsDigits(n: nat)
    ensures Decimal(n) != "" && forall i :: 0 <= i < |Decimal(n)| ==> IsDigit(Decimal(n)[i])
  {
    if n >= 10 {
      DecimalIsDigits(n / 10);
    }
  }

  // ----- escapes -----

  const UNKNOWN := '\U{FFFD}'

  /** How long the escape at the start of `s` is: `\\`, `\"`, `\uXXXX` or `\UXXXXXX`.
      Zero when there is none, or not a whole one. */
  function EscapeLength(s: string): (n: nat)
    ensures n <= |s| && n != 1
  {
    if |s| < 2 || s[0] != '\\' then 0
    else if s[1] == '\\' || s[1] == '"' then 2
    else
      var n := if s[1] == 'u' then 6 else if s[1] == 'U' then 8 else 0;
      if n <= |s| && forall i :: 2 <= i < n ==> IsHexDigit(s[i]) then n else 0
  }

  /** Every backslash starts a whole escape. */
  predicate WellEscaped(s: string)
    decreases |s|
  {
    if s == "" then true
    else if s[0] != '\\' then WellEscaped(s[1..])
    else EscapeLength(s) > 0 && WellEscaped(s[EscapeLength(s)..])
  }

  /** The character an escape stands for: U+FFFD when the number is not a character. */
  function EscapedChar(s: string): char
    requires EscapeLength(s) > 0
  {
    if s[1] == '\\' || s[1] == '"' then s[1]
    else
      var n := HexValue(s[2..EscapeLength(s)]);
      if n < 0xD800 || 0xE000 <= n < 0x11_0000 then n as char else UNKNOWN
  }

  /** The meaning of an escaped text. */
  function Unescaped(s: string): string
    requires WellEscaped(s)
    decreases |s|
  {
    if s == "" then ""
    else if s[0] != '\\' then [s[0]] + Unescaped(s[1..])
    else [EscapedChar(s)] + Unescaped(s[EscapeLength(s)..])
  }

  /** Quoting a text for a string literal. */
  function Escaped(s: string): string {
    if s == "" then ""
    else (if s[0] == '\\' || s[0] == '"' then ['\\', s[0]] else [s[0]]) + Escaped(s[1..])
  }

  /** Every text can be written as a literal and read back. */
  lemma {:induction false} EscapeRoundTrip(s: string)
    ensures WellEscaped(Escaped(s)) && Unescaped(Escaped(s)) == s
  {
    if s != "" {
      EscapeRoundTrip(s[1..]);
      var rest := Escaped(s[1..]);
      if s[0] == '\\' || s[0] == '"' {
        assert Escaped(s)[2..] == rest;
      } else {
        assert Escaped(s)[1..] == rest;
      }
    }
  }

  lemma {:induction false} PlainRun(a: string, b: string)
    requires '\\' !in a
    ensures WellEscaped(a + b) <==> WellEscaped(b)
    ensures WellEscaped(b) ==> Unescaped(a + b) == a + Unescaped(b)
  {
    hide EscapeLength, EscapedChar;
    if a == "" {
      assert a + b == b;
    } else {
      assert (a + b)[0] == a[0] && a[0] != '\\' && (a + b)[1..] == a[1..] + b;
      PlainRun(a[1..], b);
      assert WellEscaped(b) ==> [a[0]] + (a[1..] + Unescaped(b)) == a + Unescaped(b);
    }
  }

  /** Whole escapes can be put one after the other. */
  lemma {:induction false} WellEscapedConcat(a: string, b: string)
    requires WellEscaped(a) && WellEscaped(b)
    ensures WellEscaped(a + b)
    decreases |a|
  {
    if a == "" {
      assert a + b == b;
    } else if a[0] != '\\' {
      assert (a + b)[1..] == a[1..] + b;
      WellEscapedConcat(a[1..], b);
    } else {
      var n := EscapeLength(a);
      assert EscapeLength(a + b) == n by {
        assert forall i :: 0 <= i < n ==> (a + b)[i] == a[i];
      }
      assert (a + b)[n..] == a[n..] + b;
      WellEscapedConcat(a[n..], b);
    }
  }

  lemma {:induction false} CopyRun(input: string, start: nat, ptr: nat, out: string, whole: string)
    requires start <= ptr <= |input| && '\\' !in input[start..ptr]
    requires WellEscaped(input[start..]) && out + Unescaped(input[start..]) == whole
    ensures WellEscaped(input[ptr..]) && (out + input[start..ptr]) + Unescaped(input[ptr..]) == whole
  {
    var run, rest := input[start..ptr], input[ptr..];
    assert input[start..] == run + rest;
    PlainRun(run, rest);
    assert out + (run + Unescaped(rest)) == (out + run) + Unescaped(rest);
  }

  lemma {:induction false} TakeEscape(input: string, ptr: nat, out: string, whole: string)
    requires ptr < |input| && input[ptr] == '\\'
    requires WellEscaped(input[ptr..]) && out + Unescaped(input[ptr..]) == whole
    ensures var n := EscapeLength(input[ptr..]);
            n > 0 && WellEscaped(input[ptr + n..])
                && (out + [EscapedChar(input[ptr..])]) + Unescaped(input[ptr + n..]) == whole
  {
    var rest := input[ptr..];
    var n := EscapeLength(rest);
    assert rest[n..] == input[ptr + n..];
    var c, tail := [EscapedChar(rest)], Unescaped(rest[n..]);
    assert out + (c + tail) == (out + c) + tail;
  }

  lemma {:induction false} NothingEscaped()
    ensures WellEscaped("") && Unescaped("") == ""
  {
  }

  /** `unescape`: copies the plain runs between the escapes. */
  method Unescape(input: string) returns (out: string)
    requires WellEscaped(input)
    ensures out == Unescaped(input)
  {
    hide EscapedChar, WellEscaped, Unescaped;
    out := "";
    var start: nat, ptr: nat := 0, 0;
    ghost var whole := Unescaped(input);
    assert input[0..] == input;
    while ptr < |input|
      invariant start <= ptr <= |input|
      invariant '\\' !in input[start..ptr]
      invariant WellEscaped(input[start..]) && out + Unescaped(input[start..]) == whole
    {
      if input[ptr] != '\\' {
        assert input[start..ptr + 1] == input[start..ptr] + [input[ptr]];
        ptr := ptr + 1;
      } else {
        CopyRun(input, start, ptr, out, whole);
        out := out + input[start..ptr];
        TakeEscape(input, ptr, out, whole);
        var n := EscapeLength(input[ptr..]);
        out := out + [EscapedChar(input[ptr..])];
        ptr := ptr + n;
        start := ptr;
      }
    }
    CopyRun(input, start, ptr, out, whole);
    assert input[start..ptr] == input[start..] && input[ptr..] == "";
    NothingEscaped();
    out := out + input[start..];
  }

  // ----- string literals -----

  /** Where a string literal closes; `None` when it does not, or holds a broken escape. */
  function CloseQuote(s: string, p: nat): (r: Option<nat>)
    requires p <= |s|
    ensures r.Some? ==> p <= r.value < |s| && s[r.value] == '"' && WellEscaped(s[p..r.value])
    decreases |s| - p
  {
    if p == |s| || s[p] == '\n' then None
    else if s[p] == '"' then
      assert s[p..p] == "";
      Some(p)
    else if s[p] == '\\' then
      var n := EscapeLength(s[p..]);
      if n == 0 then None
      else
        OneEscape(s, p, n);
        var r := CloseQuote(s, p + n);
        assert r.Some? ==> WellEscaped(s[p..r.value]) by {
          if r.Some? {
            WellEscapedConcat(s[p..p + n], s[p + n..r.value]);
            SlicesJoin(s, p, p + n, r.value);
          }
        }
        r
    else
      OnePlain(s, p);
      var r := CloseQuote(s, p + 1);
      assert r.Some? ==> WellEscaped(s[p..r.value]) by {
        if r.Some? {
          WellEscapedConcat(s[p..p + 1], s[p + 1..r.value]);
          SlicesJoin(s, p, p + 1, r.value);
        }
      }
      r
  }

  lemma {:induction false} QuoteStep(s: string, p: nat)
    requires p <= |s|
    ensures CloseQuote(s, p) ==
      if p == |s| || s[p] == '\n' then None
      else if s[p] == '"' then Some(p)
      else if s[p] != '\\' then CloseQuote(s, p + 1)
      else if EscapeLength(s[p..]) == 0 then None
      else CloseQuote(s, p + EscapeLength(s[p..]))
  {
    hide EscapeLength, WellEscaped;
  }

  lemma SlicesJoin(s: string, a: nat, b: nat, c: nat)
    requires a <= b <= c <= |s|
    ensures s[a..c] == s[a..b] + s[b..c]
  {
  }

  lemma {:induction false} OneEscape(s: string, p: nat, n: nat)
    requires p < |s| && s[p] == '\\' && n == EscapeLength(s[p..]) > 0
    ensures WellEscaped(s[p..p + n])
  {
    var e := s[p..p + n];
    assert forall i :: 0 <= i < n ==> e[i] == s[p..][i];
    assert EscapeLength(e) == n;
    assert e[n..] == "";
  }

  lemma {:induction false} OnePlain(s: string, p: nat)
    requires p < |s| && s[p] != '\\'
    ensures WellEscaped(s[p..p + 1])
  {
    assert s[p..p + 1][1..] == "";
  }

  /** A quoted text is a literal for it: the scan stops at its own closing quote. */
  lemma {:induction false} QuotedTextCloses(before: string, t: string, after: string)
    requires '\n' !in t
    ensures CloseQuote(before + Escaped(t) + "\"" + after, |before|) == Some(|before| + |Escaped(t)|)
    decreases |t|
  {
    var s := before + Escaped(t) + "\"" + after;
    if t == "" {
      assert s[|before|] == '"';
    } else {
      var head := if t[0] == '\\' || t[0] == '"' then ['\\', t[0]] else [t[0]];
      assert t[0] in t && forall c :: c in t[1..] ==> c in t;
      assert s == (before + head) + Escaped(t[1..]) + "\"" + after;
      QuotedTextCloses(before + head, t[1..], after);
      assert s[|before|] == head[0];
      if |head| == 2 {
        assert s[|before|..][0] == '\\' && s[|before|..][1] == t[0];
      }
    }
  }
}
