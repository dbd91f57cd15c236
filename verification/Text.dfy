/**
 The C text routines that the file formats use: `getline`, the `sscanf` formats of the two parsers,
 `%d` printing and `strtol`/`atoi`. Strings hold no NUL.
 */
module Text {
  import opened CTypes
  import opened Options

  const LONG_MIN := -0x8000_0000_0000_0000
  const LONG_MAX := 0x7fff_ffff_ffff_ffff

  predicate IsSpace(c: char) {
    c == ' ' || '\t' <= c <= '\r'
  }

  predicate IsDigit(c: char) {
    '0' <= c <= '9'
  }

  function SkipSpace(s: string): string {
    if s != "" && IsSpace(s[0]) then SkipSpace(s[1..]) else s
  }

  /** How far the leading characters that satisfy `p` reach. */
  function Span(s: string, p: char -> bool): (n: nat)
    ensures n <= |s|
    ensures forall i :: 0 <= i < n ==> p(s[i])
    ensures n < |s| ==> !p(s[n])
  {
    if s != "" && p(s[0]) then 1 + Span(s[1..], p) else 0
  }

  lemma {:induction false} SpanIs(s: string, p: char -> bool, n: nat)
    requires n <= |s|
    requires forall i :: 0 <= i < n ==> p(s[i])
    requires n < |s| ==> !p(s[n])
    ensures Span(s, p) == n
  {
    if Span(s, p) < n {
      assert false;
    }
  }

  // ---- lines ----

  /** The lines that repeated `getline` calls return, each with its newline if it has one. */
  function Lines(text: string): seq<string> {
    if text == "" then []
    else
      var n := Span(text, c => c != '\n');
      if n == |text| then [text] else [text[..n + 1]] + Lines(text[n + 1..])
  }

  predicate IsLine(line: string) {
    line != "" && line[|line| - 1] == '\n' && forall i :: 0 <= i < |line| - 1 ==> line[i] != '\n'
  }

  lemma FirstLine(line: string, rest: string)
    requires IsLine(line)
    ensures Lines(line + rest) == [line] + Lines(rest)
  {
    var text, n := line + rest, |line| - 1;
    forall i | 0 <= i < n ensures text[i] != '\n' {
      assert text[i] == line[i];
    }
    assert text[n] == '\n';
    SpanIs(text, c => c != '\n', n);
    assert text[..n + 1] == line && text[n + 1..] == rest;
  }

  function Join(lines: seq<string>): string {
    if lines == [] then "" else lines[0] + Join(lines[1..])
  }

  /** Reading back what was written line by line gives the lines. */
  lemma {:induction false} LinesOfJoin(lines: seq<string>)
    requires forall line :: line in lines ==> IsLine(line)
    ensures Lines(Join(lines)) == lines
  {
    if lines == [] {
    } else {
      FirstLine(lines[0], Join(lines[1..]));
      LinesOfJoin(lines[1..]);
    }
  }

  /** A text that does not end with a newline has one more line, the rest. */
  lemma {:induction false} LinesOfUnended(lines: seq<string>, tail: string)
    requires (forall line :: line in lines ==> IsLine(line)) && tail != "" && '\n' !in tail
    ensures Lines(Join(lines) + tail) == lines + [tail]
  {
    if lines == [] {
      assert Join(lines) + tail == tail;
      SpanIs(tail, c => c != '\n', |tail|);
    } else {
      LinesOfUnended(lines[1..], tail);
      assert Join(lines) + tail == lines[0] + (Join(lines[1..]) + tail);
      FirstLine(lines[0], Join(lines[1..]) + tail);
    }
  }

  lemma Associate(x: string, y: string, z: string)
    ensures (x + y) + z == x + (y + z)
  {
  }

  lemma {:induction false} JoinAppend(a: seq<string>, b: seq<string>)
    ensures Join(a + b) == Join(a) + Join(b)
  {
    if a == [] {
      assert a + b == b;
    } else {
      JoinAppend(a[1..], b);
      assert (a + b)[0] == a[0] && (a + b)[1..] == a[1..] + b;
      Associate(a[0], Join(a[1..]), Join(b));
    }
  }

  // ---- scanf ----

  /** `%ms = `: a token, an equals sign, and what follows once white space is skipped. */
  function ScanKey(line: string): Option<(string, string)> {
    var s := SkipSpace(line);
    var n := Span(s, c => !IsSpace(c));
    var afterKey := SkipSpace(s[n..]);
    if n == 0 || afterKey == "" || afterKey[0] != '=' then None
    else Some((s[..n], SkipSpace(afterKey[1..])))
  }

  /** `sscanf(line, "%ms = %ms") == 2` */
  function ScanTokens(line: string): Option<(string, string)> {
    match ScanKey(line)
    case None => None
    case Some((key, rest)) =>
      var n := Span(rest, c => !IsSpace(c));
      if n == 0 then None else Some((key, rest[..n]))
  }

  /** `sscanf(line, "%ms = %m[^\n]") == 2` */
  function ScanToEnd(line: string): Option<(string, string)> {
    match ScanKey(line)
    case None => None
    case Some((key, rest)) =>
      var n := Span(rest, c => c != '\n');
      if n == 0 then None else Some((key, rest[..n]))
  }

  predicate IsToken(s: string) {
    s != "" && forall i :: 0 <= i < |s| ==> !IsSpace(s[i])
  }

  function SettingLine(key: string, value: string): string {
    key + " = " + value + "\n"
  }

  lemma KeyOfSetting(key: string, rest: string)
    requires IsToken(key) && rest != "" && IsSpace(rest[0])
    ensures SkipSpace(key + rest) == key + rest
    ensures Span(key + rest, c => !IsSpace(c)) == |key|
  {
    var line := key + rest;
    assert line[0] == key[0];
    assert forall i :: 0 <= i < |key| ==> line[i] == key[i];
    assert line[|key|] == rest[0];
    SpanIs(line, c => !IsSpace(c), |key|);
  }

  lemma SpaceThenEquals(tail: string)
    ensures SkipSpace(" = " + tail) == "= " + tail
    ensures ("= " + tail)[0] == '=' && SkipSpace(("= " + tail)[1..]) == SkipSpace(tail)
  {
    assert (" = " + tail)[1..] == "= " + tail;
    assert ("= " + tail)[1..] == " " + tail;
    assert (" " + tail)[1..] == tail;
  }

  lemma ScanKeyOfSetting(key: string, value: string)
    requires IsToken(key)
    ensures ScanKey(SettingLine(key, value)) == Some((key, SkipSpace(value + "\n")))
  {
    var rest := " = " + (value + "\n");
    assert SettingLine(key, value) == key + rest;
    KeyOfSetting(key, rest);
    SpaceThenEquals(value + "\n");
    assert (key + rest)[|key|..] == rest && (key + rest)[..|key|] == key;
  }

  lemma ScanTokensOfSetting(key: string, value: string)
    requires IsToken(key) && IsToken(value)
    ensures ScanTokens(SettingLine(key, value)) == Some((key, value))
  {
    ScanKeyOfSetting(key, value);
    var rest := value + "\n";
    assert rest[0] == value[0];
    SpanIs(rest, c => !IsSpace(c), |value|);
    assert rest[..|value|] == value;
  }

  /** A value that a line of a configuration file can carry unchanged. */
  predicate LineValue(value: string) {
    value != "" && !IsSpace(value[0]) && forall i :: 0 <= i < |value| ==> value[i] != '\n'
  }

  lemma ScanToEndOfSetting(key: string, value: string)
    requires IsToken(key) && LineValue(value)
    ensures ScanToEnd(SettingLine(key, value)) == Some((key, value))
  {
    ScanKeyOfSetting(key, value);
    var rest := value + "\n";
    assert rest[0] == value[0];
    SpanIs(rest, c => c != '\n', |value|);
    assert rest[..|value|] == value;
  }

  /** Whatever line the value of a configuration line is read from, it is such a value. */
  lemma ScannedIsLineValue(line: string)
    requires ScanToEnd(line).Some?
    ensures LineValue(ScanToEnd(line).value.1)
  {
    var s := SkipSpace(line);
    var n := Span(s, c => !IsSpace(c));
    SkipSpaceStops(SkipSpace(s[n..])[1..]);
  }

  /** And whatever line two words are read from, they are words. */
  lemma ScannedAreTokens(line: string)
    ensures ScanKey(line).Some? ==> IsToken(ScanKey(line).value.0)
    ensures ScanTokens(line).Some? ==> IsToken(ScanTokens(line).value.0) && IsToken(ScanTokens(line).value.1)
  {
  }

  lemma {:induction false} SkipSpaceStops(s: string)
    ensures SkipSpace(s) == "" || !IsSpace(SkipSpace(s)[0])
  {
    if s != "" && IsSpace(s[0]) {
      SkipSpaceStops(s[1..]);
    }
  }

  lemma SettingIsLine(key: string, value: string)
    requires IsToken(key) && forall i :: 0 <= i < |value| ==> value[i] != '\n'
    ensures IsLine(SettingLine(key, value))
  {
    var line := SettingLine(key, value);
    forall i | 0 <= i < |line| - 1 ensures line[i] != '\n' {
      if i < |key| {
        assert line[i] == key[i] && !IsSpace(key[i]);
      } else if i < |key| + 3 {
        assert line[i] == " = "[i - |key|];
      } else {
        assert line[i] == value[i - |key| - 3];
      }
    }
  }

  // ---- lines that are spaced differently ----

  lemma SpacesAre(c: char)
    ensures IsSpace(c) <==> c as int in {9, 10, 11, 12, 13, 32}
  {
  }

  predicate IsBlank(s: string) {
    forall i :: 0 <= i < |s| ==> IsSpace(s[i])
  }

  lemma {:induction false} SkipBlank(blank: string, rest: string)
    requires IsBlank(blank) && (rest == "" || !IsSpace(rest[0]))
    ensures SkipSpace(blank + rest) == rest
  {
    if blank == "" {
      assert blank + rest == rest;
    } else {
      assert (blank + rest)[1..] == blank[1..] + rest;
      SkipBlank(blank[1..], rest);
    }
  }

  lemma SpanOfToken(token: string, rest: string)
    requires IsToken(token) && (rest == "" || IsSpace(rest[0]))
    ensures Span(token + rest, c => !IsSpace(c)) == |token|
    ensures (token + rest)[..|token|] == token && (token + rest)[|token|..] == rest
  {
    assert forall i :: 0 <= i < |token| ==> (token + rest)[i] == token[i];
    assert rest != "" ==> (token + rest)[|token|] == rest[0];
    SpanIs(token + rest, c => !IsSpace(c), |token|);
  }

  /** White space may stand before the key and on both sides of the equals sign; before that it has to. */
  lemma ScanKeySpaced(a: string, key: string, b: string, c: string, rest: string)
    requires IsBlank(a) && IsBlank(b) && IsBlank(c) && b != "" && IsToken(key)
    requires rest == "" || !IsSpace(rest[0])
    ensures ScanKey(a + (key + (b + ("=" + (c + rest))))) == Some((key, rest))
  {
    var equals := "=" + (c + rest);
    assert (key + (b + equals))[0] == key[0] && equals[0] == '=' && equals[1..] == c + rest;
    SkipBlank(a, key + (b + equals));
    assert (b + equals)[0] == b[0];
    SpanOfToken(key, b + equals);
    SkipBlank(b, equals);
    SkipBlank(c, rest);
  }

  /** So both kinds of files are read alike, however they are spaced, with what comes after a word left alone. */
  lemma ScanSpaced(a: string, key: string, b: string, c: string, value: string, rest: string)
    requires IsBlank(a) && IsBlank(b) && IsBlank(c) && b != "" && IsToken(key)
    ensures IsToken(value) && (rest == "" || IsSpace(rest[0])) ==>
      ScanTokens(a + (key + (b + ("=" + (c + (value + rest)))))) == Some((key, value))
    ensures LineValue(value) && (rest == "" || rest[0] == '\n') ==>
      ScanToEnd(a + (key + (b + ("=" + (c + (value + rest)))))) == Some((key, value))
  {
    if value != "" && !IsSpace(value[0]) {
      assert (value + rest)[0] == value[0];
      ScanKeySpaced(a, key, b, c, value + rest);
      if IsToken(value) && (rest == "" || IsSpace(rest[0])) {
        SpanOfToken(value, rest);
      }
      if LineValue(value) && (rest == "" || rest[0] == '\n') {
        assert forall i :: 0 <= i < |value| ==> (value + rest)[i] == value[i];
        assert rest != "" ==> (value + rest)[|value|] == rest[0];
        SpanIs(value + rest, ch => ch != '\n', |value|);
        assert (value + rest)[..|value|] == value;
      }
    }
  }

  /** A line whose first word is not followed by an equals sign is not read; `key=value` is one word. */
  lemma WordAloneIsNotRead(a: string, word: string, b: string, rest: string)
    requires IsBlank(a) && IsBlank(b) && IsToken(word)
    requires rest == "" || (b != "" && !IsSpace(rest[0]) && rest[0] != '=')
    ensures ScanKey(a + (word + (b + rest))).None?
  {
    assert (word + (b + rest))[0] == word[0];
    SkipBlank(a, word + (b + rest));
    if b == "" {
      assert b + rest == "";
    } else {
      assert (b + rest)[0] == b[0];
    }
    SpanOfToken(word, b + rest);
    SkipBlank(b, rest);
  }

  // ---- decimal numbers ----

  function DigitChar(d: nat): char
    requires d < 10
  {
    '0' + d as char
  }

  function Digits(n: nat): string {
    if n < 10 then [DigitChar(n)] else Digits(n / 10) + [DigitChar(n % 10)]
  }

  /** `%d`, and `%hd` for a short */
  function PrintInt(n: int): string {
    if n < 0 then "-" + Digits(-n) else Digits(n)
  }

  function DigitsValue(s: string): nat
    requires forall i :: 0 <= i < |s| ==> IsDigit(s[i])
  {
    if s == "" then 0
    else
      assert IsDigit(s[|s| - 1]);
      DigitsValue(s[..|s| - 1]) * 10 + (s[|s| - 1] - '0') as int
  }

  function LeadingValue(s: string): nat {
    DigitsValue(s[..Span(s, IsDigit)])
  }

  /** `strtol(s, NULL, 10)`, saturating at the range of a long */
  function Strtol(s: string): int {
    var t := SkipSpace(s);
    var v: int := if t != "" && t[0] == '-' then -(LeadingValue(t[1..]) as int)
             else if t != "" && t[0] == '+' then LeadingValue(t[1..])
             else LeadingValue(t);
    if v < LONG_MIN then LONG_MIN else if v > LONG_MAX then LONG_MAX else v
  }

  function Atoi(s: string): int32 {
    ToInt(Strtol(s))
  }

  /** The digits are those of the decimal system. */
  lemma DigitsAreDecimal(d: nat)
    requires d < 10
    ensures DigitChar(d) == "0123456789"[d]
    ensures IsDigit("0123456789"[d]) && DigitsValue(["0123456789"[d]]) == d
  {
    var s := ["0123456789"[d]];
    assert s[..|s| - 1] == "";
  }

  function Pow10(n: nat): nat {
    if n == 0 then 1 else 10 * Pow10(n - 1)
  }

  /** Every digit counts ten times as much as the one after it. */
  lemma {:induction false} DigitsArePositional(s: string, t: string)
    requires forall i :: 0 <= i < |s + t| ==> IsDigit((s + t)[i])
    ensures (forall i :: 0 <= i < |s| ==> IsDigit(s[i])) && (forall i :: 0 <= i < |t| ==> IsDigit(t[i]))
    ensures DigitsValue(s + t) == DigitsValue(s) * Pow10(|t|) + DigitsValue(t)
  {
    assert forall i :: 0 <= i < |s| ==> s[i] == (s + t)[i];
    assert forall i :: 0 <= i < |t| ==> t[i] == (s + t)[|s| + i];
    if t == "" {
      assert s + t == s;
    } else {
      var front := t[..|t| - 1];
      assert (s + t)[..|s + t| - 1] == s + front;
      DigitsArePositional(s, front);
      ShiftDigits(DigitsValue(s), Pow10(|front|), DigitsValue(front));
      assert Pow10(|t|) == 10 * Pow10(|front|);
    }
  }

  lemma ShiftDigits(a: nat, p: nat, b: nat)
    ensures (a * p + b) * 10 == a * (10 * p) + b * 10
  {
  }

  lemma {:induction false} DigitsRoundTrip(n: nat)
    ensures Digits(n) != ""
    ensures forall i :: 0 <= i < |Digits(n)| ==> IsDigit(Digits(n)[i])
    ensures DigitsValue(Digits(n)) == n
  {
    if n < 10 {
      assert Digits(n)[..0] == "";
    } else {
      DigitsRoundTrip(n / 10);
      assert Digits(n)[..|Digits(n)| - 1] == Digits(n / 10);
    }
  }

  lemma LeadingValueOfDigits(n: nat)
    ensures LeadingValue(Digits(n)) == n
  {
    DigitsRoundTrip(n);
    SpanIs(Digits(n), IsDigit, |Digits(n)|);
    assert Digits(n)[..|Digits(n)|] == Digits(n);
  }

  lemma PrintedIsToken(n: int)
    ensures IsToken(PrintInt(n))
  {
    DigitsRoundTrip(Abs(n));
  }

  /** Reading a printed number gives the number, for every value that a long holds. */
  lemma StrtolOfPrinted(n: int)
    requires -0x8000_0000_0000_0000 <= n <= 0x7fff_ffff_ffff_ffff
    ensures Strtol(PrintInt(n)) == n
  {
    DigitsRoundTrip(Abs(n));
    LeadingValueOfDigits(Abs(n));
    assert PrintInt(n)[0] == '-' || IsDigit(PrintInt(n)[0]);
    assert SkipSpace(PrintInt(n)) == PrintInt(n);
    if n < 0 {
      assert PrintInt(n)[1..] == Digits(-n);
    }
  }

  lemma AtoiOfPrinted(n: int32)
    ensures Atoi(PrintInt(n)) == n
  {
    StrtolOfPrinted(n);
  }

  /** What a long holds: the number, or the nearest end of the range. */
  function Saturated(n: int): int {
    if n < -0x8000_0000_0000_0000 then -0x8000_0000_0000_0000
    else if n > 0x7fff_ffff_ffff_ffff then 0x7fff_ffff_ffff_ffff
    else n
  }

  /** `strtol` reads the number that a text begins with, after white space and a sign, whatever follows it. */
  lemma StrtolReads(blank: string, n: nat, rest: string)
    requires IsBlank(blank) && (rest == "" || !IsDigit(rest[0]))
    ensures Strtol(blank + (Digits(n) + rest)) == Saturated(n)
    ensures Strtol(blank + ("+" + (Digits(n) + rest))) == Saturated(n)
    ensures Strtol(blank + ("-" + (Digits(n) + rest))) == Saturated(0 - n)
  {
    DigitsRoundTrip(n);
    var number := Digits(n) + rest;
    assert number[0] == Digits(n)[0];
    LeadingValueBefore(n, rest);
    SkipBlank(blank, number);
    SkipBlank(blank, "+" + number);
    SkipBlank(blank, "-" + number);
    assert ("+" + number)[1..] == number && ("-" + number)[1..] == number;
  }

  lemma LeadingValueBefore(n: nat, rest: string)
    requires rest == "" || !IsDigit(rest[0])
    ensures LeadingValue(Digits(n) + rest) == n
  {
    DigitsRoundTrip(n);
    var s := Digits(n) + rest;
    assert forall i :: 0 <= i < |Digits(n)| ==> s[i] == Digits(n)[i];
    assert rest != "" ==> s[|Digits(n)|] == rest[0];
    SpanIs(s, IsDigit, |Digits(n)|);
    assert s[..|Digits(n)|] == Digits(n);
  }

  /** A text that begins with neither a digit nor a sign reads as 0. */
  lemma StrtolReadsNothing(blank: string, rest: string)
    requires IsBlank(blank)
    requires rest == "" || (!IsSpace(rest[0]) && !IsDigit(rest[0]) && rest[0] != '-' && rest[0] != '+')
    ensures Strtol(blank + rest) == 0
  {
    SkipBlank(blank, rest);
    SpanIs(rest, IsDigit, 0);
  }
}
