/** The string operations of Python that the release scripts rely on. */
module Text {

  /** What `str.strip` removes. */
  predicate IsSpace(c: char) {
    || '\U{0009}' <= c <= '\U{000D}' || '\U{001C}' <= c <= '\U{0020}'
    || c == '\U{0085}' || c == '\U{00A0}' || c == '\U{1680}'
    || '\U{2000}' <= c <= '\U{200A}' || c == '\U{2028}' || c == '\U{2029}'
    || c == '\U{202F}' || c == '\U{205F}' || c == '\U{3000}'
  }

  /** Where `str.splitlines` ends a line. */
  predicate IsBreak(c: char) {
    || '\U{000A}' <= c <= '\U{000D}' || '\U{001C}' <= c <= '\U{001E}'
    || c == '\U{0085}' || c == '\U{2028}' || c == '\U{2029}'
  }

  predicate NotBreak(c: char) { !IsBreak(c) }

  predicate IsBlank(c: char) { c == ' ' }

  predicate IsDigit(c: char) { '0' <= c <= '9' }

  predicate IsLetter(c: char) { 'a' <= c <= 'z' || 'A' <= c <= 'Z' }

  function LeftStrip(s: string): string {
    if s != "" && IsSpace(s[0]) then LeftStrip(s[1..]) else s
  }

  function RightStrip(s: string): string {
    if s != "" && IsSpace(s[|s| - 1]) then RightStrip(s[..|s| - 1]) else s
  }

  function Strip(s: string): string {
    RightStrip(LeftStrip(s))
  }

  /** How many leading characters satisfy `p`. */
  function PrefixLength(s: string, p: char -> bool): (n: nat)
    ensures n <= |s|
    ensures forall i :: 0 <= i < n ==> p(s[i])
    ensures n < |s| ==> !p(s[n])
  {
    if s != "" && p(s[0]) then 1 + PrefixLength(s[1..], p) else 0
  }

  /** The prefix length is determined by where `p` first fails. */
  lemma PrefixLengthIs(s: string, p: char -> bool, n: nat)
    requires n <= |s|
    requires forall i :: 0 <= i < n ==> p(s[i])
    requires n < |s| ==> !p(s[n])
    ensures PrefixLength(s, p) == n
  {
  }

  predicate IsCrLf(s: string, n: nat) { n + 1 < |s| && s[n] == '\r' && s[n + 1] == '\n' }

  function SplitLines(s: string): seq<string> {
    if s == "" then [] else
      var n := PrefixLength(s, NotBreak);
      if n == |s| then [s]
      else if IsCrLf(s, n) then [s[..n]] + SplitLines(s[n + 2..])
      else [s[..n]] + SplitLines(s[n + 1..])
  }

  predicate NoBreak(s: string) {
    forall c :: c in s ==> !IsBreak(c)
  }

  /** Lines written one after another, each ended by a newline. */
  function Unlines(lines: seq<string>): string {
    if lines == [] then "" else lines[0] + "\n" + Unlines(lines[1..])
  }

  lemma {:induction false} FirstLine(line: string, s: string, n: nat)
    requires NoBreak(line) && n == |line| < |s| && s[..n] == line && s[n] == '\n'
    ensures SplitLines(s) == [line] + SplitLines(s[n + 1..])
  {
    forall i | 0 <= i < n ensures NotBreak(s[i]) {
      assert s[i] == line[i] && line[i] in line;
    }
    PrefixLengthIs(s, NotBreak, n);
  }

  /** Splitting undoes writing, for lines that hold no break of their own. */
  lemma {:induction false} SplitUnlines(lines: seq<string>)
    requires forall line :: line in lines ==> NoBreak(line)
    ensures SplitLines(Unlines(lines)) == lines
  {
    if lines == [] {
    } else {
      var s, n := Unlines(lines), |lines[0]|;
      assert s[..n] == lines[0] && s[n] == '\n' && s[n + 1..] == Unlines(lines[1..]);
      SplitUnlines(lines[1..]);
      FirstLine(lines[0], s, n);
    }
  }

  /** The lines with what ends each: `\r\n`, another break, or for the last line perhaps nothing. */
  function Terminated(lines: seq<string>, ends: seq<string>): string
    requires |lines| == |ends|
  {
    if lines == [] then "" else lines[0] + ends[0] + Terminated(lines[1..], ends[1..])
  }

  predicate IsEnd(end: string) { (|end| == 2 && IsCrLf(end, 0)) || (|end| == 1 && IsBreak(end[0])) }

  predicate StartsWithNewline(s: string) { s != "" && s[0] == '\n' }

  /** The lines hold no break, are all of the text between the breaks, and only the last can be unended; a
      carriage return and a newline are one break. */
  ghost predicate Covers(s: string, lines: seq<string>, ends: seq<string>) {
    && |ends| == |lines| && Terminated(lines, ends) == s
    && (forall i :: 0 <= i < |lines| ==> NoBreak(lines[i]))
    && (forall i :: 0 <= i < |ends| ==> IsEnd(ends[i]) || (i == |ends| - 1 && ends[i] == ""))
    && (forall i :: 1 <= i < |ends| && ends[i - 1] == "\r" && lines[i] == "" ==> !StartsWithNewline(ends[i]))
  }

  lemma {:induction false} CoversNext(line: string, end: string, s: string, lines: seq<string>, ends: seq<string>)
    requires Covers(s, lines, ends) && NoBreak(line)
    requires IsEnd(end) || (end == "" && lines == [])
    requires end == "\r" ==> !StartsWithNewline(s)
    ensures Covers(line + end + s, [line] + lines, [end] + ends)
  {
    assert ([line] + lines)[1..] == lines && ([end] + ends)[1..] == ends;
    if lines != [] && lines[0] == "" && StartsWithNewline(ends[0]) {
      assert s[0] == ends[0][0];
    }
  }

  lemma SplitLinesAt(s: string, n: nat, k: nat)
    requires s != "" && n == PrefixLength(s, NotBreak)
    requires k == if n == |s| then n else if IsCrLf(s, n) then n + 2 else n + 1
    ensures SplitLines(s) == [s[..n]] + SplitLines(s[k..])
  {
    if n == |s| {
      assert s[..n] == s && s[k..] == "";
    }
  }

  lemma {:induction false} PrefixNoBreak(s: string, n: nat)
    requires n == PrefixLength(s, NotBreak)
    ensures NoBreak(s[..n]) && (n < |s| ==> IsBreak(s[n]))
  {
    forall c | c in s[..n] ensures !IsBreak(c) {
      var i :| 0 <= i < n && s[..n][i] == c;
      assert NotBreak(s[i]);
    }
    if n < |s| {
      assert !NotBreak(s[n]);
    }
  }

  lemma CutsEnd(s: string, n: nat, k: nat)
    requires n <= |s| && (n < |s| ==> IsBreak(s[n]))
    requires k == if n == |s| then n else if IsCrLf(s, n) then n + 2 else n + 1
    ensures n <= k <= |s| && s == s[..n] + s[n..k] + s[k..]
    ensures if n == |s| then s[n..k] == "" && s[k..] == "" else IsEnd(s[n..k])
    ensures s[n..k] == "\r" ==> !StartsWithNewline(s[k..])
  {
  }

  lemma {:induction false} FirstCut(s: string) returns (line: string, end: string, tail: string)
    requires s != ""
    ensures s == line + end + tail && |tail| < |s| && NoBreak(line)
    ensures IsEnd(end) || (end == "" && tail == "")
    ensures end == "\r" ==> !StartsWithNewline(tail)
    ensures SplitLines(s) == [line] + SplitLines(tail)
  {
    var n := PrefixLength(s, NotBreak);
    var k := if n == |s| then n else if IsCrLf(s, n) then n + 2 else n + 1;
    PrefixNoBreak(s, n);
    SplitLinesAt(s, n, k);
    CutsEnd(s, n, k);
    line, end, tail := s[..n], s[n..k], s[k..];
  }

  lemma {:induction false} SplitLinesCover(s: string) returns (ends: seq<string>)
    ensures Covers(s, SplitLines(s), ends)
    decreases |s|
  {
    if s == "" {
      ends := [];
    } else {
      var line, end, tail := FirstCut(s);
      var rest := SplitLinesCover(tail);
      CoversNext(line, end, tail, SplitLines(tail), rest);
      ends := [end] + rest;
    }
  }

  ghost predicate AllSpace(s: string) {
    forall i :: 0 <= i < |s| ==> IsSpace(s[i])
  }

  /** Where `str.strip` cuts: all white space at both ends goes, and nothing else does. */
  ghost predicate Strips(s: string, i: nat, j: nat) {
    && i <= j <= |s| && AllSpace(s[..i]) && AllSpace(s[j..])
    && (i < j ==> !IsSpace(s[i]) && !IsSpace(s[j - 1]))
  }

  lemma {:induction false} LeftStripCuts(s: string) returns (i: nat)
    ensures i <= |s| && AllSpace(s[..i]) && LeftStrip(s) == s[i..] && (i < |s| ==> !IsSpace(s[i]))
  {
    if s != "" && IsSpace(s[0]) {
      i := LeftStripCuts(s[1..]);
      i := i + 1;
      assert s[1..][i - 1..] == s[i..] && s[..i] == [s[0]] + s[1..][..i - 1];
    } else {
      i := 0;
    }
  }

  lemma {:induction false} RightStripCuts(s: string) returns (j: nat)
    ensures j <= |s| && AllSpace(s[j..]) && RightStrip(s) == s[..j] && (j > 0 ==> !IsSpace(s[j - 1]))
  {
    if s != "" && IsSpace(s[|s| - 1]) {
      var shorter := s[..|s| - 1];
      j := RightStripCuts(shorter);
      assert shorter[..j] == s[..j] && s[j..] == shorter[j..] + [s[|s| - 1]];
    } else {
      j := |s|;
    }
  }

  lemma {:induction false} StripCuts(s: string) returns (i: nat, j: nat)
    ensures Strips(s, i, j) && Strip(s) == s[i..j]
  {
    i := LeftStripCuts(s);
    var k := RightStripCuts(s[i..]);
    j := i + k;
    assert s[i..][..k] == s[i..j] && s[i..][k..] == s[j..];
    assert k > 0 ==> s[i..][k - 1] == s[j - 1];
  }

  lemma {:induction false} StripsOnce(s: string, i: nat, j: nat, i': nat, j': nat)
    requires Strips(s, i, j) && Strips(s, i', j') && i < j
    ensures i == i' && j == j'
  {
    forall k | 0 <= k < i || j <= k < |s| ensures IsSpace(s[k]) {
      assert if k < i then s[..i][k] == s[k] else s[j..][k - j] == s[k];
    }
    forall k | 0 <= k < i' || j' <= k < |s| ensures IsSpace(s[k]) {
      assert if k < i' then s[..i'][k] == s[k] else s[j'..][k - j'] == s[k];
    }
  }

  /** Text that neither starts nor ends with white space is what is left of it between white space. */
  lemma {:induction false} StripIs(lead: string, s: string, trail: string)
    requires AllSpace(lead) && AllSpace(trail)
    requires s != "" && !IsSpace(s[0]) && !IsSpace(s[|s| - 1])
    ensures Strip(lead + s + trail) == s
  {
    var t, n := lead + s + trail, |lead| + |s|;
    var i, j := StripCuts(t);
    assert t[..|lead|] == lead && t[n..] == trail && t[|lead|..n] == s;
    assert t[|lead|] == s[0] && t[n - 1] == s[|s| - 1];
    StripsOnce(t, |lead|, n, i, j);
  }

  /** `s.split(c)`. */
  function Split(s: string, c: char): (parts: seq<string>)
    ensures parts != []
  {
    if s == "" then [""]
    else if s[0] == c then [""] + Split(s[1..], c)
    else var rest := Split(s[1..], c); [[s[0]] + rest[0]] + rest[1..]
  }

  /** `c.join(parts)`. */
  function Join(parts: seq<string>, c: char): string {
    if parts == [] then "" else if |parts| == 1 then parts[0] else parts[0] + [c] + Join(parts[1..], c)
  }

  /** No part holds the separator. */
  ghost predicate Separated(parts: seq<string>, c: char) {
    forall i :: 0 <= i < |parts| ==> c !in parts[i]
  }

  /** The parts are free of the separator, and joining them gives the text back. */
  lemma {:induction false} SplitJoins(s: string, c: char)
    ensures Separated(Split(s, c), c) && Join(Split(s, c), c) == s
  {
    if s == "" {
    } else {
      var parts, rest := Split(s, c), Split(s[1..], c);
      SplitJoins(s[1..], c);
      if s[0] == c {
        assert parts[1..] == rest;
      } else {
        assert parts[0] == [s[0]] + rest[0] && parts[1..] == rest[1..];
        assert Join(parts, c) == [s[0]] + Join(rest, c);
      }
      assert s == [s[0]] + s[1..];
    }
  }

  lemma {:induction false} SplitFirst(first: string, rest: string, c: char)
    requires c !in first
    ensures Split(first + [c] + rest, c) == [first] + Split(rest, c)
  {
    var s := first + [c] + rest;
    if first == "" {
      assert s[0] == c && s[1..] == rest;
    } else {
      SplitFirst(first[1..], rest, c);
      assert s[1..] == first[1..] + [c] + rest && s[0] == first[0] && first[0] in first;
      assert first == [first[0]] + first[1..];
    }
  }

  lemma {:induction false} SplitWhole(s: string, c: char)
    requires c !in s
    ensures Split(s, c) == [s]
  {
    if s == "" {
    } else {
      assert s[0] in s;
      SplitWhole(s[1..], c);
      assert s == [s[0]] + s[1..];
    }
  }

  /** Splitting undoes joining. */
  lemma {:induction false} JoinSplits(parts: seq<string>, c: char)
    requires parts != [] && Separated(parts, c)
    ensures Split(Join(parts, c), c) == parts
  {
    if |parts| == 1 {
      SplitWhole(parts[0], c);
      assert parts == [parts[0]];
    } else {
      JoinSplits(parts[1..], c);
      SplitFirst(parts[0], Join(parts[1..], c), c);
      assert parts == [parts[0]] + parts[1..];
    }
  }

  /** What is joined holds nothing but the parts and the separator. */
  lemma {:induction false} JoinHolds(parts: seq<string>, c: char, x: char)
    requires x != c && forall i :: 0 <= i < |parts| ==> x !in parts[i]
    ensures x !in Join(parts, c)
  {
    if |parts| > 1 {
      JoinHolds(parts[1..], c, x);
    }
  }

  // --- decimal numbers -----------------------------------------------------

  predicate IsDigits(s: string) {
    forall c :: c in s ==> IsDigit(c)
  }

  /** `0|[1-9][0-9]*`. */
  predicate IsCanonicalNumber(s: string) {
    IsDigits(s) && s != "" && (s[0] == '0' ==> |s| == 1)
  }

  function DigitValue(c: char): (n: nat)
    requires IsDigit(c)
    ensures n < 10
  {
    c as int - '0' as int
  }

  /** Python's `int` of a run of digits. */
  function Number(s: string): nat
    requires IsDigits(s)
  {
    if s == "" then 0 else 10 * Number(s[..|s| - 1]) + DigitValue(s[|s| - 1])
  }

  function Digit(n: nat): (c: char)
    requires n < 10
    ensures IsDigit(c) && DigitValue(c) == n
  {
    '0' + n as char
  }

  /** Python's `str` of a non-negative integer. */
  function Decimal(n: nat): (s: string)
    ensures IsCanonicalNumber(s)
    ensures n > 0 ==> s[0] != '0'
  {
    if n < 10 then [Digit(n)] else Decimal(n / 10) + [Digit(n % 10)]
  }

  lemma {:induction false} NumberOfDecimal(n: nat)
    ensures Number(Decimal(n)) == n
  {
    var s := Decimal(n);
    if n >= 10 {
      assert s[..|s| - 1] == Decimal(n / 10);
      NumberOfDecimal(n / 10);
    } else {
      assert s[..|s| - 1] == "";
    }
  }

  /** A canonical number is the decimal text of its value, and of no other. */
  lemma {:induction false} DecimalOfNumber(s: string)
    requires IsCanonicalNumber(s)
    ensures Decimal(Number(s)) == s
  {
    var tens := s[..|s| - 1];
    assert s == tens + [s[|s| - 1]] && s[|s| - 1] in s;
    if |s| == 1 {
      assert tens == "";
    } else {
      assert tens[0] == s[0];
      DecimalOfNumber(tens);
      assert Decimal(Number(tens))[0] != '0';
    }
  }
}
