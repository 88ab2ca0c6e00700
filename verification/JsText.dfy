/** Text primitives of the JavaScript runtime that both the API and the worker
    rely on: white space, trimming, line splitting and newline normalisation.
    A text is a sequence of Unicode scalar values. */
module JsText {

  /** `\s`, which is also what `trim` removes: WhiteSpace and LineTerminator of ECMA-262. */
  predicate IsSpace(c: char) {
    || '\t' <= c <= '\r'
    || c == ' '
    || c == '\U{00A0}'
    || c == '\U{1680}'
    || '\U{2000}' <= c <= '\U{200A}'
    || c == '\U{2028}'
    || c == '\U{2029}'
    || c == '\U{202F}'
    || c == '\U{205F}'
    || c == '\U{3000}'
    || c == '\U{FEFF}'
  }

  predicate IsDigit(c: char) {
    '0' <= c <= '9'
  }

  predicate AllSpace(s: string) {
    forall i | 0 <= i < |s| :: IsSpace(s[i])
  }

  /** Neither end of the text is white space. */
  predicate Trimmed(s: string) {
    s == "" || (!IsSpace(s[0]) && !IsSpace(s[|s| - 1]))
  }

  /** The number of leading white-space characters. */
  function LeadingSpace(s: string): (n: nat)
    ensures n <= |s| && (n < |s| ==> !IsSpace(s[n]))
    ensures forall i | 0 <= i < n :: IsSpace(s[i])
  {
    if s == "" || !IsSpace(s[0]) then 0 else 1 + LeadingSpace(s[1..])
  }

  /** The length that is left when trailing white space is dropped. */
  function TrimmedLength(s: string): (n: nat)
    ensures n <= |s| && (n > 0 ==> !IsSpace(s[n - 1]))
    ensures forall i | n <= i < |s| :: IsSpace(s[i])
  {
    if s == "" || !IsSpace(s[|s| - 1]) then |s| else TrimmedLength(s[..|s| - 1])
  }

  function TrimStart(s: string): string {
    s[LeadingSpace(s)..]
  }

  function TrimEnd(s: string): string {
    s[..TrimmedLength(s)]
  }

  function Trim(s: string): (r: string)
    ensures Trimmed(r)
    ensures |r| <= |s|
  {
    TrimEnd(TrimStart(s))
  }

  predicate StartsWith(s: string, p: string) {
    |p| <= |s| && s[..|p|] == p
  }

  lemma StartsWithAt(s: string, p: string, i: nat)
    requires i < |p|
    ensures StartsWith(s, p) ==> i < |s| && s[i] == p[i]
  {
    if StartsWith(s, p) {
      assert s[i] == s[..|p|][i];
    }
  }

  /** `replace(/\D/g, '')`. */
  function Digits(s: string): (r: string)
    ensures forall i | 0 <= i < |r| :: IsDigit(r[i])
    ensures |r| <= |s|
  {
    if s == "" then ""
    else if IsDigit(s[0]) then [s[0]] + Digits(s[1..])
    else Digits(s[1..])
  }

  predicate AllDigits(s: string) {
    forall i | 0 <= i < |s| :: IsDigit(s[i])
  }

  function DigitValue(c: char): nat
    requires IsDigit(c)
  {
    c as nat - '0' as nat
  }

  /** `Number` of a text of digits. */
  function NumberOf(s: string): nat
    requires AllDigits(s)
  {
    if s == "" then 0 else NumberOf(s[..|s| - 1]) * 10 + DigitValue(s[|s| - 1])
  }

  lemma {:induction false} DigitsKeep(s: string)
    requires AllDigits(s)
    ensures Digits(s) == s
  {
    if s != "" {
      DigitsKeep(s[1..]);
      assert s == [s[0]] + s[1..];
    }
  }

  /** `replace(/\r\n?/g, '\n')`. */
  function NormalizeNewlines(s: string): (r: string)
    ensures '\r' !in r
    ensures |r| <= |s|
  {
    if s == "" then ""
    else if s[0] == '\r' then
      ['\n'] + NormalizeNewlines(if |s| > 1 && s[1] == '\n' then s[2..] else s[1..])
    else [s[0]] + NormalizeNewlines(s[1..])
  }

  /** Puts one character in front of a text that is already split into lines. */
  function ConsLine(c: char, ls: seq<string>): seq<string>
    requires |ls| > 0
  {
    if c == '\n' then [""] + ls else [[c] + ls[0]] + ls[1..]
  }

  /** `split('\n')`. */
  function SplitLines(s: string): (ls: seq<string>)
    ensures |ls| > 0
    ensures forall i | 0 <= i < |ls| :: '\n' !in ls[i]
  {
    if s == "" then [""] else ConsLine(s[0], SplitLines(s[1..]))
  }

  /** `join('\n')`. */
  function JoinLines(ls: seq<string>): string {
    if |ls| == 0 then ""
    else if |ls| == 1 then ls[0]
    else ls[0] + "\n" + JoinLines(ls[1..])
  }

  // ---------------------------------------------------------------- trimming

  lemma TrimStartKeeps(s: string)
    requires s == "" || !IsSpace(s[0])
    ensures TrimStart(s) == s
  {}

  /** The white space that `TrimStart` removes is maximal, so it is determined by where it stops. */
  lemma TrimStartIs(a: string, s: string)
    requires AllSpace(a) && (s == "" || !IsSpace(s[0]))
    ensures TrimStart(a + s) == s
  {
    assert forall i | 0 <= i < |a| :: (a + s)[i] == a[i];
    assert s != "" ==> (a + s)[|a|] == s[0];
  }

  lemma TrimEndIs(s: string, b: string)
    requires AllSpace(b) && (s == "" || !IsSpace(s[|s| - 1]))
    ensures TrimEnd(s + b) == s
  {
    assert forall i | |s| <= i < |s + b| :: (s + b)[i] == b[i - |s|];
    assert s != "" ==> (s + b)[|s| - 1] == s[|s| - 1];
  }

  /** Trimming is determined by its result: the only trimmed core left when white space is removed at both ends. */
  lemma TrimIsUnique(a: string, core: string, b: string)
    requires AllSpace(a) && AllSpace(b) && Trimmed(core)
    ensures Trim(a + core + b) == core
  {
    if core == "" {
      assert a + core + b == (a + b) + "";
      TrimStartIs(a + b, "");
    } else {
      assert a + core + b == a + (core + b);
      assert (core + b)[0] == core[0];
      TrimStartIs(a, core + b);
      TrimEndIs(core, b);
    }
  }

  lemma LeftMargin(s: string) returns (a: string)
    ensures AllSpace(a) && s == a + TrimStart(s)
  {
    a := s[..LeadingSpace(s)];
  }

  lemma RightMargin(s: string) returns (b: string)
    ensures AllSpace(b) && s == TrimEnd(s) + b
  {
    var n := TrimmedLength(s);
    b := s[n..];
    forall i | 0 <= i < |b| ensures IsSpace(b[i]) {
      assert b[i] == s[n + i];
    }
  }

  lemma Reassociate(a: string, t: string, b: string)
    ensures a + (t + b) == a + t + b
  {}

  /** The two white-space margins that `Trim` removes. */
  lemma TrimMargins(s: string) returns (a: string, b: string)
    ensures AllSpace(a) && AllSpace(b)
    ensures s == a + Trim(s) + b
  {
    a := LeftMargin(s);
    b := RightMargin(TrimStart(s));
    Reassociate(a, Trim(s), b);
  }

  lemma TrimPadded(left: string, s: string, right: string)
    requires AllSpace(left) && AllSpace(right)
    ensures Trim(left + s + right) == Trim(s)
  {
    hide IsSpace;
    var a, b := TrimMargins(s);
    var core := Trim(s);
    assert left + (a + core + b) + right == (left + a) + core + (b + right);
    TrimIsUnique(left + a, core, b + right);
  }

  lemma TrimKeeps(s: string)
    requires Trimmed(s)
    ensures Trim(s) == s
  {
    TrimStartKeeps(s);
  }

  lemma TrimBlank(s: string)
    ensures Trim(s) == "" <==> AllSpace(s)
  {
    if AllSpace(s) {
      assert s == s + "" + "";
      TrimIsUnique(s, "", "");
    } else {
      var a, b := TrimMargins(s);
      assert Trim(s) == "" ==> s == a + b;
    }
  }

  lemma TrimSubset(s: string, c: char)
    requires c in Trim(s)
    ensures c in s
  {
    var a, b := TrimMargins(s);
  }

  // ---------------------------------------------------------------- newlines

  lemma {:induction false} NormalizeKeeps(s: string)
    requires '\r' !in s
    ensures NormalizeNewlines(s) == s
  {
    if s != "" {
      assert s[0] in s && forall c | c in s[1..] :: c in s;
      NormalizeKeeps(s[1..]);
    }
  }

  /** The length of what is normalised to the first character. */
  function FirstStep(s: string): nat
    requires s != ""
  {
    if s[0] == '\r' && |s| > 1 && s[1] == '\n' then 2 else 1
  }

  lemma NormalizeStep(s: string)
    requires s != ""
    ensures NormalizeNewlines(s)
         == [if s[0] == '\r' then '\n' else s[0]] + NormalizeNewlines(s[FirstStep(s)..])
  {}

  /** Two texts are normalised one after the other, unless a CRLF is cut in two. */
  lemma {:induction false} NormalizeConcat(a: string, b: string)
    requires a == "" || b == "" || a[|a| - 1] != '\r' || b[0] != '\n'
    ensures NormalizeNewlines(a + b) == NormalizeNewlines(a) + NormalizeNewlines(b)
    decreases |a|
  {
    hide NormalizeNewlines;
    if a == "" {
      assert a + b == b;
      NothingToNormalize();
    } else if b == "" {
      assert a + b == a;
      NothingToNormalize();
    } else {
      var n := FirstStep(a);
      assert FirstStep(a + b) == n;
      assert (a + b)[n..] == a[n..] + b;
      NormalizeConcat(a[n..], b);
      NormalizeStep(a);
      NormalizeStep(a + b);
    }
  }

  lemma NothingToNormalize()
    ensures NormalizeNewlines("") == ""
  {}

  predicate IsLineEnd(e: string) {
    e == "\r\n" || e == "\r" || e == "\n"
  }

  /** Lines without line breaks, and the line ends between them; a CR is not followed by an
      empty line and an LF, which together are one CRLF. */
  predicate LinesWithEnds(lines: seq<string>, ends: seq<string>) {
    && |lines| == |ends| + 1
    && (forall i | 0 <= i < |lines| :: '\r' !in lines[i] && '\n' !in lines[i])
    && (forall i | 0 <= i < |ends| :: IsLineEnd(ends[i]))
    && (forall i | 0 <= i < |ends| - 1 :: ends[i] == "\r" && lines[i + 1] == "" ==> ends[i + 1] != "\n")
  }

  function JoinWith(lines: seq<string>, ends: seq<string>): string
    requires |lines| == |ends| + 1
  {
    if ends == [] then lines[0] else lines[0] + ends[0] + JoinWith(lines[1..], ends[1..])
  }

  /** Normalisation turns every line end, of whatever kind, into one LF and keeps the lines. */
  lemma {:induction false} LineEndsBecomeNewlines(lines: seq<string>, ends: seq<string>)
    requires LinesWithEnds(lines, ends)
    ensures NormalizeNewlines(JoinWith(lines, ends)) == JoinLines(lines)
    decreases |ends|
  {
    hide NormalizeNewlines;
    if ends == [] {
      NormalizeKeeps(lines[0]);
    } else {
      RestHasLines(lines, ends);
      LineEndsBecomeNewlines(lines[1..], ends[1..]);
      NormalizeLine(lines[0], ends[0], JoinWith(lines[1..], ends[1..]));
    }
  }

  /** The first line and its end. */
  lemma NormalizeLine(line: string, e: string, rest: string)
    requires '\r' !in line && '\n' !in line && IsLineEnd(e)
    requires e == "\r" && rest != "" ==> rest[0] != '\n'
    ensures NormalizeNewlines(line + e + rest) == line + "\n" + NormalizeNewlines(rest)
  {
    hide NormalizeNewlines;
    assert line + e + rest == line + (e + rest);
    assert line + "\n" + NormalizeNewlines(rest) == line + ("\n" + NormalizeNewlines(rest));
    NormalizeKeeps(line);
    NormalizeConcat(line, e + rest);
    NormalizeConcat(e, rest);
    LineEndIsNewline(e);
  }

  lemma LineEndIsNewline(e: string)
    requires IsLineEnd(e)
    ensures NormalizeNewlines(e) == "\n"
  {
    if e == "\r\n" {
      assert e[2..] == "";
    } else {
      assert e[1..] == "";
    }
  }

  lemma RestHasLines(lines: seq<string>, ends: seq<string>)
    requires LinesWithEnds(lines, ends) && ends != []
    ensures LinesWithEnds(lines[1..], ends[1..])
    ensures var rest := JoinWith(lines[1..], ends[1..]);
            ends[0] == "\r" && rest != "" ==> rest[0] != '\n'
  {
    if |ends| > 1 {
      assert lines[1..][0] == lines[1] && ends[1..][0] == ends[1];
      assert ends[0] == "\r" && lines[1] == "" ==> ends[1] != "\n";
    }
    var rest := JoinWith(lines[1..], ends[1..]);
    if ends[0] == "\r" && rest != "" && lines[1] != "" {
      assert rest[0] == lines[1][0] && lines[1][0] in lines[1];
    }
  }

  // ------------------------------------------------------------------- lines

  /** Joins two line lists so that the last line of the first continues in the second. */
  function GlueLines(la: seq<string>, lb: seq<string>): (r: seq<string>)
    requires |la| > 0 && |lb| > 0
    ensures |r| == |la| + |lb| - 1
  {
    la[..|la| - 1] + [la[|la| - 1] + lb[0]] + lb[1..]
  }

  lemma GlueCons(c: char, la: seq<string>, lb: seq<string>)
    requires |la| > 0 && |lb| > 0
    ensures GlueLines(ConsLine(c, la), lb) == ConsLine(c, GlueLines(la, lb))
  {
    var l, r := GlueLines(ConsLine(c, la), lb), ConsLine(c, GlueLines(la, lb));
    if c != '\n' && |la| == 1 {
      assert l[0] == ([c] + la[0]) + lb[0] == [c] + (la[0] + lb[0]) == r[0];
    }
    assert l == r;
  }

  /** Cutting a text anywhere cuts exactly one line in two. */
  lemma {:induction false} SplitGlue(a: string, b: string)
    ensures SplitLines(a + b) == GlueLines(SplitLines(a), SplitLines(b))
  {
    if a == "" {
      assert a + b == b;
      assert "" + SplitLines(b)[0] == SplitLines(b)[0];
    } else {
      assert (a + b)[1..] == a[1..] + b && (a + b)[0] == a[0];
      SplitGlue(a[1..], b);
      GlueCons(a[0], SplitLines(a[1..]), SplitLines(b));
    }
  }

  /** A newline between two texts separates their lines. */
  lemma {:induction false} SplitConcat(s: string, t: string)
    ensures SplitLines(s + "\n" + t) == SplitLines(s) + SplitLines(t)
  {
    var nt := "\n" + t;
    assert s + "\n" + t == s + nt;
    assert nt[0] == '\n' && nt[1..] == t;
    SplitGlue(s, nt);
    assert SplitLines(s)[|SplitLines(s)| - 1] + "" == SplitLines(s)[|SplitLines(s)| - 1];
  }

  lemma {:induction false} SplitOneLine(s: string)
    requires '\n' !in s
    ensures SplitLines(s) == [s]
  {
    if s != "" {
      assert s[0] in s && forall c | c in s[1..] :: c in s;
      SplitOneLine(s[1..]);
      assert [s[0]] + s[1..] == s;
    }
  }

  lemma {:induction false} JoinSplit(s: string)
    ensures JoinLines(SplitLines(s)) == s
  {
    if s != "" {
      JoinSplit(s[1..]);
      var rest := SplitLines(s[1..]);
      assert SplitLines(s) == ConsLine(s[0], rest);
      if s[0] == '\n' {
        assert ([""] + rest)[1..] == rest;
        assert JoinLines([""] + rest) == "" + "\n" + JoinLines(rest);
      } else {
        var ls := [[s[0]] + rest[0]] + rest[1..];
        assert ls[1..] == rest[1..];
        assert JoinLines(ls) == [s[0]] + JoinLines(rest);
      }
      assert s == [s[0]] + s[1..];
    }
  }

  lemma {:induction false} SplitJoin(ls: seq<string>)
    requires |ls| > 0 && forall i | 0 <= i < |ls| :: '\n' !in ls[i]
    ensures SplitLines(JoinLines(ls)) == ls
  {
    SplitOneLine(ls[0]);
    if |ls| > 1 {
      SplitConcat(ls[0], JoinLines(ls[1..]));
      SplitJoin(ls[1..]);
    }
  }

  /** Every line's characters come from the text. */
  lemma {:induction false} LineChars(s: string, i: nat, c: char)
    requires i < |SplitLines(s)| && c in SplitLines(s)[i]
    ensures c in s
  {
    if s != "" {
      var rest := SplitLines(s[1..]);
      if s[0] == '\n' {
        LineChars(s[1..], i - 1, c);
      } else if i > 0 || c != s[0] {
        LineChars(s[1..], i, c);
      }
    }
  }

  /** Joining adds nothing but newlines. */
  lemma {:induction false} JoinChars(ls: seq<string>, c: char)
    requires c != '\n' && forall i | 0 <= i < |ls| :: c !in ls[i]
    ensures c !in JoinLines(ls)
  {
    if |ls| > 1 { JoinChars(ls[1..], c); }
  }
}
