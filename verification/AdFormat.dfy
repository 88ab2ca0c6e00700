/** Advertisement formatting of SMS bodies (`packages/shared`) and the agreement between
    the API, which formats a body when it accepts it, and the worker, which formats the
    stored body again before sending. */
module AdFormat {
  import opened JsText
  import opened SmsText

  const SMS_ADVERTISEMENT_PREFIX := "(광고)"
  const OPT_OUT_WORD := "무료수신거부"
  const SMS_ADVERTISEMENT_OPT_OUT_NUMBER := "080-500-4233"
  const SMS_ADVERTISEMENT_OPT_OUT_TEXT := OPT_OUT_WORD + " " + SMS_ADVERTISEMENT_OPT_OUT_NUMBER

  // ------------------------------------------------------------ the formatter

  /** `replace(/\s+/g, ' ')`. */
  function CollapseSpace(s: string): string
    decreases |s|
  {
    if s == "" then ""
    else if IsSpace(s[0]) then " " + CollapseSpace(TrimStart(s))
    else [s[0]] + CollapseSpace(s[1..])
  }

  /** A missing name is the empty text. */
  function SanitizeAdvertisingServiceName(value: string): string {
    CollapseSpace(Trim(value))
  }

  /** `^\(광고\)\s*NAME\s*`. The name starts with no white space, so `\s*` before it has only one way to match. */
  function StripNamedPrefix(s: string, name: string): string {
    if StartsWith(s, SMS_ADVERTISEMENT_PREFIX) then
      var rest := TrimStart(s[|SMS_ADVERTISEMENT_PREFIX|..]);
      if StartsWith(rest, name) then TrimStart(rest[|name|..]) else s
    else s
  }

  /** `^\(광고\)\s*`. */
  function StripPrefix(s: string): string {
    if StartsWith(s, SMS_ADVERTISEMENT_PREFIX) then TrimStart(s[|SMS_ADVERTISEMENT_PREFIX|..]) else s
  }

  function StripLeadingAdvertisementPrefix(body: string, name: string): string {
    var next := TrimStart(body);
    var named := if name != "" then StripNamedPrefix(next, name) else next;
    TrimStart(StripPrefix(named))
  }

  predicate IsNumberTail(s: string) {
    s != "" && forall i | 0 <= i < |s| :: s[i] == '-' || IsDigit(s[i]) || IsSpace(s[i])
  }

  /** `^무료수신거부\s+080[-\d\s]+$`. */
  predicate IsSmsAdvertisementOptOutLine(line: string) {
    && StartsWith(line, OPT_OUT_WORD)
    && var rest := line[|OPT_OUT_WORD|..];
       var number := TrimStart(rest);
       && |number| < |rest|
       && StartsWith(number, "080")
       && IsNumberTail(number[3..])
  }

  predicate NumberTail(tail: string) {
    tail != "" && forall c | c in tail :: c == '-' || IsDigit(c) || IsSpace(c)
  }

  /** An opt-out line is the word, white space, 080 and then at least one more digit, dash or white space. */
  lemma OptOutLineIs(line: string)
    ensures IsSmsAdvertisementOptOutLine(line)
       <==> exists space, tail ::
              && line == OPT_OUT_WORD + space + "080" + tail
              && space != "" && AllSpace(space) && NumberTail(tail)
  {
    hide IsSpace, AllSpace, TrimStart;
    if IsSmsAdvertisementOptOutLine(line) {
      var rest := line[|OPT_OUT_WORD|..];
      var space := LeftMargin(rest);
      var tail := TrimStart(rest)[3..];
      assert line == OPT_OUT_WORD + rest && TrimStart(rest) == "080" + tail;
      assert OPT_OUT_WORD + (space + ("080" + tail)) == OPT_OUT_WORD + space + "080" + tail;
      assert NumberTail(tail);
      assert line == OPT_OUT_WORD + space + "080" + tail && space != "";
    }
    forall space, tail |
        line == OPT_OUT_WORD + space + "080" + tail && space != "" && AllSpace(space) && NumberTail(tail)
      ensures IsSmsAdvertisementOptOutLine(line)
    {
      NoDigitIsSpace('0');
      assert line[|OPT_OUT_WORD|..] == space + ("080" + tail);
      TrimStartIs(space, "080" + tail);
      assert ("080" + tail)[3..] == tail;
    }
  }

  lemma NoDigitIsSpace(c: char)
    requires IsDigit(c)
    ensures !IsSpace(c)
  {}

  /** The lines that are kept, with their trailing white space removed. */
  function KeptLines(lines: seq<string>): seq<string> {
    if lines == [] then []
    else
      var line := TrimEnd(lines[0]);
      if IsSmsAdvertisementOptOutLine(Trim(line)) then KeptLines(lines[1..]) else [line] + KeptLines(lines[1..])
  }

  function NormalizedBody(body: string): string {
    Trim(NormalizeNewlines(body))
  }

  function Content(normalizedBody: string, name: string): string {
    StripLeadingAdvertisementPrefix(Trim(JoinLines(KeptLines(SplitLines(normalizedBody)))), name)
  }

  /** A missing opt-out text is the empty text. */
  function OptOutText(optOutText: string): (r: string)
    ensures r != "" && Trimmed(r)
  {
    var text := Trim(NormalizeNewlines(optOutText));
    if text != "" then text else SMS_ADVERTISEMENT_OPT_OUT_TEXT
  }

  function Assemble(name: string, content: string, optOut: string): string {
    JoinLines(if content != "" then [SMS_ADVERTISEMENT_PREFIX + name, content, optOut]
              else [SMS_ADVERTISEMENT_PREFIX + name, optOut])
  }

  function FormatSmsBody(body: string, isAdvertisement: bool, advertisingServiceName: string,
                         optOutText: string): string {
    if !isAdvertisement then NormalizedBody(body)
    else
      var name := SanitizeAdvertisingServiceName(advertisingServiceName);
      Assemble(name, Content(NormalizedBody(body), name), OptOutText(optOutText))
  }

  /** How the lines of a body end makes no difference, and a plain body is its trimmed lines. */
  lemma LineEndsMakeNoDifference(lines: seq<string>, ends: seq<string>, isAdvertisement: bool, serviceName: string,
                                 optOutText: string)
    requires LinesWithEnds(lines, ends)
    ensures FormatSmsBody(JoinWith(lines, ends), isAdvertisement, serviceName, optOutText)
         == FormatSmsBody(JoinLines(lines), isAdvertisement, serviceName, optOutText)
    ensures FormatSmsBody(JoinWith(lines, ends), false, serviceName, optOutText) == Trim(JoinLines(lines))
  {
    LineEndsBecomeNewlines(lines, ends);
    JoinChars(lines, '\r');
    NormalizeKeeps(JoinLines(lines));
  }

  // --------------------------------------------------------- sanitised names

  predicate SanitizedName(name: string) {
    Trimmed(name) && '\n' !in name && '\r' !in name
  }

  lemma {:induction false} CollapsedIsOneLine(s: string)
    ensures '\n' !in CollapseSpace(s) && '\r' !in CollapseSpace(s)
    decreases |s|
  {
    if s != "" {
      CollapsedIsOneLine(if IsSpace(s[0]) then TrimStart(s) else s[1..]);
    }
  }

  /** Collapsing white space keeps both ends of the text when they are not white space. */
  lemma {:induction false} CollapsedEnds(s: string)
    ensures s != "" ==> CollapseSpace(s) != "" && (!IsSpace(s[0]) ==> CollapseSpace(s)[0] == s[0])
    ensures s != "" && !IsSpace(s[|s| - 1]) ==> CollapseSpace(s)[|CollapseSpace(s)| - 1] == s[|s| - 1]
    decreases |s|
  {
    if s != "" {
      var rest := if IsSpace(s[0]) then TrimStart(s) else s[1..];
      CollapsedEnds(rest);
      assert rest != "" ==> rest[|rest| - 1] == s[|s| - 1];
    }
  }

  lemma CollapseSpaceThen(c: string)
    requires c == "" || !IsSpace(c[0])
    ensures CollapseSpace(" " + c) == " " + CollapseSpace(c)
  {
    assert (" " + c)[0] == ' ';
    TrimStartIs(" ", c);
  }

  lemma {:induction false} CollapseTwice(s: string)
    ensures CollapseSpace(CollapseSpace(s)) == CollapseSpace(s)
    decreases |s|
  {
    if s != "" {
      if IsSpace(s[0]) {
        var t := TrimStart(s);
        CollapseTwice(t);
        CollapsedEnds(t);
        CollapseSpaceThen(CollapseSpace(t));
      } else {
        CollapseTwice(s[1..]);
        var c := CollapseSpace(s[1..]);
        assert ([s[0]] + c)[1..] == c;
      }
    }
  }

  lemma SanitizeIsStable(value: string)
    ensures var name := SanitizeAdvertisingServiceName(value);
            SanitizedName(name) && SanitizeAdvertisingServiceName(name) == name
  {
    CollapsedIsOneLine(Trim(value));
    CollapsedEnds(Trim(value));
    CollapseTwice(Trim(value));
    TrimKeeps(SanitizeAdvertisingServiceName(value));
  }

  // ------------------------------------------------- what content looks like

  predicate EndsTrimmed(s: string) {
    s == "" || !IsSpace(s[|s| - 1])
  }

  predicate StartsTrimmed(s: string) {
    s == "" || !IsSpace(s[0])
  }

  predicate OptOut(line: string) {
    IsSmsAdvertisementOptOutLine(Trim(line))
  }

  /** Lines with no trailing white space, of which only the first may be dropped:
      removing a prefix can uncover an opt-out line. */
  predicate CleanLines(lines: seq<string>, dropped: string -> bool) {
    forall i | 0 <= i < |lines| :: EndsTrimmed(lines[i]) && (i > 0 ==> !dropped(lines[i]))
  }

  predicate CleanContent(content: string) {
    Trimmed(content) && '\r' !in content && CleanLines(SplitLines(content), OptOut)
  }

  /** One line without line breaks or trailing white space that is not an opt-out line. */
  predicate CleanLine(line: string) {
    '\n' !in line && '\r' !in line && EndsTrimmed(line) && !OptOut(line)
  }

  lemma TrimEndOfLine(line: string)
    requires '\n' !in line && '\r' !in line
    ensures '\n' !in TrimEnd(line) && '\r' !in TrimEnd(line) && EndsTrimmed(TrimEnd(line))
  {
    hide IsSpace;
  }

  lemma {:induction false} KeptLinesAreClean(lines: seq<string>)
    requires forall i | 0 <= i < |lines| :: '\n' !in lines[i] && '\r' !in lines[i]
    ensures forall i | 0 <= i < |KeptLines(lines)| :: CleanLine(KeptLines(lines)[i])
  {
    hide TrimEnd, IsSmsAdvertisementOptOutLine, Trim;
    if lines != [] {
      KeptLinesAreClean(lines[1..]);
      TrimEndOfLine(lines[0]);
    }
  }

  lemma GlueTailIsClean(la: seq<string>, lb: seq<string>, dropped: string -> bool)
    requires |la| > 0 && |lb| > 0
    requires CleanLines(GlueLines(la, lb), dropped)
    ensures CleanLines(lb, dropped)
  {
    var whole := GlueLines(la, lb);
    var last := |la| - 1;
    assert whole[last] == la[last] + lb[0] && EndsTrimmed(whole[last]);
    assert lb[0] != "" ==> whole[last][|whole[last]| - 1] == lb[0][|lb[0]| - 1];
    forall i | 0 < i < |lb|
      ensures EndsTrimmed(lb[i]) && !dropped(lb[i])
    {
      assert whole[last + i] == lb[i];
    }
  }

  /** Cleanness passes to every suffix. */
  lemma SuffixIsClean(a: string, s: string, dropped: string -> bool)
    requires CleanLines(SplitLines(a + s), dropped)
    ensures CleanLines(SplitLines(s), dropped)
  {
    SplitGlue(a, s);
    GlueTailIsClean(SplitLines(a), SplitLines(s), dropped);
  }

  lemma {:induction false} LastLineEnds(s: string)
    requires s != "" && s[|s| - 1] != '\n'
    ensures var last := SplitLines(s)[|SplitLines(s)| - 1]; last != "" && last[|last| - 1] == s[|s| - 1]
  {
    var n := |s| - 1;
    assert s == s[..n] + [s[n]];
    SplitGlue(s[..n], [s[n]]);
    SplitOneLine([s[n]]);
  }

  lemma NoSpaceToDrop(line: string, sp: string)
    requires EndsTrimmed(line + sp) && AllSpace(sp) && EndsTrimmed(line)
    ensures line + sp == line
  {
    TrimEndIs(line, sp);
    TrimEndIs(line + sp, "");
    assert (line + sp) + "" == line + sp;
  }

  lemma GlueHeadIsClean(la: seq<string>, lb: seq<string>, dropped: string -> bool)
    requires |la| > 0 && |lb| > 0
    requires CleanLines(GlueLines(la, lb), dropped)
    requires AllSpace(lb[0]) && EndsTrimmed(la[|la| - 1])
    ensures CleanLines(la, dropped)
  {
    var whole, last := GlueLines(la, lb), |la| - 1;
    assert whole[last] == la[last] + lb[0];
    NoSpaceToDrop(la[last], lb[0]);
    assert forall i | 0 <= i < |la| :: whole[i] == la[i];
  }

  lemma FirstLineIsSpace(b: string)
    requires AllSpace(b)
    ensures AllSpace(SplitLines(b)[0])
  {
    var line := SplitLines(b)[0];
    forall i | 0 <= i < |line| ensures IsSpace(line[i]) {
      LineChars(b, 0, line[i]);
    }
  }

  /** Cleanness survives dropping trailing white space. */
  lemma TrimEndIsClean(s: string, b: string, dropped: string -> bool)
    requires CleanLines(SplitLines(s + b), dropped) && AllSpace(b)
    requires s != "" && !IsSpace(s[|s| - 1])
    ensures CleanLines(SplitLines(s), dropped)
  {
    hide CleanLines, IsSpace, AllSpace, SplitLines;
    assert s[|s| - 1] != '\n' by { NewlineIsSpace(); }
    SplitGlue(s, b);
    LastLineEnds(s);
    FirstLineIsSpace(b);
    GlueHeadIsClean(SplitLines(s), SplitLines(b), dropped);
  }

  lemma NewlineIsSpace()
    ensures IsSpace('\n')
  {}

  /** The text that is left when something is cut off the front. */
  predicate IsSuffix(r: string, s: string) {
    |r| <= |s| && s[|s| - |r|..] == r
  }

  lemma SuffixTrans(q: string, r: string, s: string)
    requires IsSuffix(q, r) && IsSuffix(r, s)
    ensures IsSuffix(q, s)
  {
    assert s[|s| - |q|..] == r[|r| - |q|..];
  }

  lemma TrimStartIsSuffix(s: string, k: nat)
    requires k <= |s|
    ensures IsSuffix(TrimStart(s[k..]), s)
  {
    var t := s[k..];
    var n := LeadingSpace(t);
    assert t[n..] == s[k + n..];
  }

  lemma StripPrefixIsSuffix(s: string)
    ensures IsSuffix(StripPrefix(s), s)
  {
    if StartsWith(s, SMS_ADVERTISEMENT_PREFIX) {
      TrimStartIsSuffix(s, |SMS_ADVERTISEMENT_PREFIX|);
    }
  }

  lemma StripNamedPrefixIsSuffix(s: string, name: string)
    ensures IsSuffix(StripNamedPrefix(s, name), s)
  {
    if StartsWith(s, SMS_ADVERTISEMENT_PREFIX) {
      TrimStartIsSuffix(s, |SMS_ADVERTISEMENT_PREFIX|);
      var rest := TrimStart(s[|SMS_ADVERTISEMENT_PREFIX|..]);
      if StartsWith(rest, name) {
        TrimStartIsSuffix(rest, |name|);
        SuffixTrans(TrimStart(rest[|name|..]), rest, s);
      }
    }
  }

  lemma StripIsSuffix(body: string, name: string)
    ensures IsSuffix(StripLeadingAdvertisementPrefix(body, name), body)
  {
    var next := TrimStart(body);
    assert body[0..] == body;
    TrimStartIsSuffix(body, 0);
    var named := if name != "" then StripNamedPrefix(next, name) else next;
    StripNamedPrefixIsSuffix(next, name);
    SuffixTrans(named, next, body);
    var stripped := StripPrefix(named);
    StripPrefixIsSuffix(named);
    SuffixTrans(stripped, named, body);
    assert stripped[0..] == stripped;
    TrimStartIsSuffix(stripped, 0);
    SuffixTrans(TrimStart(stripped), stripped, body);
  }

  /** A suffix of clean, trimmed text that starts with no white space is clean content. */
  lemma SuffixIsCleanContent(r: string, s: string)
    requires IsSuffix(r, s) && (r == "" || !IsSpace(r[0]))
    requires CleanLines(SplitLines(s), OptOut) && EndsTrimmed(s) && '\r' !in s
    ensures CleanContent(r)
  {
    assert s == s[..|s| - |r|] + r;
    SuffixIsClean(s[..|s| - |r|], r, OptOut);
  }

  lemma TrimmedTextIsClean(joined: string, dropped: string -> bool)
    requires CleanLines(SplitLines(joined), dropped)
    ensures CleanLines(SplitLines(Trim(joined)), dropped)
  {
    var t := Trim(joined);
    if t != "" {
      var a, b := TrimMargins(joined);
      assert (a + t)[|a + t| - 1] == t[|t| - 1];
      TrimEndIsClean(a + t, b, dropped);
      SuffixIsClean(a, t, dropped);
    }
  }

  lemma ContentIsClean(normalizedBody: string, name: string)
    requires '\r' !in normalizedBody
    ensures CleanContent(Content(normalizedBody, name))
  {
    var lines := SplitLines(normalizedBody);
    forall i | 0 <= i < |lines| ensures '\r' !in lines[i] {
      if '\r' in lines[i] {
        LineChars(normalizedBody, i, '\r');
        assert false;
      }
    }
    KeptLinesAreClean(lines);
    var kept := KeptLines(lines);
    JoinChars(kept, '\r');
    if kept != [] { SplitJoin(kept); }
    TrimmedTextIsClean(JoinLines(kept), OptOut);
    var t := Trim(JoinLines(kept));
    if '\r' in t {
      TrimSubset(JoinLines(kept), '\r');
      assert false;
    }
    StripIsSuffix(t, name);
    SuffixIsCleanContent(Content(normalizedBody, name), t);
  }

  // ------------------------------------------------------- formatting again

  function NextRest(content: string): string {
    var lines := SplitLines(content);
    TrimStart(if OptOut(lines[0]) then JoinLines(lines[1..]) else content)
  }

  /** What the content becomes when a formatted advertisement is formatted once more: an
      opt-out line that has surfaced on top goes, and so does one more advertisement
      prefix when there is a service name. */
  function NextContent(name: string, content: string): string {
    var rest := NextRest(content);
    if name != "" then TrimStart(StripPrefix(rest)) else rest
  }

  predicate SingleOptOutLine(optOut: string) {
    && Trimmed(optOut)
    && '\n' !in optOut && '\r' !in optOut
    && IsSmsAdvertisementOptOutLine(optOut)
  }

  function Below(content: string): string {
    if content == "" then "" else "\n" + content
  }

  lemma AssembleIs(name: string, content: string, optOut: string)
    ensures Assemble(name, content, optOut) == SMS_ADVERTISEMENT_PREFIX + name + Below(content) + "\n" + optOut
  {
    var p := SMS_ADVERTISEMENT_PREFIX + name;
    if content != "" {
      var ls := [p, content, optOut];
      assert ls[1..] == [content, optOut];
      assert [content, optOut][1..] == [optOut];
      assert JoinLines([content, optOut]) == content + "\n" + optOut;
      assert JoinLines(ls) == p + "\n" + (content + "\n" + optOut);
      assert p + Below(content) + "\n" + optOut == p + "\n" + (content + "\n" + optOut);
    } else {
      assert [p, optOut][1..] == [optOut];
      assert p + Below(content) == p;
      assert JoinLines([p, optOut]) == p + "\n" + optOut;
    }
  }

  lemma AssembleBytes(name: string, content: string, optOut: string)
    ensures Bytes(Assemble(name, content, optOut))
         == Bytes(SMS_ADVERTISEMENT_PREFIX + name) + Bytes(Below(content)) + 1 + Bytes(optOut)
  {
    var p := SMS_ADVERTISEMENT_PREFIX + name;
    AssembleIs(name, content, optOut);
    BytesConcat(p + Below(content) + "\n", optOut);
    BytesConcat(p + Below(content), "\n");
    BytesConcat(p, Below(content));
    assert Bytes("\n") == 1 by {
      assert "\n"[..0] == "";
    }
  }

  lemma PrefixThen(p: string, rest: string)
    ensures StartsWith(p + rest, p) && (p + rest)[|p|..] == rest
  {}

  lemma StripNamedOwnPrefix(name: string, below: string)
    requires name != "" && SanitizedName(name)
    ensures StripNamedPrefix(SMS_ADVERTISEMENT_PREFIX + (name + below), name) == TrimStart(below)
  {
    PrefixThen(SMS_ADVERTISEMENT_PREFIX, name + below);
    assert (name + below)[0] == name[0];
    TrimStartKeeps(name + below);
    PrefixThen(name, below);
  }

  /** Stripping the assembled prefix line leaves the text below it, minus one further prefix when there is a name. */
  lemma StripOwnPrefix(name: string, below: string)
    requires SanitizedName(name)
    ensures StripLeadingAdvertisementPrefix(SMS_ADVERTISEMENT_PREFIX + name + below, name)
         == (if name != "" then TrimStart(StripPrefix(TrimStart(below))) else TrimStart(below))
  {
    var s := SMS_ADVERTISEMENT_PREFIX + (name + below);
    assert s == SMS_ADVERTISEMENT_PREFIX + name + below;
    assert s[0] == '(';
    TrimStartKeeps(s);
    if name != "" {
      StripNamedOwnPrefix(name, below);
    } else {
      assert name + below == below;
      PrefixThen(SMS_ADVERTISEMENT_PREFIX, below);
      assert StripPrefix(s) == TrimStart(below);
      TrimStartKeeps(TrimStart(below));
    }
  }

  lemma SplitAssembled(name: string, content: string, optOut: string)
    requires SanitizedName(name) && '\n' !in optOut
    ensures SplitLines(Assemble(name, content, optOut))
         == [SMS_ADVERTISEMENT_PREFIX + name] + (if content == "" then [] else SplitLines(content)) + [optOut]
  {
    var p := SMS_ADVERTISEMENT_PREFIX + name;
    AssembleIs(name, content, optOut);
    assert '\n' !in p by {
      assert '\n' !in SMS_ADVERTISEMENT_PREFIX;
    }
    SplitOneLine(p);
    SplitOneLine(optOut);
    SplitConcat(p + Below(content), optOut);
    if content != "" {
      assert p + Below(content) == p + "\n" + content;
      SplitConcat(p, content);
    } else {
      assert p + Below(content) == p;
    }
  }

  lemma {:induction false} KeepClean(lines: seq<string>)
    requires forall i | 0 <= i < |lines| :: EndsTrimmed(lines[i]) && !OptOut(lines[i])
    ensures KeptLines(lines) == lines
  {
    if lines != [] {
      TrimEndIs(lines[0], "");
      assert lines[0] + "" == lines[0];
      KeepClean(lines[1..]);
    }
  }

  /** The text of an ordinary advertisement survives: a normalised body without opt-out lines
      that does not start with the prefix is kept, character for character, below the prefix. */
  lemma OrdinaryBodyIsKept(body: string, serviceName: string, optOutText: string)
    requires '\r' !in body && Trimmed(body) && !StartsWith(body, SMS_ADVERTISEMENT_PREFIX)
    requires forall i | 0 <= i < |SplitLines(body)| :: EndsTrimmed(SplitLines(body)[i]) && !OptOut(SplitLines(body)[i])
    ensures FormatSmsBody(body, true, serviceName, optOutText)
         == Assemble(SanitizeAdvertisingServiceName(serviceName), body, OptOutText(optOutText))
  {
    hide SplitLines, JoinLines, KeptLines, OptOut, Assemble, OptOutText, SanitizeAdvertisingServiceName, IsSpace;
    NormalizeKeeps(body);
    TrimKeeps(body);
    KeepClean(SplitLines(body));
    JoinSplit(body);
    TrimStartKeeps(body);
  }

  lemma {:induction false} KeptConcat(a: seq<string>, b: seq<string>)
    ensures KeptLines(a + b) == KeptLines(a) + KeptLines(b)
  {
    if a == [] {
      assert a + b == b;
    } else {
      assert (a + b)[1..] == a[1..] + b;
      KeptConcat(a[1..], b);
    }
  }

  lemma KeepOne(line: string)
    requires EndsTrimmed(line)
    ensures KeptLines([line]) == if OptOut(line) then [] else [line]
  {
    TrimEndIs(line, "");
    assert line + "" == line;
    assert [line][1..] == [];
  }

  lemma OptOutLineStarts(line: string)
    ensures IsSmsAdvertisementOptOutLine(line) ==> line != "" && line[0] == OPT_OUT_WORD[0]
  {
    if IsSmsAdvertisementOptOutLine(line) {
      assert line[..|OPT_OUT_WORD|][0] == line[0];
    }
  }

  lemma PrefixLineIsKept(name: string)
    requires SanitizedName(name)
    ensures KeptLines([SMS_ADVERTISEMENT_PREFIX + name]) == [SMS_ADVERTISEMENT_PREFIX + name]
  {
    var p := SMS_ADVERTISEMENT_PREFIX + name;
    PrefixLineShape(name);
    KeepOne(p);
    TrimKeeps(p);
    OptOutLineStarts(p);
  }

  lemma PrefixLineShape(name: string)
    requires SanitizedName(name)
    ensures var p := SMS_ADVERTISEMENT_PREFIX + name;
            p != "" && p[0] != OPT_OUT_WORD[0] && Trimmed(p)
  {
    var p := SMS_ADVERTISEMENT_PREFIX + name;
    assert p[|p| - 1] == if name == "" then ')' else name[|name| - 1];
    assert p[0] == '(';
  }

  /** The lines below the prefix that a second formatting keeps. */
  function KeptBelow(content: string): seq<string> {
    if content == "" then []
    else if OptOut(SplitLines(content)[0]) then SplitLines(content)[1..]
    else SplitLines(content)
  }

  lemma KeptOfClean(lines: seq<string>)
    requires CleanLines(lines, OptOut) && lines != []
    ensures KeptLines(lines) == if OptOut(lines[0]) then lines[1..] else lines
  {
    assert [lines[0]] + lines[1..] == lines;
    KeptConcat([lines[0]], lines[1..]);
    KeepOne(lines[0]);
    forall i | 0 <= i < |lines[1..]| ensures EndsTrimmed(lines[1..][i]) && !OptOut(lines[1..][i]) {
      assert lines[1..][i] == lines[i + 1];
    }
    KeepClean(lines[1..]);
  }

  lemma KeptOfAssembled(name: string, content: string, optOut: string)
    requires SanitizedName(name) && CleanContent(content) && SingleOptOutLine(optOut)
    ensures KeptLines(SplitLines(Assemble(name, content, optOut)))
         == [SMS_ADVERTISEMENT_PREFIX + name] + KeptBelow(content)
  {
    var p := [SMS_ADVERTISEMENT_PREFIX + name];
    var lines := if content == "" then [] else SplitLines(content);
    SplitAssembled(name, content, optOut);
    KeptConcat(p + lines, [optOut]);
    KeptConcat(p, lines);
    PrefixLineIsKept(name);
    OptOutIsDropped(optOut);
    if content != "" {
      KeptOfClean(lines);
    }
  }

  lemma OptOutIsDropped(optOut: string)
    requires SingleOptOutLine(optOut)
    ensures KeptLines([optOut]) == []
  {
    KeepOne(optOut);
    TrimKeeps(optOut);
  }

  lemma TrimStartSkipsNewline(s: string)
    ensures TrimStart("\n" + s) == TrimStart(s)
  {
    var a := s[..LeadingSpace(s)];
    assert "\n" + s == ("\n" + a) + TrimStart(s);
    TrimStartIs("\n" + a, TrimStart(s));
  }

  /** What is kept below the prefix ends like the content did, and never grows. */
  lemma KeptBelowIsSuffix(content: string)
    requires Trimmed(content)
    ensures IsSuffix(JoinLines(KeptBelow(content)), content)
    ensures EndsTrimmed(JoinLines(KeptBelow(content)))
    ensures KeptBelow(content) != [] ==> JoinLines(KeptBelow(content)) != ""
    ensures content != "" && OptOut(SplitLines(content)[0]) ==> |JoinLines(KeptBelow(content))| < |content|
    ensures (content != "" && !OptOut(SplitLines(content)[0])) ==> JoinLines(KeptBelow(content)) == content
  {
    JoinSplit(content);
    if content != "" && OptOut(SplitLines(content)[0]) {
      var lines := SplitLines(content);
      FirstLineIsNotBlank(lines[0]);
      if |lines| > 1 {
        var rest := JoinLines(lines[1..]);
        assert content == lines[0] + "\n" + rest;
        assert content[|content| - |rest|..] == rest;
        assert rest != "" by {
          assert content[|lines[0]|] == '\n';
        }
        assert rest[|rest| - 1] == content[|content| - 1];
      } else {
        assert lines[1..] == [];
      }
    }
  }

  lemma FirstLineIsNotBlank(line: string)
    requires OptOut(line)
    ensures line != ""
  {
    OptOutLineStarts(Trim(line));
  }

  /** The lines below the prefix, as text that starts on a new line. */
  function BelowLines(lines: seq<string>): string {
    if lines == [] then "" else "\n" + JoinLines(lines)
  }

  lemma RejoinedIsTrimmed(name: string, lines: seq<string>)
    requires SanitizedName(name)
    requires lines != [] ==> JoinLines(lines) != "" && EndsTrimmed(JoinLines(lines))
    ensures Trim(JoinLines([SMS_ADVERTISEMENT_PREFIX + name] + lines))
        == SMS_ADVERTISEMENT_PREFIX + name + BelowLines(lines)
  {
    var p, below := SMS_ADVERTISEMENT_PREFIX + name, BelowLines(lines);
    assert ([p] + lines)[1..] == lines;
    PrefixLineShape(name);
    if lines == [] {
      assert [p] + lines == [p];
      assert p + below == p;
      TrimKeeps(p);
    } else {
      var joined := JoinLines(lines);
      assert JoinLines([p] + lines) == p + "\n" + joined == p + below;
      assert (p + below)[0] == p[0];
      assert (p + below)[|p + below| - 1] == joined[|joined| - 1];
      TrimKeeps(p + below);
    }
  }

  lemma NextContentIs(name: string, content: string)
    requires SanitizedName(name) && CleanContent(content)
    ensures StripLeadingAdvertisementPrefix(SMS_ADVERTISEMENT_PREFIX + name + BelowLines(KeptBelow(content)), name)
         == NextContent(name, content)
  {
    var lines := KeptBelow(content);
    StripOwnPrefix(name, BelowLines(lines));
    TrimStartSkipsNewline(JoinLines(lines));
    NextRestIs(content);
  }

  /** Formatting a formatted advertisement again, with the same service name, keeps the
      frame and replaces the content by `NextContent`. The two opt-out texts may differ. */
  lemma Reformat(name: string, content: string, optOut: string, serviceName: string, optOutText: string)
    requires SanitizedName(name) && SanitizeAdvertisingServiceName(serviceName) == name
    requires CleanContent(content) && SingleOptOutLine(optOut)
    ensures FormatSmsBody(Assemble(name, content, optOut), true, serviceName, optOutText)
         == Assemble(name, NextContent(name, content), OptOutText(optOutText))
  {
    var y := Assemble(name, content, optOut);
    OptOutLineStarts(optOut);
    AssembledIsNormal(name, content, optOut);
    KeptOfAssembled(name, content, optOut);
    KeptBelowIsSuffix(content);
    RejoinedIsTrimmed(name, KeptBelow(content));
    NextContentIs(name, content);
    assert Content(y, name) == NextContent(name, content);
  }

  lemma EmptyIsNotOptOut()
    ensures !OptOut(SplitLines("")[0])
  {
    TrimBlank("");
    OptOutLineStarts(Trim(""));
  }

  lemma NextRestIs(content: string)
    requires Trimmed(content)
    ensures NextRest(content) == TrimStart(JoinLines(KeptBelow(content)))
  {
    KeptBelowIsSuffix(content);
    EmptyIsNotOptOut();
  }

  lemma AssembledIsNormal(name: string, content: string, optOut: string)
    requires SanitizedName(name) && CleanContent(content)
    requires optOut != "" && Trimmed(optOut) && '\r' !in optOut
    ensures NormalizedBody(Assemble(name, content, optOut)) == Assemble(name, content, optOut)
    ensures '\r' !in Assemble(name, content, optOut)
  {
    var y := Assemble(name, content, optOut);
    AssembleIs(name, content, optOut);
    assert '\r' !in SMS_ADVERTISEMENT_PREFIX;
    assert '\r' !in Below(content);
    NormalizeKeeps(y);
    assert y[0] == '(' && y[|y| - 1] == optOut[|optOut| - 1];
    TrimKeeps(y);
  }

  // ------------------------------------------------------------ convergence

  /** The content survives a second formatting unchanged. */
  predicate Settled(name: string, content: string) {
    && !OptOut(SplitLines(content)[0])
    && (name == "" || !StartsWith(content, SMS_ADVERTISEMENT_PREFIX))
  }

  /** Dropping leading white space leaves a suffix that starts with none. */
  lemma TrimmedSuffix(s: string)
    ensures IsSuffix(TrimStart(s), s)
    ensures StartsTrimmed(TrimStart(s))
  {
    hide IsSpace;
    assert s[0..] == s;
    TrimStartIsSuffix(s, 0);
  }

  lemma NextRestIsSuffix(content: string)
    requires Trimmed(content)
    ensures IsSuffix(NextRest(content), content) && StartsTrimmed(NextRest(content))
  {
    hide *;
    var joined := JoinLines(KeptBelow(content));
    NextRestIs(content);
    TrimmedSuffix(joined);
    KeptBelowIsSuffix(content);
    SuffixTrans(NextRest(content), joined, content);
  }

  lemma NextRestIsContentIff(content: string)
    requires Trimmed(content)
    ensures NextRest(content) == content <==> !OptOut(SplitLines(content)[0])
  {
    hide IsSpace, SplitLines, JoinLines, KeptBelow, OptOut, TrimStart, NextRest, IsSuffix;
    var joined := JoinLines(KeptBelow(content));
    KeptBelowIsSuffix(content);
    NextRestIs(content);
    TrimmedSuffix(joined);
    SuffixIsShorter(NextRest(content), joined);
    if content == "" {
      EmptyIsNotOptOut();
      SuffixIsShorter(joined, content);
    } else if !OptOut(SplitLines(content)[0]) {
      TrimStartKeeps(content);
    }
  }

  lemma SuffixIsShorter(r: string, s: string)
    requires IsSuffix(r, s)
    ensures |r| <= |s|
  {}

  lemma StripAgain(rest: string)
    requires rest == "" || !IsSpace(rest[0])
    ensures var r := TrimStart(StripPrefix(rest));
            && IsSuffix(r, rest)
            && (r != "" ==> !IsSpace(r[0]))
            && (r == rest <==> !StartsWith(rest, SMS_ADVERTISEMENT_PREFIX))
  {
    StripPrefixIsSuffix(rest);
    var stripped := StripPrefix(rest);
    assert stripped[0..] == stripped;
    TrimStartIsSuffix(stripped, 0);
    SuffixTrans(TrimStart(stripped), stripped, rest);
    TrimStartKeeps(stripped);
  }

  lemma NextContentIsSuffix(name: string, content: string)
    requires CleanContent(content)
    ensures IsSuffix(NextContent(name, content), content)
    ensures CleanContent(NextContent(name, content))
    ensures NextContent(name, content) == content <==> Settled(name, content)
  {
    hide IsSpace, SplitLines, OptOut, TrimStart, StripPrefix, StartsWith, IsSuffix, CleanLines, NextRest;
    var rest := NextRest(content);
    NextRestIsSuffix(content);
    NextRestIsContentIff(content);
    StripAgain(rest);
    if name != "" {
      SuffixTrans(TrimStart(StripPrefix(rest)), rest, content);
      SuffixIsShorter(TrimStart(StripPrefix(rest)), rest);
      SuffixIsShorter(rest, content);
    }
    SuffixIsCleanContent(NextContent(name, content), content);
  }

  lemma SuffixBytes(r: string, s: string)
    requires IsSuffix(r, s)
    ensures Bytes(r) <= Bytes(s) && (r != s ==> |r| < |s|)
    ensures Bytes(Below(r)) <= Bytes(Below(s))
  {
    assert s == s[..|s| - |r|] + r;
    BytesConcat(s[..|s| - |r|], r);
    BytesConcat("\n", r);
    BytesConcat("\n", s);
  }

  ghost predicate FixedPoint(y: string, serviceName: string, optOutText: string) {
    FormatSmsBody(y, true, serviceName, optOutText) == y
  }

  /** A formatted advertisement: a sanitised name, clean content and one opt-out line. */
  lemma FormatShape(body: string, serviceName: string, optOutText: string)
    returns (name: string, content: string)
    ensures name == SanitizeAdvertisingServiceName(serviceName)
    ensures content == Content(NormalizedBody(body), name)
    ensures SanitizedName(name) && CleanContent(content)
    ensures FormatSmsBody(body, true, serviceName, optOutText) == Assemble(name, content, OptOutText(optOutText))
  {
    name := SanitizeAdvertisingServiceName(serviceName);
    SanitizeIsStable(serviceName);
    var normalized := NormalizedBody(body);
    NormalizedHasNoReturn(body);
    content := Content(normalized, name);
    ContentIsClean(normalized, name);
  }

  /** Formatting again never lengthens a formatted advertisement, shortens it until nothing
      changes, and changes nothing exactly when no opt-out line has surfaced on top of the
      content and, if there is a service name, the content does not start with the prefix. */
  lemma FormattingAgain(body: string, serviceName: string, optOutText: string)
    requires SingleOptOutLine(OptOutText(optOutText))
    ensures var y := FormatSmsBody(body, true, serviceName, optOutText);
            var z := FormatSmsBody(y, true, serviceName, optOutText);
            var name := SanitizeAdvertisingServiceName(serviceName);
            && Bytes(z) <= Bytes(y)
            && (z != y ==> |z| < |y|)
            && (z == y <==> Settled(name, Content(NormalizedBody(body), name)))
  {
    var name, content := FormatShape(body, serviceName, optOutText);
    var optOut := OptOutText(optOutText);
    Reformat(name, content, optOut, serviceName, optOutText);
    var next := NextContent(name, content);
    NextContentIsSuffix(name, content);
    SuffixBytes(next, content);
    AssembleBytes(name, content, optOut);
    AssembleBytes(name, next, optOut);
    AssembleIs(name, content, optOut);
    AssembleIs(name, next, optOut);
  }

  function Iterate(f: string -> string, y: string, n: nat): string
    decreases n
  {
    if n == 0 then y else Iterate(f, f(y), n - 1)
  }

  lemma {:induction false} IterationSettles(f: string -> string, kept: string -> bool, y: string) returns (n: nat)
    requires kept(y)
    requires forall x :: kept(x) ==> kept(f(x)) && (f(x) != x ==> |f(x)| < |x|)
    ensures n <= |y| && f(Iterate(f, y, n)) == Iterate(f, y, n)
    decreases |y|
  {
    if f(y) == y {
      n := 0;
    } else {
      n := IterationSettles(f, kept, f(y));
      n := n + 1;
    }
  }

  ghost predicate IsFormatted(y: string, serviceName: string, optOutText: string) {
    exists body :: y == FormatSmsBody(body, true, serviceName, optOutText)
  }

  /** Formatting reaches a fixed point after finitely many rounds, whatever the body. */
  lemma FormattingConverges(body: string, serviceName: string, optOutText: string) returns (n: nat)
    requires SingleOptOutLine(OptOutText(optOutText))
    ensures var y := FormatSmsBody(body, true, serviceName, optOutText);
            var round := x => FormatSmsBody(x, true, serviceName, optOutText);
            n <= |y| && FixedPoint(Iterate(round, y, n), serviceName, optOutText)
  {
    var round := x => FormatSmsBody(x, true, serviceName, optOutText);
    ghost var formatted := (x: string) => IsFormatted(x, serviceName, optOutText);
    forall x | formatted(x) ensures formatted(round(x)) && (round(x) != x ==> |round(x)| < |x|) {
      FormattedShrinks(x, serviceName, optOutText);
    }
    n := IterationSettles(round, formatted, round(body));
  }

  lemma FormattedShrinks(x: string, serviceName: string, optOutText: string)
    requires SingleOptOutLine(OptOutText(optOutText)) && IsFormatted(x, serviceName, optOutText)
    ensures var z := FormatSmsBody(x, true, serviceName, optOutText);
            IsFormatted(z, serviceName, optOutText) && (z != x ==> |z| < |x|)
  {
    var body :| x == FormatSmsBody(body, true, serviceName, optOutText);
    FormattingAgain(body, serviceName, optOutText);
  }

  /** Every formatted advertisement starts with the prefix line and ends with the opt-out
      line, and no line between the first line of the content and the end is an opt-out line. */
  lemma FirstAndLastLine(body: string, serviceName: string, optOutText: string)
    requires '\n' !in OptOutText(optOutText)
    ensures FramedLines(SplitLines(FormatSmsBody(body, true, serviceName, optOutText)),
                        SanitizeAdvertisingServiceName(serviceName), OptOutText(optOutText))
  {
    var name, content := FormatShape(body, serviceName, optOutText);
    var optOut := OptOutText(optOutText);
    SplitAssembled(name, content, optOut);
    FramedByParts(name, if content == "" then [] else SplitLines(content), optOut);
  }

  predicate FramedLines(lines: seq<string>, name: string, optOut: string) {
    && |lines| >= 2
    && lines[0] == SMS_ADVERTISEMENT_PREFIX + name
    && lines[|lines| - 1] == optOut
    && (forall i | 2 <= i < |lines| - 1 :: !OptOut(lines[i]))
  }

  lemma FramedByParts(name: string, middle: seq<string>, optOut: string)
    requires CleanLines(middle, OptOut)
    ensures FramedLines([SMS_ADVERTISEMENT_PREFIX + name] + middle + [optOut], name, optOut)
  {
    var lines := [SMS_ADVERTISEMENT_PREFIX + name] + middle + [optOut];
    forall i | 2 <= i < |lines| - 1 ensures !OptOut(lines[i]) {
      assert lines[i] == middle[i - 1];
    }
  }

  // ------------------------------------------------ the API and the worker

  /** A stored 080 number: `^080\d{7,8}$`. */
  predicate Approved080Number(digits: string) {
    && (|digits| == 10 || |digits| == 11)
    && StartsWith(digits, "080")
    && forall i | 0 <= i < |digits| :: IsDigit(digits[i])
  }

  function Format080Number(value: string): string {
    var digits := Digits(value);
    if |digits| == 10 then digits[..3] + "-" + digits[3..6] + "-" + digits[6..]
    else if |digits| == 11 then digits[..3] + "-" + digits[3..7] + "-" + digits[7..]
    else value
  }

  /** The number is printed with its area, its last four digits, and what is between them. */
  lemma NumberIsGrouped(value: string)
    ensures var digits, n := Digits(value), |Digits(value)|;
            Format080Number(value)
              == if n == 10 || n == 11 then digits[..3] + "-" + digits[3..n - 4] + "-" + digits[n - 4..] else value
  {}

  function ApprovedOptOutText(number: string): string {
    OPT_OUT_WORD + " " + Format080Number(number)
  }

  lemma {:induction false} AsciiBytes(s: string)
    requires forall i | 0 <= i < |s| :: s[i] <= '\U{007F}'
    ensures Bytes(s) == |s|
  {
    if s != "" { AsciiBytes(s[..|s| - 1]); }
  }

  lemma Formatted080(number: string) returns (f: string)
    requires Approved080Number(number)
    ensures f == Format080Number(number) && FormattedNumber(f)
  {
    DigitsKeep(number);
    f := Format080Number(number);
    assert f[..3] == number[..3];
  }

  predicate FormattedNumber(f: string) {
    |f| >= 12 && StartsWith(f, "080") && forall i | 0 <= i < |f| :: f[i] == '-' || IsDigit(f[i])
  }

  lemma OptOutTextMatches(f: string)
    requires FormattedNumber(f)
    ensures IsSmsAdvertisementOptOutLine(OPT_OUT_WORD + " " + f)
  {
    var t := OPT_OUT_WORD + " " + f;
    assert t[..|OPT_OUT_WORD|] == OPT_OUT_WORD;
    assert t[|OPT_OUT_WORD|..] == " " + f;
    TrimStartIs(" ", f);
    assert IsNumberTail(f[3..]);
  }

  lemma OptOutTextIsOneLine(f: string)
    requires FormattedNumber(f)
    ensures var t := OPT_OUT_WORD + " " + f;
            t != "" && Trimmed(t) && '\n' !in t && '\r' !in t && OptOutText(t) == t
  {
    var t := OPT_OUT_WORD + " " + f;
    assert '\n' !in OPT_OUT_WORD && '\r' !in OPT_OUT_WORD;
    assert t[0] == OPT_OUT_WORD[0] && t[|t| - 1] == f[|f| - 1];
    NormalizeKeeps(t);
    TrimKeeps(t);
  }

  lemma OptOutTextBytes(f: string)
    requires FormattedNumber(f)
    ensures Bytes(OPT_OUT_WORD + " " + f) == Bytes(OPT_OUT_WORD + " ") + |f|
  {
    AsciiBytes(f);
    BytesConcat(OPT_OUT_WORD + " ", f);
  }

  /** The stored body of a manual SMS. Advertisements carry the sender's approved 080 number. */
  function ManualBody(rawBody: string, isAdvertisement: bool, serviceName: string, number: string): string {
    FormatSmsBody(Trim(rawBody), isAdvertisement, SanitizeAdvertisingServiceName(serviceName),
                  if isAdvertisement then ApprovedOptOutText(number) else "")
  }

  predicate ManualSmsAccepted(rawBody: string, isAdvertisement: bool, serviceName: string, number: string,
                              attachmentCount: nat) {
    && Trim(rawBody) != ""
    && ClassifyDomesticSmsBody(ManualBody(rawBody, isAdvertisement, serviceName, number),
       attachmentCount > 0) != OVER_LIMIT
  }

  /** The body the worker sends: the stored body formatted again, with the stored service
      name but without the stored opt-out text. */
  function WorkerBody(manualBody: string, isAdvertisement: bool, serviceName: string): string {
    FormatSmsBody(manualBody, isAdvertisement, SanitizeAdvertisingServiceName(serviceName), "")
  }

  lemma DefaultOptOutText()
    ensures OptOutText("") == SMS_ADVERTISEMENT_OPT_OUT_TEXT
    ensures FormattedNumber(SMS_ADVERTISEMENT_OPT_OUT_NUMBER)
  {
    NormalizeKeeps("");
    TrimBlank("");
  }

  /** The default opt-out text is no longer than that of any approved number. */
  lemma DefaultIsShortest(number: string)
    requires Approved080Number(number)
    ensures SingleOptOutLine(ApprovedOptOutText(number))
    ensures OptOutText(ApprovedOptOutText(number)) == ApprovedOptOutText(number)
    ensures Bytes(SMS_ADVERTISEMENT_OPT_OUT_TEXT) <= Bytes(ApprovedOptOutText(number))
  {
    var f := Formatted080(number);
    OptOutTextMatches(f);
    OptOutTextIsOneLine(f);
    OptOutTextBytes(f);
    DefaultOptOutText();
    OptOutTextBytes(SMS_ADVERTISEMENT_OPT_OUT_NUMBER);
  }

  lemma NormalizedHasNoReturn(s: string)
    ensures '\r' !in Trim(NormalizeNewlines(s))
  {
    if '\r' in Trim(NormalizeNewlines(s)) {
      TrimSubset(NormalizeNewlines(s), '\r');
      assert false;
    }
  }

  lemma OptOutHasNoReturn(optOutText: string)
    ensures '\r' !in OptOutText(optOutText)
  {
    NormalizedHasNoReturn(optOutText);
    DefaultOptOutText();
    OptOutTextIsOneLine(SMS_ADVERTISEMENT_OPT_OUT_NUMBER);
  }

  lemma FormattedHasNoReturn(body: string, serviceName: string, optOutText: string)
    ensures '\r' !in FormatSmsBody(body, true, serviceName, optOutText)
  {
    var name, content := FormatShape(body, serviceName, optOutText);
    OptOutHasNoReturn(optOutText);
    AssembledIsNormal(name, content, OptOutText(optOutText));
  }

  /** The opt-out texts of the two runs differ; only their length matters. */
  lemma ReformatDoesNotGrow(body: string, serviceName: string, first: string, second: string)
    requires SingleOptOutLine(OptOutText(first))
    requires Bytes(OptOutText(second)) <= Bytes(OptOutText(first))
    requires SanitizeAdvertisingServiceName(serviceName) == serviceName
    ensures var stored := FormatSmsBody(body, true, serviceName, first);
            Bytes(FormatSmsBody(stored, true, serviceName, second)) <= Bytes(stored)
  {
    var name, content := FormatShape(body, serviceName, first);
    Reformat(name, content, OptOutText(first), serviceName, second);
    NextContentIsSuffix(name, content);
    var next := NextContent(name, content);
    SuffixBytes(next, content);
    AssembleBytes(name, content, OptOutText(first));
    AssembleBytes(name, next, OptOutText(second));
  }

  lemma WorkerAdvertisement(rawBody: string, serviceName: string, number: string)
    requires Approved080Number(number)
    ensures var stored := ManualBody(rawBody, true, serviceName, number);
            var sent := WorkerBody(stored, true, serviceName);
            && '\r' !in stored && '\r' !in sent
            && Bytes(sent) <= Bytes(stored)
            && FramedLines(SplitLines(sent), SanitizeAdvertisingServiceName(serviceName),
               SMS_ADVERTISEMENT_OPT_OUT_TEXT)
  {
    var service := SanitizeAdvertisingServiceName(serviceName);
    var approved := ApprovedOptOutText(number);
    var stored := ManualBody(rawBody, true, serviceName, number);
    DefaultIsShortest(number);
    DefaultOptOutText();
    SanitizeIsStable(serviceName);
    ReformatDoesNotGrow(Trim(rawBody), service, approved, "");
    FormattedHasNoReturn(Trim(rawBody), service, approved);
    FormattedHasNoReturn(stored, service, "");
    OptOutTextIsOneLine(SMS_ADVERTISEMENT_OPT_OUT_NUMBER);
    FirstAndLastLine(stored, service, "");
  }

  /** A manual SMS that the API accepts is never over the limit when the worker formats and
      classifies it again, with or without attachments. A plain body is sent as stored and
      keeps its class; an advertisement does not grow, and its opt-out line becomes the
      default one whatever number the sender has approved. */
  lemma AcceptedManualSmsIsSent(rawBody: string, isAdvertisement: bool, serviceName: string, number: string,
                                attachmentCount: nat, hasAttachments: bool)
    requires isAdvertisement ==> Approved080Number(number)
    requires ManualSmsAccepted(rawBody, isAdvertisement, serviceName, number, attachmentCount)
    ensures var stored := ManualBody(rawBody, isAdvertisement, serviceName, number);
            var sent := WorkerBody(stored, isAdvertisement, serviceName);
            && ClassifyDomesticSmsBody(sent, hasAttachments) != OVER_LIMIT
            && (!isAdvertisement ==> sent == stored)
            && (isAdvertisement ==>
                  && Bytes(sent) <= Bytes(stored)
                  && FramedLines(SplitLines(sent), SanitizeAdvertisingServiceName(serviceName),
                     SMS_ADVERTISEMENT_OPT_OUT_TEXT))
  {
    var stored := ManualBody(rawBody, isAdvertisement, serviceName, number);
    var sent := WorkerBody(stored, isAdvertisement, serviceName);
    if isAdvertisement {
      WorkerAdvertisement(rawBody, serviceName, number);
      NormalizeKeeps(stored);
      NormalizeKeeps(sent);
    } else {
      NormalizedHasNoReturn(Trim(rawBody));
      NormalizeKeeps(stored);
      TrimKeeps(stored);
    }
  }

  lemma StoredHasNoReturn(rawBody: string, isAdvertisement: bool, serviceName: string, number: string)
    requires isAdvertisement ==> Approved080Number(number)
    ensures '\r' !in ManualBody(rawBody, isAdvertisement, serviceName, number)
    ensures ManualBody(rawBody, false, serviceName, number) == Trim(NormalizeNewlines(Trim(rawBody)))
  {
    hide Approved080Number, ApprovedOptOutText, Trim, SanitizeAdvertisingServiceName;
    if isAdvertisement {
      FormattedHasNoReturn(Trim(rawBody), SanitizeAdvertisingServiceName(serviceName), ApprovedOptOutText(number));
    } else {
      NormalizedHasNoReturn(Trim(rawBody));
    }
  }

  /** The API accepts a manual SMS exactly when it is not blank and what is stored has at most 2000
      bytes, with attachments and without; a plain body is stored trimmed and with LF line ends. */
  lemma ManualSmsAcceptedIff(rawBody: string, isAdvertisement: bool, serviceName: string, number: string,
                             attachmentCount: nat)
    requires isAdvertisement ==> Approved080Number(number)
    ensures var stored := ManualBody(rawBody, isAdvertisement, serviceName, number);
            ManualSmsAccepted(rawBody, isAdvertisement, serviceName, number, attachmentCount)
            <==> !AllSpace(rawBody) && Bytes(stored) <= 2000
    ensures ManualBody(rawBody, false, serviceName, number) == Trim(NormalizeNewlines(Trim(rawBody)))
  {
    hide Approved080Number, ApprovedOptOutText, Trim, ManualBody, ClassifyDomesticSmsBody, AllSpace;
    var stored := ManualBody(rawBody, isAdvertisement, serviceName, number);
    TrimBlank(rawBody);
    StoredHasNoReturn(rawBody, isAdvertisement, serviceName, number);
    NormalizeKeeps(stored);
    ClassIsExact(stored, attachmentCount > 0);
  }

  /** The last line tells the opt-out text of an assembled advertisement. */
  lemma OptOutIsRead(name: string, content: string, optOut: string, other: string, otherContent: string)
    requires SanitizedName(name) && '\n' !in optOut && '\n' !in other
    ensures Assemble(name, content, optOut) == Assemble(name, otherContent, other) ==> optOut == other
  {
    hide SplitLines, Assemble, SanitizedName;
    SplitAssembled(name, content, optOut);
    SplitAssembled(name, otherContent, other);
    var lines := SplitLines(Assemble(name, content, optOut));
    var otherLines := SplitLines(Assemble(name, otherContent, other));
    assert lines[|lines| - 1] == optOut && otherLines[|otherLines| - 1] == other;
  }

  /** An advertisement is sent exactly as stored exactly when the sender's approved number is the
      default one and the content survives a second formatting. */
  lemma StoredIsSentIff(rawBody: string, serviceName: string, number: string)
    requires Approved080Number(number)
    ensures var name := SanitizeAdvertisingServiceName(serviceName);
            var stored := ManualBody(rawBody, true, serviceName, number);
            WorkerBody(stored, true, serviceName) == stored
            <==> ApprovedOptOutText(number) == SMS_ADVERTISEMENT_OPT_OUT_TEXT
                 && Settled(name, Content(NormalizedBody(Trim(rawBody)), name))
  {
    hide Settled, NextContent, Content, NormalizedBody, Approved080Number, ApprovedOptOutText;
    var service := SanitizeAdvertisingServiceName(serviceName);
    var approved := ApprovedOptOutText(number);
    SanitizeIsStable(serviceName);
    DefaultIsShortest(number);
    DefaultOptOutText();
    var name, content := FormatShape(Trim(rawBody), service, approved);
    Reformat(name, content, approved, service, "");
    NextContentIsSuffix(name, content);
    var next := NextContent(name, content);
    OptOutTextIsOneLine(SMS_ADVERTISEMENT_OPT_OUT_NUMBER);
    OptOutIsRead(name, content, approved, SMS_ADVERTISEMENT_OPT_OUT_TEXT, next);
    if next != content {
      NextContentIsSuffix(name, content);
      SuffixBytes(next, content);
      AssembleIs(name, content, approved);
      AssembleIs(name, next, approved);
    }
  }

  lemma ExampleNumber()
    ensures Approved080Number("0801234567")
    ensures Format080Number("0801234567") == "080-123-4567"
  {
    hide Digits;
    var number := "0801234567";
    assert number[..3] == "080" && number[3..6] == "123" && number[6..] == "4567";
    assert "080" + "-" + "123" + "-" + "4567" == "080-123-4567";
    DigitsKeep(number);
  }

  /** The sender's number 080-123-4567 is approved, and yet the advertisement goes out with the default line. */
  lemma ApprovedLineIsReplaced(rawBody: string, serviceName: string)
    ensures var stored := ManualBody(rawBody, true, serviceName, "0801234567");
            && Approved080Number("0801234567")
            && ApprovedOptOutText("0801234567") == OPT_OUT_WORD + " " + "080-123-4567"
            && WorkerBody(stored, true, serviceName) != stored
  {
    hide Approved080Number, Format080Number, ManualBody, WorkerBody, Settled;
    ExampleNumber();
    StoredIsSentIff(rawBody, serviceName, "0801234567");
    OtherText();
  }

  lemma OtherText()
    ensures OPT_OUT_WORD + " " + "080-123-4567" != SMS_ADVERTISEMENT_OPT_OUT_TEXT
  {
    var text := OPT_OUT_WORD + " " + "080-123-4567";
    assert text[|text| - 1] == '7';
  }
}
