/** The placeholder expression of `packages/shared`, in both of its spellings:
    `{{ key }}` and `#{ key }`. The regular expression is modelled twice: as the
    backtracking search of ECMA-262 (section 22.2) and as a direct scan for the first
    closing brace. The two are proved to agree, and everything else uses the scan. */
module Placeholders {
  import opened Wrappers
  import opened JsText

  // ------------------------------------------------- the backtracking search

  /** Where the capture group starts and ends, and where the whole match ends. */
  datatype Capture = Capture(from: nat, to: nat, end: nat)

  /** The greedy `\s*` after the group: the longest run first, then shorter ones. */
  function TryTrailing(s: string, to: nat, c: nat, close: string): Option<nat>
    requires to <= c <= |s|
    decreases c
  {
    if StartsWith(s[c..], close) then Some(c + |close|)
    else if c > to then TryTrailing(s, to, c - 1, close)
    else None
  }

  /** The lazy `[^}]+?`: one character first, then more. */
  function TryGroup(s: string, from: nat, to: nat, close: string): Option<Capture>
    requires from <= to <= |s|
    decreases |s| - to
  {
    if to == |s| || s[to] == '}' then None
    else
      var next := to + 1;
      match TryTrailing(s, next, next + LeadingSpace(s[next..]), close)
      case Some(end) => Some(Capture(from, next, end))
      case None => TryGroup(s, from, next, close)
  }

  /** The greedy `\s*` before the group. */
  function TryLeading(s: string, i: nat, from: nat, close: string): Option<Capture>
    requires i <= from <= |s|
    decreases from
  {
    match TryGroup(s, from, from, close)
    case Some(c) => Some(c)
    case None => if from > i then TryLeading(s, i, from - 1, close) else None
  }

  /** `\s*([^}]+?)\s*CLOSE` at position `i`. */
  function Backtrack(s: string, i: nat, close: string): Option<Capture>
    requires i <= |s|
  {
    TryLeading(s, i, i + LeadingSpace(s[i..]), close)
  }

  // --------------------------------------------------------- the direct scan

  /** The position of the first closing brace, or the length of the text. */
  function FirstBrace(s: string): (p: nat)
    ensures p <= |s| && (p < |s| ==> s[p] == '}')
    ensures forall i | 0 <= i < p :: s[i] != '}'
  {
    if s == "" || s[0] == '}' then 0 else 1 + FirstBrace(s[1..])
  }

  /** The inside of a placeholder that is closed by `close`, if the text starts with one. */
  function Inside(s: string, close: string): Option<string> {
    var p := FirstBrace(s);
    if p > 0 && StartsWith(s[p..], close) then Some(s[..p]) else None
  }

  predicate Closing(close: string) {
    close == "}}" || close == "}"
  }

  lemma BraceIsNotSpace()
    ensures !IsSpace('}')
  {}

  lemma CloseStarts(s: string, close: string)
    requires Closing(close)
    ensures StartsWith(s, close) ==> s != "" && s[0] == '}'
  {
    if StartsWith(s, close) {
      assert s[0] == s[..|close|][0];
    }
  }

  predicate SpaceBetween(s: string, i: nat, j: nat)
    requires j <= |s|
  {
    forall k | i <= k < j :: IsSpace(s[k])
  }

  /** `p` is the first closing brace at or after `i`, or the end of the text. */
  predicate BraceAfter(s: string, i: nat, p: nat) {
    && i <= p <= |s|
    && (forall k | i <= k < p :: s[k] != '}')
    && (p < |s| ==> s[p] == '}')
  }

  lemma LeadingSpaceAt(s: string, i: nat)
    requires i <= |s|
    ensures var c := i + LeadingSpace(s[i..]);
            c <= |s| && SpaceBetween(s, i, c) && (c < |s| ==> !IsSpace(s[c]))
  {
    hide IsSpace;
    var t := s[i..];
    var n := LeadingSpace(t);
    forall k | i <= k < i + n ensures IsSpace(s[k]) {
      assert s[k] == t[k - i];
    }
  }

  /** Giving back white space never helps: what follows must be a brace. */
  lemma {:induction false} TrailingFails(s: string, to: nat, c: nat, close: string)
    requires Closing(close) && to <= c < |s| && SpaceBetween(s, to, c + 1)
    ensures TryTrailing(s, to, c, close) == None
    decreases c
  {
    hide IsSpace;
    CloseStarts(s[c..], close);
    BraceIsNotSpace();
    if c > to { TrailingFails(s, to, c - 1, close); }
  }

  lemma TrailingIs(s: string, to: nat, c: nat, close: string)
    requires Closing(close) && to <= c <= |s| && SpaceBetween(s, to, c)
    ensures TryTrailing(s, to, c, close) == if StartsWith(s[c..], close) then Some(c + |close|) else None
  {
    hide IsSpace;
    if c > to { TrailingFails(s, to, c - 1, close); }
  }

  /** The white space behind the group and the closing must reach exactly the first closing brace. */
  lemma TrailingAt(s: string, next: nat, p: nat, close: string)
    requires Closing(close) && BraceAfter(s, next, p)
    ensures var c := next + LeadingSpace(s[next..]);
            && c <= |s|
            && TryTrailing(s, next, c, close)
               == if SpaceBetween(s, next, p) && StartsWith(s[p..], close) then Some(p + |close|) else None
  {
    hide IsSpace, StartsWith;
    BraceIsNotSpace();
    LeadingSpaceAt(s, next);
    var c := next + LeadingSpace(s[next..]);
    assert c <= p;
    TrailingIs(s, next, c, close);
    CloseStarts(s[c..], close);
    CloseStarts(s[p..], close);
  }

  /** The group search ends at the first closing brace, with only white space behind the group. */
  lemma {:induction false} GroupIs(s: string, from: nat, to: nat, p: nat, close: string)
    requires Closing(close) && from <= to && BraceAfter(s, to, p)
    ensures match TryGroup(s, from, to, close)
            case Some(c) =>
              && to < p && StartsWith(s[p..], close)
              && c.from == from && to < c.to <= p && c.end == p + |close|
              && SpaceBetween(s, c.to, p)
            case None => !(to < p && StartsWith(s[p..], close))
    decreases |s| - to
  {
    hide IsSpace, StartsWith, LeadingSpace, TryTrailing;
    if to < p {
      TrailingAt(s, to + 1, p, close);
      GroupIs(s, from, to + 1, p, close);
    }
  }

  lemma {:induction false} LeadingIs(s: string, i: nat, from: nat, p: nat, close: string)
    requires Closing(close) && i <= from <= p && BraceAfter(s, i, p) && SpaceBetween(s, i, from)
    ensures match TryLeading(s, i, from, close)
            case Some(c) =>
              && i < p && StartsWith(s[p..], close)
              && i <= c.from < c.to <= p && c.end == p + |close|
              && SpaceBetween(s, i, c.from) && SpaceBetween(s, c.to, p)
            case None => !(i < p && StartsWith(s[p..], close))
    decreases from
  {
    hide IsSpace, StartsWith;
    GroupIs(s, from, from, p, close);
    if from > i { LeadingIs(s, i, from - 1, p, close); }
  }

  lemma FirstBraceAt(s: string, i: nat)
    requires i <= |s|
    ensures BraceAfter(s, i, i + FirstBrace(s[i..]))
  {
    hide FirstBrace;
    var t := s[i..];
    var p := i + FirstBrace(t);
    forall k | i <= k < p ensures s[k] != '}' { assert s[k] == t[k - i]; }
  }

  /** The backtracking expression and the scan agree: they match the same texts, end at the
      same place, and their keys trim to the same text. */
  lemma BacktrackIsScan(s: string, i: nat, close: string)
    requires Closing(close) && i <= |s|
    ensures match Backtrack(s, i, close)
            case Some(c) =>
              && c.from <= c.to <= |s|
              && Inside(s[i..], close).Some?
              && var w := Inside(s[i..], close).value;
                 Trim(s[c.from..c.to]) == Trim(w) && c.end == i + |w| + |close|
            case None => Inside(s[i..], close).None?
  {
    hide IsSpace, StartsWith, Trim, TryLeading, FirstBrace, LeadingSpace;
    var t := s[i..];
    var p := i + FirstBrace(t);
    FirstBraceAt(s, i);
    BraceIsNotSpace();
    LeadingSpaceAt(s, i);
    LeadingIs(s, i, i + LeadingSpace(t), p, close);
    assert t[p - i..] == s[p..];
    match Backtrack(s, i, close)
    case None =>
    case Some(c) => TrimInside(s, i, c.from, c.to, p);
  }

  lemma TrimInside(s: string, i: nat, from: nat, to: nat, p: nat)
    requires i <= from <= to <= p <= |s| && SpaceBetween(s, i, from) && SpaceBetween(s, to, p)
    ensures Trim(s[from..to]) == Trim(s[i..][..p - i])
  {
    hide IsSpace, Trim;
    assert s[i..][..p - i] == s[i..from] + s[from..to] + s[to..p];
    TrimPadded(s[i..from], s[from..to], s[to..p]);
  }

  // ----------------------------------------------------------------- matches

  /** A match at the start of a text: the length it takes and its key. */
  datatype Hole = Hole(length: nat, key: string)

  /** The first alternative is tried first. */
  function MatchHere(s: string): Option<Hole> {
    if StartsWith(s, "{{") && Inside(s[2..], "}}").Some? then
      var w := Inside(s[2..], "}}").value;
      Some(Hole(2 + |w| + 2, Trim(w)))
    else if StartsWith(s, "#{") && Inside(s[2..], "}").Some? then
      var w := Inside(s[2..], "}").value;
      Some(Hole(2 + |w| + 1, Trim(w)))
    else None
  }

  lemma InsideFits(s: string, close: string)
    ensures Inside(s, close).Some? ==>
      var w := Inside(s, close).value;
      w != "" && '}' !in w && |w| + |close| <= |s| && s[..|w| + |close|] == w + close
  {
    var p := FirstBrace(s);
    if p > 0 && StartsWith(s[p..], close) {
      assert s[..p + |close|] == s[..p] + s[p..][..|close|];
    }
  }

  lemma MatchFits(s: string)
    ensures MatchHere(s).Some? ==> 0 < MatchHere(s).value.length <= |s|
  {
    if |s| >= 2 {
      InsideFits(s[2..], "}}");
      InsideFits(s[2..], "}");
    }
  }

  // ---------------------------------------------------------------- segments

  /** One character that belongs to no placeholder, or one placeholder as it is written. */
  datatype Segment = Literal(c: char) | Placeholder(source: string, key: string) {
    function Source(): string {
      if Literal? then [c] else source
    }

    function Fill(variables: map<string, string>): string
      requires Placeholder? ==> key in variables
    {
      if Literal? then [c] else variables[key]
    }
  }

  /** Leftmost matches, without overlap. */
  function Scan(s: string): seq<Segment>
    decreases |s|
  {
    if s == "" then []
    else
      MatchFits(s);
      match MatchHere(s)
      case Some(hole) => [Placeholder(s[..hole.length], hole.key)] + Scan(s[hole.length..])
      case None => [Literal(s[0])] + Scan(s[1..])
  }

  function Print(segments: seq<Segment>): string {
    if segments == [] then ""
    else segments[0].Source() + Print(segments[1..])
  }

  /** The source of a placeholder is an opening, a non-empty inside without `}` and the
      matching closing, and the key is the trimmed inside. */
  ghost predicate WellFormed(segment: Segment) {
    segment.Placeholder? ==>
      exists w: string ::
        && w != "" && '}' !in w && segment.key == Trim(w)
        && (segment.source == "{{" + w + "}}" || segment.source == "#{" + w + "}")
  }

  lemma MatchIsWellFormed(s: string)
    requires MatchHere(s).Some?
    ensures var hole := MatchHere(s).value;
            hole.length <= |s| && WellFormed(Placeholder(s[..hole.length], hole.key))
  {
    hide Trim, Inside, IsSpace;
    MatchFits(s);
    var hole := MatchHere(s).value;
    var close := if StartsWith(s, "{{") && Inside(s[2..], "}}").Some? then "}}" else "}";
    InsideFits(s[2..], close);
    var w := Inside(s[2..], close).value;
    assert s[..hole.length] == s[..2] + s[2..][..|w| + |close|];
    assert s[..2] + (w + close) == s[..2] + w + close;
    assert s[..hole.length] == (if close == "}}" then "{{" else "#{") + w + close;
  }

  /** The scanner splits any body into literals and placeholders that print back to exactly that body. */
  lemma {:induction false} ScanPrintsBack(s: string)
    ensures Print(Scan(s)) == s
    ensures forall i | 0 <= i < |Scan(s)| :: WellFormed(Scan(s)[i])
    decreases |s|
  {
    if s != "" {
      MatchFits(s);
      match MatchHere(s)
      case Some(hole) =>
        MatchIsWellFormed(s);
        ScanPrintsBack(s[hole.length..]);
        assert s == s[..hole.length] + s[hole.length..];
        PrintCons(Placeholder(s[..hole.length], hole.key), Scan(s[hole.length..]));
      case None =>
        ScanPrintsBack(s[1..]);
        assert s == [s[0]] + s[1..];
        PrintCons(Literal(s[0]), Scan(s[1..]));
    }
  }

  /** The text starts with a placeholder of one of the two forms. */
  ghost predicate StartsPlaceholder(s: string) {
    exists w: string :: w != "" && '}' !in w && ("{{" + w + "}}" <= s || "#{" + w + "}" <= s)
  }

  lemma InsideIs(s: string, w: string, close: string)
    requires w != "" && '}' !in w && Closing(close) && w + close <= s
    ensures Inside(s, close) == Some(w)
  {
    hide FirstBrace;
    var p := FirstBrace(s);
    assert s[|w|] == (w + close)[|w|] == '}';
    assert forall i | 0 <= i < |w| :: s[i] == w[i] && w[i] in w;
    assert s[..p] == w;
    assert s[p..][..|close|] == s[..|w| + |close|][|w|..] == close;
  }

  /** A match is found exactly where a placeholder starts. */
  lemma MatchIsComplete(s: string)
    ensures MatchHere(s).Some? <==> StartsPlaceholder(s)
  {
    hide Inside, Trim;
    if MatchHere(s).Some? {
      MatchIsWellFormed(s);
      var hole := MatchHere(s).value;
      var source := s[..hole.length];
      var w: string :|
        w != "" && '}' !in w && hole.key == Trim(w) && (source == "{{" + w + "}}" || source == "#{" + w + "}");
      assert source <= s;
    }
    forall w: string | w != "" && '}' !in w && ("{{" + w + "}}" <= s || "#{" + w + "}" <= s)
      ensures MatchHere(s).Some?
    {
      if "{{" + w + "}}" <= s {
        assert ("{{" + w + "}}")[2..] == w + "}}" <= s[2..];
        assert s[..2] == "{{";
        InsideIs(s[2..], w, "}}");
      } else {
        assert ("#{" + w + "}")[2..] == w + "}" <= s[2..];
        assert s[..2] == "#{";
        InsideIs(s[2..], w, "}");
      }
    }
  }

  /** What the scan leaves after its first segment. */
  function AfterFirst(s: string): string
    requires s != ""
  {
    MatchFits(s);
    if MatchHere(s).Some? then s[MatchHere(s).value.length..] else s[1..]
  }

  lemma ScanStep(s: string)
    requires s != ""
    ensures |AfterFirst(s)| < |s|
    ensures |Scan(s)| == 1 + |Scan(AfterFirst(s))| && Scan(s)[1..] == Scan(AfterFirst(s))
    ensures Scan(s)[0].Literal? ==> MatchHere(s).None?
  {
    hide MatchHere;
    MatchFits(s);
  }

  /** No placeholder is missed: no literal stands where one starts. */
  lemma {:induction false} ScanMissesNone(s: string, i: nat)
    requires i < |Scan(s)| && Scan(s)[i].Literal?
    ensures !StartsPlaceholder(Print(Scan(s)[i..]))
    decreases |s|
  {
    hide StartsPlaceholder, Print, MatchHere, AfterFirst;
    if s != "" {
      hide Scan;
      ScanStep(s);
      if i == 0 {
        assert Scan(s)[0..] == Scan(s);
        ScanPrintsBack(s);
        MatchIsComplete(s);
      } else {
        assert Scan(s)[i..] == Scan(AfterFirst(s))[i - 1..];
        ScanMissesNone(AfterFirst(s), i - 1);
      }
    }
  }

  lemma PrintCons(segment: Segment, rest: seq<Segment>)
    ensures Print([segment] + rest) == segment.Source() + Print(rest)
  {
    assert ([segment] + rest)[1..] == rest;
  }

  /** The keys of all placeholders of a body, blank ones included. */
  function Keys(segments: seq<Segment>): (keys: set<string>)
    ensures forall k ::
              k in keys <==> exists i :: 0 <= i < |segments| && segments[i].Placeholder? && segments[i].key == k
  {
    set i | 0 <= i < |segments| && segments[i].Placeholder? :: segments[i].key
  }

  lemma KeysCons(segment: Segment, rest: seq<Segment>)
    ensures Keys([segment] + rest) == (if segment.Placeholder? then {segment.key} else {}) + Keys(rest)
  {
    var all := [segment] + rest;
    assert all[0] == segment;
    forall i | 0 <= i < |rest| ensures all[i + 1] == rest[i] {}
  }

  lemma KeysAreTrimmed(s: string, key: string)
    requires key in Keys(Scan(s))
    ensures Trimmed(key) && '}' !in key
  {
    ScanPrintsBack(s);
    var i :| 0 <= i < |Scan(s)| && Scan(s)[i].Placeholder? && Scan(s)[i].key == key;
    assert WellFormed(Scan(s)[i]);
    var w: string :| w != "" && '}' !in w && key == Trim(w);
    if '}' in key {
      TrimSubset(w, '}');
      assert false;
    }
  }

  // --------------------------------------------------------------- rendering

  datatype Rendering = Rendered(text: string) | MissingVariable(key: string)

  /** `body.replace(REGEX, ...)`: each match is replaced by the text of its variable, and
      the first key that is not among the variables aborts the rendering. */
  function RenderTemplate(body: string, variables: map<string, string>): Rendering
    decreases |body|
  {
    if body == "" then Rendered("")
    else
      MatchFits(body);
      match MatchHere(body)
      case Some(hole) =>
        if hole.key !in variables then MissingVariable(hole.key)
        else
          (match RenderTemplate(body[hole.length..], variables)
           case Rendered(rest) => Rendered(variables[hole.key] + rest)
           case MissingVariable(key) => MissingVariable(key))
      case None =>
        match RenderTemplate(body[1..], variables)
        case Rendered(rest) => Rendered([body[0]] + rest)
        case MissingVariable(key) => MissingVariable(key)
  }

  /** Segment-wise substitution: literals are untouched. */
  function Substituted(segments: seq<Segment>, variables: map<string, string>): string
    requires Keys(segments) <= variables.Keys
  {
    if segments == [] then ""
    else
      var rest := segments[1..];
      assert segments == [segments[0]] + rest;
      KeysCons(segments[0], rest);
      segments[0].Fill(variables) + Substituted(rest, variables)
  }

  lemma SubstitutedCons(segment: Segment, rest: seq<Segment>, variables: map<string, string>)
    requires Keys([segment] + rest) <= variables.Keys
    ensures Keys(rest) <= variables.Keys && (segment.Placeholder? ==> segment.key in variables)
    ensures Substituted([segment] + rest, variables) == segment.Fill(variables) + Substituted(rest, variables)
  {
    KeysCons(segment, rest);
    assert ([segment] + rest)[1..] == rest;
  }

  /** Rendering succeeds exactly when every key, blank ones included, is among the variables,
      and then it is segment-wise substitution; a failure names a key of the body that is missing. */
  lemma {:induction false} RenderIsSubstitution(body: string, variables: map<string, string>)
    ensures RenderTemplate(body, variables).Rendered? <==> Keys(Scan(body)) <= variables.Keys
    ensures Keys(Scan(body)) <= variables.Keys ==>
              RenderTemplate(body, variables) == Rendered(Substituted(Scan(body), variables))
    ensures RenderTemplate(body, variables).MissingVariable? ==>
              var key := RenderTemplate(body, variables).key; key in Keys(Scan(body)) && key !in variables
    decreases |body|
  {
    if body != "" {
      MatchFits(body);
      match MatchHere(body)
      case Some(hole) =>
        var segment, rest := Placeholder(body[..hole.length], hole.key), Scan(body[hole.length..]);
        RenderIsSubstitution(body[hole.length..], variables);
        KeysCons(segment, rest);
        if Keys(Scan(body)) <= variables.Keys { SubstitutedCons(segment, rest, variables); }
      case None =>
        var segment, rest := Literal(body[0]), Scan(body[1..]);
        RenderIsSubstitution(body[1..], variables);
        KeysCons(segment, rest);
        if Keys(Scan(body)) <= variables.Keys { SubstitutedCons(segment, rest, variables); }
    }
  }
}
