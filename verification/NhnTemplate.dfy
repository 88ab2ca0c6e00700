/** Rewriting placeholders to the provider's `##key##` form for bulk sends
    (`normalizeNhnTemplateBody`, the same text in the API and the worker). */
module NhnTemplate {
  import opened Wrappers
  import opened JsText
  import opened Placeholders

  function NormalizeNhnTemplateBody(body: string): string
    decreases |body|
  {
    if body == "" then ""
    else
      MatchFits(body);
      match MatchHere(body)
      case Some(hole) =>
        (if hole.key != "" then "##" + hole.key + "##" else "") + NormalizeNhnTemplateBody(body[hole.length..])
      case None => [body[0]] + NormalizeNhnTemplateBody(body[1..])
  }

  /** Literals as they are, every placeholder with a key as a mark, and blank ones not at all. */
  function Marked(segments: seq<Segment>): string {
    if segments == [] then ""
    else
      var first :=
        match segments[0]
        case Literal(c) => [c]
        case Placeholder(_, key) => if key == "" then "" else "##" + key + "##";
      first + Marked(segments[1..])
  }

  /** The rewriting keeps the literals of the body and writes its placeholders as marks, in order. */
  lemma {:induction false} RewriteIsMarked(body: string)
    ensures NormalizeNhnTemplateBody(body) == Marked(Scan(body))
    decreases |body|
  {
    if body != "" {
      MatchFits(body);
      match MatchHere(body)
      case Some(hole) => RewriteIsMarked(body[hole.length..]);
      case None => RewriteIsMarked(body[1..]);
    }
  }

  // ------------------------------------------------------------ the provider

  /** The position of the first `#`, or the length of the text. */
  function FirstHash(s: string): (p: nat)
    ensures p <= |s| && (p < |s| ==> s[p] == '#')
    ensures '#' !in s[..p]
  {
    if s == "" || s[0] == '#' then 0
    else
      var p := FirstHash(s[1..]);
      assert s[..p + 1] == [s[0]] + s[1..][..p];
      p + 1
  }

  /** The key of a `##key##` mark at the start of a text. */
  function MarkHere(s: string): (r: Option<string>)
    ensures r.Some? ==> r.value != "" && '#' !in r.value && |r.value| + 4 <= |s|
  {
    if StartsWith(s, "##") then
      var p := FirstHash(s[2..]);
      if p > 0 && StartsWith(s[2..][p..], "##") then Some(s[2..][..p]) else None
    else None
  }

  /** How the provider fills a body: marks whose key is a parameter are replaced, from left
      to right, and what was put in is not looked at again. */
  function ProviderFill(s: string, parameters: map<string, string>): string
    decreases |s|
  {
    if s == "" then ""
    else
      match MarkHere(s)
      case Some(key) =>
        if key in parameters then parameters[key] + ProviderFill(s[|key| + 4..], parameters)
        else [s[0]] + ProviderFill(s[1..], parameters)
      case None => [s[0]] + ProviderFill(s[1..], parameters)
  }

  // ------------------------------------------------------ meaning preserved

  /** With parameters named `names`, the provider fills the marks that the rewriting wrote and no
      others: no key is blank or contains `#`, and at no literal character does the rewritten
      body read as a mark of one of the names. */
  predicate MarksAreOwn(body: string, names: set<string>)
    decreases |body|
  {
    if body == "" then true
    else
      MatchFits(body);
      match MatchHere(body)
      case Some(hole) => hole.key != "" && '#' !in hole.key && MarksAreOwn(body[hole.length..], names)
      case None => !FillsHere(NormalizeNhnTemplateBody(body), names) && MarksAreOwn(body[1..], names)
  }

  /** The text starts with a mark of one of the names. */
  predicate FillsHere(s: string, names: set<string>) {
    MarkHere(s).Some? && MarkHere(s).value in names
  }

  lemma {:induction false} FirstHashAfter(key: string, rest: string)
    requires '#' !in key && rest != "" && rest[0] == '#'
    ensures FirstHash(key + rest) == |key|
  {
    if key == "" {
      assert key + rest == rest;
    } else {
      assert (key + rest)[1..] == key[1..] + rest;
      FirstHashAfter(key[1..], rest);
    }
  }

  lemma MarkIsRead(key: string, rest: string)
    requires key != "" && '#' !in key
    ensures MarkHere("##" + key + "##" + rest) == Some(key)
    ensures ("##" + key + "##" + rest)[|key| + 4..] == rest
  {
    var s := "##" + key + "##" + rest;
    var t := "##" + rest;
    assert s[..2] == "##" && s[2..] == key + t;
    FirstHashAfter(key, t);
    assert (key + t)[|key|..] == t && (key + t)[..|key|] == key;
    assert t[..2] == "##";
  }

  /** At a literal character the rewritten body goes on with that character. */
  lemma RewriteAtLiteral(body: string)
    requires body != "" && MatchHere(body).None?
    ensures NormalizeNhnTemplateBody(body) == [body[0]] + NormalizeNhnTemplateBody(body[1..])
    ensures NormalizeNhnTemplateBody(body)[1..] == NormalizeNhnTemplateBody(body[1..])
  {}

  lemma FillAt(s: string, parameters: map<string, string>)
    requires s != ""
    ensures if FillsHere(s, parameters.Keys) then
              ProviderFill(s, parameters)
                == parameters[MarkHere(s).value] + ProviderFill(s[|MarkHere(s).value| + 4..], parameters)
            else ProviderFill(s, parameters) == [s[0]] + ProviderFill(s[1..], parameters)
  {
    hide MarkHere;
  }

  /** Filling a recipient's parameters into the rewritten body gives what the template
      renderer gives on the original body. */
  lemma {:induction false} RewritePreservesMeaning(body: string, parameters: map<string, string>)
    requires MarksAreOwn(body, parameters.Keys) && Keys(Scan(body)) <= parameters.Keys
    ensures RenderTemplate(body, parameters) == Rendered(ProviderFill(NormalizeNhnTemplateBody(body), parameters))
    decreases |body|
  {
    hide MatchHere, MarkHere, Keys, ProviderFill;
    if body == "" {
      NothingToFill(parameters);
    } else {
      MatchFits(body);
      match MatchHere(body)
      case Some(hole) =>
        var rest := body[hole.length..];
        KeysCons(Placeholder(body[..hole.length], hole.key), Scan(rest));
        RewritePreservesMeaning(rest, parameters);
        MarkIsRead(hole.key, NormalizeNhnTemplateBody(rest));
        FillAt(NormalizeNhnTemplateBody(body), parameters);
      case None =>
        KeysCons(Literal(body[0]), Scan(body[1..]));
        RewritePreservesMeaning(body[1..], parameters);
        RewriteAtLiteral(body);
        FillAt(NormalizeNhnTemplateBody(body), parameters);
    }
  }

  lemma NothingToFill(parameters: map<string, string>)
    ensures ProviderFill("", parameters) == ""
  {}

  // --------------------------------------------- exactly when it is preserved

  ghost predicate PreservedFor(body: string, names: set<string>) {
    forall parameters: map<string, string> | parameters.Keys == names :: FilledAsRendered(body, parameters)
  }

  /** What the provider makes of the rewritten body is what the renderer makes of the body. */
  predicate FilledAsRendered(body: string, parameters: map<string, string>) {
    RenderTemplate(body, parameters) == Rendered(ProviderFill(NormalizeNhnTemplateBody(body), parameters))
  }

  /** Parameters that all have the same value. */
  function Same(names: set<string>): map<string, string> {
    map k | k in names :: "y"
  }

  /** No value is empty or has white space at its ends. */
  predicate Proper(parameters: map<string, string>) {
    forall k | k in parameters :: parameters[k] != "" && Trimmed(parameters[k])
  }

  lemma ProperValue(names: set<string>, key: string, n: nat)
    requires n > 0
    ensures Proper(Same(names)[key := seq(n, _ => 'x')])
  {
    assert Trimmed("y");
    assert Trimmed(seq(n, _ => 'x'));
  }

  lemma RenderAtPlaceholder(body: string, parameters: map<string, string>)
    requires body != "" && MatchHere(body).Some? && Keys(Scan(body)) <= parameters.Keys
    ensures var hole := MatchHere(body).value;
            && 0 < hole.length <= |body| && hole.key in parameters
            && Keys(Scan(body)) == {hole.key} + Keys(Scan(body[hole.length..]))
            && RenderTemplate(body[hole.length..], parameters).Rendered?
            && RenderTemplate(body, parameters)
               == Rendered(parameters[hole.key] + RenderTemplate(body[hole.length..], parameters).text)
  {
    hide MatchHere, Keys;
    MatchFits(body);
    var hole := MatchHere(body).value;
    KeysCons(Placeholder(body[..hole.length], hole.key), Scan(body[hole.length..]));
    RenderIsSubstitution(body[hole.length..], parameters);
  }

  lemma RenderAtLiteral(body: string, parameters: map<string, string>)
    requires body != "" && MatchHere(body).None? && Keys(Scan(body)) <= parameters.Keys
    ensures Keys(Scan(body)) == Keys(Scan(body[1..]))
    ensures RenderTemplate(body[1..], parameters).Rendered?
    ensures RenderTemplate(body, parameters) == Rendered([body[0]] + RenderTemplate(body[1..], parameters).text)
  {
    hide MatchHere, Keys;
    KeysCons(Literal(body[0]), Scan(body[1..]));
    RenderIsSubstitution(body[1..], parameters);
  }

  /** Short parameters never lengthen a body. */
  lemma {:induction false} FillIsShort(s: string, parameters: map<string, string>)
    requires forall k | k in parameters && k != "" :: |parameters[k]| <= 1
    ensures |ProviderFill(s, parameters)| <= |s|
    decreases |s|
  {
    hide MarkHere;
    if s != "" {
      match MarkHere(s)
      case Some(key) =>
        FillIsShort(s[|key| + 4..], parameters);
        FillIsShort(s[1..], parameters);
      case None => FillIsShort(s[1..], parameters);
    }
  }

  /** A blank placeholder is dropped by the rewriting and filled by the renderer. */
  lemma BlankKeyIsLost(body: string, names: set<string>) returns (parameters: map<string, string>)
    requires body != "" && MatchHere(body).Some? && MatchHere(body).value.key == "" && Keys(Scan(body)) <= names
    ensures parameters.Keys == names && Proper(parameters) && !FilledAsRendered(body, parameters)
  {
    hide MatchHere, Keys, ProviderFill, Scan, Proper;
    var rewritten := NormalizeNhnTemplateBody(body);
    parameters := Same(names)["" := seq(|rewritten| + 1, _ => 'x')];
    ProperValue(names, "", |rewritten| + 1);
    KeyIsName(body, names);
    NamesStay(names, "", parameters[""]);
    RenderAtPlaceholder(body, parameters);
    FillIsShort(rewritten, parameters);
    assert |RenderTemplate(body, parameters).text| > |rewritten|;
  }

  lemma NamesStay(names: set<string>, key: string, value: string)
    requires key in names
    ensures Same(names)[key := value].Keys == names
  {}

  /** A key with `#` in it is not what the provider reads between the marks. */
  lemma HashKeyIsLost(body: string, names: set<string>) returns (parameters: map<string, string>)
    requires body != "" && MatchHere(body).Some? && '#' in MatchHere(body).value.key && Keys(Scan(body)) <= names
    ensures parameters.Keys == names && Proper(parameters) && !FilledAsRendered(body, parameters)
  {
    hide MatchHere, MarkHere, Keys, ProviderFill, Scan, Proper;
    MatchFits(body);
    var key := MatchHere(body).value.key;
    var rewritten := NormalizeNhnTemplateBody(body);
    assert rewritten[0] == '#';
    parameters := Same(names)[key := seq(1, _ => 'x')];
    ProperValue(names, key, 1);
    KeyIsName(body, names);
    NamesStay(names, key, parameters[key]);
    RenderAtPlaceholder(body, parameters);
    FillAt(rewritten, parameters);
    assert RenderTemplate(body, parameters).text[0] == 'x';
    assert ProviderFill(rewritten, parameters)[0] != 'x';
  }

  lemma KeyIsName(body: string, names: set<string>)
    requires body != "" && MatchHere(body).Some? && Keys(Scan(body)) <= names
    ensures MatchHere(body).value.key in names
  {
    RenderAtPlaceholder(body, Same(Keys(Scan(body))));
  }

  /** A literal that reads as a mark of a parameter is filled. */
  lemma StrayMarkIsFilled(body: string, names: set<string>) returns (parameters: map<string, string>)
    requires body != "" && MatchHere(body).None? && Keys(Scan(body)) <= names
    requires FillsHere(NormalizeNhnTemplateBody(body), names)
    ensures parameters.Keys == names && Proper(parameters) && !FilledAsRendered(body, parameters)
  {
    hide MatchHere, MarkHere, Keys, ProviderFill, Scan, NormalizeNhnTemplateBody, Proper;
    RewriteAtLiteral(body);
    var rewritten := NormalizeNhnTemplateBody(body);
    MarkStarts(rewritten);
    var key := MarkHere(rewritten).value;
    parameters := Same(names)[key := seq(1, _ => 'x')];
    ProperValue(names, key, 1);
    NamesStay(names, key, parameters[key]);
    RenderAtLiteral(body, parameters);
    FillAt(rewritten, parameters);
    assert RenderTemplate(body, parameters).text[0] == '#';
    assert ProviderFill(rewritten, parameters)[0] == 'x';
  }

  lemma MarkStarts(s: string)
    ensures MarkHere(s).Some? ==> s != "" && s[0] == '#'
  {
    StartsWithAt(s, "##", 0);
  }

  lemma CancelPrefix(p: string, a: string, b: string)
    ensures p + a == p + b ==> a == b
  {
    assert (p + a)[|p|..] == a && (p + b)[|p|..] == b;
  }

  /** The rewritten body at a placeholder. */
  lemma RewriteAtPlaceholder(body: string)
    requires body != "" && MatchHere(body).Some? && MatchHere(body).value.key != ""
    ensures var hole := MatchHere(body).value;
            && 0 < hole.length <= |body|
            && NormalizeNhnTemplateBody(body) == "##" + hole.key + "##" + NormalizeNhnTemplateBody(body[hole.length..])
  {
    hide MatchHere;
    MatchFits(body);
  }

  /** When the rewriting of a body loses its meaning, some parameters with proper values show it. */
  lemma {:induction false} LossIsShown(body: string, names: set<string>) returns (parameters: map<string, string>)
    requires Keys(Scan(body)) <= names && !MarksAreOwn(body, names)
    ensures parameters.Keys == names && Proper(parameters) && !FilledAsRendered(body, parameters)
    decreases |body|
  {
    hide MatchHere, MarkHere, Keys, ProviderFill, RenderTemplate, Scan, NormalizeNhnTemplateBody, Proper;
    MatchFits(body);
    match MatchHere(body)
    case Some(hole) =>
      var rest := body[hole.length..];
      if hole.key == "" {
        parameters := BlankKeyIsLost(body, names);
      } else if '#' in hole.key {
        parameters := HashKeyIsLost(body, names);
      } else {
        RenderAtPlaceholder(body, Same(names));
        parameters := LossIsShown(rest, names);
        RenderAtPlaceholder(body, parameters);
        RewriteAtPlaceholder(body);
        MarkIsRead(hole.key, NormalizeNhnTemplateBody(rest));
        FillAt(NormalizeNhnTemplateBody(body), parameters);
        CancelPrefix(parameters[hole.key], RenderTemplate(rest, parameters).text,
                     ProviderFill(NormalizeNhnTemplateBody(rest), parameters));
      }
    case None =>
      if FillsHere(NormalizeNhnTemplateBody(body), names) {
        parameters := StrayMarkIsFilled(body, names);
      } else {
        RenderAtLiteral(body, Same(names));
        parameters := LossIsShown(body[1..], names);
        RenderAtLiteral(body, parameters);
        RewriteAtLiteral(body);
        FillAt(NormalizeNhnTemplateBody(body), parameters);
        CancelPrefix([body[0]], RenderTemplate(body[1..], parameters).text,
                     ProviderFill(NormalizeNhnTemplateBody(body[1..]), parameters));
      }
  }

  /** The rewriting preserves the meaning of a body for all parameters of given names exactly when
      the provider fills the marks of the rewriting and no others. The names may be the keys
      of the body, as for bulk sends, or more. */
  lemma RewriteIsExactIff(body: string, names: set<string>)
    requires Keys(Scan(body)) <= names
    ensures PreservedFor(body, names) <==> MarksAreOwn(body, names)
  {
    hide MarksAreOwn, RenderTemplate, ProviderFill, NormalizeNhnTemplateBody, Keys, Scan;
    if MarksAreOwn(body, names) {
      forall parameters: map<string, string> | parameters.Keys == names ensures FilledAsRendered(body, parameters) {
        RewritePreservesMeaning(body, parameters);
      }
    } else {
      var parameters := LossIsShown(body, names);
    }
  }

  /** A condition on the template alone: no two literal `#` next to each other, and no key that
      is blank or contains `#`. */
  predicate FewHashes(segments: seq<Segment>) {
    && (forall i | 0 <= i < |segments| && segments[i].Placeholder? :: segments[i].key != "" && '#' !in segments[i].key)
    && (forall i | 0 <= i < |segments| - 1 :: !(segments[i] == Literal('#') && segments[i + 1] == Literal('#')))
  }

  lemma FewHashesTail(segment: Segment, rest: seq<Segment>)
    requires FewHashes([segment] + rest)
    ensures FewHashes(rest)
    ensures segment.Placeholder? ==> segment.key != "" && '#' !in segment.key
    ensures rest != [] ==> !(segment == Literal('#') && rest[0] == Literal('#'))
  {
    var all := [segment] + rest;
    assert all[0] == segment;
    assert rest != [] ==> all[1] == rest[0];
    assert forall i | 0 <= i < |rest| :: all[i + 1] == rest[i];
  }

  /** A single `#` in front of anything but another literal `#` does not start a mark: in front
      of a mark that was written it makes three, and between the first two and the third there is no key. */
  lemma SingleHashIsNoMark(rest: string)
    requires rest == "" || rest[0] != '#' || (|rest| >= 2 && rest[1] == '#')
    ensures MarkHere(['#'] + rest) == None
  {
    var s := ['#'] + rest;
    StartsWithAt(s, "##", 1);
    if rest != "" && rest[0] == '#' {
      assert s[2..] == rest[1..];
      assert FirstHash(rest[1..]) == 0;
    }
  }

  /** How the rewritten body starts. */
  lemma RewriteStarts(body: string)
    requires FewHashes(Scan(body))
    ensures var rewritten := NormalizeNhnTemplateBody(body);
            && (Scan(body) == [] ==> rewritten == "")
            && (Scan(body) != [] && Scan(body)[0].Literal? ==> rewritten != "" && rewritten[0] == Scan(body)[0].c)
            && (Scan(body) != [] && Scan(body)[0].Placeholder? ==>
               |rewritten| >= 2 && rewritten[0] == rewritten[1] == '#')
  {
    hide MatchHere;
    if body != "" {
      MatchFits(body);
      match MatchHere(body)
      case Some(hole) => FewHashesTail(Placeholder(body[..hole.length], hole.key), Scan(body[hole.length..]));
      case None =>
    }
  }

  /** So a template may well contain single literal `#`, as in `Order #12 {{name}}`. */
  lemma {:induction false} FewHashesAreOwn(body: string, names: set<string>)
    requires FewHashes(Scan(body))
    ensures MarksAreOwn(body, names)
    decreases |body|
  {
    hide MatchHere, MarkHere, FewHashes;
    if body != "" {
      MatchFits(body);
      match MatchHere(body)
      case Some(hole) =>
        FewHashesTail(Placeholder(body[..hole.length], hole.key), Scan(body[hole.length..]));
        FewHashesAreOwn(body[hole.length..], names);
      case None =>
        FewHashesTail(Literal(body[0]), Scan(body[1..]));
        FewHashesAreOwn(body[1..], names);
        RewriteAtLiteral(body);
        RewriteStarts(body[1..]);
        MarkStarts(NormalizeNhnTemplateBody(body));
        if body[0] == '#' { SingleHashIsNoMark(NormalizeNhnTemplateBody(body[1..])); }
    }
  }

  lemma {:induction false} OwnMarksHaveKeys(body: string, names: set<string>)
    requires MarksAreOwn(body, names)
    ensures "" !in Keys(Scan(body))
    decreases |body|
  {
    hide MatchHere, MarkHere, Keys;
    if body == "" {
      assert Keys([]) == {} by { NoKeys(); }
    } else {
      MatchFits(body);
      match MatchHere(body)
      case Some(hole) =>
        KeysCons(Placeholder(body[..hole.length], hole.key), Scan(body[hole.length..]));
        OwnMarksHaveKeys(body[hole.length..], names);
      case None =>
        KeysCons(Literal(body[0]), Scan(body[1..]));
        OwnMarksHaveKeys(body[1..], names);
    }
  }

  /** A body without placeholders is never filled, whatever marks it seems to hold. */
  lemma {:induction false} PlainBodiesAreOwn(body: string)
    requires Keys(Scan(body)) == {}
    ensures MarksAreOwn(body, {})
    decreases |body|
  {
    hide MatchHere, MarkHere, Keys, Scan;
    if body != "" {
      if MatchHere(body).Some? {
        RenderAtPlaceholder(body, map[]);
        assert false;
      }
      RenderAtLiteral(body, map[]);
      PlainBodiesAreOwn(body[1..]);
    }
  }

  lemma NoKeys()
    ensures Keys([]) == {}
  {}

  /** A body without placeholders is not changed by the rewriting. */
  lemma {:induction false} RewriteWithoutPlaceholders(body: string)
    requires Keys(Scan(body)) == {}
    ensures NormalizeNhnTemplateBody(body) == body
    decreases |body|
  {
    hide MatchHere, Keys;
    if body != "" {
      MatchFits(body);
      match MatchHere(body)
      case Some(hole) =>
        KeysCons(Placeholder(body[..hole.length], hole.key), Scan(body[hole.length..]));
        assert false;
      case None =>
        KeysCons(Literal(body[0]), Scan(body[1..]));
        RewriteWithoutPlaceholders(body[1..]);
        assert body == [body[0]] + body[1..];
    }
  }

  /** Text without braces in front of a template. */
  lemma {:induction false} PlainPrefix(s: string, t: string, parameters: map<string, string>)
    requires '{' !in s && (s != "" ==> s[|s| - 1] != '#') && Keys(Scan(t)) <= parameters.Keys
    ensures Keys(Scan(s + t)) == Keys(Scan(t))
    ensures NormalizeNhnTemplateBody(s + t) == s + NormalizeNhnTemplateBody(t)
    ensures RenderTemplate(t, parameters).Rendered?
    ensures RenderTemplate(s + t, parameters) == Rendered(s + RenderTemplate(t, parameters).text)
    decreases |s|
  {
    hide MatchHere, Keys, RenderTemplate, NormalizeNhnTemplateBody, Scan;
    if s == "" {
      assert s + t == t;
      RenderIsSubstitution(t, parameters);
    } else {
      var body := s + t;
      PlainPrefix(s[1..], t, parameters);
      assert body[1..] == s[1..] + t;
      PlainStart(body);
      KeysAtLiteral(body);
      RewriteAtLiteral(body);
      RenderAtLiteral(body, parameters);
    }
  }

  lemma PlainStart(body: string)
    requires body != "" && body[0] != '{' && (body[0] == '#' && |body| > 1 ==> body[1] != '{')
    ensures MatchHere(body).None?
  {
    StartsWithAt(body, "{{", 0);
    StartsWithAt(body, "#{", 0);
    StartsWithAt(body, "#{", 1);
  }

  lemma KeysAtLiteral(body: string)
    requires body != "" && MatchHere(body).None?
    ensures Keys(Scan(body)) == Keys(Scan(body[1..]))
  {
    hide MatchHere, Keys;
    KeysCons(Literal(body[0]), Scan(body[1..]));
  }

  lemma OneInside()
    ensures Inside("a}}", "}}") == Some("a")
  {
    var s := "a}}";
    assert s[1..] == "}}" && s[..1] == "a";
    assert FirstBrace("}}") == 0;
    assert FirstBrace(s) == 1;
  }

  lemma OneHole()
    ensures MatchHere("{{a}}") == Some(Hole(5, "a"))
  {
    hide Inside, Trim;
    var body := "{{a}}";
    assert body[..2] == "{{" && body[2..] == "a}}";
    OneInside();
    TrimKeeps("a");
  }

  lemma OnePlaceholder()
    ensures Keys(Scan("{{a}}")) == {"a"}
    ensures NormalizeNhnTemplateBody("{{a}}") == "##a##"
    ensures RenderTemplate("{{a}}", map["a" := "x"]) == Rendered("x")
  {
    hide MatchHere, Keys, NormalizeNhnTemplateBody, Scan;
    var body, parameters := "{{a}}", map["a" := "x"];
    OneHole();
    assert body[5..] == "";
    NothingLeft(parameters);
    ScanOfHole(body);
    NoKeys();
    KeysCons(Placeholder(body[..5], "a"), []);
    RenderAtPlaceholder(body, parameters);
    RewriteAtPlaceholder(body);
  }

  lemma ScanOfHole(body: string)
    requires body != "" && MatchHere(body).Some?
    ensures var hole := MatchHere(body).value;
            && hole.length <= |body|
            && Scan(body) == [Placeholder(body[..hole.length], hole.key)] + Scan(body[hole.length..])
  {
    hide MatchHere;
    MatchFits(body);
  }

  lemma NothingLeft(parameters: map<string, string>)
    ensures Scan("") == [] && NormalizeNhnTemplateBody("") == "" && RenderTemplate("", parameters) == Rendered("")
  {}

  /** A literal that reads as a mark of a parameter of the template is filled too. */
  lemma HashLiteralIsFilled()
    ensures var body := "##a## {{a}}"; var parameters := map["a" := "x"];
            && Keys(Scan(body)) == parameters.Keys
            && RenderTemplate(body, parameters) == Rendered("##a## x")
            && ProviderFill(NormalizeNhnTemplateBody(body), parameters) == "x x"
  {
    hide MatchHere, MarkHere, Keys, Scan, RenderTemplate, NormalizeNhnTemplateBody, ProviderFill;
    var s, t, parameters := "##a## ", "{{a}}", map["a" := "x"];
    assert s + t == "##a## {{a}}";
    OnePlaceholder();
    PlainPrefix(s, t, parameters);
    assert s + "##a##" == "##a## ##a##";
    assert s + "x" == "##a## x";
    FillTwice(parameters);
  }

  lemma FillTwice(parameters: map<string, string>)
    requires parameters == map["a" := "x"]
    ensures ProviderFill("##a## ##a##", parameters) == "x x"
  {
    hide MarkHere, ProviderFill;
    var whole, rest, mark := "##a## ##a##", " ##a##", "##a##";
    assert "##" + "a" + "##" + rest == whole;
    MarkIsRead("a", rest);
    FillAt(whole, parameters);
    MarkStarts(rest);
    assert rest[1..] == mark;
    FillAt(rest, parameters);
    assert "##" + "a" + "##" + "" == mark;
    MarkIsRead("a", "");
    FillAt(mark, parameters);
    NothingToFill(parameters);
  }
}
