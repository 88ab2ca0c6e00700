/** Extraction of required variables (`packages/shared`) and the template record whose
    stored variables and versions are kept in line with its body (`TemplatesService`). */
module TemplateVariables {
  import opened Wrappers
  import opened StringOrder
  import opened Placeholders

  // -------------------------------------------------------------- extraction

  /** The non-blank keys in the order of their placeholders. */
  function KeyList(segments: seq<Segment>): seq<string> {
    if segments == [] then []
    else
      (if segments[0].Placeholder? && segments[0].key != "" then [segments[0].key] else []) + KeyList(segments[1..])
  }

  lemma KeyListCons(segment: Segment, rest: seq<Segment>)
    ensures KeyList([segment] + rest)
         == (if segment.Placeholder? && segment.key != "" then [segment.key] else []) + KeyList(rest)
  {
    assert ([segment] + rest)[1..] == rest;
  }

  lemma ElementsConcat(a: seq<string>, b: seq<string>)
    ensures Elements(a + b) == Elements(a) + Elements(b)
  {}

  lemma {:induction false} KeyListIs(segments: seq<Segment>)
    ensures Elements(KeyList(segments)) == Keys(segments) - {""}
  {
    if segments != [] {
      var segment, rest := segments[0], segments[1..];
      KeyListIs(rest);
      assert segments == [segment] + rest;
      KeysCons(segment, rest);
      var head := if segment.Placeholder? && segment.key != "" then [segment.key] else [];
      assert Elements(head) == (if segment.Placeholder? then {segment.key} else {}) - {""};
      ElementsConcat(head, KeyList(rest));
    }
  }

  function ExtractRequiredVariables(body: string): seq<string> {
    SortedSet(KeyList(Scan(body)))
  }

  /** The extracted list is the strictly sorted list of the non-blank keys of the body, and the only one. */
  lemma ExtractedIsSortedKeySet(body: string, list: seq<string>)
    ensures list == ExtractRequiredVariables(body)
       <==> StrictlySorted(list) && Elements(list) == Keys(Scan(body)) - {""}
  {
    SortedSetIs(KeyList(Scan(body)));
    KeyListIs(Scan(body));
    if StrictlySorted(list) && Elements(list) == Keys(Scan(body)) - {""} {
      SortedIsUnique(list, ExtractRequiredVariables(body));
    }
  }

  /** `REGEX.exec` from `lastIndex`: the first position at which there is a match. */
  function Exec(body: string, lastIndex: nat): (r: Option<nat>)
    requires lastIndex <= |body|
    ensures r.Some? ==> lastIndex <= r.value < |body| && MatchHere(body[r.value..]).Some?
    decreases |body| - lastIndex
  {
    if lastIndex == |body| then None
    else if MatchHere(body[lastIndex..]).Some? then Some(lastIndex)
    else Exec(body, lastIndex + 1)
  }

  lemma KeysAtMatch(s: string)
    requires MatchHere(s).Some?
    ensures var hole := MatchHere(s).value;
            && hole.length <= |s|
            && KeyList(Scan(s)) == (if hole.key != "" then [hole.key] else []) + KeyList(Scan(s[hole.length..]))
  {
    hide MatchHere, KeyList;
    MatchFits(s);
    var hole := MatchHere(s).value;
    KeyListCons(Placeholder(s[..hole.length], hole.key), Scan(s[hole.length..]));
  }

  lemma KeysAtLiteral(s: string)
    requires s != "" && MatchHere(s).None?
    ensures KeyList(Scan(s)) == KeyList(Scan(s[1..]))
  {
    hide MatchHere, KeyList;
    KeyListCons(Literal(s[0]), Scan(s[1..]));
  }

  /** What the scanner finds from a position is what it finds from the next match. */
  lemma {:induction false} ExecScan(body: string, lastIndex: nat)
    requires lastIndex <= |body|
    ensures match Exec(body, lastIndex)
            case None => KeyList(Scan(body[lastIndex..])) == []
            case Some(i) =>
              var hole := MatchHere(body[i..]).value;
              && i + hole.length <= |body|
              && KeyList(Scan(body[lastIndex..]))
                 == (if hole.key != "" then [hole.key] else []) + KeyList(Scan(body[i + hole.length..]))
    decreases |body| - lastIndex
  {
    hide MatchHere, KeyList, Scan;
    if lastIndex < |body| {
      var s := body[lastIndex..];
      match MatchHere(s)
      case Some(hole) =>
        KeysAtMatch(s);
        assert s[hole.length..] == body[lastIndex + hole.length..];
      case None =>
        KeysAtLiteral(s);
        assert s[1..] == body[lastIndex + 1..];
        ExecScan(body, lastIndex + 1);
    } else {
      NothingAtEnd(body[lastIndex..]);
    }
  }

  lemma NothingAtEnd(s: string)
    requires s == ""
    ensures KeyList(Scan(s)) == []
  {}

  /** The keys that are still to be found from a position. */
  ghost function Remaining(body: string, lastIndex: nat): set<string>
    requires lastIndex <= |body|
  {
    Elements(KeyList(Scan(body[lastIndex..])))
  }

  lemma RemainingAfter(body: string, lastIndex: nat)
    requires lastIndex <= |body|
    ensures match Exec(body, lastIndex)
            case None => Remaining(body, lastIndex) == {}
            case Some(i) =>
              var hole := MatchHere(body[i..]).value;
              && 0 < hole.length && i + hole.length <= |body|
              && Remaining(body, lastIndex)
                 == (if hole.key != "" then {hole.key} else {}) + Remaining(body, i + hole.length)
  {
    hide MatchHere, KeyList, Scan, Exec;
    ExecScan(body, lastIndex);
    match Exec(body, lastIndex)
    case None =>
    case Some(i) =>
      MatchFits(body[i..]);
      var hole := MatchHere(body[i..]).value;
      ElementsConcat(if hole.key != "" then [hole.key] else [], KeyList(Scan(body[i + hole.length..])));
  }

  /** The `exec` loop adds every non-blank key of the body to the set and nothing else. */
  method CollectRequiredVariables(body: string, initial: seq<string>) returns (keys: seq<string>)
    ensures Elements(keys) == Elements(initial) + (Keys(Scan(body)) - {""})
    ensures Distinct(initial) ==> Distinct(keys)
  {
    hide MatchHere, KeyList, Scan, Exec;
    keys := initial;
    var lastIndex := 0;
    KeyListIs(Scan(body));
    assert body[0..] == body;
    var position := Exec(body, lastIndex);
    while position.Some?
      invariant lastIndex <= |body| && position == Exec(body, lastIndex)
      invariant Elements(keys) + Remaining(body, lastIndex) == Elements(initial) + Remaining(body, 0)
      invariant Distinct(initial) ==> Distinct(keys)
      decreases |body| - lastIndex
    {
      RemainingAfter(body, lastIndex);
      var found := MatchHere(body[position.value..]).value;
      if found.key != "" {
        keys := AddToSet(keys, found.key);
      }
      lastIndex := position.value + found.length;
      position := Exec(body, lastIndex);
    }
    RemainingAfter(body, lastIndex);
  }

  method ExtractVariables(body: string) returns (list: seq<string>)
    ensures list == ExtractRequiredVariables(body)
  {
    var keys := CollectRequiredVariables(body, []);
    list := Sort(keys);
    SortIsSorted(keys);
    SameElements(list, keys);
    ExtractedIsSortedKeySet(body, list);
  }

  // ------------------------------------------------------ the template record

  datatype Version = Version(version: nat, bodySnapshot: string, requiredVariablesSnapshot: seq<string>)

  /** A template row together with its version rows, oldest first. */
  class Template {
    var body: string
    var requiredVariables: seq<string>
    var versions: seq<Version>

    /** Stored variables are those of the body, versions are numbered 1, 2, ... without a
        gap, every snapshot is consistent, and the newest one is the current body. */
    ghost predicate Valid()
      reads this
    {
      && requiredVariables == ExtractRequiredVariables(body)
      && |versions| > 0
      && versions[|versions| - 1].bodySnapshot == body
      && (forall i | 0 <= i < |versions| ::
            && versions[i].version == i + 1
            && versions[i].requiredVariablesSnapshot == ExtractRequiredVariables(versions[i].bodySnapshot))
    }

    constructor (body: string)
      ensures Valid() && this.body == body && |versions| == 1
    {
      var variables := ExtractVariables(body);
      this.body := body;
      this.requiredVariables := variables;
      this.versions := [Version(1, body, variables)];
    }

    /** `findFirst` ordered by descending version. */
    method LatestVersion() returns (latest: Option<nat>)
      ensures versions == [] ==> latest == None
      ensures versions != [] ==> latest.Some? && exists i :: 0 <= i < |versions| && versions[i].version == latest.value
      ensures forall i | 0 <= i < |versions| :: versions[i].version <= latest.value
    {
      latest := None;
      for i := 0 to |versions|
        invariant i == 0 ==> latest == None
        invariant i > 0 ==> latest.Some? && exists k :: 0 <= k < i && versions[k].version == latest.value
        invariant forall k | 0 <= k < i :: versions[k].version <= latest.value
      {
        if latest == None || versions[i].version > latest.value {
          latest := Some(versions[i].version);
        }
      }
    }

    /** A missing body keeps the current one; a version is written either way. */
    method Update(newBody: Option<string>)
      requires Valid()
      modifies this
      ensures Valid()
      ensures body == (if newBody.Some? then newBody.value else old(body))
      ensures |versions| == |old(versions)| + 1 && versions[..|old(versions)|] == old(versions)
    {
      hide ExtractRequiredVariables;
      var nextBody := if newBody.Some? then newBody.value else body;
      var variables := ExtractVariables(nextBody);
      var latest := LatestVersion();
      var next := (if latest.Some? then latest.value else 0) + 1;
      assert latest.value >= versions[|versions| - 1].version;
      body := nextBody;
      requiredVariables := variables;
      versions := versions + [Version(next, nextBody, variables)];
    }
  }
}
