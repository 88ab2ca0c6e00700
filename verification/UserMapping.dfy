/** Reading values out of imported user records by path, and storing them as JSON
    (`getValueByPath`, `resolveSegments` and `toJsonValue`). */
module UserMapping {
  import opened JsText

  /** A JavaScript value. A date carries its ISO text, and `Other` (a symbol, a function or a
      big integer) what `String` makes of it. */
  datatype Value =
    | Undefined
    | Null
    | Bool(b: bool)
    | Num(n: real)
    | Str(s: string)
    | Date(iso: string)
    | Arr(items: seq<Value>)
    | Obj(fields: map<string, Value>)
    | Other(text: string)

  // ------------------------------------------------------------------- paths

  /** `/^\d+$/`. */
  predicate IsIndex(segment: string) {
    segment != "" && AllDigits(segment)
  }

  function Item(items: seq<Value>, i: nat): Value {
    if i < |items| then items[i] else Undefined
  }

  function Field(fields: map<string, Value>, key: string): Value {
    if key in fields then fields[key] else Undefined
  }

  /** `filter((value) => value !== undefined)`. */
  function Defined(values: seq<Value>): (r: seq<Value>)
    ensures Undefined !in r
  {
    if values == [] then []
    else (if values[0] == Undefined then [] else [values[0]]) + Defined(values[1..])
  }

  /** What the values found in the items of an array become. */
  function Collapse(values: seq<Value>): Value {
    var found := Defined(values);
    if |found| == 0 then Undefined else if |found| == 1 then found[0] else Arr(found)
  }

  /** Terminates because either a segment is used up or an item of an array is entered. */
  function ResolveSegments(v: Value, segments: seq<string>): Value
    decreases |segments|, v
  {
    if segments == [] then v
    else
      match v
      case Arr(items) =>
        if IsIndex(segments[0]) then ResolveSegments(Item(items, NumberOf(segments[0])), segments[1..])
        else Collapse(seq(|items|, i requires 0 <= i < |items| => ResolveSegments(items[i], segments)))
      case Obj(fields) => ResolveSegments(Field(fields, segments[0]), segments[1..])
      case _ => Undefined
  }

  function AddFront(c: char, parts: seq<string>): seq<string>
    requires |parts| > 0
  {
    if c == '.' then [""] + parts else [[c] + parts[0]] + parts[1..]
  }

  /** `split('.')`. */
  function SplitDots(path: string): (parts: seq<string>)
    ensures |parts| > 0
  {
    if path == "" then [""] else AddFront(path[0], SplitDots(path[1..]))
  }

  function AddPart(part: string, parts: seq<string>): seq<string> {
    if Trim(part) == "" then parts else [Trim(part)] + parts
  }

  /** `map((segment) => segment.trim()).filter(Boolean)`. */
  function TrimmedParts(parts: seq<string>): seq<string> {
    if parts == [] then [] else AddPart(parts[0], TrimmedParts(parts[1..]))
  }

  function GetValueByPath(v: Value, path: string): Value {
    ResolveSegments(v, TrimmedParts(SplitDots(path)))
  }

  /** Names between dots. */
  function Dotted(names: seq<string>): string
    requires |names| > 0
  {
    if |names| == 1 then names[0] else names[0] + "." + Dotted(names[1..])
  }

  lemma {:induction false} SplitOneName(name: string)
    requires '.' !in name
    ensures SplitDots(name) == [name]
  {
    if name != "" {
      assert name[0] in name && forall c | c in name[1..] :: c in name;
      SplitOneName(name[1..]);
      assert [name[0]] + name[1..] == name;
    }
  }

  lemma {:induction false} SplitDotted(names: seq<string>)
    requires |names| > 0 && forall i | 0 <= i < |names| :: '.' !in names[i]
    ensures SplitDots(Dotted(names)) == names
  {
    hide SplitDots;
    SplitOneName(names[0]);
    if |names| > 1 {
      SplitDotted(names[1..]);
      SplitJoinedPaths(names[0], Dotted(names[1..]));
    }
  }

  /** A dotted path is read name by name; white space around a name is dropped, and so is a blank name. */
  lemma DottedPathIsRead(v: Value, names: seq<string>)
    requires |names| > 0 && forall i | 0 <= i < |names| :: '.' !in names[i]
    ensures GetValueByPath(v, Dotted(names)) == ResolveSegments(v, TrimmedParts(names))
  {
    hide SplitDots, TrimmedParts, ResolveSegments, Dotted;
    SplitDotted(names);
  }

  /** What is left of the names: nothing but the trimmed, non-blank ones, in order. */
  lemma {:induction false} TrimmedPartsAre(before: seq<string>, name: string, after: seq<string>)
    ensures TrimmedParts(before + [name] + after)
         == TrimmedParts(before) + (if AllSpace(name) then [] else [Trim(name)]) + TrimmedParts(after)
  {
    hide Trim, AllSpace;
    TrimmedPartsConcat(before + [name], after);
    TrimmedPartsConcat(before, [name]);
    TrimBlank(name);
    assert [name][1..] == [];
    assert AddPart(name, []) == if AllSpace(name) then [] else [Trim(name)];
  }

  /** An item of an array is read by its number, however many zeros are in front of it, and any
      other name is read in all items. */
  lemma ArrayIsRead(items: seq<Value>, name: string)
    ensures ResolveSegments(Arr(items), [name])
         == if name != "" && AllDigits(name) then
              (if NumberOf(name) < |items| then items[NumberOf(name)] else Undefined)
            else Collapse(Onward(items, [name]))
  {
    hide NumberOf;
    if name == "" || !AllDigits(name) { FanOutIsOnward(items, [name]); }
  }

  // -------------------------------------------------------------- composition

  lemma {:induction false} NothingFound(values: seq<Value>)
    requires forall i | 0 <= i < |values| :: values[i] == Undefined
    ensures Defined(values) == []
  {
    if values != [] { NothingFound(values[1..]); }
  }

  lemma NothingInside(segments: seq<string>)
    ensures segments != [] ==> ResolveSegments(Undefined, segments) == Undefined
  {}

  /** The values that items lead to after `b`, once and after the undefined ones are dropped. */
  function Onward(values: seq<Value>, b: seq<string>): (r: seq<Value>)
    ensures |r| == |values|
    ensures forall i | 0 <= i < |r| :: r[i] == ResolveSegments(values[i], b)
  {
    if values == [] then [] else [ResolveSegments(values[0], b)] + Onward(values[1..], b)
  }

  lemma DefinedCons(v: Value, rest: seq<Value>)
    ensures Defined([v] + rest) == if v == Undefined then Defined(rest) else [v] + Defined(rest)
  {
    assert ([v] + rest)[1..] == rest;
  }

  lemma {:induction false} DroppingFirst(values: seq<Value>, b: seq<string>)
    requires b != []
    ensures Defined(Onward(values, b)) == Defined(Onward(Defined(values), b))
  {
    hide ResolveSegments, Defined;
    if values == [] {
      NothingFound(values);
    } else {
      var first, rest := values[0], values[1..];
      DroppingFirst(rest, b);
      NothingInside(b);
      assert values == [first] + rest;
      DefinedCons(first, rest);
      DefinedCons(ResolveSegments(first, b), Onward(rest, b));
      if first != Undefined {
        assert Onward([first] + Defined(rest), b) == [ResolveSegments(first, b)] + Onward(Defined(rest), b);
        DefinedCons(ResolveSegments(first, b), Onward(Defined(rest), b));
      }
    }
  }

  /** Going on from what an array collapsed to, by a segment that is not an index. */
  lemma OnwardFromCollapse(values: seq<Value>, b: seq<string>)
    requires b != [] && !IsIndex(b[0])
    ensures ResolveSegments(Collapse(values), b) == Collapse(Onward(values, b))
  {
    var found := Defined(values);
    DroppingFirst(values, b);
    if |found| == 1 {
      assert Onward(found, b) == [ResolveSegments(found[0], b)];
    } else if |found| > 1 {
      assert seq(|found|, i requires 0 <= i < |found| => ResolveSegments(found[i], b)) == Onward(found, b);
    }
  }

  predicate Composable(a: seq<string>, b: seq<string>) {
    b == [] || !IsIndex(b[0]) || forall i | 0 <= i < |a| :: IsIndex(a[i])
  }

  lemma {:induction false} ResolveComposes(v: Value, a: seq<string>, b: seq<string>)
    requires Composable(a, b)
    ensures ResolveSegments(v, a + b) == ResolveSegments(ResolveSegments(v, a), b)
    decreases |a|, v
  {
    if a == [] {
      assert a + b == b;
    } else if b == [] {
      assert a + b == a;
    } else {
      assert (a + b)[0] == a[0] && (a + b)[1..] == a[1..] + b;
      match v
      case Arr(items) =>
        if IsIndex(a[0]) {
          ResolveComposes(Item(items, NumberOf(a[0])), a[1..], b);
        } else {
          FanOutComposes(items, a, b);
        }
      case Obj(fields) => ResolveComposes(Field(fields, a[0]), a[1..], b);
      case _ => NothingInside(b);
    }
  }

  lemma {:induction false} FanOutComposes(items: seq<Value>, a: seq<string>, b: seq<string>)
    requires Composable(a, b) && a != [] && b != [] && !IsIndex(a[0])
    ensures ResolveSegments(Arr(items), a + b) == ResolveSegments(ResolveSegments(Arr(items), a), b)
    decreases |a|, Arr(items), 0
  {
    var values := seq(|items|, i requires 0 <= i < |items| => ResolveSegments(items[i], a));
    forall i | 0 <= i < |items| ensures ResolveSegments(items[i], a + b) == ResolveSegments(values[i], b) {
      ResolveComposes(items[i], a, b);
    }
    OnwardFromCollapse(values, b);
    assert seq(|items|, i requires 0 <= i < |items| => ResolveSegments(items[i], a + b)) == Onward(values, b);
  }

  // ------------------------------------------------ where composition fails

  /** Objects in objects along a path. */
  function Nest(path: seq<string>, leaf: Value): Value {
    if path == [] then leaf else Obj(map[path[0] := Nest(path[1..], leaf)])
  }

  lemma {:induction false} NestResolves(path: seq<string>, leaf: Value, rest: seq<string>)
    ensures ResolveSegments(Nest(path, leaf), path + rest) == ResolveSegments(leaf, rest)
  {
    if path == [] {
      assert path + rest == rest;
    } else {
      assert (path + rest)[1..] == path[1..] + rest;
      NestResolves(path[1..], leaf, rest);
    }
  }

  lemma {:induction false} TooDeep(path: seq<string>, text: string, longer: seq<string>)
    requires |path| < |longer|
    ensures ResolveSegments(Nest(path, Str(text)), longer) == Undefined
  {
    if path != [] {
      if longer[0] == path[0] { TooDeep(path[1..], text, longer[1..]); }
    }
  }

  function Copies(v: Value, n: nat): seq<Value> {
    seq(n, _ => v)
  }

  lemma {:induction false} DefinedCopies(v: Value, n: nat)
    requires v != Undefined
    ensures Defined(Copies(v, n)) == Copies(v, n)
  {
    if n > 0 {
      DefinedCopies(v, n - 1);
      assert Copies(v, n)[1..] == Copies(v, n - 1);
      assert Copies(v, n) == [v] + Copies(v, n - 1);
    }
  }

  /** The items of an array all lead to the same value. */
  lemma FanOutOverCopies(v: Value, n: nat, path: seq<string>)
    requires path != [] && !IsIndex(path[0])
    ensures ResolveSegments(Arr(Copies(v, n)), path) == Collapse(Copies(ResolveSegments(v, path), n))
  {
    assert seq(n, i requires 0 <= i < n => ResolveSegments(Copies(v, n)[i], path))
      == Copies(ResolveSegments(v, path), n);
  }

  /** An array below `pre` whose items all have a text below `key`, `post` and the rest of `b`. */
  function FanOut(pre: seq<string>, key: string, post: seq<string>, b: seq<string>): Value
    requires b != [] && IsIndex(b[0])
  {
    Nest(pre, Arr(Copies(Nest([key] + post, Nest(b[1..], Str(""))), NumberOf(b[0]) + 2)))
  }

  lemma FanOutInTwoSteps(pre: seq<string>, key: string, post: seq<string>, b: seq<string>)
    requires b != [] && IsIndex(b[0]) && !IsIndex(key)
    ensures ResolveSegments(ResolveSegments(FanOut(pre, key, post, b), pre + ([key] + post)), b) == Str("")
  {
    hide NumberOf, Copies, Nest, Defined;
    var n, tail, leaf := NumberOf(b[0]) + 2, [key] + post, Nest(b[1..], Str(""));
    var item := Nest(tail, leaf);
    NestResolves(pre, Arr(Copies(item, n)), tail);
    NestResolves(tail, leaf, []);
    assert tail + [] == tail;
    FanOutOverCopies(item, n, tail);
    LeafIsDefined(b[1..]);
    DefinedCopies(leaf, n);
    CopiesAre(leaf, n);
    NestResolves(b[1..], Str(""), []);
    assert b[1..] + [] == b[1..];
  }

  lemma FanOutInOneStep(pre: seq<string>, key: string, post: seq<string>, b: seq<string>)
    requires b != [] && IsIndex(b[0]) && !IsIndex(key)
    ensures ResolveSegments(FanOut(pre, key, post, b), pre + ([key] + post) + b) == Undefined
  {
    hide NumberOf, Copies, Nest, ResolveSegments;
    var n, tail, leaf := NumberOf(b[0]) + 2, [key] + post, Nest(b[1..], Str(""));
    var item := Nest(tail, leaf);
    assert pre + tail + b == pre + (tail + b);
    NestResolves(pre, Arr(Copies(item, n)), tail + b);
    NestResolves(tail, leaf, b);
    FanOutOverCopies(item, n, tail + b);
    TooDeep(b[1..], "", b);
    CopiesAre(Undefined, n);
    NothingFound(Copies(Undefined, n));
  }

  lemma CopiesAre(v: Value, n: nat)
    ensures |Copies(v, n)| == n && forall i | 0 <= i < n :: Copies(v, n)[i] == v
  {}

  lemma LeafIsDefined(path: seq<string>)
    ensures Nest(path, Str("")) != Undefined
  {}

  /** Reading by `a` and then by `b` is reading by `a` followed by `b` for every value exactly
      when `b` is empty or does not start with an index, or `a` consists of indices only. */
  lemma CompositionHoldsIff(a: seq<string>, b: seq<string>)
    ensures (forall v :: ResolveSegments(v, a + b) == ResolveSegments(ResolveSegments(v, a), b)) <==> Composable(a, b)
  {
    hide ResolveSegments;
    if Composable(a, b) {
      forall v ensures ResolveSegments(v, a + b) == ResolveSegments(ResolveSegments(v, a), b) {
        ResolveComposes(v, a, b);
      }
    } else {
      var k :| 0 <= k < |a| && !IsIndex(a[k]);
      assert a == a[..k] + ([a[k]] + a[k + 1..]);
      FanOutInTwoSteps(a[..k], a[k], a[k + 1..], b);
      FanOutInOneStep(a[..k], a[k], a[k + 1..], b);
    }
  }

  lemma AddFrontConcat(c: char, a: seq<string>, b: seq<string>)
    requires |a| > 0
    ensures AddFront(c, a + b) == AddFront(c, a) + b
  {
    assert (a + b)[1..] == a[1..] + b;
  }

  lemma {:induction false} SplitJoinedPaths(p: string, q: string)
    ensures SplitDots(p + "." + q) == SplitDots(p) + SplitDots(q)
  {
    hide AddFront;
    var path := p + "." + q;
    if p == "" {
      assert path[1..] == q;
      FirstDot(SplitDots(q));
    } else {
      SplitJoinedPaths(p[1..], q);
      assert path[1..] == p[1..] + "." + q;
      AddFrontConcat(p[0], SplitDots(p[1..]), SplitDots(q));
    }
  }

  lemma FirstDot(parts: seq<string>)
    requires |parts| > 0
    ensures AddFront('.', parts) == [""] + parts
  {}

  lemma AddPartConcat(part: string, a: seq<string>, b: seq<string>)
    ensures AddPart(part, a + b) == AddPart(part, a) + b
  {
    hide Trim;
    assert [Trim(part)] + (a + b) == ([Trim(part)] + a) + b;
  }

  lemma {:induction false} TrimmedPartsConcat(a: seq<string>, b: seq<string>)
    ensures TrimmedParts(a + b) == TrimmedParts(a) + TrimmedParts(b)
  {
    hide AddPart;
    if a == [] {
      assert a + b == b;
    } else {
      TrimmedPartsConcat(a[1..], b);
      assert (a + b)[1..] == a[1..] + b;
      AddPartConcat(a[0], TrimmedParts(a[1..]), TrimmedParts(b));
    }
  }

  /** Dotted paths compose, unless the second one starts with an index and the first has a name in it. */
  lemma PathsCompose(v: Value, p: string, q: string)
    requires Composable(TrimmedParts(SplitDots(p)), TrimmedParts(SplitDots(q)))
    ensures GetValueByPath(v, p + "." + q) == GetValueByPath(GetValueByPath(v, p), q)
  {
    hide ResolveSegments, SplitDots, TrimmedParts;
    SplitJoinedPaths(p, q);
    TrimmedPartsConcat(SplitDots(p), SplitDots(q));
    ResolveComposes(v, TrimmedParts(SplitDots(p)), TrimmedParts(SplitDots(q)));
  }

  // -------------------------------------------------------------------- JSON

  function ToJsonValue(v: Value): Value {
    match v
    case Undefined => Undefined
    case Null => Undefined
    case Date(iso) => Str(iso)
    case Arr(items) => Arr(Defined(seq(|items|, i requires 0 <= i < |items| => ToJsonValue(items[i]))))
    case Obj(fields) => Obj(map k | k in fields && ToJsonValue(fields[k]) != Undefined :: ToJsonValue(fields[k]))
    case Other(text) => Str(text)
    case _ => v
  }

  /** Only texts, numbers, truth values, arrays and objects, at every depth. */
  predicate IsJson(v: Value) {
    match v
    case Arr(items) => forall i | 0 <= i < |items| :: IsJson(items[i])
    case Obj(fields) => forall k | k in fields :: IsJson(fields[k])
    case Undefined => false
    case Null => false
    case Date(_) => false
    case Other(_) => false
    case _ => true
  }

  lemma {:induction false} DefinedItems(values: seq<Value>)
    ensures forall v | v in Defined(values) :: v in values
  {
    if values != [] { DefinedItems(values[1..]); }
  }

  lemma {:induction false} AllDefined(values: seq<Value>)
    requires Undefined !in values
    ensures Defined(values) == values
  {
    if values != [] { AllDefined(values[1..]); }
  }

  /** Nothing but a missing value becomes undefined; everything else becomes JSON, with no
      null, undefined or date left at any depth. */
  lemma {:induction false} ResultIsJson(v: Value)
    ensures if v == Undefined || v == Null then ToJsonValue(v) == Undefined else IsJson(ToJsonValue(v))
  {
    match v
    case Arr(items) =>
      var values := seq(|items|, i requires 0 <= i < |items| => ToJsonValue(items[i]));
      forall i | 0 <= i < |values| && values[i] != Undefined ensures IsJson(values[i]) {
        ResultIsJson(items[i]);
      }
      DefinedItems(values);
      var kept := Defined(values);
      forall i | 0 <= i < |kept| ensures IsJson(kept[i]) {
        assert kept[i] in kept;
      }
    case Obj(fields) =>
      forall k | k in fields { ResultIsJson(fields[k]); }
    case _ =>
  }

  lemma {:induction false} JsonIsKept(v: Value)
    requires IsJson(v)
    ensures ToJsonValue(v) == v
  {
    match v
    case Arr(items) =>
      var values := seq(|items|, i requires 0 <= i < |items| => ToJsonValue(items[i]));
      forall i | 0 <= i < |items| ensures values[i] == items[i] {
        JsonIsKept(items[i]);
      }
      assert values == items;
      AllDefined(items);
    case Obj(fields) =>
      forall k | k in fields ensures ToJsonValue(fields[k]) == fields[k] && fields[k] != Undefined {
        JsonIsKept(fields[k]);
      }
    case _ =>
  }

  /** The values that are stored unchanged are the JSON values and undefined, and storing
      twice is storing once. */
  lemma JsonIsFixed(v: Value)
    ensures ToJsonValue(v) == v <==> v == Undefined || IsJson(v)
    ensures ToJsonValue(ToJsonValue(v)) == ToJsonValue(v)
  {
    hide ToJsonValue, IsJson;
    ResultIsJson(v);
    ResultIsJson(Null);
    if IsJson(v) { JsonIsKept(v); }
    if IsJson(ToJsonValue(v)) { JsonIsKept(ToJsonValue(v)); }
    ResultIsJson(ToJsonValue(v));
  }

  /** No null or undefined item comes before the one that an index selects or is selected
      itself, and no item of an array that is fanned out leads to null. */
  predicate NothingShifts(v: Value, segments: seq<string>)
    decreases |segments|, v
  {
    segments == [] ||
    match v
    case Arr(items) =>
      if IsIndex(segments[0]) then
        && (forall i | 0 <= i < |items| && i <= NumberOf(segments[0]) :: items[i] != Null && items[i] != Undefined)
        && NothingShifts(Item(items, NumberOf(segments[0])), segments[1..])
      else
        forall i | 0 <= i < |items| :: NothingShifts(items[i], segments) && ResolveSegments(items[i], segments) != Null
    case Obj(fields) => NothingShifts(Field(fields, segments[0]), segments[1..])
    case _ => true
  }

  function Stored(values: seq<Value>): (r: seq<Value>)
    ensures |r| == |values| && forall i | 0 <= i < |r| :: r[i] == ToJsonValue(values[i])
  {
    seq(|values|, i requires 0 <= i < |values| => ToJsonValue(values[i]))
  }

  lemma StoredArray(items: seq<Value>)
    ensures ToJsonValue(Arr(items)) == Arr(Defined(Stored(items)))
  {
    assert seq(|items|, i requires 0 <= i < |items| => ToJsonValue(items[i])) == Stored(items);
  }

  lemma StoredCons(v: Value, rest: seq<Value>)
    ensures Stored([v] + rest) == [ToJsonValue(v)] + Stored(rest)
  {
    hide ToJsonValue;
  }

  /** An item is stored at its place when everything up to it is defined. */
  lemma {:induction false} DefinedUpTo(values: seq<Value>, n: nat)
    requires forall i | 0 <= i < |values| && i <= n :: values[i] != Undefined
    ensures Item(Defined(values), n) == Item(values, n)
    decreases n
  {
    hide Defined;
    if values == [] {
      NothingFound(values);
    } else {
      assert values == [values[0]] + values[1..];
      DefinedCons(values[0], values[1..]);
      if n > 0 { DefinedUpTo(values[1..], n - 1); }
    }
  }

  lemma MissingIsDropped(v: Value)
    ensures ToJsonValue(v) == Undefined <==> v == Undefined || v == Null
  {}

  lemma {:induction false} DefinedOfStored(values: seq<Value>)
    requires Null !in values
    ensures Defined(Stored(values)) == Stored(Defined(values))
  {
    hide ToJsonValue, Defined, Stored;
    if values == [] {
      NothingFound(values);
      StoredNothing();
    } else {
      var first, rest := values[0], values[1..];
      assert values == [first] + rest;
      assert Null !in rest;
      DefinedOfStored(rest);
      MissingIsDropped(first);
      StoredCons(first, rest);
      DefinedCons(first, rest);
      DefinedCons(ToJsonValue(first), Stored(rest));
      StoredCons(first, Defined(rest));
    }
  }

  lemma StoredNothing()
    ensures Stored([]) == [] && Defined([]) == []
  {}

  /** Collapsing and storing change places when nothing that was found is null. */
  lemma StoredCollapse(values: seq<Value>)
    requires Null !in values
    ensures ToJsonValue(Collapse(values)) == Collapse(Stored(values))
  {
    hide ToJsonValue, Defined;
    var found := Defined(values);
    DefinedOfStored(values);
    MissingIsDropped(Undefined);
    if |found| > 1 {
      StoredArray(found);
      forall i | 0 <= i < |found| ensures Stored(found)[i] != Undefined {
        assert Stored(found)[i] in Defined(Stored(values));
      }
      AllDefined(Stored(found));
    }
  }

  lemma {:induction false} StoredFanOut(items: seq<Value>, segments: seq<string>)
    requires segments != [] && !IsIndex(segments[0]) && NothingShifts(Arr(items), segments)
    ensures ResolveSegments(ToJsonValue(Arr(items)), segments) == ToJsonValue(ResolveSegments(Arr(items), segments))
    decreases |segments|, Arr(items), 0
  {
    var found := Onward(items, segments);
    var stored := Stored(items);
    forall i | 0 <= i < |items| ensures ResolveSegments(stored[i], segments) == ToJsonValue(found[i]) {
      StoredFieldIsFieldStored(items[i], segments);
    }
    FanOutIsOnward(items, segments);
    FanOutIsOnward(Defined(stored), segments);
    StoredArray(items);
    DroppingFirst(stored, segments);
    assert Onward(stored, segments) == Stored(found);
    StoredCollapse(found);
  }

  lemma FanOutIsOnward(items: seq<Value>, segments: seq<string>)
    requires segments != [] && !IsIndex(segments[0])
    ensures ResolveSegments(Arr(items), segments) == Collapse(Onward(items, segments))
  {
    assert seq(|items|, i requires 0 <= i < |items| => ResolveSegments(items[i], segments)) == Onward(items, segments);
  }

  /** Reading from the stored record is storing what is read from the record, as long as no
      dropped null shifts an index or changes what a fanned out array collapses to. */
  lemma {:induction false} StoredFieldIsFieldStored(v: Value, segments: seq<string>)
    requires NothingShifts(v, segments)
    ensures ResolveSegments(ToJsonValue(v), segments) == ToJsonValue(ResolveSegments(v, segments))
    decreases |segments|, v
  {
    if segments != [] {
      match v
      case Obj(fields) =>
        StoredFieldIsFieldStored(Field(fields, segments[0]), segments[1..]);
        NothingInside(segments[1..]);
      case Arr(items) =>
        if IsIndex(segments[0]) {
          StoredItem(items, segments);
          StoredFieldIsFieldStored(Item(items, NumberOf(segments[0])), segments[1..]);
        } else {
          StoredFanOut(items, segments);
        }
      case _ =>
    }
  }

  /** A date is stored as its ISO text and a value without a JSON form as its text, wherever the path
      that leads to it does not shift; texts, numbers and truth values are stored as they are. */
  lemma LeavesAreStored(v: Value, segments: seq<string>)
    requires NothingShifts(v, segments)
    ensures match ResolveSegments(v, segments)
            case Date(iso) => ResolveSegments(ToJsonValue(v), segments) == Str(iso)
            case Other(text) => ResolveSegments(ToJsonValue(v), segments) == Str(text)
            case Str(_) => ResolveSegments(ToJsonValue(v), segments) == ResolveSegments(v, segments)
            case Num(_) => ResolveSegments(ToJsonValue(v), segments) == ResolveSegments(v, segments)
            case Bool(_) => ResolveSegments(ToJsonValue(v), segments) == ResolveSegments(v, segments)
            case _ => true
  {
    StoredFieldIsFieldStored(v, segments);
  }

  lemma StoredItem(items: seq<Value>, segments: seq<string>)
    requires segments != [] && IsIndex(segments[0]) && NothingShifts(Arr(items), segments)
    ensures ResolveSegments(ToJsonValue(Arr(items)), segments)
         == ResolveSegments(ToJsonValue(Item(items, NumberOf(segments[0]))), segments[1..])
  {
    hide ToJsonValue, NumberOf;
    var n := NumberOf(segments[0]);
    StoredArray(items);
    forall i | 0 <= i < |items| && i <= n ensures Stored(items)[i] != Undefined { MissingIsDropped(items[i]); }
    DefinedUpTo(Stored(items), n);
    MissingIsDropped(Undefined);
  }

  // --------------------------------------------- where storing loses a place

  /** A value whose stored form reads differently along a path. */
  function Shifted(segments: seq<string>): Value
    requires segments != []
  {
    if IsIndex(segments[0]) then
      Arr([Null] + Copies(Bool(true), NumberOf(segments[0])) + [Nest(segments[1..], Str(""))])
    else Arr([Nest(segments, Null), Nest(segments, Str(""))])
  }

  lemma {:induction false} NestDoesNotShift(path: seq<string>, leaf: Value)
    ensures NothingShifts(Nest(path, leaf), path)
  {
    if path != [] { NestDoesNotShift(path[1..], leaf); }
  }

  lemma {:induction false} NestIsJson(path: seq<string>, leaf: Value)
    requires IsJson(leaf)
    ensures IsJson(Nest(path, leaf))
  {
    if path != [] { NestIsJson(path[1..], leaf); }
  }

  /** A null at the front of JSON items is dropped. */
  lemma NullInFront(kept: seq<Value>)
    requires forall i | 0 <= i < |kept| :: IsJson(kept[i])
    ensures ToJsonValue(Arr([Null] + kept)) == Arr(kept)
  {
    hide ToJsonValue, Defined;
    JsonIsKept(Arr(kept));
    StoredArray(kept);
    StoredArray([Null] + kept);
    StoredCons(Null, kept);
    MissingIsDropped(Null);
    DefinedCons(Undefined, Stored(kept));
  }

  function Tail(segments: seq<string>): seq<Value>
    requires segments != [] && IsIndex(segments[0])
  {
    Copies(Bool(true), NumberOf(segments[0])) + [Nest(segments[1..], Str(""))]
  }

  lemma TailItems(segments: seq<string>)
    requires segments != [] && IsIndex(segments[0])
    ensures var n := NumberOf(segments[0]);
            && |Tail(segments)| == n + 1
            && (forall i | 0 <= i < n :: Tail(segments)[i] == Bool(true))
            && Tail(segments)[n] == Nest(segments[1..], Str(""))
            && (forall i | 0 <= i <= n :: IsJson(Tail(segments)[i]))
            && Shifted(segments) == Arr([Null] + Tail(segments))
  {
    hide NumberOf;
    NestIsJson(segments[1..], Str(""));
    CopiesAre(Bool(true), NumberOf(segments[0]));
    assert [Null] + Copies(Bool(true), NumberOf(segments[0])) + [Nest(segments[1..], Str(""))]
      == [Null] + Tail(segments);
  }

  lemma ShiftedByIndex(segments: seq<string>)
    requires segments != [] && IsIndex(segments[0])
    ensures ResolveSegments(ToJsonValue(Shifted(segments)), segments) == Str("")
    ensures ToJsonValue(ResolveSegments(Shifted(segments), segments)) != Str("")
  {
    hide Nest, Tail, Shifted, NumberOf;
    var kept, n := Tail(segments), NumberOf(segments[0]);
    TailItems(segments);
    NullInFront(kept);
    NestResolves(segments[1..], Str(""), []);
    assert segments[1..] + [] == segments[1..];
    var original := ([Null] + kept)[n];
    assert original == Null || original == Bool(true);
    assert ResolveSegments(Shifted(segments), segments) == ResolveSegments(original, segments[1..]);
  }

  lemma ShiftedByFanOut(segments: seq<string>)
    requires segments != [] && !IsIndex(segments[0])
    ensures ResolveSegments(ToJsonValue(Shifted(segments)), segments) == Str("")
    ensures ToJsonValue(ResolveSegments(Shifted(segments), segments)) != Str("")
  {
    hide Nest, IsIndex, ResolveSegments, ToJsonValue, Defined, NothingShifts;
    var empty, full := Nest(segments, Null), Nest(segments, Str(""));
    NestResolves(segments, Null, []);
    NestResolves(segments, Str(""), []);
    assert segments + [] == segments;
    PathEnds(Null);
    PathEnds(Str(""));
    MissingIsDropped(Null);
    JsonIsKept(Str(""));
    NestDoesNotShift(segments, Null);
    NestDoesNotShift(segments, Str(""));
    StoredFieldIsFieldStored(empty, segments);
    StoredFieldIsFieldStored(full, segments);
    FanOutIsOnward([empty, full], segments);
    assert Onward([empty, full], segments) == [Null, Str("")];
    FanOutIsOnward(Defined(Stored([empty, full])), segments);
    StoredArray([empty, full]);
    DroppingFirst(Stored([empty, full]), segments);
    assert Onward(Stored([empty, full]), segments) == [Undefined] + [Str("")];
    DefinedCons(Undefined, [Str("")]);
    AllDefined([Str("")]);
    AllDefined([Null, Str("")]);
    StoredArray([Null, Str("")]);
  }

  lemma PathEnds(v: Value)
    ensures ResolveSegments(v, []) == v
  {}

  /** Storing and reading change places for every value only along the empty path. */
  lemma StoringCommutesIff(segments: seq<string>)
    ensures (forall v :: ResolveSegments(ToJsonValue(v), segments) == ToJsonValue(ResolveSegments(v, segments)))
       <==> segments == []
  {
    hide ResolveSegments, ToJsonValue, Shifted;
    if segments == [] {
      forall v ensures ResolveSegments(ToJsonValue(v), segments) == ToJsonValue(ResolveSegments(v, segments)) {
        PathEnds(v);
        PathEnds(ToJsonValue(v));
      }
    } else if IsIndex(segments[0]) {
      ShiftedByIndex(segments);
    } else {
      ShiftedByFanOut(segments);
    }
  }
}
