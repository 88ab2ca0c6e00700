/** `[...new Set(values)].sort()`: the order of JavaScript strings, and the sorted,
    deduplicated lists that stand for sets of variable names. */
module StringOrder {

  /** Strings are ordered by UTF-16 code units, so the characters that need surrogates
      come after U+D7FF and before U+E000. */
  function Rank(c: char): int {
    if c < '\U{E000}' then c as int
    else if c <= '\U{FFFF}' then c as int + 0x10_0000
    else c as int - 0x1_0000 + 0xD800
  }

  lemma RankIsInjective(c: char, d: char)
    ensures Rank(c) == Rank(d) <==> c == d
  {}

  predicate Less(a: string, b: string) {
    b != "" && (a == "" || Rank(a[0]) < Rank(b[0]) || (a[0] == b[0] && Less(a[1..], b[1..])))
  }

  lemma {:induction false} LessIsTotal(a: string, b: string)
    ensures (Less(a, b) && a != b && !Less(b, a)) || (Less(b, a) && a != b && !Less(a, b)) || (a == b && !Less(a, b))
  {
    if a != "" && b != "" {
      RankIsInjective(a[0], b[0]);
      if a[0] == b[0] {
        LessIsTotal(a[1..], b[1..]);
        assert a == [a[0]] + a[1..] && b == [b[0]] + b[1..];
      }
    }
  }

  lemma {:induction false} LessIsTransitive(a: string, b: string, c: string)
    requires Less(a, b) && Less(b, c)
    ensures Less(a, c)
  {
    if a != "" {
      RankIsInjective(a[0], b[0]);
      RankIsInjective(b[0], c[0]);
      if a[0] == b[0] == c[0] { LessIsTransitive(a[1..], b[1..], c[1..]); }
    }
  }

  predicate StrictlySorted(s: seq<string>) {
    forall i, j | 0 <= i < j < |s| :: Less(s[i], s[j])
  }

  function Elements(s: seq<string>): set<string> {
    set x | x in s
  }

  predicate Distinct(s: seq<string>) {
    forall i, j | 0 <= i < j < |s| :: s[i] != s[j]
  }

  /** A JavaScript `Set` keeps the first occurrence of each value, in insertion order. */
  function AddToSet(s: seq<string>, x: string): (r: seq<string>)
    ensures Elements(r) == Elements(s) + {x}
    ensures Distinct(s) ==> Distinct(r)
  {
    if x in s then s else s + [x]
  }

  function ToSet(values: seq<string>): (r: seq<string>)
    ensures Elements(r) == Elements(values)
    ensures Distinct(r)
  {
    if values == [] then []
    else
      var n := |values| - 1;
      assert values == values[..n] + [values[n]];
      AddToSet(ToSet(values[..n]), values[n])
  }

  function Insert(x: string, s: seq<string>): (r: seq<string>)
    ensures multiset(r) == multiset(s) + multiset{x}
  {
    if s == [] then [x]
    else if Less(s[0], x) then
      assert s == [s[0]] + s[1..];
      [s[0]] + Insert(x, s[1..])
    else [x] + s
  }

  function Sort(s: seq<string>): (r: seq<string>)
    ensures multiset(r) == multiset(s)
  {
    if s == [] then []
    else
      assert s == [s[0]] + s[1..];
      Insert(s[0], Sort(s[1..]))
  }

  lemma {:induction false} InsertKeepsOrder(x: string, s: seq<string>)
    requires StrictlySorted(s) && x !in s
    ensures StrictlySorted(Insert(x, s))
  {
    hide Less;
    if s != [] {
      LessIsTotal(s[0], x);
      if Less(s[0], x) {
        InsertKeepsOrder(x, s[1..]);
        var r := Insert(x, s[1..]);
        forall i | 0 <= i < |r| ensures Less(s[0], r[i]) {
          assert r[i] in multiset(r);
          assert r[i] in s[1..] || r[i] == x;
        }
      } else {
        forall i | 0 <= i < |s| ensures Less(x, s[i]) {
          if i > 0 { LessIsTransitive(x, s[0], s[i]); }
        }
      }
    }
  }

  lemma SameElements(a: seq<string>, b: seq<string>)
    requires multiset(a) == multiset(b)
    ensures Elements(a) == Elements(b)
  {
    forall x ensures x in a <==> x in b {
      assert x in a <==> x in multiset(a);
      assert x in b <==> x in multiset(b);
    }
  }

  lemma {:induction false} SortIsSorted(s: seq<string>)
    requires Distinct(s)
    ensures StrictlySorted(Sort(s))
  {
    if s != [] {
      SortIsSorted(s[1..]);
      assert s[0] !in s[1..];
      assert s[0] !in multiset(s[1..]);
      assert s[0] !in multiset(Sort(s[1..]));
      InsertKeepsOrder(s[0], Sort(s[1..]));
    }
  }

  /** `[...new Set(values)].sort()`. */
  function SortedSet(values: seq<string>): seq<string> {
    Sort(ToSet(values))
  }

  /** A strictly sorted list is determined by its elements. */
  lemma {:induction false} SortedIsUnique(a: seq<string>, b: seq<string>)
    requires StrictlySorted(a) && StrictlySorted(b) && Elements(a) == Elements(b)
    ensures a == b
  {
    if a == [] || b == [] {
      EmptyElements(a);
      EmptyElements(b);
    } else {
      assert a[0] in Elements(b) && b[0] in Elements(a);
      var i :| 0 <= i < |b| && b[i] == a[0];
      var j :| 0 <= j < |a| && a[j] == b[0];
      LessIsTotal(a[0], b[0]);
      assert a[0] == b[0];
      TailElements(a);
      TailElements(b);
      SortedIsUnique(a[1..], b[1..]);
    }
  }

  lemma EmptyElements(a: seq<string>)
    ensures a == [] <==> Elements(a) == {}
  {
    if a != [] { assert a[0] in Elements(a); }
  }

  lemma TailElements(a: seq<string>)
    requires a != [] && StrictlySorted(a)
    ensures Elements(a[1..]) == Elements(a) - {a[0]}
  {
    forall x ensures x in a[1..] <==> x in a && x != a[0] {
      LessIsTotal(a[0], x);
      if x in a && x != a[0] {
        var i :| 0 <= i < |a| && a[i] == x;
        assert a[1..][i - 1] == x;
      }
    }
  }

  lemma SortedSetIs(values: seq<string>)
    ensures StrictlySorted(SortedSet(values)) && Elements(SortedSet(values)) == Elements(values)
  {
    SortIsSorted(ToSet(values));
    SameElements(SortedSet(values), ToSet(values));
  }

  /** Two sorted, deduplicated lists are equal exactly when they stand for the same set. */
  lemma SortedSetsAgree(a: seq<string>, b: seq<string>)
    ensures SortedSet(a) == SortedSet(b) <==> Elements(a) == Elements(b)
  {
    SortedSetIs(a);
    SortedSetIs(b);
    if Elements(a) == Elements(b) { SortedIsUnique(SortedSet(a), SortedSet(b)); }
  }
}
