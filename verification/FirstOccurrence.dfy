/** Which positions of a list are kept when blank keys are skipped and every key is kept
    only where it occurs first. This is what the loops with a `seen` set promise. */
module FirstOccurrence {
  import opened Wrappers

  predicate IsFirst(keys: seq<Option<string>>, k: nat)
    requires k < |keys|
  {
    keys[k].Some? && forall j | 0 <= j < k :: keys[j] != keys[k]
  }

  predicate IsRepeat(keys: seq<Option<string>>, k: nat)
    requires k < |keys|
  {
    keys[k].Some? && exists j | 0 <= j < k :: keys[j] == keys[k]
  }

  /** The kept positions below `n`, in order. */
  function Firsts(keys: seq<Option<string>>, n: nat): (r: seq<nat>)
    requires n <= |keys|
    ensures forall i | 0 <= i < |r| :: r[i] < n && IsFirst(keys, r[i])
  {
    if n == 0 then []
    else Firsts(keys, n - 1) + (if IsFirst(keys, n - 1) then [n - 1] else [])
  }

  function Repeats(keys: seq<Option<string>>, n: nat): set<nat>
    requires n <= |keys|
  {
    set k | 0 <= k < n && IsRepeat(keys, k)
  }

  function Present(keys: seq<Option<string>>, n: nat): set<nat>
    requires n <= |keys|
  {
    set k | 0 <= k < n && keys[k].Some?
  }

  /** Exactly the first occurrences are kept, in the order of the list. */
  lemma {:induction false} FirstsAre(keys: seq<Option<string>>, n: nat)
    requires n <= |keys|
    ensures forall i, j | 0 <= i < j < |Firsts(keys, n)| :: Firsts(keys, n)[i] < Firsts(keys, n)[j]
    ensures forall k | 0 <= k < n :: k in Firsts(keys, n) <==> IsFirst(keys, k)
  {
    if n > 0 { FirstsAre(keys, n - 1); }
  }

  /** No key is kept twice. */
  lemma FirstsDiffer(keys: seq<Option<string>>, n: nat, i: nat, j: nat)
    requires n <= |keys| && i < j < |Firsts(keys, n)|
    ensures keys[Firsts(keys, n)[i]] != keys[Firsts(keys, n)[j]]
  {
    FirstsAre(keys, n);
    assert IsFirst(keys, Firsts(keys, n)[j]);
  }

  /** Every key has a kept position, not after its own. */
  lemma {:induction false} HasFirst(keys: seq<Option<string>>, n: nat, k: nat) returns (i: nat)
    requires k < n <= |keys| && keys[k].Some?
    ensures i < |Firsts(keys, n)| && Firsts(keys, n)[i] <= k && keys[Firsts(keys, n)[i]] == keys[k]
    decreases k
  {
    if j: nat :| j < k && keys[j] == keys[k] {
      i := HasFirst(keys, n, j);
    } else {
      FirstsAre(keys, n);
      assert IsFirst(keys, k);
      i :| 0 <= i < |Firsts(keys, n)| && Firsts(keys, n)[i] == k;
    }
  }

  /** Kept and dropped positions make up all positions that have a key. */
  lemma {:induction false} FirstsAndRepeats(keys: seq<Option<string>>, n: nat)
    requires n <= |keys|
    ensures |Firsts(keys, n)| + |Repeats(keys, n)| == |Present(keys, n)|
  {
    if n > 0 {
      FirstsAndRepeats(keys, n - 1);
      RepeatsStep(keys, n - 1);
      PresentStep(keys, n - 1);
    }
  }

  lemma RepeatsStep(keys: seq<Option<string>>, n: nat)
    requires n < |keys|
    ensures |Repeats(keys, n + 1)| == |Repeats(keys, n)| + (if IsRepeat(keys, n) then 1 else 0)
  {
    if IsRepeat(keys, n) {
      assert Repeats(keys, n + 1) == Repeats(keys, n) + {n};
    } else {
      assert Repeats(keys, n + 1) == Repeats(keys, n);
    }
  }

  lemma PresentStep(keys: seq<Option<string>>, n: nat)
    requires n < |keys|
    ensures |Present(keys, n + 1)| == |Present(keys, n)| + (if keys[n].Some? then 1 else 0)
  {
    if keys[n].Some? {
      assert Present(keys, n + 1) == Present(keys, n) + {n};
    } else {
      assert Present(keys, n + 1) == Present(keys, n);
    }
  }

  // ------------------------------------------------------- for the seen loops

  /** `seen` holds the keys below `n`. */
  ghost predicate Seen(keys: seq<Option<string>>, n: nat, seen: set<string>)
    requires n <= |keys|
  {
    forall key :: key in seen <==> exists k | 0 <= k < n :: keys[k] == Some(key)
  }

  lemma SeenStep(keys: seq<Option<string>>, n: nat, seen: set<string>)
    requires n < |keys| && Seen(keys, n, seen)
    ensures keys[n].None? ==> !IsFirst(keys, n) && !IsRepeat(keys, n) && Seen(keys, n + 1, seen)
    ensures keys[n].Some? ==> Seen(keys, n + 1, seen + {keys[n].value})
    ensures keys[n].Some? ==> (IsRepeat(keys, n) <==> keys[n].value in seen)
    ensures keys[n].Some? ==> (IsFirst(keys, n) <==> keys[n].value !in seen)
  {}

  lemma NothingSeen(keys: seq<Option<string>>)
    ensures Seen(keys, 0, {}) && Firsts(keys, 0) == [] && Repeats(keys, 0) == {}
  {}

  lemma FirstsStep(keys: seq<Option<string>>, n: nat)
    requires n < |keys|
    ensures Firsts(keys, n + 1) == if IsFirst(keys, n) then Firsts(keys, n) + [n] else Firsts(keys, n)
  {}

  /** The values at some positions. */
  function Select<T>(values: seq<T>, positions: seq<nat>): (r: seq<T>)
    requires forall i | 0 <= i < |positions| :: positions[i] < |values|
    ensures |r| == |positions| && forall i | 0 <= i < |r| :: r[i] == values[positions[i]]
  {
    seq(|positions|, i requires 0 <= i < |positions| => values[positions[i]])
  }

  lemma SelectStep<T>(values: seq<T>, positions: seq<nat>, n: nat)
    requires n < |values| && forall i | 0 <= i < |positions| :: positions[i] < |values|
    ensures Select(values, positions + [n]) == Select(values, positions) + [values[n]]
  {}
}
