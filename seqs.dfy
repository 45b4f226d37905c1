/** Sequence helpers shared by the model: duplicate-freedom, sortedness, the
    sort that Rust's `Vec::sort` performs on vertex lists, removal of the first
    occurrence (`Vec::remove(position(..))`), filtering (`retain`, `filter`),
    and the subsequences of a sorted list, from which bag power sets are made. */
module Seqs {

  /** No element occurs twice. */
  predicate NoDup<T(==)>(s: seq<T>) {
    forall i, j :: 0 <= i < j < |s| ==> s[i] != s[j]
  }

  /** Ascending (not necessarily strictly). */
  predicate Sorted(s: seq<nat>) {
    forall i, j :: 0 <= i < j < |s| ==> s[i] <= s[j]
  }

  /** Strictly ascending: each position holds a larger value than all before it. */
  predicate Increasing(s: seq<nat>) {
    forall i, j :: 0 <= i < j < |s| ==> s[i] < s[j]
  }

  function Elements<T>(s: seq<T>): set<T> {
    set x | x in s
  }

  function Pow2(n: nat): (r: nat)
    ensures r >= 1
  {
    if n == 0 then 1 else 2 * Pow2(n - 1)
  }

  // ---------------------------------------------------------------------------
  // Sorting

  /** Inserts `x` into an ascending list, keeping it ascending. */
  function Insert(x: nat, s: seq<nat>): (r: seq<nat>)
    requires Sorted(s)
    ensures Sorted(r)
    ensures multiset(r) == multiset(s) + multiset{x}
    ensures |r| == |s| + 1
  {
    if s == [] then [x]
    else if x <= s[0] then [x] + s
    else
      var tail := Insert(x, s[1..]);
      assert s == [s[0]] + s[1..];
      SortedTail(s);
      LowerBoundOfMultiset(s[0], tail, multiset(s[1..]) + multiset{x});
      PrependSorted(s[0], tail);
      [s[0]] + tail
  }

  lemma PrependSorted(a: nat, t: seq<nat>)
    requires Sorted(t)
    requires forall y :: y in t ==> a <= y
    ensures Sorted([a] + t)
  {
    var r := [a] + t;
    forall i, j | 0 <= i < j < |r| ensures r[i] <= r[j] {
      if i > 0 {
        assert r[i] == t[i - 1] && r[j] == t[j - 1];
        assert t[i - 1] <= t[j - 1];
      } else {
        assert r[j] == t[j - 1] && t[j - 1] in t;
      }
    }
  }

  lemma LowerBoundOfMultiset(a: nat, t: seq<nat>, m: multiset<nat>)
    requires multiset(t) == m
    requires forall y :: y in m ==> a <= y
    ensures forall y :: y in t ==> a <= y
  {
    forall y | y in t ensures a <= y {
      assert y in multiset(t);
    }
  }

  /** The ascending permutation of `s` (insertion sort). Any sort gives the
      same list, see SortedUnique. */
  function Sort(s: seq<nat>): (r: seq<nat>)
    ensures Sorted(r)
    ensures multiset(r) == multiset(s)
    ensures |r| == |s|
  {
    if s == [] then []
    else
      assert s == [s[0]] + s[1..];
      Insert(s[0], Sort(s[1..]))
  }

  lemma SortedTail(s: seq<nat>)
    requires Sorted(s) && s != []
    ensures Sorted(s[1..])
    ensures forall y :: y in multiset(s[1..]) ==> s[0] <= y
  {
  }

  /** Two ascending lists with the same elements (counting repeats) are equal:
      the sorted permutation of a list is unique. */
  lemma {:induction false} SortedUnique(a: seq<nat>, b: seq<nat>)
    requires Sorted(a) && Sorted(b)
    requires multiset(a) == multiset(b)
    ensures a == b
  {
    if a == [] {
      assert |b| == |multiset(b)| == 0;
    } else {
      assert |b| == |multiset(b)| == |multiset(a)| == |a|;
      assert a[0] in multiset(b);
      assert b[0] in multiset(a);
      assert a == [a[0]] + a[1..];
      assert b == [b[0]] + b[1..];
      SortedTail(a);
      SortedTail(b);
      assert a[0] == b[0];
      assert multiset(a) == multiset{a[0]} + multiset(a[1..]);
      assert multiset(b) == multiset{b[0]} + multiset(b[1..]);
      assert multiset(a[1..]) == multiset(a) - multiset{a[0]};
      assert multiset(b[1..]) == multiset(b) - multiset{b[0]};
      SortedUnique(a[1..], b[1..]);
    }
  }

  lemma SortOfSorted(s: seq<nat>)
    requires Sorted(s)
    ensures Sort(s) == s
  {
    SortedUnique(Sort(s), s);
  }

  // ---------------------------------------------------------------------------
  // Removing the first occurrence

  /** `s` without its first occurrence of `x` (unchanged when `x` is absent). */
  function RemoveFirst(s: seq<nat>, x: nat): (r: seq<nat>)
    ensures x in s ==> multiset(r) == multiset(s) - multiset{x} && |r| == |s| - 1
    ensures x !in s ==> r == s
  {
    if s == [] then []
    else if s[0] == x then
      assert s == [s[0]] + s[1..];
      s[1..]
    else
      var tail := RemoveFirst(s[1..], x);
      assert s == [s[0]] + s[1..];
      [s[0]] + tail
  }

  lemma {:induction false} RemoveFirstSorted(s: seq<nat>, x: nat)
    requires Sorted(s)
    ensures Sorted(RemoveFirst(s, x))
  {
    if s != [] && s[0] != x {
      var tail := RemoveFirst(s[1..], x);
      SortedTail(s);
      RemoveFirstSorted(s[1..], x);
      assert multiset(tail) <= multiset(s[1..]);
      forall y | y in tail ensures s[0] <= y {
        assert y in multiset(tail);
      }
      PrependSorted(s[0], tail);
    }
  }

  /** Removing one copy of `x` from an ascending list and putting it back, then
      sorting, gives the list back. */
  lemma RemoveThenSort(s: seq<nat>, x: nat)
    requires Sorted(s) && x in s
    ensures Sort(RemoveFirst(s, x) + [x]) == s
  {
    var r := RemoveFirst(s, x);
    assert multiset(r + [x]) == multiset(r) + multiset{x};
    SortedUnique(Sort(r + [x]), s);
  }

  /** Adding `x` to an ascending list, sorting, then removing one copy of `x`
      gives the list back. */
  lemma SortThenRemove(s: seq<nat>, x: nat)
    requires Sorted(s)
    ensures RemoveFirst(Sort(s + [x]), x) == s
  {
    var t := Sort(s + [x]);
    assert x in multiset(t);
    assert multiset(RemoveFirst(t, x)) == multiset(s);
    RemoveFirstSorted(t, x);
    SortedUnique(RemoveFirst(t, x), s);
  }

  // ---------------------------------------------------------------------------
  // Filtering

  /** The elements of `a` that do not occur in `b`, in order (Rust's
      `a.iter().filter(|v| !b.contains(v))` and `a.retain(|v| !b.contains(v))`). */
  function Minus(a: seq<nat>, b: seq<nat>): (r: seq<nat>)
    ensures forall x :: x in r <==> x in a && x !in b
    ensures |r| <= |a|
    ensures NoDup(a) ==> NoDup(r)
  {
    if a == [] then []
    else
      var tail := Minus(a[1..], b);
      assert a == [a[0]] + a[1..];
      if a[0] in b then tail else [a[0]] + tail
  }

  lemma {:induction false} MinusAppend(a: seq<nat>, p: seq<nat>, v: nat)
    ensures Minus(Minus(a, p), [v]) == Minus(a, p + [v])
  {
    if a != [] {
      MinusAppend(a[1..], p, v);
    }
  }

  // ---------------------------------------------------------------------------
  // Subsequences

  /** Prepends `x` to every list in `ts`. */
  function PrependAll(x: nat, ts: seq<seq<nat>>): (r: seq<seq<nat>>)
    ensures |r| == |ts|
    ensures forall k :: 0 <= k < |r| ==> r[k] == [x] + ts[k]
  {
    if ts == [] then [] else [[x] + ts[0]] + PrependAll(x, ts[1..])
  }

  /** All subsequences of `s`: first those without `s[0]`, then those with it. */
  function Subsequences(s: seq<nat>): (r: seq<seq<nat>>)
    ensures |r| == Pow2(|s|)
  {
    if s == [] then [[]]
    else
      var rest := Subsequences(s[1..]);
      rest + PrependAll(s[0], rest)
  }

  /** A list is a subsequence of an ascending list `s` exactly when it is
      ascending and takes each value at most as often as `s` has it. */
  lemma SubsequencesOfSorted(s: seq<nat>, t: seq<nat>)
    requires Sorted(s)
    ensures t in Subsequences(s) <==> Sorted(t) && multiset(t) <= multiset(s)
  {
    if t in Subsequences(s) {
      SubsequenceIsSortedSubmultiset(s, t);
    }
    if Sorted(t) && multiset(t) <= multiset(s) {
      SortedSubmultisetIsSubsequence(s, t);
    }
  }

  lemma {:induction false} SubsequenceIsSortedSubmultiset(s: seq<nat>, t: seq<nat>)
    requires Sorted(s) && t in Subsequences(s)
    ensures Sorted(t) && multiset(t) <= multiset(s)
  {
    if s != [] {
      var rest := Subsequences(s[1..]);
      SortedTail(s);
      assert s == [s[0]] + s[1..];
      if t in rest {
        SubsequenceIsSortedSubmultiset(s[1..], t);
      } else {
        assert t in PrependAll(s[0], rest);
        var k :| 0 <= k < |rest| && PrependAll(s[0], rest)[k] == t;
        var u := rest[k];
        SubsequenceIsSortedSubmultiset(s[1..], u);
        assert t == [s[0]] + u;
        forall y | y in u ensures s[0] <= y {
          assert y in multiset(u);
        }
        PrependSorted(s[0], u);
      }
    }
  }

  lemma {:induction false} SortedSubmultisetIsSubsequence(s: seq<nat>, t: seq<nat>)
    requires Sorted(s) && Sorted(t) && multiset(t) <= multiset(s)
    ensures t in Subsequences(s)
  {
    if s == [] {
      assert |t| == |multiset(t)| == 0;
    } else if t == [] {
      EmptyIsSubsequence(s);
    } else if t[0] == s[0] {
      var rest := Subsequences(s[1..]);
      SortedTail(s);
      SortedTail(t);
      SubmultisetTails(s, t);
      SortedSubmultisetIsSubsequence(s[1..], t[1..]);
      assert t == [t[0]] + t[1..];
      assert PrependAll(s[0], rest)[IndexIn(rest, t[1..])] == t;
    } else {
      SortedTail(s);
      SubmultisetWithoutHead(s, t);
      SortedSubmultisetIsSubsequence(s[1..], t);
    }
  }

  lemma SubmultisetTails(s: seq<nat>, t: seq<nat>)
    requires s != [] && t != [] && s[0] == t[0]
    requires multiset(t) <= multiset(s)
    ensures multiset(t[1..]) <= multiset(s[1..])
  {
    assert s == [s[0]] + s[1..];
    assert t == [t[0]] + t[1..];
    assert multiset(s) == multiset{s[0]} + multiset(s[1..]);
    assert multiset(t) == multiset{t[0]} + multiset(t[1..]);
    forall x ensures multiset(t[1..])[x] <= multiset(s[1..])[x] {
      assert multiset(t)[x] <= multiset(s)[x];
    }
  }

  lemma SubmultisetWithoutHead(s: seq<nat>, t: seq<nat>)
    requires s != [] && t != [] && s[0] != t[0]
    requires Sorted(s) && Sorted(t)
    requires multiset(t) <= multiset(s)
    ensures multiset(t) <= multiset(s[1..])
  {
    assert s == [s[0]] + s[1..];
    assert multiset(s) == multiset{s[0]} + multiset(s[1..]);
    assert t[0] in multiset(s);
    assert s[0] < t[0];
    assert s[0] !in multiset(t) by {
      forall y | y in t ensures s[0] < y {
        var i :| 0 <= i < |t| && t[i] == y;
        assert t[0] <= t[i];
      }
    }
    forall x ensures multiset(t)[x] <= multiset(s[1..])[x] {
      assert multiset(t)[x] <= multiset(s)[x];
    }
  }

  function IndexIn(ts: seq<seq<nat>>, t: seq<nat>): (k: nat)
    requires t in ts
    ensures k < |ts| && ts[k] == t
  {
    if ts[0] == t then 0 else 1 + IndexIn(ts[1..], t)
  }

  lemma EmptyIsSubsequence(s: seq<nat>)
    ensures [] in Subsequences(s)
  {
    if s != [] {
      EmptyIsSubsequence(s[1..]);
    }
  }

  lemma {:induction false} WholeIsSubsequence(s: seq<nat>)
    ensures s in Subsequences(s)
  {
    if s != [] {
      WholeIsSubsequence(s[1..]);
      var rest := Subsequences(s[1..]);
      assert PrependAll(s[0], rest)[IndexIn(rest, s[1..])] == s;
    }
  }

  // ---------------------------------------------------------------------------
  // Duplicate-free lists and multisets

  /** In a duplicate-free list every element occurs exactly once. */
  lemma {:induction false} NoDupMultiplicity(s: seq<nat>, x: nat)
    requires NoDup(s)
    ensures multiset(s)[x] == if x in s then 1 else 0
  {
    if s != [] {
      assert s == [s[0]] + s[1..];
      NoDupMultiplicity(s[1..], x);
    }
  }

  /** Duplicate-free lists with the same elements are permutations of each other. */
  lemma SameElementsSameMultiset(a: seq<nat>, b: seq<nat>)
    requires NoDup(a) && NoDup(b)
    requires Elements(a) == Elements(b)
    ensures multiset(a) == multiset(b)
  {
    forall x ensures multiset(a)[x] == multiset(b)[x] {
      NoDupMultiplicity(a, x);
      NoDupMultiplicity(b, x);
      assert x in a <==> x in Elements(a);
      assert x in b <==> x in Elements(b);
    }
  }

  /** A duplicate-free list with `x` removed (by filtering) loses exactly one copy of `x`. */
  lemma MinusOneMultiset(a: seq<nat>, v: nat)
    requires NoDup(a)
    ensures v in a ==> multiset(Minus(a, [v])) == multiset(a) - multiset{v}
    ensures v !in a ==> multiset(Minus(a, [v])) == multiset(a)
  {
    var r := Minus(a, [v]);
    forall x ensures multiset(r)[x] == (multiset(a) - multiset{v})[x] {
      NoDupMultiplicity(a, x);
      NoDupMultiplicity(r, x);
    }
    assert multiset(r) == multiset(a) - multiset{v};
    if v !in a {
      assert multiset(a)[v] == 0;
      assert multiset(a) - multiset{v} == multiset(a);
    }
  }
}
