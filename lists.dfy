/** List operations the pages build on: `Array.prototype.filter`, the
    subsequence relation that says a filter kept order and added nothing,
    and `[...new Set(xs)]`, which keeps each value once in the order of
    its first occurrence. */
module Lists {

  /** `a` is obtained from `b` by deleting elements, keeping the order of
      the rest. */
  ghost predicate IsSubsequence<T>(a: seq<T>, b: seq<T>)
    decreases |b|
  {
    if a == [] then true
    else if b == [] then false
    else (a[0] == b[0] && IsSubsequence(a[1..], b[1..])) || IsSubsequence(a, b[1..])
  }

  /** `s.filter(keep)`. */
  function Filter<T(==,!new)>(s: seq<T>, keep: T -> bool): (r: seq<T>)
    ensures |r| <= |s|
    ensures forall x :: x in r <==> x in s && keep(x)
    ensures IsSubsequence(r, s)
    ensures (forall x :: x in s ==> keep(x)) ==> r == s
    ensures (forall x :: x in s ==> !keep(x)) ==> r == []
    decreases |s|
  {
    if s == [] then []
    else
      var rest := Filter(s[1..], keep);
      assert forall x :: x in s <==> x == s[0] || x in s[1..];
      if keep(s[0]) then [s[0]] + rest else rest
  }

  /** A filter keeps every copy of a kept value and no copy of another:
      it fixes how often each value occurs in the result. */
  lemma {:induction false} FilterCounts<T(!new)>(s: seq<T>, keep: T -> bool)
    ensures forall x :: multiset(Filter(s, keep))[x] == if keep(x) then multiset(s)[x] else 0
    decreases |s|
  {
    if s != [] {
      FilterCounts(s[1..], keep);
      assert s == [s[0]] + s[1..];
      var rest := Filter(s[1..], keep);
      if keep(s[0]) {
        assert Filter(s, keep) == [s[0]] + rest;
        assert multiset(Filter(s, keep)) == multiset{s[0]} + multiset(rest);
      }
    }
  }

  /** Filtering keeps the relative order of first occurrences: of two kept
      values, the one that first occurs earlier in `s` first occurs earlier
      in the filtered list. */
  lemma {:induction false} FilterKeepsFirstOrder<T(!new)>(s: seq<T>, keep: T -> bool, x: T, y: T)
    requires x in s && y in s && keep(x) && keep(y)
    ensures x in Filter(s, keep) && y in Filter(s, keep)
    ensures FirstIndex(Filter(s, keep), x) < FirstIndex(Filter(s, keep), y) <==> FirstIndex(s, x) < FirstIndex(s, y)
    decreases |s|
  {
    var r, rest := Filter(s, keep), Filter(s[1..], keep);
    if s[0] != x && s[0] != y {
      FilterKeepsFirstOrder(s[1..], keep, x, y);
      if keep(s[0]) {
        assert r == [s[0]] + rest && r[1..] == rest;
      }
    }
  }

  predicate NoDuplicates<T(==,!new)>(s: seq<T>) {
    forall i, j :: 0 <= i < j < |s| ==> s[i] != s[j]
  }

  /** The index of the first occurrence of `x` in `s`. */
  function FirstIndex<T(==,!new)>(s: seq<T>, x: T): (k: nat)
    requires x in s
    ensures k < |s| && s[k] == x && x !in s[..k]
    decreases |s|
  {
    if s[0] == x then 0
    else
      var k := 1 + FirstIndex(s[1..], x);
      assert s[..k] == [s[0]] + s[1..][..k - 1];
      k
  }

  /** The values of `s` not in `seen`, each once, in order of first
      occurrence: the loop that fills a `Set` from `s` after `seen`. */
  function DistinctFrom<T(==,!new)>(s: seq<T>, seen: set<T>): (r: seq<T>)
    ensures forall x :: x in r <==> x in s && x !in seen
    ensures NoDuplicates(r)
    ensures forall i, j :: 0 <= i < j < |r| ==> FirstIndex(s, r[i]) < FirstIndex(s, r[j])
    decreases |s|
  {
    if s == [] then []
    else
      var rest := DistinctFrom(s[1..], if s[0] in seen then seen else seen + {s[0]});
      assert forall x :: x in s <==> x == s[0] || x in s[1..];
      assert forall x :: x in rest ==> x != s[0] && FirstIndex(s, x) == 1 + FirstIndex(s[1..], x);
      if s[0] in seen then rest else [s[0]] + rest
  }

  /** `[...new Set(s)]`. */
  function Distinct<T(==,!new)>(s: seq<T>): (r: seq<T>)
    ensures forall x :: x in r <==> x in s
    ensures NoDuplicates(r)
    ensures forall i, j :: 0 <= i < j < |r| ==> FirstIndex(s, r[i]) < FirstIndex(s, r[j])
  {
    DistinctFrom(s, {})
  }
}
