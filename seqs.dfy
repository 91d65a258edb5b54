/** Generic operations on sequences: the `Array.prototype.filter`, `map` and
    `includes` of the front end, stated over Dafny sequences, together with
    the facts the rest of the model needs about them. */
module Seqs {

  /** Keeps, in order, the elements of `s` that satisfy `p`. */
  function Filter<T(==, !new)>(p: T -> bool, s: seq<T>): (r: seq<T>)
    ensures |r| <= |s|
    ensures forall x :: x in r <==> x in s && p(x)
    ensures IsSubsequence(r, s)
    ensures forall x :: multiset(r)[x] == if p(x) then multiset(s)[x] else 0
    decreases |s|
  {
    if s == [] then []
    else
      assert s == [s[0]] + s[1..];
      if p(s[0]) then [s[0]] + Filter(p, s[1..])
      else Filter(p, s[1..])
  }

  /** Applies `f` to every element, keeping the order. */
  function Map<T, U>(f: T -> U, s: seq<T>): (r: seq<U>)
    ensures |r| == |s|
    ensures forall i :: 0 <= i < |s| ==> r[i] == f(s[i])
  {
    seq(|s|, i requires 0 <= i < |s| => f(s[i]))
  }

  /** Number of occurrences of `x` in `s`. */
  function Count<T(==)>(s: seq<T>, x: T): (n: nat)
    ensures n <= |s|
    ensures n == 0 <==> x !in s
    decreases |s|
  {
    if s == [] then 0
    else Count(s[..|s| - 1], x) + (if s[|s| - 1] == x then 1 else 0)
  }

  /** Counting over one more element of a prefix. */
  lemma CountPrefixStep<T>(s: seq<T>, j: nat, x: T)
    requires j < |s|
    ensures Count(s[..j + 1], x) == Count(s[..j], x) + (if s[j] == x then 1 else 0)
  {
    assert s[..j + 1][..j] == s[..j];
  }

  /** `a` is obtained from `b` by deleting some elements, without reordering
      the rest. */
  predicate IsSubsequence<T(==)>(a: seq<T>, b: seq<T>)
    decreases |b|
  {
    || a == []
    || (&& b != []
        && ((a[0] == b[0] && IsSubsequence(a[1..], b[1..])) || IsSubsequence(a, b[1..])))
  }

  /** No element appears twice. */
  predicate NoDuplicates<T(==)>(s: seq<T>) {
    forall i, j :: 0 <= i < j < |s| ==> s[i] != s[j]
  }

  lemma {:induction false} SubsequenceMembers<T(!new)>(a: seq<T>, b: seq<T>)
    requires IsSubsequence(a, b)
    ensures forall x :: x in a ==> x in b
    decreases |b|
  {
    if a != [] && b != [] {
      if a[0] == b[0] && IsSubsequence(a[1..], b[1..]) {
        SubsequenceMembers(a[1..], b[1..]);
        assert forall x :: x in a ==> x == a[0] || x in a[1..];
      } else {
        SubsequenceMembers(a, b[1..]);
      }
    }
  }

  /** Filtering by a predicate that every element satisfies changes nothing. */
  lemma {:induction false} FilterAll<T(!new)>(p: T -> bool, s: seq<T>)
    requires forall x :: x in s ==> p(x)
    ensures Filter(p, s) == s
    decreases |s|
  {
    if s != [] {
      assert s[0] in s;
      assert forall x :: x in s[1..] ==> x in s;
      FilterAll(p, s[1..]);
      assert [s[0]] + s[1..] == s;
    }
  }

  /** Filtering distributes over concatenation. */
  lemma {:induction false} FilterAppend<T(!new)>(p: T -> bool, a: seq<T>, b: seq<T>)
    ensures Filter(p, a + b) == Filter(p, a) + Filter(p, b)
    decreases |a|
  {
    if a == [] {
      assert a + b == b;
    } else {
      assert (a + b)[0] == a[0];
      assert (a + b)[1..] == a[1..] + b;
      FilterAppend(p, a[1..], b);
    }
  }

  /** Filtering by `q` after mapping with `f` is mapping after filtering by
      `p`, when `q` of an image is `p` of the original. */
  lemma {:induction false} FilterMap<T(!new), U(!new)>(p: T -> bool, q: U -> bool, f: T -> U, s: seq<T>)
    requires forall x :: q(f(x)) == p(x)
    ensures Filter(q, Map(f, s)) == Map(f, Filter(p, s))
    decreases |s|
  {
    if s != [] {
      var m := Map(f, s);
      var rest := Filter(p, s[1..]);
      assert m[0] == f(s[0]);
      assert m[1..] == Map(f, s[1..]);
      FilterMap(p, q, f, s[1..]);
      if p(s[0]) {
        assert Filter(q, m) == [f(s[0])] + Map(f, rest);
        MapCons(f, s[0], rest);
      } else {
        assert Filter(q, m) == Map(f, rest);
      }
    }
  }

  /** Mapping over a sequence with a first element. */
  lemma MapCons<T, U>(f: T -> U, x: T, s: seq<T>)
    ensures Map(f, [x] + s) == [f(x)] + Map(f, s)
  {
  }

  /** Mapping over a pair. */
  lemma MapPair<T, U>(f: T -> U, a: T, b: T)
    ensures Map(f, [a, b]) == [f(a), f(b)]
  {
    var r := Map(f, [a, b]);
    assert r[0] == f(a) && r[1] == f(b);
  }

  /** A subsequence of a sequence without duplicates (after projecting with
      `key`) has none either. */
  lemma {:induction false} SubsequenceKeepsDistinct<T(!new), K>(key: T -> K, a: seq<T>, b: seq<T>)
    requires IsSubsequence(a, b)
    requires NoDuplicates(Map(key, b))
    ensures NoDuplicates(Map(key, a))
    decreases |b|
  {
    if a != [] && b != [] {
      var mb := Map(key, b);
      assert Map(key, b[1..]) == mb[1..];
      var ma := Map(key, a);
      if a[0] == b[0] && IsSubsequence(a[1..], b[1..]) {
        SubsequenceKeepsDistinct(key, a[1..], b[1..]);
        SubsequenceMembers(a[1..], b[1..]);
        assert Map(key, a[1..]) == ma[1..];
        forall j | 0 < j < |a|
          ensures ma[0] != ma[j]
        {
          assert a[j] in a[1..];
          var k :| 0 <= k < |b[1..]| && b[1..][k] == a[j];
          assert mb[k + 1] == ma[j];
        }
      } else {
        SubsequenceKeepsDistinct(key, a, b[1..]);
      }
    }
  }
}
