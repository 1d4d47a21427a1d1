/**
 Stable filtering of sequences, the model of JavaScript's `Array.prototype.filter`,
 together with the subsequence relation that describes its result.
 */
module Seqs {

  /** `s` can be obtained from `xs` by deleting elements, keeping the order of the rest. */
  ghost predicate IsSubsequence<T>(s: seq<T>, xs: seq<T>)
    decreases |xs|
  {
    if |s| == 0 then true
    else if |xs| == 0 then false
    else (s[0] == xs[0] && IsSubsequence(s[1..], xs[1..])) || IsSubsequence(s, xs[1..])
  }

  /**
   The elements of `xs` satisfying `p`, in their original order (`xs.filter(p)`).
   Every element is kept with its full multiplicity or dropped entirely, and
   nothing is altered: the result is a subsequence of `xs`.
   */
  function Filter<T(!new)>(xs: seq<T>, p: T -> bool): (r: seq<T>)
    ensures IsSubsequence(r, xs)
    ensures |r| <= |xs|
    ensures forall x :: multiset(r)[x] == if p(x) then multiset(xs)[x] else 0
    ensures forall x :: x in r <==> x in xs && p(x)
    decreases |xs|
  {
    if |xs| == 0 then []
    else
      assert xs == [xs[0]] + xs[1..];
      var rest := Filter(xs[1..], p);
      if p(xs[0]) then
        assert ([xs[0]] + rest)[1..] == rest;
        [xs[0]] + rest
      else
        rest
  }

  lemma {:induction false} SubsequenceReflexive<T>(xs: seq<T>)
    ensures IsSubsequence(xs, xs)
    decreases |xs|
  {
    if |xs| > 0 {
      SubsequenceReflexive(xs[1..]);
    }
  }

  lemma {:induction false} SubsequenceTransitive<T>(a: seq<T>, b: seq<T>, c: seq<T>)
    requires IsSubsequence(a, b) && IsSubsequence(b, c)
    ensures IsSubsequence(a, c)
    decreases |c|
  {
    if |a| == 0 {
    } else if IsSubsequence(b, c[1..]) {
      SubsequenceTransitive(a, b, c[1..]);
    } else {
      assert b[0] == c[0] && IsSubsequence(b[1..], c[1..]);
      if a[0] == b[0] && IsSubsequence(a[1..], b[1..]) {
        SubsequenceTransitive(a[1..], b[1..], c[1..]);
      } else {
        SubsequenceTransitive(a, b[1..], c[1..]);
      }
    }
  }

  /** A subsequence never holds more copies of any element than the sequence it comes from. */
  lemma {:induction false} SubsequenceCounts<T>(s: seq<T>, xs: seq<T>)
    requires IsSubsequence(s, xs)
    ensures multiset(s) <= multiset(xs)
    decreases |xs|
  {
    if |s| == 0 {
    } else {
      assert xs == [xs[0]] + xs[1..];
      if s[0] == xs[0] && IsSubsequence(s[1..], xs[1..]) {
        SubsequenceCounts(s[1..], xs[1..]);
        assert s == [s[0]] + s[1..];
      } else {
        SubsequenceCounts(s, xs[1..]);
      }
    }
  }

  /**
   Reference characterisation of `Filter`: a subsequence of `xs` that keeps every
   element satisfying `p` with its full multiplicity, and no other element, is
   exactly `Filter(xs, p)`.
   */
  lemma {:induction false} FilterUnique<T(!new)>(xs: seq<T>, p: T -> bool, s: seq<T>)
    requires IsSubsequence(s, xs)
    requires forall x :: multiset(s)[x] == if p(x) then multiset(xs)[x] else 0
    ensures s == Filter(xs, p)
    decreases |xs|
  {
    if |xs| == 0 {
    } else {
      var x0, rest := xs[0], xs[1..];
      assert xs == [x0] + rest;
      if p(x0) {
        assert multiset(s)[x0] > 0;
        if !(s[0] == x0 && IsSubsequence(s[1..], rest)) {
          SubsequenceCounts(s, rest);
          assert false;
        }
        assert s == [x0] + s[1..];
        FilterUnique(rest, p, s[1..]);
      } else {
        if |s| > 0 {
          assert s[0] in s;
          assert IsSubsequence(s, rest);
        }
        FilterUnique(rest, p, s);
      }
    }
  }
}
