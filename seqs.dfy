/** `Array.prototype.filter`, insertion-ordered `Set` construction and the
    order-preserving subsequence relation. */
module Seqs {

  /** `xs.filter(p)`. */
  function Select<T>(xs: seq<T>, p: T -> bool): (r: seq<T>)
    ensures |r| <= |xs|
    ensures forall i :: 0 <= i < |r| ==> r[i] in xs && p(r[i])
    ensures forall i :: 0 <= i < |xs| && p(xs[i]) ==> xs[i] in r
  {
    if xs == [] then [] else (if p(xs[0]) then [xs[0]] else []) + Select(xs[1..], p)
  }

  /** The selected elements are exactly the elements that satisfy `p`. */
  lemma SelectMembers<T>(xs: seq<T>, p: T -> bool)
    ensures forall x :: x in Select(xs, p) <==> x in xs && p(x)
  {
    var r := Select(xs, p);
    forall x ensures x in r <==> x in xs && p(x) {
      if x in r {
        var i :| 0 <= i < |r| && r[i] == x;
      }
      if x in xs && p(x) {
        var i :| 0 <= i < |xs| && xs[i] == x;
      }
    }
  }

  /** `a` is obtained from `b` by deleting elements, without reordering. */
  predicate IsSubsequence<T(==)>(a: seq<T>, b: seq<T>)
    decreases |b|
  {
    a == [] || (b != [] && ((a[0] == b[0] && IsSubsequence(a[1..], b[1..])) || IsSubsequence(a, b[1..])))
  }

  lemma SubsequenceSkip<T>(a: seq<T>, b: seq<T>, y: T)
    requires IsSubsequence(a, b)
    ensures IsSubsequence(a, [y] + b)
  {
    assert ([y] + b)[1..] == b;
  }

  /** A filter result keeps order: it is a subsequence of its input. */
  lemma {:induction false} SelectIsSubsequence<T>(xs: seq<T>, p: T -> bool)
    ensures IsSubsequence(Select(xs, p), xs)
  {
    if xs != [] {
      SelectIsSubsequence(xs[1..], p);
      var rest := Select(xs[1..], p);
      if p(xs[0]) {
        assert Select(xs, p) == [xs[0]] + rest;
        assert ([xs[0]] + rest)[1..] == rest;
      } else {
        assert Select(xs, p) == rest;
        SubsequenceSkip(rest, xs[1..], xs[0]);
        assert [xs[0]] + xs[1..] == xs;
      }
    }
  }

  lemma {:induction false} SelectAppend<T>(a: seq<T>, b: seq<T>, p: T -> bool)
    ensures Select(a + b, p) == Select(a, p) + Select(b, p)
  {
    if a == [] {
      assert a + b == b;
    } else {
      assert (a + b)[1..] == a[1..] + b;
      SelectAppend(a[1..], b, p);
    }
  }

  /** A stronger filter keeps a subsequence of what a weaker one keeps. */
  lemma {:induction false} SelectMonotone<T>(xs: seq<T>, p: T -> bool, q: T -> bool)
    requires forall x :: x in xs && p(x) ==> q(x)
    ensures IsSubsequence(Select(xs, p), Select(xs, q))
  {
    if xs != [] {
      SelectMonotone(xs[1..], p, q);
      var sp, sq := Select(xs[1..], p), Select(xs[1..], q);
      if p(xs[0]) {
        assert Select(xs, p) == [xs[0]] + sp && Select(xs, q) == [xs[0]] + sq;
        assert ([xs[0]] + sp)[1..] == sp && ([xs[0]] + sq)[1..] == sq;
      } else if q(xs[0]) {
        assert Select(xs, p) == sp && Select(xs, q) == [xs[0]] + sq;
        SubsequenceSkip(sp, sq, xs[0]);
      } else {
        assert Select(xs, p) == sp && Select(xs, q) == sq;
      }
    }
  }

  /** Filtering twice is filtering once by the conjunction. */
  lemma {:induction false} SelectSelect<T>(xs: seq<T>, p: T -> bool, q: T -> bool, pq: T -> bool)
    requires forall x :: pq(x) == (p(x) && q(x))
    ensures Select(Select(xs, p), q) == Select(xs, pq)
  {
    if xs != [] {
      SelectSelect(xs[1..], p, q, pq);
      var sp := Select(xs[1..], p);
      if p(xs[0]) {
        assert Select(xs, p) == [xs[0]] + sp;
        assert ([xs[0]] + sp)[1..] == sp;
        assert Select([xs[0]] + sp, q) == (if q(xs[0]) then [xs[0]] else []) + Select(sp, q);
      } else {
        assert Select(xs, p) == sp;
      }
      assert Select(xs, pq) == (if pq(xs[0]) then [xs[0]] else []) + Select(xs[1..], pq);
    }
  }

  /** The set of `xs` in order of first appearance: `Array.from(new Set(xs))`. */
  function Distinct<T(==)>(xs: seq<T>): (r: seq<T>)
    ensures forall i :: 0 <= i < |r| ==> r[i] in xs
    ensures forall i :: 0 <= i < |xs| ==> xs[i] in r
    ensures forall i, j :: 0 <= i < j < |r| ==> r[i] != r[j]
  {
    if xs == [] then []
    else
      var init := xs[..|xs| - 1];
      var d := Distinct(init);
      if xs[|xs| - 1] in init then d else d + [xs[|xs| - 1]]
  }

  /** The last element joins the distinct elements unless it already occurs. */
  lemma DistinctLast<T>(xs: seq<T>)
    requires xs != []
    ensures Distinct(xs) == if xs[|xs| - 1] in xs[..|xs| - 1] then Distinct(xs[..|xs| - 1])
      else Distinct(xs[..|xs| - 1]) + [xs[|xs| - 1]]
  {
  }

  /** The distinct elements have the members of the sequence. */
  lemma DistinctHas<T>(xs: seq<T>, x: T)
    ensures x in Distinct(xs) <==> x in xs
  {
    if x in xs {
      var i :| 0 <= i < |xs| && xs[i] == x;
    }
  }

  /** `new Set(xs)` as a mathematical set: no larger than `xs`, with the same members. */
  function ToSet<T(==, !new)>(xs: seq<T>): (r: set<T>)
    ensures |r| <= |xs|
    ensures forall x :: x in r <==> x in xs
  {
    if xs == [] then {} else ToSet(xs[..|xs| - 1]) + {xs[|xs| - 1]}
  }

  /** `xs.map(f)`: one image per element, in order. */
  function Map<A, B>(f: A -> B, xs: seq<A>): (r: seq<B>)
    ensures |r| == |xs|
    ensures forall i :: 0 <= i < |xs| ==> r[i] == f(xs[i])
  {
    if xs == [] then [] else [f(xs[0])] + Map(f, xs[1..])
  }

  /** Mapping one more element of a prefix appends its image. */
  lemma MapSnoc<A, B>(f: A -> B, xs: seq<A>, n: nat)
    requires n < |xs|
    ensures Map(f, xs[..n + 1]) == Map(f, xs[..n]) + [f(xs[n])]
  {
    var a, b := Map(f, xs[..n + 1]), Map(f, xs[..n]) + [f(xs[n])];
    forall i | 0 <= i < |a| ensures a[i] == b[i] {
      assert xs[..n + 1][i] == if i < n then xs[..n][i] else xs[n];
    }
  }

  /** The first non-empty image under `f` of an element of `xs`, or `fallback`. */
  function FirstNonEmpty<T>(xs: seq<T>, f: T -> string, fallback: string): (r: string)
    ensures r == fallback || r != ""
  {
    if xs == [] then fallback
    else if f(xs[0]) != "" then f(xs[0])
    else FirstNonEmpty(xs[1..], f, fallback)
  }

  /** With no non-empty image, the fallback. */
  lemma {:induction false} FirstNonEmptyNone<T>(xs: seq<T>, f: T -> string, fallback: string)
    requires forall j :: 0 <= j < |xs| ==> f(xs[j]) == ""
    ensures FirstNonEmpty(xs, f, fallback) == fallback
  {
    if xs != [] {
      assert forall j :: 0 <= j < |xs| - 1 ==> xs[1..][j] == xs[j + 1];
      FirstNonEmptyNone(xs[1..], f, fallback);
    }
  }

  /** The earliest element with a non-empty image gives the result. */
  lemma {:induction false} FirstNonEmptyFirst<T>(xs: seq<T>, f: T -> string, fallback: string, i: nat)
    requires i < |xs| && f(xs[i]) != ""
    requires forall j :: 0 <= j < i ==> f(xs[j]) == ""
    ensures FirstNonEmpty(xs, f, fallback) == f(xs[i])
  {
    if i > 0 {
      assert f(xs[0]) == "";
      assert forall j :: 0 <= j < i - 1 ==> xs[1..][j] == xs[j + 1];
      assert xs[1..][i - 1] == xs[i];
      FirstNonEmptyFirst(xs[1..], f, fallback, i - 1);
    }
  }

  /** Concatenation is associative. */
  lemma AppendAssoc<T>(a: seq<T>, b: seq<T>, c: seq<T>)
    ensures a + b + c == a + (b + c)
  {
  }
}
