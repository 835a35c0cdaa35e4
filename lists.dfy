/** List comprehensions and the "order-preserving sublist" relation. */
module Lists {

  datatype Option<T> = None | Some(value: T)

  /** `[x for x in s if p(x)]` */
  function Filter<T>(s: seq<T>, p: T -> bool): (r: seq<T>)
    ensures |r| <= |s|
  {
    if s == [] then []
    else Filter(s[..|s| - 1], p) + (if p(s[|s| - 1]) then [s[|s| - 1]] else [])
  }

  /** `x` survives the filter iff it is in `s` and satisfies `p`. */
  lemma {:induction false} FilterMember<T>(s: seq<T>, p: T -> bool, x: T)
    ensures x in Filter(s, p) <==> x in s && p(x)
  {
    if s != [] {
      var front, last := s[..|s| - 1], s[|s| - 1];
      assert s == front + [last];
      FilterMember(front, p, x);
    }
  }

  /** `[g(x) for x in s if ...]` written as one step: `f` says whether `x` is kept and as what. */
  function FilterMap<A(!new), B(!new)>(s: seq<A>, f: A -> Option<B>): (r: seq<B>)
    ensures |r| <= |s|
  {
    if s == [] then []
    else
      var front, last := s[..|s| - 1], s[|s| - 1];
      assert s == front + [last];
      FilterMap(front, f) + match f(last) case Some(y) => [y] case None => []
  }

  /** `y` is kept iff some element of `s` is mapped to it. */
  lemma {:induction false} FilterMapMember<A(!new), B(!new)>(s: seq<A>, f: A -> Option<B>, y: B)
    ensures y in FilterMap(s, f) <==> exists x :: x in s && f(x) == Some(y)
  {
    if s != [] {
      var front, last := s[..|s| - 1], s[|s| - 1];
      assert s == front + [last];
      FilterMapMember(front, f, y);
    }
  }

  /** How a left-to-right loop over `s` extends the result by one element. */
  lemma FilterMapStep<A(!new), B(!new)>(s: seq<A>, i: int, f: A -> Option<B>)
    requires 0 <= i < |s|
    ensures FilterMap(s[..i + 1], f) == FilterMap(s[..i], f) + match f(s[i]) case Some(y) => [y] case None => []
  {
    assert s[..i + 1][..i] == s[..i];
  }

  /** `a` is `b` with some elements left out, the rest in their original order. */
  /** A three-element list whose first element is dropped and the other two kept. */
  lemma FilterMapOfThree<A(!new), B(!new)>(x: A, y: A, z: A, f: A -> Option<B>)
    requires f(x).None? && f(y).Some? && f(z).Some?
    ensures FilterMap([x, y, z], f) == [f(y).value, f(z).value]
  {
    var s := [x, y, z];
    FilterMapStep(s, 0, f);
    FilterMapStep(s, 1, f);
    FilterMapStep(s, 2, f);
    assert s[..1][..0] == [];
    assert s[..3] == s;
  }

  predicate IsSubsequence<T(==)>(a: seq<T>, b: seq<T>)
    decreases |b|
  {
    if a == [] then true
    else if b == [] then false
    else (a[|a| - 1] == b[|b| - 1] && IsSubsequence(a[..|a| - 1], b[..|b| - 1]))
         || IsSubsequence(a, b[..|b| - 1])
  }

  lemma {:induction false} FilterIsSubsequence<T>(s: seq<T>, p: T -> bool)
    ensures IsSubsequence(Filter(s, p), s)
  {
    if s != [] {
      var front, last := s[..|s| - 1], s[|s| - 1];
      FilterIsSubsequence(front, p);
      var r := Filter(s, p);
      if p(last) {
        assert r != [] && r[..|r| - 1] == Filter(front, p) && r[|r| - 1] == last;
      } else {
        assert r == Filter(front, p);
      }
    }
  }

  lemma {:induction false} SubsequenceTransitive<T>(a: seq<T>, b: seq<T>, c: seq<T>)
    requires IsSubsequence(a, b) && IsSubsequence(b, c)
    ensures IsSubsequence(a, c)
    decreases |c|
  {
    if a != [] {
      assert b != [] && c != [];
      var ai, bi, ci := a[..|a| - 1], b[..|b| - 1], c[..|c| - 1];
      if b[|b| - 1] == c[|c| - 1] && IsSubsequence(bi, ci) {
        if a[|a| - 1] == b[|b| - 1] && IsSubsequence(ai, bi) {
          SubsequenceTransitive(ai, bi, ci);
        } else {
          SubsequenceTransitive(a, bi, ci);
        }
      } else {
        SubsequenceTransitive(a, b, ci);
      }
    }
  }

  /** `[f(x) for x in s]` */
  function Map<A(!new), B(!new)>(s: seq<A>, f: A -> B): (r: seq<B>)
    ensures |r| == |s| && forall i :: 0 <= i < |s| ==> r[i] == f(s[i])
  {
    seq(|s|, i requires 0 <= i < |s| => f(s[i]))
  }

  lemma MapStep<A(!new), B(!new)>(s: seq<A>, i: int, f: A -> B)
    requires 0 <= i < |s|
    ensures Map(s[..i + 1], f) == Map(s[..i], f) + [f(s[i])]
  {
  }

  /** `[y for x in s for y in f(x)]` */
  function FlatMap<A(!new), B(!new)>(s: seq<A>, f: A -> seq<B>): seq<B> {
    if s == [] then []
    else
      var front, last := s[..|s| - 1], s[|s| - 1];
      assert s == front + [last];
      FlatMap(front, f) + f(last)
  }

  lemma FlatMapStep<A(!new), B(!new)>(s: seq<A>, i: int, f: A -> seq<B>)
    requires 0 <= i < |s|
    ensures FlatMap(s[..i + 1], f) == FlatMap(s[..i], f) + f(s[i])
  {
    assert s[..i + 1][..i] == s[..i];
  }

  /** Everything `FlatMap` yields comes from some element. */
  lemma {:induction false} FlatMapMember<A(!new), B(!new)>(s: seq<A>, f: A -> seq<B>, y: B)
    ensures y in FlatMap(s, f) <==> exists x :: x in s && y in f(x)
  {
    if s != [] {
      var front, last := s[..|s| - 1], s[|s| - 1];
      assert s == front + [last];
      FlatMapMember(front, f, y);
    }
  }

}
