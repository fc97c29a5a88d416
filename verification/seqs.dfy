/**
 * The "walk a list, push what passes" pattern of the documentation page
 * (`forEach`/`for...of` loops that push into a fresh array), as one function
 * on sequences with the laws that pin it down: it keeps order, it keeps
 * exactly what the step function accepts, and it never grows the list.
 */
module Seqs {
  import opened Wrappers

  /** Each element is mapped by `f`; a `Some` result is kept, a `None` dropped. */
  function FilterMap<A, B>(s: seq<A>, f: A -> Option<B>): (r: seq<B>)
    ensures |r| <= |s|
  {
    if s == [] then []
    else (match f(s[0]) case Some(b) => [b] case None => []) + FilterMap(s[1..], f)
  }

  /** Order is kept: filtering a concatenation concatenates the filtered parts. */
  lemma {:induction false} FilterMapConcat<A, B>(a: seq<A>, b: seq<A>, f: A -> Option<B>)
    ensures FilterMap(a + b, f) == FilterMap(a, f) + FilterMap(b, f)
  {
    if a != [] {
      assert (a + b)[1..] == a[1..] + b;
      FilterMapConcat(a[1..], b, f);
      assert (a + b)[0] == a[0];
    } else {
      assert a + b == b;
    }
  }

  /** Appending one element appends its image, if it has one. */
  lemma FilterMapSnoc<A, B>(a: seq<A>, x: A, f: A -> Option<B>)
    ensures FilterMap(a + [x], f) == FilterMap(a, f) + (match f(x) case Some(b) => [b] case None => [])
  {
    FilterMapConcat(a, [x], f);
  }

  /** A value is in the result exactly when some element of the input maps to it. */
  lemma {:induction false} FilterMapMembership<A, B>(s: seq<A>, f: A -> Option<B>, y: B)
    ensures y in FilterMap(s, f) <==> exists i :: 0 <= i < |s| && f(s[i]) == Some(y)
  {
    if s != [] {
      FilterMapMembership(s[1..], f, y);
      if y in FilterMap(s[1..], f) {
        var i :| 0 <= i < |s[1..]| && f(s[1..][i]) == Some(y);
        assert f(s[i + 1]) == Some(y);
      }
      if exists i :: 0 <= i < |s| && f(s[i]) == Some(y) {
        var i :| 0 <= i < |s| && f(s[i]) == Some(y);
        if i > 0 { assert f(s[1..][i - 1]) == Some(y); }
      }
    }
  }

  /** Every result is the image of an input element. */
  lemma FilterMapOnlyImages<A, B>(s: seq<A>, f: A -> Option<B>, k: int)
    requires 0 <= k < |FilterMap(s, f)|
    ensures exists i :: 0 <= i < |s| && f(s[i]) == Some(FilterMap(s, f)[k])
  {
    FilterMapMembership(s, f, FilterMap(s, f)[k]);
  }
}
