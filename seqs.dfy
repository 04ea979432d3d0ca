/** The JavaScript array operations the core relies on (`flat`, `filter`, `find`, `slice`),
    written over sequences, with the facts about them that the rest of the model uses. */
module Seqs {
  import opened Wrappers

  function Min(a: int, b: int): int { if a < b then a else b }

  /** `Array.prototype.flat()` on an array of arrays. */
  function Flatten<T>(xss: seq<seq<T>>): seq<T>
  {
    if xss == [] then [] else xss[0] + Flatten(xss[1..])
  }

  lemma {:induction false} FlattenAppend<T>(a: seq<seq<T>>, b: seq<seq<T>>)
    ensures Flatten(a + b) == Flatten(a) + Flatten(b)
  {
    if a == [] {
      assert a + b == b;
    } else {
      assert (a + b)[1..] == a[1..] + b;
      FlattenAppend(a[1..], b);
    }
  }

  lemma FlattenSingleton<T>(x: seq<T>)
    ensures Flatten([x]) == x
  {
    assert [x][1..] == [];
  }

  /** `Array.prototype.slice(start, end)` for non-negative arguments: both ends are clamped
      to the length, and a window that starts at or after its end is empty. */
  function Slice<T>(xs: seq<T>, start: nat, end: nat): seq<T>
  {
    var a := Min(start, |xs|);
    var b := Min(end, |xs|);
    if a < b then xs[a..b] else []
  }

  /** `Array.prototype.filter(p)`: the elements satisfying `p`, in their original order. */
  function Filter<T>(xs: seq<T>, p: T -> bool): (r: seq<T>)
    ensures forall i :: 0 <= i < |r| ==> r[i] in xs && p(r[i])
    ensures forall i :: 0 <= i < |xs| && p(xs[i]) ==> xs[i] in r
    ensures |r| <= |xs|
  {
    if xs == [] then []
    else if p(xs[0]) then [xs[0]] + Filter(xs[1..], p)
    else Filter(xs[1..], p)
  }

  /** `R` holds from every element of `xs` to every later one. */
  predicate Pairwise<T>(xs: seq<T>, R: (T, T) -> bool)
  {
    forall i, j :: 0 <= i < j < |xs| ==> R(xs[i], xs[j])
  }

  lemma PairwiseTail<T>(xs: seq<T>, R: (T, T) -> bool)
    requires xs != [] && Pairwise(xs, R)
    ensures Pairwise(xs[1..], R)
  {
    var tail := xs[1..];
    forall i, j | 0 <= i < j < |tail| ensures R(tail[i], tail[j]) {
      assert tail[i] == xs[i + 1] && tail[j] == xs[j + 1];
    }
  }

  lemma PairwiseCons<T>(x: T, rest: seq<T>, R: (T, T) -> bool)
    requires Pairwise(rest, R)
    requires forall y :: y in rest ==> R(x, y)
    ensures Pairwise([x] + rest, R)
  {
    var r := [x] + rest;
    forall i, j | 0 <= i < j < |r| ensures R(r[i], r[j]) {
      assert r[j] == rest[j - 1];
      if 0 < i {
        assert r[i] == rest[i - 1];
      }
    }
  }

  lemma PairwiseSnoc<T>(init: seq<T>, x: T, R: (T, T) -> bool)
    requires Pairwise(init, R)
    requires forall y :: y in init ==> R(y, x)
    ensures Pairwise(init + [x], R)
  {
    var r := init + [x];
    forall i, j | 0 <= i < j < |r| ensures R(r[i], r[j]) {
      assert r[i] == init[i];
      if j < |init| {
        assert r[j] == init[j];
      }
    }
  }

  /** A relation that holds from every element to every later one still holds after `filter`. */
  lemma {:induction false} FilterKeepsPairwise<T>(xs: seq<T>, p: T -> bool, R: (T, T) -> bool)
    requires Pairwise(xs, R)
    ensures Pairwise(Filter(xs, p), R)
  {
    if xs != [] {
      var tail := xs[1..];
      PairwiseTail(xs, R);
      FilterKeepsPairwise(tail, p, R);
      var rest := Filter(tail, p);
      if p(xs[0]) {
        forall y | y in rest ensures R(xs[0], y) {
          var k :| 0 <= k < |tail| && tail[k] == y;
          assert R(xs[0], xs[k + 1]);
        }
        PairwiseCons(xs[0], rest, R);
        assert Filter(xs, p) == [xs[0]] + rest;
      } else {
        assert Filter(xs, p) == rest;
      }
    }
  }

  /** The index `Array.prototype.findIndex(p)` returns: the first match, or -1. */
  function IndexWhere<T>(xs: seq<T>, p: T -> bool): (i: int)
    ensures -1 <= i < |xs|
    ensures i == -1 <==> forall j :: 0 <= j < |xs| ==> !p(xs[j])
    ensures 0 <= i ==> p(xs[i]) && forall j :: 0 <= j < i ==> !p(xs[j])
  {
    if xs == [] then -1
    else if p(xs[0]) then 0
    else
      var j := IndexWhere(xs[1..], p);
      if j < 0 then -1 else j + 1
  }

  /** Appending an element leaves an earlier match's index alone and otherwise makes the new
      element the first match when it satisfies `p`. */
  lemma IndexWhereSnoc<T>(xs: seq<T>, x: T, p: T -> bool)
    ensures IndexWhere(xs + [x], p) ==
      if 0 <= IndexWhere(xs, p) then IndexWhere(xs, p) else if p(x) then |xs| else -1
  {
    var i, k := IndexWhere(xs, p), IndexWhere(xs + [x], p);
    if 0 <= i {
      assert (xs + [x])[i] == xs[i];
    } else if 0 <= k < |xs| {
      assert (xs + [x])[k] == xs[k];
    } else if p(x) {
      assert (xs + [x])[|xs|] == x;
    }
  }

  /** `Array.prototype.find(p)`: the first element satisfying `p`, if any. */
  function Find<T>(xs: seq<T>, p: T -> bool): (r: Option<T>)
    ensures r.None? <==> forall j :: 0 <= j < |xs| ==> !p(xs[j])
    ensures r.Some? ==> r.value in xs && p(r.value)
    ensures r.Some? ==> exists i :: 0 <= i < |xs| && xs[i] == r.value && forall j :: 0 <= j < i ==> !p(xs[j])
  {
    var i := IndexWhere(xs, p);
    if i < 0 then None else Some(xs[i])
  }

  /** `a` is obtained from `b` by deleting elements, without reordering the rest. */
  predicate IsSubseq<T(==)>(a: seq<T>, b: seq<T>)
  {
    if a == [] then true
    else if b == [] then false
    else if a[0] == b[0] then IsSubseq(a[1..], b[1..])
    else IsSubseq(a, b[1..])
  }

  lemma {:induction false} SubseqDropHead<T>(a: seq<T>, b: seq<T>)
    requires a != [] && IsSubseq(a, b)
    ensures IsSubseq(a[1..], b)
    decreases |a| + |b|, 0
  {
    assert [b[0]] + b[1..] == b;
    if a[0] == b[0] {
      SubseqCons(a[1..], b[1..], b[0]);
    } else {
      SubseqDropHead(a, b[1..]);
      SubseqCons(a[1..], b[1..], b[0]);
    }
  }

  lemma {:induction false} SubseqCons<T>(a: seq<T>, b: seq<T>, x: T)
    requires IsSubseq(a, b)
    ensures IsSubseq(a, [x] + b)
    decreases |a| + |b|, 1
  {
    assert ([x] + b)[1..] == b;
    if a != [] && a[0] == x {
      SubseqDropHead(a, b);
    }
  }

  /** What `filter` keeps is an order-preserving subsequence of its input. */
  lemma {:induction false} FilterIsSubseq<T>(xs: seq<T>, p: T -> bool)
    ensures IsSubseq(Filter(xs, p), xs)
  {
    if xs != [] {
      FilterIsSubseq(xs[1..], p);
      if !p(xs[0]) {
        SubseqCons(Filter(xs[1..], p), xs[1..], xs[0]);
        assert [xs[0]] + xs[1..] == xs;
      } else {
        assert ([xs[0]] + Filter(xs[1..], p))[1..] == Filter(xs[1..], p);
      }
    }
  }
}
