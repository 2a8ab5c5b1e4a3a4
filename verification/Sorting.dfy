/** sort.Slice as its callers may rely on it: an ordered rearrangement, with equal elements
    in any order. */
module Sorting {

  ghost predicate Ordered<T>(s: seq<T>, key: T -> int) {
    forall i, j | 0 <= i < j < |s| :: key(s[i]) <= key(s[j])
  }

  ghost predicate Distinct<T>(s: seq<T>) {
    forall i, j | 0 <= i < j < |s| :: s[i] != s[j]
  }

  /** `p` says where each element of `ys` stood in `xs`. */
  ghost predicate Rearranges<T>(ys: seq<T>, xs: seq<T>, p: seq<nat>) {
    && |ys| == |xs| == |p|
    && Distinct(p)
    && (forall i | 0 <= i < |p| :: p[i] < |xs| && ys[i] == xs[p[i]])
    && (forall j | 0 <= j < |xs| :: j in p)
  }

  function Inserted<T>(s: seq<T>, x: T, i: nat): (r: seq<T>)
    requires i <= |s|
  {
    s[..i] + [x] + s[i..]
  }

  lemma InsertRearranges<T>(ys: seq<T>, xs: seq<T>, p: seq<nat>, x: T, i: nat)
    requires Rearranges(ys, xs, p) && i <= |ys|
    ensures Rearranges(Inserted(ys, x, i), xs + [x], Inserted(p, |xs|, i))
  {
    var q := Inserted(p, |xs|, i);
    forall j | 0 <= j < |xs| + 1
      ensures j in q
    {
      if j < |xs| {
        assert j in p;
        var k :| 0 <= k < |p| && p[k] == j;
        assert q[if k < i then k else k + 1] == j;
      } else {
        assert q[i] == j;
      }
    }
    forall k | 0 <= k < |q|
      ensures q[k] == if k < i then p[k] else if k == i then |xs| else p[k - 1]
    {
    }
  }

  lemma OrderedInsert<T>(ys: seq<T>, x: T, i: nat, key: T -> int)
    requires Ordered(ys, key) && i <= |ys|
    requires i > 0 ==> key(ys[i - 1]) <= key(x)
    requires forall k | i <= k < |ys| :: key(ys[k]) > key(x)
    ensures Ordered(Inserted(ys, x, i), key)
  {
    var zs := Inserted(ys, x, i);
    forall k | 0 <= k < |zs|
      ensures zs[k] == if k < i then ys[k] else if k == i then x else ys[k - 1]
    {
    }
  }

  /** Insertion into place, one element of `xs` after the other. */
  method SortBy<T>(xs: seq<T>, key: T -> int) returns (ys: seq<T>, ghost p: seq<nat>)
    ensures Ordered(ys, key)
    ensures Rearranges(ys, xs, p)
  {
    ys, p := [], [];
    for n := 0 to |xs|
      invariant Ordered(ys, key)
      invariant Rearranges(ys, xs[..n], p)
    {
      var i := |ys|;
      while i > 0 && key(ys[i - 1]) > key(xs[n])
        invariant 0 <= i <= |ys|
        invariant forall k | i <= k < |ys| :: key(ys[k]) > key(xs[n])
      {
        i := i - 1;
      }
      InsertRearranges(ys, xs[..n], p, xs[n], i);
      OrderedInsert(ys, xs[n], i, key);
      ys, p := Inserted(ys, xs[n], i), Inserted(p, n as nat, i);
      assert xs[..n] + [xs[n]] == xs[..n + 1];
    }
    assert xs[..|xs|] == xs;
  }
}
