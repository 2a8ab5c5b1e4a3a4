/** Leaving elements out of a sequence: which positions stay. */
module Selection {

  /** `at` lists the positions that are kept, in their order. */
  ghost predicate Positions(at: seq<nat>, kept: seq<bool>) {
    && (forall i | 0 <= i < |at| :: at[i] < |kept|)
    && (forall i, j | 0 <= i < j < |at| :: at[i] < at[j])
    && (forall k | 0 <= k < |kept| :: k in at <==> kept[k])
  }

  /** `ys` is `xs` without what is not kept. */
  ghost predicate Selects<T>(ys: seq<T>, xs: seq<T>, at: seq<nat>, kept: seq<bool>) {
    && |kept| == |xs| && |ys| == |at| && Positions(at, kept)
    && forall i | 0 <= i < |at| :: ys[i] == xs[at[i]]
  }

  function Cons(b: bool, at: seq<nat>): (r: seq<nat>) {
    (if b then [0] else []) + seq(|at|, i requires 0 <= i < |at| => at[i] + 1)
  }

  lemma ConsAt(b: bool, at: seq<nat>, i: nat)
    requires i < |Cons(b, at)|
    ensures Cons(b, at)[i] == if b && i == 0 then 0 else at[if b then i - 1 else i] + 1
  {
  }

  lemma ConsPositions(b: bool, at: seq<nat>, kept: seq<bool>)
    requires Positions(at, kept)
    ensures Positions(Cons(b, at), [b] + kept)
  {
    var at', d := Cons(b, at), if b then 1 else 0;
    forall i | 0 <= i < |at'|
      ensures at'[i] == if b && i == 0 then 0 else at[i - d] + 1
    {
      ConsAt(b, at, i);
    }
    hide Cons;
    forall k | 0 <= k < |kept| + 1
      ensures k in at' <==> ([b] + kept)[k]
    {
      if k > 0 && k - 1 in at {
        var i :| 0 <= i < |at| && at[i] == k - 1;
        assert at'[i + d] == k;
      }
    }
  }

  lemma ConsSelects<T>(b: bool, x: T, ys: seq<T>, xs: seq<T>, at: seq<nat>, kept: seq<bool>)
    requires Selects(ys, xs, at, kept)
    ensures Selects((if b then [x] else []) + ys, [x] + xs, Cons(b, at), [b] + kept)
  {
    ConsPositions(b, at, kept);
    hide Positions;
    forall i | 0 <= i < |Cons(b, at)|
      ensures ((if b then [x] else []) + ys)[i] == ([x] + xs)[Cons(b, at)[i]]
    {
      ConsAt(b, at, i);
    }
  }

  lemma SnocSelects<T>(b: bool, x: T, ys: seq<T>, xs: seq<T>, at: seq<nat>, kept: seq<bool>)
    requires Selects(ys, xs, at, kept)
    ensures Selects(ys + (if b then [x] else []), xs + [x], at + (if b then [|xs|] else []), kept + [b])
  {
    var at', kept' := at + (if b then [|xs|] else []), kept + [b];
    forall k | 0 <= k < |kept'|
      ensures k in at' <==> kept'[k]
    {
      if k == |kept| && b {
        assert at'[|at|] == k;
      }
    }
  }
}
