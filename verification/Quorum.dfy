/** Quorums (pkg/quorum/quorum.go, as used by daemon/internal/cluster/cluster.go and
    quorum_guard.go). */
module Quorum {

  /** Go's division truncates, which for the positive numbers it is used on is the floor. */
  function Size(n: int): (q: int) {
    if n <= 0 then 1 else n / 2 + 1
  }

  predicate HasQuorum(total: int, reachable: int) {
    reachable >= Size(total)
  }

  lemma UnionSize<T>(a: set<T>, b: set<T>)
    ensures |a| + |b| == |a + b| + |a * b|
  {
    assert a + b == a + (b - a);
    assert b == (b - a) + (a * b);
  }

  lemma SubsetSize<T>(a: set<T>, b: set<T>)
    requires a <= b
    ensures |a| <= |b|
  {
    UnionSize(a, b - a);
    assert a + (b - a) == b && a * (b - a) == {};
  }

  /** Two sets of voters that are both quorums of one cluster share a voter. */
  lemma QuorumsIntersect<T>(voters: set<T>, a: set<T>, b: set<T>)
    requires a <= voters && b <= voters
    requires HasQuorum(|voters|, |a|) && HasQuorum(|voters|, |b|)
    ensures a * b != {}
  {
    UnionSize(a, b);
    SubsetSize(a + b, voters);
  }

  /** They still do while the membership changes by one voter, so that the old and the new
      cluster cannot decide apart. */
  lemma QuorumsIntersectAcrossChange<T>(voters: set<T>, one: T, a: set<T>, b: set<T>)
    requires one !in voters
    requires a <= voters && b <= voters + {one}
    requires HasQuorum(|voters|, |a|) && HasQuorum(|voters + {one}|, |b|)
    ensures a * b != {}
  {
    UnionSize(a, b);
    SubsetSize(a + b, voters + {one});
    assert |voters + {one}| == |voters| + 1;
  }

  lemma {:induction false} SomeOf<T>(s: set<T>, n: nat) returns (a: set<T>)
    requires n <= |s|
    ensures a <= s && |a| == n
    decreases n
  {
    a := {};
    if n > 0 {
      var x :| x in s;
      a := SomeOf(s - {x}, n - 1);
      a := a + {x};
    }
  }

  /** The size is the least that does it: with one voter fewer, two sets fit side by side in any
      cluster. */
  lemma SizeIsLeast<T>(voters: set<T>) returns (a: set<T>, b: set<T>)
    ensures a <= voters && b <= voters && a !! b
    ensures |a| == |b| == Size(|voters|) - 1
  {
    var k := Size(|voters|) - 1;
    a := SomeOf(voters, k);
    UnionSize(a, voters - a);
    assert a + (voters - a) == voters && a * (voters - a) == {};
    b := SomeOf(voters - a, k);
  }

  /** A cluster that loses some of its voters still has a quorum exactly if it keeps more than it
      loses. So one without voters has none. */
  lemma SurvivesExactly<T>(voters: set<T>, lost: set<T>)
    requires lost <= voters
    ensures HasQuorum(|voters|, |voters - lost|) <==> |lost| < |voters - lost|
  {
    UnionSize(lost, voters - lost);
    assert lost + (voters - lost) == voters && lost * (voters - lost) == {};
  }

  /** Changing two voters at once is too much: a quorum before and a quorum after can be
      disjoint. */
  lemma TwoAtOnceIsTooMuch()
    ensures exists voters: set<int>, more: set<int>, a: set<int>, b: set<int> ::
              && voters !! more && |more| == 2
              && a <= voters && b <= voters + more
              && HasQuorum(|voters|, |a|) && HasQuorum(|voters + more|, |b|)
              && a !! b
  {
    var voters, more := {1}, {2, 3};
    assert voters + more == {1, 2, 3} && |{1, 2, 3}| == 3;
    assert HasQuorum(|voters|, |{1}|) && HasQuorum(|voters + more|, |{2, 3}|);
    assert {1} <= voters && {2, 3} <= voters + more && {1} !! {2, 3};
  }
}
