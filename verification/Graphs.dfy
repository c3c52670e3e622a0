/** Reachability by paths in a graph given by its successor function. */
module Graphs {

  type Node = string
  type Succ = Node -> set<Node>

  ghost predicate IsPath(succ: Succ, p: seq<Node>) {
    p != [] && forall i :: 0 <= i < |p| - 1 ==> p[i + 1] in succ(p[i])
  }

  ghost predicate IsPathTo(succ: Succ, from: set<Node>, p: seq<Node>, n: Node) {
    IsPath(succ, p) && p[0] in from && p[|p| - 1] == n
  }

  ghost predicate Reaches(succ: Succ, from: set<Node>, n: Node) {
    exists p :: IsPathTo(succ, from, p, n)
  }

  ghost predicate Closed(succ: Succ, s: set<Node>) {
    forall n :: n in s ==> succ(n) <= s
  }

  lemma StartIsReached(succ: Succ, from: set<Node>, n: Node)
    requires n in from
    ensures Reaches(succ, from, n)
  {
    assert IsPathTo(succ, from, [n], n);
  }

  lemma SuccessorIsReached(succ: Succ, from: set<Node>, n: Node, m: Node)
    requires Reaches(succ, from, n) && m in succ(n)
    ensures Reaches(succ, from, m)
  {
    var p :| IsPathTo(succ, from, p, n);
    assert IsPathTo(succ, from, p + [m], m);
  }

  /** A path that starts inside a closed set stays there. */
  lemma {:induction false} PathStaysInside(succ: Succ, s: set<Node>, p: seq<Node>)
    requires IsPath(succ, p) && p[0] in s && Closed(succ, s)
    ensures p[|p| - 1] in s
    decreases |p|
  {
    if |p| > 1 {
      assert p[1] in succ(p[0]);
      forall i | 0 <= i < |p[1..]| - 1 ensures p[1..][i + 1] in succ(p[1..][i]) {
        assert p[i + 1 + 1] in succ(p[i + 1]);
      }
      PathStaysInside(succ, s, p[1..]);
    }
  }

  /** A closed set that contains the start and only reached nodes is exactly the set of reached nodes. */
  lemma ClosedReachedIsReach(succ: Succ, from: set<Node>, s: set<Node>)
    requires from <= s && Closed(succ, s) && forall n :: n in s ==> Reaches(succ, from, n)
    ensures forall n :: n in s <==> Reaches(succ, from, n)
  {
    forall n | Reaches(succ, from, n) ensures n in s {
      var p :| IsPathTo(succ, from, p, n);
      PathStaysInside(succ, s, p);
    }
  }

  /** More edges reach more. */
  lemma ReachIsMonotone(succ: Succ, more: Succ, from: set<Node>, n: Node)
    requires (forall m :: succ(m) <= more(m)) && Reaches(succ, from, n)
    ensures Reaches(more, from, n)
  {
    var p :| IsPathTo(succ, from, p, n);
    forall i | 0 <= i < |p| - 1 ensures p[i + 1] in more(p[i]) {
      assert succ(p[i]) <= more(p[i]);
    }
    assert IsPathTo(more, from, p, n);
  }

  /** Some order of a set: iterating over a set promises no more. */
  method ListOf(s: set<Node>) returns (order: seq<Node>)
    ensures forall n :: n in order <==> n in s
  {
    order := [];
    var rest := s;
    while rest != {}
      invariant forall n :: n in s <==> n in order || n in rest
      decreases rest
    {
      var n :| n in rest;
      order, rest := order + [n], rest - {n};
    }
  }
}
