/**
 Finite reference graphs: walks, cycles, and the mark of everything a set of
 roots reaches. A graph maps each present node to the nodes it refers to; a
 reference may name a node that is not present. Self-edges are ordinary edges
 for reachability and are ignored for cycles.
 */
module Graphs {

  type Graph<!N> = map<N, set<N>>

  predicate Edge<N>(g: Graph<N>, a: N, b: N) {
    a in g && b in g[a]
  }

  /** An edge between two different nodes. */
  predicate Refers<N>(g: Graph<N>, a: N, b: N) {
    Edge(g, a, b) && a != b
  }

  ghost predicate Walk<N>(g: Graph<N>, p: seq<N>) {
    |p| > 0 && forall i :: 0 <= i < |p| - 1 ==> Edge(g, p[i], p[i + 1])
  }

  ghost predicate WalkBetween<N>(g: Graph<N>, p: seq<N>, a: N, b: N) {
    Walk(g, p) && p[0] == a && p[|p| - 1] == b
  }

  ghost predicate Reaches<N(!new)>(g: Graph<N>, a: N, b: N) {
    exists p :: WalkBetween(g, p, a, b)
  }

  /** A closed walk that leaves its node at every step. */
  ghost predicate Cycle<N>(g: Graph<N>, p: seq<N>) {
    |p| > 1 && p[0] == p[|p| - 1] && forall i :: 0 <= i < |p| - 1 ==> Refers(g, p[i], p[i + 1])
  }

  /** No cycle, self-edges aside. */
  ghost predicate Acyclic<N(!new)>(g: Graph<N>) {
    forall p :: !Cycle(g, p)
  }

  /** `g` cut down to the nodes of `s`. */
  function Within<N>(g: Graph<N>, s: set<N>): Graph<N> {
    map h | h in g && h in s :: g[h] * s
  }

  // ------------------------------------------------------------ cycles

  lemma {:induction false} Pigeonhole<N>(s: set<N>, p: seq<N>) returns (i: nat, j: nat)
    requires |p| > |s|
    requires forall k :: 0 <= k < |p| ==> p[k] in s
    ensures i < j < |p| && p[i] == p[j]
  {
    var last := p[|p| - 1];
    if k :| 0 <= k < |p| - 1 && p[k] == last {
      i, j := k, |p| - 1;
    } else {
      i, j := Pigeonhole(s - {last}, p[..|p| - 1]);
    }
  }

  /** Some other member of `s` refers to `y`. */
  ghost predicate Preceded<N>(g: Graph<N>, s: set<N>, y: N) {
    exists x :: x in s && Refers(g, x, y)
  }

  /** If every member of `s` is preceded in `s`, walks within `s` are as long as one likes. */
  lemma {:induction false} WalkBack<N>(g: Graph<N>, s: set<N>, n: nat) returns (p: seq<N>)
    requires s != {}
    requires forall y :: y in s ==> Preceded(g, s, y)
    ensures |p| == n + 1
    ensures forall k :: 0 <= k < |p| ==> p[k] in s
    ensures forall k :: 0 <= k < |p| - 1 ==> Refers(g, p[k], p[k + 1])
  {
    if n == 0 {
      var y :| y in s;
      p := [y];
    } else {
      var q := WalkBack(g, s, n - 1);
      assert Preceded(g, s, q[0]);
      var x :| x in s && Refers(g, x, q[0]);
      p := [x] + q;
    }
  }

  /** A finite set in which everything is preceded holds a cycle. */
  lemma {:induction false} CycleExists<N>(g: Graph<N>, s: set<N>) returns (p: seq<N>)
    requires s != {}
    requires forall y :: y in s ==> Preceded(g, s, y)
    ensures Cycle(g, p)
  {
    var w := WalkBack(g, s, |s|);
    var i, j := Pigeonhole(s, w);
    p := w[i..j + 1];
  }

  /** In an acyclic graph every non-empty set of nodes has a member no other member refers to. */
  lemma {:induction false} SourceExists<N(!new)>(g: Graph<N>, s: set<N>) returns (y: N)
    requires s != {} && Acyclic(g)
    ensures y in s && !Preceded(g, s, y)
  {
    if v :| v in s && !Preceded(g, s, v) {
      y := v;
    } else {
      var p := CycleExists(g, s);
      assert false;
    }
  }

  /** Every edge turned round. */
  function Transposed<N(!new)>(g: Graph<N>): (t: Graph<N>)
    ensures forall a, b :: Refers(t, b, a) <==> Refers(g, a, b)
  {
    map b | b in Nodes(g) :: set a | a in g && b in g[a]
  }

  lemma TransposedAcyclic<N(!new)>(g: Graph<N>)
    requires Acyclic(g)
    ensures Acyclic(Transposed(g))
  {
    var t := Transposed(g);
    forall p | Cycle(t, p)
      ensures false
    {
      var q := seq(|p|, k requires 0 <= k < |p| => p[|p| - 1 - k]);
      forall i | 0 <= i < |q| - 1
        ensures Refers(g, q[i], q[i + 1])
      {
        var k := |p| - 2 - i;
        assert Refers(t, p[k], p[k + 1]);
      }
      assert Cycle(g, q);
    }
  }

  // ------------------------------------------------------------ marking

  function Nodes<N>(g: Graph<N>): set<N> {
    g.Keys + (set a, b | a in g && b in g[a] :: b)
  }

  function Successors<N>(g: Graph<N>, s: set<N>): set<N> {
    set a, b | a in s && a in g && b in g[a] :: b
  }

  predicate Closed<N>(g: Graph<N>, s: set<N>) {
    Successors(g, s) <= s
  }

  /** The fixed point a recursive `UNION` query computes from `kept`. */
  function Mark<N>(g: Graph<N>, kept: set<N>): (m: set<N>)
    decreases Nodes(g) - kept
  {
    var next := kept + Successors(g, kept);
    if next == kept then kept else
      assert exists b :: b in Successors(g, kept) && b !in kept;
      Mark(g, next)
  }

  lemma {:induction false} MarkIsClosed<N>(g: Graph<N>, kept: set<N>)
    ensures kept <= Mark(g, kept) && Closed(g, Mark(g, kept))
    decreases Nodes(g) - kept
  {
    var next := kept + Successors(g, kept);
    if next != kept {
      assert exists b :: b in Successors(g, kept) && b !in kept;
      MarkIsClosed(g, next);
    }
  }

  lemma {:induction false} MarkIsLeast<N>(g: Graph<N>, kept: set<N>, c: set<N>)
    requires kept <= c && Closed(g, c)
    ensures Mark(g, kept) <= c
    decreases Nodes(g) - kept
  {
    var next := kept + Successors(g, kept);
    if next != kept {
      assert exists b :: b in Successors(g, kept) && b !in kept;
      MarkIsLeast(g, next, c);
    }
  }

  lemma {:induction false} ClosedHoldsWalks<N(!new)>(g: Graph<N>, c: set<N>, p: seq<N>)
    requires Walk(g, p) && p[0] in c && Closed(g, c)
    ensures p[|p| - 1] in c
    decreases |p|
  {
    if |p| > 1 {
      var q := p[..|p| - 1];
      ClosedHoldsWalks(g, c, q);
      assert Edge(g, p[|p| - 2], p[|p| - 1]);
      assert p[|p| - 1] in Successors(g, c);
    }
  }

  ghost predicate ReachedFrom<N(!new)>(g: Graph<N>, roots: set<N>, b: N) {
    exists a :: a in roots && Reaches(g, a, b)
  }

  lemma ReachesRefl<N(!new)>(g: Graph<N>, a: N)
    ensures Reaches(g, a, a)
  {
    assert WalkBetween(g, [a], a, a);
  }

  lemma ReachesStep<N(!new)>(g: Graph<N>, a: N, b: N, c: N)
    requires Reaches(g, a, b) && Edge(g, b, c)
    ensures Reaches(g, a, c)
  {
    var p :| WalkBetween(g, p, a, b);
    var q := p + [c];
    assert forall i :: 0 <= i < |q| - 1 ==> Edge(g, q[i], q[i + 1]);
    assert WalkBetween(g, q, a, c);
  }

  /** The mark is exactly what the roots reach. */
  lemma MarkIsReached<N(!new)>(g: Graph<N>, roots: set<N>, b: N)
    ensures b in Mark(g, roots) <==> ReachedFrom(g, roots, b)
  {
    MarkIsClosed(g, roots);
    if ReachedFrom(g, roots, b) {
      var a :| a in roots && Reaches(g, a, b);
      var p :| WalkBetween(g, p, a, b);
      ClosedHoldsWalks(g, Mark(g, roots), p);
    }
    var reached := set x | x in Mark(g, roots) && ReachedFrom(g, roots, x);
    forall a | a in roots
      ensures a in reached
    {
      ReachesRefl(g, a);
    }
    forall x, y | x in reached && Edge(g, x, y)
      ensures y in reached
    {
      var a :| a in roots && Reaches(g, a, x);
      ReachesStep(g, a, x, y);
      assert y in Successors(g, Mark(g, roots));
    }
    MarkIsLeast(g, roots, reached);
  }

  // ------------------------------------------------------------ removal

  /** No node that stays refers to one that goes. */
  predicate Severable<N>(g: Graph<N>, gone: set<N>) {
    forall a | a in g && a !in gone :: g[a] !! gone
  }

  lemma {:induction false} SeverKeepsWalk<N(!new)>(g: Graph<N>, gone: set<N>, p: seq<N>)
    requires Severable(g, gone) && Walk(g, p) && p[0] in g && p[0] !in gone
    ensures Walk(g - gone, p) && p[|p| - 1] !in gone
    decreases |p|
  {
    if |p| > 1 {
      var q := p[..|p| - 1];
      SeverKeepsWalk(g, gone, q);
      assert Edge(g, p[|p| - 2], p[|p| - 1]);
      forall i | 0 <= i < |p| - 1
        ensures Edge(g - gone, p[i], p[i + 1])
      {
        if i < |p| - 2 {
          assert Edge(g - gone, q[i], q[i + 1]);
        }
      }
    }
  }

  /** Removing a severable set changes nothing any survivor reaches. */
  lemma SeverKeepsReach<N(!new)>(g: Graph<N>, gone: set<N>, a: N, b: N)
    requires Severable(g, gone) && a in g && a !in gone
    ensures Reaches(g, a, b) <==> Reaches(g - gone, a, b)
    ensures Reaches(g, a, b) ==> b !in gone
  {
    if Reaches(g, a, b) {
      var p :| WalkBetween(g, p, a, b);
      SeverKeepsWalk(g, gone, p);
      assert WalkBetween(g - gone, p, a, b);
    }
    if Reaches(g - gone, a, b) {
      var p :| WalkBetween(g - gone, p, a, b);
      assert forall i :: 0 <= i < |p| - 1 ==> Edge(g - gone, p[i], p[i + 1]) && Edge(g, p[i], p[i + 1]);
      assert WalkBetween(g, p, a, b);
    }
  }

  /** What a node reaches without ever reaching `x` it reaches with `x` gone. */
  lemma AvoidKeepsReach<N(!new)>(g: Graph<N>, x: N, a: N, b: N)
    requires Reaches(g, a, b) && !Reaches(g, a, x)
    ensures Reaches(g - {x}, a, b)
  {
    var p :| WalkBetween(g, p, a, b);
    forall k | 0 <= k < |p|
      ensures p[k] != x
    {
      assert WalkBetween(g, p[..k + 1], a, p[k]);
    }
    forall k | 0 <= k < |p| - 1
      ensures Edge(g - {x}, p[k], p[k + 1])
    {
      assert Edge(g, p[k], p[k + 1]);
    }
    assert WalkBetween(g - {x}, p, a, b);
  }
}
