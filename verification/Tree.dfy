/**
 The dependency tree the browse API shows: depth first, each hash expanded where
 it is first met.
 */
module Tree {
  import opened Basics
  import opened Graphs

  /** Cached objects with their references, in the order the query gives them. */
  type Refs = map<Hash, seq<Hash>>

  datatype Node = Node(hash: Hash, missing: bool, truncated: bool, children: seq<Node>)

  /** A node's child edges. A path is not its own dependency. */
  function EdgesOf(refs: Refs, h: Hash): seq<Hash> {
    if h in refs then Except(refs[h], {h}) else []
  }

  lemma EdgesAre(refs: Refs, h: Hash)
    ensures forall x :: x in EdgesOf(refs, h) <==> h in refs && x in refs[h] && x != h
  {
    if h in refs {
      forall x
        ensures x in Except(refs[h], {h}) <==> x in refs[h] && x != h
      {
        assert x in Elems(Except(refs[h], {h})) <==> x in Elems(refs[h]) - {h};
      }
    }
  }

  // ------------------------------------------------------------ the tree as a function

  datatype Grown = Grown(nodes: seq<Node>, seen: set<Hash>)

  function Children(refs: Refs, h: Hash, seen: set<Hash>, depth: nat): Grown
    decreases depth, 0, 0
  {
    if depth == 0 then Grown([], seen) else Grow(refs, EdgesOf(refs, h), seen, depth - 1)
  }

  /** One node for an edge: expanded if its hash is cached and new. */
  function Sprout(refs: Refs, h: Hash, seen: set<Hash>, depth: nat): Grown
    decreases depth, 1, 0
  {
    if h in seen || h !in refs then Grown([Node(h, h !in refs, h in seen, [])], seen + {h})
    else
      var below := Children(refs, h, seen + {h}, depth);
      Grown([Node(h, false, false, below.nodes)], below.seen)
  }

  function Grow(refs: Refs, edges: seq<Hash>, seen: set<Hash>, depth: nat): Grown
    decreases depth, 2, |edges|
  {
    if edges == [] then Grown([], seen)
    else
      var first := Sprout(refs, edges[0], seen, depth);
      var rest := Grow(refs, edges[1..], first.seen, depth);
      Grown(first.nodes + rest.nodes, rest.seen)
  }

  function TreeOf(refs: Refs, root: Hash, limit: nat): Option<Node> {
    if root !in refs then None
    else Some(Node(root, false, false, Children(refs, root, {root}, limit).nodes))
  }

  // ------------------------------------------------------------ the tree as the server builds it

  class Walker {
    const refs: Refs
    var seen: set<Hash>

    constructor (refs: Refs, root: Hash)
      ensures this.refs == refs && seen == {root}
    {
      this.refs, seen := refs, {root};
    }

    method ChildrenOf(h: Hash, depth: nat) returns (out: seq<Node>)
      modifies this
      ensures Grown(out, seen) == Children(refs, h, old(seen), depth)
      decreases depth
    {
      out := [];
      if depth == 0 {
        return;
      }
      var edges := EdgesOf(refs, h);
      ghost var whole := Grow(refs, edges, seen, depth - 1);
      assert edges[0..] == edges;
      for i := 0 to |edges|
        invariant var rest := Grow(refs, edges[i..], seen, depth - 1);
                  whole == Grown(out + rest.nodes, rest.seen)
      {
        var child := edges[i];
        ghost var first := Sprout(refs, child, seen, depth - 1);
        ghost var rest := Grow(refs, edges[i + 1..], first.seen, depth - 1);
        assert edges[i..][1..] == edges[i + 1..];
        Joined(out, first.nodes, rest.nodes);
        var truncated := child in seen;
        seen := seen + {child};
        var missing := child !in refs;
        var kids := [];
        if !truncated && !missing {
          kids := ChildrenOf(child, depth - 1);
        }
        assert first == Grown([Node(child, missing, truncated, kids)], seen);
        out := out + [Node(child, missing, truncated, kids)];
      }
    }
  }

  method BuildTree(refs: Refs, root: Hash, limit: nat) returns (tree: Option<Node>)
    ensures tree == TreeOf(refs, root, limit)
  {
    if root !in refs {
      return None;
    }
    var walker := new Walker(refs, root);
    var children := walker.ChildrenOf(root, limit);
    tree := Some(Node(root, false, false, children));
  }

  // ------------------------------------------------------------ what is in a tree

  /** The hashes at the nodes of a forest that are not marked as repeats, in order. */
  function Firsts(nodes: seq<Node>): seq<Hash> {
    if nodes == [] then []
    else (if nodes[0].truncated then Firsts(nodes[0].children) else [nodes[0].hash] + Firsts(nodes[0].children))
         + Firsts(nodes[1..])
  }

  function Hashes(nodes: seq<Node>): set<Hash> {
    if nodes == [] then {} else {nodes[0].hash} + Hashes(nodes[0].children) + Hashes(nodes[1..])
  }

  /** Repeats and missing objects have no children, and only what is not cached is marked missing. */
  predicate Tidy(refs: Refs, nodes: seq<Node>) {
    nodes != [] ==>
      && (nodes[0].truncated || nodes[0].missing ==> nodes[0].children == [])
      && (nodes[0].missing <==> nodes[0].hash !in refs)
      && Tidy(refs, nodes[0].children) && Tidy(refs, nodes[1..])
  }

  lemma {:induction false} FirstsAppend(a: seq<Node>, b: seq<Node>)
    ensures Firsts(a + b) == Firsts(a) + Firsts(b)
  {
    if a == [] {
      assert a + b == b;
    } else {
      FirstsAppend(a[1..], b);
      assert (a + b)[1..] == a[1..] + b && (a + b)[0] == a[0];
      var below := Firsts(a[0].children);
      Joined(if a[0].truncated then below else [a[0].hash] + below, Firsts(a[1..]), Firsts(b));
    }
  }

  lemma {:induction false} HashesAppend(a: seq<Node>, b: seq<Node>)
    ensures Hashes(a + b) == Hashes(a) + Hashes(b)
  {
    if a == [] {
      assert a + b == b;
    } else {
      HashesAppend(a[1..], b);
      assert (a + b)[1..] == a[1..] + b;
      assert (a + b)[0] == a[0];
    }
  }

  lemma {:induction false} TidyAppend(refs: Refs, a: seq<Node>, b: seq<Node>)
    requires Tidy(refs, a) && Tidy(refs, b)
    ensures Tidy(refs, a + b)
  {
    if a == [] {
      assert a + b == b;
    } else {
      TidyAppend(refs, a[1..], b);
      assert (a + b)[1..] == a[1..] + b;
    }
  }

  lemma OneNode(n: Node)
    ensures Firsts([n]) == if n.truncated then Firsts(n.children) else [n.hash] + Firsts(n.children)
    ensures Hashes([n]) == {n.hash} + Hashes(n.children)
  {
    assert [n][1..] == [];
  }

  /** What growing a forest from `seen` comes to: it sees exactly its own hashes, each new one as a first once. */
  ghost predicate Accounts(refs: Refs, seen: set<Hash>, grown: Grown) {
    && grown.seen == seen + Hashes(grown.nodes)
    && NoDup(Firsts(grown.nodes)) && Elems(Firsts(grown.nodes)) == grown.seen - seen
    && Tidy(refs, grown.nodes)
  }

  lemma NoDupJoin(a: seq<Hash>, b: seq<Hash>)
    requires NoDup(a) && NoDup(b) && Elems(a) !! Elems(b)
    ensures NoDup(a + b) && Elems(a + b) == Elems(a) + Elems(b)
  {
    assert forall i :: 0 <= i < |a| ==> a[i] in Elems(a);
    assert forall i :: 0 <= i < |b| ==> b[i] in Elems(b);
  }

  lemma AccountsJoin(refs: Refs, seen: set<Hash>, a: Grown, b: Grown)
    requires Accounts(refs, seen, a) && Accounts(refs, a.seen, b)
    ensures Accounts(refs, seen, Grown(a.nodes + b.nodes, b.seen))
  {
    FirstsAppend(a.nodes, b.nodes);
    HashesAppend(a.nodes, b.nodes);
    TidyAppend(refs, a.nodes, b.nodes);
    NoDupJoin(Firsts(a.nodes), Firsts(b.nodes));
    assert b.seen - seen == (a.seen - seen) + (b.seen - a.seen);
  }

  lemma {:induction false} ChildrenAccount(refs: Refs, h: Hash, seen: set<Hash>, depth: nat)
    ensures Accounts(refs, seen, Children(refs, h, seen, depth))
    decreases depth, 0, 0
  {
    if depth > 0 {
      GrowAccounts(refs, EdgesOf(refs, h), seen, depth - 1);
    }
  }

  lemma {:induction false} SproutAccounts(refs: Refs, h: Hash, seen: set<Hash>, depth: nat)
    ensures Accounts(refs, seen, Sprout(refs, h, seen, depth))
    decreases depth, 1, 0
  {
    var sprout := Sprout(refs, h, seen, depth);
    OneNode(sprout.nodes[0]);
    if h !in seen && h in refs {
      ChildrenAccount(refs, h, seen + {h}, depth);
      NoDupJoin([h], Firsts(Children(refs, h, seen + {h}, depth).nodes));
      assert sprout.seen - seen == (sprout.seen - (seen + {h})) + {h};
    } else {
      assert sprout.seen - seen == if h in seen then {} else {h};
    }
  }

  lemma {:induction false} GrowAccounts(refs: Refs, edges: seq<Hash>, seen: set<Hash>, depth: nat)
    ensures Accounts(refs, seen, Grow(refs, edges, seen, depth))
    decreases depth, 2, |edges|
  {
    if edges != [] {
      var first := Sprout(refs, edges[0], seen, depth);
      SproutAccounts(refs, edges[0], seen, depth);
      GrowAccounts(refs, edges[1..], first.seen, depth);
      AccountsJoin(refs, seen, first, Grow(refs, edges[1..], first.seen, depth));
    }
  }

  /**
   On any graph, cycles included, and at any depth: no hash is a first at two nodes,
   a repeat is marked and has no children, and every hash in the tree is a first at one.
   */
  lemma EachHashExpandsOnce(refs: Refs, root: Hash, limit: nat)
    requires root in refs
    ensures var tree := [TreeOf(refs, root, limit).value];
            && Tidy(refs, tree)
            && NoDup(Firsts(tree)) && Elems(Firsts(tree)) == Hashes(tree)
  {
    var below := Children(refs, root, {root}, limit);
    var tree := TreeOf(refs, root, limit).value;
    ChildrenAccount(refs, root, {root}, limit);
    OneNode(tree);
    NoDupJoin([root], Firsts(below.nodes));
    assert [tree][1..] == [];
    assert below.seen == Hashes([tree]);
    assert below.seen == {root} + (below.seen - {root});
  }

  // ------------------------------------------------------------ its shape

  /** The nodes of a forest in the order the walk makes them. */
  function InOrder(nodes: seq<Node>): seq<Node> {
    if nodes == [] then [] else [nodes[0]] + InOrder(nodes[0].children) + InOrder(nodes[1..])
  }

  function HashesOf(nodes: seq<Node>): set<Hash> {
    set n | n in nodes :: n.hash
  }

  /** Exactly the nodes whose hash has come before, or was met before the walk, are marked as repeats. */
  ghost predicate MarksRepeats(list: seq<Node>, seen: set<Hash>) {
    forall i :: 0 <= i < |list| ==> (list[i].truncated <==> list[i].hash in seen + HashesOf(list[..i]))
  }

  /** One node for each of these hashes, in order. */
  ghost predicate NodesFor(nodes: seq<Node>, hashes: seq<Hash>) {
    |nodes| == |hashes| && forall i :: 0 <= i < |nodes| ==> nodes[i].hash == hashes[i]
  }

  /** A node shows its object's references but itself, in order, unless it is a repeat, not cached or at the limit. */
  ghost predicate Shaped(refs: Refs, nodes: seq<Node>, depth: nat) {
    nodes != [] ==>
      var n := nodes[0];
      && (n.missing <==> n.hash !in refs)
      && (if n.truncated || n.missing || depth == 0 then n.children == []
          else NodesFor(n.children, Except(refs[n.hash], {n.hash})) && Shaped(refs, n.children, depth - 1))
      && Shaped(refs, nodes[1..], depth)
  }

  lemma {:induction false} InOrderAppend(a: seq<Node>, b: seq<Node>)
    ensures InOrder(a + b) == InOrder(a) + InOrder(b)
  {
    if a == [] {
      assert a + b == b;
    } else {
      InOrderAppend(a[1..], b);
      assert (a + b)[1..] == a[1..] + b && (a + b)[0] == a[0];
      Joined([a[0]] + InOrder(a[0].children), InOrder(a[1..]), InOrder(b));
    }
  }

  lemma {:induction false} InOrderHashes(nodes: seq<Node>)
    ensures HashesOf(InOrder(nodes)) == Hashes(nodes)
  {
    if nodes != [] {
      InOrderHashes(nodes[0].children);
      InOrderHashes(nodes[1..]);
      HashesJoin([nodes[0]], InOrder(nodes[0].children));
      HashesJoin([nodes[0]] + InOrder(nodes[0].children), InOrder(nodes[1..]));
      assert HashesOf([nodes[0]]) == {nodes[0].hash};
    }
  }

  lemma HashesJoin(a: seq<Node>, b: seq<Node>)
    ensures HashesOf(a + b) == HashesOf(a) + HashesOf(b)
  {
    assert forall n :: n in a + b <==> n in a || n in b;
  }

  lemma MarksJoin(a: seq<Node>, b: seq<Node>, seen: set<Hash>)
    requires MarksRepeats(a, seen) && MarksRepeats(b, seen + HashesOf(a))
    ensures MarksRepeats(a + b, seen)
  {
    var all := a + b;
    forall i | 0 <= i < |all|
      ensures all[i].truncated <==> all[i].hash in seen + HashesOf(all[..i])
    {
      if i < |a| {
        assert all[..i] == a[..i];
      } else {
        assert all[..i] == a + b[..i - |a|];
        HashesJoin(a, b[..i - |a|]);
      }
    }
  }

  ghost predicate InShape(refs: Refs, seen: set<Hash>, grown: Grown, depth: nat) {
    MarksRepeats(InOrder(grown.nodes), seen) && Shaped(refs, grown.nodes, depth)
  }

  /** A node without children, rightly so. */
  lemma LeafIsShaped(refs: Refs, n: Node, seen: set<Hash>, depth: nat)
    requires n.children == [] && (n.missing <==> n.hash !in refs) && (n.truncated <==> n.hash in seen)
    requires n.truncated || n.missing || depth == 0
    ensures MarksRepeats(InOrder([n]), seen) && Shaped(refs, [n], depth)
  {
    assert [n][1..] == [] && [n][..0] == [] && InOrder([n]) == [n] + [] + [];
    assert HashesOf([]) == {};
  }

  /** A node with its children. */
  lemma BranchIsShaped(refs: Refs, n: Node, seen: set<Hash>, depth: nat)
    requires !n.missing && !n.truncated && n.hash in refs && n.hash !in seen && depth > 0
    requires NodesFor(n.children, Except(refs[n.hash], {n.hash})) && Shaped(refs, n.children, depth - 1)
    requires MarksRepeats(InOrder(n.children), seen + {n.hash})
    ensures MarksRepeats(InOrder([n]), seen) && Shaped(refs, [n], depth)
  {
    assert [n][1..] == [] && [n][..0] == [] && HashesOf([n]) == {n.hash} && HashesOf([]) == {};
    assert InOrder([n]) == [n] + InOrder(n.children);
    MarksJoin([n], InOrder(n.children), seen);
  }

  lemma {:induction false} SproutIsShaped(refs: Refs, h: Hash, seen: set<Hash>, depth: nat)
    ensures InShape(refs, seen, Sprout(refs, h, seen, depth), depth)
    decreases depth, 1, 0
  {
    if h !in seen && h in refs && depth > 0 {
      var below := Children(refs, h, seen + {h}, depth);
      assert below == Grow(refs, EdgesOf(refs, h), seen + {h}, depth - 1);
      GrowIsShaped(refs, EdgesOf(refs, h), seen + {h}, depth - 1);
      BranchIsShaped(refs, Node(h, false, false, below.nodes), seen, depth);
    } else {
      var n := Node(h, h !in refs, h in seen, []);
      assert Sprout(refs, h, seen, depth).nodes == [n];
      LeafIsShaped(refs, n, seen, depth);
    }
  }

  lemma {:induction false} GrowIsShaped(refs: Refs, edges: seq<Hash>, seen: set<Hash>, depth: nat)
    ensures var grown := Grow(refs, edges, seen, depth);
            NodesFor(grown.nodes, edges) && InShape(refs, seen, grown, depth)
    decreases depth, 2, |edges|
  {
    if edges != [] {
      var first := Sprout(refs, edges[0], seen, depth);
      var rest := Grow(refs, edges[1..], first.seen, depth);
      SproutIsShaped(refs, edges[0], seen, depth);
      GrowIsShaped(refs, edges[1..], first.seen, depth);
      SproutAccounts(refs, edges[0], seen, depth);
      InOrderHashes(first.nodes);
      InOrderAppend(first.nodes, rest.nodes);
      MarksJoin(InOrder(first.nodes), InOrder(rest.nodes), seen);
      assert (first.nodes + rest.nodes)[1..] == rest.nodes;
    }
  }

  /**
   What the tree is, whole: each node shows its references in order, down to the limit,
   and exactly the nodes whose hash came before them in the walk are marked as repeats.
   */
  lemma TreeIsShaped(refs: Refs, root: Hash, limit: nat)
    requires root in refs
    ensures var tree := [TreeOf(refs, root, limit).value];
            tree[0].hash == root && MarksRepeats(InOrder(tree), {}) && Shaped(refs, tree, limit)
  {
    SproutIsShaped(refs, root, {}, limit);
    assert {} + {root} == {root};
  }

  // ------------------------------------------------------------ what it reaches

  function RefsGraph(refs: Refs): Graph<Hash> {
    map h | h in refs :: set r | r in refs[h]
  }

  /** Everything seen by way of `inner` has had all its references seen. */
  ghost predicate Explored(refs: Refs, inner: set<Hash>, seen: set<Hash>) {
    forall x, y :: x in inner && x in refs && y in refs[x] ==> y in seen
  }

  /** Cached objects not yet seen. */
  function Unseen(refs: Refs, seen: set<Hash>): set<Hash> {
    refs.Keys - seen
  }

  lemma FewerUnseen(refs: Refs, seen: set<Hash>, more: set<Hash>)
    requires seen <= more
    ensures |Unseen(refs, more)| <= |Unseen(refs, seen)|
  {
    SubsetCount(Unseen(refs, more), Unseen(refs, seen));
  }

  lemma {:induction false} ChildrenExplore(refs: Refs, h: Hash, seen: set<Hash>, depth: nat)
    requires h in refs && h in seen && depth > |Unseen(refs, seen)|
    ensures var grown := Children(refs, h, seen, depth);
            seen <= grown.seen && Explored(refs, (grown.seen - seen) + {h}, grown.seen)
    decreases depth, 0, 0
  {
    EdgesAre(refs, h);
    GrowExplores(refs, EdgesOf(refs, h), seen, depth - 1);
  }

  lemma {:induction false} SproutExplores(refs: Refs, h: Hash, seen: set<Hash>, depth: nat)
    requires depth >= |Unseen(refs, seen)|
    ensures var grown := Sprout(refs, h, seen, depth);
            seen + {h} <= grown.seen && Explored(refs, grown.seen - seen, grown.seen)
    decreases depth, 1, 0
  {
    if h !in seen && h in refs {
      assert Unseen(refs, seen) == Unseen(refs, seen + {h}) + {h};
      ChildrenExplore(refs, h, seen + {h}, depth);
    }
  }

  lemma {:induction false} GrowExplores(refs: Refs, edges: seq<Hash>, seen: set<Hash>, depth: nat)
    requires depth >= |Unseen(refs, seen)|
    ensures var grown := Grow(refs, edges, seen, depth);
            && seen <= grown.seen && Explored(refs, grown.seen - seen, grown.seen)
            && forall x :: x in edges ==> x in grown.seen
    decreases depth, 2, |edges|
  {
    if edges != [] {
      var first := Sprout(refs, edges[0], seen, depth);
      SproutExplores(refs, edges[0], seen, depth);
      FewerUnseen(refs, seen, first.seen);
      GrowExplores(refs, edges[1..], first.seen, depth);
    }
  }

  /** Nothing is seen that the graph does not lead to. */
  lemma {:induction false} ChildrenReached(refs: Refs, h: Hash, seen: set<Hash>, depth: nat, closed: set<Hash>)
    requires Closed(RefsGraph(refs), closed) && h in closed && seen <= closed
    ensures Children(refs, h, seen, depth).seen <= closed
    decreases depth, 0, 0
  {
    if depth > 0 {
      EdgesAre(refs, h);
      forall x | x in EdgesOf(refs, h)
        ensures x in closed
      {
        assert Edge(RefsGraph(refs), h, x);
        assert x in Successors(RefsGraph(refs), closed);
      }
      GrowReached(refs, EdgesOf(refs, h), seen, depth - 1, closed);
    }
  }

  lemma {:induction false} GrowReached(refs: Refs, edges: seq<Hash>, seen: set<Hash>, depth: nat, closed: set<Hash>)
    requires Closed(RefsGraph(refs), closed) && seen <= closed && forall x :: x in edges ==> x in closed
    ensures Grow(refs, edges, seen, depth).seen <= closed
    decreases depth, 2, |edges|
  {
    if edges != [] {
      var h := edges[0];
      if h !in seen && h in refs {
        ChildrenReached(refs, h, seen + {h}, depth, closed);
      }
      GrowReached(refs, edges[1..], Sprout(refs, h, seen, depth).seen, depth, closed);
    }
  }

  /** At any depth the tree shows only what the root reaches through cached objects. */
  lemma TreeIsReached(refs: Refs, root: Hash, limit: nat, h: Hash)
    requires root in refs && h in Hashes([TreeOf(refs, root, limit).value])
    ensures Reaches(RefsGraph(refs), root, h)
  {
    var g := RefsGraph(refs);
    var closed := Mark(g, {root});
    MarkIsClosed(g, {root});
    ChildrenAccount(refs, root, {root}, limit);
    ChildrenReached(refs, root, {root}, limit, closed);
    OneNode(TreeOf(refs, root, limit).value);
    assert h in closed;
    MarkIsReached(g, {root}, h);
  }

  /** With a depth limit of at least the number of cached objects it shows all of that. */
  lemma DeepTreeIsWhole(refs: Refs, root: Hash, limit: nat, h: Hash)
    requires root in refs && limit >= |refs|
    ensures h in Hashes([TreeOf(refs, root, limit).value]) <==> Reaches(RefsGraph(refs), root, h)
  {
    var g := RefsGraph(refs);
    var tree := TreeOf(refs, root, limit).value;
    var seen := Children(refs, root, {root}, limit).seen;
    assert refs.Keys == Unseen(refs, {root}) + {root};
    assert |refs.Keys| == |refs|;
    ChildrenExplore(refs, root, {root}, limit);
    ChildrenAccount(refs, root, {root}, limit);
    OneNode(tree);
    assert seen == Hashes([tree]);
    assert Closed(g, seen) by {
      forall x, y | x in seen && Edge(g, x, y)
        ensures y in seen
      {
        assert x in (seen - {root}) + {root};
      }
    }
    MarkIsLeast(g, {root}, seen);
    MarkIsReached(g, {root}, h);
    if h in seen {
      TreeIsReached(refs, root, limit, h);
    } else {
      assert h !in Mark(g, {root});
      assert ReachedFrom(g, {root}, h) <==> Reaches(g, root, h);
    }
  }

  // ------------------------------------------------------------ the least limit that is enough

  /** The tree shows all that its root reaches. */
  ghost predicate IsWhole(refs: Refs, root: Hash, limit: nat)
    requires root in refs
  {
    forall h :: h in Hashes([TreeOf(refs, root, limit).value]) <==> Reaches(RefsGraph(refs), root, h)
  }

  /** It does so on every cache of `n` objects. */
  ghost predicate WholeOn(n: nat, limit: nat) {
    forall refs: Refs, root: Hash :: |refs| == n && root in refs ==> IsWhole(refs, root, limit)
  }

  /** Names, one for each number. */
  function Name(n: nat): Hash {
    Hash(seq(n, _ => 'x'))
  }

  lemma NamesDiffer(m: nat, n: nat)
    requires m != n
    ensures Name(m) != Name(n)
  {
    assert |Name(m).key| == m && |Name(n).key| == n;
  }

  /** The names up to `n`. */
  function UpTo(n: nat): set<Hash> {
    if n == 0 then {Name(0)} else UpTo(n - 1) + {Name(n)}
  }

  lemma {:induction false} NotUpTo(m: nat, n: nat)
    requires m < n
    ensures Name(n) !in UpTo(m)
  {
    NamesDiffer(m, n);
    if m > 0 {
      NotUpTo(m - 1, n);
    }
  }

  /** `n` objects in a row, the last referring to one that is not cached. */
  function Chain(n: nat): Refs {
    if n == 0 then map[] else Chain(n - 1)[Name(n - 1) := [Name(n)]]
  }

  lemma {:induction false} ChainHolds(n: nat, j: nat)
    ensures j < n ==> Name(j) in Chain(n) && Chain(n)[Name(j)] == [Name(j + 1)]
    ensures j >= n ==> Name(j) !in Chain(n)
    ensures |Chain(n)| == n
  {
    if n > 0 {
      ChainHolds(n - 1, j);
      ChainHolds(n - 1, n - 1);
      if j != n - 1 {
        NamesDiffer(j, n - 1);
      }
      assert Chain(n).Keys == Chain(n - 1).Keys + {Name(n - 1)};
      assert |Chain(n)| == |Chain(n).Keys| && |Chain(n - 1)| == |Chain(n - 1).Keys|;
    }
  }

  ghost predicate IsLink(refs: Refs, j: nat) {
    Name(j) in refs && EdgesOf(refs, Name(j)) == [Name(j + 1)]
  }

  lemma SingleEdge(refs: Refs, h: Hash, seen: set<Hash>, depth: nat)
    ensures Grow(refs, [h], seen, depth).seen == Sprout(refs, h, seen, depth).seen
  {
    assert [h][1..] == [];
  }

  /** Down a chain the walk sees one more name a level. */
  lemma {:induction false} ChainSeen(refs: Refs, i: nat, depth: nat)
    requires forall j :: i <= j < i + depth ==> IsLink(refs, j)
    ensures Children(refs, Name(i), UpTo(i), depth).seen == UpTo(i + depth)
    decreases depth
  {
    if depth > 0 {
      assert IsLink(refs, i);
      NotUpTo(i, i + 1);
      SingleEdge(refs, Name(i + 1), UpTo(i), depth - 1);
      ChainSeen(refs, i + 1, depth - 1);
      if Name(i + 1) !in refs {
        assert depth > 1 ==> IsLink(refs, i + 1);
      }
    }
  }

  lemma TreeSees(refs: Refs, root: Hash, limit: nat)
    requires root in refs
    ensures Hashes([TreeOf(refs, root, limit).value]) == Children(refs, root, {root}, limit).seen
  {
    ChildrenAccount(refs, root, {root}, limit);
    OneNode(TreeOf(refs, root, limit).value);
  }

  lemma {:induction false} ChainReaches(n: nat, j: nat)
    requires j <= n
    ensures Reaches(RefsGraph(Chain(n)), Name(0), Name(j))
  {
    if j == 0 {
      ReachesRefl(RefsGraph(Chain(n)), Name(0));
    } else {
      ChainReaches(n, j - 1);
      ChainHolds(n, j - 1);
      assert Edge(RefsGraph(Chain(n)), Name(j - 1), Name(j));
      ReachesStep(RefsGraph(Chain(n)), Name(0), Name(j - 1), Name(j));
    }
  }

  lemma ChainIsCut(n: nat, limit: nat)
    requires limit < n
    ensures |Chain(n)| == n && Name(0) in Chain(n) && !IsWhole(Chain(n), Name(0), limit)
  {
    var refs := Chain(n);
    ChainHolds(n, 0);
    forall j | 0 <= j < limit
      ensures IsLink(refs, j)
    {
      ChainHolds(n, j);
      NamesDiffer(j + 1, j);
      ExceptInOrder([Name(j + 1)], [], {Name(j)});
    }
    ChainSeen(refs, 0, limit);
    TreeSees(refs, Name(0), limit);
    NotUpTo(limit, n);
    ChainReaches(n, n);
    assert Name(n) !in Hashes([TreeOf(refs, Name(0), limit).value]);
  }

  /** A limit makes the tree whole on every cache of `n` objects exactly if it is at least `n`. */
  lemma WholeFromCount(n: nat, limit: nat)
    requires n >= 1
    ensures WholeOn(n, limit) <==> limit >= n
  {
    if limit >= n {
      forall refs: Refs, root: Hash | |refs| == n && root in refs
        ensures IsWhole(refs, root, limit)
      {
        forall h
          ensures h in Hashes([TreeOf(refs, root, limit).value]) <==> Reaches(RefsGraph(refs), root, h)
        {
          DeepTreeIsWhole(refs, root, limit, h);
        }
      }
    } else {
      ChainIsCut(n, limit);
    }
  }

  // ------------------------------------------------------------ what is within the limit

  /** `h` is at most `limit` references away from the root, by way of cached objects. */
  ghost predicate IsNear(refs: Refs, root: Hash, h: Hash, limit: nat) {
    exists p :: WalkBetween(RefsGraph(refs), p, root, h) && |p| - 1 <= limit
  }

  /** Everything within the limit is shown. */
  ghost predicate ShowsNear(refs: Refs, root: Hash, limit: nat)
    requires root in refs
  {
    forall h :: IsNear(refs, root, h, limit) ==> h in Hashes([TreeOf(refs, root, limit).value])
  }

  lemma {:induction false} EdgesAreSeen(refs: Refs, edges: seq<Hash>, seen: set<Hash>, depth: nat)
    ensures forall x :: x in edges ==> x in Grow(refs, edges, seen, depth).seen
    decreases |edges|
  {
    if edges != [] {
      var h := edges[0];
      var first := Sprout(refs, h, seen, depth);
      ChildrenAccount(refs, h, seen + {h}, depth);
      assert h in first.seen;
      EdgesAreSeen(refs, edges[1..], first.seen, depth);
      GrowAccounts(refs, edges[1..], first.seen, depth);
    }
  }

  /** One level of children is always all there. */
  lemma FirstLevelIsShown(refs: Refs, root: Hash, limit: nat)
    requires root in refs && limit <= 1
    ensures ShowsNear(refs, root, limit)
  {
    TreeSees(refs, root, limit);
    ChildrenAccount(refs, root, {root}, limit);
    var g, seen := RefsGraph(refs), Children(refs, root, {root}, limit).seen;
    forall h | IsNear(refs, root, h, limit)
      ensures h in seen
    {
      var p :| WalkBetween(g, p, root, h) && |p| - 1 <= limit;
      if h != root {
        assert Edge(g, p[0], p[1]);
        EdgesAre(refs, root);
        assert h in EdgesOf(refs, root);
        EdgesAreSeen(refs, EdgesOf(refs, root), {root}, 0);
      }
    }
  }

  /** A chain with a short cut from its head to its last object but one. */
  function Detour(n: nat): Refs {
    Chain(n + 1)[Name(0) := [Name(1), Name(n)]]
  }

  lemma DetourHolds(n: nat, j: nat)
    requires n >= 2 && j <= n
    ensures Name(j) in Detour(n) && (j > 0 ==> IsLink(Detour(n), j))
    ensures EdgesOf(Detour(n), Name(0)) == [Name(1), Name(n)]
  {
    ChainHolds(n + 1, j);
    NamesDiffer(j, j + 1);
    ExceptInOrder([Name(j + 1)], [], {Name(j)});
    if j > 0 {
      NamesDiffer(j, 0);
    }
    NamesDiffer(1, 0);
    NamesDiffer(n, 0);
    ExceptInOrder([Name(1)], [Name(n)], {Name(0)});
    ExceptInOrder([Name(n)], [], {Name(0)});
    assert [Name(1)] + [Name(n)] == [Name(1), Name(n)];
  }

  lemma DetourSeen(n: nat)
    requires n >= 2
    ensures Name(0) in Detour(n) && Children(Detour(n), Name(0), {Name(0)}, n).seen == UpTo(n)
  {
    var refs := Detour(n);
    forall j | 1 <= j <= n
      ensures IsLink(refs, j) && Name(j) in refs
    {
      DetourHolds(n, j);
    }
    DetourHolds(n, 0);
    var edges := [Name(1), Name(n)];
    var first := Sprout(refs, Name(1), {Name(0)}, n - 1);
    NamesDiffer(1, 0);
    assert UpTo(1) == {Name(0)} + {Name(1)};
    assert IsLink(refs, 1);
    ChainSeen(refs, 1, n - 1);
    assert first.seen == UpTo(n);
    SingleEdge(refs, Name(n), UpTo(n), n - 1);
    assert edges[1..] == [Name(n)] && edges[0] == Name(1);
    assert UpTo(n) + {Name(n)} == UpTo(n);
  }

  /** The last object of the chain is two references away, and a tree `n` levels deep does not get there. */
  lemma DetourHidesNear(n: nat)
    requires n >= 2
    ensures Name(0) in Detour(n) && !ShowsNear(Detour(n), Name(0), n)
  {
    var refs, g := Detour(n), RefsGraph(Detour(n));
    DetourHolds(n, 0);
    DetourHolds(n, n);
    DetourSeen(n);
    TreeSees(refs, Name(0), n);
    NotUpTo(n, n + 1);
    var p := [Name(0), Name(n), Name(n + 1)];
    assert Name(n) in EdgesOf(refs, Name(0)) && Name(n + 1) in EdgesOf(refs, Name(n));
    assert Edge(g, p[0], p[1]) && Edge(g, p[1], p[2]);
    assert WalkBetween(g, p, Name(0), Name(n + 1));
    assert IsNear(refs, Name(0), Name(n + 1), n);
  }

  /** A limit's tree shows all that is within the limit on every cache. */
  ghost predicate AlwaysShowsNear(limit: nat) {
    forall refs: Refs, root: Hash :: root in refs ==> ShowsNear(refs, root, limit)
  }

  /**
   The limit cuts by the depth of a hash's first place in the walk, not its nearest,
   so from two levels on it can hide what is within it; and only from two levels on.
   */
  lemma NearIsShownToOne(limit: nat)
    ensures AlwaysShowsNear(limit) <==> limit <= 1
  {
    if limit <= 1 {
      forall refs: Refs, root: Hash | root in refs
        ensures ShowsNear(refs, root, limit)
      {
        FirstLevelIsShown(refs, root, limit);
      }
    } else {
      DetourHidesNear(limit);
    }
  }
}
