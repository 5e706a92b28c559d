/**
 The two sorts of a batch by its references: the server's, which prune deletes
 by, and the client's, which uploads start by.
 */
module Sorts {
  import opened Basics
  import opened Graphs
  import opened Catalog
  import opened Kahn
  import opened Protocol

  /** Where each key is, as a map collected in order holds it: the last place wins. */
  function Index<K>(keys: seq<K>): (m: map<K, nat>)
    ensures m.Keys == Elems(keys)
    ensures forall k :: k in m ==> m[k] < |keys| && keys[m[k]] == k
  {
    if keys == [] then map[] else
      var n := |keys| - 1;
      Index(keys[..n])[keys[n] := n]
  }

  /** Some reference in `refs` names the object at `j`, and that is not the referrer at `i` itself. */
  ghost predicate Links<K>(index: map<K, nat>, refs: seq<K>, i: nat, j: nat) {
    i != j && exists r :: r in refs && r in index && index[r] == j
  }

  lemma LinksSnoc<K>(index: map<K, nat>, refs: seq<K>, r: K, i: nat, j: nat)
    ensures Links(index, refs + [r], i, j) <==> Links(index, refs, i, j) || (i != j && r in index && index[r] == j)
  {
    if i != j && r in index && index[r] == j {
      assert r in refs + [r];
    }
    if Links(index, refs, i, j) {
      var q :| q in refs && q in index && index[q] == j;
      assert q in refs + [r];
    }
  }

  lemma LinkIsReference<K>(keys: seq<K>, refs: seq<K>, i: nat, j: nat)
    requires forall m, n :: 0 <= m < n < |keys| ==> keys[m] != keys[n]
    requires i < |keys| && j < |keys|
    ensures Links(Index(keys), refs, i, j) <==> i != j && keys[j] in refs
  {
    var index := Index(keys);
    assert keys[j] in Elems(keys) && index[keys[j]] == j;
  }

  // ------------------------------------------------------------ the server's edges: referrer to reference

  ghost predicate Counted(next: Edges, waiting: seq<nat>) {
    && |waiting| == |next|
    && forall j :: 0 <= j < |next| ==> waiting[j] == InDegree(next, {}, j, |next|)
  }

  lemma CountedPush(next: Edges, waiting: seq<nat>, i: nat, j: nat)
    requires Counted(next, waiting) && i < |next| && j < |next|
    ensures Counted(next[i := next[i] + [j]], waiting[j := waiting[j] + 1])
  {
    var more, after := next[i := next[i] + [j]], waiting[j := waiting[j] + 1];
    forall k | 0 <= k < |next|
      ensures after[k] == InDegree(more, {}, k, |more|)
    {
      InDegreePush(next, i, j, k, |next|);
    }
  }

  lemma {:induction false} CountedNone(next: Edges, waiting: seq<nat>, n: nat)
    requires |waiting| == |next| && n <= |next|
    requires forall i :: 0 <= i < |next| ==> next[i] == []
    ensures forall j :: 0 <= j < |next| ==> InDegree(next, {}, j, n) == 0
  {
    if n > 0 {
      CountedNone(next, waiting, n - 1);
    }
  }

  /** References inside the batch, listed under their referrer and counted at their target. */
  method ReferenceEdges<K(==)>(index: map<K, nat>, refs: seq<seq<K>>, referrers: array<nat>)
    returns (references: Edges)
    requires referrers.Length == |refs|
    requires forall k :: k in index ==> index[k] < |refs|
    requires forall j :: 0 <= j < |refs| ==> referrers[j] == 0
    modifies referrers
    ensures |references| == |refs| && Valid(references) && Counted(references, referrers[..])
    ensures forall i, j :: 0 <= i < |refs| && 0 <= j < |refs| ==>
                             (j in references[i] <==> Links(index, refs[i], i, j))
  {
    references := seq(|refs|, _ => []);
    CountedNone(references, referrers[..], |refs|);
    for i := 0 to |refs|
      invariant |references| == |refs| && Valid(references) && Counted(references, referrers[..])
      invariant forall k, j :: 0 <= k < i && 0 <= j < |refs| ==> (j in references[k] <==> Links(index, refs[k], k, j))
      invariant forall k :: i <= k < |refs| ==> references[k] == []
    {
      for t := 0 to |refs[i]|
        invariant |references| == |refs| && Valid(references) && Counted(references, referrers[..])
        invariant forall k, j :: 0 <= k < i && 0 <= j < |refs| ==> (j in references[k] <==> Links(index, refs[k], k, j))
        invariant forall j :: 0 <= j < |refs| ==> (j in references[i] <==> Links(index, refs[i][..t], i, j))
        invariant forall k :: i < k < |refs| ==> references[k] == []
      {
        var reference := refs[i][t];
        assert refs[i][..t + 1] == refs[i][..t] + [reference];
        forall j: nat
          ensures Links(index, refs[i][..t + 1], i, j) <==>
                  Links(index, refs[i][..t], i, j) || (i != j && reference in index && index[reference] == j)
        {
          LinksSnoc(index, refs[i][..t], reference, i, j);
        }
        if reference in index && index[reference] != i {
          var j := index[reference];
          CountedPush(references, referrers[..], i, j);
          ghost var was := referrers[..];
          references := references[i := references[i] + [j]];
          referrers[j] := referrers[j] + 1;
          assert referrers[..] == was[j := was[j] + 1];
        }
      }
      assert refs[i][..|refs[i]|] == refs[i];
    }
  }

  lemma PushKeepsOthers(next: Edges, j: nat, i: nat, m: nat, k: nat)
    requires j < |next| && m < |next| && k != i
    ensures k in next[j := next[j] + [i]][m] <==> k in next[m]
  {
  }

  /** The same references listed under their target, and counted at the referrer that waits. */
  method ReferrerEdges<K(==)>(index: map<K, nat>, refs: seq<seq<K>>, waiting: array<nat>)
    returns (referrers: Edges)
    requires waiting.Length == |refs|
    requires forall k :: k in index ==> index[k] < |refs|
    requires forall j :: 0 <= j < |refs| ==> waiting[j] == 0
    modifies waiting
    ensures |referrers| == |refs| && Valid(referrers) && Counted(referrers, waiting[..])
    ensures forall i, j :: 0 <= i < |refs| && 0 <= j < |refs| ==>
                             (i in referrers[j] <==> Links(index, refs[i], i, j))
  {
    referrers := seq(|refs|, _ => []);
    CountedNone(referrers, waiting[..], |refs|);
    for i := 0 to |refs|
      invariant |referrers| == |refs| && Valid(referrers) && Counted(referrers, waiting[..])
      invariant forall k, j :: 0 <= k < i && 0 <= j < |refs| ==>
                                 (k in referrers[j] <==> Links(index, refs[k], k, j))
      invariant forall k, j :: i <= k < |refs| && 0 <= j < |refs| ==> k !in referrers[j]
    {
      for t := 0 to |refs[i]|
        invariant |referrers| == |refs| && Valid(referrers) && Counted(referrers, waiting[..])
        invariant forall k, j :: 0 <= k < i && 0 <= j < |refs| ==>
                                   (k in referrers[j] <==> Links(index, refs[k], k, j))
        invariant forall k, j :: i < k < |refs| && 0 <= j < |refs| ==> k !in referrers[j]
        invariant forall j :: 0 <= j < |refs| ==> (i in referrers[j] <==> Links(index, refs[i][..t], i, j))
      {
        var reference := refs[i][t];
        assert refs[i][..t + 1] == refs[i][..t] + [reference];
        forall j: nat
          ensures Links(index, refs[i][..t + 1], i, j) <==>
                  Links(index, refs[i][..t], i, j) || (i != j && reference in index && index[reference] == j)
        {
          LinksSnoc(index, refs[i][..t], reference, i, j);
        }
        if reference in index && index[reference] != i {
          var j := index[reference];
          CountedPush(referrers, waiting[..], j, i);
          ghost var was, before := waiting[..], referrers;
          referrers := referrers[j := referrers[j] + [i]];
          waiting[i] := waiting[i] + 1;
          assert waiting[..] == was[i := was[i] + 1];
          forall k, m | 0 <= k < |refs| && 0 <= m < |refs| && k != i
            ensures k in referrers[m] <==> k in before[m]
          {
            PushKeepsOthers(before, j, i, m, k);
          }
        }
      }
      assert refs[i][..|refs[i]|] == refs[i];
    }
  }

  // ------------------------------------------------------------ the server's sort

  function At<T>(items: seq<T>, order: seq<nat>): (out: seq<T>)
    requires forall p :: 0 <= p < |order| ==> order[p] < |items|
    ensures |out| == |order| && forall p :: 0 <= p < |out| ==> out[p] == items[order[p]]
  {
    seq(|order|, p requires 0 <= p < |order| => items[order[p]])
  }

  /** The index edges are the reference graph of the batch. */
  ghost predicate Mirrors<N(!new)>(next: Edges, nodes: seq<N>, g: Graph<N>) {
    && |next| == |nodes| && Valid(next)
    && (forall i, j :: 0 <= i < j < |nodes| ==> nodes[i] != nodes[j])
    && (forall i, j :: 0 <= i < |nodes| && 0 <= j < |nodes| ==> (j in next[i] <==> Refers(g, nodes[i], nodes[j])))
    && (forall a, b :: Refers(g, a, b) ==> a in nodes && b in nodes)
  }

  lemma IndexCycleIsCycle<N(!new)>(next: Edges, nodes: seq<N>, g: Graph<N>, q: seq<nat>) returns (p: seq<N>)
    requires Mirrors(next, nodes, g) && Cycle(AsGraph(next), q)
    ensures Cycle(g, p)
  {
    var h := AsGraph(next);
    assert Refers(h, q[0], q[1]);
    forall k | 0 <= k < |q|
      ensures q[k] < |nodes|
    {
      assert k < |q| - 1 ==> Refers(h, q[k], q[k + 1]);
    }
    p := At(nodes, q);
    forall k | 0 <= k < |p| - 1
      ensures Refers(g, p[k], p[k + 1])
    {
      assert Refers(h, q[k], q[k + 1]);
      assert q[k + 1] in next[q[k]];
    }
  }

  lemma CycleIsIndexCycle<N(!new)>(next: Edges, nodes: seq<N>, g: Graph<N>, p: seq<N>) returns (q: seq<nat>)
    requires Mirrors(next, nodes, g) && Cycle(g, p)
    ensures Cycle(AsGraph(next), q)
  {
    var index := Index(nodes);
    assert Refers(g, p[0], p[1]);
    forall k | 0 <= k < |p|
      ensures p[k] in index
    {
      assert k < |p| - 1 ==> Refers(g, p[k], p[k + 1]);
    }
    q := seq(|p|, k requires 0 <= k < |p| => index[p[k]]);
    forall k | 0 <= k < |q| - 1
      ensures Refers(AsGraph(next), q[k], q[k + 1])
    {
      assert Refers(g, p[k], p[k + 1]);
      assert q[k + 1] in next[q[k]];
    }
  }

  lemma MirrorKeepsCycles<N(!new)>(next: Edges, nodes: seq<N>, g: Graph<N>)
    requires Mirrors(next, nodes, g)
    ensures Acyclic(AsGraph(next)) <==> Acyclic(g)
  {
    if q :| Cycle(AsGraph(next), q) {
      var p := IndexCycleIsCycle(next, nodes, g, q);
    }
    if p :| Cycle(g, p) {
      var q := CycleIsIndexCycle(next, nodes, g, p);
    }
  }

  /**
   Prune's order: fails exactly when the doomed objects refer to each other in a
   cycle, and otherwise names every one once, each before the objects it refers to.
   */
  method ReferrersFirstOrder(db: Db, doomed: seq<Hash>) returns (order: Option<seq<nat>>)
    requires forall i, j :: 0 <= i < j < |doomed| ==> doomed[i] != doomed[j]
    requires forall i :: 0 <= i < |doomed| ==> doomed[i] in db.rows
    ensures order.Some? <==> Acyclic(Within(RefGraph(db), Elems(doomed)))
    ensures order.Some? ==>
              && (forall p :: 0 <= p < |order.value| ==> order.value[p] < |doomed|)
              && |order.value| == |doomed|
              && Elems(At(doomed, order.value)) == Elems(doomed)
              && ReferrersFirst(db, At(doomed, order.value))
  {
    var index := Index(doomed);
    var refs := seq(|doomed|, i requires 0 <= i < |doomed| => db.rows[doomed[i]].refs);
    var referrers := new nat[|doomed|](_ => 0);
    var references := ReferenceEdges(index, refs, referrers);
    ServerMirrors(db, doomed, refs, references);
    MirrorKeepsCycles(references, doomed, Within(RefGraph(db), Elems(doomed)));
    var sorted := SortByStack(references, referrers);
    if |sorted| == |doomed| {
      order := Some(sorted);
      SortedHashes(db, doomed, references, sorted);
    } else {
      order := None;
    }
  }

  lemma ServerMirrors(db: Db, doomed: seq<Hash>, refs: seq<seq<Hash>>, references: Edges)
    requires forall i, j :: 0 <= i < j < |doomed| ==> doomed[i] != doomed[j]
    requires forall i :: 0 <= i < |doomed| ==> doomed[i] in db.rows
    requires |refs| == |doomed| && forall i :: 0 <= i < |doomed| ==> refs[i] == db.rows[doomed[i]].refs
    requires |references| == |doomed| && Valid(references)
    requires forall i, j :: 0 <= i < |refs| && 0 <= j < |refs| ==>
                              (j in references[i] <==> Links(Index(doomed), refs[i], i, j))
    ensures Mirrors(references, doomed, Within(RefGraph(db), Elems(doomed)))
  {
    var g := Within(RefGraph(db), Elems(doomed));
    forall i, j | 0 <= i < |doomed| && 0 <= j < |doomed|
      ensures j in references[i] <==> Refers(g, doomed[i], doomed[j])
    {
      WithinRefers(db, doomed, i, j);
      LinkIsReference(doomed, refs[i], i, j);
    }
    WithinStays(db, doomed);
  }

  lemma WithinRefers(db: Db, doomed: seq<Hash>, i: nat, j: nat)
    requires forall m, n :: 0 <= m < n < |doomed| ==> doomed[m] != doomed[n]
    requires i < |doomed| && j < |doomed| && doomed[i] in db.rows
    ensures Refers(Within(RefGraph(db), Elems(doomed)), doomed[i], doomed[j]) <==>
            i != j && doomed[j] in db.rows[doomed[i]].refs
  {
    assert doomed[i] in Elems(doomed) && doomed[j] in Elems(doomed);
  }

  lemma WithinStays(db: Db, doomed: seq<Hash>)
    ensures forall a, b :: Refers(Within(RefGraph(db), Elems(doomed)), a, b) ==> a in doomed && b in doomed
  {
  }

  lemma SortedHashes(db: Db, doomed: seq<Hash>, references: Edges, sorted: seq<nat>)
    requires Mirrors(references, doomed, Within(RefGraph(db), Elems(doomed)))
    requires forall i :: 0 <= i < |doomed| ==> doomed[i] in db.rows
    requires Topological(references, sorted) && |sorted| == |doomed|
    requires forall j :: 0 <= j < |doomed| ==> j in sorted
    ensures Elems(At(doomed, sorted)) == Elems(doomed)
    ensures ReferrersFirst(db, At(doomed, sorted))
  {
    var out, g := At(doomed, sorted), Within(RefGraph(db), Elems(doomed));
    forall h | h in Elems(doomed)
      ensures h in Elems(out)
    {
      var j :| 0 <= j < |doomed| && doomed[j] == h;
      assert j in sorted;
      var p :| 0 <= p < |sorted| && sorted[p] == j;
      assert out[p] == h;
    }
    forall p, q | 0 <= p < q < |out|
      ensures out[p] != out[q] && out[p] !in db.rows[out[q]].refs
    {
      var i, j := sorted[q], sorted[p];
      assert doomed[i] in Elems(doomed) && doomed[j] in Elems(doomed);
      assert i !in sorted[..p];
      assert j !in references[i];
      assert !Refers(g, doomed[i], doomed[j]);
    }
  }

  // ------------------------------------------------------------ the client's sort

  datatype PathInfo = PathInfo(path: string, references: seq<string>)

  predicate Distinct(paths: seq<PathInfo>) {
    forall i, j :: 0 <= i < j < |paths| ==> paths[i].path != paths[j].path
  }

  /** Every reference of `paths[i]` to another path of the batch is to one of `earlier`. */
  predicate ReferencesIn(paths: seq<PathInfo>, i: nat, earlier: seq<PathInfo>)
    requires i < |paths|
  {
    forall r | r in paths[i].references && r != paths[i].path && (exists p | p in paths :: p.path == r) ::
      exists p | p in earlier :: p.path == r
  }

  /** `paths[i]` refers to another path of those at `rest`. */
  ghost predicate WaitsFor(paths: seq<PathInfo>, i: nat, rest: seq<nat>)
    requires i < |paths|
  {
    exists j :: j in rest && j < |paths| && j != i && paths[j].path in paths[i].references
  }

  /**
   The order uploads start in: always a permutation. The first `sorted` paths come
   after the batch paths they refer to; the rest, each of which refers to another of
   the rest, are blocked by a cycle, and keep their original order. `sorted` is all
   of them exactly when there is no cycle.
   */
  method ReferencesFirst(paths: seq<PathInfo>) returns (out: seq<PathInfo>, order: seq<nat>, sorted: nat)
    ensures |order| == |paths| && (forall j :: 0 <= j < |paths| ==> multiset(order)[j] == 1)
    ensures (forall p :: 0 <= p < |order| ==> order[p] < |paths|) && out == At(paths, order)
    ensures sorted <= |order|
    ensures forall p :: 0 <= p < sorted ==> ReferencesIn(paths, order[p], out[..p])
    ensures forall p, q :: sorted <= p < q < |order| ==> order[p] < order[q]
    ensures forall y :: y in order[sorted..] ==> y < |paths| && WaitsFor(paths, y, order[sorted..])
    ensures Distinct(paths) ==> (sorted == |order| <==> Acyclic(BatchGraph(paths)))
  {
    var keys := seq(|paths|, i requires 0 <= i < |paths| => paths[i].path);
    var index := Index(keys);
    var refs := seq(|paths|, i requires 0 <= i < |paths| => paths[i].references);
    var waiting := new nat[|paths|](_ => 0);
    var referrers := ReferrerEdges(index, refs, waiting);
    order, sorted := SortByQueue(referrers, waiting);
    AllBelow(order, |paths|);
    out := At(paths, order);
    ghost var rest := order[sorted..];
    ClientSorted(paths, keys, refs, referrers, order, sorted, out);
    ClientBlocked(paths, keys, refs, referrers, rest);
    ClientCycles(paths, keys, refs, referrers);
  }

  /** Index edges built from the batch's references. */
  ghost predicate FromBatch(paths: seq<PathInfo>, keys: seq<string>, refs: seq<seq<string>>, referrers: Edges) {
    && |keys| == |refs| == |referrers| == |paths| && Valid(referrers)
    && (forall i :: 0 <= i < |paths| ==> keys[i] == paths[i].path && refs[i] == paths[i].references)
    && (forall i, j :: 0 <= i < |refs| && 0 <= j < |refs| ==>
                         (i in referrers[j] <==> Links(Index(keys), refs[i], i, j)))
  }

  lemma ClientSorted(paths: seq<PathInfo>, keys: seq<string>, refs: seq<seq<string>>, referrers: Edges,
                     order: seq<nat>, sorted: nat, out: seq<PathInfo>)
    requires FromBatch(paths, keys, refs, referrers) && |order| == |out| == |paths|
    requires forall q :: 0 <= q < |order| ==> order[q] < |paths| && out[q] == paths[order[q]]
    requires sorted <= |order| && Topological(referrers, order[..sorted])
    ensures forall p :: 0 <= p < sorted ==> ReferencesIn(paths, order[p], out[..p])
  {
    forall p | 0 <= p < sorted
      ensures ReferencesIn(paths, order[p], out[..p])
    {
      PlacedAfterReferences(paths, keys, refs, referrers, order, sorted, out, p);
    }
  }

  lemma ClientBlocked(paths: seq<PathInfo>, keys: seq<string>, refs: seq<seq<string>>, referrers: Edges, rest: seq<nat>)
    requires FromBatch(paths, keys, refs, referrers)
    requires forall y :: y in rest ==> y < |paths| && exists j :: 0 <= j < |referrers| && j in rest && y in referrers[j]
    ensures forall y :: y in rest ==> y < |paths| && WaitsFor(paths, y, rest)
  {
    forall y | y in rest
      ensures y < |paths| && WaitsFor(paths, y, rest)
    {
      BlockedWaits(paths, keys, refs, referrers, rest, y);
    }
  }

  lemma ClientCycles(paths: seq<PathInfo>, keys: seq<string>, refs: seq<seq<string>>, referrers: Edges)
    requires FromBatch(paths, keys, refs, referrers)
    ensures Distinct(paths) ==> (Acyclic(AsGraph(referrers)) <==> Acyclic(BatchGraph(paths)))
  {
    if Distinct(paths) {
      ClientMirrors(paths, keys, refs, referrers);
      MirrorKeepsCycles(referrers, keys, Transposed(BatchGraph(paths)));
      TransposedTwice(BatchGraph(paths));
    }
  }

  lemma BlockedWaits(paths: seq<PathInfo>, keys: seq<string>, refs: seq<seq<string>>, referrers: Edges,
                     rest: seq<nat>, y: nat)
    requires |keys| == |refs| == |referrers| == |paths|
    requires forall i :: 0 <= i < |paths| ==> keys[i] == paths[i].path && refs[i] == paths[i].references
    requires forall i, j :: 0 <= i < |refs| && 0 <= j < |refs| ==>
                              (i in referrers[j] <==> Links(Index(keys), refs[i], i, j))
    requires y in rest && y < |paths|
    requires exists j :: 0 <= j < |referrers| && j in rest && y in referrers[j]
    ensures WaitsFor(paths, y, rest)
  {
    var j :| 0 <= j < |referrers| && j in rest && y in referrers[j];
    assert Links(Index(keys), refs[y], y, j);
    var r :| r in refs[y] && r in Index(keys) && Index(keys)[r] == j;
    assert keys[j] == r;
  }

  /** The batch's own references, by path. */
  function BatchGraph(paths: seq<PathInfo>): Graph<string>
  {
    var names := set p | p in paths :: p.path;
    map n | n in names :: set p, r | p in paths && p.path == n && r in p.references && r in names :: r
  }

  lemma {:induction false} AllBelow(order: seq<nat>, n: nat)
    requires |order| == n && forall j :: 0 <= j < n ==> multiset(order)[j] == 1
    ensures forall p :: 0 <= p < |order| ==> order[p] < n
  {
    var low := Below(n);
    assert low <= Elems(order) by {
      forall j | j in low
        ensures j in Elems(order)
      {
        assert j in multiset(order);
      }
    }
    ElemsAtMost(order);
    SubsetCount(low, Elems(order));
    assert forall p :: 0 <= p < |order| ==> order[p] in Elems(order);
  }

  lemma {:induction false} ElemsAtMost(s: seq<nat>)
    ensures |Elems(s)| <= |s|
  {
    if s != [] {
      var n := |s| - 1;
      ElemsAtMost(s[..n]);
      assert Elems(s) == Elems(s[..n]) + {s[n]};
    }
  }

  lemma TransposedTwice<N(!new)>(g: Graph<N>)
    ensures Acyclic(Transposed(g)) <==> Acyclic(g)
  {
    var back := Transposed(Transposed(g));
    if Acyclic(g) {
      TransposedAcyclic(g);
    }
    if Acyclic(Transposed(g)) {
      TransposedAcyclic(Transposed(g));
    }
    assert forall a, b :: Refers(back, a, b) <==> Refers(Transposed(g), b, a);
    assert forall a, b :: Refers(back, a, b) <==> Refers(g, a, b);
    assert forall p :: Cycle(back, p) <==> Cycle(g, p);
  }

  /** With each path once, the batch graph is the references of each path to the others. */
  lemma BatchRefers(paths: seq<PathInfo>, i: nat, j: nat)
    requires Distinct(paths) && i < |paths| && j < |paths|
    ensures Refers(BatchGraph(paths), paths[i].path, paths[j].path) <==>
            i != j && paths[j].path in paths[i].references
  {
    var names := set p | p in paths :: p.path;
    var a, b := paths[i].path, paths[j].path;
    assert paths[i] in paths && paths[j] in paths;
    assert a in names && b in names;
    assert forall p :: p in paths && p.path == a ==> p == paths[i];
    assert BatchGraph(paths)[a] == set p, r | p in paths && p.path == a && r in p.references && r in names :: r;
    assert b in BatchGraph(paths)[a] <==> b in paths[i].references;
  }

  lemma BatchIsClosed(paths: seq<PathInfo>, keys: seq<string>, a: string, b: string)
    requires |keys| == |paths| && forall i :: 0 <= i < |paths| ==> keys[i] == paths[i].path
    requires Refers(BatchGraph(paths), a, b)
    ensures a in keys && b in keys
  {
    forall p | p in paths
      ensures p.path in keys
    {
      var i :| 0 <= i < |paths| && paths[i] == p;
      assert keys[i] == p.path;
    }
  }

  lemma ClientMirrors(paths: seq<PathInfo>, keys: seq<string>, refs: seq<seq<string>>, referrers: Edges)
    requires Distinct(paths)
    requires |keys| == |refs| == |paths|
    requires forall i :: 0 <= i < |paths| ==> keys[i] == paths[i].path && refs[i] == paths[i].references
    requires |referrers| == |paths| && Valid(referrers)
    requires forall i, j :: 0 <= i < |refs| && 0 <= j < |refs| ==>
                              (i in referrers[j] <==> Links(Index(keys), refs[i], i, j))
    ensures Mirrors(referrers, keys, Transposed(BatchGraph(paths)))
  {
    var g := BatchGraph(paths);
    forall j, i | 0 <= j < |paths| && 0 <= i < |paths|
      ensures i in referrers[j] <==> Refers(Transposed(g), keys[j], keys[i])
    {
      BatchRefers(paths, i, j);
      LinkIsReference(keys, refs[i], i, j);
    }
    forall a, b | Refers(Transposed(g), b, a)
      ensures a in keys && b in keys
    {
      BatchIsClosed(paths, keys, a, b);
    }
  }

  lemma PlacedAfterReferences(paths: seq<PathInfo>, keys: seq<string>, refs: seq<seq<string>>, referrers: Edges,
                              order: seq<nat>, sorted: nat, out: seq<PathInfo>, p: nat)
    requires |keys| == |refs| == |referrers| == |paths| == |order| == |out|
    requires forall i :: 0 <= i < |paths| ==> keys[i] == paths[i].path && refs[i] == paths[i].references
    requires forall i, j :: 0 <= i < |refs| && 0 <= j < |refs| ==>
                              (i in referrers[j] <==> Links(Index(keys), refs[i], i, j))
    requires forall q :: 0 <= q < |order| ==> order[q] < |paths| && out[q] == paths[order[q]]
    requires p < sorted <= |order| && Topological(referrers, order[..sorted])
    ensures ReferencesIn(paths, order[p], out[..p])
  {
    var i, index := order[p], Index(keys);
    forall r | r in paths[i].references && r != paths[i].path && (exists q | q in paths :: q.path == r)
      ensures exists q | q in out[..p] :: q.path == r
    {
      var q :| q in paths && q.path == r;
      var k :| 0 <= k < |paths| && paths[k] == q;
      assert keys[k] == r && r in keys;
      var j := index[r];
      assert Links(index, refs[i], i, j);
      assert i in referrers[j] && order[..sorted][p] == i;
      assert j in order[..sorted][..p];
      var m :| 0 <= m < p && order[m] == j;
      assert out[..p][m] == paths[j] && paths[j].path == r;
    }
  }
}
