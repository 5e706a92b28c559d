/**
 Kahn's algorithm as both ends run it over a batch of objects: the server takes
 ready objects off a stack and refuses a cycle, the client takes them in turn and
 appends whatever a cycle blocks. Edges carry multiplicity; self-edges and
 references outside the batch are left out when the edges are built.
 */
module Kahn {
  import opened Basics
  import opened Graphs

  /** `next[i]`: the indexes waiting on `i`, once per edge. */
  type Edges = seq<seq<nat>>

  predicate Valid(next: Edges) {
    forall i, k :: 0 <= i < |next| && 0 <= k < |next[i]| ==> next[i][k] < |next| && next[i][k] != i
  }

  function AsGraph(next: Edges): Graph<nat> {
    map i: nat | 0 <= i < |next| :: set j | j in next[i]
  }

  /** Edges into `j` from the first `n` indexes, those in `done` left out. */
  function InDegree(next: Edges, done: set<nat>, j: nat, n: nat): nat
    requires n <= |next|
  {
    if n == 0 then 0 else
      InDegree(next, done, j, n - 1) + if n - 1 in done then 0 else multiset(next[n - 1])[j]
  }

  lemma {:induction false} InDegreeDone(next: Edges, done: set<nat>, i: nat, j: nat, n: nat)
    requires n <= |next| && i < |next| && i !in done
    ensures InDegree(next, done, j, n)
            == InDegree(next, done + {i}, j, n) + if i < n then multiset(next[i])[j] else 0
  {
    if n > 0 {
      InDegreeDone(next, done, i, j, n - 1);
    }
  }

  lemma {:induction false} InDegreeZero(next: Edges, done: set<nat>, j: nat, n: nat)
    requires n <= |next|
    ensures InDegree(next, done, j, n) == 0 <==> forall i :: 0 <= i < n && i !in done ==> j !in next[i]
  {
    if n > 0 {
      InDegreeZero(next, done, j, n - 1);
    }
  }

  lemma {:induction false} InDegreePush(next: Edges, i: nat, k: nat, j: nat, n: nat)
    requires n <= |next| && i < |next|
    ensures InDegree(next[i := next[i] + [k]], {}, j, n)
            == InDegree(next, {}, j, n) + if i < n && j == k then 1 else 0
  {
    if n > 0 {
      InDegreePush(next, i, k, j, n - 1);
    }
  }

  /** Each index at most once, and after every index it waits on. */
  ghost predicate Topological(next: Edges, order: seq<nat>) {
    && (forall p :: 0 <= p < |order| ==> order[p] < |next|)
    && (forall p, q :: 0 <= p < q < |order| ==> order[p] != order[q])
    && (forall p, i :: 0 <= p < |order| && 0 <= i < |next| && order[p] in next[i] ==> i in order[..p])
  }

  /** What Kahn's loop keeps: exactly the indexes waiting on nothing unprocessed are placed, once each. */
  ghost predicate Settled(next: Edges, done: set<nat>, placed: multiset<nat>, waiting: seq<nat>) {
    && |waiting| == |next|
    && (forall j :: 0 <= j < |next| ==> waiting[j] == InDegree(next, done, j, |next|))
    && (forall j :: 0 <= j < |next| ==> placed[j] == if waiting[j] == 0 then 1 else 0)
    && (forall j :: j in placed ==> j < |next|)
  }

  /** Whatever is left at the end waits on something else that is left: a cycle. */
  lemma BlockedHasCycle(next: Edges, order: seq<nat>, waiting: seq<nat>)
    requires Valid(next) && Settled(next, Elems(order), multiset(order), waiting)
    requires exists j: nat :: j < |next| && j !in order
    ensures !Acyclic(AsGraph(next))
  {
    var left := Below(|next|) - Elems(order);
    forall y | y in left
      ensures Preceded(AsGraph(next), left, y)
    {
      assert y !in multiset(order);
      InDegreeZero(next, Elems(order), y, |next|);
      var i: nat :| i < |next| && i !in Elems(order) && y in next[i];
      assert i in left && Refers(AsGraph(next), i, y);
    }
    var j: nat :| j < |next| && j !in order;
    assert j in left;
    var p := CycleExists(AsGraph(next), left);
  }

  lemma {:induction false} PositionsRise(next: Edges, order: seq<nat>, p: seq<nat>, k: nat) returns (q: nat)
    requires Valid(next) && Topological(next, order)
    requires forall j :: 0 <= j < |next| ==> j in order
    requires Cycle(AsGraph(next), p) && k < |p|
    ensures q < |order| && order[q] == p[k]
    ensures k > 0 ==> exists r :: 0 <= r < q && order[r] == p[0]
  {
    assert forall m :: 0 <= m < |p| - 1 ==> Refers(AsGraph(next), p[m], p[m + 1]);
    assert Refers(AsGraph(next), p[0], p[1]);
    if k == 0 {
      assert p[0] in order;
      q :| 0 <= q < |order| && order[q] == p[0];
    } else {
      var before := PositionsRise(next, order, p, k - 1);
      assert Refers(AsGraph(next), p[k - 1], p[k]);
      assert p[k] in next[p[k - 1]];
      assert p[k] in order;
      q :| 0 <= q < |order| && order[q] == p[k];
      assert p[k - 1] in order[..q];
      var r :| 0 <= r < q && order[r] == p[k - 1];
      assert r == before;
    }
  }

  /** A topological order of everything rules a cycle out. */
  lemma OrderedIsAcyclic(next: Edges, order: seq<nat>)
    requires Valid(next) && Topological(next, order)
    requires forall j :: 0 <= j < |next| ==> j in order
    ensures Acyclic(AsGraph(next))
  {
    forall p | Cycle(AsGraph(next), p)
      ensures false
    {
      var last := PositionsRise(next, order, p, |p| - 1);
    }
  }

  lemma {:induction false} CountElems(s: seq<nat>)
    requires forall x :: x in multiset(s) ==> multiset(s)[x] == 1
    ensures |Elems(s)| == |s|
  {
    if s != [] {
      var n := |s| - 1;
      assert s == s[..n] + [s[n]];
      assert multiset(s) == multiset(s[..n]) + multiset{s[n]};
      assert multiset(s)[s[n]] == 1;
      assert s[n] !in multiset(s[..n]);
      forall x | x in multiset(s[..n])
        ensures multiset(s[..n])[x] == 1
      {
        assert x in multiset(s);
      }
      CountElems(s[..n]);
      assert Elems(s) == Elems(s[..n]) + {s[n]};
    }
  }

  function Below(n: nat): (s: set<nat>)
    ensures forall j: nat :: j in s <==> j < n
    ensures |s| == n
  {
    if n == 0 then {} else Below(n - 1) + {n - 1}
  }

  /** Distinct indexes below `n`: at most `n` of them, and all of them only if `n`. */
  lemma Complete(order: seq<nat>, n: nat)
    requires forall j :: j in multiset(order) ==> j < n && multiset(order)[j] == 1
    ensures |order| <= n
    ensures |order| == n <==> forall j :: 0 <= j < n ==> j in order
  {
    var all := Below(n);
    CountElems(order);
    assert forall x :: x in Elems(order) ==> x in multiset(order);
    SubsetCount(Elems(order), all);
    if |order| == n {
      forall j | 0 <= j < n
        ensures j in order
      {
        assert j in all;
      }
    }
    if all <= Elems(order) {
      SubsetCount(all, Elems(order));
    }
  }

  // ------------------------------------------------------------ the loops

  /** One index processed: every edge out of it is counted off; the indexes that became ready, in turn. */
  method CountOff(edges: seq<nat>, waiting: array<nat>) returns (freed: seq<nat>)
    requires forall k :: 0 <= k < |edges| ==> edges[k] < waiting.Length
    requires forall j :: 0 <= j < waiting.Length ==> waiting[j] >= multiset(edges)[j]
    modifies waiting
    ensures forall j :: 0 <= j < waiting.Length ==> waiting[j] + multiset(edges)[j] == old(waiting[j])
    ensures forall j :: j in multiset(freed) ==> j < waiting.Length
    ensures forall j :: 0 <= j < waiting.Length ==>
                          multiset(freed)[j] == if old(waiting[j]) > 0 && waiting[j] == 0 then 1 else 0
  {
    freed := [];
    for t := 0 to |edges|
      invariant forall j :: 0 <= j < waiting.Length ==> waiting[j] + multiset(edges[..t])[j] == old(waiting[j])
      invariant forall j :: j in multiset(freed) ==> j < waiting.Length
      invariant forall j :: 0 <= j < waiting.Length ==>
                              multiset(freed)[j] == if old(waiting[j]) > 0 && waiting[j] == 0 then 1 else 0
    {
      var j := edges[t];
      assert edges[..t + 1] == edges[..t] + [j];
      assert edges == edges[..t + 1] + edges[t + 1..];
      waiting[j] := waiting[j] - 1;
      if waiting[j] == 0 {
        freed := freed + [j];
      }
    }
    assert edges[..|edges|] == edges;
  }

  /** A ready index is not yet processed, and its edges are all still counted: no counter underflows. */
  lemma CanTake(next: Edges, order: seq<nat>, rest: multiset<nat>, waiting: seq<nat>, i: nat)
    requires Settled(next, Elems(order), multiset(order) + multiset{i} + rest, waiting)
    ensures i < |next| && i !in order
    ensures forall j :: 0 <= j < |next| ==> waiting[j] >= multiset(next[i])[j]
  {
    var placed := multiset(order) + multiset{i} + rest;
    assert i in placed && placed[i] == 1;
    assert i !in multiset(order);
    forall j | 0 <= j < |next|
      ensures waiting[j] >= multiset(next[i])[j]
    {
      InDegreeDone(next, Elems(order), i, j, |next|);
    }
  }

  /** Edges of one processed index counted off, and the indexes they freed placed. */
  ghost predicate CountedOff(next: Edges, waiting: seq<nat>, i: nat, freed: multiset<nat>, after: seq<nat>) {
    && i < |next| && |waiting| == |after| == |next|
    && (forall j :: 0 <= j < |next| ==> after[j] + multiset(next[i])[j] == waiting[j])
    && (forall j :: j in freed ==> j < |next|)
    && (forall j :: 0 <= j < |next| ==> freed[j] == if waiting[j] > 0 && after[j] == 0 then 1 else 0)
  }

  lemma TakenSettles(next: Edges, order: seq<nat>, rest: multiset<nat>, waiting: seq<nat>,
                     i: nat, freed: multiset<nat>, after: seq<nat>)
    requires Settled(next, Elems(order), multiset(order) + multiset{i} + rest, waiting)
    requires CountedOff(next, waiting, i, freed, after)
    ensures Settled(next, Elems(order + [i]), multiset(order + [i]) + (rest + freed), after)
  {
    CanTake(next, order, rest, waiting, i);
    var more := order + [i];
    assert Elems(more) == Elems(order) + {i};
    forall j | 0 <= j < |next|
      ensures after[j] == InDegree(next, Elems(more), j, |next|)
    {
      InDegreeDone(next, Elems(order), i, j, |next|);
    }
    assert multiset(more) + (rest + freed) == (multiset(order) + multiset{i} + rest) + freed;
  }

  lemma TakenIsTopological(next: Edges, order: seq<nat>, rest: multiset<nat>, waiting: seq<nat>, i: nat)
    requires Settled(next, Elems(order), multiset(order) + multiset{i} + rest, waiting)
    requires Topological(next, order)
    ensures Topological(next, order + [i])
  {
    CanTake(next, order, rest, waiting, i);
    var more := order + [i];
    assert i in multiset(order) + multiset{i} + rest;
    InDegreeZero(next, Elems(order), i, |next|);
    forall p, j | 0 <= p < |more| && 0 <= j < |next| && more[p] in next[j]
      ensures j in more[..p]
    {
      assert more[..p] == order[..p];
    }
  }

  lemma TakenFits(next: Edges, order: seq<nat>, rest: multiset<nat>, waiting: seq<nat>, i: nat)
    requires Settled(next, Elems(order), multiset(order) + multiset{i} + rest, waiting)
    ensures |order| < |next|
  {
    var more: seq<nat> := order + [i];
    var items: multiset<nat> := multiset(more);
    var placed := multiset(order) + multiset{i} + rest;
    assert items == multiset(order) + multiset{i};
    forall j: nat | j in items
      ensures j < |next| && items[j] == 1
    {
      assert j in placed && placed[j] == 1;
    }
    Complete(more, |next|);
  }

  /** The indexes of `waiting` at zero (or above it), lowest first. */
  method Select(waiting: array<nat>, zero: bool) returns (chosen: seq<nat>)
    ensures forall p, q :: 0 <= p < q < |chosen| ==> chosen[p] < chosen[q]
    ensures forall j :: j in multiset(chosen) ==> j < waiting.Length
    ensures forall j :: 0 <= j < waiting.Length ==>
                          multiset(chosen)[j] == if (waiting[j] == 0) == zero then 1 else 0
  {
    chosen := [];
    for i := 0 to waiting.Length
      invariant forall p :: 0 <= p < |chosen| ==> chosen[p] < i
      invariant forall p, q :: 0 <= p < q < |chosen| ==> chosen[p] < chosen[q]
      invariant forall j :: j in multiset(chosen) ==> j < i
      invariant forall j :: 0 <= j < i ==> multiset(chosen)[j] == if (waiting[j] == 0) == zero then 1 else 0
    {
      if (waiting[i] == 0) == zero {
        chosen := chosen + [i];
      }
    }
  }

  /** Between two indexes: `front` is processed, in topological order, and `ready` is next. */
  ghost predicate Sorting(next: Edges, front: seq<nat>, ready: seq<nat>, waiting: seq<nat>) {
    Topological(next, front) && Settled(next, Elems(front), multiset(front) + multiset(ready), waiting)
  }

  lemma SortBegins(next: Edges, queue: seq<nat>, waiting: seq<nat>)
    requires Settled(next, {}, multiset(queue), waiting)
    ensures Sorting(next, [], queue, waiting)
  {
    var none: seq<nat> := [];
    assert Elems(none) == {} && multiset(none) + multiset(queue) == multiset(queue);
  }

  lemma SortEnds(next: Edges, front: seq<nat>, waiting: seq<nat>)
    requires Sorting(next, front, [], waiting)
    ensures Settled(next, Elems(front), multiset(front), waiting)
  {
    var none: seq<nat> := [];
    assert multiset(front) + multiset(none) == multiset(front);
  }

  /**
   The server's loop (a stack): every index in topological order, unless a cycle
   leaves some index waiting.
   */
  method SortByStack(next: Edges, waiting: array<nat>) returns (order: seq<nat>)
    requires Valid(next) && waiting.Length == |next|
    requires forall j :: 0 <= j < |next| ==> waiting[j] == InDegree(next, {}, j, |next|)
    modifies waiting
    ensures Topological(next, order)
    ensures |order| == |next| <==> Acyclic(AsGraph(next))
    ensures |order| == |next| <==> forall j :: 0 <= j < |next| ==> j in order
  {
    var ready := Select(waiting, true);
    order := [];
    SortBegins(next, ready, waiting[..]);
    while ready != []
      invariant Sorting(next, order, ready, waiting[..])
      decreases |next| - |order|
    {
      ghost var was := waiting[..];
      var i := ready[|ready| - 1];
      StackTop(next, order, ready, was);
      var freed := CountOff(next[i], waiting);
      StackAdvances(next, order, ready, was, freed, waiting[..]);
      order, ready := order + [i], ready[..|ready| - 1] + freed;
    }
    SortEnds(next, order, waiting[..]);
    StackIsDone(next, order, waiting[..]);
  }

  lemma StackSplits(order: seq<nat>, stack: seq<nat>)
    requires stack != []
    ensures var n := |stack| - 1;
            multiset(order) + multiset(stack) == multiset(order) + multiset{stack[n]} + multiset(stack[..n])
  {
    assert stack == stack[..|stack| - 1] + [stack[|stack| - 1]];
  }

  lemma StackTop(next: Edges, order: seq<nat>, stack: seq<nat>, waiting: seq<nat>)
    requires stack != [] && Sorting(next, order, stack, waiting)
    ensures var i := stack[|stack| - 1];
            && i < |next| && |order| < |next| && Topological(next, order + [i])
            && forall j :: 0 <= j < |next| ==> waiting[j] >= multiset(next[i])[j]
  {
    var n := |stack| - 1;
    var i, rest := stack[n], multiset(stack[..n]);
    StackSplits(order, stack);
    CanTake(next, order, rest, waiting, i);
    TakenIsTopological(next, order, rest, waiting, i);
    TakenFits(next, order, rest, waiting, i);
  }

  lemma StackAdvances(next: Edges, order: seq<nat>, stack: seq<nat>, waiting: seq<nat>,
                      freed: seq<nat>, after: seq<nat>)
    requires stack != [] && Sorting(next, order, stack, waiting)
    requires CountedOff(next, waiting, stack[|stack| - 1], multiset(freed), after)
    ensures Sorting(next, order + [stack[|stack| - 1]], stack[..|stack| - 1] + freed, after)
  {
    var n := |stack| - 1;
    StackSplits(order, stack);
    StackTop(next, order, stack, waiting);
    TakenSettles(next, order, multiset(stack[..n]), waiting, stack[n], multiset(freed), after);
  }

  lemma StackIsDone(next: Edges, order: seq<nat>, waiting: seq<nat>)
    requires Valid(next) && Topological(next, order)
    requires Settled(next, Elems(order), multiset(order), waiting)
    ensures |order| == |next| <==> Acyclic(AsGraph(next))
    ensures |order| == |next| <==> forall j :: 0 <= j < |next| ==> j in order
  {
    Complete(order, |next|);
    if |order| == |next| {
      OrderedIsAcyclic(next, order);
    } else {
      var j :| 0 <= j < |next| && j !in order;
      var k: nat := j;
      assert k !in order;
      BlockedHasCycle(next, order, waiting);
    }
  }

  lemma Regroup(front: seq<nat>, queue: seq<nat>, more: seq<nat>)
    requires queue != []
    ensures front + queue + more == (front + [queue[0]]) + (queue[1..] + more)
  {
  }

  lemma QueueSplits(front: seq<nat>, queue: seq<nat>)
    requires queue != []
    ensures multiset(front) + multiset(queue) == multiset(front) + multiset{queue[0]} + multiset(queue[1..])
  {
    assert queue == [queue[0]] + queue[1..];
  }

  lemma QueueHead(next: Edges, front: seq<nat>, queue: seq<nat>, waiting: seq<nat>)
    requires queue != [] && Sorting(next, front, queue, waiting)
    ensures queue[0] < |next| && |front| < |next| && Topological(next, front + [queue[0]])
    ensures forall j :: 0 <= j < |next| ==> waiting[j] >= multiset(next[queue[0]])[j]
  {
    var i, rest := queue[0], multiset(queue[1..]);
    QueueSplits(front, queue);
    CanTake(next, front, rest, waiting, i);
    TakenIsTopological(next, front, rest, waiting, i);
    TakenFits(next, front, rest, waiting, i);
  }

  lemma QueueAdvances(next: Edges, order: seq<nat>, front: seq<nat>, queue: seq<nat>, waiting: seq<nat>,
                      freed: seq<nat>, after: seq<nat>)
    requires queue != [] && Sorting(next, front, queue, waiting) && order == front + queue
    requires CountedOff(next, waiting, queue[0], multiset(freed), after)
    ensures Sorting(next, front + [queue[0]], queue[1..] + freed, after)
    ensures order + freed == (front + [queue[0]]) + (queue[1..] + freed)
  {
    QueueSplits(front, queue);
    QueueHead(next, front, queue, waiting);
    TakenSettles(next, front, multiset(queue[1..]), waiting, queue[0], multiset(freed), after);
    Regroup(front, queue, freed);
  }

  /** The client's loop (a queue): processed indexes stay at the front of the one list. */
  method DrainQueue(next: Edges, waiting: array<nat>) returns (order: seq<nat>)
    requires Valid(next) && waiting.Length == |next|
    requires forall j :: 0 <= j < |next| ==> waiting[j] == InDegree(next, {}, j, |next|)
    modifies waiting
    ensures Topological(next, order)
    ensures Settled(next, Elems(order), multiset(order), waiting[..])
  {
    order := Select(waiting, true);
    var n := 0;
    ghost var front: seq<nat>, queue := [], order;
    SortBegins(next, queue, waiting[..]);
    while n < |order|
      invariant order == front + queue && |front| == n
      invariant Sorting(next, front, queue, waiting[..])
      decreases |next| - n
    {
      ghost var was := waiting[..];
      var i := order[n];
      assert queue != [] && queue[0] == i;
      QueueHead(next, front, queue, was);
      var freed := CountOff(next[i], waiting);
      QueueAdvances(next, order, front, queue, was, freed, waiting[..]);
      n, order := n + 1, order + freed;
      front, queue := front + [i], queue[1..] + freed;
    }
    assert queue == [] && order == front;
    SortEnds(next, front, waiting[..]);
  }

  /**
   The client's sort: the topological part first, then whatever a cycle blocks,
   in the original order. Always a permutation.
   */
  method SortByQueue(next: Edges, waiting: array<nat>) returns (order: seq<nat>, sorted: nat)
    requires Valid(next) && waiting.Length == |next|
    requires forall j :: 0 <= j < |next| ==> waiting[j] == InDegree(next, {}, j, |next|)
    modifies waiting
    ensures |order| == |next| && forall j :: 0 <= j < |next| ==> multiset(order)[j] == 1
    ensures sorted <= |order| && Topological(next, order[..sorted])
    ensures forall p, q :: sorted <= p < q < |order| ==> order[p] < order[q]
    ensures forall y :: y in order[sorted..] ==> exists j :: 0 <= j < |next| && j in order[sorted..] && y in next[j]
    ensures sorted == |order| <==> Acyclic(AsGraph(next))
  {
    var placed := DrainQueue(next, waiting);
    var blocked := Select(waiting, false);
    BlockedComeLast(next, placed, waiting[..], blocked);
    order, sorted := placed + blocked, |placed|;
    assert order[..sorted] == placed && order[sorted..] == blocked;
  }

  lemma BlockedComeLast(next: Edges, placed: seq<nat>, waiting: seq<nat>, blocked: seq<nat>)
    requires Valid(next) && Settled(next, Elems(placed), multiset(placed), waiting) && Topological(next, placed)
    requires forall j :: j in multiset(blocked) ==> j < |next|
    requires forall j :: 0 <= j < |next| ==> multiset(blocked)[j] == if waiting[j] == 0 then 0 else 1
    ensures forall j :: 0 <= j < |next| ==> multiset(placed + blocked)[j] == 1
    ensures |placed + blocked| == |next|
    ensures forall y :: y in blocked ==> exists j :: 0 <= j < |next| && j in blocked && y in next[j]
    ensures blocked == [] <==> Acyclic(AsGraph(next))
  {
    var order := placed + blocked;
    assert multiset(order) == multiset(placed) + multiset(blocked);
    forall j | 0 <= j < |next|
      ensures j in order
    {
      assert j in multiset(order);
    }
    Complete(order, |next|);
    forall y | y in blocked
      ensures exists j :: 0 <= j < |next| && j in blocked && y in next[j]
    {
      assert y in multiset(blocked);
      InDegreeZero(next, Elems(placed), y, |next|);
      var i :| 0 <= i < |next| && i !in Elems(placed) && y in next[i];
      assert i !in multiset(placed);
      assert i in multiset(blocked);
    }
    if blocked == [] {
      assert order == placed;
      OrderedIsAcyclic(next, placed);
    } else {
      var y: nat := blocked[0];
      assert y in multiset(blocked);
      assert y !in multiset(placed);
      assert y !in placed;
      BlockedHasCycle(next, placed, waiting);
    }
  }
}
