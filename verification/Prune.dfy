/**
 Prune marks from the roots that stay; GC deletes unreferenced objects one by
 one. The two come to the same set, whatever the order of the deletions, exactly
 if what prune marks forms no cycle.
 */
module Prune {
  import opened Basics
  import opened Graphs
  import opened Catalog

  /** With `gone` deleted, `h` is old, unpinned, and no other survivor refers to it. */
  ghost predicate Deletable(db: Db, gone: set<Hash>, h: Hash, before: int, now: int) {
    && h in db.rows && h !in gone
    && db.rows[h].pushedAt < before
    && !Pinned(db, h, now)
    && forall x :: x in db.rows && x !in gone && x != h ==> h !in db.rows[x].refs
  }

  /** Deleting `d` in order only ever takes a deletable object. */
  ghost predicate RootFirst(db: Db, before: int, now: int, d: seq<Hash>) {
    forall i :: 0 <= i < |d| ==> Deletable(db, Elems(d[..i]), d[i], before, now)
  }

  ghost predicate Exhausted(db: Db, gone: set<Hash>, before: int, now: int) {
    forall h :: !Deletable(db, gone, h, before, now)
  }

  /** Nothing a root reaches is ever deletable, cycles or not. */
  lemma DeletableIsUnmarked(db: Db, gone: set<Hash>, h: Hash, before: int, now: int)
    requires gone <= Prunable(db, before, now)
    requires Deletable(db, gone, h, before, now)
    ensures h in Prunable(db, before, now)
  {
    var g, roots := RefGraph(db), Roots(db, before, now);
    var marked := Mark(g, roots);
    MarkIsClosed(g, roots);
    var without := marked - {h};
    forall x, y | x in without && Edge(g, x, y)
      ensures y in without
    {
      assert y in Successors(g, marked);
    }
    MarkIsLeast(g, roots, without);
  }

  lemma {:induction false} RootFirstIsUnmarked(db: Db, before: int, now: int, d: seq<Hash>)
    requires RootFirst(db, before, now, d)
    ensures Elems(d) <= Prunable(db, before, now)
  {
    if d != [] {
      var n := |d| - 1;
      var front := d[..n];
      forall i | 0 <= i < |front|
        ensures Deletable(db, Elems(front[..i]), front[i], before, now)
      {
        assert front[..i] == d[..i];
      }
      RootFirstIsUnmarked(db, before, now, front);
      DeletableIsUnmarked(db, Elems(front), d[n], before, now);
      assert Elems(d) == Elems(front) + {d[n]};
    }
  }

  /** Without a cycle among the unmarked, deletion gets stuck only once they are all gone. */
  lemma ExhaustedIsMarked(db: Db, gone: set<Hash>, before: int, now: int)
    requires Acyclic(Within(RefGraph(db), Prunable(db, before, now)))
    requires gone <= Prunable(db, before, now)
    requires Exhausted(db, gone, before, now)
    ensures gone == Prunable(db, before, now)
  {
    var doomed := Prunable(db, before, now);
    var g := Within(RefGraph(db), doomed);
    var left := doomed - gone;
    if left == {} {
      assert forall h :: h in doomed ==> h in gone || h in left;
    } else {
      PrunableIsClosed(db, before, now);
      var y := SourceExists(g, left);
      forall x | x in db.rows && x !in gone && x != y
        ensures y !in db.rows[x].refs
      {
        assert x in doomed ==> (Refers(g, x, y) <==> y in db.rows[x].refs);
        assert x in left ==> !Refers(g, x, y);
      }
      assert Deletable(db, gone, y, before, now);
    }
  }

  /** The node before `p[m]` on a cycle. */
  lemma CycleEnters(g: Graph<Hash>, p: seq<Hash>, m: nat) returns (x: Hash)
    requires Cycle(g, p) && m < |p|
    ensures x in p && Refers(g, x, p[m])
  {
    var k := if m == 0 then |p| - 2 else m - 1;
    assert Refers(g, p[k], p[k + 1]);
    x := p[k];
  }

  /** Root-first deletion never takes a member of a cycle. */
  lemma {:induction false} CyclesStay(db: Db, before: int, now: int, d: seq<Hash>, p: seq<Hash>, k: nat)
    requires RootFirst(db, before, now, d) && Cycle(RefGraph(db), p) && k <= |d|
    ensures forall i :: 0 <= i < k ==> d[i] !in p
  {
    if k > 0 {
      CyclesStay(db, before, now, d, p, k - 1);
      var h, gone := d[k - 1], Elems(d[..k - 1]);
      assert Deletable(db, gone, h, before, now);
      assert forall x :: x in p ==> x !in gone;
      if h in p {
        var m :| 0 <= m < |p| && p[m] == h;
        var x := CycleEnters(RefGraph(db), p, m);
        assert false;
      }
    }
  }

  lemma WithinCycle(g: Graph<Hash>, s: set<Hash>, p: seq<Hash>)
    requires Cycle(Within(g, s), p)
    ensures Cycle(g, p) && p[0] in s
  {
    assert Refers(Within(g, s), p[0], p[1]);
    forall i | 0 <= i < |p| - 1
      ensures Refers(g, p[i], p[i + 1])
    {
      assert Refers(Within(g, s), p[i], p[i + 1]);
    }
  }

  /**
   Prune's one-pass mark is what repeated root-first deletion removes, in any order,
   once nothing more can go: exactly if the objects it marks form no cycle.
   Cycles among what stays do not matter.
   */
  lemma MarkEqualsRootFirst(db: Db, before: int, now: int, d: seq<Hash>)
    requires RootFirst(db, before, now, d) && Exhausted(db, Elems(d), before, now)
    ensures Elems(d) == Prunable(db, before, now) <==> Acyclic(Within(RefGraph(db), Prunable(db, before, now)))
  {
    var doomed := Prunable(db, before, now);
    RootFirstIsUnmarked(db, before, now, d);
    if Acyclic(Within(RefGraph(db), doomed)) {
      ExhaustedIsMarked(db, Elems(d), before, now);
    } else {
      var p :| Cycle(Within(RefGraph(db), doomed), p);
      WithinCycle(RefGraph(db), doomed, p);
      CyclesStay(db, before, now, d, p, |d|);
      assert p[0] in doomed && p[0] !in Elems(d);
    }
  }

  /**
   A cycle among old, unpinned objects is what separates the two: prune marks it
   for deletion, and no root-first deletion ever gets there.
   */
  lemma MarkExceedsRootFirstOnCycle(now: int)
    ensures exists db, before :: Sound(db)
              && Exhausted(db, {}, before, now) && Prunable(db, before, now) != {}
  {
    var a, b := Hash("a"), Hash("b");
    var row := Row([b], Sha256([]), 0, 0, 0, now - 1);
    var db := Db(map[a := row, b := row.(refs := [a])], map[], 0);
    SumWithout(db.rows, a);
    SumWithout(db.rows - {a}, b);
    assert db.rows - {a} - {b} == map[];
    assert Sound(db);
    forall h
      ensures !Deletable(db, {}, h, now, now)
    {
      if h == a {
        assert h in db.rows[b].refs;
      } else if h == b {
        assert h in db.rows[a].refs;
      }
    }
    assert Exhausted(db, {}, now, now);
    var g := RefGraph(db);
    assert Roots(db, now, now) == {};
    assert Closed(g, {});
    MarkIsLeast(g, {}, {});
    assert a in Prunable(db, now, now);
  }

  /** Any order of prune's set with every referrer before its references is a root-first deletion. */
  lemma ReferrersFirstIsRootFirst(db: Db, before: int, now: int, d: seq<Hash>)
    requires Elems(d) == Prunable(db, before, now)
    requires forall i, j :: 0 <= i < j < |d| ==> d[i] != d[j]
    requires forall i, j :: 0 <= i < j < |d| && d[j] in db.rows ==> d[i] !in db.rows[d[j]].refs
    ensures RootFirst(db, before, now, d) && Exhausted(db, Elems(d), before, now)
  {
    PrunableIsClosed(db, before, now);
    forall i | 0 <= i < |d|
      ensures Deletable(db, Elems(d[..i]), d[i], before, now)
    {
      assert d[i] in Elems(d);
      forall x | x in db.rows && x !in Elems(d[..i]) && x != d[i]
        ensures d[i] !in db.rows[x].refs
      {
        if x in Elems(d) {
          var k :| 0 <= k < |d| && d[k] == x;
          assert forall m :: 0 <= m < i ==> d[m] in d[..i];
        }
      }
    }
    forall h
      ensures !Deletable(db, Elems(d), h, before, now)
    {
      if Deletable(db, Elems(d), h, before, now) {
        DeletableIsUnmarked(db, Elems(d), h, before, now);
      }
    }
  }

  // ------------------------------------------------------------ deletion seen from the database

  /** Deletability after some deletions is deletability in the database they left. */
  lemma DeletableAfter(db: Db, gone: set<Hash>, left: Db, h: Hash, now: int)
    requires left.rows == db.rows - gone
    requires left.pins == PinsWithout(db.pins, gone)
    ensures Evictable(left, h, now) <==> Deletable(db, gone, h, now - PUSH_GRACE, now)
  {
    if h in left.rows {
      forall n | n in db.pins && db.pins[n].hash == h && Live(db.pins[n], now)
        ensures n in left.pins && left.pins[n] == db.pins[n]
      {
      }
      assert Pinned(db, h, now) <==> Pinned(left, h, now);
      assert Referenced(left, h) <==>
             exists x :: x in db.rows && x !in gone && x != h && h in db.rows[x].refs by {
        forall x | x in db.rows && x !in gone && x != h && h in db.rows[x].refs
          ensures Referenced(left, h)
        {
          assert x in left.rows && left.rows[x] == db.rows[x];
        }
      }
    }
  }

  /** A root-first deletion stays one as time passes: pins expire and grace runs out, never the reverse. */
  lemma RootFirstLater(db: Db, earlier: int, now: int, d: seq<Hash>)
    requires earlier <= now
    requires RootFirst(db, earlier - PUSH_GRACE, earlier, d)
    ensures RootFirst(db, now - PUSH_GRACE, now, d)
  {
    forall i | 0 <= i < |d|
      ensures Deletable(db, Elems(d[..i]), d[i], now - PUSH_GRACE, now)
    {
      var h := d[i];
      assert Deletable(db, Elems(d[..i]), h, earlier - PUSH_GRACE, earlier);
      assert Pinned(db, h, now) ==> Pinned(db, h, earlier);
    }
  }
}
