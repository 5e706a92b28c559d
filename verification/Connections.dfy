/**
 The Pusher's connection: the database of the catalog as an object whose methods
 are its transactions, each proved against what the catalog says it does.
 */
module Connections {
  import opened Basics
  import opened Graphs
  import opened Catalog
  import opened Protocol
  import opened Sorts

  /** Least recently accessed first, ties by hash. */
  predicate Older(rows: map<Hash, Row>, a: Hash, b: Hash) {
    && a in rows && b in rows
    && (|| rows[a].lastAccessedAt < rows[b].lastAccessedAt
        || (rows[a].lastAccessedAt == rows[b].lastAccessedAt && Before(a.key, b.key)))
  }

  lemma OlderIsOrder(rows: map<Hash, Row>, a: Hash, b: Hash, c: Hash)
    requires a in rows && b in rows && c in rows
    ensures Older(rows, a, b) && Older(rows, b, c) ==> Older(rows, a, c)
    ensures Older(rows, a, b) || Older(rows, b, a) || a == b
  {
    BeforeIsTotal(a.key, b.key);
    if Before(a.key, b.key) && Before(b.key, c.key) {
      BeforeIsTransitive(a.key, b.key, c.key);
    }
  }

  /** Deleting in two goes is deleting at once. */
  lemma RemovedTwice(db: Db, gone: set<Hash>, more: set<Hash>)
    requires Sound(db)
    ensures Removed(Removed(db, gone), more) == Removed(db, gone + more)
  {
    RemovedIsSound(db, gone);
    RemovedIsSound(Removed(db, gone), more);
    RemovedIsSound(db, gone + more);
    assert db.rows - gone - more == db.rows - (gone + more);
  }

  lemma RemovedNothing(db: Db)
    requires Sound(db)
    ensures Removed(db, {}) == db
  {
    RemovedIsSound(db, {});
    assert db.rows - {} == db.rows;
    assert Removed(db, {}).pins == db.pins;
  }

  lemma NextBatch(hashes: seq<Hash>, done: nat, n: nat, batch: seq<Hash>)
    requires done + n <= |hashes| && batch == hashes[done..done + n]
    requires forall i, j :: 0 <= i < j < |hashes| ==> hashes[i] != hashes[j]
    ensures Elems(hashes[..done + n]) == Elems(hashes[..done]) + Elems(batch)
    ensures Elems(hashes[..done]) !! Elems(batch)
    ensures forall h :: h in batch ==> h in hashes
    ensures forall i, j :: 0 <= i < j < |batch| ==> batch[i] != batch[j]
  {
    assert hashes[..done + n] == hashes[..done] + batch;
  }

  /** The rows of `gone` are out, their pins with them, and `freed` bytes are theirs. */
  ghost predicate Out(db: Db, gone: set<Hash>, rows: map<Hash, Row>, pins: map<string, Pin>, freed: int) {
    rows == db.rows - gone && pins == PinsWithout(db.pins, gone) && freed == SumSizes(Restrict(db.rows, gone))
  }

  lemma NothingOut(db: Db)
    ensures Out(db, {}, db.rows, db.pins, 0)
  {
    assert Restrict(db.rows, {}) == map[] && db.rows - {} == db.rows && PinsWithout(db.pins, {}) == db.pins;
  }

  lemma OneMoreOut(db: Db, gone: set<Hash>, rows: map<Hash, Row>, pins: map<string, Pin>, freed: int, h: Hash)
    requires Out(db, gone, rows, pins, freed) && h in db.rows && h !in gone
    ensures h in rows && Out(db, gone + {h}, rows - {h}, PinsWithout(pins, {h}), freed + rows[h].fileSize)
  {
    SumMore(db.rows, gone, h);
    assert db.rows - gone - {h} == db.rows - (gone + {h});
  }

  /** The row `h` is gone, with its pins and its bytes, and nothing else is. */
  ghost predicate RowOut(db: Db, after: Db, h: Hash) {
    && h in db.rows && after.rows == db.rows - {h}
    && (forall n :: n in after.pins <==> n in db.pins && db.pins[n].hash != h)
    && (forall n :: n in after.pins ==> after.pins[n] == db.pins[n])
    && var rest := db.totalBytes - db.rows[h].fileSize;
       after.totalBytes == if rest < 0 then 0 else rest
  }

  class Connection {
    var rows: map<Hash, Row>
    var pins: map<string, Pin>
    var totalBytes: int

    function View(): Db
      reads this
    {
      Db(rows, pins, totalBytes)
    }

    constructor (db: Db)
      ensures View() == db
    {
      rows, pins, totalBytes := db.rows, db.pins, db.totalBytes;
    }

    /** An upsert: the row is the object as given, its pins stay, and its bytes count once. */
    method InsertObject(h: Hash, refs: seq<Hash>, fileHash: Digest, fileSize: nat, now: int)
      modifies this
      ensures rows == old(rows)[h := Row(refs, fileHash, fileSize, now, now, now)] && pins == old(pins)
      ensures totalBytes == old(totalBytes) + fileSize - (if h in old(rows) then old(rows)[h].fileSize else 0)
      ensures View() == Inserted(old(View()), h, Row(refs, fileHash, fileSize, now, now, now))
    {
      var previous := if h in rows then rows[h].fileSize else 0;
      rows := rows[h := Row(refs, fileHash, fileSize, now, now, now)];
      totalBytes := totalBytes + (fileSize - previous);
    }

    /** Creates or replaces a pin. A hash without a row is refused. */
    method PinObject(name: string, h: Hash, expiresAt: Option<int>, now: int) returns (ok: bool)
      modifies this
      ensures ok <==> h in rows
      ensures pins == if ok then old(pins)[name := Pin(h, expiresAt, now)] else old(pins)
      ensures rows == old(rows) && totalBytes == old(totalBytes)
      ensures View() == PinSet(old(View()), name, Pin(h, expiresAt, now))
    {
      ok := h in rows;
      if ok {
        pins := pins[name := Pin(h, expiresAt, now)];
      }
    }

    /** Removes a pin, and tells whether there was one. */
    method Unpin(name: string) returns (found: bool)
      modifies this
      ensures found <==> name in old(pins)
      ensures name !in pins && pins.Keys == old(pins).Keys - {name}
      ensures rows == old(rows) && totalBytes == old(totalBytes)
      ensures forall n :: n in pins ==> pins[n] == old(pins)[n]
      ensures View() == PinCleared(old(View()), name)
    {
      found := name in pins;
      pins := pins - {name};
    }

    /** Deletes one row, its pins with it, and debits its size, never below zero. */
    method RemoveRow(h: Hash)
      requires h in rows
      modifies this
      ensures View() == Removed(old(View()), {h})
      ensures RowOut(old(View()), View(), h)
    {
      RemovedOne(View(), h);
      var size := rows[h].fileSize;
      rows := rows - {h};
      pins := PinsWithout(pins, {h});
      totalBytes := if totalBytes - size < 0 then 0 else totalBytes - size;
    }

    /**
     GC's delete: only if the object is still evictable; the bytes freed. That is if no
     row but its own refers to it, every pin on it has an expiry that has passed, and it
     was last pushed more than a day ago.
     */
    method EvictObject(h: Hash, now: int) returns (freed: Option<nat>)
      modifies this
      ensures freed.Some? <==>
                && h in old(rows)
                && (forall r :: r in old(rows) && r != h ==> h !in old(rows)[r].refs)
                && (forall n :: n in old(pins) && old(pins)[n].hash == h ==>
                                  old(pins)[n].expiresAt.Some? && old(pins)[n].expiresAt.value <= now)
                && old(rows)[h].pushedAt < now - 86400
      ensures freed.Some? ==> RowOut(old(View()), View(), h)
      ensures freed.Some? <==> Evictable(old(View()), h, now)
      ensures freed.Some? ==> freed.value == old(rows)[h].fileSize && View() == Removed(old(View()), {h})
      ensures freed.None? ==> View() == old(View())
    {
      if Evictable(View(), h, now) {
        freed := Some(rows[h].fileSize);
        RemoveRow(h);
      } else {
        freed := None;
      }
    }

    method DeleteObject(h: Hash) returns (freed: Option<nat>)
      modifies this
      ensures freed == if h in old(rows) then Some(old(rows)[h].fileSize) else None
      ensures freed.Some? ==> RowOut(old(View()), View(), h)
      ensures View() == if freed.Some? then Removed(old(View()), {h}) else old(View())
    {
      if h in rows {
        freed := Some(rows[h].fileSize);
        RemoveRow(h);
      } else {
        freed := None;
      }
    }

    /** The counter re-derived from the rows. */
    method ReconcileTotalBytes() returns (actual: int)
      modifies this`totalBytes
      ensures actual == SumSizes(rows) && totalBytes == actual
    {
      actual := 0;
      var left := rows.Keys;
      assert Restrict(rows, left) == rows;
      while left != {}
        invariant left <= rows.Keys
        invariant actual + SumSizes(Restrict(rows, left)) == SumSizes(rows)
        decreases left
      {
        var h :| h in left;
        SumWithout(Restrict(rows, left), h);
        assert Restrict(rows, left) - {h} == Restrict(rows, left - {h});
        actual := actual + rows[h].fileSize;
        left := left - {h};
      }
      assert Restrict(rows, left) == map[];
      totalBytes := actual;
    }

    predicate Stale(h: Hash, now: int)
      reads this
    {
      h in rows && rows[h].pushedAt < now - PUSHED_AT_DEBOUNCE
    }

    /** Which of `hashes` have no row, in order, and which have one not counted as pushed lately. */
    method Sift(hashes: seq<Hash>, now: int) returns (missing: seq<Hash>, stale: seq<Hash>)
      ensures missing == Except(hashes, rows.Keys)
      ensures forall h :: h in stale <==> h in hashes && Stale(h, now)
    {
      missing, stale := [], [];
      for i := 0 to |hashes|
        invariant missing == Except(hashes[..i], rows.Keys)
        invariant forall h :: h in stale <==> h in hashes[..i] && Stale(h, now)
      {
        var h := hashes[i];
        assert hashes[..i + 1] == hashes[..i] + [h];
        ExceptNext(hashes, i, rows.Keys);
        if h !in rows {
          missing := missing + [h];
        } else if Stale(h, now) {
          stale := stale + [h];
        }
      }
      assert hashes[..|hashes|] == hashes;
    }

    /**
     Negotiation: which of `hashes` the cache does not hold, in order. What it does
     hold counts as pushed now.
     */
    method Missing(hashes: seq<Hash>, now: int) returns (missing: seq<Hash>)
      modifies this`rows
      ensures missing == Except(hashes, rows.Keys) && rows.Keys == old(rows).Keys
      ensures forall h :: h in rows ==>
                            rows[h] == if h in hashes && old(rows)[h].pushedAt < now - 3600
                                       then old(rows)[h].(pushedAt := now) else old(rows)[h]
      ensures View() == Negotiated(old(View()), Elems(hashes), now)
    {
      var stale;
      missing, stale := Sift(hashes, now);
      for i := 0 to |stale|
        invariant rows.Keys == old(rows).Keys
        invariant forall h :: h in rows ==>
                                rows[h] == if h in stale[..i] then old(rows)[h].(pushedAt := now) else old(rows)[h]
      {
        var h := stale[i];
        assert h in stale;
        assert stale[..i + 1] == stale[..i] + [h];
        rows := rows[h := rows[h].(pushedAt := now)];
      }
      assert stale[..|stale|] == stale;
      assert rows == Negotiated(old(View()), Elems(hashes), now).rows;
    }

    /** The oldest of a non-empty set of rows. */
    method Oldest(among: set<Hash>) returns (oldest: Hash)
      requires among != {} && among <= rows.Keys
      ensures oldest in among && forall h :: h in among && h != oldest ==> Older(rows, oldest, h)
    {
      oldest :| oldest in among;
      var left := among - {oldest};
      while left != {}
        invariant left <= among && oldest in among && oldest !in left
        invariant forall h :: h in among && h !in left && h != oldest ==> Older(rows, oldest, h)
        decreases left
      {
        var h :| h in left;
        OlderIsOrder(rows, oldest, h, h);
        if !Older(rows, oldest, h) {
          forall k | k in among && k !in left && k != oldest
            ensures Older(rows, h, k)
          {
            OlderIsOrder(rows, h, oldest, k);
          }
          oldest := h;
        }
        left := left - {h};
      }
    }

    /**
     GC's candidates: the `limit` evictable objects that were accessed longest ago, the
     longest first, in byte order of their hashes where that is the same.
     */
    method EvictableBatch(limit: nat, now: int) returns (batch: seq<Hash>)
      ensures |batch| <= limit
      ensures forall h :: h in batch ==> h in rows && Evictable(View(), h, now)
      ensures forall i, j :: 0 <= i < j < |batch| ==>
                               && batch[i] != batch[j]
                               && rows[batch[i]].lastAccessedAt <= rows[batch[j]].lastAccessedAt
                               && (rows[batch[i]].lastAccessedAt == rows[batch[j]].lastAccessedAt ==>
                                     Before(batch[i].key, batch[j].key))
      ensures forall h, i :: Evictable(View(), h, now) && h !in batch && 0 <= i < |batch| ==>
                               && rows[batch[i]].lastAccessedAt <= rows[h].lastAccessedAt
                               && (rows[batch[i]].lastAccessedAt == rows[h].lastAccessedAt ==>
                                     Before(batch[i].key, h.key))
      ensures forall h :: Evictable(View(), h, now) && h !in batch ==> |batch| == limit
    {
      batch := [];
      var left := set h | h in rows && Evictable(View(), h, now);
      while left != {} && |batch| < limit
        invariant |batch| <= limit
        invariant left == (set h | h in rows && Evictable(View(), h, now)) - Elems(batch)
        invariant forall h :: h in batch ==> Evictable(View(), h, now)
        invariant forall i, j :: 0 <= i < j < |batch| ==> batch[i] != batch[j] && Older(rows, batch[i], batch[j])
        invariant forall i, h :: 0 <= i < |batch| && h in left ==> Older(rows, batch[i], h)
        decreases left
      {
        var oldest := Oldest(left);
        assert oldest !in Elems(batch);
        assert Elems(batch + [oldest]) == Elems(batch) + {oldest};
        batch := batch + [oldest];
        left := left - {oldest};
      }
      forall h | Evictable(View(), h, now) && h !in batch
        ensures h in left
      {
      }
    }

    /** One prune commit: every row of the batch, and one debit for all of them. */
    method RemoveBatch(batch: seq<Hash>)
      requires forall i, j :: 0 <= i < j < |batch| ==> batch[i] != batch[j]
      requires forall i :: 0 <= i < |batch| ==> batch[i] in rows
      modifies this
      ensures View() == Removed(old(View()), Elems(batch))
    {
      var freed := 0;
      ghost var was, gone: set<Hash> := View(), {};
      NothingOut(was);
      for i := 0 to |batch|
        invariant gone == Elems(batch[..i])
        invariant Out(was, gone, rows, pins, freed) && totalBytes == was.totalBytes
      {
        var h := batch[i];
        assert batch[..i + 1] == batch[..i] + [h];
        OneMoreOut(was, gone, rows, pins, freed, h);
        freed := freed + rows[h].fileSize;
        rows := rows - {h};
        pins := PinsWithout(pins, {h});
        gone := gone + {h};
      }
      assert batch[..|batch|] == batch;
      totalBytes := if totalBytes - freed < 0 then 0 else totalBytes - freed;
    }

    /**
     Prune's mark, refused for a cutoff within the last day: the rows that nothing pushed
     since the cutoff and no pin in force reaches.
     */
    method FindPrunable(before: int, now: int) returns (doomed: Option<set<Hash>>)
      ensures doomed.Some? <==> before <= now - 86400
      ensures doomed.Some? ==> forall h :: h in doomed.value <==>
                && h in rows
                && (forall r :: r in rows && rows[r].pushedAt >= before ==> !Reaches(RefGraph(View()), r, h))
                && (forall n :: n in pins && (pins[n].expiresAt.None? || pins[n].expiresAt.value > now) ==>
                                  !Reaches(RefGraph(View()), pins[n].hash, h))
      ensures doomed.Some? ==> doomed.value == Prunable(View(), before, now)
    {
      if before > now - PUSH_GRACE {
        return None;
      }
      PrunableIsUnreached(View(), before, now);
      doomed := Some(Prunable(View(), before, now));
    }

    /**
     Prune's delete, in short commits, referrers before their references. Refused,
     with nothing deleted, exactly when the doomed objects form a cycle.
     */
    method DeletePruned(doomed: seq<Hash>) returns (ok: bool)
      requires Sound(View())
      requires forall i, j :: 0 <= i < j < |doomed| ==> doomed[i] != doomed[j]
      requires forall i :: 0 <= i < |doomed| ==> doomed[i] in rows
      modifies this
      ensures ok <==> Acyclic(Within(RefGraph(old(View())), Elems(doomed)))
      ensures rows == if ok then old(rows) - Elems(doomed) else old(rows)
      ensures forall n :: n in pins <==> n in old(pins) && (ok ==> old(pins)[n].hash !in doomed)
      ensures forall n :: n in pins ==> pins[n] == old(pins)[n]
      ensures View() == if ok then Removed(old(View()), Elems(doomed)) else old(View())
    {
      var order := ReferrersFirstOrder(View(), doomed);
      ok := order.Some?;
      if !ok {
        return;
      }
      var hashes := At(doomed, order.value);
      RemoveInBatches(hashes);
    }

    method RemoveInBatches(hashes: seq<Hash>)
      requires Sound(View())
      requires forall i, j :: 0 <= i < j < |hashes| ==> hashes[i] != hashes[j]
      requires forall i :: 0 <= i < |hashes| ==> hashes[i] in rows
      modifies this
      ensures View() == Removed(old(View()), Elems(hashes))
    {
      RemovedNothing(View());
      var done := 0;
      ghost var gone: set<Hash> := {};
      assert hashes[..0] == [];
      while done < |hashes|
        invariant done <= |hashes| && gone == Elems(hashes[..done])
        invariant View() == Removed(old(View()), gone)
      {
        var n := if |hashes| - done < PRUNE_BATCH then |hashes| - done else PRUNE_BATCH;
        var batch := hashes[done..done + n];
        NextBatch(hashes, done, n, batch);
        RemovedTwice(old(View()), gone, Elems(batch));
        RemoveBatch(batch);
        done, gone := done + n, gone + Elems(batch);
      }
      assert hashes[..|hashes|] == hashes;
    }
  }
}
