/**
 The cache's database as a value: object rows, pins and the usage counter, and
 what each transaction of the Pusher does to them. A reference is stored as the
 hash it names, and may name an object the cache does not hold.
 */
module Catalog {
  import opened Basics
  import opened Graphs

  /** Seconds an object counts as pushed after an upload or a Negotiation. */
  const PUSH_GRACE: int := 86400

  /** How stale `pushedAt` must be before Negotiation rewrites it. */
  const PUSHED_AT_DEBOUNCE: int := 3600

  datatype Row = Row(
    refs: seq<Hash>,
    fileHash: Digest,
    fileSize: nat,
    createdAt: int,
    lastAccessedAt: int,
    pushedAt: int)

  /** `expiresAt` of `None` is a permanent pin. */
  datatype Pin = Pin(hash: Hash, expiresAt: Option<int>, createdAt: int)

  datatype Db = Db(rows: map<Hash, Row>, pins: map<string, Pin>, totalBytes: int)

  // ------------------------------------------------------------ queries

  predicate Live(pin: Pin, now: int) {
    pin.expiresAt.None? || pin.expiresAt.value > now
  }

  predicate Pinned(db: Db, h: Hash, now: int) {
    exists n | n in db.pins :: db.pins[n].hash == h && Live(db.pins[n], now)
  }

  function RefGraph(db: Db): Graph<Hash> {
    map h | h in db.rows :: set r | r in db.rows[h].refs
  }

  /** A row other than `h`'s own refers to `h`. */
  predicate Referenced(db: Db, h: Hash) {
    exists r | r in db.rows :: r != h && h in db.rows[r].refs
  }

  predicate Evictable(db: Db, h: Hash, now: int) {
    && h in db.rows
    && !Referenced(db, h)
    && !Pinned(db, h, now)
    && db.rows[h].pushedAt < now - PUSH_GRACE
  }

  /** What prune marks from: objects pushed since the cutoff, and live pins. */
  function Roots(db: Db, before: int, now: int): set<Hash> {
    (set h | h in db.rows && db.rows[h].pushedAt >= before)
    + (set n | n in db.pins && Live(db.pins[n], now) :: db.pins[n].hash)
  }

  /** Prune's mark: the rows no root reaches. */
  function Prunable(db: Db, before: int, now: int): set<Hash> {
    db.rows.Keys - Mark(RefGraph(db), Roots(db, before, now))
  }

  /** References that name no row. */
  ghost predicate Dangling(db: Db, from: Hash, to: Hash) {
    from in db.rows && to in db.rows[from].refs && to !in db.rows
  }

  // ------------------------------------------------------------ accounting

  ghost function Pick(rows: map<Hash, Row>): (h: Hash)
    requires rows != map[]
    ensures h in rows
  {
    var h :| h in rows;
    h
  }

  ghost function SumSizes(rows: map<Hash, Row>): nat {
    if rows == map[] then 0 else
      var h := Pick(rows);
      rows[h].fileSize + SumSizes(rows - {h})
  }

  lemma {:induction false} SumWithout(rows: map<Hash, Row>, h: Hash)
    requires h in rows
    ensures SumSizes(rows) == rows[h].fileSize + SumSizes(rows - {h})
    decreases |rows|
  {
    var k := Pick(rows);
    if k != h {
      SumWithout(rows - {k}, h);
      SumWithout(rows - {h}, k);
      assert rows - {k} - {h} == rows - {h} - {k};
    }
  }

  lemma SumWith(rows: map<Hash, Row>, h: Hash, row: Row)
    ensures SumSizes(rows[h := row]) ==
            SumSizes(rows) + row.fileSize - (if h in rows then rows[h].fileSize else 0)
  {
    SumWithout(rows[h := row], h);
    assert rows[h := row] - {h} == rows - {h};
    if h in rows {
      SumWithout(rows, h);
    } else {
      assert rows - {h} == rows;
    }
  }

  lemma {:induction false} SumSame(a: map<Hash, Row>, b: map<Hash, Row>)
    requires a.Keys == b.Keys
    requires forall h :: h in a ==> a[h].fileSize == b[h].fileSize
    ensures SumSizes(a) == SumSizes(b)
    decreases |a|
  {
    if a == map[] {
      assert b == map[];
    } else {
      var h := Pick(a);
      SumWithout(b, h);
      SumSame(a - {h}, b - {h});
    }
  }

  lemma SumMore(rows: map<Hash, Row>, s: set<Hash>, h: Hash)
    requires h in rows && h !in s
    ensures SumSizes(Restrict(rows, s + {h})) == SumSizes(Restrict(rows, s)) + rows[h].fileSize
  {
    SumWithout(Restrict(rows, s + {h}), h);
    assert Restrict(rows, s + {h}) - {h} == Restrict(rows, s);
  }

  function Restrict(rows: map<Hash, Row>, s: set<Hash>): map<Hash, Row> {
    map h | h in rows && h in s :: rows[h]
  }

  lemma {:induction false} SumSplit(rows: map<Hash, Row>, s: set<Hash>)
    ensures SumSizes(rows) == SumSizes(rows - s) + SumSizes(Restrict(rows, s))
    decreases |rows|
  {
    if rows != map[] {
      var h := Pick(rows);
      SumSplit(rows - {h}, s);
      if h in s {
        SumWithout(Restrict(rows, s), h);
        assert Restrict(rows, s) - {h} == Restrict(rows - {h}, s);
        assert rows - {h} - s == rows - s;
      } else {
        SumWithout(rows - s, h);
        assert rows - s - {h} == rows - {h} - s;
        assert Restrict(rows, s) == Restrict(rows - {h}, s);
      }
    }
  }

  /** The counter is the sum of the rows, and every pin names a row (a foreign key). */
  ghost predicate Sound(db: Db) {
    && db.totalBytes == SumSizes(db.rows)
    && forall n :: n in db.pins ==> db.pins[n].hash in db.rows
  }

  // ------------------------------------------------------------ transactions

  /** `insert_object`: an upsert, so the object's pins stay. */
  function Inserted(db: Db, h: Hash, row: Row): Db {
    var previous := if h in db.rows then db.rows[h].fileSize else 0;
    Db(db.rows[h := row], db.pins, db.totalBytes + (row.fileSize - previous))
  }

  /** Pins whose object stays. */
  function PinsWithout(pins: map<string, Pin>, gone: set<Hash>): map<string, Pin> {
    map n | n in pins && pins[n].hash !in gone :: pins[n]
  }

  /** Rows deleted with their pins (a cascade) in one transaction, and the counter debited. */
  ghost function Removed(db: Db, gone: set<Hash>): Db {
    var freed := SumSizes(Restrict(db.rows, gone));
    Db(db.rows - gone,
       PinsWithout(db.pins, gone),
       if db.totalBytes - freed < 0 then 0 else db.totalBytes - freed)
  }

  function Touch(row: Row, now: int): Row {
    if row.pushedAt < now - PUSHED_AT_DEBOUNCE then row.(pushedAt := now) else row
  }

  /** Negotiation: every named object the cache holds counts as pushed now. */
  function Negotiated(db: Db, hashes: set<Hash>, now: int): Db {
    db.(rows := map h | h in db.rows :: if h in hashes then Touch(db.rows[h], now) else db.rows[h])
  }

  /** A pin is created or replaced; pinning what the cache does not hold changes nothing. */
  function PinSet(db: Db, name: string, pin: Pin): Db {
    if pin.hash in db.rows then db.(pins := db.pins[name := pin]) else db
  }

  function PinCleared(db: Db, name: string): Db {
    db.(pins := db.pins - {name})
  }

  /** The Puller's last-accessed bumps. */
  function Accessed(db: Db, h: Hash, now: int): Db {
    if h in db.rows then db.(rows := db.rows[h := db.rows[h].(lastAccessedAt := now)]) else db
  }

  // ------------------------------------------------------------ every transaction keeps the books

  lemma InsertedIsSound(db: Db, h: Hash, row: Row)
    requires Sound(db)
    ensures Sound(Inserted(db, h, row))
  {
    SumWith(db.rows, h, row);
  }

  /** The debit never goes below zero, so the clamp in it never fires. */
  lemma RemovedIsSound(db: Db, gone: set<Hash>)
    requires Sound(db)
    ensures Sound(Removed(db, gone))
    ensures SumSizes(Restrict(db.rows, gone)) <= db.totalBytes
    ensures Removed(db, gone).totalBytes == db.totalBytes - SumSizes(Restrict(db.rows, gone))
  {
    SumSplit(db.rows, gone);
  }

  lemma RemovedOne(db: Db, h: Hash)
    requires h in db.rows
    ensures SumSizes(Restrict(db.rows, {h})) == db.rows[h].fileSize
  {
    SumWithout(Restrict(db.rows, {h}), h);
    assert Restrict(db.rows, {h}) - {h} == map[];
  }

  lemma NegotiatedIsSound(db: Db, hashes: set<Hash>, now: int)
    requires Sound(db)
    ensures Sound(Negotiated(db, hashes, now))
  {
    SumSame(db.rows, Negotiated(db, hashes, now).rows);
  }

  lemma AccessedIsSound(db: Db, h: Hash, now: int)
    requires Sound(db)
    ensures Sound(Accessed(db, h, now))
  {
    SumSame(db.rows, Accessed(db, h, now).rows);
  }

  // ------------------------------------------------------------ the graph

  /**
   Prune's set is closed under referrers, and nothing in it is recent or pinned:
   so what stays never refers to what goes.
   */
  lemma PrunableIsClosed(db: Db, before: int, now: int)
    ensures forall x, y :: x in db.rows && y in Prunable(db, before, now) && y in db.rows[x].refs
                           ==> x in Prunable(db, before, now)
    ensures forall y :: y in Prunable(db, before, now)
                        ==> y in db.rows && db.rows[y].pushedAt < before && !Pinned(db, y, now)
  {
    var g, roots := RefGraph(db), Roots(db, before, now);
    MarkIsClosed(g, roots);
    forall x, y | x in db.rows && y in Prunable(db, before, now) && y in db.rows[x].refs
      ensures x in Prunable(db, before, now)
    {
      assert Edge(g, x, y);
      assert x in Mark(g, roots) ==> y in Successors(g, Mark(g, roots));
    }
    forall y | y in Prunable(db, before, now)
      ensures db.rows[y].pushedAt < before && !Pinned(db, y, now)
    {
      assert y !in roots;
    }
  }

  /**
   Prune marks exactly the rows that neither an object pushed since the cutoff nor a
   pin in force, without an expiry or with one still to come, reaches.
   */
  lemma PrunableIsUnreached(db: Db, before: int, now: int)
    ensures forall h :: h in Prunable(db, before, now) <==>
              && h in db.rows
              && (forall r :: r in db.rows && db.rows[r].pushedAt >= before ==> !Reaches(RefGraph(db), r, h))
              && (forall n :: n in db.pins && (db.pins[n].expiresAt.None? || db.pins[n].expiresAt.value > now) ==>
                                !Reaches(RefGraph(db), db.pins[n].hash, h))
  {
    var g, roots := RefGraph(db), Roots(db, before, now);
    forall h
      ensures h in Prunable(db, before, now) <==>
              && h in db.rows
              && (forall r :: r in db.rows && db.rows[r].pushedAt >= before ==> !Reaches(g, r, h))
              && (forall n :: n in db.pins && (db.pins[n].expiresAt.None? || db.pins[n].expiresAt.value > now) ==>
                                !Reaches(g, db.pins[n].hash, h))
    {
      MarkIsReached(g, roots, h);
      RootsAre(db, before, now);
      if h in db.rows && ReachedFrom(g, roots, h) {
        var root :| root in roots && Reaches(g, root, h);
      }
    }
  }

  lemma RootsAre(db: Db, before: int, now: int)
    ensures forall r :: r in db.rows && db.rows[r].pushedAt >= before ==> r in Roots(db, before, now)
    ensures forall n :: n in db.pins && (db.pins[n].expiresAt.None? || db.pins[n].expiresAt.value > now) ==>
                          db.pins[n].hash in Roots(db, before, now)
    ensures forall root :: root in Roots(db, before, now) ==>
              || (root in db.rows && db.rows[root].pushedAt >= before)
              || exists n :: n in db.pins && db.pins[n].hash == root
                             && (db.pins[n].expiresAt.None? || db.pins[n].expiresAt.value > now)
  {
  }
}
