/**
 One GC pass over a cache nobody else is changing: what it evicts, when it
 stops, and what is left when nothing more can go.
 */
module GcPass {
  import opened Basics
  import opened Graphs
  import opened Catalog
  import opened Prune
  import opened Connections
  import InFlight

  const BATCH: nat := 500

  datatype PassResult = PassResult(evicted: nat, bytesFreed: nat, candidatesExhausted: bool)

  /** The bucket. A failed `DeleteObjects` may have removed any of its keys. */
  class Storage {
    var blobs: map<Hash, seq<byte>>

    constructor ()
      ensures blobs == map[]
    {
      blobs := map[];
    }

    /** `outage`: the call fails, and has left these keys alone. Without keys there is no call. */
    method DeleteObjects(keys: seq<Hash>, outage: Option<set<Hash>>) returns (ok: bool)
      modifies this
      ensures ok <==> keys == [] || outage.None?
      ensures blobs == old(blobs) - (Elems(keys) - Spared(outage))
    {
      blobs := blobs - (Elems(keys) - Spared(outage));
      ok := keys == [] || outage.None?;
    }
  }

  function Spared(outage: Option<set<Hash>>): set<Hash> {
    if outage.Some? then outage.value else {}
  }

  function WithDeletes(claims: map<Hash, Kind>, s: set<Hash>): map<Hash, Kind> {
    claims + map h | h in s :: Delete
  }

  lemma DeletesTaken(claims: map<Hash, Kind>, s: set<Hash>, h: Hash)
    requires s !! claims.Keys
    ensures WithDeletes(claims, s)[h := Delete] == WithDeletes(claims, s + {h})
    ensures h !in WithDeletes(claims, s) <==> h !in claims && h !in s
  {
  }

  lemma TakenAndReleased(claims: map<Hash, Kind>, s: set<Hash>)
    requires s !! claims.Keys
    ensures WithDeletes(claims, s) - s == claims && s <= WithDeletes(claims, s).Keys
  {
  }

  /** Each of `hashes` is claimed once, on top of the claims there were. */
  ghost predicate ClaimedAll(before: map<Hash, Kind>, hashes: seq<Hash>, claims: map<Hash, Kind>) {
    NoDup(hashes) && Elems(hashes) !! before.Keys && claims == WithDeletes(before, Elems(hashes))
  }

  lemma ClaimedOne(before: map<Hash, Kind>, hashes: seq<Hash>, i: nat, claims: map<Hash, Kind>)
    requires i < |hashes| && ClaimedAll(before, hashes[..i], claims)
    ensures hashes[..i + 1] == hashes[..i] + [hashes[i]]
    ensures hashes[i] !in claims ==> ClaimedAll(before, hashes[..i + 1], claims[hashes[i] := Delete])
  {
    DeletesTaken(before, Elems(hashes[..i]), hashes[i]);
    assert hashes[..i + 1] == hashes[..i] + [hashes[i]];
    if hashes[i] !in claims {
      NoDupSnoc(hashes[..i], hashes[i]);
    }
  }

  lemma NothingYet(claims: map<Hash, Kind>, d: seq<Hash>)
    ensures WithDeletes(claims, Elems([])) == claims && d + [] == d
  {
  }

  lemma AppendSnoc(d: seq<Hash>, e: seq<Hash>, h: Hash)
    ensures d + (e + [h]) == d + e + [h]
  {
  }

  lemma OneMoreSeen(candidates: seq<Hash>, i: nat)
    requires NoDup(candidates) && i < |candidates|
    ensures candidates[i] !in Elems(candidates[..i])
  {
  }

  /** Delete claims held and blobs queued. */
  class Deletion {
    var claims: seq<Hash>
    var keys: seq<Hash>

    constructor ()
      ensures claims == [] && keys == []
    {
      claims, keys := [], [];
    }

    /** Claims every path, or none. */
    method ClaimAll(inFlight: InFlight.Set, hashes: seq<Hash>) returns (refused: Option<Hash>)
      requires inFlight.Valid() && claims == []
      modifies this, inFlight
      ensures inFlight.Valid() && inFlight.quiescers == old(inFlight.quiescers) && keys == old(keys)
      ensures refused.None? ==>
                && claims == hashes && NoDup(hashes)
                && Elems(hashes) !! old(inFlight.claims).Keys
                && inFlight.claims == WithDeletes(old(inFlight.claims), Elems(hashes))
      ensures refused.Some? ==> refused.value in hashes && claims == [] && inFlight.claims == old(inFlight.claims)
    {
      ghost var before := inFlight.claims;
      assert WithDeletes(before, Elems(hashes[..0])) == before;
      for i := 0 to |hashes|
        invariant inFlight.Valid() && inFlight.quiescers == old(inFlight.quiescers) && keys == old(keys)
        invariant claims == hashes[..i] && ClaimedAll(before, hashes[..i], inFlight.claims)
      {
        var h := hashes[i];
        ClaimedOne(before, hashes, i, inFlight.claims);
        var busy := inFlight.ClaimDelete(h);
        if busy.Some? {
          TakenAndReleased(before, Elems(claims));
          ReleaseAll(inFlight);
          return Some(h);
        }
        claims := claims + [h];
      }
      assert hashes[..|hashes|] == hashes;
      refused := None;
    }

    /** Keeps a claim whose row is gone, and queues its blob. */
    method Hold(h: Hash)
      modifies this
      ensures claims == old(claims) + [h] && keys == old(keys) + [h]
    {
      keys := keys + [h];
      claims := claims + [h];
    }

    method ReleaseAll(inFlight: InFlight.Set)
      requires inFlight.Valid() && Elems(claims) <= inFlight.claims.Keys
      requires NoDup(claims)
      modifies this, inFlight
      ensures inFlight.Valid() && inFlight.quiescers == old(inFlight.quiescers)
      ensures inFlight.claims == old(inFlight.claims) - old(Elems(claims))
      ensures claims == [] && keys == old(keys)
    {
      var held := claims;
      for i := 0 to |held|
        invariant inFlight.Valid() && inFlight.quiescers == old(inFlight.quiescers)
        invariant claims == old(claims) && keys == old(keys)
        invariant inFlight.claims == old(inFlight.claims) - Elems(held[..i])
      {
        assert held[i] in Elems(claims) && held[i] !in Elems(held[..i]);
        var _ := inFlight.Drop(held[i]);
        assert held[..i + 1] == held[..i] + [held[i]];
        assert Elems(held[..i + 1]) == Elems(held[..i]) + {held[i]};
      }
      assert held[..|held|] == held;
      claims := [];
    }

    /** Deletes the queued blobs, then releases the claims, whether or not the blobs went. */
    method Finish(storage: Storage, inFlight: InFlight.Set, outage: Option<set<Hash>>) returns (ok: bool)
      requires inFlight.Valid() && Elems(claims) <= inFlight.claims.Keys
      requires NoDup(claims)
      modifies this, inFlight, storage
      ensures inFlight.Valid() && inFlight.quiescers == old(inFlight.quiescers)
      ensures inFlight.claims == old(inFlight.claims) - old(Elems(claims))
      ensures ok <==> old(keys) == [] || outage.None?
      ensures storage.blobs == old(storage.blobs) - (old(Elems(keys)) - Spared(outage))
    {
      ok := storage.DeleteObjects(keys, outage);
      ReleaseAll(inFlight);
    }
  }

  // ------------------------------------------------------------ what a pass does to the database

  /** `db` is `start` with `d` evicted, each evictable in its turn by time `at`. */
  ghost predicate EvictedBy(start: Db, d: seq<Hash>, at: int, db: Db) {
    Sound(start) && RootFirst(start, at - PUSH_GRACE, at, d) && db == Removed(start, Elems(d))
  }

  /** Usage was above the mark before every one of these evictions. */
  ghost predicate AllNeeded(start: Db, d: seq<Hash>, low: int) {
    forall i :: 0 <= i < |d| ==> Needed(start, d, low, i)
  }

  ghost predicate Needed(start: Db, d: seq<Hash>, low: int, i: nat)
    requires i < |d|
  {
    SumSizes(start.rows - Elems(d[..i])) > low
  }

  /** Candidates are evictable together: evicting one leaves the others evictable. */
  lemma EvictableTogether(db: Db, h: Hash, other: Hash, now: int)
    requires Evictable(db, h, now) && Evictable(db, other, now) && h != other
    ensures Evictable(Removed(db, {h}), other, now)
  {
    var left := Removed(db, {h});
    assert forall r :: r in left.rows ==> r in db.rows && left.rows[r] == db.rows[r];
    assert Pinned(left, other, now) ==> Pinned(db, other, now);
  }

  ghost predicate EvictableAt(db: Db, candidates: seq<Hash>, k: nat, at: int)
    requires k < |candidates|
  {
    Evictable(db, candidates[k], at)
  }

  ghost predicate StillEvictable(db: Db, candidates: seq<Hash>, i: nat, at: int) {
    forall k :: i <= k < |candidates| ==> EvictableAt(db, candidates, k, at)
  }

  lemma OthersStayEvictable(db: Db, candidates: seq<Hash>, i: nat, at: int)
    requires i < |candidates| && NoDup(candidates)
    requires StillEvictable(db, candidates, i, at)
    ensures StillEvictable(Removed(db, {candidates[i]}), candidates, i + 1, at)
  {
    var left := Removed(db, {candidates[i]});
    assert EvictableAt(db, candidates, i, at);
    forall k | i < k < |candidates|
      ensures EvictableAt(left, candidates, k, at)
    {
      assert EvictableAt(db, candidates, k, at);
      EvictableTogether(db, candidates[i], candidates[k], at);
    }
  }

  lemma RootFirstSnoc(start: Db, d: seq<Hash>, before: int, now: int, h: Hash)
    requires RootFirst(start, before, now, d) && Deletable(start, Elems(d), h, before, now)
    ensures RootFirst(start, before, now, d + [h])
  {
    var more := d + [h];
    forall i | 0 <= i < |more|
      ensures Deletable(start, Elems(more[..i]), more[i], before, now)
    {
      if i == |d| {
        assert more[..i] == d;
      } else {
        assert more[..i] == d[..i];
        assert Deletable(start, Elems(d[..i]), d[i], before, now);
      }
    }
  }

  lemma EvictOneMore(start: Db, d: seq<Hash>, at: int, db: Db, h: Hash)
    requires EvictedBy(start, d, at, db) && Evictable(db, h, at)
    ensures EvictedBy(start, d + [h], at, Removed(db, {h}))
    ensures Removed(db, {h}).totalBytes == db.totalBytes - db.rows[h].fileSize
  {
    RemovedIsSound(start, Elems(d));
    RemovedIsSound(db, {h});
    RemovedOne(db, h);
    DeletableAfter(start, Elems(d), db, h, at);
    RootFirstSnoc(start, d, at - PUSH_GRACE, at, h);
    assert Elems(d + [h]) == Elems(d) + {h};
    RemovedTwice(start, Elems(d), {h});
  }

  lemma OneMoreNeeded(start: Db, d: seq<Hash>, low: int, at: int, db: Db, h: Hash)
    requires EvictedBy(start, d, at, db) && AllNeeded(start, d, low) && db.totalBytes > low
    ensures AllNeeded(start, d + [h], low)
  {
    RemovedIsSound(start, Elems(d));
    var more := d + [h];
    assert more[..|d|] == d;
    forall i | 0 <= i < |more|
      ensures Needed(start, more, low, i)
    {
      assert i < |d| ==> Needed(start, d, low, i) && more[..i] == d[..i];
    }
  }

  ghost predicate NothingEvictable(db: Db, at: int) {
    forall h :: !Evictable(db, h, at)
  }

  /** A whole batch of candidates, and every one of them claimed by somebody else. */
  ghost predicate Blocked(db: Db, claims: map<Hash, Kind>, batch: seq<Hash>, at: int) {
    && batch != [] && Elems(batch) <= claims.Keys
    && (forall h :: h in batch ==> Evictable(db, h, at))
    && (|batch| < 500 ==> forall h :: Evictable(db, h, at) ==> h in batch)
  }

  /** The rows that live pins and objects within their grace reach. */
  function Kept(db: Db, at: int): set<Hash> {
    db.rows.Keys * Mark(RefGraph(db), Roots(db, at - PUSH_GRACE, at))
  }

  lemma KeptReconciled(db: Db, at: int)
    ensures Kept(Reconciled(db), at) == Kept(db, at) && Unkept(Reconciled(db), at) == Unkept(db, at)
  {
    assert RefGraph(Reconciled(db)) == RefGraph(db);
    assert Roots(Reconciled(db), at - PUSH_GRACE, at) == Roots(db, at - PUSH_GRACE, at);
  }

  lemma PartlyDeleted<V>(blobs: map<Hash, V>, gone: set<Hash>, spared: set<Hash>)
    ensures blobs - (gone - spared) - gone == blobs - gone
    ensures gone == {} || spared == {} ==> gone - spared == gone
    ensures blobs - gone - gone == blobs - gone
  {
  }

  lemma Without<V>(a: map<Hash, V>, b: map<Hash, V>, s: set<Hash>, t: set<Hash>)
    requires b - t == a - s - t
    ensures b - (s + t) == a - (s + t)
    ensures a - s - t == a - (s + t)
  {
    assert b - (s + t) == b - t - s;
  }

  /** The objects no live pin and nothing within its grace reaches, by the references among them. */
  function Unkept(db: Db, at: int): Graph<Hash> {
    Within(RefGraph(db), Prunable(db, at - PUSH_GRACE, at))
  }

  /** With nothing evictable left, what is left is what roots reach: exactly if the rest form no cycle. */
  lemma ExhaustedLeavesReached(start: Db, d: seq<Hash>, at: int, db: Db)
    requires EvictedBy(start, d, at, db)
    requires NothingEvictable(db, at)
    ensures db.rows.Keys == Kept(start, at) <==> Acyclic(Unkept(start, at))
  {
    var before := at - PUSH_GRACE;
    forall h
      ensures !Deletable(start, Elems(d), h, before, at)
    {
      DeletableAfter(start, Elems(d), db, h, at);
    }
    MarkEqualsRootFirst(start, before, at, d);
    EvictedAreDistinct(start, d, before, at);
    var rows, marked := start.rows.Keys, Mark(RefGraph(start), Roots(start, before, at));
    assert db.rows.Keys == rows - Elems(d);
    SameRest(rows, Elems(d), marked);
  }

  lemma SameRest(rows: set<Hash>, gone: set<Hash>, marked: set<Hash>)
    requires gone <= rows
    ensures rows - gone == rows * marked <==> gone == rows - marked
  {
    if rows - gone == rows * marked {
      assert forall h :: h in rows ==> (h in gone <==> h !in rows - gone);
      assert forall h :: h in rows ==> (h in marked <==> h in rows * marked);
    }
  }

  /** The database with its counter re-derived from its rows. */
  ghost function Reconciled(db: Db): Db {
    db.(totalBytes := SumSizes(db.rows))
  }

  lemma NothingEvicted(start: Db, low: int, at: int)
    requires Sound(start)
    ensures EvictedBy(start, [], at, start) && AllNeeded(start, [], low)
  {
    RemovedNothing(start);
    assert Elems<Hash>([]) == {};
  }

  lemma EvictedLater(start: Db, d: seq<Hash>, at: int, now: int, db: Db)
    requires EvictedBy(start, d, at, db) && at <= now
    ensures EvictedBy(start, d, now, db)
  {
    RootFirstLater(start, at, now, d);
  }

  lemma FirstOfBatch(start: Db, d: seq<Hash>, batch: seq<Hash>, before: int, now: int)
    requires RootFirst(start, before, now, d + batch) && batch != []
    ensures batch[0] in start.rows && batch[0] !in Elems(d)
  {
    var all, n := d + batch, |d|;
    assert all[..n] == d && all[n] == batch[0];
    assert Deletable(start, Elems(all[..n]), all[n], before, now);
  }

  lemma BatchEvicted(start: Db, d: seq<Hash>, batch: seq<Hash>, at: int, before: Db, db: Db)
    requires EvictedBy(start, d, at, before) && EvictedBy(start, d + batch, at, db)
    ensures Elems(d + batch) == Elems(d) + Elems(batch)
    ensures db.rows.Keys <= before.rows.Keys
    ensures if batch == [] then db == before else db.rows.Keys < before.rows.Keys
  {
    assert Elems(d + batch) == Elems(d) + Elems(batch);
    if batch == [] {
      assert d + batch == d;
    } else {
      FirstOfBatch(start, d, batch, at - PUSH_GRACE, at);
      assert batch[0] in Elems(batch);
      assert batch[0] in before.rows && batch[0] !in db.rows;
    }
  }

  lemma EvictedAreDistinct(start: Db, d: seq<Hash>, before: int, now: int)
    requires RootFirst(start, before, now, d)
    ensures |Elems(d)| == |d| && Elems(d) <= start.rows.Keys
  {
    forall i, j | 0 <= i < j < |d|
      ensures d[i] != d[j]
    {
      assert d[i] in d[..j];
      assert Deletable(start, Elems(d[..j]), d[j], before, now);
    }
    NoDupCount(d);
  }

  lemma PassCounts(start: Db, d: seq<Hash>, at: int, db: Db)
    requires EvictedBy(start, d, at, db)
    ensures |d| == |start.rows| - |db.rows| && db.totalBytes == SumSizes(db.rows)
  {
    EvictedAreDistinct(start, d, at - PUSH_GRACE, at);
    RemovedIsSound(start, Elems(d));
    assert db.rows.Keys == start.rows.Keys - Elems(d);
    assert |start.rows.Keys| == |start.rows| && |db.rows.Keys| == |db.rows|;
  }

  /** The candidates in the order they were accessed, and before every evictable object that is not among them. */
  ghost predicate OldestFirst(db: Db, candidates: seq<Hash>, at: int) {
    && (forall h :: h in candidates ==> h in db.rows)
    && (forall i, j :: 0 <= i < j < |candidates| ==>
          db.rows[candidates[i]].lastAccessedAt <= db.rows[candidates[j]].lastAccessedAt)
    && (forall h, i :: Evictable(db, h, at) && h !in candidates && 0 <= i < |candidates| ==>
          db.rows[candidates[i]].lastAccessedAt <= db.rows[h].lastAccessedAt)
  }

  /** What a pass asks the database for. */
  ghost predicate IsCandidates(db: Db, candidates: seq<Hash>, at: int) {
    && NoDup(candidates) && OldestFirst(db, candidates, at)
    && (forall h :: h in candidates ==> Evictable(db, h, at))
    && (|candidates| < BATCH ==> forall h :: Evictable(db, h, at) ==> h in candidates)
  }

  lemma NoCandidates(db: Db, at: int)
    requires IsCandidates(db, [], at)
    ensures NothingEvictable(db, at)
  {
  }

  lemma CandidatesBlocked(db: Db, claims: map<Hash, Kind>, candidates: seq<Hash>, at: int)
    requires IsCandidates(db, candidates, at) && candidates != [] && Elems(candidates) <= claims.Keys
    ensures Blocked(db, claims, candidates, at) && !NothingEvictable(db, at)
  {
    assert Evictable(db, candidates[0], at);
  }

  /** What evicting candidate `i` keeps true. */
  lemma CandidateGoes(start: Db, d: seq<Hash>, low: int, at: int, db: Db, candidates: seq<Hash>, i: nat)
    requires EvictedBy(start, d, at, db) && AllNeeded(start, d, low) && db.totalBytes > low
    requires i < |candidates| && NoDup(candidates)
    requires StillEvictable(db, candidates, i, at)
    ensures var h, after := candidates[i], Removed(db, {candidates[i]});
            && h in db.rows && EvictedBy(start, d + [h], at, after) && AllNeeded(start, d + [h], low)
            && after.totalBytes == db.totalBytes - db.rows[h].fileSize
            && StillEvictable(after, candidates, i + 1, at)
  {
    assert EvictableAt(db, candidates, i, at);
    EvictOneMore(start, d, at, db, candidates[i]);
    OneMoreNeeded(start, d, low, at, db, candidates[i]);
    OthersStayEvictable(db, candidates, i, at);
  }

  /** A batch with `i` candidates seen: the free ones among them evicted and claimed, the rest still evictable. */
  ghost predicate InBatch(start: Db, d: seq<Hash>, low: int, at: int, candidates: seq<Hash>, before: map<Hash, Kind>,
                          i: nat, evicted: seq<Hash>, db: Db, claims: map<Hash, Kind>)
  {
    && i <= |candidates| && NoDup(candidates) && NoDup(evicted)
    && EvictedBy(start, d + evicted, at, db) && AllNeeded(start, d + evicted, low)
    && evicted == Except(candidates[..i], before.Keys)
    && claims == WithDeletes(before, Elems(evicted))
    && StillEvictable(db, candidates, i, at)
  }

  lemma BatchBegins(start: Db, d: seq<Hash>, low: int, at: int, candidates: seq<Hash>, claims: map<Hash, Kind>, db: Db)
    requires EvictedBy(start, d, at, db) && AllNeeded(start, d, low) && IsCandidates(db, candidates, at)
    ensures InBatch(start, d, low, at, candidates, claims, 0, [], db, claims)
  {
    NothingYet(claims, d);
  }

  lemma CandidateSeen(start: Db, d: seq<Hash>, low: int, at: int, candidates: seq<Hash>, before: map<Hash, Kind>,
                      i: nat, evicted: seq<Hash>, db: Db, claims: map<Hash, Kind>)
    requires InBatch(start, d, low, at, candidates, before, i, evicted, db, claims)
    requires i < |candidates| && db.totalBytes > low
    ensures var h := candidates[i];
            && Evictable(db, h, at) && Removed(db, {h}).totalBytes == db.totalBytes - db.rows[h].fileSize
            && if h in claims then InBatch(start, d, low, at, candidates, before, i + 1, evicted, db, claims)
               else InBatch(start, d, low, at, candidates, before, i + 1, evicted + [h],
                            Removed(db, {h}), claims[h := Delete])
  {
    var h := candidates[i];
    assert EvictableAt(db, candidates, i, at);
    OneMoreSeen(candidates, i);
    ExceptNext(candidates, i, before.Keys);
    DeletesTaken(before, Elems(evicted), h);
    CandidateGoes(start, d + evicted, low, at, db, candidates, i);
    if h !in claims {
      NoDupSnoc(evicted, h);
      AppendSnoc(d, evicted, h);
    }
  }

  /** What came of a candidate, when it was settled: `size` is what its eviction freed. */
  ghost predicate Settled(db: Db, claims: map<Hash, Kind>, h: Hash, at: int, size: Option<nat>,
                          db': Db, claims': map<Hash, Kind>)
  {
    && (size.Some? <==> h !in claims && Evictable(db, h, at))
    && if size.Some? then h in db.rows && size.value == db.rows[h].fileSize && db' == Removed(db, {h})
                          && claims' == claims[h := Delete]
       else db' == db && claims' == claims
  }

  lemma CandidateSettled(start: Db, d: seq<Hash>, low: int, at: int, candidates: seq<Hash>, before: map<Hash, Kind>,
                         i: nat, evicted: seq<Hash>, db: Db, claims: map<Hash, Kind>, size: Option<nat>,
                         db': Db, claims': map<Hash, Kind>)
    requires InBatch(start, d, low, at, candidates, before, i, evicted, db, claims)
    requires i < |candidates| && db.totalBytes > low
    requires Settled(db, claims, candidates[i], at, size, db', claims')
    ensures size.Some? <==> candidates[i] !in claims
    ensures db'.totalBytes == db.totalBytes - (if size.Some? then size.value else 0)
    ensures var evicted' := if size.Some? then evicted + [candidates[i]] else evicted;
            InBatch(start, d, low, at, candidates, before, i + 1, evicted', db', claims')
  {
    CandidateSeen(start, d, low, at, candidates, before, i, evicted, db, claims);
  }

  lemma BatchOver(start: Db, d: seq<Hash>, low: int, at: int, candidates: seq<Hash>, before: map<Hash, Kind>,
                  seen: nat, evicted: seq<Hash>, db: Db, claims: map<Hash, Kind>)
    requires InBatch(start, d, low, at, candidates, before, seen, evicted, db, claims)
    requires seen < |candidates| ==> db.totalBytes <= low
    ensures EvictedBy(start, d + evicted, at, db) && AllNeeded(start, d + evicted, low) && NoDup(evicted)
    ensures Went(candidates, before.Keys, evicted, seen, low, db.totalBytes)
    ensures claims == WithDeletes(before, Elems(evicted))
  {
  }

  /** Of the candidates up to `seen` the free ones went; short of all of them only with usage down to the mark. */
  ghost predicate Went(candidates: seq<Hash>, claimed: set<Hash>, batch: seq<Hash>, seen: nat, low: int, usage: int) {
    seen <= |candidates| && batch == Except(candidates[..seen], claimed) && (seen < |candidates| ==> usage <= low)
  }

  /** A batch is over: the free candidates went, in order, until usage was down to the mark. */
  ghost predicate RoundDone(start: Db, d: seq<Hash>, low: int, at: int, candidates: seq<Hash>, claims: map<Hash, Kind>,
                            batch: seq<Hash>, before: Db, db: Db)
  {
    && EvictedBy(start, d + batch, at, db) && AllNeeded(start, d + batch, low)
    && Elems(batch) !! claims.Keys
    && (exists seen :: Went(candidates, claims.Keys, batch, seen, low, db.totalBytes))
    && (batch != [] ==> db.rows.Keys < before.rows.Keys)
    && (batch == [] ==> db == before && Elems(candidates) <= claims.Keys)
  }

  lemma NoneFree(candidates: seq<Hash>, claimed: set<Hash>, low: int, usage: int)
    requires Went(candidates, claimed, [], |candidates|, low, usage)
    ensures Elems(candidates) <= claimed
  {
    assert candidates[..|candidates|] == candidates;
    assert Elems<Hash>([]) == {};
    forall h | h in Elems(candidates)
      ensures h in claimed
    {
      assert h !in Elems(candidates) - claimed;
    }
  }

  lemma BatchIsDone(start: Db, d: seq<Hash>, low: int, at: int, candidates: seq<Hash>, claims: map<Hash, Kind>,
                    seen: nat, batch: seq<Hash>, before: Db, db: Db)
    requires EvictedBy(start, d, at, before) && before.totalBytes > low
    requires EvictedBy(start, d + batch, at, db) && AllNeeded(start, d + batch, low)
    requires Went(candidates, claims.Keys, batch, seen, low, db.totalBytes)
    ensures RoundDone(start, d, low, at, candidates, claims, batch, before, db)
  {
    BatchEvicted(start, d, batch, at, before, db);
    if batch == [] {
      NoneFree(candidates, claims.Keys, low, db.totalBytes);
    }
  }

  /** One batch of a pass: what it evicted, of which database and when. */
  datatype Turn = Turn(db: Db, at: int, batch: seq<Hash>)

  ghost predicate NoLater(db: Db, e: Hash, h: Hash) {
    e in db.rows && h in db.rows && db.rows[e].lastAccessedAt <= db.rows[h].lastAccessedAt
  }

  /** What a turn evicted was accessed no later than any evictable object that it left, but for claimed ones. */
  ghost predicate OldestWent(turn: Turn, claimed: set<Hash>) {
    forall e, h :: e in turn.batch && Evictable(turn.db, h, turn.at) && h !in turn.batch && h !in claimed ==>
                     NoLater(turn.db, e, h)
  }

  lemma ExceptFrom(s: seq<Hash>, out: set<Hash>, h: Hash)
    ensures h in Except(s, out) <==> h in s && h !in out
  {
    assert h in Elems(Except(s, out)) <==> h in Elems(s) && h !in out;
  }

  /** A candidate up to `seen` comes before whatever evictable object is not among those. */
  lemma SeenComeFirst(db: Db, candidates: seq<Hash>, at: int, seen: nat, e: Hash, h: Hash)
    requires OldestFirst(db, candidates, at) && seen <= |candidates|
    requires e in candidates[..seen] && h !in candidates[..seen] && Evictable(db, h, at)
    ensures NoLater(db, e, h)
  {
    var i :| 0 <= i < seen && candidates[i] == e;
    assert forall k :: 0 <= k < seen ==> candidates[..seen][k] == candidates[k] != h;
    if h in candidates {
      var j :| 0 <= j < |candidates| && candidates[j] == h;
    }
  }

  lemma BatchIsOldest(db: Db, candidates: seq<Hash>, at: int, claimed: set<Hash>, batch: seq<Hash>, seen: nat)
    requires OldestFirst(db, candidates, at)
    requires seen <= |candidates| && batch == Except(candidates[..seen], claimed)
    ensures OldestWent(Turn(db, at, batch), claimed)
  {
    forall e, h | e in batch && Evictable(db, h, at) && h !in batch && h !in claimed
      ensures NoLater(db, e, h)
    {
      ExceptFrom(candidates[..seen], claimed, e);
      ExceptFrom(candidates[..seen], claimed, h);
      SeenComeFirst(db, candidates, at, seen, e, h);
    }
  }

  /** All that the turns evicted, in order. */
  function Batches(turns: seq<Turn>): seq<Hash> {
    if turns == [] then [] else Batches(turns[..|turns| - 1]) + turns[|turns| - 1].batch
  }

  /** Turn `i` took what `start` had left by then, and of that what had been accessed longest ago. */
  ghost predicate TurnOf(start: Db, turns: seq<Turn>, clock: nat -> int, claimed: set<Hash>, i: nat)
    requires i < |turns|
  {
    && turns[i].db == Removed(start, Elems(Batches(turns[..i]))) && turns[i].at == clock(i)
    && OldestWent(turns[i], claimed)
  }

  /** `d` was evicted from `start` in these turns. */
  ghost predicate Turned(start: Db, turns: seq<Turn>, d: seq<Hash>, clock: nat -> int, claimed: set<Hash>) {
    Batches(turns) == d && forall i :: 0 <= i < |turns| ==> TurnOf(start, turns, clock, claimed, i)
  }

  lemma OneMoreTurn(start: Db, turns: seq<Turn>, d: seq<Hash>, clock: nat -> int, turn: Turn, claimed: set<Hash>)
    requires Turned(start, turns, d, clock, claimed) && OldestWent(turn, claimed)
    requires turn.db == Removed(start, Elems(d)) && turn.at == clock(|turns|)
    ensures Turned(start, turns + [turn], d + turn.batch, clock, claimed)
  {
    var more := turns + [turn];
    assert more[..|turns|] == turns;
    forall i | 0 <= i < |more|
      ensures TurnOf(start, more, clock, claimed, i)
    {
      assert more[..i] == turns[..i];
      assert i < |turns| ==> TurnOf(start, turns, clock, claimed, i);
    }
  }

  /** Between batches: the evicted had no claims, and their blobs are gone with them. */
  ghost predicate InPass(start: Db, d: seq<Hash>, low: int, at: int, db: Db, claims: map<Hash, Kind>,
                         before: map<Hash, seq<byte>>, blobs: map<Hash, seq<byte>>)
  {
    && EvictedBy(start, d, at, db) && AllNeeded(start, d, low)
    && Elems(d) !! claims.Keys && blobs == before - Elems(d)
  }

  lemma PassBegins(start: Db, low: int, at: int, claims: map<Hash, Kind>, blobs: map<Hash, seq<byte>>)
    requires Sound(start)
    ensures InPass(start, [], low, at, start, claims, blobs, blobs)
  {
    NothingEvicted(start, low, at);
    assert blobs - {} == blobs;
  }

  lemma RoundAdvances(start: Db, d: seq<Hash>, low: int, at: int, candidates: seq<Hash>, claims: map<Hash, Kind>,
                      batch: seq<Hash>, before: Db, db: Db, blobs: map<Hash, seq<byte>>, stored: map<Hash, seq<byte>>,
                      outage: Option<set<Hash>>)
    requires InPass(start, d, low, at, before, claims, blobs, stored)
    requires RoundDone(start, d, low, at, candidates, claims, batch, before, db)
    ensures Elems(d + batch) !! claims.Keys
    ensures var left := stored - (Elems(batch) - Spared(outage));
            && left - Elems(d + batch) == blobs - Elems(d + batch)
            && (batch == [] || outage.None? ==> InPass(start, d + batch, low, at, db, claims, blobs, left))
  {
    var gone := Elems(batch);
    BatchEvicted(start, d, batch, at, before, db);
    PartlyDeleted(stored, gone, Spared(outage));
    Without(blobs, stored - (gone - Spared(outage)), Elems(d), gone);
    assert batch == [] ==> gone == {};
  }

  lemma PassEnds(was: Db, d: seq<Hash>, low: int, at: int, db: Db, claims: map<Hash, Kind>,
                 before: map<Hash, seq<byte>>, blobs: map<Hash, seq<byte>>)
    requires InPass(Reconciled(was), d, low, at, db, claims, before, blobs)
    ensures |d| == |was.rows| - |db.rows| && db.totalBytes == SumSizes(db.rows)
    ensures before - Elems(d) == blobs - Elems(d)
    ensures NothingEvictable(db, at) ==> (db.rows.Keys == Kept(was, at) <==> Acyclic(Unkept(was, at)))
  {
    PassCounts(Reconciled(was), d, at, db);
    PartlyDeleted(before, Elems(d), {});
    KeptReconciled(was, at);
    if NothingEvictable(db, at) {
      ExhaustedLeavesReached(Reconciled(was), d, at, db);
    }
  }

  class Gc {
    const conn: Connection
    const storage: Storage
    const inFlight: InFlight.Set
    const low: int

    constructor (conn: Connection, storage: Storage, inFlight: InFlight.Set, low: int)
      ensures this.conn == conn && this.storage == storage && this.inFlight == inFlight && this.low == low
    {
      this.conn, this.storage, this.inFlight, this.low := conn, storage, inFlight, low;
    }

    /**
     One candidate: claimed, re-checked and deleted, its claim and blob kept for the
     batch's end. One that is no longer evictable stays, and its claim is dropped.
     */
    method EvictOne(h: Hash, at: int, deletion: Deletion) returns (settled: bool, freed: Option<nat>)
      requires inFlight.Valid()
      modifies conn, inFlight, deletion
      ensures inFlight.Valid() && inFlight.quiescers == old(inFlight.quiescers)
      ensures settled <==> h !in old(inFlight.claims)
      ensures freed.Some? <==> settled && Evictable(old(conn.View()), h, at)
      ensures freed.Some? ==>
                && freed.value == old(conn.rows)[h].fileSize && conn.View() == Removed(old(conn.View()), {h})
                && deletion.claims == old(deletion.claims) + [h] && deletion.keys == old(deletion.keys) + [h]
                && inFlight.claims == old(inFlight.claims)[h := Delete]
      ensures freed.None? ==>
                && conn.View() == old(conn.View()) && inFlight.claims == old(inFlight.claims)
                && deletion.claims == old(deletion.claims) && deletion.keys == old(deletion.keys)
    {
      var busy := inFlight.ClaimDelete(h);
      if busy.Some? {
        return false, None;
      }
      settled := true;
      freed := conn.EvictObject(h, at);
      if freed.None? {
        var _ := inFlight.Drop(h);
        return;
      }
      deletion.Hold(h);
    }

    /** Candidate `i` of a batch, the ones before it seen: `evicted` and `freed` so far. */
    method EvictNext(candidates: seq<Hash>, i: nat, at: int, deletion: Deletion, usage: int, freed: nat,
                     evicted: seq<Hash>, ghost start: Db, ghost d: seq<Hash>, ghost before: map<Hash, Kind>)
      returns (settled: bool, left: int, freed': nat, evicted': seq<Hash>)
      requires inFlight.Valid() && i < |candidates| && usage == conn.totalBytes && usage > low
      requires InBatch(start, d, low, at, candidates, before, i, evicted, conn.View(), inFlight.claims)
      requires deletion.claims == deletion.keys == evicted
      modifies conn, inFlight, deletion
      ensures inFlight.Valid() && inFlight.quiescers == old(inFlight.quiescers)
      ensures evicted' == if settled then evicted + [candidates[i]] else evicted
      ensures InBatch(start, d, low, at, candidates, before, i + 1, evicted', conn.View(), inFlight.claims)
      ensures deletion.claims == deletion.keys == evicted'
      ensures left == conn.totalBytes && freed' + left == freed + usage
    {
      ghost var db, taken := conn.View(), inFlight.claims;
      left, freed', evicted' := usage, freed, evicted;
      var size;
      settled, size := EvictOne(candidates[i], at, deletion);
      CandidateSettled(start, d, low, at, candidates, before, i, evicted, db, taken, size,
                       conn.View(), inFlight.claims);
      if size.Some? {
        left, freed', evicted' := left - size.value, freed + size.value, evicted + [candidates[i]];
      }
    }

    /** One batch: the candidates nobody has claimed, in order, as far as `seen`, where usage is down to the mark. */
    method EvictBatch(candidates: seq<Hash>, at: int, deletion: Deletion, usage: int,
                      ghost start: Db, ghost d: seq<Hash>)
      returns (left: int, freed: nat, evicted: seq<Hash>, settled: bool, ghost seen: nat)
      requires inFlight.Valid() && deletion.claims == deletion.keys == []
      requires EvictedBy(start, d, at, conn.View()) && AllNeeded(start, d, low)
      requires usage == conn.totalBytes && usage > low && IsCandidates(conn.View(), candidates, at)
      modifies conn, inFlight, deletion
      ensures inFlight.Valid() && inFlight.quiescers == old(inFlight.quiescers)
      ensures EvictedBy(start, d + evicted, at, conn.View()) && AllNeeded(start, d + evicted, low)
      ensures left == conn.totalBytes && freed == usage - left
      ensures deletion.claims == deletion.keys == evicted && NoDup(evicted)
      ensures Went(candidates, old(inFlight.claims).Keys, evicted, seen, low, left)
      ensures inFlight.claims == WithDeletes(old(inFlight.claims), Elems(evicted))
      ensures settled <==> evicted != []
    {
      ghost var claims := inFlight.claims;
      left, freed, evicted, settled, seen := usage, 0, [], false, 0;
      BatchBegins(start, d, low, at, candidates, claims, conn.View());
      for i := 0 to |candidates|
        invariant inFlight.Valid() && inFlight.quiescers == old(inFlight.quiescers) && seen == i
        invariant InBatch(start, d, low, at, candidates, claims, i, evicted, conn.View(), inFlight.claims)
        invariant left == conn.totalBytes && left > low && freed == usage - left
        invariant deletion.claims == deletion.keys == evicted
        invariant settled <==> evicted != []
      {
        var claim;
        claim, left, freed, evicted := EvictNext(candidates, i, at, deletion, left, freed, evicted, start, d, claims);
        settled, seen := settled || claim, i + 1;
        if left <= low {
          break;
        }
      }
      BatchOver(start, d, low, at, candidates, claims, seen, evicted, conn.View(), inFlight.claims);
    }

    method Candidates(at: int) returns (candidates: seq<Hash>)
      ensures IsCandidates(conn.View(), candidates, at)
    {
      candidates := conn.EvictableBatch(BATCH, at);
    }

    /** A batch evicted, its blobs deleted and its claims released. */
    method Round(candidates: seq<Hash>, at: int, usage: int, outage: Option<set<Hash>>,
                 ghost start: Db, ghost d: seq<Hash>)
      returns (ok: bool, left: int, freed: nat, batch: seq<Hash>, settled: bool)
      requires inFlight.Valid() && EvictedBy(start, d, at, conn.View()) && AllNeeded(start, d, low)
      requires usage == conn.totalBytes && usage > low
      requires IsCandidates(conn.View(), candidates, at)
      modifies conn, inFlight, storage
      ensures inFlight.Valid() && inFlight.claims == old(inFlight.claims)
      ensures RoundDone(start, d, low, at, candidates, inFlight.claims, batch, old(conn.View()), conn.View())
      ensures OldestWent(Turn(old(conn.View()), at, batch), inFlight.claims.Keys)
      ensures left == conn.totalBytes && freed == usage - left
      ensures ok <==> batch == [] || outage.None?
      ensures storage.blobs == old(storage.blobs) - (Elems(batch) - Spared(outage))
      ensures settled <==> batch != []
    {
      var deletion := new Deletion();
      ghost var before, claims := conn.View(), inFlight.claims;
      ghost var seen;
      left, freed, batch, settled, seen := EvictBatch(candidates, at, deletion, usage, start, d);
      BatchIsDone(start, d, low, at, candidates, claims, seen, batch, before, conn.View());
      BatchIsOldest(before, candidates, at, claims.Keys, batch, seen);
      TakenAndReleased(claims, Elems(batch));
      ok := deletion.Finish(storage, inFlight, outage);
    }

    /** Batch after batch, until usage is down to the mark or nothing more can go. */
    method EvictDown(reconciled: int, clock: nat -> int, outages: nat -> Option<set<Hash>>, ghost start: Db)
      returns (ok: bool, evicted: nat, bytesFreed: nat, exhausted: bool,
               ghost d: seq<Hash>, ghost at: int, ghost blocked: seq<Hash>, ghost turns: seq<Turn>)
      requires inFlight.Valid() && reconciled == conn.totalBytes && start == conn.View()
      requires InPass(start, [], low, clock(0), start, inFlight.claims, storage.blobs, storage.blobs)
      requires forall i, j :: 0 <= i <= j ==> clock(i) <= clock(j)
      modifies conn, inFlight, storage
      ensures inFlight.Valid() && inFlight.claims == old(inFlight.claims)
      ensures EvictedBy(start, d, at, conn.View()) && AllNeeded(start, d, low) && Elems(d) !! inFlight.claims.Keys
      ensures storage.blobs - Elems(d) == old(storage.blobs) - Elems(d)
      ensures Turned(start, turns, d, clock, inFlight.claims.Keys)
      ensures ok ==>
                && InPass(start, d, low, at, conn.View(), inFlight.claims, old(storage.blobs), storage.blobs)
                && evicted == |d| && bytesFreed == start.totalBytes - conn.totalBytes
                && (exhausted <==> conn.totalBytes > low && NothingEvictable(conn.View(), at))
                && (conn.totalBytes > low && !exhausted ==> Blocked(conn.View(), inFlight.claims, blocked, at))
      ensures !ok ==> d != [] && exists i :: outages(i).Some?
    {
      ghost var claims, blobs := inFlight.claims, storage.blobs;
      var usage, ticks := reconciled, 0;
      ok, evicted, bytesFreed, exhausted := true, 0, 0, false;
      d, at, blocked, turns := [], clock(0), [], [];
      assert Turned(start, turns, d, clock, claims.Keys);
      while usage > low
        invariant inFlight.Valid() && inFlight.claims == claims && at <= clock(ticks)
        invariant InPass(start, d, low, at, conn.View(), claims, blobs, storage.blobs)
        invariant usage == conn.totalBytes && evicted == |d| && bytesFreed == start.totalBytes - usage
        invariant !exhausted && ok && ticks == |turns| && Turned(start, turns, d, clock, claims.Keys)
        decreases conn.rows.Keys
      {
        var now, outage := clock(ticks), outages(ticks);
        ticks := ticks + 1;
        EvictedLater(start, d, at, now, conn.View());
        at := now;
        var candidates := Candidates(now);
        if candidates == [] {
          exhausted := true;
          NoCandidates(conn.View(), at);
          break;
        }
        ghost var before, stored := conn.View(), storage.blobs;
        var left, freed, batch, settled;
        ok, left, freed, batch, settled := Round(candidates, now, usage, outage, start, d);
        RoundAdvances(start, d, low, at, candidates, claims, batch, before, conn.View(), blobs, stored, outage);
        OneMoreTurn(start, turns, d, clock, Turn(before, now, batch), claims.Keys);
        usage, evicted, bytesFreed, d := left, evicted + |batch|, bytesFreed + freed, d + batch;
        turns := turns + [Turn(before, now, batch)];
        if !ok {
          return;
        }
        if !settled {
          blocked := candidates;
          CandidatesBlocked(conn.View(), claims, blocked, at);
          break;
        }
      }
      PartlyDeleted(blobs, Elems(d), {});
    }

    /**
     One pass, the clock read before each batch; `outages` says how each batch's blob
     delete fares. With nobody else at work on the database the re-check of a
     candidate always passes. `None` is a failed blob delete, which ends the pass:
     rows are gone, some of their blobs may be left behind, and no claim is.
     */
    method Evict(clock: nat -> int, outages: nat -> Option<set<Hash>>)
      returns (result: Option<PassResult>, ghost d: seq<Hash>, ghost at: int, ghost blocked: seq<Hash>,
               ghost turns: seq<Turn>)
      requires inFlight.Valid() && forall n :: n in conn.pins ==> conn.pins[n].hash in conn.rows
      requires forall i, j :: 0 <= i <= j ==> clock(i) <= clock(j)
      modifies conn, inFlight, storage
      ensures inFlight.Valid() && inFlight.claims == old(inFlight.claims)
      ensures EvictedBy(Reconciled(old(conn.View())), d, at, conn.View())
      ensures AllNeeded(Reconciled(old(conn.View())), d, low)
      ensures conn.totalBytes == SumSizes(conn.rows)
      ensures Elems(d) !! old(inFlight.claims).Keys
      ensures old(storage.blobs) - Elems(d) == storage.blobs - Elems(d)
      ensures Turned(Reconciled(old(conn.View())), turns, d, clock, old(inFlight.claims).Keys)
      ensures result.Some? ==>
                && storage.blobs == old(storage.blobs) - Elems(d)
                && result.value.evicted == |d| == |old(conn.rows)| - |conn.rows|
                && result.value.bytesFreed == SumSizes(old(conn.rows)) - conn.totalBytes
                && (result.value.candidatesExhausted <==>
                    conn.totalBytes > low && NothingEvictable(conn.View(), at))
                && (conn.totalBytes > low && !result.value.candidatesExhausted ==>
                    Blocked(conn.View(), old(inFlight.claims), blocked, at))
      ensures result.Some? && result.value.candidatesExhausted ==>
                (conn.rows.Keys == Kept(old(conn.View()), at) <==> Acyclic(Unkept(old(conn.View()), at)))
      ensures result.None? ==> d != [] && exists i :: outages(i).Some?
    {
      ghost var was, claims, blobs := conn.View(), inFlight.claims, storage.blobs;
      var usage := conn.ReconcileTotalBytes();
      PassBegins(Reconciled(was), low, clock(0), claims, blobs);
      var ok, evicted, bytesFreed, exhausted;
      ok, evicted, bytesFreed, exhausted, d, at, blocked, turns := EvictDown(usage, clock, outages, Reconciled(was));
      if !ok {
        PassCounts(Reconciled(was), d, at, conn.View());
        return None, d, at, blocked, turns;
      }
      PassEnds(was, d, low, at, conn.View(), claims, blobs, storage.blobs);
      result := Some(PassResult(evicted, bytesFreed, exhausted));
    }
  }
}
