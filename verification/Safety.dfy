/**
 What every step of the protocol keeps: claims are exclusive, a queued blob has
 a delete claim and no row, an upload past its re-check has no row to overwrite,
 and the books balance. Without drift, every row's blob is exactly the one the
 row describes.
 */
module Safety {
  import opened Basics
  import opened Catalog
  import opened Protocol

  // ------------------------------------------------------------ the invariant

  /** What prune may still delete: old, unpinned, and closed under referrers. */
  ghost predicate Doomed(db: Db, doomed: set<Hash>, before: int, at: int) {
    && (forall y :: y in doomed ==> y in db.rows && db.rows[y].pushedAt < before && !Pinned(db, y, at))
    && (forall x, y :: x in db.rows && y in doomed && y in db.rows[x].refs ==> x in doomed)
  }

  ghost predicate UploaderSafe(s: State, a: ActorId, h: Hash, stage: Stage) {
    && Holds(s, a, h, Upload)
    && (stage.Streaming? || stage.Stored? || stage.Stamped? ==> h !in s.db.rows)
    && (stage.Stored? ==> stage.putAt <= s.now)
    && (stage.Stamped? ==>
          && stage.putAt <= stage.row.createdAt <= s.now
          && stage.row.pushedAt == stage.row.createdAt
          && stage.row.fileHash == Sha256(stage.bytes)
          && stage.row.fileSize == |stage.bytes|)
  }

  ghost predicate JobSafe(s: State, a: ActorId, job: Job) {
    match job
    case Gc(at, _, current) => at <= s.now && (current.Some? ==> Holds(s, a, current.value, Delete))
    case Admin(todo, claimed) => claimed ==> forall h :: h in todo ==> Holds(s, a, h, Delete)
    case PruneMarked(before, at, doomed) =>
      s.lock == Some(a) && before <= at - PUSH_GRACE && at <= s.now && Doomed(s.db, doomed, before, at)
    case PruneRows(before, at, doomed, order) =>
      && s.lock == Some(a) && before <= at - PUSH_GRACE && at <= s.now
      && Doomed(s.db, Elems(order), before, at) && ReferrersFirst(s.db, order)
      && (forall h :: h in doomed ==> Holds(s, a, h, Delete))
      && (forall h :: h in doomed && h in s.db.rows ==> h in order)
    case Sweep(_, current) => s.lock == Some(a) && (current.Some? ==> Holds(s, a, current.value, Delete))
    case _ => true
  }

  ghost predicate DeleterSafe(s: State, a: ActorId, job: Job, keys: set<Hash>) {
    && (forall h :: h in keys ==> Holds(s, a, h, Delete) && h !in s.db.rows)
    && (job.Gc? && job.current.Some? ==> job.current.value !in keys)
    && JobSafe(s, a, job)
  }

  ghost predicate ActorSafe(s: State, a: ActorId) {
    a in s.actors ==>
      match s.actors[a]
      case Uploader(h, stage) => UploaderSafe(s, a, h, stage)
      case Deleter(job, keys) => DeleterSafe(s, a, job, keys)
      case Fsck(_, _, _, _) => true
  }

  /** Every claim has a live holder that can drop it, so none is leaked. */
  ghost predicate ClaimSafe(s: State, h: Hash) {
    h in s.claims ==>
      var Claim(kind, a) := s.claims[h];
      a in s.actors && match kind
        case Upload => s.actors[a].Uploader? && s.actors[a].h == h
        case Delete => s.actors[a].Deleter?
  }

  ghost predicate Safe(s: State) {
    && Sound(s.db)
    && (forall a :: ActorSafe(s, a))
    && (forall h :: ClaimSafe(s, h))
  }

  /** The blob of `h` is the one `row` describes. */
  predicate Describes(row: Row, blobs: map<Hash, seq<byte>>, h: Hash) {
    h in blobs && row.fileHash == Sha256(blobs[h]) && row.fileSize == |blobs[h]|
  }

  /** Row implies blob, and the blob of an upload that may still commit is in place. */
  ghost predicate Intact(s: State) {
    && (forall h :: h in s.db.rows ==> Describes(s.db.rows[h], s.blobs, h))
    && (forall a :: a in s.actors && s.actors[a].Uploader? ==>
          var Uploader(h, stage) := s.actors[a];
          (stage.Stored? || stage.Stamped? ==> h in s.blobs && s.blobs[h] == stage.bytes))
  }

  /** A process just started, on whatever sound and intact database it finds. */
  ghost predicate Initial(s: State) {
    && s.claims == map[] && s.quiescers == 0 && s.lock.None? && s.actors == map[]
    && Sound(s.db)
    && (forall h :: h in s.db.rows ==> Describes(s.db.rows[h], s.blobs, h))
  }

  // ------------------------------------------------------------ what a step leaves alone

  /** Equal up to sizes and access times. */
  ghost predicate SameGraph(db: Db, after: Db) {
    && db.pins == after.pins && db.rows.Keys == after.rows.Keys
    && forall h :: h in db.rows ==>
                     db.rows[h].refs == after.rows[h].refs && db.rows[h].pushedAt == after.rows[h].pushedAt
  }

  /** What the step of another actor may do around `b`. */
  ghost predicate Framed(s: State, t: State, b: ActorId) {
    && (b in s.actors <==> b in t.actors) && (b in s.actors ==> s.actors[b] == t.actors[b])
    && (forall h, k :: Holds(s, b, h, k) ==> Holds(t, b, h, k))
    && (forall h, k :: h in t.db.rows && h !in s.db.rows ==> !Holds(s, b, h, k))
    && s.now <= t.now
    && (s.lock == Some(b) ==> t.lock == Some(b) && SameGraph(s.db, t.db))
  }

  lemma FramedKeepsSafe(s: State, t: State, b: ActorId)
    requires ActorSafe(s, b) && Framed(s, t, b)
    ensures ActorSafe(t, b)
  {
    if b in s.actors && s.actors[b].Deleter? {
      var job := s.actors[b].job;
      if job.PruneMarked? {
        SameGraphKeepsDoomed(s.db, t.db, job.doomed, job.before, job.at);
      } else if job.PruneRows? {
        SameGraphKeepsDoomed(s.db, t.db, Elems(job.order), job.before, job.at);
      }
    }
  }

  lemma SameGraphKeepsDoomed(db: Db, after: Db, doomed: set<Hash>, before: int, at: int)
    requires SameGraph(db, after) && Doomed(db, doomed, before, at)
    ensures Doomed(after, doomed, before, at)
  {
  }

  /** A step of `a` keeps the invariant if it frames every other actor and leaves `a` itself safe. */
  lemma StepKeepsSafe(s: State, t: State, a: ActorId)
    requires Safe(s) && Sound(t.db)
    requires ActorSafe(t, a)
    requires forall b :: b != a ==> Framed(s, t, b)
    requires forall h :: ClaimSafe(t, h)
    ensures Safe(t)
  {
    forall b
      ensures ActorSafe(t, b)
    {
      if b != a {
        FramedKeepsSafe(s, t, b);
      }
    }
  }

  // ------------------------------------------------------------ every step keeps it

  lemma UploadKeepsSafe(s: State, l: Step, t: State)
    requires Safe(s) && UploadNext(s, l, t)
    ensures Safe(t)
  {
    if !l.ExistsAck? {
      var a := l.a;
      assert ActorSafe(s, a);
      if l.UploadInsert? {
        InsertedIsSound(s.db, s.actors[a].h, s.actors[a].stage.row);
      }
      forall h
        ensures ClaimSafe(t, h)
      {
        assert ClaimSafe(s, h);
      }
      StepKeepsSafe(s, t, a);
    }
  }

  lemma FinishKeepsSafe(s: State, l: Step, t: State)
    requires Safe(s) && FinishNext(s, l, t)
    ensures Safe(t)
  {
    var a := l.a;
    assert ActorSafe(s, a);
    forall h
      ensures ClaimSafe(t, h)
    {
      assert ClaimSafe(s, h);
    }
    StepKeepsSafe(s, t, a);
  }

  lemma GcKeepsSafe(s: State, l: Step, t: State)
    requires Safe(s) && GcNext(s, l, t)
    ensures Safe(t)
  {
    var a := l.a;
    assert ActorSafe(s, a);
    if l.GcEvict? {
      RemovedIsSound(s.db, {s.actors[a].job.current.value});
    }
    forall h
      ensures ClaimSafe(t, h)
    {
      assert ClaimSafe(s, h);
    }
    StepKeepsSafe(s, t, a);
  }

  lemma AdminKeepsSafe(s: State, l: Step, t: State)
    requires Safe(s) && AdminNext(s, l, t)
    ensures Safe(t)
  {
    var a := l.a;
    assert ActorSafe(s, a);
    if l.AdminDelete? {
      RemovedIsSound(s.db, {l.h});
    }
    forall h
      ensures ClaimSafe(t, h)
    {
      assert ClaimSafe(s, h);
    }
    StepKeepsSafe(s, t, a);
  }

  lemma SweepKeepsSafe(s: State, l: Step, t: State)
    requires Safe(s) && SweepNext(s, l, t)
    ensures Safe(t)
  {
    var a := l.a;
    assert ActorSafe(s, a);
    forall h
      ensures ClaimSafe(t, h)
    {
      assert ClaimSafe(s, h);
    }
    StepKeepsSafe(s, t, a);
  }

  lemma FsckKeepsSafe(s: State, l: Step, t: State)
    requires Safe(s) && FsckNext(s, l, t)
    ensures Safe(t)
  {
    var a := l.a;
    if l.FsckRepair? {
      RemovedIsSound(s.db, {l.h});
    }
    forall h
      ensures ClaimSafe(t, h)
    {
      assert ClaimSafe(s, h);
    }
    StepKeepsSafe(s, t, a);
  }

  lemma WorldKeepsSafe(s: State, l: Step, t: State)
    requires Safe(s) && (WorldNext(s, l, t) || DriftNext(s, l, t))
    ensures Safe(t)
  {
    if l.Negotiate? {
      NegotiatedIsSound(s.db, l.hashes, s.now);
    } else if l.Access? {
      AccessedIsSound(s.db, l.h, s.now);
    }
    if !l.Crash? {
      forall b
        ensures ActorSafe(t, b)
      {
        FramedKeepsSafe(s, t, b);
      }
      forall h
        ensures ClaimSafe(t, h)
      {
        assert ClaimSafe(s, h);
      }
    }
  }

  /** Deleting the front of a referrers-first order leaves its rest doomed and in order. */
  lemma BatchKeepsDoomed(db: Db, order: seq<Hash>, n: nat, before: int, at: int)
    requires n <= |order|
    requires Doomed(db, Elems(order), before, at) && ReferrersFirst(db, order)
    ensures var after := Removed(db, Elems(order[..n]));
            Doomed(after, Elems(order[n..]), before, at) && ReferrersFirst(after, order[n..])
  {
    var after := Removed(db, Elems(order[..n]));
    var front, rest := order[..n], order[n..];
    assert order == front + rest;
    forall y | y in Elems(rest)
      ensures y in after.rows && after.rows[y] == db.rows[y] && !Pinned(after, y, at)
    {
      var j :| 0 <= j < |rest| && rest[j] == y;
      assert order[n + j] == y && y in Elems(order);
      assert y !in front;
      assert Pinned(after, y, at) ==> Pinned(db, y, at);
    }
    forall x, y | x in after.rows && y in Elems(rest) && y in after.rows[x].refs
      ensures x in Elems(rest)
    {
      assert y in Elems(order) && x in Elems(order) && x !in front;
    }
    forall i, j | 0 <= i < j < |rest|
      ensures rest[i] != rest[j] && (rest[j] in after.rows ==> rest[i] !in after.rows[rest[j]].refs)
    {
      assert rest[i] == order[n + i] && rest[j] == order[n + j];
    }
  }

  lemma PruneBatchKeepsSafe(s: State, a: ActorId, n: nat, t: State)
    requires Safe(s) && PruneNext(s, PruneBatch(a, n), t)
    ensures Safe(t)
  {
    assert ActorSafe(s, a);
    var PruneRows(before, at, _, order) := s.actors[a].job;
    var gone := Elems(order[..n]);
    BatchKeepsDoomed(s.db, order, n, before, at);
    RemovedIsSound(s.db, gone);
    assert order == order[..n] + order[n..];
    forall h
      ensures ClaimSafe(t, h)
    {
      assert ClaimSafe(s, h);
    }
    StepKeepsSafe(s, t, a);
  }

  lemma PruneKeepsSafe(s: State, l: Step, t: State)
    requires Safe(s) && PruneNext(s, l, t)
    ensures Safe(t)
  {
    var a := l.a;
    if l.PruneBatch? {
      PruneBatchKeepsSafe(s, a, l.n, t);
      return;
    }
    assert ActorSafe(s, a);
    if l.PruneStart? {
      PrunableIsClosed(s.db, l.before, s.now);
    }
    forall h
      ensures ClaimSafe(t, h)
    {
      assert ClaimSafe(s, h);
    }
    StepKeepsSafe(s, t, a);
  }

  lemma NextKeepsSafe(s: State, l: Step, t: State)
    requires Safe(s) && Next(s, l, t)
    ensures Safe(t)
  {
    if UploadNext(s, l, t) {
      UploadKeepsSafe(s, l, t);
    } else if FinishNext(s, l, t) {
      FinishKeepsSafe(s, l, t);
    } else if GcNext(s, l, t) {
      GcKeepsSafe(s, l, t);
    } else if AdminNext(s, l, t) {
      AdminKeepsSafe(s, l, t);
    } else if PruneNext(s, l, t) {
      PruneKeepsSafe(s, l, t);
    } else if SweepNext(s, l, t) {
      SweepKeepsSafe(s, l, t);
    } else if FsckNext(s, l, t) {
      FsckKeepsSafe(s, l, t);
    } else {
      WorldKeepsSafe(s, l, t);
    }
  }

  /** Uploads put blobs and rows, deletions delete blobs: each only on a path it has claimed. */
  lemma UploadKeepsIntact(s: State, l: Step, t: State)
    requires Safe(s) && Intact(s) && UploadNext(s, l, t)
    ensures Intact(t)
  {
    if !l.ExistsAck? {
      assert ActorSafe(s, l.a);
      forall b | b in t.actors && t.actors[b].Uploader?
        ensures var Uploader(h, stage) := t.actors[b];
                (stage.Stored? || stage.Stamped? ==> h in t.blobs && t.blobs[h] == stage.bytes)
      {
        assert ActorSafe(s, b);
      }
    }
  }

  lemma FinishKeepsIntact(s: State, l: Step, t: State)
    requires Safe(s) && Intact(s) && FinishNext(s, l, t)
    ensures Intact(t)
  {
    assert ActorSafe(s, l.a);
    forall b | b in t.actors && t.actors[b].Uploader?
      ensures var Uploader(h, stage) := t.actors[b];
              (stage.Stored? || stage.Stamped? ==> h in t.blobs && t.blobs[h] == stage.bytes)
    {
      assert ActorSafe(s, b);
    }
  }

  /** Every other step leaves the blobs alone, and adds no row. */
  ghost predicate NoNewContent(s: State, t: State) {
    && t.blobs == s.blobs
    && (forall h :: h in t.db.rows ==>
          && h in s.db.rows && t.db.rows[h].fileHash == s.db.rows[h].fileHash
          && t.db.rows[h].fileSize == s.db.rows[h].fileSize
          && t.db.rows[h].createdAt == s.db.rows[h].createdAt)
    && (forall a :: a in t.actors && t.actors[a].Uploader? ==> a in s.actors && s.actors[a] == t.actors[a])
  }

  lemma GcAddsNothing(s: State, l: Step, t: State)
    requires GcNext(s, l, t) || AdminNext(s, l, t)
    ensures NoNewContent(s, t)
  {
  }

  lemma PruneAddsNothing(s: State, l: Step, t: State)
    requires PruneNext(s, l, t) || SweepNext(s, l, t)
    ensures NoNewContent(s, t)
  {
  }

  lemma DeletersAddNothing(s: State, l: Step, t: State)
    requires GcNext(s, l, t) || AdminNext(s, l, t) || PruneNext(s, l, t) || SweepNext(s, l, t)
    ensures NoNewContent(s, t)
  {
    if GcNext(s, l, t) || AdminNext(s, l, t) {
      GcAddsNothing(s, l, t);
    } else {
      PruneAddsNothing(s, l, t);
    }
  }

  lemma OthersAddNothing(s: State, l: Step, t: State)
    requires FsckNext(s, l, t) || WorldNext(s, l, t)
    ensures NoNewContent(s, t)
  {
  }

  /** Only drift parts a row from its blob. */
  lemma NextKeepsIntact(s: State, l: Step, t: State)
    requires Safe(s) && Intact(s) && Next(s, l, t) && !IsDrift(l)
    ensures Intact(t)
  {
    if UploadNext(s, l, t) {
      UploadKeepsIntact(s, l, t);
    } else if FinishNext(s, l, t) {
      FinishKeepsIntact(s, l, t);
    } else if FsckNext(s, l, t) || WorldNext(s, l, t) {
      OthersAddNothing(s, l, t);
    } else {
      DeletersAddNothing(s, l, t);
    }
  }

  /** No upload writes over a row or its blob, and no blob is deleted under a row. */
  ghost predicate SparesRows(s: State, l: Step) {
    && ((l.UploadPut? || l.UploadInsert?) && l.a in s.actors && s.actors[l.a].Uploader?
        ==> s.actors[l.a].h !in s.db.rows)
    && (l.DeleteBlob? ==> l.h !in s.db.rows)
  }

  lemma SafeSparesRows(s: State, l: Step, t: State)
    requires Safe(s) && Next(s, l, t)
    ensures SparesRows(s, l)
  {
    if l.UploadPut? || l.UploadInsert? || l.DeleteBlob? {
      assert ActorSafe(s, l.a);
    }
  }

  // ------------------------------------------------------------ over whole runs

  lemma {:induction false} ClockBetween(run: seq<State>, steps: seq<Step>, i: nat, j: nat)
    requires Run(run, steps) && i <= j <= |steps|
    ensures run[i].now <= run[j].now
    decreases j
  {
    if i < j {
      ClockBetween(run, steps, i, j - 1);
      ClockStep(run[j - 1], steps[j - 1], run[j - 1 + 1]);
    }
  }

  lemma ClockRuns(run: seq<State>, steps: seq<Step>, i: nat)
    requires Run(run, steps) && i <= |steps|
    ensures run[0].now <= run[i].now <= run[|steps|].now
  {
    ClockBetween(run, steps, 0, i);
    ClockBetween(run, steps, i, |steps|);
  }

  lemma UploadClock(s: State, l: Step, t: State)
    requires UploadNext(s, l, t) || FinishNext(s, l, t) || DriftNext(s, l, t)
    ensures s.now <= t.now
  {
  }

  lemma DeleterClock(s: State, l: Step, t: State)
    requires GcNext(s, l, t) || AdminNext(s, l, t)
    ensures s.now <= t.now
  {
  }

  lemma PruneClock(s: State, l: Step, t: State)
    requires PruneNext(s, l, t) || SweepNext(s, l, t)
    ensures s.now <= t.now
  {
  }

  lemma OtherClock(s: State, l: Step, t: State)
    requires FsckNext(s, l, t) || WorldNext(s, l, t)
    ensures s.now <= t.now
  {
  }

  lemma ClockStep(s: State, l: Step, t: State)
    requires Next(s, l, t)
    ensures s.now <= t.now
  {
    if GcNext(s, l, t) || AdminNext(s, l, t) {
      DeleterClock(s, l, t);
    } else if PruneNext(s, l, t) || SweepNext(s, l, t) {
      PruneClock(s, l, t);
    } else if FsckNext(s, l, t) || WorldNext(s, l, t) {
      OtherClock(s, l, t);
    } else {
      UploadClock(s, l, t);
    }
  }

  lemma {:induction false} SafeAt(run: seq<State>, steps: seq<Step>, i: nat)
    requires Run(run, steps) && Safe(run[0]) && i <= |steps|
    ensures Safe(run[i])
  {
    if i > 0 {
      SafeAt(run, steps, i - 1);
      NextKeepsSafe(run[i - 1], steps[i - 1], run[i - 1 + 1]);
    }
  }

  lemma RunIsSafe(run: seq<State>, steps: seq<Step>)
    requires Run(run, steps) && Safe(run[0])
    ensures forall i :: 0 <= i < |run| ==> Safe(run[i])
  {
    forall i | 0 <= i < |run|
      ensures Safe(run[i])
    {
      SafeAt(run, steps, i);
    }
  }

  lemma {:induction false} IntactAt(run: seq<State>, steps: seq<Step>, i: nat)
    requires Run(run, steps) && Safe(run[0]) && Intact(run[0]) && i <= |steps|
    requires forall k :: 0 <= k < |steps| ==> !IsDrift(steps[k])
    ensures Intact(run[i])
  {
    if i > 0 {
      IntactAt(run, steps, i - 1);
      SafeAt(run, steps, i - 1);
      NextKeepsIntact(run[i - 1], steps[i - 1], run[i - 1 + 1]);
    }
  }

  lemma RunIsIntact(run: seq<State>, steps: seq<Step>)
    requires Run(run, steps) && Initial(run[0])
    requires forall i :: 0 <= i < |steps| ==> !IsDrift(steps[i])
    ensures forall i :: 0 <= i < |run| ==> Intact(run[i])
  {
    assert Safe(run[0]) && Intact(run[0]);
    forall i | 0 <= i < |run|
      ensures Intact(run[i])
    {
      IntactAt(run, steps, i);
    }
  }

  /**
   In every reachable state of any interleaving, with failures, drops and crashes
   at any point: no upload overwrites a row or a blob that has one, no blob delete
   hits a path with a row, and the usage counter is the sum of the rows. Without
   drift, every row has a blob, and its content is the one the row's hash and
   size describe.
   */
  lemma RowImpliesBlob(run: seq<State>, steps: seq<Step>)
    requires Run(run, steps) && Initial(run[0])
    ensures forall i :: 0 <= i < |steps| ==> SparesRows(run[i], steps[i])
    ensures forall i :: 0 <= i < |run| ==> run[i].db.totalBytes == SumSizes(run[i].db.rows)
    ensures (forall i :: 0 <= i < |steps| ==> !IsDrift(steps[i])) ==>
              forall i, h :: 0 <= i < |run| && h in run[i].db.rows ==>
                               Describes(run[i].db.rows[h], run[i].blobs, h)
  {
    RunIsSafe(run, steps);
    forall i | 0 <= i < |steps|
      ensures SparesRows(run[i], steps[i])
    {
      SafeSparesRows(run[i], steps[i], run[i + 1]);
    }
    if forall i :: 0 <= i < |steps| ==> !IsDrift(steps[i]) {
      RunIsIntact(run, steps);
    }
  }
}
