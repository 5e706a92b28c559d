/**
 Pushes, GC passes, operator deletes, prunes, orphan sweeps and fsck repairs as
 one transition system over SQLite rows, S3 blobs and in-memory claims.

 A step is one SQLite transaction, one claim taken or dropped under the
 in-flight lock, one S3 call, or one look at the clock. Any number of actors of
 any kind interleave step by step, and each may give up between two of its
 steps. The Pusher's one connection is a lock: prune and the sweep's final check
 hold it over several steps, every other transaction is a single step that needs
 it free. S3 calls take effect before they return, and a listing is a snapshot.
 */
module Protocol {
  import opened Basics
  import opened Catalog

  type ActorId = nat

  /** An entry of the in-flight map, with the actor whose guard will drop it. */
  datatype Claim = Claim(kind: Kind, holder: ActorId)

  /** How far one `PUT` has come since its claim. */
  datatype Stage =
    | Claimed                                                // the row is still to be re-checked
    | Streaming                                              // no row: the body is on its way to S3
    | Stored(bytes: seq<byte>, putAt: int)                   // S3 holds the blob
    | Stamped(bytes: seq<byte>, putAt: int, row: Row)        // the claim moved into the insert
    | Landed                                                 // committed, the claim about to drop

  /** How far one deletion has come; `Finishing` deletes its queued blobs and drops its claims. */
  datatype Job =
    | Gc(at: int, candidates: set<Hash>, current: Option<Hash>)
    | Admin(todo: set<Hash>, claimed: bool)
    | PruneMarked(before: int, at: int, doomed: set<Hash>)
    | PruneRows(before: int, at: int, doomed: set<Hash>, order: seq<Hash>)
    | SweepKnown(known: set<Hash>)
    | SweepListed(orphans: set<Hash>)
    | Sweep(orphans: set<Hash>, current: Option<Hash>)
    | Finishing

  /** What fsck keeps of a listed row. */
  datatype Brief = Brief(createdAt: int, fileSize: nat)

  datatype Audit =
    | Gated
    | Drained(ok: bool)
    | BlobsListed(ok: bool, listedAt: int, sizes: map<Hash, nat>)
    | RowsListed(ok: bool, listedAt: int, sizes: map<Hash, nat>, rowsAt: int, briefs: map<Hash, Brief>)
    | Classifying(ok: bool, listedAt: int, sizes: map<Hash, nat>, rowsAt: int, at: int,
                  briefs: map<Hash, Brief>, findings: map<Hash, Brief>)

  datatype Actor =
    | Uploader(h: Hash, stage: Stage)
    | Deleter(job: Job, keys: set<Hash>)
    | Fsck(grace: nat, verifySizes: bool, quiesced: bool, audit: Audit)

  datatype State = State(
    db: Db,
    blobs: map<Hash, seq<byte>>,
    claims: map<Hash, Claim>,
    quiescers: nat,
    lock: Option<ActorId>,
    actors: map<ActorId, Actor>,
    now: int)

  const PRUNE_BATCH: nat := 500

  datatype Step =
    // an upload (main.rs)
    | UploadClaim(a: ActorId, h: Hash)
    | UploadRecheck(a: ActorId)
    | UploadPut(a: ActorId, bytes: seq<byte>)
    | UploadStamp(a: ActorId, refs: seq<Hash>)
    | UploadInsert(a: ActorId)
    | UploadRelease(a: ActorId)
    | UploadFail(a: ActorId)
    | ExistsAck(h: Hash)
    // any deletion (deletion.rs)
    | Finish(a: ActorId)
    | DeleteBlob(a: ActorId, h: Hash)
    | Release(a: ActorId, h: Hash)
    | Exit(a: ActorId)
    // a GC batch (gc.rs)
    | GcSnapshot(a: ActorId, at: int, candidates: set<Hash>)
    | GcClaim(a: ActorId, h: Hash)
    | GcEvict(a: ActorId)
    // garret-admin delete (admin.rs)
    | AdminStart(a: ActorId, hashes: set<Hash>)
    | AdminClaim(a: ActorId, h: Hash)
    | AdminClaimed(a: ActorId)
    | AdminDelete(a: ActorId, h: Hash)
    // garret-admin prune (admin.rs)
    | PruneStart(a: ActorId, before: int)
    | PruneClaim(a: ActorId, h: Hash)
    | PruneOrder(a: ActorId, order: seq<Hash>)
    | PruneBatch(a: ActorId, n: nat)
    | PruneQueue(a: ActorId)
    // the orphan sweep (gc.rs)
    | SweepStart(a: ActorId)
    | SweepList(a: ActorId, orphans: set<Hash>)
    | SweepLock(a: ActorId)
    | SweepClaim(a: ActorId, h: Hash)
    | SweepCheck(a: ActorId)
    // garret-admin fsck (fsck.rs)
    | FsckStart(a: ActorId, grace: nat, verifySizes: bool, quiesced: bool)
    | FsckDrain(a: ActorId, ok: bool)
    | FsckListBlobs(a: ActorId)
    | FsckListRows(a: ActorId)
    | FsckStamp(a: ActorId)
    | FsckClassify(a: ActorId, h: Hash)
    | FsckRepair(a: ActorId, h: Hash)
    | FsckExit(a: ActorId)
    // everything else that writes rows or pins
    | Negotiate(hashes: set<Hash>)
    | SetPin(name: string, pin: Pin)
    | ClearPin(name: string)
    | Access(h: Hash)
    | Tick(seconds: nat)
    // the process dies: claims, the gate and every actor are in memory only
    | Crash
    // drift: S3 loses or damages an object behind the Pusher's back
    | Lose(h: Hash)
    | Damage(h: Hash, bytes: seq<byte>)

  // ------------------------------------------------------------ shared vocabulary

  predicate Holds(s: State, a: ActorId, h: Hash, k: Kind) {
    h in s.claims && s.claims[h] == Claim(k, a)
  }

  function Act(s: State, a: ActorId, x: Actor): State {
    s.(actors := s.actors[a := x])
  }

  function Leave(s: State, a: ActorId): State {
    s.(actors := s.actors - {a})
  }

  function Taken(s: State, a: ActorId, h: Hash, k: Kind): State {
    s.(claims := s.claims[h := Claim(k, a)])
  }

  function Dropped(s: State, h: Hash): State {
    s.(claims := s.claims - {h})
  }

  /** Every object of `order` once, each before the objects it refers to. */
  ghost predicate ReferrersFirst(db: Db, order: seq<Hash>) {
    && (forall i, j :: 0 <= i < j < |order| ==> order[i] != order[j])
    && (forall i, j :: 0 <= i < j < |order| && order[j] in db.rows ==> order[i] !in db.rows[order[j]].refs)
  }

  /** How a listed row disagrees with the listed blobs. */
  predicate Drifts(sizes: map<Hash, nat>, h: Hash, brief: Brief, verifySizes: bool) {
    h !in sizes || (verifySizes && sizes[h] != brief.fileSize)
  }

  // ------------------------------------------------------------ the steps

  ghost predicate UploadNext(s: State, l: Step, t: State) {
    match l
    case UploadClaim(a, h) =>
      && a !in s.actors && s.quiescers == 0 && h !in s.claims
      && t == Act(Taken(s, a, h, Upload), a, Uploader(h, Claimed))
    case UploadRecheck(a) =>
      && a in s.actors && s.actors[a].Uploader? && s.actors[a].stage.Claimed? && s.lock.None?
      && var h := s.actors[a].h;
      t == if h in s.db.rows then Leave(Dropped(s, h), a) else Act(s, a, Uploader(h, Streaming))
    case UploadPut(a, bytes) =>
      && a in s.actors && s.actors[a].Uploader? && s.actors[a].stage.Streaming?
      && var h := s.actors[a].h;
      t == Act(s.(blobs := s.blobs[h := bytes]), a, Uploader(h, Stored(bytes, s.now)))
    case UploadStamp(a, refs) =>
      && a in s.actors && s.actors[a].Uploader? && s.actors[a].stage.Stored?
      && var Stored(bytes, putAt) := s.actors[a].stage;
      && var row := Row(refs, Sha256(bytes), |bytes|, s.now, s.now, s.now);
      t == Act(s, a, Uploader(s.actors[a].h, Stamped(bytes, putAt, row)))
    case UploadInsert(a) =>
      && a in s.actors && s.actors[a].Uploader? && s.actors[a].stage.Stamped? && s.lock.None?
      && var h := s.actors[a].h;
      t == Act(s.(db := Inserted(s.db, h, s.actors[a].stage.row)), a, Uploader(h, Landed))
    case UploadRelease(a) =>
      && a in s.actors && s.actors[a].Uploader? && s.actors[a].stage.Landed?
      && t == Leave(Dropped(s, s.actors[a].h), a)
    case UploadFail(a) =>
      && a in s.actors && s.actors[a].Uploader? && !s.actors[a].stage.Landed?
      && t == Leave(Dropped(s, s.actors[a].h), a)
    case ExistsAck(h) =>
      s.lock.None? && h in s.db.rows && t == s
    case _ => false
  }

  ghost predicate FinishNext(s: State, l: Step, t: State) {
    match l
    // A finished batch, a refused claim, an error or a dropped task: from any point.
    case Finish(a) =>
      && a in s.actors && s.actors[a].Deleter?
      && t == Act(s.(lock := if s.lock == Some(a) then None else s.lock), a, Deleter(Finishing, s.actors[a].keys))
    case DeleteBlob(a, h) =>
      && a in s.actors && s.actors[a].Deleter? && s.actors[a].job.Finishing? && h in s.actors[a].keys
      && t == s.(blobs := s.blobs - {h})
    case Release(a, h) =>
      && a in s.actors && s.actors[a].Deleter? && s.actors[a].job.Finishing? && Holds(s, a, h, Delete)
      && t == Act(Dropped(s, h), a, Deleter(Finishing, s.actors[a].keys - {h}))
    case Exit(a) =>
      && a in s.actors && s.actors[a].Deleter? && s.actors[a].job.Finishing?
      && (forall h :: h in s.claims ==> s.claims[h].holder != a)
      && t == Leave(s, a)
    case _ => false
  }

  ghost predicate GcNext(s: State, l: Step, t: State) {
    match l
    // the clock was read before the connection was waited for
    case GcSnapshot(a, at, candidates) =>
      && a !in s.actors && s.lock.None? && at <= s.now
      && (forall h :: h in candidates ==> Evictable(s.db, h, at))
      && t == Act(s, a, Deleter(Gc(at, candidates, None), {}))
    case GcClaim(a, h) =>
      && a in s.actors && s.actors[a].Deleter? && s.actors[a].job.Gc?
      && var Gc(at, candidates, current) := s.actors[a].job;
      && current.None? && h in candidates
      // a candidate that an upload or a deletion holds is skipped
      && t == if h in s.claims
              then Act(s, a, Deleter(Gc(at, candidates - {h}, None), s.actors[a].keys))
              else Act(Taken(s, a, h, Delete), a, Deleter(Gc(at, candidates - {h}, Some(h)), s.actors[a].keys))
    case GcEvict(a) =>
      && a in s.actors && s.actors[a].Deleter? && s.actors[a].job.Gc? && s.lock.None?
      && var Gc(at, candidates, current) := s.actors[a].job;
      && current.Some?
      && var h := current.value;
      t == if Evictable(s.db, h, at)
           then Act(s.(db := Removed(s.db, {h})), a, Deleter(Gc(at, candidates, None), s.actors[a].keys + {h}))
           else Act(Dropped(s, h), a, Deleter(Gc(at, candidates, None), s.actors[a].keys))
    case _ => false
  }

  ghost predicate AdminNext(s: State, l: Step, t: State) {
    match l
    case AdminStart(a, hashes) =>
      a !in s.actors && t == Act(s, a, Deleter(Admin(hashes, false), {}))
    case AdminClaim(a, h) =>
      && a in s.actors && s.actors[a].Deleter? && s.actors[a].job.Admin? && !s.actors[a].job.claimed
      && h in s.actors[a].job.todo && h !in s.claims
      && t == Taken(s, a, h, Delete)
    case AdminClaimed(a) =>
      && a in s.actors && s.actors[a].Deleter? && s.actors[a].job.Admin?
      && (forall h :: h in s.actors[a].job.todo ==> Holds(s, a, h, Delete))
      && t == Act(s, a, Deleter(Admin(s.actors[a].job.todo, true), s.actors[a].keys))
    case AdminDelete(a, h) =>
      && a in s.actors && s.actors[a].Deleter? && s.actors[a].job.Admin? && s.actors[a].job.claimed
      && h in s.actors[a].job.todo && s.lock.None?
      && var job := Admin(s.actors[a].job.todo - {h}, true);
      t == if h in s.db.rows
           then Act(s.(db := Removed(s.db, {h})), a, Deleter(job, s.actors[a].keys + {h}))
           else Act(s, a, Deleter(job, s.actors[a].keys))
    case _ => false
  }

  ghost predicate PruneNext(s: State, l: Step, t: State) {
    match l
    case PruneStart(a, before) =>
      && a !in s.actors && s.lock.None? && before <= s.now - PUSH_GRACE
      && t == Act(s.(lock := Some(a)), a,
                  Deleter(PruneMarked(before, s.now, Prunable(s.db, before, s.now)), {}))
    case PruneClaim(a, h) =>
      && a in s.actors && s.actors[a].Deleter? && s.actors[a].job.PruneMarked?
      && h in s.actors[a].job.doomed && h !in s.claims
      && t == Taken(s, a, h, Delete)
    case PruneOrder(a, order) =>
      && a in s.actors && s.actors[a].Deleter? && s.actors[a].job.PruneMarked?
      && var PruneMarked(before, at, doomed) := s.actors[a].job;
      && (forall h :: h in doomed ==> Holds(s, a, h, Delete))
      && Elems(order) == doomed && ReferrersFirst(s.db, order)
      && t == Act(s, a, Deleter(PruneRows(before, at, doomed, order), {}))
    case PruneBatch(a, n) =>
      && a in s.actors && s.actors[a].Deleter? && s.actors[a].job.PruneRows?
      && var PruneRows(before, at, doomed, order) := s.actors[a].job;
      && 0 < n <= |order| && n <= PRUNE_BATCH
      && t == Act(s.(db := Removed(s.db, Elems(order[..n]))), a,
                  Deleter(PruneRows(before, at, doomed, order[n..]), {}))
    case PruneQueue(a) =>
      && a in s.actors && s.actors[a].Deleter? && s.actors[a].job.PruneRows? && s.actors[a].job.order == []
      && t == Act(s.(lock := None), a, Deleter(Finishing, s.actors[a].job.doomed))
    case _ => false
  }

  ghost predicate SweepNext(s: State, l: Step, t: State) {
    match l
    case SweepStart(a) =>
      && a !in s.actors && s.lock.None?
      && t == Act(s, a, Deleter(SweepKnown(s.db.rows.Keys), {}))
    case SweepList(a, orphans) =>
      && a in s.actors && s.actors[a].Deleter? && s.actors[a].job.SweepKnown?
      && orphans <= s.blobs.Keys - s.actors[a].job.known
      && t == Act(s, a, Deleter(SweepListed(orphans), {}))
    case SweepLock(a) =>
      && a in s.actors && s.actors[a].Deleter? && s.actors[a].job.SweepListed? && s.lock.None?
      && t == Act(s.(lock := Some(a)), a, Deleter(Sweep(s.actors[a].job.orphans, None), {}))
    case SweepClaim(a, h) =>
      && a in s.actors && s.actors[a].Deleter? && s.actors[a].job.Sweep?
      && var Sweep(orphans, current) := s.actors[a].job;
      && current.None? && h in orphans && h !in s.claims
      && t == Act(Taken(s, a, h, Delete), a, Deleter(Sweep(orphans - {h}, Some(h)), s.actors[a].keys))
    case SweepCheck(a) =>
      && a in s.actors && s.actors[a].Deleter? && s.actors[a].job.Sweep?
      && var Sweep(orphans, current) := s.actors[a].job;
      && current.Some?
      && var h := current.value;
      t == if h in s.db.rows
           then Act(Dropped(s, h), a, Deleter(Sweep(orphans, None), s.actors[a].keys))
           else Act(s, a, Deleter(Sweep(orphans, None), s.actors[a].keys + {h}))
    case _ => false
  }

  ghost predicate FsckNext(s: State, l: Step, t: State) {
    match l
    case FsckStart(a, grace, verifySizes, quiesced) =>
      && a !in s.actors
      && t == Act(s.(quiescers := s.quiescers + if quiesced then 1 else 0), a,
                  Fsck(grace, verifySizes, quiesced, Gated))
    case FsckDrain(a, ok) =>
      && a in s.actors && s.actors[a].Fsck? && s.actors[a].audit.Gated?
      && (if s.actors[a].quiesced
          then ok ==> forall h :: h in s.claims ==> s.claims[h].kind == Delete
          else ok)
      && t == Act(s, a, s.actors[a].(audit := Drained(ok)))
    case FsckListBlobs(a) =>
      && a in s.actors && s.actors[a].Fsck? && s.actors[a].audit.Drained?
      && var sizes: map<Hash, nat> := map h | h in s.blobs :: |s.blobs[h]|;
      t == Act(s, a, s.actors[a].(audit := BlobsListed(s.actors[a].audit.ok, s.now, sizes)))
    case FsckListRows(a) =>
      && a in s.actors && s.actors[a].Fsck? && s.actors[a].audit.BlobsListed? && s.lock.None?
      && var BlobsListed(ok, listedAt, sizes) := s.actors[a].audit;
      && var briefs := map h | h in s.db.rows :: Brief(s.db.rows[h].createdAt, s.db.rows[h].fileSize);
      t == Act(s, a, s.actors[a].(audit := RowsListed(ok, listedAt, sizes, s.now, briefs)))
    case FsckStamp(a) =>
      && a in s.actors && s.actors[a].Fsck? && s.actors[a].audit.RowsListed?
      && var RowsListed(ok, listedAt, sizes, rowsAt, briefs) := s.actors[a].audit;
      t == Act(s, a, s.actors[a].(audit := Classifying(ok, listedAt, sizes, rowsAt, s.now, briefs, map[])))
    case FsckClassify(a, h) =>
      && a in s.actors && s.actors[a].Fsck? && s.actors[a].audit.Classifying?
      && var x := s.actors[a];
      && h in x.audit.briefs
      && var brief := x.audit.briefs[h];
      && var found := h !in s.claims && x.audit.at - brief.createdAt >= x.grace
                      && Drifts(x.audit.sizes, h, brief, x.verifySizes);
      && var findings := if found then x.audit.findings[h := brief] else x.audit.findings;
      t == Act(s, a, x.(audit := x.audit.(briefs := x.audit.briefs - {h}, findings := findings)))
    case FsckRepair(a, h) =>
      && a in s.actors && s.actors[a].Fsck? && s.actors[a].audit.Classifying? && s.lock.None?
      && var x := s.actors[a];
      && x.audit.ok && x.audit.briefs == map[] && h in x.audit.findings
      && t == Act(if Repairs(s, x.audit, h) then s.(db := Removed(s.db, {h})) else s, a,
                  x.(audit := x.audit.(findings := x.audit.findings - {h})))
    case FsckExit(a) =>
      && a in s.actors && s.actors[a].Fsck?
      && (s.actors[a].quiesced ==> s.quiescers > 0)
      && t == Leave(s.(quiescers := if s.actors[a].quiesced then s.quiescers - 1 else s.quiescers), a)
    case _ => false
  }

  /** The row the repair would delete is the one that was listed. */
  predicate Repairs(s: State, audit: Audit, h: Hash)
    requires audit.Classifying? && h in audit.findings
  {
    h in s.db.rows && s.db.rows[h].createdAt == audit.findings[h].createdAt
  }

  ghost predicate WorldNext(s: State, l: Step, t: State) {
    match l
    case Negotiate(hashes) => s.lock.None? && t == s.(db := Negotiated(s.db, hashes, s.now))
    case SetPin(name, pin) => s.lock.None? && t == s.(db := PinSet(s.db, name, pin))
    case ClearPin(name) => s.lock.None? && t == s.(db := PinCleared(s.db, name))
    case Access(h) => t == s.(db := Accessed(s.db, h, s.now))
    case Tick(seconds) => t == s.(now := s.now + seconds)
    case Crash => t == State(s.db, s.blobs, map[], 0, None, map[], s.now)
    case _ => false
  }

  /** S3 loses an object, or damages one so that its size no longer is the recorded one. */
  ghost predicate DriftNext(s: State, l: Step, t: State) {
    match l
    case Lose(h) => t == s.(blobs := s.blobs - {h})
    case Damage(h, bytes) =>
      && h in s.db.rows && |bytes| != s.db.rows[h].fileSize
      && t == s.(blobs := s.blobs[h := bytes])
    case _ => false
  }

  /** Whose step it is. */
  datatype Family = ByUpload | ByFinish | ByGc | ByAdmin | ByPrune | BySweep | ByFsck | ByWorld | ByDrift

  function FamilyOf(l: Step): Family {
    if l.UploadClaim? || l.UploadRecheck? || l.UploadPut? || l.UploadStamp? || l.UploadInsert? || l.UploadRelease?
       || l.UploadFail? || l.ExistsAck? then ByUpload
    else if l.Finish? || l.DeleteBlob? || l.Release? || l.Exit? then ByFinish
    else if l.GcSnapshot? || l.GcClaim? || l.GcEvict? then ByGc
    else if l.AdminStart? || l.AdminClaim? || l.AdminClaimed? || l.AdminDelete? then ByAdmin
    else if l.PruneStart? || l.PruneClaim? || l.PruneOrder? || l.PruneBatch? || l.PruneQueue? then ByPrune
    else if l.SweepStart? || l.SweepList? || l.SweepLock? || l.SweepClaim? || l.SweepCheck? then BySweep
    else if l.FsckStart? || l.FsckDrain? || l.FsckListBlobs? || l.FsckListRows? || l.FsckStamp? || l.FsckClassify?
            || l.FsckRepair? || l.FsckExit? then ByFsck
    else if l.Lose? || l.Damage? then ByDrift
    else ByWorld
  }

  ghost predicate Next(s: State, l: Step, t: State) {
    match FamilyOf(l)
    case ByUpload => UploadNext(s, l, t)
    case ByFinish => FinishNext(s, l, t)
    case ByGc => GcNext(s, l, t)
    case ByAdmin => AdminNext(s, l, t)
    case ByPrune => PruneNext(s, l, t)
    case BySweep => SweepNext(s, l, t)
    case ByFsck => FsckNext(s, l, t)
    case ByWorld => WorldNext(s, l, t)
    case ByDrift => DriftNext(s, l, t)
  }

  lemma UploadIsNext(s: State, l: Step, t: State)
    requires UploadNext(s, l, t)
    ensures Next(s, l, t) && !IsDrift(l)
  {
  }

  lemma GcIsNext(s: State, l: Step, t: State)
    requires GcNext(s, l, t)
    ensures Next(s, l, t) && !IsDrift(l)
  {
  }

  lemma FsckIsNext(s: State, l: Step, t: State)
    requires FsckNext(s, l, t)
    ensures Next(s, l, t) && !IsDrift(l)
  {
  }

  lemma WorldIsNext(s: State, l: Step, t: State)
    requires WorldNext(s, l, t)
    ensures Next(s, l, t) && !IsDrift(l)
  {
  }

  predicate IsDrift(l: Step) {
    l.Lose? || l.Damage?
  }

  /** `run[i]` becomes `run[i + 1]` by `steps[i]`. */
  ghost predicate Run(run: seq<State>, steps: seq<Step>) {
    && |run| == |steps| + 1
    && forall i :: 0 <= i < |steps| ==> Next(run[i], steps[i], run[i + 1])
  }

  lemma Extend(run: seq<State>, steps: seq<Step>, l: Step, t: State)
    requires Run(run, steps) && Next(run[|steps|], l, t)
    ensures Run(run + [t], steps + [l])
  {
  }

  /** The steps that change a row or a pin. */
  predicate WritesDb(l: Step) {
    || l.UploadInsert? || l.GcEvict? || l.AdminDelete? || l.PruneBatch? || l.FsckRepair?
    || l.Negotiate? || l.SetPin? || l.ClearPin? || l.Access?
  }

  lemma UploadKeepsDb(s: State, l: Step, t: State)
    requires UploadNext(s, l, t) && !WritesDb(l)
    ensures t.db == s.db
  {
  }

  lemma FinishKeepsDb(s: State, l: Step, t: State)
    requires FinishNext(s, l, t) && !WritesDb(l)
    ensures t.db == s.db
  {
  }

  lemma GcKeepsDb(s: State, l: Step, t: State)
    requires GcNext(s, l, t) && !WritesDb(l)
    ensures t.db == s.db
  {
  }

  lemma AdminKeepsDb(s: State, l: Step, t: State)
    requires AdminNext(s, l, t) && !WritesDb(l)
    ensures t.db == s.db
  {
  }

  lemma PruneKeepsDb(s: State, l: Step, t: State)
    requires PruneNext(s, l, t) && !WritesDb(l)
    ensures t.db == s.db
  {
  }

  lemma SweepKeepsDb(s: State, l: Step, t: State)
    requires SweepNext(s, l, t) && !WritesDb(l)
    ensures t.db == s.db
  {
  }

  lemma FsckKeepsDb(s: State, l: Step, t: State)
    requires FsckNext(s, l, t) && !WritesDb(l)
    ensures t.db == s.db
  {
  }

  lemma WorldKeepsDb(s: State, l: Step, t: State)
    requires WorldNext(s, l, t) && !WritesDb(l)
    ensures t.db == s.db
  {
  }

  lemma DriftKeepsDb(s: State, l: Step, t: State)
    requires DriftNext(s, l, t) && !WritesDb(l)
    ensures t.db == s.db
  {
  }

  lemma OthersKeepDb(s: State, l: Step, t: State)
    requires Next(s, l, t) && !WritesDb(l)
    ensures t.db == s.db
  {
    match FamilyOf(l) {
      case ByUpload => UploadKeepsDb(s, l, t);
      case ByFinish => FinishKeepsDb(s, l, t);
      case ByGc => GcKeepsDb(s, l, t);
      case ByAdmin => AdminKeepsDb(s, l, t);
      case ByPrune => PruneKeepsDb(s, l, t);
      case BySweep => SweepKeepsDb(s, l, t);
      case ByFsck => FsckKeepsDb(s, l, t);
      case ByWorld => WorldKeepsDb(s, l, t);
      case ByDrift => DriftKeepsDb(s, l, t);
    }
  }
}
