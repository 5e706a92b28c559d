/**
 A live fsck repair deletes no healthy row: one whose blob is present with the
 recorded size. The listings are snapshots and the repair takes no claim, so what
 protects a row pushed meanwhile is time: a row old enough to be a finding had
 its blob put before the blobs were listed.
 */
module Repair {
  import opened Basics
  import opened Catalog
  import opened Protocol
  import opened Safety

  /** No blob of the given size at `h`. */
  predicate Mismatch(blobs: map<Hash, seq<byte>>, h: Hash, size: nat) {
    !(h in blobs && |blobs[h]| == size)
  }

  predicate ListedMismatch(sizes: map<Hash, nat>, h: Hash, size: nat) {
    !(h in sizes && sizes[h] == size)
  }

  predicate HasBlobs(x: Actor) {
    x.Fsck? && (x.audit.BlobsListed? || x.audit.RowsListed? || x.audit.Classifying?)
  }

  predicate HasRows(x: Actor) {
    x.Fsck? && (x.audit.RowsListed? || x.audit.Classifying?)
  }

  /** A row older than the blob listing that disagrees with it disagrees with S3 now. */
  ghost predicate RowTold(s: State, listedAt: int, sizes: map<Hash, nat>, h: Hash) {
    h in s.db.rows && s.db.rows[h].createdAt < listedAt
    && ListedMismatch(sizes, h, s.db.rows[h].fileSize)
    ==> Mismatch(s.blobs, h, s.db.rows[h].fileSize)
  }

  /** The same of the blob of an upload that may yet commit. */
  ghost predicate UploadTold(s: State, listedAt: int, sizes: map<Hash, nat>, u: ActorId) {
    u in s.actors && s.actors[u].Uploader? && (s.actors[u].stage.Stored? || s.actors[u].stage.Stamped?)
    && s.actors[u].stage.putAt < listedAt
    && ListedMismatch(sizes, s.actors[u].h, |s.actors[u].stage.bytes|)
    ==> Mismatch(s.blobs, s.actors[u].h, |s.actors[u].stage.bytes|)
  }

  ghost predicate BlobsTold(s: State, listedAt: int, sizes: map<Hash, nat>) {
    && listedAt <= s.now
    && (forall h :: RowTold(s, listedAt, sizes, h))
    && (forall u :: UploadTold(s, listedAt, sizes, u))
  }

  /** A row of a listed path that is older than the listing is the listed row. */
  ghost predicate RowListed(s: State, listedAt: int, h: Hash, brief: Brief) {
    && (h in s.db.rows && s.db.rows[h].createdAt < listedAt ==> s.db.rows[h].fileSize == brief.fileSize)
    && (forall u :: u in s.actors && s.actors[u].Uploader? && s.actors[u].h == h && s.actors[u].stage.Stamped?
                    ==> s.actors[u].stage.row.createdAt >= listedAt)
  }

  ghost predicate RowsTold(s: State, listedAt: int, briefs: map<Hash, Brief>) {
    forall h :: h in briefs ==> RowListed(s, listedAt, h, briefs[h])
  }

  predicate Found(x: Actor, h: Hash, brief: Brief)
    requires x.Fsck? && x.audit.Classifying?
  {
    x.audit.at - brief.createdAt >= x.grace && Drifts(x.audit.sizes, h, brief, x.verifySizes)
  }

  ghost predicate AuditSafe(s: State, x: Actor) {
    && (HasBlobs(x) ==> BlobsTold(s, x.audit.listedAt, x.audit.sizes))
    && (HasRows(x) ==> RowsTold(s, x.audit.listedAt, x.audit.briefs))
    && (x.Fsck? && x.audit.Classifying? ==>
          && RowsTold(s, x.audit.listedAt, x.audit.findings)
          && forall h :: h in x.audit.findings ==> Found(x, h, x.audit.findings[h]))
  }

  ghost predicate AuditsSafe(s: State) {
    forall f :: f in s.actors && s.actors[f].Fsck? ==> AuditSafe(s, s.actors[f])
  }

  // ------------------------------------------------------------ every step keeps it

  /** What a listing told stays true while no row appears and blobs are only lost or damaged. */
  ghost predicate Quiet(s: State, t: State) {
    && s.now <= t.now
    && (forall h :: h in t.db.rows ==>
          && h in s.db.rows && t.db.rows[h].createdAt == s.db.rows[h].createdAt
          && t.db.rows[h].fileSize == s.db.rows[h].fileSize
          && (h in t.blobs && |t.blobs[h]| == t.db.rows[h].fileSize ==> h in s.blobs && |s.blobs[h]| == |t.blobs[h]|))
    && (forall u :: u in t.actors && t.actors[u].Uploader? ==>
          && u in s.actors && s.actors[u] == t.actors[u]
          && (t.actors[u].stage.Stored? || t.actors[u].stage.Stamped? ==>
                var h := t.actors[u].h;
                h in t.blobs ==> h in s.blobs && s.blobs[h] == t.blobs[h]))
  }

  lemma QuietKeepsAudit(s: State, t: State, x: Actor)
    requires AuditSafe(s, x) && Quiet(s, t)
    ensures AuditSafe(t, x)
  {
    if HasBlobs(x) {
      var listedAt, sizes := x.audit.listedAt, x.audit.sizes;
      forall h
        ensures RowTold(t, listedAt, sizes, h)
      {
        assert RowTold(s, listedAt, sizes, h);
      }
      forall u
        ensures UploadTold(t, listedAt, sizes, u)
      {
        assert UploadTold(s, listedAt, sizes, u);
      }
    }
    forall h, listedAt, brief | RowListed(s, listedAt, h, brief)
      ensures RowListed(t, listedAt, h, brief)
    {
    }
  }

  ghost predicate SameAudits(s: State, t: State) {
    forall f :: f in t.actors && t.actors[f].Fsck? ==> f in s.actors && s.actors[f] == t.actors[f]
  }

  lemma DriftIsQuiet(s: State, l: Step, t: State)
    requires Safe(s) && DriftNext(s, l, t)
    ensures Quiet(s, t) && SameAudits(s, t)
  {
    forall u | u in t.actors
      ensures ActorSafe(s, u)
    {
    }
  }

  lemma FinishIsQuiet(s: State, l: Step, t: State)
    requires FinishNext(s, l, t)
    ensures Quiet(s, t) && SameAudits(s, t)
  {
  }

  lemma WorldIsQuiet(s: State, l: Step, t: State)
    requires WorldNext(s, l, t)
    ensures Quiet(s, t) && SameAudits(s, t)
  {
    OthersAddNothing(s, l, t);
  }

  lemma GcIsQuiet(s: State, l: Step, t: State)
    requires GcNext(s, l, t) || AdminNext(s, l, t)
    ensures Quiet(s, t) && SameAudits(s, t)
  {
    GcAddsNothing(s, l, t);
  }

  lemma PruneIsQuiet(s: State, l: Step, t: State)
    requires PruneNext(s, l, t) || SweepNext(s, l, t)
    ensures Quiet(s, t) && SameAudits(s, t)
  {
    PruneAddsNothing(s, l, t);
  }

  lemma DeletersAreQuiet(s: State, l: Step, t: State)
    requires GcNext(s, l, t) || AdminNext(s, l, t) || PruneNext(s, l, t) || SweepNext(s, l, t)
    ensures Quiet(s, t) && SameAudits(s, t)
  {
    if GcNext(s, l, t) || AdminNext(s, l, t) {
      GcIsQuiet(s, l, t);
    } else {
      PruneIsQuiet(s, l, t);
    }
  }

  lemma NoNewContentIsQuiet(s: State, t: State)
    requires NoNewContent(s, t) && s.now <= t.now
    ensures Quiet(s, t)
  {
  }

  lemma UploadKeepsTold(s: State, l: Step, t: State, listedAt: int, sizes: map<Hash, nat>)
    requires Safe(s) && Safe(t) && UploadNext(s, l, t) && !l.ExistsAck? && listedAt <= s.now
    requires BlobsTold(s, listedAt, sizes)
    ensures BlobsTold(t, listedAt, sizes)
  {
    assert ActorSafe(s, l.a);
    forall h
      ensures RowTold(t, listedAt, sizes, h)
    {
      assert RowTold(s, listedAt, sizes, h);
      assert UploadTold(s, listedAt, sizes, l.a);
    }
    forall u
      ensures UploadTold(t, listedAt, sizes, u)
    {
      assert UploadTold(s, listedAt, sizes, u);
      assert ActorSafe(s, u);
    }
  }

  lemma UploadKeepsListed(s: State, l: Step, t: State, listedAt: int, briefs: map<Hash, Brief>)
    requires Safe(s) && UploadNext(s, l, t) && !l.ExistsAck? && listedAt <= s.now
    requires RowsTold(s, listedAt, briefs)
    ensures RowsTold(t, listedAt, briefs)
  {
    assert ActorSafe(s, l.a);
    forall h | h in briefs
      ensures RowListed(t, listedAt, h, briefs[h])
    {
      assert RowListed(s, listedAt, h, briefs[h]);
    }
  }

  /** An upload's own steps: its put is after the listing, or its blob was there to be listed. */
  lemma UploadKeepsAudit(s: State, l: Step, t: State, x: Actor)
    requires Safe(s) && Safe(t) && AuditSafe(s, x) && UploadNext(s, l, t)
    ensures AuditSafe(t, x)
  {
    if l.ExistsAck? {
      return;
    }
    if HasBlobs(x) {
      UploadKeepsTold(s, l, t, x.audit.listedAt, x.audit.sizes);
    }
    if HasRows(x) {
      UploadKeepsListed(s, l, t, x.audit.listedAt, x.audit.briefs);
    }
    if x.Fsck? && x.audit.Classifying? {
      UploadKeepsListed(s, l, t, x.audit.listedAt, x.audit.findings);
    }
  }

  /** A fresh listing tells what there is. */
  lemma ListingTells(s: State, sizes: map<Hash, nat>)
    requires sizes == map h | h in s.blobs :: |s.blobs[h]|
    ensures BlobsTold(s, s.now, sizes)
  {
  }

  /** A listed row is the listed row, and no upload of its path is past the re-check. */
  lemma RowListingTells(s: State, listedAt: int, briefs: map<Hash, Brief>)
    requires Safe(s)
    requires briefs == map h | h in s.db.rows :: Brief(s.db.rows[h].createdAt, s.db.rows[h].fileSize)
    ensures RowsTold(s, listedAt, briefs)
  {
    forall h, u | h in briefs && u in s.actors && s.actors[u].Uploader? && s.actors[u].h == h
      ensures !s.actors[u].stage.Stamped?
    {
      assert ActorSafe(s, u);
    }
  }

  /** A fsck's own steps. */
  lemma OwnStepKeepsAudit(s: State, l: Step, t: State)
    requires Safe(s) && FsckNext(s, l, t) && l.a in s.actors && l.a in t.actors
    requires AuditSafe(s, s.actors[l.a])
    ensures AuditSafe(s, t.actors[l.a])
  {
    var x, y := s.actors[l.a], t.actors[l.a];
    match l {
      case FsckListBlobs(_) =>
        ListingTells(s, y.audit.sizes);
      case FsckListRows(_) =>
        RowListingTells(s, y.audit.listedAt, y.audit.briefs);
      case _ =>
    }
  }

  lemma FsckKeepsAudits(s: State, l: Step, t: State)
    requires Safe(s) && AuditsSafe(s) && FsckNext(s, l, t) && s.now <= t.now
    ensures AuditsSafe(t)
  {
    OthersAddNothing(s, l, t);
    NoNewContentIsQuiet(s, t);
    forall f | f in t.actors && t.actors[f].Fsck?
      ensures AuditSafe(t, t.actors[f])
    {
      if f == l.a && f in s.actors {
        OwnStepKeepsAudit(s, l, t);
      }
      if f in s.actors {
        QuietKeepsAudit(s, t, t.actors[f]);
      }
    }
  }

  lemma QuietKeepsAudits(s: State, t: State)
    requires AuditsSafe(s) && Quiet(s, t)
    requires SameAudits(s, t)
    ensures AuditsSafe(t)
  {
    forall f | f in t.actors && t.actors[f].Fsck?
      ensures AuditSafe(t, t.actors[f])
    {
      QuietKeepsAudit(s, t, t.actors[f]);
    }
  }

  lemma UploadKeepsAudits(s: State, l: Step, t: State)
    requires Safe(s) && Safe(t) && AuditsSafe(s) && UploadNext(s, l, t)
    ensures AuditsSafe(t)
  {
    forall f | f in t.actors && t.actors[f].Fsck?
      ensures AuditSafe(t, t.actors[f])
    {
      UploadKeepsAudit(s, l, t, t.actors[f]);
    }
  }

  lemma NextKeepsAudits(s: State, l: Step, t: State)
    requires Safe(s) && Safe(t) && AuditsSafe(s) && Next(s, l, t) && s.now <= t.now
    ensures AuditsSafe(t)
  {
    if UploadNext(s, l, t) {
      UploadKeepsAudits(s, l, t);
    } else if FsckNext(s, l, t) {
      FsckKeepsAudits(s, l, t);
    } else {
      if FinishNext(s, l, t) {
        FinishIsQuiet(s, l, t);
      } else if DriftNext(s, l, t) {
        DriftIsQuiet(s, l, t);
      } else if WorldNext(s, l, t) {
        WorldIsQuiet(s, l, t);
      } else {
        DeletersAreQuiet(s, l, t);
      }
      QuietKeepsAudits(s, t);
    }
  }

  // ------------------------------------------------------------ over whole runs

  lemma {:induction false} RunKeepsAudits(run: seq<State>, steps: seq<Step>, i: nat)
    requires Run(run, steps) && Initial(run[0]) && i <= |steps|
    ensures AuditsSafe(run[i])
  {
    if i > 0 {
      RunKeepsAudits(run, steps, i - 1);
      assert Next(run[i - 1], steps[i - 1], run[i - 1 + 1]);
      SafeAt(run, steps, i - 1);
      SafeAt(run, steps, i);
      ClockStep(run[i - 1], steps[i - 1], run[i]);
      NextKeepsAudits(run[i - 1], steps[i - 1], run[i]);
    }
  }

  lemma FindingsAreAmiss(s: State, x: Actor, h: Hash)
    requires x.Fsck? && x.audit.Classifying? && AuditSafe(s, x)
    requires x.audit.at - x.audit.listedAt < x.grace
    requires h in x.audit.findings && Repairs(s, x.audit, h)
    ensures Mismatch(s.blobs, h, s.db.rows[h].fileSize)
  {
    assert RowListed(s, x.audit.listedAt, h, x.audit.findings[h]);
    assert RowTold(s, x.audit.listedAt, x.audit.sizes, h);
  }

  /**
   Whatever is uploaded, evicted, deleted, pushed again, lost or damaged between
   fsck's listings and its deletes: the row a repair deletes has no blob of the
   recorded size, provided the grace is longer than the time from the blob
   listing to the classification.
   */
  lemma RepairSparesHealthy(run: seq<State>, steps: seq<Step>, i: nat)
    requires Run(run, steps) && Initial(run[0]) && i < |steps| && steps[i].FsckRepair?
    ensures steps[i].a in run[i].actors && run[i].actors[steps[i].a].Fsck?
    ensures var x := run[i].actors[steps[i].a];
            var h := steps[i].h;
            && x.audit.Classifying? && h in x.audit.findings
            && (x.audit.at - x.audit.listedAt < x.grace && Repairs(run[i], x.audit, h)
                ==> Mismatch(run[i].blobs, h, run[i].db.rows[h].fileSize))
  {
    RunKeepsAudits(run, steps, i);
    assert Next(run[i], steps[i], run[i + 1]);
    var x := run[i].actors[steps[i].a];
    if x.audit.at - x.audit.listedAt < x.grace && Repairs(run[i], x.audit, steps[i].h) {
      FindingsAreAmiss(run[i], x, steps[i].h);
    }
  }

  /** Without drift there is nothing to repair: a repair deletes no row at all. */
  lemma RepairFindsNothing(run: seq<State>, steps: seq<Step>, i: nat)
    requires Run(run, steps) && Initial(run[0]) && i < |steps| && steps[i].FsckRepair?
    requires forall k :: 0 <= k < |steps| ==> !IsDrift(steps[k])
    requires steps[i].a in run[i].actors && run[i].actors[steps[i].a].Fsck?
    requires run[i].actors[steps[i].a].audit.Classifying?
    requires var x := run[i].actors[steps[i].a];
             x.audit.at - x.audit.listedAt < x.grace
    ensures run[i + 1].db == run[i].db
  {
    RepairSparesHealthy(run, steps, i);
    RowImpliesBlob(run, steps);
    var x, h := run[i].actors[steps[i].a], steps[i].h;
    assert h in run[i].db.rows ==> Describes(run[i].db.rows[h], run[i].blobs, h);
    assert !Repairs(run[i], x.audit, h);
  }

  // ------------------------------------------------------------ the grace cannot be shorter

  /** Some run without drift goes from `s` to `t`. */
  ghost predicate Leads(s: State, t: State) {
    exists run, steps :: LeadsBy(run, steps, s, t)
  }

  ghost predicate LeadsBy(run: seq<State>, steps: seq<Step>, s: State, t: State) {
    && Run(run, steps) && run[0] == s && run[|steps|] == t
    && forall k :: 0 <= k < |steps| ==> !IsDrift(steps[k])
  }

  lemma Stays(s: State)
    ensures Leads(s, s)
  {
    assert LeadsBy([s], [], s, s);
  }

  lemma Goes(s: State, t: State, l: Step, u: State)
    requires Leads(s, t) && Next(t, l, u) && !IsDrift(l)
    ensures Leads(s, u)
  {
    var run, steps :| LeadsBy(run, steps, s, t);
    Extend(run, steps, l, u);
    assert LeadsBy(run + [u], steps + [l], s, u);
  }

  lemma UploadGoes(s: State, t: State, l: Step, u: State)
    requires Leads(s, t) && UploadNext(t, l, u)
    ensures Leads(s, u)
  {
    UploadIsNext(t, l, u);
    Goes(s, t, l, u);
  }

  lemma FsckGoes(s: State, t: State, l: Step, u: State)
    requires Leads(s, t) && FsckNext(t, l, u)
    ensures Leads(s, u)
  {
    FsckIsNext(t, l, u);
    Goes(s, t, l, u);
  }

  lemma WorldGoes(s: State, t: State, l: Step, u: State)
    requires Leads(s, t) && WorldNext(t, l, u)
    ensures Leads(s, u)
  {
    WorldIsNext(t, l, u);
    Goes(s, t, l, u);
  }

  /** An audit of bucket and rows with this grace, as it stands. */
  function Auditor(grace: nat, audit: Audit): Actor {
    Fsck(grace, true, false, audit)
  }

  lemma Replaced(s: State, x: Actor, y: Actor)
    ensures Act(Act(s, 1, x), 1, y) == Act(s, 1, y)
  {
    assert s.actors[1 := x][1 := y] == s.actors[1 := y];
  }

  lemma Drains(s: State, grace: nat)
    ensures FsckNext(Act(s, 1, Auditor(grace, Gated)), FsckDrain(1, true), Act(s, 1, Auditor(grace, Drained(true))))
  {
    Replaced(s, Auditor(grace, Gated), Auditor(grace, Drained(true)));
  }

  lemma ListsBlobs(s: State, grace: nat)
    requires s.blobs == map[]
    ensures FsckNext(Act(s, 1, Auditor(grace, Drained(true))), FsckListBlobs(1),
                     Act(s, 1, Auditor(grace, BlobsListed(true, s.now, map[]))))
  {
    Replaced(s, Auditor(grace, Drained(true)), Auditor(grace, BlobsListed(true, s.now, map[])));
  }

  lemma ListsRows(t: State, grace: nat, h: Hash, row: Row, briefs: map<Hash, Brief>)
    requires t.db.rows == map[h := row] && t.lock.None? && briefs == map[h := Brief(row.createdAt, row.fileSize)]
    ensures FsckNext(Act(t, 1, Auditor(grace, BlobsListed(true, t.now, map[]))), FsckListRows(1),
                     Act(t, 1, Auditor(grace, RowsListed(true, t.now, map[], t.now, briefs))))
  {
    Replaced(t, Auditor(grace, BlobsListed(true, t.now, map[])),
             Auditor(grace, RowsListed(true, t.now, map[], t.now, briefs)));
    assert (map k | k in t.db.rows :: Brief(t.db.rows[k].createdAt, t.db.rows[k].fileSize)) == briefs;
  }

  lemma Stamps(t: State, grace: nat, at: int, briefs: map<Hash, Brief>)
    ensures FsckNext(Act(t, 1, Auditor(grace, RowsListed(true, at, map[], at, briefs))), FsckStamp(1),
                     Act(t, 1, Auditor(grace, Classifying(true, at, map[], at, t.now, briefs, map[]))))
  {
    Replaced(t, Auditor(grace, RowsListed(true, at, map[], at, briefs)),
             Auditor(grace, Classifying(true, at, map[], at, t.now, briefs, map[])));
  }

  lemma Classifies(t: State, grace: nat, at: int, h: Hash, brief: Brief)
    requires h !in t.claims && t.now - brief.createdAt >= grace
    ensures FsckNext(Act(t, 1, Auditor(grace, Classifying(true, at, map[], at, t.now, map[h := brief], map[]))),
                     FsckClassify(1, h),
                     Act(t, 1, Auditor(grace, Classifying(true, at, map[], at, t.now, map[], map[h := brief]))))
  {
    Replaced(t, Auditor(grace, Classifying(true, at, map[], at, t.now, map[h := brief], map[])),
             Auditor(grace, Classifying(true, at, map[], at, t.now, map[], map[h := brief])));
    assert map[h := brief] - {h} == map[];
  }

  /** fsck starts and lists a bucket that is empty as yet. */
  lemma ListsFirst(grace: nat, s: State)
    requires 1 !in s.actors && s.blobs == map[]
    ensures Leads(s, Act(s, 1, Auditor(grace, BlobsListed(true, s.now, map[]))))
  {
    var a := Act(s, 1, Auditor(grace, Gated));
    var b := Act(s, 1, Auditor(grace, Drained(true)));
    Stays(s);
    assert FsckNext(s, FsckStart(1, grace, true, false), a);
    FsckGoes(s, s, FsckStart(1, grace, true, false), a);
    Drains(s, grace);
    FsckGoes(s, a, FsckDrain(1, true), b);
    ListsBlobs(s, grace);
    FsckGoes(s, b, FsckListBlobs(1), Act(s, 1, Auditor(grace, BlobsListed(true, s.now, map[]))));
  }

  function Uploading(t: State, h: Hash, stage: Stage): State {
    t.(claims := t.claims[h := Claim(Upload, 0)], actors := t.actors[0 := Uploader(h, stage)])
  }

  /** An upload of an empty NAR, all in one second: the put. */
  lemma ThenPuts(s: State, t: State, h: Hash)
    requires Leads(s, t) && 0 !in t.actors && h !in t.claims && t.quiescers == 0 && t.lock.None? && h !in t.db.rows
    ensures Leads(s, Uploading(t, h, Stored([], t.now)).(blobs := t.blobs[h := []]))
  {
    var a, b := Uploading(t, h, Claimed), Uploading(t, h, Streaming);
    var c := Uploading(t, h, Stored([], t.now)).(blobs := t.blobs[h := []]);
    assert a.actors[0 := Uploader(h, Streaming)] == b.actors;
    assert b.actors[0 := Uploader(h, Stored([], t.now))] == c.actors;
    assert UploadNext(t, UploadClaim(0, h), a);
    UploadGoes(s, t, UploadClaim(0, h), a);
    assert UploadNext(a, UploadRecheck(0), b);
    UploadGoes(s, a, UploadRecheck(0), b);
    assert UploadNext(b, UploadPut(0, []), c);
    UploadGoes(s, b, UploadPut(0, []), c);
  }

  lemma StampStep(t: State, h: Hash, row: Row)
    requires row == Row([], Sha256([]), 0, t.now, t.now, t.now)
    ensures UploadNext(Uploading(t, h, Stored([], t.now)), UploadStamp(0, []), Uploading(t, h, Stamped([], t.now, row)))
  {
    var c, d := Uploading(t, h, Stored([], t.now)), Uploading(t, h, Stamped([], t.now, row));
    assert c.actors[0 := Uploader(h, Stamped([], t.now, row))] == d.actors;
  }

  lemma InsertStep(t: State, h: Hash, row: Row)
    requires t.lock.None?
    ensures UploadNext(Uploading(t, h, Stamped([], t.now, row)), UploadInsert(0),
                       Uploading(t, h, Landed).(db := Inserted(t.db, h, row)))
  {
    var d, e := Uploading(t, h, Stamped([], t.now, row)), Uploading(t, h, Landed);
    assert d.actors[0 := Uploader(h, Landed)] == e.actors;
  }

  lemma ReleaseStep(t: State, h: Hash, row: Row)
    requires 0 !in t.actors && h !in t.claims
    ensures UploadNext(Uploading(t, h, Landed).(db := Inserted(t.db, h, row)), UploadRelease(0),
                       t.(db := Inserted(t.db, h, row)))
  {
    var e := Uploading(t, h, Landed);
    assert e.actors - {0} == t.actors && e.claims - {h} == t.claims;
  }

  /** Then its row, and its claim dropped. */
  lemma ThenInserts(s: State, t: State, h: Hash, row: Row)
    requires Leads(s, Uploading(t, h, Stored([], t.now)))
    requires 0 !in t.actors && h !in t.claims && t.lock.None?
    requires row == Row([], Sha256([]), 0, t.now, t.now, t.now)
    ensures Leads(s, t.(db := Inserted(t.db, h, row)))
  {
    var c, d := Uploading(t, h, Stored([], t.now)), Uploading(t, h, Stamped([], t.now, row));
    var e := Uploading(t, h, Landed).(db := Inserted(t.db, h, row));
    StampStep(t, h, row);
    UploadGoes(s, c, UploadStamp(0, []), d);
    InsertStep(t, h, row);
    UploadGoes(s, d, UploadInsert(0), e);
    ReleaseStep(t, h, row);
    UploadGoes(s, e, UploadRelease(0), t.(db := Inserted(t.db, h, row)));
  }

  /** fsck lists the row, and takes `seconds` to classify it. */
  lemma ThenClassifies(s: State, t: State, grace: nat, seconds: nat, h: Hash, row: Row)
    requires t.db.rows == map[h := row] && row.createdAt == t.now && t.lock.None? && h !in t.claims && grace <= seconds
    requires Leads(s, Act(t, 1, Auditor(grace, BlobsListed(true, t.now, map[]))))
    ensures var brief := Brief(row.createdAt, row.fileSize);
            var audit := Classifying(true, t.now, map[], t.now, t.now + seconds, map[], map[h := brief]);
            Leads(s, Act(t.(now := t.now + seconds), 1, Auditor(grace, audit)))
  {
    var brief := Brief(row.createdAt, row.fileSize);
    var briefs, later := map[h := brief], t.(now := t.now + seconds);
    var x := Auditor(grace, BlobsListed(true, t.now, map[]));
    var y := Auditor(grace, RowsListed(true, t.now, map[], t.now, briefs));
    ListsRows(t, grace, h, row, briefs);
    FsckGoes(s, Act(t, 1, x), FsckListRows(1), Act(t, 1, y));
    assert WorldNext(Act(t, 1, y), Tick(seconds), Act(later, 1, y));
    WorldGoes(s, Act(t, 1, y), Tick(seconds), Act(later, 1, y));
    ThenStamps(s, later, grace, t.now, h, brief);
  }

  lemma ThenStamps(s: State, t: State, grace: nat, at: int, h: Hash, brief: Brief)
    requires Leads(s, Act(t, 1, Auditor(grace, RowsListed(true, at, map[], at, map[h := brief]))))
    requires h !in t.claims && t.now - brief.createdAt >= grace
    ensures Leads(s, Act(t, 1, Auditor(grace, Classifying(true, at, map[], at, t.now, map[], map[h := brief]))))
  {
    var briefs := map[h := brief];
    var y := Auditor(grace, RowsListed(true, at, map[], at, briefs));
    var z := Auditor(grace, Classifying(true, at, map[], at, t.now, briefs, map[]));
    Stamps(t, grace, at, briefs);
    FsckGoes(s, Act(t, 1, y), FsckStamp(1), Act(t, 1, z));
    Classifies(t, grace, at, h, brief);
    FsckGoes(s, Act(t, 1, z), FsckClassify(1, h),
         Act(t, 1, Auditor(grace, Classifying(true, at, map[], at, t.now, map[], briefs))));
  }

  /**
   The grace has to be longer than that time: otherwise, with no drift at all, the
   audit comes to repair a row uploaded right after the blob listing, with its blob
   in place.
   */
  lemma RepairNeedsGrace(grace: nat, seconds: nat, h: Hash) returns (s: State, t: State)
    requires grace <= seconds
    ensures Initial(s) && Leads(s, t) && t.lock.None?
    ensures 1 in t.actors && t.actors[1].Fsck? && t.actors[1].audit.Classifying? && t.actors[1].grace == grace
    ensures var audit := t.actors[1].audit;
            && audit.at - audit.listedAt == seconds && audit.ok && audit.briefs == map[]
            && h in audit.findings && Repairs(t, audit, h)
    ensures !Mismatch(t.blobs, h, t.db.rows[h].fileSize)
  {
    s := State(Db(map[], map[], 0), map[], map[], 0, None, map[], 0);
    var listed := Auditor(grace, BlobsListed(true, 0, map[]));
    ListsFirst(grace, s);
    ThenPuts(s, Act(s, 1, listed), h);
    var row := Row([], Sha256([]), 0, 0, 0, 0);
    var put := s.(blobs := map[h := []]);
    assert Act(put, 1, listed).actors == map[1 := listed];
    ThenInserts(s, Act(put, 1, listed), h, row);
    var landed := put.(db := Inserted(s.db, h, row));
    ThenClassifies(s, landed, grace, seconds, h, row);
    var brief := Brief(0, 0);
    t := Act(landed.(now := seconds), 1,
             Auditor(grace, Classifying(true, 0, map[], 0, seconds, map[], map[h := brief])));
  }

  // ------------------------------------------------------------ the exact grace

  /** Step `i` is a repair that deletes a row, by an audit with this grace that took `seconds` to classify. */
  ghost predicate RepairAt(run: seq<State>, steps: seq<Step>, i: nat, grace: nat, seconds: int) {
    && Run(run, steps) && Initial(run[0]) && i < |steps| && steps[i].FsckRepair?
    && steps[i].a in run[i].actors
    && var x := run[i].actors[steps[i].a];
       && x.Fsck? && x.grace == grace && x.audit.Classifying? && x.audit.at - x.audit.listedAt == seconds
       && steps[i].h in x.audit.findings && Repairs(run[i], x.audit, steps[i].h)
  }

  /** Such repairs delete no row whose blob is there with the recorded size. */
  ghost predicate Spares(grace: nat, seconds: int) {
    forall run: seq<State>, steps: seq<Step>, i: nat ::
      RepairAt(run, steps, i, grace, seconds) ==>
        Mismatch(run[i].blobs, steps[i].h, run[i].db.rows[steps[i].h].fileSize)
  }

  lemma HealthyIsRepaired(grace: nat, seconds: nat)
    requires grace <= seconds
    ensures !Spares(grace, seconds)
  {
    var h := Hash("h");
    var s, t := RepairNeedsGrace(grace, seconds, h);
    var run, steps :| LeadsBy(run, steps, s, t);
    var x := t.actors[1];
    var u := Act(t.(db := Removed(t.db, {h})), 1, x.(audit := x.audit.(findings := x.audit.findings - {h})));
    assert FsckNext(t, FsckRepair(1, h), u);
    FsckIsNext(t, FsckRepair(1, h), u);
    Extend(run, steps, FsckRepair(1, h), u);
    var longer, more, i := run + [u], steps + [FsckRepair(1, h)], |steps|;
    assert longer[i] == t && more[i] == FsckRepair(1, h);
    assert RepairAt(longer, more, i, grace, seconds);
  }

  /** The grace is exact: repairs spare healthy rows if and only if it is longer than the audit took. */
  lemma GraceIsExact(grace: nat, seconds: int)
    ensures Spares(grace, seconds) <==> seconds < grace
  {
    if seconds < grace {
      forall run: seq<State>, steps: seq<Step>, i: nat | RepairAt(run, steps, i, grace, seconds)
        ensures Mismatch(run[i].blobs, steps[i].h, run[i].db.rows[steps[i].h].fileSize)
      {
        RepairSparesHealthy(run, steps, i);
      }
    } else {
      HealthyIsRepaired(grace, seconds);
    }
  }
}
