/**
 GC and prune never break a closure: what they delete, nothing that stays refers
 to. So a live pin keeps everything its object reaches, and a push that finishes
 within its grace keeps everything it negotiated.
 */
module Closures {
  import opened Basics
  import opened Graphs
  import opened Catalog
  import opened Protocol
  import opened Safety

  function Deleted(s: State, t: State): set<Hash> {
    s.db.rows.Keys - t.db.rows.Keys
  }

  /** The rows `root` reaches through rows. */
  ghost predicate InClosure(db: Db, root: Hash, h: Hash) {
    h in db.rows && Reaches(RefGraph(db), root, h)
  }

  // ------------------------------------------------------------ no commit of GC or prune severs anything

  lemma EvictSevers(db: Db, h: Hash, now: int)
    requires Evictable(db, h, now)
    ensures Severable(RefGraph(db), {h})
  {
  }

  lemma BatchSevers(db: Db, order: seq<Hash>, n: nat, before: int, at: int)
    requires n <= |order|
    requires Doomed(db, Elems(order), before, at) && ReferrersFirst(db, order)
    ensures Severable(RefGraph(db), Elems(order[..n]))
  {
    var g, gone := RefGraph(db), Elems(order[..n]);
    forall x, y | x in g && x !in gone && y in gone
      ensures y !in g[x]
    {
      var i :| 0 <= i < n && order[i] == y;
      assert y in Elems(order);
      if x in Elems(order) {
        var j :| 0 <= j < |order| && order[j] == x;
        assert forall k :: 0 <= k < n ==> order[k] in order[..n];
      }
    }
  }

  /** A removal of rows removes their nodes, and nothing else, from the graph. */
  lemma RemovedGraph(db: Db, gone: set<Hash>)
    ensures RefGraph(Removed(db, gone)) == RefGraph(db) - gone
  {
  }

  lemma GcSevers(s: State, l: Step, t: State)
    requires Safe(s) && GcNext(s, l, t)
    ensures Severable(RefGraph(s.db), Deleted(s, t))
    ensures RefGraph(t.db) == RefGraph(s.db) - Deleted(s, t)
  {
    assert ActorSafe(s, l.a);
    if t.db == s.db {
      assert Deleted(s, t) == {};
    } else {
      var h := s.actors[l.a].job.current.value;
      EvictSevers(s.db, h, s.actors[l.a].job.at);
      RemovedGraph(s.db, {h});
      assert Deleted(s, t) == {h};
    }
  }

  lemma PruneSevers(s: State, l: Step, t: State)
    requires Safe(s) && PruneNext(s, l, t)
    ensures Severable(RefGraph(s.db), Deleted(s, t))
    ensures RefGraph(t.db) == RefGraph(s.db) - Deleted(s, t)
  {
    if l.PruneBatch? {
      PruneBatchSevers(s, l.a, l.n, t);
    } else {
      assert Deleted(s, t) == {};
    }
  }

  lemma PruneBatchSevers(s: State, a: ActorId, n: nat, t: State)
    requires Safe(s) && PruneNext(s, PruneBatch(a, n), t)
    ensures Severable(RefGraph(s.db), Deleted(s, t))
    ensures RefGraph(t.db) == RefGraph(s.db) - Deleted(s, t)
  {
    assert ActorSafe(s, a);
    var PruneRows(before, at, _, order) := s.actors[a].job;
    var gone := Elems(order[..n]);
    BatchSevers(s.db, order, n, before, at);
    RemovedGraph(s.db, gone);
    forall h | h in gone
      ensures h in s.db.rows
    {
      assert h in Elems(order);
    }
    assert Deleted(s, t) == gone;
  }

  /** The steps of a GC batch and of a prune, commits included. */
  lemma CommitSevers(s: State, l: Step, t: State)
    requires Safe(s) && (GcNext(s, l, t) || PruneNext(s, l, t))
    ensures Severable(RefGraph(s.db), Deleted(s, t))
    ensures RefGraph(t.db) == RefGraph(s.db) - Deleted(s, t)
  {
    if GcNext(s, l, t) {
      GcSevers(s, l, t);
    } else {
      PruneSevers(s, l, t);
    }
  }

  /**
   No commit of GC or prune, intermediate prune batches and evictions from a
   stale snapshot included, leaves a reference dangling that was not dangling
   before; and every survivor reaches exactly what it reached.
   */
  lemma CommitKeepsClosures(s: State, l: Step, t: State)
    requires Safe(s) && (GcNext(s, l, t) || PruneNext(s, l, t))
    ensures forall from, to :: Dangling(t.db, from, to) ==> Dangling(s.db, from, to)
    ensures forall root, h :: root in t.db.rows ==> (InClosure(t.db, root, h) <==> InClosure(s.db, root, h))
  {
    CommitSevers(s, l, t);
    CommitKeepsRows(s, l, t);
    SeveredDatabase(s.db, t.db, Deleted(s, t));
  }

  lemma CommitKeepsRows(s: State, l: Step, t: State)
    requires Safe(s) && (GcNext(s, l, t) || PruneNext(s, l, t))
    ensures forall h :: h in t.db.rows ==> h in s.db.rows && t.db.rows[h] == s.db.rows[h]
  {
  }

  /** A deletion that takes nothing a survivor refers to leaves the survivors' closures alone. */
  lemma SeveredDatabase(db: Db, after: Db, gone: set<Hash>)
    requires Severable(RefGraph(db), gone) && RefGraph(after) == RefGraph(db) - gone
    requires forall h :: h in after.rows ==> h in db.rows && after.rows[h] == db.rows[h]
    ensures forall from, to :: Dangling(after, from, to) ==> Dangling(db, from, to)
    ensures forall root, h :: root in after.rows ==> (InClosure(after, root, h) <==> InClosure(db, root, h))
  {
    var g := RefGraph(db);
    assert RefGraph(after).Keys == after.rows.Keys;
    forall from, to | Dangling(after, from, to)
      ensures Dangling(db, from, to)
    {
      assert to in g[from];
    }
    forall root, h | root in after.rows
      ensures InClosure(after, root, h) <==> InClosure(db, root, h)
    {
      SeverKeepsReach(g, gone, root, h);
    }
  }

  // ------------------------------------------------------------ closures over runs

  /** Operator deletes and fsck repairs, the two deletions that ignore references. */
  predicate Forced(l: Step) {
    l.AdminDelete? || l.FsckRepair?
  }

  /** The commits by which GC and prune delete rows. */
  predicate Collects(l: Step) {
    l.GcEvict? || l.PruneBatch?
  }

  lemma GraphGrows(db: Db, after: Db, a: Hash, b: Hash)
    requires KeepsRows(db, after)
    requires InClosure(db, a, b)
    ensures InClosure(after, a, b)
  {
    var p :| WalkBetween(RefGraph(db), p, a, b);
    forall i | 0 <= i < |p| - 1
      ensures Edge(RefGraph(after), p[i], p[i + 1])
    {
      assert Edge(RefGraph(db), p[i], p[i + 1]);
    }
    assert WalkBetween(RefGraph(after), p, a, b);
  }

  ghost predicate KeepsRows(db: Db, after: Db) {
    forall h :: h in db.rows ==> h in after.rows && after.rows[h].refs == db.rows[h].refs
  }

  lemma InsertKeepsRows(s: State, l: Step, t: State)
    requires Safe(s) && l.UploadInsert? && UploadNext(s, l, t)
    ensures KeepsRows(s.db, t.db) && t.db.pins == s.db.pins
  {
    assert ActorSafe(s, l.a);
  }

  lemma WorldKeepsRows(s: State, l: Step, t: State)
    requires WorldNext(s, l, t)
    ensures KeepsRows(s.db, t.db) && (!l.SetPin? && !l.ClearPin? ==> t.db.pins == s.db.pins)
  {
  }

  /** Steps that delete nothing keep every row and its references. */
  lemma GentleKeepsRows(s: State, l: Step, t: State)
    requires Safe(s) && Next(s, l, t) && !Forced(l) && !Collects(l)
    ensures KeepsRows(s.db, t.db)
    ensures !l.SetPin? && !l.ClearPin? ==> t.db.pins == s.db.pins
  {
    if !WritesDb(l) {
      OthersKeepDb(s, l, t);
    } else {
      if l.UploadInsert? {
        InsertKeepsRows(s, l, t);
      } else {
        WorldKeepsRows(s, l, t);
      }
    }
  }

  /** No step but a forced one takes anything out of a survivor's closure. */
  lemma StepKeepsClosure(s: State, l: Step, t: State, root: Hash, h: Hash)
    requires Safe(s) && Next(s, l, t) && !Forced(l)
    requires root in t.db.rows && InClosure(s.db, root, h)
    ensures InClosure(t.db, root, h)
  {
    if Collects(l) {
      CommitKeepsClosures(s, l, t);
    } else {
      GentleKeepsRows(s, l, t);
      GraphGrows(s.db, t.db, root, h);
    }
  }

  predicate Repins(l: Step, name: string) {
    (l.ClearPin? || l.SetPin?) && l.name == name
  }

  /** GC evicts no object under a live pin, though it looked at the clock some time ago. */
  lemma GcKeepsPin(s: State, l: Step, t: State, name: string)
    requires Safe(s) && GcNext(s, l, t)
    requires name in s.db.pins && Live(s.db.pins[name], s.now)
    ensures name in t.db.pins && t.db.pins[name] == s.db.pins[name]
  {
    if l.GcEvict? {
      assert ActorSafe(s, l.a);
      var pin, at := s.db.pins[name], s.actors[l.a].job.at;
      assert Live(pin, at);
      assert Pinned(s.db, pin.hash, at);
    }
  }

  lemma PruneKeepsPin(s: State, l: Step, t: State, name: string)
    requires Safe(s) && PruneNext(s, l, t)
    requires name in s.db.pins && Live(s.db.pins[name], s.now)
    ensures name in t.db.pins && t.db.pins[name] == s.db.pins[name]
  {
    if l.PruneBatch? {
      assert ActorSafe(s, l.a);
      var pin := s.db.pins[name];
      var PruneRows(_, at, _, order) := s.actors[l.a].job;
      assert Live(pin, at);
      assert Pinned(s.db, pin.hash, at);
      assert pin.hash !in Elems(order);
      assert forall h :: h in order[..l.n] ==> h in order;
    }
  }

  lemma OtherPinsStay(s: State, l: Step, t: State, name: string)
    requires WorldNext(s, l, t) && (l.SetPin? || l.ClearPin?) && !Repins(l, name)
    requires name in s.db.pins
    ensures name in t.db.pins && t.db.pins[name] == s.db.pins[name]
  {
  }

  /** A live pin outlasts every step but a forced one, or one on the pin itself. */
  lemma StepKeepsPin(s: State, l: Step, t: State, name: string)
    requires Safe(s) && Next(s, l, t) && !Forced(l) && !Repins(l, name)
    requires name in s.db.pins && Live(s.db.pins[name], s.now)
    ensures name in t.db.pins && t.db.pins[name] == s.db.pins[name]
  {
    if l.GcEvict? {
      GcKeepsPin(s, l, t, name);
    } else if l.PruneBatch? {
      PruneKeepsPin(s, l, t, name);
    } else {
      GentleKeepsPin(s, l, t, name);
    }
  }

  lemma GentleKeepsPin(s: State, l: Step, t: State, name: string)
    requires Safe(s) && Next(s, l, t) && !Forced(l) && !Collects(l) && !Repins(l, name)
    requires name in s.db.pins
    ensures name in t.db.pins && t.db.pins[name] == s.db.pins[name]
  {
    if l.SetPin? || l.ClearPin? {
      OtherPinsStay(s, l, t, name);
    } else {
      GentleKeepsRows(s, l, t);
    }
  }

  /** The pin is in place, and its object still reaches `h`. */
  ghost predicate PinHolds(db: Db, name: string, pin: Pin, h: Hash) {
    name in db.pins && db.pins[name] == pin && InClosure(db, pin.hash, h)
  }

  lemma StepKeepsPinned(s: State, l: Step, t: State, name: string, pin: Pin, h: Hash)
    requires Safe(s) && Safe(t) && Next(s, l, t) && !Forced(l) && !Repins(l, name)
    requires PinHolds(s.db, name, pin, h) && Live(pin, s.now)
    ensures PinHolds(t.db, name, pin, h)
  {
    StepKeepsPin(s, l, t, name);
    StepKeepsClosure(s, l, t, pin.hash, h);
  }

  /** A forced deletion takes the one row it names, if any, with its pins. */
  lemma ForcedRemovesOne(s: State, l: Step, t: State)
    requires Next(s, l, t) && Forced(l)
    ensures t.db == s.db || t.db == Removed(s.db, {l.h})
  {
  }

  /** Outside a pin's closure a deletion takes neither the pin nor anything it reaches. */
  lemma RemovedOutside(db: Db, x: Hash, name: string, pin: Pin, h: Hash)
    requires pin.hash in db.rows && PinHolds(db, name, pin, h) && !InClosure(db, pin.hash, x)
    ensures PinHolds(Removed(db, {x}), name, pin, h)
  {
    var g := RefGraph(db);
    RemovedGraph(db, {x});
    ReachesRefl(g, pin.hash);
    if Reaches(g, pin.hash, x) {
      assert g - {x} == g;
    } else {
      AvoidKeepsReach(g, x, pin.hash, h);
    }
  }

  /** No forced deletion of anything the pinned object reaches at the time. */
  ghost predicate SparesPin(s: State, l: Step, pin: Pin) {
    Forced(l) ==> !InClosure(s.db, pin.hash, l.h)
  }

  lemma AnyStepKeepsPinned(s: State, l: Step, t: State, name: string, pin: Pin, h: Hash)
    requires Safe(s) && Safe(t) && Next(s, l, t) && SparesPin(s, l, pin) && !Repins(l, name)
    requires PinHolds(s.db, name, pin, h) && Live(pin, s.now)
    ensures PinHolds(t.db, name, pin, h)
  {
    if Forced(l) {
      ForcedRemovesOne(s, l, t);
      RemovedOutside(s.db, l.h, name, pin, h);
    } else {
      StepKeepsPinned(s, l, t, name, pin, h);
    }
  }

  lemma {:induction false} LivePinKeeps(run: seq<State>, steps: seq<Step>, name: string, pin: Pin, h: Hash, i: nat)
    requires Run(run, steps) && Safe(run[0]) && i <= |steps|
    requires PinHolds(run[0].db, name, pin, h) && Live(pin, run[i].now)
    requires forall k :: 0 <= k < i ==> SparesPin(run[k], steps[k], pin) && !Repins(steps[k], name)
    ensures PinHolds(run[i].db, name, pin, h)
  {
    if i > 0 {
      ClockBetween(run, steps, i - 1, i);
      assert Live(pin, run[i - 1].now);
      LivePinKeeps(run, steps, name, pin, h, i - 1);
      PinOutlasts(run, steps, name, pin, h, i - 1);
    }
  }

  /**
   For as long as a pin lives, its object and everything that object reached stay,
   whatever is pushed, re-pushed, evicted or pruned meanwhile, and whatever an
   operator or a repair deletes that is not in its closure.
   */
  lemma PinKeepsClosure(run: seq<State>, steps: seq<Step>, name: string, h: Hash, i: nat)
    requires Run(run, steps) && Safe(run[0]) && i <= |steps|
    requires name in run[0].db.pins
    requires run[0].db.pins[name].expiresAt.None? || run[0].db.pins[name].expiresAt.value > run[i].now
    requires forall k :: 0 <= k < i ==> SparesPin(run[k], steps[k], run[0].db.pins[name]) && !Repins(steps[k], name)
    requires InClosure(run[0].db, run[0].db.pins[name].hash, h)
    ensures name in run[i].db.pins && run[i].db.pins[name] == run[0].db.pins[name]
    ensures InClosure(run[i].db, run[0].db.pins[name].hash, h)
  {
    LivePinKeeps(run, steps, name, run[0].db.pins[name], h, i);
  }

  lemma PinOutlasts(run: seq<State>, steps: seq<Step>, name: string, pin: Pin, h: Hash, k: nat)
    requires Run(run, steps) && Safe(run[0]) && k < |steps|
    requires PinHolds(run[k].db, name, pin, h) && Live(pin, run[k].now)
    requires SparesPin(run[k], steps[k], pin) && !Repins(steps[k], name)
    ensures PinHolds(run[k + 1].db, name, pin, h)
  {
    SafeAt(run, steps, k);
    SafeAt(run, steps, k + 1);
    AnyStepKeepsPinned(run[k], steps[k], run[k + 1], name, pin, h);
  }

  /** A pin without an expiry does so at any time. */
  lemma PermanentPinKeepsClosure(run: seq<State>, steps: seq<Step>, name: string, h: Hash, i: nat)
    requires Run(run, steps) && Safe(run[0]) && i <= |steps|
    requires name in run[0].db.pins && run[0].db.pins[name].expiresAt.None?
    requires forall k :: 0 <= k < i ==> SparesPin(run[k], steps[k], run[0].db.pins[name]) && !Repins(steps[k], name)
    requires InClosure(run[0].db, run[0].db.pins[name].hash, h)
    ensures name in run[i].db.pins && run[i].db.pins[name] == run[0].db.pins[name]
    ensures h in run[i].db.rows && Reaches(RefGraph(run[i].db), run[0].db.pins[name].hash, h)
  {
    PinKeepsClosure(run, steps, name, h, i);
  }

  /** A pin on what the cache holds is in place once set, as it was given. */
  lemma SetPinHolds(s: State, name: string, pin: Pin, t: State)
    requires Next(s, SetPin(name, pin), t) && pin.hash in s.db.rows
    ensures name in t.db.pins && t.db.pins[name] == pin && t.db.rows == s.db.rows
  {
  }

  // ------------------------------------------------------------ what an upload's row refers to

  /** Actor `a`, as it is at `i`, came from step `k`, which stamped its row with the references it has. */
  ghost predicate FromStamp(run: seq<State>, steps: seq<Step>, i: nat, a: ActorId, k: nat)
    requires Run(run, steps) && i <= |steps|
  {
    && k < i && steps[k].UploadStamp? && steps[k].a == a
    && a in run[i].actors && run[i].actors[a].Uploader? && run[i].actors[a].stage.Stamped?
    && run[i].actors[a].stage.row.refs == steps[k].refs
    && forall m :: k < m <= i ==> a in run[m].actors && run[m].actors[a] == run[i].actors[a]
  }

  lemma UploadStamps(s: State, l: Step, t: State, a: ActorId)
    requires UploadNext(s, l, t) && a in t.actors && t.actors[a].Uploader? && t.actors[a].stage.Stamped?
    ensures (a in s.actors && s.actors[a] == t.actors[a])
            || (l.UploadStamp? && l.a == a && t.actors[a].stage.row.refs == l.refs)
  {
  }

  lemma FinishKeepsUploaders(s: State, l: Step, t: State, a: ActorId)
    requires (FinishNext(s, l, t) || DriftNext(s, l, t)) && a in t.actors && t.actors[a].Uploader?
    ensures a in s.actors && s.actors[a] == t.actors[a]
  {
  }

  lemma OnlyStampStamps(s: State, l: Step, t: State, a: ActorId)
    requires Next(s, l, t) && a in t.actors && t.actors[a].Uploader? && t.actors[a].stage.Stamped?
    ensures (a in s.actors && s.actors[a] == t.actors[a])
            || (l.UploadStamp? && l.a == a && t.actors[a].stage.row.refs == l.refs)
  {
    match FamilyOf(l) {
      case ByUpload => UploadStamps(s, l, t, a);
      case ByFinish => FinishKeepsUploaders(s, l, t, a);
      case ByDrift => FinishKeepsUploaders(s, l, t, a);
      case ByFsck => OthersAddNothing(s, l, t);
      case ByWorld => OthersAddNothing(s, l, t);
      case _ => DeletersAddNothing(s, l, t);
    }
  }

  lemma {:induction false} StampedFrom(run: seq<State>, steps: seq<Step>, i: nat, a: ActorId) returns (k: nat)
    requires Run(run, steps) && Initial(run[0]) && i <= |steps|
    requires a in run[i].actors && run[i].actors[a].Uploader? && run[i].actors[a].stage.Stamped?
    ensures FromStamp(run, steps, i, a, k)
  {
    OnlyStampStamps(run[i - 1], steps[i - 1], run[i - 1 + 1], a);
    if a in run[i - 1].actors && run[i - 1].actors[a] == run[i].actors[a] {
      k := StampedFrom(run, steps, i - 1, a);
    } else {
      k := i - 1;
    }
  }

  /** The row an insert leaves has exactly the references its upload's stamp named. */
  lemma InsertKeepsRefs(run: seq<State>, steps: seq<Step>, j: nat) returns (k: nat, h: Hash)
    requires Run(run, steps) && Initial(run[0]) && j < |steps| && steps[j].UploadInsert?
    ensures FromStamp(run, steps, j, steps[j].a, k) && h == run[j].actors[steps[j].a].h
    ensures h in run[j + 1].db.rows && run[j + 1].db.rows[h].refs == steps[k].refs
  {
    assert Next(run[j], steps[j], run[j + 1]);
    h := run[j].actors[steps[j].a].h;
    k := StampedFrom(run, steps, j, steps[j].a);
  }

  /** Nothing another row refers to is evictable, at any time. */
  lemma ReferencedStays(db: Db, h: Hash, r: Hash, now: int)
    requires h in db.rows && r in db.rows[h].refs && r != h
    ensures !Evictable(db, r, now)
  {
  }

  /** A row that stays keeps its references: no upload writes over it. */
  lemma StepKeepsRefs(s: State, l: Step, t: State, h: Hash)
    requires Safe(s) && Next(s, l, t) && h in s.db.rows && h in t.db.rows
    ensures t.db.rows[h].refs == s.db.rows[h].refs
  {
    if l.GcEvict? || l.PruneBatch? {
      CommitKeepsRows(s, l, t);
    } else if Forced(l) {
      ForcedKeepsOthers(s, l, t);
    } else {
      GentleKeepsRows(s, l, t);
    }
  }

  /** The row of `h` is there from `j` to `i`. */
  ghost predicate Stands(run: seq<State>, h: Hash, j: nat, i: nat) {
    i < |run| && forall m :: j <= m <= i ==> h in run[m].db.rows
  }

  lemma {:induction false} RowKeepsRefs(run: seq<State>, steps: seq<Step>, h: Hash, j: nat, i: nat)
    requires Run(run, steps) && Safe(run[0]) && j <= i <= |steps| && Stands(run, h, j, i)
    ensures run[i].db.rows[h].refs == run[j].db.rows[h].refs
    decreases i
  {
    if j < i {
      assert Stands(run, h, j, i - 1);
      RowKeepsRefs(run, steps, h, j, i - 1);
      SafeAt(run, steps, i - 1);
      StepKeepsRefs(run[i - 1], steps[i - 1], run[i - 1 + 1], h);
    }
  }

  /**
   An upload's references are kept: for as long as its row stands, the row has just
   the references its stamp named, and none of them but itself is evictable.
   */
  lemma UploadedRefsAreKept(run: seq<State>, steps: seq<Step>, j: nat, i: nat) returns (k: nat, h: Hash)
    requires Run(run, steps) && Initial(run[0]) && j < i <= |steps| && steps[j].UploadInsert?
    ensures FromStamp(run, steps, j, steps[j].a, k) && h == run[j].actors[steps[j].a].h
    ensures Stands(run, h, j + 1, i) ==>
              && h in run[i].db.rows && run[i].db.rows[h].refs == steps[k].refs
              && forall r, now :: r in steps[k].refs && r != h ==> !Evictable(run[i].db, r, now)
  {
    k, h := InsertKeepsRefs(run, steps, j);
    if Stands(run, h, j + 1, i) {
      RowKeepsRefs(run, steps, h, j + 1, i);
      forall r, now | r in steps[k].refs && r != h
        ensures !Evictable(run[i].db, r, now)
      {
        ReferencedStays(run[i].db, h, r, now);
      }
    }
  }

  // ------------------------------------------------------------ a push within its grace

  /** How long a push may take from its first Negotiation. */
  const PUSH_WINDOW: int := PUSH_GRACE - PUSHED_AT_DEBOUNCE

  /** What the push relies on counts as pushed since an hour before the Negotiation. */
  ghost predicate Fresh(s: State, own: set<Hash>, start: int) {
    forall h :: h in own && h in s.db.rows ==> s.db.rows[h].pushedAt >= start - PUSHED_AT_DEBOUNCE
  }

  /** No forced deletion of the push's own paths, and no insert of one that waited an hour for the database. */
  ghost predicate Orderly(s: State, l: Step, own: set<Hash>) {
    && (Forced(l) ==> l.h !in own)
    && (l.UploadInsert? && l.a in s.actors && s.actors[l.a].Uploader? && s.actors[l.a].h in own
        && s.actors[l.a].stage.Stamped?
        ==> s.now - s.actors[l.a].stage.row.createdAt <= PUSHED_AT_DEBOUNCE)
  }

  /** Nothing the push relies on is old enough for GC within the window. */
  lemma GcKeepsPush(s: State, l: Step, t: State, own: set<Hash>, start: int)
    requires Safe(s) && GcNext(s, l, t)
    requires Fresh(s, own, start) && s.now <= start + PUSH_WINDOW
    ensures Fresh(t, own, start)
    ensures forall h :: h in own && h in s.db.rows ==> h in t.db.rows
  {
    assert ActorSafe(s, l.a);
  }

  lemma PruneKeepsPush(s: State, l: Step, t: State, own: set<Hash>, start: int)
    requires Safe(s) && PruneNext(s, l, t)
    requires Fresh(s, own, start) && s.now <= start + PUSH_WINDOW
    ensures Fresh(t, own, start)
    ensures forall h :: h in own && h in s.db.rows ==> h in t.db.rows
  {
    assert ActorSafe(s, l.a);
    if l.PruneBatch? {
      var order := s.actors[l.a].job.order;
      forall h | h in Elems(order[..l.n])
        ensures h !in own
      {
        assert h in Elems(order);
      }
    }
  }

  lemma StepKeepsPush(s: State, l: Step, t: State, own: set<Hash>, start: int)
    requires Safe(s) && Next(s, l, t) && Orderly(s, l, own)
    requires Fresh(s, own, start) && start <= s.now && t.now <= start + PUSH_WINDOW
    ensures Fresh(t, own, start)
    ensures forall h :: h in own && h in s.db.rows ==> h in t.db.rows
  {
    ClockStep(s, l, t);
    if l.GcEvict? {
      GcKeepsPush(s, l, t, own, start);
    } else if l.PruneBatch? {
      PruneKeepsPush(s, l, t, own, start);
    } else {
      OthersKeepPush(s, l, t, own, start);
    }
  }

  lemma OthersKeepPush(s: State, l: Step, t: State, own: set<Hash>, start: int)
    requires Safe(s) && Next(s, l, t) && Orderly(s, l, own) && !Collects(l)
    requires Fresh(s, own, start) && start <= s.now
    ensures Fresh(t, own, start)
    ensures forall h :: h in own && h in s.db.rows ==> h in t.db.rows
  {
    if Forced(l) {
      ForcedKeepsOthers(s, l, t);
    } else {
      GentleKeepsRows(s, l, t);
      GentleKeepsFresh(s, l, t, own, start);
    }
  }

  lemma ForcedKeepsOthers(s: State, l: Step, t: State)
    requires Next(s, l, t) && Forced(l)
    ensures forall h :: h in t.db.rows ==> h in s.db.rows && t.db.rows[h] == s.db.rows[h]
    ensures forall h :: h in s.db.rows && h != l.h ==> h in t.db.rows
  {
  }

  lemma InsertKeepsFresh(s: State, l: Step, t: State, own: set<Hash>, start: int)
    requires Safe(s) && UploadNext(s, l, t) && l.UploadInsert? && Orderly(s, l, own)
    requires Fresh(s, own, start) && start <= s.now
    ensures Fresh(t, own, start)
  {
    assert ActorSafe(s, l.a);
  }

  lemma WorldKeepsFresh(s: State, l: Step, t: State, own: set<Hash>, start: int)
    requires WorldNext(s, l, t) && Fresh(s, own, start) && start <= s.now
    ensures Fresh(t, own, start)
  {
  }

  lemma GentleKeepsFresh(s: State, l: Step, t: State, own: set<Hash>, start: int)
    requires Safe(s) && Next(s, l, t) && Orderly(s, l, own)
    requires !Forced(l) && !Collects(l)
    requires Fresh(s, own, start) && start <= s.now
    ensures Fresh(t, own, start)
  {
    if !WritesDb(l) {
      OthersKeepDb(s, l, t);
    } else {
      if l.UploadInsert? {
        InsertKeepsFresh(s, l, t, own, start);
      } else {
        WorldKeepsFresh(s, l, t, own, start);
      }
    }
  }

  predicate Uploads(s: State, a: ActorId, h: Hash) {
    a in s.actors && s.actors[a].Uploader? && s.actors[a].h == h
  }

  /** The server told the client that it holds `h`: the row landed, or was already there. */
  ghost predicate Acked(run: seq<State>, steps: seq<Step>, i: nat, h: Hash)
    requires Run(run, steps)
  {
    && 0 < i < |steps|
    && match steps[i]
       case ExistsAck(g) => g == h
       case UploadRecheck(a) => Uploads(run[i], a, h) && h in run[i].db.rows
       case UploadInsert(a) => Uploads(run[i], a, h)
       case _ => false
  }

  lemma {:induction false} PushKeeps(run: seq<State>, steps: seq<Step>, own: set<Hash>, i: nat)
    requires Run(run, steps) && Safe(run[0]) && i <= |steps|
    requires |steps| > 0 && steps[0] == Negotiate(own)
    requires run[|steps|].now <= run[0].now + PUSH_WINDOW
    requires forall k :: 0 <= k < |steps| ==> Orderly(run[k], steps[k], own)
    ensures i > 0 ==> Fresh(run[i], own, run[0].now)
    ensures forall k, h :: 0 < k <= i && h in own && h in run[k].db.rows ==> h in run[i].db.rows
  {
    if i == 1 {
      assert Next(run[0], steps[0], run[1]);
    } else if i > 1 {
      PushKeeps(run, steps, own, i - 1);
      assert Next(run[i - 1], steps[i - 1], run[i - 1 + 1]);
      SafeAt(run, steps, i - 1);
      ClockRuns(run, steps, i - 1);
      ClockRuns(run, steps, i);
      StepKeepsPush(run[i - 1], steps[i - 1], run[i], own, run[0].now);
    }
  }

  /**
   A push that takes at most 82 800 s from its first Negotiation, whose every
   missing path was acknowledged, ends with all it negotiated present, whatever
   GC, prune and other pushers did meanwhile: the closing re-check finds nothing
   gone.
   */
  lemma PushEndsWhole(run: seq<State>, steps: seq<Step>, own: set<Hash>)
    requires Run(run, steps) && Safe(run[0])
    requires |steps| > 0 && steps[0] == Negotiate(own)
    requires run[|steps|].now <= run[0].now + PUSH_WINDOW
    requires forall k :: 0 <= k < |steps| ==> Orderly(run[k], steps[k], own)
    requires forall h :: h in own && h !in run[0].db.rows ==> exists i: nat :: Acked(run, steps, i, h)
    ensures own <= run[|steps|].db.rows.Keys
  {
    var n := |steps|;
    PushKeeps(run, steps, own, n);
    forall h | h in own
      ensures h in run[n].db.rows
    {
      if h in run[0].db.rows {
        assert Next(run[0], steps[0], run[1]);
        assert h in run[1].db.rows;
      } else {
        var i: nat :| Acked(run, steps, i, h);
        assert Next(run[i], steps[i], run[i + 1]);
        assert h in run[i + 1].db.rows;
      }
    }
  }

  /** An unreferenced object once past its grace: snapshot, claim, evict. */
  lemma LateEviction(s: State, h: Hash) returns (t: State, u: State, v: State)
    requires s.lock.None? && s.actors == map[] && s.claims == map[] && Evictable(s.db, h, s.now)
    ensures GcNext(s, GcSnapshot(0, s.now, {h}), t) && GcNext(t, GcClaim(0, h), u) && GcNext(u, GcEvict(0), v)
    ensures v.now == s.now && h !in v.db.rows
  {
    t := Act(s, 0, Deleter(Gc(s.now, {h}, None), {}));
    u := Act(Taken(t, 0, h, Delete), 0, Deleter(Gc(s.now, {h} - {h}, Some(h)), {}));
    v := Act(u.(db := Removed(s.db, {h})), 0, Deleter(Gc(s.now, {h} - {h}, None), {} + {h}));
  }

  lemma OneRowIsSound(h: Hash, row: Row)
    requires row.fileSize == 0
    ensures Sound(Db(map[h := row], map[], 0))
  {
    var rows := map[h := row];
    SumWithout(rows, h);
    assert rows - {h} == map[];
  }

  /** A cache with one object, last pushed exactly an hour before `start`. */
  function LateState(start: int, h: Hash, now: int): State {
    var row := Row([], Sha256([]), 0, 0, 0, start - PUSHED_AT_DEBOUNCE);
    State(Db(map[h := row], map[], 0), map[h := []], map[], 0, None, map[], now)
  }

  lemma LateIsInitial(start: int, h: Hash)
    ensures Initial(LateState(start, h, start))
  {
    OneRowIsSound(h, LateState(start, h, start).db.rows[h]);
  }

  /** Negotiation does not touch the object, and past the window it is evictable. */
  lemma LatePush(start: int, h: Hash)
    ensures WorldNext(LateState(start, h, start), Negotiate({h}), LateState(start, h, start))
    ensures Evictable(LateState(start, h, start).db, h, start + PUSH_WINDOW + 1)
  {
    NotTouched(h, LateState(start, h, start).db.rows[h], start);
  }

  lemma NotTouched(h: Hash, row: Row, start: int)
    requires row.pushedAt == start - PUSHED_AT_DEBOUNCE && row.refs == []
    ensures Negotiated(Db(map[h := row], map[], 0), {h}, start) == Db(map[h := row], map[], 0)
    ensures Evictable(Db(map[h := row], map[], 0), h, start + PUSH_WINDOW + 1)
  {
    var db := Db(map[h := row], map[], 0);
    assert Negotiated(db, {h}, start).rows == db.rows;
  }

  /** A run that begins with a push's Negotiation of `h` and has come to `s`, with no forced deletion and no insert. */
  ghost predicate PushRun(run: seq<State>, steps: seq<Step>, start: int, h: Hash, s: State) {
    && Run(run, steps) && Initial(run[0]) && run[0].now == start && h in run[0].db.rows
    && |steps| > 0 && steps[0] == Negotiate({h}) && run[|steps|] == s
    && forall k :: 0 <= k < |steps| ==> !Forced(steps[k]) && !steps[k].UploadInsert?
  }

  lemma PushBegins(s: State, t: State, h: Hash)
    requires Initial(s) && h in s.db.rows && WorldNext(s, Negotiate({h}), t)
    ensures PushRun([s, t], [Negotiate({h})], s.now, h, t)
  {
    WorldIsNext(s, Negotiate({h}), t);
  }

  lemma PushGoes(run: seq<State>, steps: seq<Step>, start: int, h: Hash, s: State, l: Step, t: State)
    requires PushRun(run, steps, start, h, s) && Next(s, l, t) && !Forced(l) && !l.UploadInsert?
    ensures PushRun(run + [t], steps + [l], start, h, t)
  {
    Extend(run, steps, l, t);
  }

  lemma PushMeetsGc(run: seq<State>, steps: seq<Step>, start: int, h: Hash, s: State, l: Step, t: State)
    requires PushRun(run, steps, start, h, s) && GcNext(s, l, t)
    ensures PushRun(run + [t], steps + [l], start, h, t)
  {
    GcIsNext(s, l, t);
    PushGoes(run, steps, start, h, s, l, t);
  }

  lemma PushWaits(start: int, h: Hash) returns (run: seq<State>, steps: seq<Step>)
    ensures PushRun(run, steps, start, h, LateState(start, h, start + PUSH_WINDOW + 1))
  {
    var s, t := LateState(start, h, start), LateState(start, h, start + PUSH_WINDOW + 1);
    LateIsInitial(start, h);
    LatePush(start, h);
    PushBegins(s, s, h);
    run, steps := [s, s], [Negotiate({h})];
    assert WorldNext(s, Tick(PUSH_WINDOW + 1), t);
    WorldIsNext(s, Tick(PUSH_WINDOW + 1), t);
    PushGoes(run, steps, start, h, s, Tick(PUSH_WINDOW + 1), t);
    run, steps := run + [t], steps + [Tick(PUSH_WINDOW + 1)];
  }

  lemma PushLoses(run0: seq<State>, steps0: seq<Step>, start: int, h: Hash, s: State)
    returns (run: seq<State>, steps: seq<Step>, end: State)
    requires PushRun(run0, steps0, start, h, s)
    requires s.lock.None? && s.actors == map[] && s.claims == map[] && Evictable(s.db, h, s.now)
    ensures PushRun(run, steps, start, h, end) && end.now == s.now && h !in end.db.rows
  {
    var t, u, v := LateEviction(s, h);
    run, steps, end := run0, steps0, v;
    PushMeetsGc(run, steps, start, h, s, GcSnapshot(0, s.now, {h}), t);
    run, steps := run + [t], steps + [GcSnapshot(0, s.now, {h})];
    PushMeetsGc(run, steps, start, h, t, GcClaim(0, h), u);
    run, steps := run + [u], steps + [GcClaim(0, h)];
    PushMeetsGc(run, steps, start, h, u, GcEvict(0), v);
    run, steps := run + [v], steps + [GcEvict(0)];
  }

  /** One second more is too long: a path found present can then be evicted. */
  lemma PushWindowIsTight(start: int) returns (run: seq<State>, steps: seq<Step>, h: Hash, end: State)
    ensures PushRun(run, steps, start, h, end)
    ensures end.now == start + PUSH_WINDOW + 1 && h !in end.db.rows
  {
    h := Hash("h");
    run, steps := PushWaits(start, h);
    LatePush(start, h);
    run, steps, end := PushLoses(run, steps, start, h, LateState(start, h, start + PUSH_WINDOW + 1));
  }

  /** A push of `own` that takes at most `window`, and that nothing else gets in the way of. */
  ghost predicate PushWithin(run: seq<State>, steps: seq<Step>, own: set<Hash>, window: int) {
    && Run(run, steps) && Safe(run[0]) && |steps| > 0 && steps[0] == Negotiate(own)
    && run[|steps|].now <= run[0].now + window
    && (forall k :: 0 <= k < |steps| ==> Orderly(run[k], steps[k], own))
    && forall h :: h in own && h !in run[0].db.rows ==> exists i: nat :: Acked(run, steps, i, h)
  }

  /** Every such push ends with all it negotiated present. */
  ghost predicate WindowHolds(window: int) {
    forall run: seq<State>, steps: seq<Step>, own: set<Hash> ::
      PushWithin(run, steps, own, window) ==> own <= run[|steps|].db.rows.Keys
  }

  /** The window is exact: 82 800 s and no more. */
  lemma WindowIsExact(window: int)
    ensures WindowHolds(window) <==> window <= 82800
  {
    if window <= PUSH_WINDOW {
      forall run: seq<State>, steps: seq<Step>, own: set<Hash> | PushWithin(run, steps, own, window)
        ensures own <= run[|steps|].db.rows.Keys
      {
        PushEndsWhole(run, steps, own);
      }
    } else {
      var run, steps, h, end := PushWindowIsTight(0);
      assert Safe(run[0]);
      assert PushWithin(run, steps, {h}, window);
    }
  }
}
