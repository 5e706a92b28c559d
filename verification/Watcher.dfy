/**
 The store watcher: a cursor over the Nix database's valid paths and a list of
 failed ones, each a file of its own. A crash between any two writes never leaves
 a path behind the cursor unaccounted for.
 */
module Watcher {
  import opened Basics

  const BATCH_SIZE: nat := 500

  datatype ValidPath = ValidPath(path: string, sigs: seq<string>)

  /**
   The world the watcher works in. `table` is what the Nix database lists now, by id,
   each path once; ids are never reused, and `top` is the highest so far. Of the
   listed paths, `held` are those the cache has been seen to hold since they were
   listed, and `gone` those found missing from the local store since. A path that is
   listed anew starts afresh.
   */
  datatype World = World(table: map<int, ValidPath>, top: int, held: set<string>, gone: set<string>)

  /** What survives a crash. */
  datatype Files = Files(cursor: Option<int>, failed: set<string>)

  /** `<hash>-<name>` after the last slash: the hash, or all of it if it is too short for one. */
  function HashOf(path: string): string {
    var base := BaseName(path);
    if |base| >= 32 then base[..32] else base
  }

  function BaseName(path: string): string {
    if path == [] then []
    else if exists i :: 0 <= i < |path| && path[i] == '/' then BaseName(path[1..])
    else path
  }

  lemma {:induction false} BaseNameOf(dir: string, base: string)
    requires '/' !in base
    ensures BaseName(dir + "/" + base) == base
  {
    var path := dir + "/" + base;
    assert path[|dir|] == '/';
    if dir == [] {
      assert path[1..] == base;
      assert forall i :: 0 <= i < |base| ==> base[i] in base;
    } else {
      assert path[1..] == dir[1..] + "/" + base;
      BaseNameOf(dir[1..], base);
    }
  }

  /** The hash of `<dir>/<hash>-<name>`, whatever the directory. */
  lemma HashOfStorePath(dir: string, hash: string, name: string)
    requires |hash| == 32 && '/' !in hash && '/' !in name
    ensures HashOf(dir + "/" + (hash + "-" + name)) == hash
  {
    var base := hash + "-" + name;
    assert '/' !in base;
    BaseNameOf(dir, base);
    assert base[..32] == hash;
  }

  // ------------------------------------------------------------ the process

  /** Why a failed list is being saved: a new batch, a retry of old failures, or a drain. */
  datatype Goal = Batch | Retry | Drain

  /** The process, with what it has in memory; `todo` is what it has still to push. */
  datatype Proc =
    | Down
    | Starting(cursor: int)
    | Polling(cursor: int, failed: set<string>)
    | Pushing(newest: int, failed: set<string>, todo: set<string>)
    | Gathering(cursor: int, target: int, failed: set<string>, todo: set<string>)
    | Clearing(cursor: int, failed: set<string>, todo: set<string>, goal: Goal)
    | Saving(newest: int, failed: set<string>, goal: Goal)
    | Advancing(newest: int, failed: set<string>, goal: Goal)

  /** `start` is where the cursor began; `None` as long as none has been chosen. */
  datatype State = State(w: World, files: Files, start: Option<int>, proc: Proc)

  /** The valid paths after `cursor`, oldest first, at most a batch of them. */
  ghost predicate IsBatch(w: World, cursor: int, batch: seq<int>) {
    && |batch| <= BATCH_SIZE
    && (forall i :: 0 <= i < |batch| ==> batch[i] in w.table && batch[i] > cursor)
    && (forall i, j :: 0 <= i < j < |batch| ==> batch[i] < batch[j])
    && (forall id :: id in w.table && id > cursor && id !in batch ==>
          |batch| == BATCH_SIZE && forall i :: 0 <= i < |batch| ==> batch[i] < id)
  }

  ghost predicate IsMaxId(w: World, id: int) {
    && (id in w.table || (w.table == map[] && id == 0))
    && forall k :: k in w.table ==> k <= id
  }

  /** A batch's ids up to a drain's target. */
  function UpTo(batch: seq<int>, target: int): (r: seq<int>)
    ensures forall i :: 0 <= i < |r| ==> r[i] in batch && r[i] <= target
    ensures forall id :: id in batch && id <= target ==> id in r
  {
    if batch == [] then []
    else if batch[0] <= target then [batch[0]] + UpTo(batch[1..], target)
    else UpTo(batch[1..], target)
  }

  /** The paths of a batch worth pushing. */
  function Selected(w: World, keep: ValidPath -> bool, batch: seq<int>): set<string> {
    set id | id in batch && id in w.table && keep(w.table[id]) :: w.table[id].path
  }

  predicate Settled(w: World, path: string) {
    path in w.held || path in w.gone
  }

  ghost predicate IsListed(w: World, path: string) {
    exists id :: id in w.table && w.table[id].path == path
  }

  /**
   What pushing `paths` comes to by the time it is over: each has failed, or is held,
   or is missing; unless it was unlisted meanwhile, be it listed again past `cursor`.
   */
  ghost predicate IsPushed(w: World, cursor: int, paths: set<string>, failed: set<string>) {
    && failed <= paths
    && forall id :: id in w.table && id <= cursor && w.table[id].path in paths ==>
                      w.table[id].path in failed || Settled(w, w.table[id].path)
  }

  datatype Step =
    | Validate(id: int, valid: ValidPath) | Unlist(id: int) | Vanish(path: string) | Hold(path: string)
    | StartDaemon(full: bool) | WriteStart
    | ReadBatch(batch: seq<int>) | Push(still: set<string>)
    | BeginRetry(due: set<string>)
    | StartDrain(full: bool, target: int) | Gather(batch: seq<int>) | GatherEnd(batch: seq<int>)
    | ClearChunk(chunk: set<string>, still: set<string>) | Cleared
    | Save | Advance | Crash

  /** World steps: the store and the cache go their own ways. */
  ghost predicate WorldNext(s: State, t: State, step: Step) {
    && t.files == s.files && t.start == s.start && t.proc == s.proc
    && match step
       case Validate(id, valid) =>
         && id > s.w.top && !IsListed(s.w, valid.path)
         && t.w == World(s.w.table[id := valid], id, s.w.held - {valid.path}, s.w.gone - {valid.path})
       case Unlist(id) =>
         && id in s.w.table
         && t.w == s.w.(table := s.w.table - {id}, gone := s.w.gone + {s.w.table[id].path})
       case Vanish(path) => t.w == s.w.(gone := s.w.gone + {path})
       case Hold(path) => t.w == s.w.(held := s.w.held + {path})
       case _ => false
  }

  /** Where a process starts from: its own cursor, or the one it picks. */
  ghost predicate Starts(s: State, t: State, cursor: int) {
    t.start == (if s.files.cursor.Some? then s.start else Some(cursor)) && t.files == s.files && t.w == s.w
  }

  ghost predicate StartNext(s: State, t: State, step: Step) {
    match step
    case StartDaemon(full) =>
      && s.proc.Down? && t.proc.Starting? && Starts(s, t, t.proc.cursor)
      && (match s.files.cursor
          case Some(c) => t.proc.cursor == c
          case None => if full then t.proc.cursor == 0 else IsMaxId(s.w, t.proc.cursor))
    case WriteStart =>
      && s.proc.Starting? && t.w == s.w && t.start == s.start
      && t.files == s.files.(cursor := Some(s.proc.cursor))
      && t.proc == Polling(s.proc.cursor, s.files.failed)
    case StartDrain(full, target) =>
      && s.proc.Down? && IsMaxId(s.w, target) && (s.files.cursor.Some? || full)
      && var cursor := if s.files.cursor.Some? then s.files.cursor.value else 0;
         Starts(s, t, cursor) && t.proc == Gathering(cursor, target, s.files.failed, {})
    case _ => false
  }

  /** Steps that change only what the process has in memory. */
  ghost predicate MemoryNext(keep: ValidPath -> bool, s: State, t: State, step: Step) {
    && t.w == s.w && t.files == s.files && t.start == s.start
    && match step
       case ReadBatch(batch) =>
         && s.proc.Polling? && batch != [] && IsBatch(s.w, s.proc.cursor, batch)
         && t.proc == Pushing(batch[|batch| - 1], s.proc.failed, Selected(s.w, keep, batch))
       case Push(still) =>
         && s.proc.Pushing? && IsPushed(s.w, s.proc.newest, s.proc.todo, still)
         && t.proc == Saving(s.proc.newest, s.proc.failed + still, Batch)
       case BeginRetry(due) =>
         && s.proc.Polling? && IsBatch(s.w, s.proc.cursor, []) && due != {} && due <= s.proc.failed
         && t.proc == Clearing(s.proc.cursor, s.proc.failed, due, Retry)
       case Gather(batch) =>
         && s.proc.Gathering? && s.proc.cursor < s.proc.target && IsBatch(s.w, s.proc.cursor, batch)
         && var kept := UpTo(batch, s.proc.target);
            && kept != []
            && t.proc == Gathering(kept[|kept| - 1], s.proc.target, s.proc.failed,
                                   s.proc.todo + (Selected(s.w, keep, kept) - s.proc.failed))
       case GatherEnd(batch) =>
         && s.proc.Gathering?
         && (s.proc.cursor >= s.proc.target
             || (IsBatch(s.w, s.proc.cursor, batch) && UpTo(batch, s.proc.target) == []))
         && t.proc == Clearing(s.proc.cursor, s.proc.failed, s.proc.failed + s.proc.todo, Drain)
       case ClearChunk(chunk, still) =>
         && s.proc.Clearing? && chunk <= s.proc.todo && IsPushed(s.w, s.proc.cursor, chunk, still)
         && t.proc == Clearing(s.proc.cursor, Applied(s.proc.failed, chunk, still), s.proc.todo - chunk, s.proc.goal)
       case Cleared =>
         s.proc.Clearing? && s.proc.todo == {} && t.proc == Saving(s.proc.cursor, s.proc.failed, s.proc.goal)
       case _ => false
  }

  /** The failed list once a chunk has been pushed. */
  function Applied(failed: set<string>, chunk: set<string>, still: set<string>): set<string> {
    failed - (chunk - still) + still
  }

  /** The list is saved before the cursor passes what is on it. */
  ghost predicate WriteNext(s: State, t: State, step: Step) {
    && t.w == s.w && t.start == s.start
    && match step
       case Save =>
         && s.proc.Saving? && t.files == s.files.(failed := s.proc.failed)
         && t.proc == if s.proc.goal.Retry? then Polling(s.proc.newest, s.proc.failed)
                      else Advancing(s.proc.newest, s.proc.failed, s.proc.goal)
       case Advance =>
         && s.proc.Advancing? && t.files == s.files.(cursor := Some(s.proc.newest))
         && t.proc == if s.proc.goal.Drain? then Down else Polling(s.proc.newest, s.proc.failed)
       case Crash => t.files == s.files && t.proc == Down
       case _ => false
  }

  ghost predicate Next(keep: ValidPath -> bool, s: State, t: State) {
    exists step: Step ::
      WorldNext(s, t, step) || StartNext(s, t, step) || MemoryNext(keep, s, t, step) || WriteNext(s, t, step)
  }

  ghost predicate Initial(s: State) {
    && s.w == World(map[], 0, {}, {}) && s.start == None && s.proc == Down
    && s.files == Files(None, {})
  }

  ghost predicate Run(keep: ValidPath -> bool, run: seq<State>) {
    && run != [] && Initial(run[0])
    && forall i :: 0 <= i < |run| - 1 ==> Next(keep, run[i], run[i + 1])
  }

  // ------------------------------------------------------------ what is accounted for

  /** Every selected path listed after `start` and up to `cursor` is held, missing, or in `failed`. */
  ghost predicate Covers(keep: ValidPath -> bool, w: World, start: int, cursor: int, failed: set<string>) {
    forall id :: id in w.table && start < id <= cursor && keep(w.table[id]) ==>
                   w.table[id].path in failed || Settled(w, w.table[id].path)
  }

  ghost predicate WorldOk(w: World) {
    0 <= w.top && forall id :: id in w.table ==> id <= w.top
  }

  /** A cursor in use, with the paths that account for what it has passed. */
  ghost predicate Tracks(keep: ValidPath -> bool, s: State, cursor: int, failed: set<string>) {
    s.start.Some? && cursor <= s.w.top && Covers(keep, s.w, s.start.value, cursor, failed)
  }

  /** The cursor on disk, if there is one, is accounted for by `failed`. */
  ghost predicate DiskTracks(keep: ValidPath -> bool, s: State, failed: set<string>) {
    s.files.cursor.Some? ==> Tracks(keep, s, s.files.cursor.value, failed)
  }

  ghost predicate DiskBehind(s: State, cursor: int) {
    s.files.cursor.Some? ==> s.files.cursor.value <= cursor
  }

  ghost predicate ProcOk(keep: ValidPath -> bool, s: State) {
    match s.proc
    case Down => true
    case Starting(c) => Tracks(keep, s, c, s.files.failed)
    case Polling(c, f) => s.files.cursor == Some(c) && Tracks(keep, s, c, f)
    case Pushing(n, f, todo) => s.files.cursor.Some? && DiskTracks(keep, s, f) && Tracks(keep, s, n, f + todo)
    case Gathering(c, _, f, todo) => DiskTracks(keep, s, f) && Tracks(keep, s, c, f + todo) && DiskBehind(s, c)
    case Clearing(c, f, todo, g) =>
      && DiskTracks(keep, s, f) && Tracks(keep, s, c, f + todo) && DiskBehind(s, c)
      && !g.Batch? && (g.Retry? ==> s.files.cursor == Some(c))
    case Saving(n, f, g) =>
      DiskTracks(keep, s, f) && Tracks(keep, s, n, f) && (g.Retry? ==> s.files.cursor == Some(n))
    case Advancing(n, f, _) => s.files.failed == f && Tracks(keep, s, n, f)
  }

  ghost predicate Inv(keep: ValidPath -> bool, s: State) {
    WorldOk(s.w) && DiskTracks(keep, s, s.files.failed) && ProcOk(keep, s)
  }

  /** What is still listed is as it was, and as settled; new ids are past every cursor. */
  ghost predicate Grows(w: World, v: World) {
    && w.top <= v.top
    && forall id :: id in v.table && id <= w.top ==>
                      && id in w.table && v.table[id] == w.table[id]
                      && (Settled(w, w.table[id].path) ==> Settled(v, w.table[id].path))
  }

  /** Every listed path up to `cursor` that `failed` accounts for is accounted for by `listed`. */
  ghost predicate Carries(w: World, cursor: int, failed: set<string>, listed: set<string>) {
    forall id :: id in w.table && id <= cursor && w.table[id].path in failed ==>
                   w.table[id].path in listed || Settled(w, w.table[id].path)
  }

  lemma TracksLater(keep: ValidPath -> bool, s: State, t: State, cursor: int, failed: set<string>, listed: set<string>)
    requires Tracks(keep, s, cursor, failed) && Grows(s.w, t.w) && t.start == s.start
    requires Carries(t.w, cursor, failed, listed)
    ensures Tracks(keep, t, cursor, listed)
  {
    var w, v := s.w, t.w;
    forall id | id in v.table && s.start.value < id <= cursor && keep(v.table[id])
      ensures v.table[id].path in listed || Settled(v, v.table[id].path)
    {
      assert id in w.table && v.table[id] == w.table[id];
    }
  }

  lemma WorldStepGrows(s: State, t: State, step: Step)
    requires WorldOk(s.w) && WorldNext(s, t, step)
    ensures WorldOk(t.w) && Grows(s.w, t.w)
  {
  }

  lemma WorldKeeps(keep: ValidPath -> bool, s: State, t: State, step: Step)
    requires Inv(keep, s) && WorldNext(s, t, step)
    ensures Inv(keep, t)
  {
    WorldStepGrows(s, t, step);
    forall c, f | Tracks(keep, s, c, f)
      ensures Tracks(keep, t, c, f)
    {
      TracksLater(keep, s, t, c, f, f);
    }
  }

  lemma StartKeeps(keep: ValidPath -> bool, s: State, t: State, step: Step)
    requires Inv(keep, s) && StartNext(s, t, step)
    ensures Inv(keep, t)
  {
    if step.StartDrain? {
      assert t.proc.failed + t.proc.todo == s.files.failed;
    }
  }

  /** A batch leaves out no listed path up to its last. */
  lemma BatchCovers(keep: ValidPath -> bool, s: State, from: int, batch: seq<int>, kept: seq<int>, failed: set<string>)
    requires WorldOk(s.w) && Tracks(keep, s, from, failed) && IsBatch(s.w, from, batch)
    requires kept != [] && (forall i :: 0 <= i < |kept| ==> kept[i] in batch)
    requires forall id :: id in batch && id <= kept[|kept| - 1] ==> id in kept
    ensures Tracks(keep, s, kept[|kept| - 1], failed + Selected(s.w, keep, kept))
  {
    var newest, more := kept[|kept| - 1], failed + Selected(s.w, keep, kept);
    assert newest in batch && newest in s.w.table;
    forall id | id in s.w.table && s.start.value < id <= newest && keep(s.w.table[id])
      ensures s.w.table[id].path in more || Settled(s.w, s.w.table[id].path)
    {
      if id > from {
        assert id in batch;
      }
    }
  }

  lemma GatherKeeps(keep: ValidPath -> bool, s: State, t: State, batch: seq<int>)
    requires Inv(keep, s) && MemoryNext(keep, s, t, Gather(batch))
    ensures Inv(keep, t)
  {
    var kept := UpTo(batch, s.proc.target);
    var f := s.proc.failed;
    BatchCovers(keep, s, s.proc.cursor, batch, kept, f + s.proc.todo);
    assert f + s.proc.todo + Selected(s.w, keep, kept) == f + t.proc.todo;
  }

  lemma PushKeeps(keep: ValidPath -> bool, s: State, t: State, still: set<string>)
    requires Inv(keep, s) && MemoryNext(keep, s, t, Push(still))
    ensures Inv(keep, t)
  {
    var f, listed := s.proc.failed, s.proc.failed + still;
    TracksLater(keep, s, t, s.proc.newest, f + s.proc.todo, listed);
    TracksLater(keep, s, t, s.files.cursor.value, f, listed);
  }

  lemma ClearKeeps(keep: ValidPath -> bool, s: State, t: State, chunk: set<string>, still: set<string>)
    requires Inv(keep, s) && MemoryNext(keep, s, t, ClearChunk(chunk, still))
    ensures Inv(keep, t)
  {
    TracksLater(keep, s, t, s.proc.cursor, s.proc.failed + s.proc.todo, t.proc.failed + t.proc.todo);
    if s.files.cursor.Some? {
      TracksLater(keep, s, t, s.files.cursor.value, s.proc.failed, t.proc.failed);
    }
  }

  lemma MemoryKeeps(keep: ValidPath -> bool, s: State, t: State, step: Step)
    requires Inv(keep, s) && MemoryNext(keep, s, t, step)
    ensures Inv(keep, t)
  {
    match step {
      case ReadBatch(batch) => BatchCovers(keep, s, s.proc.cursor, batch, batch, s.proc.failed);
      case Push(still) => PushKeeps(keep, s, t, still);
      case BeginRetry(due) => assert s.proc.failed + due == s.proc.failed;
      case Gather(batch) => GatherKeeps(keep, s, t, batch);
      case GatherEnd(_) => assert s.proc.failed + (s.proc.failed + s.proc.todo) == s.proc.failed + s.proc.todo;
      case ClearChunk(chunk, still) => ClearKeeps(keep, s, t, chunk, still);
      case Cleared => assert s.proc.failed + s.proc.todo == s.proc.failed;
      case _ =>
    }
  }

  lemma WriteKeeps(keep: ValidPath -> bool, s: State, t: State, step: Step)
    requires Inv(keep, s) && WriteNext(s, t, step)
    ensures Inv(keep, t)
  {
  }

  lemma {:induction false} RunKeeps(keep: ValidPath -> bool, run: seq<State>, i: nat)
    requires Run(keep, run) && i < |run|
    ensures Inv(keep, run[i])
  {
    if i > 0 {
      RunKeeps(keep, run, i - 1);
      var s, t := run[i - 1], run[i - 1 + 1];
      assert Next(keep, s, t);
      var step :|
        WorldNext(s, t, step) || StartNext(s, t, step) || MemoryNext(keep, s, t, step) || WriteNext(s, t, step);
      if WorldNext(s, t, step) {
        WorldKeeps(keep, s, t, step);
      } else if StartNext(s, t, step) {
        StartKeeps(keep, s, t, step);
      } else if MemoryNext(keep, s, t, step) {
        MemoryKeeps(keep, s, t, step);
      } else {
        WriteKeeps(keep, s, t, step);
      }
    }
  }

  /**
   Whatever the store, the cache, the daemon, its drains and their crashes do: of the
   paths the store lists now, every selected one between where the cursor began and
   where it is on disk is missing from the store, or has been held by the cache since
   it was listed, or is on the failed list on disk.
   */
  lemma NothingIsLost(keep: ValidPath -> bool, run: seq<State>, i: nat)
    requires Run(keep, run) && i < |run| && run[i].files.cursor.Some?
    ensures run[i].start.Some?
    ensures forall id :: id in run[i].w.table && keep(run[i].w.table[id])
                         && run[i].start.value < id <= run[i].files.cursor.value ==>
                           var path := run[i].w.table[id].path;
                           path in run[i].w.held || path in run[i].w.gone || path in run[i].files.failed
  {
    RunKeeps(keep, run, i);
  }

  // ------------------------------------------------------------ the failed list

  class FailedList {
    var paths: set<string>
    var attempts: map<string, nat>

    /** A list just read back: attempts are not kept across processes. */
    constructor (paths: set<string>)
      ensures this.paths == paths && attempts == map[]
    {
      this.paths, attempts := paths, map[];
    }

    function Spent(path: string): nat
      reads this
    {
      if path in attempts then attempts[path] else 0
    }

    method RecordFailure(path: string) returns (spent: nat)
      modifies this
      ensures paths == old(paths) + {path} && spent == old(Spent(path)) + 1
      ensures attempts == old(attempts)[path := spent]
    {
      paths := paths + {path};
      spent := Spent(path) + 1;
      attempts := attempts[path := spent];
    }

    method RecordSuccess(path: string)
      modifies this
      ensures paths == old(paths) - {path} && attempts == old(attempts) - {path}
    {
      paths, attempts := paths - {path}, attempts - {path};
    }

    /** The listed paths tried fewer than `max` times in this process. */
    function Due(max: nat): set<string>
      reads this
    {
      set p | p in paths && Spent(p) < max
    }

    /** One chunk's pushes: what failed again stays with another attempt spent, the rest comes off. */
    method Apply(chunk: seq<string>, still: set<string>) returns (pushed: nat)
      requires still <= Elems(chunk)
      modifies this
      ensures paths == Applied(old(paths), Elems(chunk), still)
      ensures forall p :: p in paths <==> p in still || (p in old(paths) && p !in chunk)
      ensures forall p :: p !in chunk ==> Spent(p) == old(Spent(p))
      ensures forall p :: p in chunk ==> if p in still then Spent(p) > old(Spent(p)) else Spent(p) == 0
      ensures pushed == 0 <==> Elems(chunk) <= still
    {
      pushed := 0;
      ghost var done: set<string> := {};
      AppliedNone(paths, still);
      for i := 0 to |chunk|
        invariant done == Elems(chunk[..i])
        invariant paths == Applied(old(paths), done, done * still)
        invariant forall p :: p !in done ==> Spent(p) == old(Spent(p))
        invariant forall p :: p in done ==> if p in still then Spent(p) > old(Spent(p)) else Spent(p) == 0
        invariant pushed == 0 <==> done <= still
      {
        var path := chunk[i];
        AppliedOne(old(paths), done, still, path);
        assert chunk[..i + 1] == chunk[..i] + [path];
        assert Elems(chunk[..i + 1]) == done + {path};
        if path in still {
          var _ := RecordFailure(path);
        } else {
          RecordSuccess(path);
          pushed := pushed + 1;
        }
        done := done + {path};
      }
      assert chunk[..|chunk|] == chunk;
      assert done * still == still;
    }
  }

  lemma AppliedNone(failed: set<string>, still: set<string>)
    ensures Applied(failed, {}, {} * still) == failed
  {
  }

  lemma AppliedOne(failed: set<string>, done: set<string>, still: set<string>, path: string)
    ensures Applied(failed, done + {path}, (done + {path}) * still) ==
            if path in still then Applied(failed, done, done * still) + {path}
            else Applied(failed, done, done * still) - {path}
  {
  }

  // ------------------------------------------------------------ pushing a batch

  /** The outside world as a push meets it: what has been seen held or gone only grows. */
  class Outside {
    var held: set<string>
    var gone: set<string>

    /** `nix path-info`: all of the paths described, or an error for the whole call. */
    method PathInfo(paths: seq<string>) returns (ok: bool)
    {
      ok := *;
    }

    method Exists(path: string) returns (there: bool)
      modifies this
      ensures held == old(held) && old(gone) <= gone && (there || path in gone)
    {
      there := *;
      if !there {
        gone := gone + {path};
      }
    }

    /** Which hashes the cache does not hold, or an error. */
    method Negotiate(hashes: set<string>) returns (missing: Option<set<string>>)
      modifies this
      ensures gone == old(gone) && old(held) <= held
      ensures missing.Some? ==> missing.value <= hashes && hashes - missing.value <= held
    {
      if * {
        return None;
      }
      var absent: set<string> := *;
      held := held + (hashes - absent);
      missing := Some(hashes * absent);
    }

    /** One path's upload, retries included. */
    method PushOne(path: string) returns (ok: bool)
      modifies this
      ensures gone == old(gone) && old(held) <= held && (ok ==> HashOf(path) in held)
    {
      ok := *;
      if ok {
        held := held + {HashOf(path)};
      }
    }

    predicate Landed(path: string)
      reads this
    {
      HashOf(path) in held || path in gone
    }

    /** Described together or, failing that, one by one; a path that has left the store is dropped. */
    method Describe(paths: seq<string>) returns (infos: seq<string>, failed: seq<string>)
      modifies this
      ensures held == old(held) && old(gone) <= gone
      ensures Elems(infos) + Elems(failed) <= Elems(paths)
      ensures forall p :: p in paths ==> p in infos || p in failed || p in gone
    {
      var all := PathInfo(paths);
      if all {
        return paths, [];
      }
      infos, failed := [], [];
      for i := 0 to |paths|
        invariant held == old(held) && old(gone) <= gone
        invariant Elems(infos) + Elems(failed) <= Elems(paths)
        invariant forall k :: 0 <= k < i ==> paths[k] in infos || paths[k] in failed || paths[k] in gone
      {
        var path := paths[i];
        var one := PathInfo([path]);
        if one {
          infos := infos + [path];
        } else {
          var there := Exists(path);
          if there {
            failed := failed + [path];
          }
        }
      }
    }

    /** Negotiates for `infos` and their `references`, and uploads what the cache lacks. */
    method PushDescribed(infos: seq<string>, references: set<string>) returns (failed: seq<string>)
      modifies this
      ensures old(held) <= held && gone == old(gone)
      ensures Elems(failed) <= Elems(infos)
      ensures forall p :: p in infos ==> p in failed || HashOf(p) in held
    {
      if infos == [] {
        return [];
      }
      var missing := Negotiate((set p | p in infos :: HashOf(p)) + references);
      if missing.None? {
        return infos;
      }
      failed := [];
      for i := 0 to |infos|
        invariant old(held) <= held && gone == old(gone) && Elems(failed) <= Elems(infos)
        invariant forall p :: p in infos ==> HashOf(p) in missing.value || HashOf(p) in held
        invariant forall k :: 0 <= k < i ==> infos[k] in failed || HashOf(infos[k]) in held
      {
        if HashOf(infos[i]) in missing.value {
          var ok := PushOne(infos[i]);
          if !ok {
            failed := failed + [infos[i]];
          }
        }
      }
    }

    /** Every path of a batch comes out failed, held by the cache, or gone from the store. */
    method PushBatch(paths: seq<string>, references: set<string>) returns (failed: seq<string>)
      modifies this
      ensures old(held) <= held && old(gone) <= gone
      ensures Elems(failed) <= Elems(paths)
      ensures forall p :: p in paths ==> p in failed || Landed(p)
    {
      if paths == [] {
        return [];
      }
      var infos, undescribed := Describe(paths);
      var rejected := PushDescribed(infos, references);
      failed := undescribed + rejected;
    }
  }
}
