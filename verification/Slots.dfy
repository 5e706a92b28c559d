/**
 Any number of uploads sharing the byte budget: a first-come, first-served
 semaphore whose permits go to the waiter at the head as they come back, each
 upload's parts on tasks of their own, and failures at any point.
 */
module Slots {
  import opened Basics
  import opened Budgets

  /** Permits held for a buffer of so many bytes. */
  datatype Hold = Hold(units: nat, bytes: nat)

  /** Waiting for permits, filling a buffer, between parts, or with its last part sent. */
  datatype Phase = Waiting | Filling(hold: Hold) | Choosing | Draining

  /** `parts` are being sent; `tasks` counts them and those that are done and not yet collected. */
  datatype Upload = Active(phase: Phase, parts: seq<Hold>, tasks: nat)

  /** In the semaphore's queue, with `got` of its permits already. */
  datatype Waiter = Waiter(id: nat, hold: Hold, got: nat)

  datatype State = State(uploads: map<nat, Upload>, queue: seq<Waiter>, available: nat)

  datatype Config = Config(partSize: nat, cap: nat, most: nat, limits: Limits)

  predicate Sane(c: Config) {
    c.partSize >= 1 && c.most >= 1 && c.limits == Budget(c.partSize, c.cap)
  }

  /** What a buffer of `bytes` reserves. */
  function Reserve(c: Config, bytes: nat): (hold: Hold)
    requires Sane(c) && 1 <= bytes <= c.partSize
    ensures HoldOk(c, hold)
  {
    UnitsForCovers(bytes, c.partSize, c.cap);
    Hold(UnitsFor(bytes, c.limits), bytes)
  }

  /** A hold is no more than a part's, which the whole budget holds, and covers its buffer. */
  predicate HoldOk(c: Config, hold: Hold) {
    1 <= hold.units <= c.limits.partUnits <= c.limits.totalUnits && 1 <= hold.bytes <= hold.units * c.limits.unit
  }

  // ------------------------------------------------------------ the semaphore

  /** Hands free permits to the head of the queue until it or they run out. */
  function Settle(s: State): State
    decreases |s.queue|
  {
    if s.queue == [] || s.available == 0 then s
    else
      var w := s.queue[0];
      if w.got + s.available < w.hold.units then
        s.(queue := s.queue[0 := w.(got := w.got + s.available)], available := 0)
      else
        var used := if w.got <= w.hold.units then w.hold.units - w.got else 0;
        Settle(State(Granted(s.uploads, w), s.queue[1..], s.available - used))
  }

  /** The waiter has all it asked for and goes on to fill its buffer. */
  function Granted(uploads: map<nat, Upload>, w: Waiter): map<nat, Upload> {
    if w.id in uploads then uploads[w.id := uploads[w.id].(phase := Filling(w.hold))] else uploads
  }

  // ------------------------------------------------------------ steps

  /** How a filled buffer goes on is up to the body: put on its own, sent as a part, or found empty. */
  datatype Step =
    | Begin(id: nat, hint: nat)
    | More(id: nat)
    | Collect(id: nat)
    | SinglePut(id: nat)
    | Spawn(id: nat, last: bool)
    | NothingMore(id: nat)
    | PartDone(id: nat, part: nat)
    | Complete(id: nat)
    | Fail(id: nat)

  predicate Enabled(c: Config, s: State, step: Step) {
    match step
    case Begin(id, hint) => id !in s.uploads
    case More(id) => id in s.uploads && s.uploads[id].phase.Choosing? && s.uploads[id].tasks < c.most
    case Collect(id) =>
      && id in s.uploads && (s.uploads[id].phase.Choosing? || s.uploads[id].phase.Draining?)
      && |s.uploads[id].parts| < s.uploads[id].tasks
    case SinglePut(id) =>
      id in s.uploads && s.uploads[id].phase.Filling? && s.uploads[id].tasks == 0 && s.uploads[id].parts == []
    case Spawn(id, last) => id in s.uploads && s.uploads[id].phase.Filling?
    case NothingMore(id) => id in s.uploads && s.uploads[id].phase.Filling? && s.uploads[id].tasks > 0
    case PartDone(id, part) => id in s.uploads && part < |s.uploads[id].parts|
    case Complete(id) => id in s.uploads && s.uploads[id].phase.Draining? && s.uploads[id].tasks == 0
    case Fail(id) => id in s.uploads
  }

  function Drop<T>(s: seq<T>, i: nat): seq<T>
    requires i < |s|
  {
    s[..i] + s[i + 1..]
  }

  /** The queue without an upload's waiter. */
  function Without(queue: seq<Waiter>, id: nat): (r: seq<Waiter>)
    ensures Gotten(r) <= Gotten(queue)
  {
    if queue == [] then []
    else if queue[0].id == id then Without(queue[1..], id)
    else [queue[0]] + Without(queue[1..], id)
  }

  /** What the waiters have between them. */
  function Gotten(queue: seq<Waiter>): nat {
    if queue == [] then 0 else queue[0].got + Gotten(queue[1..])
  }

  /** What the step itself does, permits given back included. */
  function Changed(c: Config, s: State, step: Step): State
    requires Sane(c) && Enabled(c, s, step)
  {
    match step
    case Begin(id, hint) => Asking(s, id, Active(Waiting, [], 0), Reserve(c, Clamp(hint, 1, c.partSize)))
    case More(id) => Asking(s, id, s.uploads[id], Reserve(c, c.partSize))
    case Collect(id) => Moved(s, id, Collected(s.uploads[id]), 0)
    case SinglePut(id) => Finished(s, id)
    case Spawn(id, last) => Moved(s, id, Spawned(s.uploads[id], last), 0)
    case NothingMore(id) => Moved(s, id, s.uploads[id].(phase := Draining), s.uploads[id].phase.hold.units)
    case PartDone(id, part) => Moved(s, id, Sent(s.uploads[id], part), s.uploads[id].parts[part].units)
    case Complete(id) => Finished(s, id)
    case Fail(id) => Failed(s, id)
  }

  function Collected(u: Upload): Upload
    requires u.tasks > 0
  {
    u.(tasks := u.tasks - 1)
  }

  function Spawned(u: Upload, last: bool): Upload
    requires u.phase.Filling?
  {
    Active(if last then Draining else Choosing, u.parts + [u.phase.hold], u.tasks + 1)
  }

  function Sent(u: Upload, part: nat): Upload
    requires part < |u.parts|
  {
    u.(parts := Drop(u.parts, part))
  }

  function Failed(s: State, id: nat): State
    requires id in s.uploads
  {
    State(s.uploads - {id}, Without(s.queue, id),
          s.available + UnitsOf(s.uploads[id]) + (Gotten(s.queue) - Gotten(Without(s.queue, id))))
  }

  /** A step, and the semaphore then handing out what is free. */
  function Take(c: Config, s: State, step: Step): State
    requires Sane(c) && Enabled(c, s, step)
  {
    Settle(Changed(c, s, step))
  }

  function Asking(s: State, id: nat, u: Upload, hold: Hold): State {
    State(s.uploads[id := u.(phase := Waiting)], s.queue + [Waiter(id, hold, 0)], s.available)
  }

  function Moved(s: State, id: nat, u: Upload, freed: nat): State {
    s.(uploads := s.uploads[id := u], available := s.available + freed)
  }

  function Finished(s: State, id: nat): State
    requires id in s.uploads
  {
    s.(uploads := s.uploads - {id}, available := s.available + UnitsOf(s.uploads[id]))
  }

  // ------------------------------------------------------------ sums

  /** Permits of a list of holds. */
  function UnitsIn(holds: seq<Hold>): nat {
    if holds == [] then 0 else holds[0].units + UnitsIn(holds[1..])
  }

  function BytesIn(holds: seq<Hold>): nat {
    if holds == [] then 0 else holds[0].bytes + BytesIn(holds[1..])
  }

  /** Everything an upload holds permits for. */
  function HoldsOf(u: Upload): seq<Hold> {
    (if u.phase.Filling? then [u.phase.hold] else []) + u.parts
  }

  function UnitsOf(u: Upload): nat {
    UnitsIn(HoldsOf(u))
  }

  function BytesOf(u: Upload): nat {
    BytesIn(HoldsOf(u))
  }

  ghost function Pick(m: map<nat, Upload>): (id: nat)
    requires m != map[]
    ensures id in m
  {
    var id :| id in m;
    id
  }

  ghost function Sum(m: map<nat, Upload>, f: Upload -> nat): nat {
    if m == map[] then 0 else
      var id := Pick(m);
      f(m[id]) + Sum(m - {id}, f)
  }

  lemma {:induction false} SumWithout(m: map<nat, Upload>, f: Upload -> nat, id: nat)
    requires id in m
    ensures Sum(m, f) == f(m[id]) + Sum(m - {id}, f)
    decreases |m|
  {
    var k := Pick(m);
    if k != id {
      SumWithout(m - {k}, f, id);
      SumWithout(m - {id}, f, k);
      assert m - {k} - {id} == m - {id} - {k};
    }
  }

  lemma SumWith(m: map<nat, Upload>, f: Upload -> nat, id: nat, u: Upload)
    ensures Sum(m[id := u], f) + (if id in m then f(m[id]) else 0) == Sum(m, f) + f(u)
  {
    SumWithout(m[id := u], f, id);
    assert m[id := u] - {id} == m - {id};
    if id in m {
      SumWithout(m, f, id);
    } else {
      assert m - {id} == m;
    }
  }

  lemma {:induction false} UnitsAppend(a: seq<Hold>, b: seq<Hold>)
    ensures UnitsIn(a + b) == UnitsIn(a) + UnitsIn(b)
  {
    if a == [] {
      assert a + b == b;
    } else {
      UnitsAppend(a[1..], b);
      assert (a + b)[1..] == a[1..] + b;
    }
  }

  lemma UnitsFilling(hold: Hold, parts: seq<Hold>)
    ensures UnitsIn([hold] + parts) == hold.units + UnitsIn(parts)
    ensures UnitsIn(parts + [hold]) == UnitsIn(parts) + hold.units
    ensures UnitsIn([] + parts) == UnitsIn(parts)
  {
    assert ([hold] + parts)[1..] == parts;
    UnitsAppend(parts, [hold]);
    assert UnitsIn([hold]) == hold.units + UnitsIn([hold][1..]);
    assert [] + parts == parts;
  }

  /** An upload's permits, split by what they are for. */
  lemma UnitsSplit(u: Upload)
    ensures UnitsOf(u) == (if u.phase.Filling? then u.phase.hold.units else 0) + UnitsIn(u.parts)
  {
    if u.phase.Filling? {
      UnitsFilling(u.phase.hold, u.parts);
    } else {
      UnitsFilling(Hold(0, 0), u.parts);
    }
  }

  lemma {:induction false} UnitsDropped(parts: seq<Hold>, i: nat)
    requires i < |parts|
    ensures UnitsIn(parts) == UnitsIn(Drop(parts, i)) + parts[i].units
  {
    if i == 0 {
      assert Drop(parts, 0) == parts[1..];
    } else {
      UnitsDropped(parts[1..], i - 1);
      assert Drop(parts, i) == [parts[0]] + Drop(parts[1..], i - 1);
      UnitsFilling(parts[0], Drop(parts[1..], i - 1));
    }
  }

  // ------------------------------------------------------------ what every step keeps

  /** No more parts than tasks, no more tasks than allowed, counting the part on its way to being one. */
  predicate UploadOk(c: Config, u: Upload) {
    && |u.parts| <= u.tasks
    && u.tasks + (if u.phase.Waiting? || u.phase.Filling? then 1 else 0) <= c.most
    && (u.phase.Filling? ==> HoldOk(c, u.phase.hold))
    && forall i :: 0 <= i < |u.parts| ==> HoldOk(c, u.parts[i])
  }

  predicate Queued(queue: seq<Waiter>, id: nat) {
    exists i :: 0 <= i < |queue| && queue[i].id == id
  }

  function WaitingIn(uploads: map<nat, Upload>): set<nat> {
    set id | id in uploads && uploads[id].phase.Waiting?
  }

  predicate WaiterOk(c: Config, w: Waiter, waiting: set<nat>) {
    w.id in waiting && HoldOk(c, w.hold) && w.got < w.hold.units
  }

  /** Each waiter is one waiting upload, short of what it asked for; only the head has any of it. */
  predicate QueueOk(c: Config, queue: seq<Waiter>, waiting: set<nat>) {
    && (forall i :: 0 <= i < |queue| ==> WaiterOk(c, queue[i], waiting))
    && (forall i :: 0 < i < |queue| ==> queue[i].got == 0)
    && (forall i, j :: 0 <= i < j < |queue| ==> queue[i].id != queue[j].id)
    && (forall id :: id in waiting ==> Queued(queue, id))
  }

  predicate AllOk(c: Config, uploads: map<nat, Upload>) {
    forall id :: id in uploads ==> UploadOk(c, uploads[id])
  }

  ghost predicate Conserved(c: Config, s: State) {
    Sum(s.uploads, UnitsOf) + Gotten(s.queue) + s.available == c.limits.totalUnits
  }

  ghost predicate Books(c: Config, s: State) {
    Conserved(c, s) && AllOk(c, s.uploads) && QueueOk(c, s.queue, WaitingIn(s.uploads))
  }

  /** Nobody waits while a permit is free. */
  ghost predicate Idle(s: State) {
    s.queue == [] || s.available == 0
  }

  ghost predicate Inv(c: Config, s: State) {
    Books(c, s) && Idle(s)
  }

  // ------------------------------------------------------------ the queue

  lemma {:induction false} NoneGotten(queue: seq<Waiter>)
    requires forall i :: 0 <= i < |queue| ==> queue[i].got == 0
    ensures Gotten(queue) == 0
  {
    if queue != [] {
      NoneGotten(queue[1..]);
    }
  }

  lemma HeadGotten(c: Config, queue: seq<Waiter>, waiting: set<nat>)
    requires QueueOk(c, queue, waiting) && queue != []
    ensures WaiterOk(c, queue[0], waiting)
    ensures Gotten(queue[1..]) == 0 && Gotten(queue) == queue[0].got < queue[0].hold.units <= c.limits.totalUnits
  {
    var tail := queue[1..];
    forall i | 0 <= i < |tail|
      ensures tail[i].got == 0
    {
      assert tail[i] == queue[i + 1];
    }
    NoneGotten(tail);
    assert WaiterOk(c, queue[0], waiting);
  }

  lemma {:induction false} GottenSnoc(queue: seq<Waiter>, w: Waiter)
    ensures Gotten(queue + [w]) == Gotten(queue) + w.got
  {
    if queue == [] {
      assert [w][1..] == [];
    } else {
      GottenSnoc(queue[1..], w);
      assert (queue + [w])[1..] == queue[1..] + [w];
    }
  }

  lemma QueueJoined(c: Config, queue: seq<Waiter>, waiting: set<nat>, w: Waiter)
    requires QueueOk(c, queue, waiting) && w.id !in waiting && w.got == 0 && HoldOk(c, w.hold)
    ensures QueueOk(c, queue + [w], waiting + {w.id})
  {
    var longer, more := queue + [w], waiting + {w.id};
    assert forall i :: 0 <= i < |queue| ==> WaiterOk(c, queue[i], waiting);
    forall id | id in more
      ensures Queued(longer, id)
    {
      if id == w.id {
        assert longer[|queue|].id == id;
      } else {
        var i :| 0 <= i < |queue| && queue[i].id == id;
        assert longer[i].id == id;
      }
    }
  }

  /** Any one waiter leaves; the rest stay as they were. */
  lemma QueueLeft(c: Config, queue: seq<Waiter>, waiting: set<nat>, i: nat)
    requires QueueOk(c, queue, waiting) && i < |queue|
    ensures QueueOk(c, Drop(queue, i), waiting - {queue[i].id})
  {
    var left, fewer := Drop(queue, i), waiting - {queue[i].id};
    assert forall k :: 0 <= k < |left| ==> left[k] == queue[if k < i then k else k + 1];
    forall k | 0 <= k < |left|
      ensures WaiterOk(c, left[k], fewer)
    {
      assert WaiterOk(c, queue[if k < i then k else k + 1], waiting);
    }
    forall id | id in fewer
      ensures Queued(left, id)
    {
      var j :| 0 <= j < |queue| && queue[j].id == id;
      assert left[if j < i then j else j - 1].id == id;
    }
  }

  lemma QueueToppedUp(c: Config, queue: seq<Waiter>, waiting: set<nat>, more: nat)
    requires QueueOk(c, queue, waiting) && queue != [] && queue[0].got + more < queue[0].hold.units
    ensures QueueOk(c, queue[0 := queue[0].(got := queue[0].got + more)], waiting)
  {
    var topped := queue[0 := queue[0].(got := queue[0].got + more)];
    assert WaiterOk(c, queue[0], waiting);
    forall id | id in waiting
      ensures Queued(topped, id)
    {
      var i :| 0 <= i < |queue| && queue[i].id == id;
      assert topped[i].id == id;
    }
  }

  lemma {:induction false} WithoutNone(queue: seq<Waiter>, id: nat)
    requires !Queued(queue, id)
    ensures Without(queue, id) == queue
  {
    if queue != [] {
      assert queue[0].id != id;
      assert forall i :: 0 <= i < |queue[1..]| ==> queue[1..][i] == queue[i + 1];
      WithoutNone(queue[1..], id);
    }
  }

  lemma {:induction false} WithoutOne(queue: seq<Waiter>, i: nat)
    requires i < |queue| && forall k, l :: 0 <= k < l < |queue| ==> queue[k].id != queue[l].id
    ensures Without(queue, queue[i].id) == Drop(queue, i)
  {
    var id, tail := queue[i].id, queue[1..];
    assert forall k :: 0 <= k < |tail| ==> tail[k] == queue[k + 1];
    if i == 0 {
      WithoutNone(tail, id);
    } else {
      WithoutOne(tail, i - 1);
      assert Drop(queue, i) == [queue[0]] + Drop(tail, i - 1);
    }
  }

  // ------------------------------------------------------------ handing out permits

  function ToppedUp(s: State): State
    requires s.queue != []
  {
    var w := s.queue[0];
    s.(queue := s.queue[0 := w.(got := w.got + s.available)], available := 0)
  }

  function Served(s: State): State
    requires s.queue != [] && s.queue[0].got <= s.queue[0].hold.units <= s.queue[0].got + s.available
  {
    var w := s.queue[0];
    State(Granted(s.uploads, w), s.queue[1..], s.available - (w.hold.units - w.got))
  }

  lemma SettleUnfolds(s: State)
    requires s.queue != [] && s.available != 0 && s.queue[0].got < s.queue[0].hold.units
    ensures Settle(s) ==
            if s.queue[0].got + s.available < s.queue[0].hold.units then ToppedUp(s) else Settle(Served(s))
  {
  }

  lemma TopUpKeeps(c: Config, s: State)
    requires Books(c, s) && s.queue != []
    requires s.queue[0].got + s.available < s.queue[0].hold.units
    ensures Books(c, ToppedUp(s))
  {
    HeadGotten(c, s.queue, WaitingIn(s.uploads));
    QueueToppedUp(c, s.queue, WaitingIn(s.uploads), s.available);
    assert ToppedUp(s).queue[1..] == s.queue[1..];
  }

  lemma GrantCounts(uploads: map<nat, Upload>, w: Waiter)
    requires w.id in uploads && uploads[w.id].phase.Waiting?
    ensures Sum(Granted(uploads, w), UnitsOf) == Sum(uploads, UnitsOf) + w.hold.units
  {
    var u := uploads[w.id];
    var v := u.(phase := Filling(w.hold));
    UnitsSplit(u);
    UnitsSplit(v);
    SumWith(uploads, UnitsOf, w.id, v);
  }

  lemma UploadGranted(c: Config, uploads: map<nat, Upload>, w: Waiter)
    requires AllOk(c, uploads) && WaiterOk(c, w, WaitingIn(uploads))
    ensures AllOk(c, Granted(uploads, w)) && WaitingIn(Granted(uploads, w)) == WaitingIn(uploads) - {w.id}
  {
    var u := uploads[w.id];
    assert UploadOk(c, u);
    OneOk(c, uploads, w.id, u.(phase := Filling(w.hold)));
  }

  lemma GrantKeeps(c: Config, s: State)
    requires Books(c, s) && s.queue != []
    requires s.queue[0].got + s.available >= s.queue[0].hold.units
    ensures s.queue[0].got < s.queue[0].hold.units && Books(c, Served(s))
  {
    var w, waiting := s.queue[0], WaitingIn(s.uploads);
    HeadGotten(c, s.queue, waiting);
    UploadGranted(c, s.uploads, w);
    GrantCounts(s.uploads, w);
    QueueLeft(c, s.queue, waiting, 0);
    assert Drop(s.queue, 0) == s.queue[1..];
  }

  lemma {:induction false} SettleKeeps(c: Config, s: State)
    requires Books(c, s)
    ensures Books(c, Settle(s)) && Idle(Settle(s))
    decreases |s.queue|
  {
    if !Idle(s) {
      HeadGotten(c, s.queue, WaitingIn(s.uploads));
      SettleUnfolds(s);
      if s.queue[0].got + s.available < s.queue[0].hold.units {
        TopUpKeeps(c, s);
      } else {
        GrantKeeps(c, s);
        SettleKeeps(c, Served(s));
      }
    }
  }

  // ------------------------------------------------------------ the steps

  lemma OneOk(c: Config, uploads: map<nat, Upload>, id: nat, u: Upload)
    requires AllOk(c, uploads) && UploadOk(c, u)
    ensures AllOk(c, uploads[id := u]) && AllOk(c, uploads - {id})
  {
  }

  /** An upload that is not waiting joins the queue. */
  lemma AskKeeps(c: Config, s: State, id: nat, u: Upload, hold: Hold)
    requires Books(c, s) && HoldOk(c, hold)
    requires if id in s.uploads then s.uploads[id] == u && u.phase.Choosing? else u == Active(Waiting, [], 0)
    requires u.tasks < c.most
    ensures Books(c, Asking(s, id, u, hold))
  {
    var w, asking := Waiter(id, hold, 0), u.(phase := Waiting);
    assert UploadOk(c, asking);
    OneOk(c, s.uploads, id, asking);
    GottenSnoc(s.queue, w);
    UnitsSplit(u);
    UnitsSplit(asking);
    SumWith(s.uploads, UnitsOf, id, asking);
    QueueJoined(c, s.queue, WaitingIn(s.uploads), w);
    assert WaitingIn(s.uploads[id := asking]) == WaitingIn(s.uploads) + {id};
  }

  /** An upload that is not waiting ends, and gives back all it holds. */
  lemma EndKeeps(c: Config, s: State, id: nat)
    requires Books(c, s) && id in s.uploads && !s.uploads[id].phase.Waiting?
    ensures Books(c, Finished(s, id))
  {
    SumWithout(s.uploads, UnitsOf, id);
    assert WaitingIn(s.uploads - {id}) == WaitingIn(s.uploads);
  }

  /** An upload moves on, giving back `freed` permits. */
  lemma MoveKeeps(c: Config, s: State, id: nat, u: Upload, freed: nat)
    requires Books(c, s) && id in s.uploads && (s.uploads[id].phase.Waiting? <==> u.phase.Waiting?)
    requires UploadOk(c, u) && UnitsOf(s.uploads[id]) == UnitsOf(u) + freed
    ensures Books(c, Moved(s, id, u, freed))
  {
    OneOk(c, s.uploads, id, u);
    SumWith(s.uploads, UnitsOf, id, u);
    assert WaitingIn(s.uploads[id := u]) == WaitingIn(s.uploads);
  }

  lemma SpawnFits(c: Config, u: Upload, last: bool)
    requires UploadOk(c, u) && u.phase.Filling?
    ensures UploadOk(c, Spawned(u, last)) && UnitsOf(Spawned(u, last)) == UnitsOf(u)
  {
    UnitsSplit(u);
    UnitsSplit(Spawned(u, last));
    UnitsFilling(u.phase.hold, u.parts);
  }

  lemma SentFits(c: Config, u: Upload, part: nat)
    requires UploadOk(c, u) && part < |u.parts|
    ensures UploadOk(c, Sent(u, part)) && UnitsOf(u) == UnitsOf(Sent(u, part)) + u.parts[part].units
  {
    var v := Sent(u, part);
    UnitsDropped(u.parts, part);
    UnitsSplit(u);
    UnitsSplit(v);
    assert forall i :: 0 <= i < |v.parts| ==> v.parts[i] == u.parts[if i < part then i else i + 1];
  }

  lemma EmptyFits(c: Config, u: Upload)
    requires UploadOk(c, u) && u.phase.Filling?
    ensures UploadOk(c, u.(phase := Draining)) && UnitsOf(u) == UnitsOf(u.(phase := Draining)) + u.phase.hold.units
  {
    UnitsSplit(u);
    UnitsSplit(u.(phase := Draining));
  }

  lemma CollectFits(c: Config, u: Upload)
    requires UploadOk(c, u) && |u.parts| < u.tasks && (u.phase.Choosing? || u.phase.Draining?)
    ensures UploadOk(c, Collected(u)) && UnitsOf(Collected(u)) == UnitsOf(u)
  {
  }

  /** A failed upload leaves the queue, and gives back all it has. */
  lemma FailKeeps(c: Config, s: State, id: nat)
    requires Books(c, s) && id in s.uploads
    ensures Books(c, Failed(s, id))
  {
    SumWithout(s.uploads, UnitsOf, id);
    QueueFails(c, s.queue, s.uploads, id);
  }

  lemma QueueFails(c: Config, queue: seq<Waiter>, uploads: map<nat, Upload>, id: nat)
    requires QueueOk(c, queue, WaitingIn(uploads)) && id in uploads
    ensures QueueOk(c, Without(queue, id), WaitingIn(uploads - {id}))
  {
    var waiting := WaitingIn(uploads);
    assert WaitingIn(uploads - {id}) == waiting - {id};
    if Queued(queue, id) {
      var i :| 0 <= i < |queue| && queue[i].id == id;
      WithoutOne(queue, i);
      QueueLeft(c, queue, waiting, i);
    } else {
      WithoutNone(queue, id);
      assert waiting - {id} == waiting;
    }
  }

  lemma BeginKeeps(c: Config, s: State, step: Step)
    requires Sane(c) && Books(c, s) && Enabled(c, s, step) && (step.Begin? || step.More?)
    ensures Books(c, Changed(c, s, step))
  {
    if step.Begin? {
      AskKeeps(c, s, step.id, Active(Waiting, [], 0), Reserve(c, Clamp(step.hint, 1, c.partSize)));
    } else {
      assert UploadOk(c, s.uploads[step.id]);
      AskKeeps(c, s, step.id, s.uploads[step.id], Reserve(c, c.partSize));
    }
  }

  lemma MovingKeeps(c: Config, s: State, step: Step)
    requires Sane(c) && Books(c, s) && Enabled(c, s, step)
    requires step.Spawn? || step.PartDone? || step.Collect? || step.NothingMore?
    ensures Books(c, Changed(c, s, step))
  {
    var u := s.uploads[step.id];
    assert UploadOk(c, u);
    match step {
      case Spawn(id, last) =>
        SpawnFits(c, u, last);
        MoveKeeps(c, s, id, Spawned(u, last), 0);
      case PartDone(id, part) =>
        SentFits(c, u, part);
        MoveKeeps(c, s, id, Sent(u, part), u.parts[part].units);
      case Collect(id) =>
        CollectFits(c, u);
        MoveKeeps(c, s, id, Collected(u), 0);
      case NothingMore(id) =>
        EmptyFits(c, u);
        MoveKeeps(c, s, id, u.(phase := Draining), u.phase.hold.units);
    }
  }

  lemma StepKeeps(c: Config, s: State, step: Step)
    requires Sane(c) && Inv(c, s) && Enabled(c, s, step)
    ensures Inv(c, Take(c, s, step))
  {
    match step {
      case SinglePut(id) => EndKeeps(c, s, id);
      case Complete(id) => EndKeeps(c, s, id);
      case Fail(id) => FailKeeps(c, s, id);
      case Begin(_, _) => BeginKeeps(c, s, step);
      case More(_) => BeginKeeps(c, s, step);
      case _ => MovingKeeps(c, s, step);
    }
    SettleKeeps(c, Changed(c, s, step));
  }

  // ------------------------------------------------------------ whole runs

  function Init(c: Config): State {
    State(map[], [], c.limits.totalUnits)
  }

  ghost predicate Next(c: Config, s: State, t: State) {
    Sane(c) && exists step: Step :: Enabled(c, s, step) && t == Take(c, s, step)
  }

  ghost predicate Run(c: Config, run: seq<State>) {
    && Sane(c) && run != [] && run[0] == Init(c)
    && forall i :: 0 <= i < |run| - 1 ==> Next(c, run[i], run[i + 1])
  }

  lemma {:induction false} RunKeeps(c: Config, run: seq<State>, i: nat)
    requires Run(c, run) && i < |run|
    ensures Inv(c, run[i])
  {
    if i > 0 {
      RunKeeps(c, run, i - 1);
      assert Next(c, run[i - 1], run[i - 1 + 1]);
      var step :| Enabled(c, run[i - 1], step) && run[i] == Take(c, run[i - 1], step);
      StepKeeps(c, run[i - 1], step);
    }
  }

  lemma Together(a: nat, b: nat, unit: nat)
    ensures (a + b) * unit == a * unit + b * unit
  {
  }

  lemma {:induction false} BytesWithinUnits(c: Config, holds: seq<Hold>)
    requires forall i :: 0 <= i < |holds| ==> HoldOk(c, holds[i])
    ensures BytesIn(holds) <= UnitsIn(holds) * c.limits.unit
  {
    if holds != [] {
      BytesWithinUnits(c, holds[1..]);
      Together(holds[0].units, UnitsIn(holds[1..]), c.limits.unit);
    }
  }

  lemma {:induction false} BuffersWithinUnits(c: Config, uploads: map<nat, Upload>)
    requires AllOk(c, uploads)
    ensures Sum(uploads, BytesOf) <= Sum(uploads, UnitsOf) * c.limits.unit
    decreases |uploads|
  {
    if uploads != map[] {
      var id := Pick(uploads);
      var rest, u := uploads - {id}, uploads[id];
      assert UploadOk(c, u);
      BytesWithinUnits(c, HoldsOf(u));
      BuffersWithinUnits(c, rest);
      Together(UnitsOf(u), Sum(rest, UnitsOf), c.limits.unit);
    }
  }

  /**
   At any time in any run the live buffers are within the permits granted for them,
   those within the budget, and the budget less than a unit past the cap; no upload
   has more reservations than it may have parts in flight, and none that waits has
   any but those of parts already on their way.
   */
  lemma BuffersStayWithinCap(c: Config, run: seq<State>, i: nat)
    requires Run(c, run) && i < |run|
    ensures Sum(run[i].uploads, BytesOf) <= Sum(run[i].uploads, UnitsOf) * c.limits.unit
    ensures Sum(run[i].uploads, UnitsOf) <= c.limits.totalUnits
    ensures c.partSize <= c.cap ==> Sum(run[i].uploads, BytesOf) < c.cap + c.limits.unit
    ensures forall id :: id in run[i].uploads ==> |HoldsOf(run[i].uploads[id])| <= c.most
    ensures forall id :: id in run[i].uploads && run[i].uploads[id].phase.Waiting? ==>
                           HoldsOf(run[i].uploads[id]) == run[i].uploads[id].parts
  {
    RunKeeps(c, run, i);
    var s := run[i];
    BuffersWithinUnits(c, s.uploads);
    BytesWithinCap(c, Sum(s.uploads, BytesOf), Sum(s.uploads, UnitsOf));
    forall id | id in s.uploads
      ensures |HoldsOf(s.uploads[id])| <= c.most
    {
      assert UploadOk(c, s.uploads[id]);
    }
  }

  lemma BytesWithinCap(c: Config, bytes: nat, units: nat)
    requires Sane(c) && bytes <= units * c.limits.unit && units <= c.limits.totalUnits
    ensures c.partSize <= c.cap ==> bytes < c.cap + c.limits.unit
  {
    MoreIsMore(units, c.limits.totalUnits, c.limits.unit);
    if c.partSize <= c.cap {
      BudgetFitsCap(c.partSize, c.cap);
    }
  }

  lemma MoreIsMore(a: nat, b: nat, unit: nat)
    requires a <= b
    ensures a * unit <= b * unit
  {
  }

  // ------------------------------------------------------------ no deadlock

  /** The upload waits, and has nothing on its way that would give permits back. */
  predicate Blocked(u: Upload) {
    u.phase.Waiting? && u.parts == []
  }

  lemma {:induction false} BlockedHoldNothing(uploads: map<nat, Upload>)
    requires forall id :: id in uploads ==> Blocked(uploads[id])
    ensures Sum(uploads, UnitsOf) == 0
    decreases |uploads|
  {
    if uploads != map[] {
      var id := Pick(uploads);
      assert Blocked(uploads[id]);
      BlockedHoldNothing(uploads - {id});
    }
  }

  /** Never is every upload blocked: a request is no more than the budget, and nothing else has any of it. */
  lemma SomeoneHolds(c: Config, s: State)
    requires Inv(c, s) && s.uploads != map[]
    ensures exists id :: id in s.uploads && !Blocked(s.uploads[id])
  {
    if forall id :: id in s.uploads ==> Blocked(s.uploads[id]) {
      var id := Pick(s.uploads);
      BlockedHoldNothing(s.uploads);
      assert id in WaitingIn(s.uploads);
      assert Queued(s.queue, id);
      HeadGotten(c, s.queue, WaitingIn(s.uploads));
      assert false;
    }
  }

  /**
   While any upload is under way some upload can move on: a buffer being filled, a
   part being sent, or a task ready to be collected.
   */
  lemma NeverStuck(c: Config, run: seq<State>, i: nat)
    requires Run(c, run) && i < |run| && run[i].uploads != map[]
    ensures exists step: Step :: !step.Begin? && !step.Fail? && Enabled(c, run[i], step)
  {
    RunKeeps(c, run, i);
    var s := run[i];
    SomeoneHolds(c, s);
    var id :| id in s.uploads && !Blocked(s.uploads[id]);
    var u := s.uploads[id];
    assert UploadOk(c, u);
    var step :=
      if u.parts != [] then PartDone(id, 0)
      else if u.phase.Filling? then if u.tasks == 0 then SinglePut(id) else NothingMore(id)
      else if u.tasks > 0 then Collect(id)
      else if u.phase.Choosing? then More(id)
      else Complete(id);
    assert Enabled(c, s, step);
  }

  // ------------------------------------------------------------ what a waiter has

  /**
   A waiter has permits exactly if it is at the head and some are out of the
   uploads' hands; the head then has all of those.
   */
  lemma HeadHasTheRest(c: Config, run: seq<State>, i: nat, k: nat)
    requires Run(c, run) && i < |run| && k < |run[i].queue|
    ensures Sum(run[i].uploads, UnitsOf) <= c.limits.totalUnits
    ensures run[i].queue[k].got == if k == 0 then c.limits.totalUnits - Sum(run[i].uploads, UnitsOf) else 0
    ensures run[i].queue[k].got > 0 <==> k == 0 && Sum(run[i].uploads, UnitsOf) < c.limits.totalUnits
    ensures run[i].queue[k].got < run[i].queue[k].hold.units <= c.limits.partUnits
  {
    RunKeeps(c, run, i);
    var s := run[i];
    HeadGotten(c, s.queue, WaitingIn(s.uploads));
    assert WaiterOk(c, s.queue[k], WaitingIn(s.uploads));
  }

  /** Some run brings a waiter to have permits. */
  ghost predicate WaiterCanHold(c: Config) {
    exists run, i, k :: HoldsAt(c, run, i, k)
  }

  ghost predicate HoldsAt(c: Config, run: seq<State>, i: nat, k: nat) {
    Run(c, run) && i < |run| && k < |run[i].queue| && run[i].queue[k].got > 0
  }

  /** `n` uploads of a byte each, filling their buffers. */
  function Filled(n: nat): (uploads: map<nat, Upload>)
    ensures forall id :: id in uploads ==> id < n
  {
    if n == 0 then map[] else Filled(n - 1)[n - 1 := Active(Filling(Hold(1, 1)), [], 0)]
  }

  lemma SmallestReserve(c: Config)
    requires Sane(c)
    ensures Reserve(c, 1) == Hold(1, 1)
  {
    UnitsForCovers(1, c.partSize, c.cap);
    var units := UnitsFor(1, c.limits);
    if units > 1 {
      MoreUnits(units, 1, c.limits.unit);
    }
  }

  lemma WholeReserve(c: Config)
    requires Sane(c)
    ensures Reserve(c, c.partSize) == Hold(c.limits.partUnits, c.partSize)
    ensures 1 <= c.limits.partUnits <= c.limits.totalUnits
  {
    BudgetHoldsAPart(c.partSize, c.cap);
    UnitsForCovers(c.partSize, c.partSize, c.cap);
    TrailingZerosOfPow2(Shift(c.partSize));
  }

  lemma OneMoreFilled(c: Config, n: nat)
    requires Sane(c) && n < c.limits.totalUnits
    ensures Next(c, State(Filled(n), [], c.limits.totalUnits - n),
                 State(Filled(n + 1), [], c.limits.totalUnits - n - 1))
  {
    var s := State(Filled(n), [], c.limits.totalUnits - n);
    var t := State(Filled(n + 1), [], c.limits.totalUnits - n - 1);
    SmallestReserve(c);
    var asked := Changed(c, s, Begin(n, 1));
    assert asked.queue == [Waiter(n, Hold(1, 1), 0)];
    SettleUnfolds(asked);
    assert Served(asked).uploads == t.uploads;
    assert Served(asked).queue == [];
    assert Take(c, s, Begin(n, 1)) == t;
  }

  lemma {:induction false} CanFill(c: Config, n: nat) returns (run: seq<State>)
    requires Sane(c) && n <= c.limits.totalUnits
    ensures Run(c, run) && run[|run| - 1] == State(Filled(n), [], c.limits.totalUnits - n)
  {
    if n == 0 {
      run := [Init(c)];
      assert Filled(0) == map[];
    } else {
      var before := CanFill(c, n - 1);
      OneMoreFilled(c, n - 1);
      run := before + [State(Filled(n), [], c.limits.totalUnits - n)];
    }
  }

  /** With all permits but one out, a request for two or more gets the last one and waits with it. */
  lemma LastPermitWaits(c: Config) returns (s: State, t: State)
    requires Sane(c) && c.limits.partUnits > 1
    ensures c.limits.totalUnits > 1 && s == State(Filled(c.limits.totalUnits - 1), [], 1)
    ensures Next(c, s, t) && |t.queue| == 1 && t.queue[0].got == 1
  {
    WholeReserve(c);
    s := State(Filled(c.limits.totalUnits - 1), [], 1);
    var step := Begin(c.limits.totalUnits, c.partSize);
    var asked := Changed(c, s, step);
    assert asked.queue == [Waiter(c.limits.totalUnits, Hold(c.limits.partUnits, c.partSize), 0)];
    SettleUnfolds(asked);
    t := Take(c, s, step);
  }

  /** A waiter can come to hold permits exactly if a part takes more than one. */
  lemma WaitersHoldPermits(c: Config)
    requires Sane(c)
    ensures WaiterCanHold(c) <==> c.limits.partUnits > 1
  {
    if c.limits.partUnits > 1 {
      var s, t := LastPermitWaits(c);
      var before := CanFill(c, c.limits.totalUnits - 1);
      var run := before + [t];
      assert Run(c, run);
      assert HoldsAt(c, run, |before|, 0);
    } else {
      forall run: seq<State>, i: nat, k: nat
        ensures !HoldsAt(c, run, i, k)
      {
        if Run(c, run) && i < |run| && k < |run[i].queue| {
          HeadHasTheRest(c, run, i, k);
        }
      }
    }
  }
}
