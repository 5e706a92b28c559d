/**
 A large NAR is checked on a thread of its own, fed through a bounded queue while
 the request task passes the chunks on to storage. Whatever the schedule, the
 stream ends as it would have with the check run inline.
 */
module Offload {
  import opened Basics
  import opened Checkers

  /** Chunks the queue holds. */
  const DEPTH: nat := 8

  type Chunk = seq<byte>

  datatype Outcome = Accepted | Turned(reason: Refusal) | Failed

  /** A check cut into steps. */
  datatype Engine<!S> = Engine(start: S, feed: (S, Chunk) -> Verdict<S>, finish: S -> Verdict<()>)

  function Judge<S>(e: Engine<S>, s: S, chunks: seq<Chunk>): Verdict<()>
    decreases |chunks|
  {
    if chunks == [] then e.finish(s)
    else match e.feed(s, chunks[0])
      case Refused(reason) => Refused(reason)
      case Passed(next) => Judge(e, next, chunks[1..])
  }

  function Ending(v: Verdict<()>): Outcome {
    match v
    case Passed(_) => Accepted
    case Refused(reason) => Turned(reason)
  }

  // ------------------------------------------------------------ inline

  /** The request task polled to the end with the check inline: what it passed on, and how it ended. */
  method Inline<D(!new)>(z: Zstd<D>, claim: Claim, body: seq<Chunk>) returns (outcome: Outcome, forwarded: seq<Chunk>)
    requires Lawful(z)
    ensures match Check(z, claim, Begin(z), body)
            case Passed(_) => outcome == Accepted
            case Refused(reason) => outcome == Turned(reason)
    ensures forwarded <= body && (outcome == Accepted ==> forwarded == body)
  {
    var checker := new Checker(z, claim);
    forwarded := [];
    assert body[0..] == body;
    for i := 0 to |body|
      invariant checker.Valid() && checker.z == z && checker.claim == claim
      invariant forwarded == body[..i]
      invariant Check(z, claim, checker.View(), body[i..]) == Check(z, claim, Begin(z), body)
    {
      assert body[i..][1..] == body[i + 1..];
      var r := checker.FeedChunk(body[i]);
      if r.Refused? {
        return Turned(r.reason), forwarded;
      }
      forwarded := forwarded + [body[i]];
    }
    var r := checker.FinishCheck();
    outcome := Ending(r);
  }

  // ------------------------------------------------------------ offloaded

  /**
   The request task: reading the body, holding a chunk with no room for it yet,
   holding a chunk and a place in the queue, waiting for the verdict with its end
   of the queue closed, or ended. `Broken` is an error from the body itself.
   */
  datatype Task =
    | Reading
    | Holding(chunk: Chunk)
    | Reserved(chunk: Chunk)
    | Collecting
    | Ended(outcome: Outcome)
    | Broken

  /**
   The thread: waiting for a chunk, feeding one it has taken off the queue, done with
   the queue dropped, verdict sent, or dead without one.
   */
  datatype Worker<S> =
    | Checking(state: S)
    | Feeding(state: S, chunk: Chunk)
    | Closed(verdict: Verdict<()>)
    | Sent(verdict: Verdict<()>)
    | Dead

  /** `checked` counts the chunks the check is through with. */
  datatype State<S> =
    State(rest: seq<Chunk>, task: Task, queue: seq<Chunk>, worker: Worker<S>, forwarded: seq<Chunk>, checked: nat)

  function Init<S>(e: Engine<S>, body: seq<Chunk>): State<S> {
    State(body, Reading, [], Checking(e.start), [], 0)
  }

  /** The request task has closed or dropped its end of the queue. */
  predicate Hung<S>(s: State<S>) {
    s.task.Collecting? || s.task.Ended? || s.task.Broken?
  }

  /** The thread still has its end of the queue. */
  predicate Open<S>(w: Worker<S>) {
    w.Checking? || w.Feeding?
  }

  datatype Step =
    | Read | BodyError | Reserve | Send | FindClosed | Collect
    | Receive | FeedOne | FinishUp | Report | Panic

  predicate Enabled<S>(s: State<S>, step: Step) {
    match step
    case Read => s.task.Reading?
    case BodyError => s.task.Reading?
    case Reserve => s.task.Holding? && Open(s.worker) && |s.queue| < DEPTH
    case Send => s.task.Reserved?
    case FindClosed => s.task.Holding? && !Open(s.worker)
    case Collect => s.task.Collecting? && (s.worker.Sent? || s.worker.Dead?)
    case Receive => s.worker.Checking? && s.queue != []
    case FeedOne => s.worker.Feeding?
    case FinishUp => s.worker.Checking? && s.queue == [] && Hung(s)
    case Report => s.worker.Closed?
    case Panic => Open(s.worker) || s.worker.Closed?
  }

  /** What each step does. A chunk sent to a queue already dropped is lost, and still passed on. */
  function Take<S>(e: Engine<S>, s: State<S>, step: Step): State<S>
    requires Enabled(s, step)
  {
    match step
    case Read =>
      if s.rest == [] then s.(task := Collecting)
      else s.(rest := s.rest[1..], task := Holding(s.rest[0]))
    case BodyError => s.(task := Broken)
    case Reserve => s.(task := Reserved(s.task.chunk))
    case Send =>
      s.(task := Reading, forwarded := s.forwarded + [s.task.chunk],
         queue := if Open(s.worker) then s.queue + [s.task.chunk] else [])
    case FindClosed => s.(task := Collecting)
    case Collect => s.(task := Ended(if s.worker.Sent? then Ending(s.worker.verdict) else Failed))
    case Receive => s.(queue := s.queue[1..], worker := Feeding(s.worker.state, s.queue[0]))
    case FeedOne =>
      (match e.feed(s.worker.state, s.worker.chunk)
       case Passed(next) => s.(worker := Checking(next), checked := s.checked + 1)
       case Refused(reason) => s.(queue := [], worker := Closed(Refused(reason)), checked := s.checked + 1))
    case FinishUp => s.(worker := Closed(e.finish(s.worker.state)))
    case Report => s.(worker := Sent(s.worker.verdict))
    case Panic => s.(queue := [], worker := Dead)
  }

  ghost predicate Next<S(!new)>(e: Engine<S>, s: State<S>, t: State<S>) {
    exists step: Step :: Enabled(s, step) && t == Take(e, s, step)
  }

  ghost predicate Run<S(!new)>(e: Engine<S>, body: seq<Chunk>, run: seq<State<S>>) {
    && run != [] && run[0] == Init(e, body)
    && forall i :: 0 <= i < |run| - 1 ==> Next(e, run[i], run[i + 1])
  }

  // ------------------------------------------------------------ what every schedule keeps

  /** Chunks read and not yet passed on. */
  function InHand(task: Task): seq<Chunk> {
    if task.Holding? || task.Reserved? then [task.chunk] else []
  }

  /** While the thread checks: `unfed` and then whatever the task has not yet sent decide its verdict. */
  ghost predicate Going<S>(e: Engine<S>, body: seq<Chunk>, s: State<S>, st: S, unfed: seq<Chunk>) {
    && !s.task.Ended?
    && (s.task.Collecting? ==> s.forwarded == body && s.rest == [])
    && (!s.task.Broken? ==> Judge(e, st, unfed + (InHand(s.task) + s.rest)) == Judge(e, e.start, body))
    && |s.forwarded| == s.checked + |unfed|
  }

  ghost predicate Consistent<S>(e: Engine<S>, body: seq<Chunk>, s: State<S>) {
    && |s.queue| + (if s.task.Reserved? then 1 else 0) <= DEPTH
    && |s.forwarded| + (if s.task.Reserved? then 1 else 0) <= s.checked + DEPTH + 1
    && s.forwarded <= body && s.checked <= |s.forwarded|
    && (!Hung(s) ==> s.forwarded + (InHand(s.task) + s.rest) == body)
    && match s.worker
       case Checking(st) => Going(e, body, s, st, s.queue)
       case Feeding(st, chunk) => Going(e, body, s, st, [chunk] + s.queue)
       case Closed(v) => !s.task.Ended? && Settled(e, body, s, v)
       case Sent(v) => Settled(e, body, s, v) && (s.task.Ended? ==> s.task.outcome == Ending(v))
       case Dead => s.task.Ended? ==> s.task.outcome == Failed
  }

  /** A verdict anyone will read is the inline one, and passes only a body passed on whole. */
  ghost predicate Settled<S>(e: Engine<S>, body: seq<Chunk>, s: State<S>, v: Verdict<()>) {
    && s.queue == []
    && (!s.task.Broken? ==>
          v == Judge(e, e.start, body) && (v.Passed? ==> Hung(s) && s.forwarded == body && s.checked == |body|))
  }

  lemma ReadKeeps<S(!new)>(e: Engine<S>, body: seq<Chunk>, s: State<S>, step: Step)
    requires Consistent(e, body, s) && Enabled(s, step)
    requires step.Read? || step.BodyError? || step.Reserve? || step.FindClosed? || step.Collect?
    ensures Consistent(e, body, Take(e, s, step))
  {
    if step.Read? {
      if s.rest == [] {
        assert s.queue + ([] + []) == s.queue;
      } else {
        assert [s.rest[0]] + s.rest[1..] == [] + s.rest;
      }
    }
  }

  lemma SendKeeps<S(!new)>(e: Engine<S>, body: seq<Chunk>, s: State<S>)
    requires Consistent(e, body, s) && Enabled(s, Send)
    ensures Consistent(e, body, Take(e, s, Send))
  {
    var c := s.task.chunk;
    assert s.forwarded + ([c] + s.rest) == s.forwarded + [c] + ([] + s.rest);
    if Open(s.worker) {
      var unfed := if s.worker.Feeding? then [s.worker.chunk] + s.queue else s.queue;
      assert unfed + ([c] + s.rest) == unfed + [c] + ([] + s.rest);
      assert s.worker.Feeding? ==> [s.worker.chunk] + (s.queue + [c]) == unfed + [c];
    }
  }

  lemma ReceiveKeeps<S(!new)>(e: Engine<S>, body: seq<Chunk>, s: State<S>)
    requires Consistent(e, body, s) && Enabled(s, Receive)
    ensures Consistent(e, body, Take(e, s, Receive))
  {
    assert [s.queue[0]] + s.queue[1..] == s.queue;
  }

  lemma FeedKeeps<S(!new)>(e: Engine<S>, body: seq<Chunk>, s: State<S>)
    requires Consistent(e, body, s) && Enabled(s, FeedOne)
    ensures Consistent(e, body, Take(e, s, FeedOne))
  {
    var more := InHand(s.task) + s.rest;
    var all := [s.worker.chunk] + s.queue + more;
    assert all[0] == s.worker.chunk && all[1..] == s.queue + more;
  }

  lemma FinishKeeps<S(!new)>(e: Engine<S>, body: seq<Chunk>, s: State<S>)
    requires Consistent(e, body, s) && Enabled(s, FinishUp)
    ensures Consistent(e, body, Take(e, s, FinishUp))
  {
    assert InHand(s.task) == [];
    assert s.task.Collecting? ==> s.queue + (InHand(s.task) + s.rest) == [];
  }

  lemma StepKeeps<S(!new)>(e: Engine<S>, body: seq<Chunk>, s: State<S>, step: Step)
    requires Consistent(e, body, s) && Enabled(s, step)
    ensures Consistent(e, body, Take(e, s, step))
  {
    match step {
      case Send => SendKeeps(e, body, s);
      case Receive => ReceiveKeeps(e, body, s);
      case FeedOne => FeedKeeps(e, body, s);
      case FinishUp => FinishKeeps(e, body, s);
      case Report =>
      case Panic =>
      case _ => ReadKeeps(e, body, s, step);
    }
  }

  lemma {:induction false} RunKeeps<S(!new)>(e: Engine<S>, body: seq<Chunk>, run: seq<State<S>>, i: nat)
    requires Run(e, body, run) && i < |run|
    ensures Consistent(e, body, run[i])
  {
    if i == 0 {
      assert [] + ([] + body) == body;
    } else {
      RunKeeps(e, body, run, i - 1);
      assert Next(e, run[i - 1], run[i - 1 + 1]);
      var step :| Enabled(run[i - 1], step) && run[i] == Take(e, run[i - 1], step);
      StepKeeps(e, body, run[i - 1], step);
    }
  }

  // ------------------------------------------------------------ the verdict

  /**
   Under every schedule the stream ends as the inline check would end it, unless
   the thread died, and is accepted only with the whole body checked and passed on.
   At no time are more chunks in storage's hands and unchecked than the queue holds
   and the thread has in hand.
   */
  lemma OffloadedIsInline<S(!new)>(e: Engine<S>, body: seq<Chunk>, run: seq<State<S>>, i: nat)
    requires Run(e, body, run) && i < |run|
    ensures run[i].task.Ended? && !run[i].worker.Dead? ==> run[i].task.outcome == Ending(Judge(e, e.start, body))
    ensures run[i].task.Ended? && run[i].worker.Dead? ==> run[i].task.outcome == Failed
    ensures run[i].task.Ended? && run[i].task.outcome == Accepted ==>
              run[i].forwarded == body && run[i].checked == |body| && Judge(e, e.start, body).Passed?
    ensures run[i].forwarded <= body && run[i].checked <= |run[i].forwarded| <= run[i].checked + 9
  {
    RunKeeps(e, body, run, i);
  }

  // ------------------------------------------------------------ the bound is reached

  ghost predicate Reachable<S(!new)>(e: Engine<S>, body: seq<Chunk>, s: State<S>) {
    exists run :: RunTo(e, body, run, s)
  }

  ghost predicate RunTo<S(!new)>(e: Engine<S>, body: seq<Chunk>, run: seq<State<S>>, s: State<S>) {
    Run(e, body, run) && run[|run| - 1] == s
  }

  lemma Steps<S(!new)>(e: Engine<S>, body: seq<Chunk>, s: State<S>, step: Step)
    requires Reachable(e, body, s) && Enabled(s, step)
    ensures Reachable(e, body, Take(e, s, step))
  {
    var run :| RunTo(e, body, run, s);
    var t := Take(e, s, step);
    assert Next(e, s, t);
    assert RunTo(e, body, run + [t], t);
  }

  /** `k` chunks passed on, the thread at work on the first of them. */
  function Ahead<S>(e: Engine<S>, body: seq<Chunk>, k: nat): State<S>
    requires 1 <= k <= |body|
  {
    State(body[k..], Reading, body[1..k], Feeding(e.start, body[0]), body[..k], 0)
  }

  lemma {:induction false} RunsAhead<S(!new)>(e: Engine<S>, body: seq<Chunk>, k: nat)
    requires 1 <= k <= |body| && k <= DEPTH + 1
    ensures Reachable(e, body, Ahead(e, body, k))
  {
    if k == 1 {
      var s := Init(e, body);
      assert RunTo(e, body, [s], s);
      OneSent(e, body, s);
      var t := s.(rest := body[1..], queue := [body[0]], forwarded := [body[0]]);
      assert s.queue + [body[0]] == [body[0]] && s.forwarded + [body[0]] == [body[0]];
      Steps(e, body, t, Receive);
      assert body[1..1] == [] && [body[0]][1..] == [] && body[..1] == [body[0]];
    } else {
      var s := Ahead(e, body, k - 1);
      RunsAhead(e, body, k - 1);
      OneSent(e, body, s);
      assert body[k - 1..][0] == body[k - 1] && body[k - 1..][1..] == body[k..];
      assert body[1..k - 1] + [body[k - 1]] == body[1..k];
      assert body[..k - 1] + [body[k - 1]] == body[..k];
    }
  }

  /** The next chunk read, given its place, and sent. */
  lemma OneSent<S(!new)>(e: Engine<S>, body: seq<Chunk>, s: State<S>)
    requires Reachable(e, body, s) && s.task.Reading? && s.rest != [] && Open(s.worker) && |s.queue| < DEPTH
    ensures Reachable(e, body, s.(rest := s.rest[1..], queue := s.queue + [s.rest[0]],
                                  forwarded := s.forwarded + [s.rest[0]]))
  {
    var a := Take(e, s, Read);
    Steps(e, body, s, Read);
    var b := Take(e, a, Reserve);
    Steps(e, body, a, Reserve);
    Steps(e, body, b, Send);
  }

  /** Any longer body can have that many chunks stored with none of them checked. */
  lemma BoundIsReached<S(!new)>(e: Engine<S>, body: seq<Chunk>)
    requires |body| >= 9
    ensures exists s :: Reachable(e, body, s) && s.checked == 0 && |s.forwarded| == 9
  {
    RunsAhead(e, body, DEPTH + 1);
    assert Reachable(e, body, Ahead(e, body, DEPTH + 1));
  }

  // ------------------------------------------------------------ progress

  /** Nothing can happen but the thread dying or the body failing. */
  ghost predicate Stuck<S>(s: State<S>) {
    forall step: Step :: Enabled(s, step) ==> step.Panic? || step.BodyError?
  }

  /** Until the stream has ended one of the two can move, without the thread dying or the body failing. */
  lemma NeverStuck<S(!new)>(e: Engine<S>, body: seq<Chunk>, run: seq<State<S>>, i: nat)
    requires Run(e, body, run) && i < |run|
    requires !run[i].task.Ended? && !run[i].task.Broken?
    ensures !Stuck(run[i])
  {
    RunKeeps(e, body, run, i);
    var s := run[i];
    var step :=
      if s.task.Reading? then Read
      else if s.task.Reserved? then Send
      else if s.task.Holding? then
        if !Open(s.worker) then FindClosed else if |s.queue| < DEPTH then Reserve
        else if s.worker.Feeding? then FeedOne else Receive
      else if s.worker.Feeding? then FeedOne
      else if s.worker.Checking? then if s.queue != [] then Receive else FinishUp
      else if s.worker.Closed? then Report
      else Collect;
    assert Enabled(s, step);
  }

  /** How many steps are left at most. */
  function Work<S>(s: State<S>): nat {
    5 * |s.rest| + 2 * |s.queue|
    + (match s.task case Reading => 2 case Holding(_) => 6 case Reserved(_) => 5 case Collecting => 1 case _ => 0)
    + (match s.worker case Checking(_) => 2 case Feeding(_, _) => 3 case Closed(_) => 1 case _ => 0)
  }

  lemma {:induction false} RunWorks<S(!new)>(e: Engine<S>, body: seq<Chunk>, run: seq<State<S>>, i: nat)
    requires Run(e, body, run) && i < |run|
    ensures Work(run[i]) + i <= 5 * |body| + 4
  {
    if i > 0 {
      RunWorks(e, body, run, i - 1);
      assert Next(e, run[i - 1], run[i - 1 + 1]);
      var step :| Enabled(run[i - 1], step) && run[i] == Take(e, run[i - 1], step);
      StepWorks(e, run[i - 1], step);
    }
  }

  lemma StepWorks<S(!new)>(e: Engine<S>, s: State<S>, step: Step)
    requires Enabled(s, step)
    ensures Work(Take(e, s, step)) < Work(s)
  {
  }

  /** Every schedule ends, within a bound the body's chunks give. */
  lemma EveryScheduleEnds<S(!new)>(e: Engine<S>, body: seq<Chunk>, run: seq<State<S>>)
    requires Run(e, body, run)
    ensures |run| <= 5 * |body| + 5
    ensures Stuck(run[|run| - 1]) ==> run[|run| - 1].task.Ended? || run[|run| - 1].task.Broken?
  {
    RunWorks(e, body, run, |run| - 1);
    var s := run[|run| - 1];
    if !s.task.Ended? && !s.task.Broken? {
      NeverStuck(e, body, run, |run| - 1);
    }
  }

  // ------------------------------------------------------------ with the real check

  ghost function NarCheck<D(!new)>(z: Zstd<D>, claim: Claim): Engine<Progress<D>>
    requires Lawful(z)
  {
    Engine(Begin(z),
           (p: Progress<D>, chunk: Chunk) => if Lawful(z) then Feed(z, claim, p, chunk) else Refused(NotZstd),
           (p: Progress<D>) => Finish(claim, p))
  }

  lemma {:induction false} JudgeIsCheck<D(!new)>(z: Zstd<D>, claim: Claim, p: Progress<D>, chunks: seq<Chunk>)
    requires Lawful(z)
    ensures Judge(NarCheck(z, claim), p, chunks) == Check(z, claim, p, chunks)
    decreases |chunks|
  {
    if chunks != [] && Feed(z, claim, p, chunks[0]).Passed? {
      JudgeIsCheck(z, claim, Feed(z, claim, p, chunks[0]).value, chunks[1..]);
    }
  }

  /**
   A stream that ends with its thread alive is accepted exactly when the body is
   what was claimed, whatever the schedule and the chunking; and what storage
   then has is that body.
   */
  lemma AcceptedIsHonest<D(!new)>(z: Zstd<D>, claim: Claim, body: seq<Chunk>, run: seq<State<Progress<D>>>, i: nat)
    requires Lawful(z) && Run(NarCheck(z, claim), body, run) && i < |run|
    requires run[i].task.Ended?
    ensures run[i].task.outcome == Accepted ==> Honest(z, claim, Concat(run[i].forwarded)) && run[i].forwarded == body
    ensures !run[i].worker.Dead? ==> (run[i].task.outcome == Accepted <==> Honest(z, claim, Concat(body)))
    ensures run[i].task.outcome.Turned? ==> Deserved(z, claim, Concat(body), run[i].task.outcome.reason)
  {
    var e := NarCheck(z, claim);
    OffloadedIsInline(e, body, run, i);
    JudgeIsCheck(z, claim, e.start, body);
    CheckIsExact(z, claim, body);
  }
}
