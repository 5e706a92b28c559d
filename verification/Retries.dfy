/**
 One path's push and its two retry schedules: waits that queue behind the server
 or another pusher, bounded by a deadline, and faults, bounded by a budget that
 every queued wait renews.
 */
module Retries {
  import opened Basics

  /** Time in nanoseconds. */
  const FIRST_DELAY: nat := 250_000_000
  const SECOND: nat := 1_000_000_000
  const WAIT_DEADLINE: nat := 900_000_000_000
  const MAX_POLL: nat := 30_000_000_000

  /** What one attempt comes to. `Shed` carries a `Retry-After` in seconds, if it could be read as one. */
  datatype Answer =
    | Created
    | Exists
    | InProgress
    | Shed(seconds: Option<nat>)
    | Unauthorized(renewal: Renewal)
    | Fault
    | Rejected

  /** What asking for a new token would come to. */
  datatype Renewal = NewToken | NothingNew | RenewFails

  datatype Outcome = Pushed | Deduped | Failed

  /** The wait a shed asks for: at least a second, at most the deadline. */
  function ShedFor(seconds: Option<nat>): (wait: nat)
    ensures SECOND <= wait <= WAIT_DEADLINE
    ensures seconds.Some? && 1 <= seconds.value <= 900 ==> wait == seconds.value * SECOND
    ensures seconds.None? ==> wait == SECOND
  {
    var asked := if seconds.Some? then seconds.value * SECOND else SECOND;
    if asked < SECOND then SECOND else if asked > WAIT_DEADLINE then WAIT_DEADLINE else asked
  }

  /** The pause before asking again after `k` earlier answers of an upload in progress: doubling from 1 s to 30 s. */
  function PollAfter(k: nat): (poll: nat)
    ensures SECOND <= poll <= MAX_POLL
  {
    if k == 0 then SECOND
    else
      var twice := 2 * PollAfter(k - 1);
      if twice < MAX_POLL then twice else MAX_POLL
  }

  /** The pause before retrying after `k` earlier faults in a row: doubling from 250 ms. */
  function DelayAfter(k: nat): (delay: nat)
    ensures delay >= FIRST_DELAY
  {
    if k == 0 then FIRST_DELAY else 2 * DelayAfter(k - 1)
  }

  /** The delays double from 250 ms without end, and the polls from a second to half a minute. */
  lemma {:induction false} SchedulesDouble(k: nat)
    ensures DelayAfter(k) == Pow2(k) * 250_000_000
    ensures PollAfter(k) == if Pow2(k) <= 30 then Pow2(k) * 1_000_000_000 else 30_000_000_000
  {
    if k > 0 {
      SchedulesDouble(k - 1);
    }
  }

  class Backoff {
    const maxRetries: nat
    var retries: nat
    var delay: nat
    var poll: nat

    predicate Valid()
      reads this
    {
      retries <= maxRetries && delay == DelayAfter(retries) && SECOND <= poll <= MAX_POLL
    }

    constructor (maxRetries: nat)
      ensures Valid() && this.maxRetries == maxRetries && retries == 0 && poll == PollAfter(0)
    {
      this.maxRetries, retries, delay, poll := maxRetries, 0, FIRST_DELAY, SECOND;
    }

    /** A wait that is not a fault: it renews the budget for faults, and must end by the deadline. */
    method Queued(base: nat, elapsed: nat, jitter: nat) returns (wait: Option<nat>)
      requires Valid()
      modifies this
      ensures Valid() && retries == 0 && poll == old(poll)
      ensures wait == if elapsed + base + jitter <= WAIT_DEADLINE then Some(base + jitter) else None
    {
      retries, delay := 0, FIRST_DELAY;
      var long := base + jitter;
      wait := if elapsed + long <= WAIT_DEADLINE then Some(long) else None;
    }

    method InProgress(elapsed: nat, jitter: nat) returns (wait: Option<nat>)
      requires Valid()
      modifies this
      ensures Valid() && retries == 0
      ensures poll == if old(poll) * 2 < MAX_POLL then old(poll) * 2 else MAX_POLL
      ensures wait == if elapsed + old(poll) + jitter <= WAIT_DEADLINE then Some(old(poll) + jitter) else None
    {
      var base := poll;
      poll := if base * 2 < MAX_POLL then base * 2 else MAX_POLL;
      wait := Queued(base, elapsed, jitter);
    }

    /** A shed's wait, or a fault's, which doubles while its budget lasts; none for an error that no retry mends. */
    method Next(error: Answer, elapsed: nat, jitter: nat) returns (wait: Option<nat>)
      requires Valid()
      modifies this
      ensures Valid() && poll == old(poll)
      ensures error.Shed? ==>
                && retries == 0
                && wait == if elapsed + ShedFor(error.seconds) + jitter <= WAIT_DEADLINE
                           then Some(ShedFor(error.seconds) + jitter) else None
      ensures !error.Shed? ==>
                && wait == (if error.Fault? && old(retries) < maxRetries
                            then Some(DelayAfter(old(retries)) + jitter) else None)
                && retries == old(retries) + (if wait.Some? then 1 else 0)
    {
      if error.Shed? {
        wait := Queued(ShedFor(error.seconds), elapsed, jitter);
        return;
      }
      if retries >= maxRetries || !error.Fault? {
        return None;
      }
      wait := Some(delay + jitter);
      retries, delay := retries + 1, delay * 2;
    }
  }

  // ------------------------------------------------------------ what the schedule is

  /** The server, the clock and the jitter, attempt by attempt: `took` is how long each attempt lasts. */
  datatype Env = Env(answer: nat -> Answer, took: nat -> nat, jitter: nat -> nat, maxRetries: nat)

  /** An answer that is waited out, not a fault. */
  predicate Queues(a: Answer) {
    a.InProgress? || a.Shed?
  }

  /** Faults among the first `n` answers since the last one that was waited out. */
  function FaultsSince(e: Env, n: nat): nat {
    if n == 0 || Queues(e.answer(n - 1)) then 0
    else FaultsSince(e, n - 1) + (if e.answer(n - 1).Fault? then 1 else 0)
  }

  /** Answers of another upload in progress among the first `n`. */
  function PollsBefore(e: Env, n: nat): nat {
    if n == 0 then 0 else PollsBefore(e, n - 1) + (if e.answer(n - 1).InProgress? then 1 else 0)
  }

  ghost predicate First401(e: Env, n: nat) {
    forall i :: 0 <= i < n ==> !e.answer(i).Unauthorized?
  }

  /** When attempt `n` starts: each one before it took its time, and was followed by a wait. */
  function StartOf(e: Env, waits: seq<nat>, n: nat): nat
    requires n <= |waits|
  {
    if n == 0 then 0 else StartOf(e, waits, n - 1) + e.took(n - 1) + waits[n - 1]
  }

  /** The wait the schedule has for answer `n`, jitter aside; none for an answer that is not waited for. */
  function Base(e: Env, n: nat): nat {
    match e.answer(n)
    case InProgress => PollAfter(PollsBefore(e, n))
    case Shed(seconds) => ShedFor(seconds)
    case Fault => DelayAfter(FaultsSince(e, n))
    case _ => 0
  }

  /** How long the wait after attempt `n` is: as the schedule has it, with its jitter; none after a new token. */
  function WaitAfter(e: Env, n: nat): nat {
    if e.answer(n).Unauthorized? then 0 else Base(e, n) + e.jitter(n)
  }

  /** Attempt `n`, which started at `start`, is one to retry. */
  ghost predicate ToRetry(e: Env, start: nat, n: nat) {
    match e.answer(n)
    case InProgress => start + e.took(n) + WaitAfter(e, n) <= WAIT_DEADLINE
    case Shed(_) => start + e.took(n) + WaitAfter(e, n) <= WAIT_DEADLINE
    case Unauthorized(renewal) => renewal.NewToken? && First401(e, n)
    case Fault => FaultsSince(e, n) < e.maxRetries
    case _ => false
  }

  ghost predicate RetriedAt(e: Env, waits: seq<nat>, i: nat)
    requires i < |waits|
  {
    ToRetry(e, StartOf(e, waits, i), i) && waits[i] == WaitAfter(e, i)
  }

  /** Every attempt so far was one to retry, and was, after just the wait it calls for. */
  ghost predicate AllRetried(e: Env, waits: seq<nat>) {
    forall i :: 0 <= i < |waits| ==> RetriedAt(e, waits, i)
  }

  /** A push of `attempts` attempts: all but the last were retried, and the last is not to be. */
  ghost predicate Takes(e: Env, waits: seq<nat>, attempts: nat) {
    attempts == |waits| + 1 && AllRetried(e, waits) && !ToRetry(e, StartOf(e, waits, |waits|), |waits|)
  }

  lemma {:induction false} StartSnoc(e: Env, waits: seq<nat>, wait: nat, n: nat)
    requires n <= |waits|
    ensures StartOf(e, waits + [wait], n) == StartOf(e, waits, n)
  {
    if n > 0 {
      StartSnoc(e, waits, wait, n - 1);
    }
  }

  lemma StillRetried(e: Env, waits: seq<nat>, wait: nat, i: nat)
    requires i < |waits| && RetriedAt(e, waits, i)
    ensures RetriedAt(e, waits + [wait], i)
  {
    StartSnoc(e, waits, wait, i);
  }

  lemma OneMoreRetried(e: Env, waits: seq<nat>, wait: nat, n: nat)
    requires AllRetried(e, waits) && n == |waits|
    requires ToRetry(e, StartOf(e, waits, n), n) && wait == WaitAfter(e, n)
    ensures AllRetried(e, waits + [wait])
    ensures StartOf(e, waits + [wait], n + 1) == StartOf(e, waits, n) + e.took(n) + wait
  {
    var more := waits + [wait];
    StartSnoc(e, waits, wait, n);
    assert RetriedAt(e, more, n);
    forall i | 0 <= i < |more|
      ensures RetriedAt(e, more, i)
    {
      if i < n {
        StillRetried(e, waits, wait, i);
      }
    }
  }

  lemma NextAttempt(e: Env, n: nat)
    ensures First401(e, n + 1) <==> First401(e, n) && !e.answer(n).Unauthorized?
    ensures FaultsSince(e, n + 1) ==
            if Queues(e.answer(n)) then 0 else FaultsSince(e, n) + (if e.answer(n).Fault? then 1 else 0)
    ensures PollsBefore(e, n + 1) == PollsBefore(e, n) + (if e.answer(n).InProgress? then 1 else 0)
  {
  }

  // ------------------------------------------------------------ how many attempts it can take

  function Most(maxRetries: nat): nat {
    902 + 901 * maxRetries
  }

  /**
   What the waits so far were for: `queued` of at least a second each, `faults` of at
   least a quarter each, `settled` of them before the last queued wait, and one
   renewal at most.
   */
  datatype Tally = Tally(queued: nat, faults: nat, settled: nat, renewed: bool)

  /** Settled faults fit the budgets that queued waits opened, and what came before the last of those the deadline. */
  ghost predicate Bounded(t: Tally, attempts: nat, retries: nat, maxRetries: nat, elapsed: nat) {
    && attempts == t.queued + t.faults + (if t.renewed then 1 else 0)
    && t.faults == t.settled + retries && retries <= maxRetries
    && t.settled <= t.queued * maxRetries
    && t.queued * SECOND + t.settled * FIRST_DELAY <= WAIT_DEADLINE
    && t.queued * SECOND + t.faults * FIRST_DELAY <= elapsed
  }

  /** No more than the documented bound; and fault waits use up the same deadline, so with faults it is out of reach. */
  lemma BoundedIsFew(t: Tally, attempts: nat, retries: nat, maxRetries: nat, elapsed: nat)
    requires Bounded(t, attempts, retries, maxRetries, elapsed)
    ensures attempts + 1 <= Most(maxRetries)
    ensures maxRetries > 0 ==> attempts + 1 < Most(maxRetries)
    ensures attempts + 1 <= 3602 + maxRetries
  {
    assert 4 * t.queued + t.settled <= 3600;
    if t.queued < 900 {
      Times(t.queued, 899, maxRetries);
    } else {
      assert t.settled == 0;
    }
  }

  lemma Times(a: nat, b: nat, k: nat)
    requires a <= b
    ensures a * k <= b * k
  {
    assert b * k == a * k + (b - a) * k;
  }

  lemma OneMoreQueued(t: Tally, attempts: nat, retries: nat, maxRetries: nat, elapsed: nat, later: nat)
    requires Bounded(t, attempts, retries, maxRetries, elapsed)
    requires elapsed + SECOND <= later <= WAIT_DEADLINE
    ensures Bounded(Tally(t.queued + 1, t.faults, t.faults, t.renewed), attempts + 1, 0, maxRetries, later)
  {
    assert (t.queued + 1) * maxRetries == t.queued * maxRetries + maxRetries;
  }

  // ------------------------------------------------------------ one attempt

  function NextRetries(a: Answer, retries: nat): nat {
    if Queues(a) then 0 else if a.Fault? then retries + 1 else retries
  }

  function NextPoll(a: Answer, poll: nat): nat {
    if !a.InProgress? then poll else if poll * 2 < MAX_POLL then poll * 2 else MAX_POLL
  }

  function NextTally(a: Answer, t: Tally): Tally {
    match a
    case InProgress => t.(queued := t.queued + 1, settled := t.faults)
    case Shed(_) => t.(queued := t.queued + 1, settled := t.faults)
    case Fault => t.(faults := t.faults + 1)
    case Unauthorized(_) => t.(renewed := true)
    case _ => t
  }

  /** A wait that has to end by the deadline. */
  function Granted(late: nat, wait: nat): Option<nat> {
    if late + wait <= WAIT_DEADLINE then Some(wait) else None
  }

  /** Where the schedule stands between attempts. */
  datatype Standing = Standing(retries: nat, poll: nat, renewed: bool)

  /** The wait before the next attempt, as the schedule stands, or none. */
  function Decision(a: Answer, s: Standing, late: nat, jitter: nat, maxRetries: nat): Option<nat> {
    match a
    case InProgress => Granted(late, s.poll + jitter)
    case Shed(seconds) => Granted(late, ShedFor(seconds) + jitter)
    case Fault => if s.retries < maxRetries then Some(DelayAfter(s.retries) + jitter) else None
    case Unauthorized(renewal) => if !s.renewed && renewal.NewToken? then Some(0) else None
    case _ => None
  }

  function NextStanding(a: Answer, s: Standing): Standing {
    Standing(NextRetries(a, s.retries), NextPoll(a, s.poll), s.renewed || a.Unauthorized?)
  }

  /** After an attempt that did not succeed: how long to wait before the next, or not at all. */
  method Decide(backoff: Backoff, a: Answer, renewed: bool, late: nat, jitter: nat)
    returns (wait: Option<nat>, renews: bool)
    requires backoff.Valid() && !a.Created? && !a.Exists?
    modifies backoff
    ensures backoff.Valid()
    ensures wait == Decision(a, old(Standing(backoff.retries, backoff.poll, renewed)), late, jitter, backoff.maxRetries)
    ensures renews <==> wait.Some? && a.Unauthorized?
    ensures backoff.poll == NextPoll(a, old(backoff.poll))
    ensures wait.Some? ==> backoff.retries == NextRetries(a, old(backoff.retries))
  {
    renews := false;
    if a.InProgress? {
      wait := backoff.InProgress(late, jitter);
      return;
    }
    if !renewed && a.Unauthorized? {
      if a.renewal.RenewFails? {
        return None, false;
      }
      if a.renewal.NewToken? {
        return Some(0), true;
      }
    }
    wait := backoff.Next(a, late, jitter);
  }

  /** A path the server took is pushed, and one it had already is deduplicated. */
  ghost predicate Reports(outcome: Outcome, a: Answer) {
    && (outcome == Pushed <==> a.Created?)
    && (outcome == Deduped <==> a.Exists?)
    && (outcome == Failed <==> !a.Created? && !a.Exists?)
  }

  /** One more attempt: how the push ended with it, or the wait after it. */
  method Attempt(backoff: Backoff, a: Answer, renewed: bool, late: nat, jitter: nat)
    returns (outcome: Option<Outcome>, wait: nat, renews: bool)
    requires backoff.Valid()
    modifies backoff
    ensures backoff.Valid()
    ensures var s := old(Standing(backoff.retries, backoff.poll, renewed));
            match Decision(a, s, late, jitter, backoff.maxRetries)
            case None => outcome.Some? && Reports(outcome.value, a)
            case Some(w) =>
              && outcome.None? && wait == w
              && Standing(backoff.retries, backoff.poll, renewed || renews) == NextStanding(a, s)
  {
    wait, renews := 0, false;
    if a.Created? {
      return Some(Pushed), wait, renews;
    }
    if a.Exists? {
      return Some(Deduped), wait, renews;
    }
    var decided;
    decided, renews := Decide(backoff, a, renewed, late, jitter);
    if decided.None? {
      return Some(Failed), wait, renews;
    }
    outcome, wait := None, decided.value;
  }

  // ------------------------------------------------------------ the push

  /** The schedule stands where the answers so far have brought it. */
  ghost predicate OnSchedule(e: Env, n: nat, s: Standing) {
    && s.retries == FaultsSince(e, n) && s.poll == PollAfter(PollsBefore(e, n))
    && (!s.renewed <==> First401(e, n))
  }

  /** A push between attempts, `elapsed` after it began. */
  ghost predicate Pushing(e: Env, waits: seq<nat>, elapsed: nat, s: Standing, t: Tally) {
    && elapsed == StartOf(e, waits, |waits|)
    && AllRetried(e, waits)
    && OnSchedule(e, |waits|, s) && t.renewed == s.renewed
    && Bounded(t, |waits|, s.retries, e.maxRetries, elapsed)
  }

  lemma DecisionIsSchedule(e: Env, start: nat, n: nat, s: Standing)
    requires OnSchedule(e, n, s) && s.retries <= e.maxRetries
    ensures Decision(e.answer(n), s, start + e.took(n), e.jitter(n), e.maxRetries) ==
            if ToRetry(e, start, n) then Some(WaitAfter(e, n)) else None
  {
  }

  lemma NextBounded(e: Env, n: nat, t: Tally, s: Standing, elapsed: nat)
    requires Bounded(t, n, s.retries, e.maxRetries, elapsed) && OnSchedule(e, n, s) && t.renewed == s.renewed
    requires ToRetry(e, elapsed, n)
    ensures var a, later := e.answer(n), elapsed + e.took(n) + WaitAfter(e, n);
            Bounded(NextTally(a, t), n + 1, NextRetries(a, s.retries), e.maxRetries, later)
  {
    if Queues(e.answer(n)) {
      OneMoreQueued(t, n, s.retries, e.maxRetries, elapsed, elapsed + e.took(n) + WaitAfter(e, n));
    }
  }

  lemma Advance(e: Env, waits: seq<nat>, elapsed: nat, s: Standing, t: Tally, wait: nat)
    requires Pushing(e, waits, elapsed, s, t) && ToRetry(e, elapsed, |waits|) && wait == WaitAfter(e, |waits|)
    ensures var a := e.answer(|waits|);
            Pushing(e, waits + [wait], elapsed + e.took(|waits|) + wait, NextStanding(a, s), NextTally(a, t))
  {
    NextAttempt(e, |waits|);
    OneMoreRetried(e, waits, wait, |waits|);
    NextBounded(e, |waits|, t, s, elapsed);
  }

  /** What the decision on the next attempt means for the push: it goes on as scheduled, or ends with it. */
  lemma Settles(e: Env, waits: seq<nat>, n: nat, elapsed: nat, s: Standing, t: Tally)
    requires Pushing(e, waits, elapsed, s, t) && n == |waits|
    ensures n + 1 <= Most(e.maxRetries) && n + 1 <= 3602 + e.maxRetries
    ensures var a, late := e.answer(n), elapsed + e.took(n);
            match Decision(a, s, late, e.jitter(n), e.maxRetries)
            case None => Takes(e, waits, n + 1)
            case Some(wait) => Pushing(e, waits + [wait], late + wait, NextStanding(a, s), NextTally(a, t))
  {
    BoundedIsFew(t, n, s.retries, e.maxRetries, elapsed);
    DecisionIsSchedule(e, elapsed, n, s);
    if ToRetry(e, elapsed, n) {
      Advance(e, waits, elapsed, s, t, WaitAfter(e, n));
    }
  }

  /**
   One path's push against any server, clock and jitter: it ends, after at most
   902 + 901 * `maxRetries` attempts, and after at most 3602 + `maxRetries`. Each
   attempt but the last was one to retry, after exactly the wait the schedule has for
   it, and the last is a success or one not to retry. `waits` is the wait after each.
   */
  method PushOne(e: Env) returns (outcome: Outcome, attempts: nat, ghost waits: seq<nat>)
    ensures 1 <= attempts <= Most(e.maxRetries) && attempts <= 3602 + e.maxRetries
    ensures Takes(e, waits, attempts)
    ensures outcome == Pushed <==> e.answer(attempts - 1).Created?
    ensures outcome == Deduped <==> e.answer(attempts - 1).Exists?
    ensures outcome == Failed <==> !e.answer(attempts - 1).Created? && !e.answer(attempts - 1).Exists?
  {
    var backoff := new Backoff(e.maxRetries);
    var renewed, elapsed: nat := false, 0;
    attempts, waits := 0, [];
    ghost var t := Tally(0, 0, 0, false);
    while true
      invariant backoff.Valid() && backoff.maxRetries == e.maxRetries && fresh(backoff) && attempts == |waits|
      invariant Pushing(e, waits, elapsed, Standing(backoff.retries, backoff.poll, renewed), t)
      decreases Most(e.maxRetries) - attempts
    {
      var n, a, late := attempts, e.answer(attempts), elapsed + e.took(attempts);
      Settles(e, waits, n, elapsed, Standing(backoff.retries, backoff.poll, renewed), t);
      var ended, wait, renews := Attempt(backoff, a, renewed, late, e.jitter(n));
      attempts := n + 1;
      if ended.Some? {
        return ended.value, attempts, waits;
      }
      renewed, elapsed, waits, t := renewed || renews, late + wait, waits + [wait], NextTally(a, t);
    }
  }

  // ------------------------------------------------------------ when the bound is reached

  /** Some push with this many retries allowed takes as many attempts as the bound says. */
  ghost predicate BoundIsTaken(maxRetries: nat) {
    exists e: Env, waits :: e.maxRetries == maxRetries && Takes(e, waits, Most(maxRetries))
  }

  lemma {:induction false} TakesIsBounded(e: Env, waits: seq<nat>, n: nat) returns (s: Standing, t: Tally)
    requires AllRetried(e, waits) && n <= |waits|
    ensures OnSchedule(e, n, s) && t.renewed == s.renewed
    ensures Bounded(t, n, s.retries, e.maxRetries, StartOf(e, waits, n))
  {
    if n == 0 {
      s, t := Standing(0, PollAfter(0), false), Tally(0, 0, 0, false);
    } else {
      var s0, t0 := TakesIsBounded(e, waits, n - 1);
      assert RetriedAt(e, waits, n - 1);
      NextAttempt(e, n - 1);
      NextBounded(e, n - 1, t0, s0, StartOf(e, waits, n - 1));
      var a := e.answer(n - 1);
      s, t := NextStanding(a, s0), NextTally(a, t0);
    }
  }

  /** A 401 with a new token, then a shed of a second each time, in no time at all. */
  function Patient(): Env {
    Env(n => if n == 0 then Unauthorized(NewToken) else if n <= 900 then Shed(Some(1)) else Rejected,
        _ => 0, _ => 0, 0)
  }

  function PatientWaits(n: nat): seq<nat> {
    if n == 0 then [] else PatientWaits(n - 1) + [if n == 1 then 0 else SECOND]
  }

  lemma {:induction false} PatientGoesOn(n: nat)
    requires n <= 901
    ensures |PatientWaits(n)| == n && AllRetried(Patient(), PatientWaits(n))
    ensures StartOf(Patient(), PatientWaits(n), n) == if n == 0 then 0 else (n - 1) * SECOND
  {
    if n > 0 {
      PatientGoesOn(n - 1);
      var wait := if n == 1 then 0 else SECOND;
      assert wait == WaitAfter(Patient(), n - 1);
      OneMoreRetried(Patient(), PatientWaits(n - 1), wait, n - 1);
    }
  }

  /** The bound of 902 + 901 * `maxRetries` is reached exactly without any retries of faults. */
  lemma BoundIsReached(maxRetries: nat)
    ensures BoundIsTaken(maxRetries) <==> maxRetries == 0
  {
    if maxRetries == 0 {
      PatientGoesOn(901);
      assert Patient().maxRetries == 0 && Takes(Patient(), PatientWaits(901), Most(0));
    } else {
      forall e: Env, waits | e.maxRetries == maxRetries && AllRetried(e, waits)
        ensures |waits| + 1 < Most(maxRetries)
      {
        var s, t := TakesIsBounded(e, waits, |waits|);
        BoundedIsFew(t, |waits|, s.retries, maxRetries, StartOf(e, waits, |waits|));
      }
    }
  }
}
