/**
 Which store paths are being uploaded or deleted right now, and the gate that
 keeps new uploads out while fsck drains the old ones.
 */
module InFlight {
  import opened Basics

  datatype Refused = Uploading | Deleting | Quiescing

  function UploadClaims(claims: map<Hash, Kind>): set<Hash> {
    set h | h in claims && claims[h] == Upload
  }

  /** Why a path already claimed cannot be claimed. */
  function Busy(kind: Kind): Refused {
    match kind
    case Upload => Uploading
    case Delete => Deleting
  }

  lemma UploadClaimsWith(claims: map<Hash, Kind>, h: Hash, kind: Kind)
    requires h !in claims
    ensures |UploadClaims(claims[h := kind])| == |UploadClaims(claims)| + if kind == Upload then 1 else 0
  {
    if kind == Upload {
      assert UploadClaims(claims[h := kind]) == UploadClaims(claims) + {h};
    } else {
      assert UploadClaims(claims[h := kind]) == UploadClaims(claims);
    }
  }

  lemma UploadClaimsWithout(claims: map<Hash, Kind>, h: Hash)
    requires h in claims
    ensures |UploadClaims(claims - {h})| == |UploadClaims(claims)| - if claims[h] == Upload then 1 else 0
  {
    if claims[h] == Upload {
      assert UploadClaims(claims - {h}) == UploadClaims(claims) - {h};
    } else {
      assert UploadClaims(claims - {h}) == UploadClaims(claims);
    }
  }

  /** The in-flight set: every method is one hold of its lock. */
  class Set {
    var claims: map<Hash, Kind>
    var uploads: nat
    var quiescers: nat

    /** The maintained count is the number of upload claims. */
    ghost predicate Valid()
      reads this
    {
      uploads == |UploadClaims(claims)|
    }

    constructor ()
      ensures Valid() && claims == map[] && quiescers == 0
    {
      claims, uploads, quiescers := map[], 0, 0;
      new;
      assert UploadClaims(map[]) == {};
    }

    /** An upload claim: first claimer wins, and none while the gate is shut. */
    method Claim(h: Hash) returns (refused: Option<Refused>)
      requires Valid()
      modifies this
      ensures Valid() && quiescers == old(quiescers)
      ensures refused == (if old(quiescers) > 0 then Some(Quiescing)
                          else if h in old(claims) then Some(Busy(old(claims)[h]))
                          else None)
      ensures claims == if refused.None? then old(claims)[h := Upload] else old(claims)
    {
      if quiescers > 0 {
        return Some(Quiescing);
      }
      refused := Take(h, Upload);
    }

    /** A delete claim: the gate does not apply. */
    method ClaimDelete(h: Hash) returns (refused: Option<Refused>)
      requires Valid()
      modifies this
      ensures Valid() && quiescers == old(quiescers)
      ensures refused == if h in old(claims) then Some(Busy(old(claims)[h])) else None
      ensures claims == if refused.None? then old(claims)[h := Delete] else old(claims)
    {
      refused := Take(h, Delete);
    }

    method Take(h: Hash, kind: Kind) returns (refused: Option<Refused>)
      requires Valid()
      modifies this
      ensures Valid() && quiescers == old(quiescers)
      ensures refused == if h in old(claims) then Some(Busy(old(claims)[h])) else None
      ensures claims == if refused.None? then old(claims)[h := kind] else old(claims)
    {
      if h in claims {
        return Some(Busy(claims[h]));
      }
      UploadClaimsWith(claims, h, kind);
      claims := claims[h := kind];
      if kind == Upload {
        uploads := uploads + 1;
      }
      refused := None;
    }

    /** A claim guard dropped; `wake` says that drain waiters are to be notified. */
    method Drop(h: Hash) returns (wake: bool)
      requires Valid() && h in claims
      modifies this
      ensures Valid() && quiescers == old(quiescers)
      ensures claims == old(claims) - {h}
      ensures wake <==> old(claims)[h] == Upload
    {
      UploadClaimsWithout(claims, h);
      wake := claims[h] == Upload;
      assert wake ==> h in UploadClaims(claims);
      claims := claims - {h};
      if wake {
        uploads := uploads - 1;
      }
    }

    method Quiesce()
      requires Valid()
      modifies this`quiescers
      ensures Valid() && quiescers == old(quiescers) + 1
    {
      quiescers := quiescers + 1;
    }

    method Unquiesce()
      requires Valid() && quiescers > 0
      modifies this`quiescers
      ensures Valid() && quiescers == old(quiescers) - 1
    {
      quiescers := quiescers - 1;
    }
  }

  // ------------------------------------------------------------ draining

  /**
   One `drain`: it registers for wake-ups, then checks the count, then sleeps.
   `woken` records a notification since it registered.
   */
  datatype Drain =
    | Checking(registered: bool, woken: bool)
    | Asleep(woken: bool)
    | Returned(ok: bool)

  /**
   `notifying` counts claim drops that have left the lock and not yet notified.
   Each key of `drains` is a live quiesce guard. `drained`: some drain has
   returned success since the gate was last open.
   */
  datatype Gate = Gate(
    claims: map<Hash, Kind>,
    uploads: nat,
    quiescers: nat,
    notifying: nat,
    drains: map<nat, Drain>,
    drained: bool)

  datatype Move =
    | Admit(h: Hash)
    | AdmitDelete(h: Hash)
    | Remove(h: Hash)
    | Notify
    | Shut(d: nat)
    | Register(d: nat)
    | Check(d: nat)
    | Wake(d: nat)
    | Timeout(d: nat)
    | Reopen(d: nat)

  function Notified(d: Drain): Drain {
    match d
    case Checking(registered, woken) => Checking(registered, woken || registered)
    case Asleep(_) => Asleep(true)
    case Returned(_) => d
  }

  ghost predicate MoveNext(s: Gate, m: Move, t: Gate) {
    match m
    case Admit(h) =>
      s.quiescers == 0 && h !in s.claims && t == s.(claims := s.claims[h := Upload], uploads := s.uploads + 1)
    case AdmitDelete(h) =>
      h !in s.claims && t == s.(claims := s.claims[h := Delete])
    case Remove(h) =>
      && h in s.claims
      && if s.claims[h] == Upload
         then s.uploads > 0 && t == s.(claims := s.claims - {h}, uploads := s.uploads - 1, notifying := s.notifying + 1)
         else t == s.(claims := s.claims - {h})
    case Notify =>
      s.notifying > 0 && t == s.(notifying := s.notifying - 1,
                                 drains := map d | d in s.drains :: Notified(s.drains[d]))
    case Shut(d) =>
      d !in s.drains && t == s.(quiescers := s.quiescers + 1, drains := s.drains[d := Checking(false, false)])
    case Register(d) =>
      && d in s.drains && s.drains[d].Checking? && !s.drains[d].registered
      && t == s.(drains := s.drains[d := Checking(true, false)])
    case Check(d) =>
      && d in s.drains && s.drains[d].Checking? && s.drains[d].registered
      && t == if s.uploads == 0
              then s.(drains := s.drains[d := Returned(true)], drained := true)
              else s.(drains := s.drains[d := Asleep(s.drains[d].woken)])
    case Wake(d) =>
      && d in s.drains && s.drains[d].Asleep? && s.drains[d].woken
      && t == s.(drains := s.drains[d := Checking(false, false)])
    case Timeout(d) =>
      d in s.drains && !s.drains[d].Returned? && t == s.(drains := s.drains[d := Returned(false)])
    case Reopen(d) =>
      && d in s.drains && s.quiescers > 0
      && t == s.(quiescers := s.quiescers - 1, drains := s.drains - {d},
                 drained := s.drained && s.quiescers > 1)
  }

  ghost predicate GateSafe(s: Gate) {
    && s.uploads == |UploadClaims(s.claims)|
    && s.quiescers == |s.drains|
    && (s.drained ==> s.quiescers > 0 && UploadClaims(s.claims) == {})
    && (forall d :: d in s.drains && s.drains[d] == Returned(true) ==> s.drained)
    && (forall d :: d in s.drains && s.drains[d] == Asleep(false) ==> s.uploads > 0 || s.notifying > 0)
  }

  lemma MoveKeepsSafe(s: Gate, m: Move, t: Gate)
    requires GateSafe(s) && MoveNext(s, m, t)
    ensures GateSafe(t)
  {
    match m {
      case Admit(h) =>
        UploadClaimsWith(s.claims, h, Upload);
      case AdmitDelete(h) =>
        UploadClaimsWith(s.claims, h, Delete);
        assert UploadClaims(t.claims) == UploadClaims(s.claims);
      case Remove(h) =>
        UploadClaimsWithout(s.claims, h);
        assert UploadClaims(t.claims) <= UploadClaims(s.claims);
      case Notify =>
        assert t.drains.Keys == s.drains.Keys;
        assert |t.drains| == |t.drains.Keys| == |s.drains|;
      case Check(d) =>
        assert s.uploads == 0 ==> UploadClaims(s.claims) == {};
        assert t.drains.Keys == s.drains.Keys;
        assert |s.drains| == |s.drains.Keys|;
        assert s.drains.Keys != {};
      case Register(d) => assert t.drains.Keys == s.drains.Keys;
      case Wake(d) => assert t.drains.Keys == s.drains.Keys;
      case Timeout(d) => assert t.drains.Keys == s.drains.Keys;
      case Shut(d) =>
      case Reopen(d) =>
        assert t.drains.Keys == s.drains.Keys - {d};
        assert s.quiescers == 1 ==> t.drains.Keys == {};
    }
  }

  ghost predicate GateRun(run: seq<Gate>, moves: seq<Move>) {
    && |run| == |moves| + 1
    && run[0] == Gate(map[], 0, 0, 0, map[], false)
    && forall i :: 0 <= i < |moves| ==> MoveNext(run[i], moves[i], run[i + 1])
  }

  lemma {:induction false} RunIsGateSafe(run: seq<Gate>, moves: seq<Move>, i: nat)
    requires GateRun(run, moves) && i < |run|
    ensures GateSafe(run[i])
  {
    if i == 0 {
      assert UploadClaims(map[]) == {};
    } else {
      RunIsGateSafe(run, moves, i - 1);
      MoveKeepsSafe(run[i - 1], moves[i - 1], run[i]);
    }
  }

  lemma {:induction false} DrainedLasts(run: seq<Gate>, moves: seq<Move>, i: nat, j: nat)
    requires GateRun(run, moves) && i <= j < |run|
    requires run[i].drained && forall k :: i <= k <= j ==> run[k].quiescers > 0
    ensures run[j].drained
    decreases j
  {
    if i < j {
      DrainedLasts(run, moves, i, j - 1);
      assert MoveNext(run[j - 1], moves[j - 1], run[j]);
    }
  }

  /**
   The count is always the number of upload claims. Once a drain has returned
   success, no upload claim exists for as long as any quiesce guard lives. And no
   wake-up is lost: a sleeper that nobody has woken, with no upload left, has a
   dropped claim still about to notify it.
   */
  lemma DrainIsReliable(run: seq<Gate>, moves: seq<Move>, i: nat, j: nat, d: nat)
    requires GateRun(run, moves) && i <= j < |run|
    ensures run[j].uploads == |UploadClaims(run[j].claims)|
    ensures d in run[i].drains && run[i].drains[d] == Returned(true)
            && (forall k :: i <= k <= j ==> run[k].quiescers > 0)
            ==> UploadClaims(run[j].claims) == {}
    ensures d in run[j].drains && run[j].drains[d] == Asleep(false) && run[j].uploads == 0
            ==> run[j].notifying > 0
  {
    RunIsGateSafe(run, moves, i);
    RunIsGateSafe(run, moves, j);
    if run[i].drained && forall k :: i <= k <= j ==> run[k].quiescers > 0 {
      DrainedLasts(run, moves, i, j);
    }
  }
}
