/**
 The upload's way into the bucket: the body re-chunked into uniform parts, hashed
 as it goes, and put in one piece or as a multipart upload.
 */
module Uploads {
  import opened Basics
  import opened Checkers
  import opened Offload
  import opened Framing

  datatype Failure = ClientBody | BodyOverLimit | S3 | NoPartInFlight | Rejected | CheckFailed

  datatype Result<+T> = Ok(value: T) | Err(error: Failure)

  // ------------------------------------------------------------ reading

  /**
   The body as consumed so far. `breaks` says that it ends in an error instead of
   an end of stream; `ended`, that the end of stream has been seen.
   */
  class BodyReader {
    var body: seq<Chunk>
    var breaks: bool
    var ended: bool
    var carry: Option<Chunk>
    var hashed: seq<byte>
    var received: nat

    constructor (body: seq<Chunk>, breaks: bool)
      ensures Valid() && Left() == Concat(body) && this.breaks == breaks && hashed == [] && !ended
    {
      this.body, this.breaks := body, breaks;
      ended, carry, hashed, received := false, None, [], 0;
    }

    /** Bytes read from the body or still in it, and not yet in a part. */
    function Left(): seq<byte>
      reads this
    {
      (if carry.Some? then carry.value else []) + Concat(body)
    }

    /** The count is of the bytes hashed, and an end is seen only past the last of them. */
    predicate Valid()
      reads this
    {
      received == |hashed| && (ended ==> body == [] && carry.None? && !breaks)
    }

    function Pieces(): nat
      reads this
    {
      |body| + (if carry.Some? then 1 else 0)
    }

    /** The next chunk not yet in a part: the carry, then the body. */
    method Next() returns (r: Result<Option<Chunk>>)
      requires Valid()
      modifies this
      ensures Valid() && breaks == old(breaks) && hashed == old(hashed)
      ensures match r
              case Ok(Some(c)) => c + Left() == old(Left()) && carry.None? && !ended
              case Ok(None) => ended && old(Left()) == Left() == []
              case Err(e) => e == ClientBody && breaks && old(Left()) == Left() == []
      ensures r.Ok? && r.value.Some? ==> Pieces() < old(Pieces())
    {
      if carry.Some? {
        r := Ok(Some(carry.value));
        carry := None;
        return;
      }
      if body == [] {
        ended := !breaks;
        return if breaks then Err(ClientBody) else Ok(None);
      }
      r := Ok(Some(body[0]));
      body := body[1..];
    }

    /** Hashes and counts bytes as they go into a part. */
    method Append(part: seq<byte>, bytes: seq<byte>) returns (longer: seq<byte>)
      requires Valid()
      modifies this`hashed, this`received
      ensures Valid() && longer == part + bytes && hashed == old(hashed) + bytes
    {
      hashed := hashed + bytes;
      received := received + |bytes|;
      longer := part + bytes;
    }

    /** A part of `cap` bytes, or of all that is left once the body ends; the rest of a split chunk is carried. */
    method Fill(cap: nat) returns (r: Result<seq<byte>>)
      requires Valid() && !ended
      modifies this
      ensures Valid() && breaks == old(breaks)
      ensures match r
              case Ok(part) =>
                && part + Left() == old(Left()) && hashed == old(hashed) + part
                && |part| <= cap && (ended <==> |part| < cap)
              case Err(e) => e == ClientBody && breaks && |old(Left())| < cap
    {
      ghost var body, before := Left(), hashed;
      var part: seq<byte> := [];
      NoneTaken(body, before);
      while |part| < cap
        invariant Valid() && breaks == old(breaks) && !ended
        invariant |part| <= cap && Taken(body, before, part, Left(), hashed)
        decreases Pieces()
      {
        var next := Next();
        if next.Err? {
          return Err(next.error);
        }
        if next.value.None? {
          return Ok(part);
        }
        var chunk, room := next.value.value, cap - |part|;
        if |chunk| > room {
          SomeTaken(body, before, part, chunk, room, Left(), hashed);
          part := Append(part, chunk[..room]);
          carry := Some(chunk[room..]);
          break;
        }
        ChunkTaken(body, before, part, chunk, Left(), hashed);
        part := Append(part, chunk);
      }
      return Ok(part);
    }

    /** Whether another byte follows; it stays to be read. */
    method HasMore() returns (r: Result<bool>)
      requires Valid() && !ended
      modifies this
      ensures Valid() && breaks == old(breaks) && hashed == old(hashed) && Left() == old(Left())
      ensures match r
              case Ok(more) => (more <==> Left() != []) && (ended <==> !more)
              case Err(e) => e == ClientBody && breaks && Left() == []
    {
      while true
        invariant Valid() && breaks == old(breaks) && hashed == old(hashed) && Left() == old(Left()) && !ended
        decreases Pieces()
      {
        var next := Next();
        if next.Err? {
          return Err(next.error);
        }
        if next.value.None? {
          return Ok(false);
        }
        if next.value.value != [] {
          carry := next.value;
          return Ok(true);
        }
      }
    }

    method Finish() returns (digest: Digest, size: nat)
      requires Valid()
      ensures digest == Sha256(hashed) && size == |hashed|
    {
      return Sha256(hashed), received;
    }
  }

  /** `part` has been taken off the front of `body` and hashed, and `left` is what is left of it. */
  ghost predicate Taken(body: seq<byte>, before: seq<byte>, part: seq<byte>, left: seq<byte>, hashed: seq<byte>) {
    body == part + left && hashed == before + part
  }

  lemma NoneTaken(body: seq<byte>, before: seq<byte>)
    ensures Taken(body, before, [], body, before)
  {
  }

  lemma ChunkTaken(body: seq<byte>, before: seq<byte>, part: seq<byte>, chunk: seq<byte>, left: seq<byte>,
                   hashed: seq<byte>)
    requires Taken(body, before, part, chunk + left, hashed)
    ensures Taken(body, before, part + chunk, left, hashed + chunk)
  {
    Joined(part, chunk, left);
    Joined(before, part, chunk);
  }

  lemma SomeTaken(body: seq<byte>, before: seq<byte>, part: seq<byte>, chunk: seq<byte>, n: nat, left: seq<byte>,
                  hashed: seq<byte>)
    requires n <= |chunk| && Taken(body, before, part, chunk + left, hashed)
    ensures Taken(body, before, part + chunk[..n], chunk[n..] + left, hashed + chunk[..n])
  {
    assert chunk + left == chunk[..n] + (chunk[n..] + left);
    ChunkTaken(body, before, part, chunk[..n], chunk[n..] + left, hashed);
  }

  // ------------------------------------------------------------ the bucket

  /** What the bucket holds, and how many requests to write it has had. */
  class Bucket {
    var objects: map<Hash, seq<byte>>
    var writes: nat

    constructor ()
      ensures objects == map[] && writes == 0
    {
      objects, writes := map[], 0;
    }

    /** A put takes effect before it returns, or fails and does not. */
    method Put(h: Hash, bytes: seq<byte>) returns (ok: bool)
      modifies this
      ensures writes == old(writes) + 1
      ensures objects == if ok then old(objects)[h := bytes] else old(objects)
    {
      writes := writes + 1;
      ok := *;
      if ok {
        objects := objects[h := bytes];
      }
    }
  }

  /** `parts` is `whole` cut at every `size` bytes: none empty, all but the last full. */
  ghost predicate Uniform(parts: seq<seq<byte>>, size: nat, whole: seq<byte>) {
    && Concat(parts) == whole
    && (forall i :: 0 <= i < |parts| ==> 0 < |parts[i]| <= size)
    && forall i :: 0 <= i < |parts| - 1 ==> |parts[i]| == size
  }

  predicate Numbered(k: nat, n: nat) {
    1 <= k <= n
  }

  function Numbers(n: nat): set<nat> {
    set k: nat | k <= n && Numbered(k, n)
  }

  lemma {:induction false} NumbersCount(n: nat)
    ensures |Numbers(n)| == n
  {
    if n > 0 {
      NumbersCount(n - 1);
      assert Numbers(n) == Numbers(n - 1) + {n};
    }
  }

  predicate Ascending(s: seq<nat>) {
    forall i, j :: 0 <= i < j < |s| ==> s[i] < s[j]
  }

  lemma {:induction false} AtLeast(s: seq<nat>, n: nat, i: nat)
    requires Ascending(s) && i < |s| && forall k :: 0 <= k < |s| ==> Numbered(s[k], n)
    ensures i + 1 <= s[i]
  {
    if i > 0 {
      AtLeast(s, n, i - 1);
    }
  }

  lemma {:induction false} AtMost(s: seq<nat>, n: nat, i: nat)
    requires Ascending(s) && i < |s| && forall k :: 0 <= k < |s| ==> Numbered(s[k], n)
    ensures s[i] <= n - (|s| - 1 - i)
    decreases |s| - i
  {
    if i < |s| - 1 {
      AtMost(s, n, i + 1);
    }
  }

  /** The part numbers up to `n`, in ascending order, are 1, 2, ... `n`. */
  lemma AscendingCounts(s: seq<nat>, n: nat)
    requires Ascending(s) && Elems(s) == Numbers(n)
    ensures |s| == n && forall i :: 0 <= i < n ==> s[i] == i + 1
  {
    NoDupCount(s);
    NumbersCount(n);
    forall k | 0 <= k < |s|
      ensures Numbered(s[k], n)
    {
      assert s[k] in Elems(s);
    }
    forall i | 0 <= i < n
      ensures s[i] == i + 1
    {
      AtLeast(s, n, i);
      AtMost(s, n, i);
    }
  }

  method Least(numbers: set<nat>) returns (least: nat)
    requires numbers != {}
    ensures least in numbers && forall n :: n in numbers ==> least <= n
  {
    least :| least in numbers;
    var left := numbers - {least};
    while left != {}
      invariant left <= numbers && least in numbers
      invariant forall n :: n in numbers && n !in left ==> least <= n
      decreases left
    {
      var n :| n in left;
      if n < least {
        least := n;
      }
      left := left - {n};
    }
  }

  method SortByNumber(numbers: seq<nat>) returns (sorted: seq<nat>)
    ensures Ascending(sorted) && Elems(sorted) == Elems(numbers)
  {
    sorted := [];
    var left := Elems(numbers);
    while left != {}
      invariant Ascending(sorted) && Elems(sorted) + left == Elems(numbers)
      invariant forall i, n :: 0 <= i < |sorted| && n in left ==> sorted[i] < n
      decreases left
    {
      var least := Least(left);
      assert Elems(sorted + [least]) == Elems(sorted) + {least};
      sorted, left := sorted + [least], left - {least};
    }
  }

  lemma OneFewer<V>(m: map<nat, V>, n: nat)
    requires n in m
    ensures |m - {n}| == |m| - 1
  {
    assert (m - {n}).Keys == m.Keys - {n};
    assert |m.Keys| == |m| && |(m - {n}).Keys| == |m - {n}|;
  }

  /** The parts in flight and the parts that are in are `parts` between them, numbered from 1. */
  ghost predicate Shared(parts: seq<seq<byte>>, inFlight: map<nat, seq<byte>>, uploaded: map<nat, seq<byte>>,
                         completed: seq<nat>)
  {
    && NoDup(completed)
    && (forall n :: n in completed <==> n in uploaded)
    && (forall n :: n in inFlight ==> n !in uploaded)
    && (forall n :: Numbered(n, |parts|) ==> n in inFlight || n in uploaded)
    && (forall n :: n in inFlight ==> Numbered(n, |parts|) && inFlight[n] == parts[n - 1])
    && (forall n :: n in uploaded ==> Numbered(n, |parts|) && uploaded[n] == parts[n - 1])
  }

  lemma OneMorePart(parts: seq<seq<byte>>, inFlight: map<nat, seq<byte>>, uploaded: map<nat, seq<byte>>,
                    completed: seq<nat>, number: nat, part: seq<byte>)
    requires Shared(parts, inFlight, uploaded, completed) && number == |parts| + 1
    ensures Shared(parts + [part], inFlight[number := part], uploaded, completed)
    ensures |inFlight[number := part]| == |inFlight| + 1
  {
    var more, all := inFlight[number := part], parts + [part];
    forall n | Numbered(n, |all|)
      ensures n in more || n in uploaded
    {
      assert n == number || Numbered(n, |parts|);
    }
    assert number !in inFlight;
    OneFewer(more, number);
    assert more - {number} == inFlight;
  }

  lemma PartIsIn(parts: seq<seq<byte>>, inFlight: map<nat, seq<byte>>, uploaded: map<nat, seq<byte>>,
                 completed: seq<nat>, n: nat)
    requires Shared(parts, inFlight, uploaded, completed) && n in inFlight
    ensures Shared(parts, inFlight - {n}, uploaded[n := inFlight[n]], completed + [n])
    ensures |inFlight - {n}| == |inFlight| - 1
  {
    assert n !in completed;
    OneFewer(inFlight, n);
  }

  /** A multipart upload: its parts on their own tasks, those that are in, and the order they finished in. */
  class Multipart {
    var inFlight: map<nat, seq<byte>>
    var uploaded: map<nat, seq<byte>>
    var completed: seq<nat>

    constructor ()
      ensures Valid([]) && inFlight == map[]
    {
      inFlight, uploaded, completed := map[], map[], [];
    }

    ghost predicate Valid(parts: seq<seq<byte>>)
      reads this
    {
      Shared(parts, inFlight, uploaded, completed)
    }

    method Spawn(number: nat, part: seq<byte>, ghost parts: seq<seq<byte>>)
      requires Valid(parts) && number == |parts| + 1
      modifies this`inFlight
      ensures Valid(parts + [part]) && |inFlight| == |old(inFlight)| + 1
    {
      OneMorePart(parts, inFlight, uploaded, completed, number, part);
      inFlight := inFlight[number := part];
    }

    /** Waits for a part to finish: any of them. It may have failed. */
    method Collect(ghost parts: seq<seq<byte>>) returns (r: Result<()>)
      requires Valid(parts)
      modifies this
      ensures r.Ok? ==> Valid(parts) && |inFlight| == |old(inFlight)| - 1
      ensures r == Err(NoPartInFlight) <==> old(inFlight) == map[]
      ensures r.Err? ==> r.error == S3 || r.error == NoPartInFlight
    {
      if inFlight == map[] {
        return Err(NoPartInFlight);
      }
      var n :| n in inFlight;
      if * {
        return Err(S3);
      }
      PartIsIn(parts, inFlight, uploaded, completed, n);
      uploaded := uploaded[n := inFlight[n]];
      completed := completed + [n];
      inFlight := inFlight - {n};
      r := Ok(());
    }

    /** The completed parts, sorted by number, become the object: S3 joins them in the order listed. */
    method Complete(bucket: Bucket, h: Hash, ghost parts: seq<seq<byte>>) returns (ok: bool)
      requires Valid(parts) && inFlight == map[]
      modifies bucket
      ensures bucket.objects == if ok then old(bucket.objects)[h := Concat(parts)] else old(bucket.objects)
      ensures bucket.writes == old(bucket.writes) + 1
    {
      var order := SortByNumber(completed);
      AllIn(parts, uploaded, completed);
      AscendingCounts(order, |parts|);
      var whole: seq<byte> := [];
      for i := 0 to |order|
        invariant whole == Concat(parts[..i])
        invariant bucket.objects == old(bucket.objects) && bucket.writes == old(bucket.writes)
      {
        assert order[i] == i + 1 && order[i] in Elems(order);
        ConcatSnoc(parts[..i], parts[i]);
        assert parts[..i + 1] == parts[..i] + [parts[i]];
        whole := whole + uploaded[order[i]];
      }
      assert |order| == |parts| && parts[..|parts|] == parts;
      assert whole == Concat(parts);
      ok := bucket.Put(h, whole);
    }
  }

  lemma AllIn(parts: seq<seq<byte>>, uploaded: map<nat, seq<byte>>, completed: seq<nat>)
    requires Shared(parts, map[], uploaded, completed)
    ensures Elems(completed) == Numbers(|parts|)
  {
    forall n: nat
      ensures n in Elems(completed) <==> n in Numbers(|parts|)
    {
      assert Numbered(n, |parts|) <==> n in uploaded;
    }
  }

  // ------------------------------------------------------------ putting

  /** All the parts so far are full. */
  ghost predicate AllFull(parts: seq<seq<byte>>, size: nat) {
    forall i :: 0 <= i < |parts| ==> |parts[i]| == size
  }

  lemma LastPart(parts: seq<seq<byte>>, part: seq<byte>, size: nat)
    requires AllFull(parts, size) && 0 < |part| <= size
    ensures Uniform(parts + [part], size, Concat(parts + [part]))
    ensures |part| == size ==> AllFull(parts + [part], size)
  {
  }

  /** Waits until there is room for one more part in flight. */
  method MakeRoom(mp: Multipart, most: nat, ghost parts: seq<seq<byte>>) returns (r: Result<()>)
    requires mp.Valid(parts)
    modifies mp
    ensures r.Ok? ==> mp.Valid(parts) && |mp.inFlight| <= |old(mp.inFlight)| && |mp.inFlight| < most
    ensures r.Err? ==> r.error == S3 || (r.error == NoPartInFlight && most == 0)
  {
    while |mp.inFlight| >= most
      invariant mp.Valid(parts) && |mp.inFlight| <= |old(mp.inFlight)|
      decreases |mp.inFlight|
    {
      var got := mp.Collect(parts);
      if got.Err? {
        return got;
      }
    }
    r := Ok(());
  }

  method CollectAll(mp: Multipart, ghost parts: seq<seq<byte>>) returns (r: Result<()>)
    requires mp.Valid(parts)
    modifies mp
    ensures r.Ok? ==> mp.Valid(parts) && mp.inFlight == map[]
    ensures r.Err? ==> r.error == S3
  {
    while mp.inFlight != map[]
      invariant mp.Valid(parts)
      decreases |mp.inFlight|
    {
      var got := mp.Collect(parts);
      if got.Err? {
        return got;
      }
    }
    r := Ok(());
  }

  /** Reads and sends parts 2 and up; part 1 is in flight. */
  method MultipartBody(mp: Multipart, reader: BodyReader, size: nat, most: nat, ghost first: seq<byte>)
    returns (r: Result<()>, ghost parts: seq<seq<byte>>)
    requires size > 0 && |first| == size && mp.Valid([first]) && |mp.inFlight| <= 1
    requires reader.Valid() && !reader.ended && reader.hashed == first
    modifies mp, reader
    ensures reader.Valid() && reader.breaks == old(reader.breaks)
    ensures r.Ok? ==>
              && reader.ended && reader.hashed == first + old(reader.Left())
              && Uniform(parts, size, reader.hashed) && mp.Valid(parts) && |mp.inFlight| <= most
    ensures r.Err? ==>
              || r.error == S3 || (r.error == ClientBody && reader.breaks)
              || (r.error == NoPartInFlight && most == 0)
  {
    parts := [first];
    var number := 1;
    ghost var whole := first + reader.Left();
    assert Concat([first]) == first by { assert [first][1..] == []; }
    while true
      invariant mp.Valid(parts) && number == |parts| && AllFull(parts, size) && parts != []
      invariant reader.Valid() && !reader.ended && reader.breaks == old(reader.breaks)
      invariant reader.hashed == Concat(parts) && reader.hashed + reader.Left() == whole
      decreases |reader.Left()|
    {
      var room := MakeRoom(mp, most, parts);
      if room.Err? {
        return room, parts;
      }
      ghost var before := reader.hashed;
      var filled := reader.Fill(size);
      if filled.Err? {
        return Err(filled.error), parts;
      }
      var part := filled.value;
      Joined(before, part, reader.Left());
      ConcatSnoc(parts, part);
      if part == [] {
        assert before + [] == before && reader.Left() == [];
        assert Uniform(parts, size, reader.hashed);
        break;
      }
      LastPart(parts, part, size);
      number := number + 1;
      mp.Spawn(number, part, parts);
      parts := parts + [part];
      if |part| < size {
        break;
      }
    }
    return Ok(()), parts;
  }

  /**
   Streams a body into the bucket under `h`; a body shorter than a part that
   outgrows `hint` is refused. Stored or not is all or nothing, and what is stored
   is the body to its very end.
   */
  method PutStreaming(bucket: Bucket, h: Hash, reader: BodyReader, size: nat, most: nat, hint: nat)
    returns (r: Result<(Digest, nat)>, ghost parts: seq<seq<byte>>)
    requires size > 0
    requires reader.Valid() && !reader.ended && reader.hashed == []
    modifies bucket, reader
    ensures reader.Valid() && reader.breaks == old(reader.breaks)
    ensures bucket.objects == if r.Ok? then old(bucket.objects)[h := old(reader.Left())] else old(bucket.objects)
    ensures r.Ok? ==>
              && reader.ended && r.value == (Sha256(old(reader.Left())), |old(reader.Left())|)
              && (if |old(reader.Left())| < size then parts == [old(reader.Left())]
                  else Uniform(parts, size, old(reader.Left())))
    ensures r == Err(BodyOverLimit) <==> Clamp(hint, 1, size) < size && Clamp(hint, 1, size) < |old(reader.Left())|
    ensures r == Err(BodyOverLimit) ==> bucket.writes == old(bucket.writes)
    ensures r == Err(S3) ==> bucket.writes > old(bucket.writes)
    ensures r.Err? ==>
              || r.error == S3 || r.error == BodyOverLimit || (r.error == ClientBody && reader.breaks)
              || (r.error == NoPartInFlight && most == 0)
  {
    parts := [];
    var reserve := Clamp(hint, 1, size);
    var filled := reader.Fill(reserve);
    if filled.Err? {
      return Err(filled.error), parts;
    }
    var first := filled.value;
    if |first| == reserve && reserve < size {
      var more := reader.HasMore();
      if more.Err? {
        return Err(more.error), parts;
      }
      if more.value {
        return Err(BodyOverLimit), parts;
      }
    }
    if |first| < size {
      assert first + [] == first == reader.hashed;
      var put := bucket.Put(h, first);
      if !put {
        return Err(S3), parts;
      }
      var digest, length := reader.Finish();
      return Ok((digest, length)), [first];
    }
    r, parts := PutInParts(bucket, h, reader, first, size, most);
  }

  /** The multipart upload of a body whose first part is full. */
  method PutInParts(bucket: Bucket, h: Hash, reader: BodyReader, first: seq<byte>, size: nat, most: nat)
    returns (r: Result<(Digest, nat)>, ghost parts: seq<seq<byte>>)
    requires size > 0 && |first| == size
    requires reader.Valid() && !reader.ended && reader.hashed == first
    modifies bucket, reader
    ensures reader.Valid() && reader.breaks == old(reader.breaks)
    ensures bucket.objects ==
            if r.Ok? then old(bucket.objects)[h := first + old(reader.Left())] else old(bucket.objects)
    ensures r.Ok? ==>
              && reader.ended && Uniform(parts, size, first + old(reader.Left()))
              && r.value == (Sha256(first + old(reader.Left())), |first + old(reader.Left())|)
    ensures bucket.writes > old(bucket.writes)
    ensures r.Err? ==>
              || r.error == S3 || (r.error == ClientBody && reader.breaks)
              || (r.error == NoPartInFlight && most == 0)
  {
    bucket.writes := bucket.writes + 1;
    if * {
      return Err(S3), [];
    }
    var mp := new Multipart();
    mp.Spawn(1, first, []);
    assert [] + [first] == [first];
    var sent;
    sent, parts := MultipartBody(mp, reader, size, most, first);
    if sent.Err? {
      return Err(sent.error), parts;
    }
    var collected := CollectAll(mp, parts);
    if collected.Err? {
      return Err(collected.error), parts;
    }
    var done := mp.Complete(bucket, h, parts);
    if !done {
      return Err(S3), parts;
    }
    var digest, length := reader.Finish();
    r := Ok((digest, length));
  }

  // ------------------------------------------------------------ an upload

  /** What a body has to be to be stored: a preamble that makes a claim, and a NAR that keeps it. */
  ghost predicate Acceptable<D, P>(z: Zstd<D>, body: seq<byte>, parse: seq<byte> -> Option<P>,
                                   claimOf: P -> Option<Claim>)
  {
    var split := SplitBody(body, parse);
    split.Split? && claimOf(split.preamble).Some? && Honest(z, claimOf(split.preamble).value, split.rest)
  }

  /** Claimed NarSize from which the check runs on its own thread. */
  const OFFLOAD_MIN: int := 4 * 1024 * 1024

  /** Some schedule of task and thread over `nar` ends in `s`. A body that breaks is never read to an end. */
  ghost predicate Streamed<D(!new)>(z: Zstd<D>, claim: Claim, nar: seq<Chunk>, breaks: bool, s: State<Progress<D>>) {
    && Lawful(z) && Reachable(NarCheck(z, claim), nar, s)
    && (s.task.Ended? || (s.task.Broken? && breaks)) && !(breaks && s.task == Ended(Accepted))
  }

  lemma StreamedIsExact<D(!new)>(z: Zstd<D>, claim: Claim, nar: seq<Chunk>, breaks: bool, s: State<Progress<D>>)
    requires Streamed(z, claim, nar, breaks, s)
    ensures s.task == Ended(Accepted) ==> s.forwarded == nar && Honest(z, claim, Concat(nar))
    ensures s.task.Ended? && s.task.outcome.Turned? ==> !Honest(z, claim, Concat(nar))
    ensures !breaks && Honest(z, claim, Concat(nar)) ==> s.task == Ended(Accepted) || s.task == Ended(Failed)
    ensures OutcomeOf(s.task).None? ==> breaks
    ensures s.task == Ended(Failed) ==> s.worker.Dead?
    ensures s.forwarded <= nar && |Concat(s.forwarded)| <= |Concat(nar)|
  {
    var e := NarCheck(z, claim);
    var run :| RunTo(e, nar, run, s);
    OffloadedIsInline(e, nar, run, |run| - 1);
    if s.task.Ended? {
      AcceptedIsHonest(z, claim, nar, run, |run| - 1);
    }
    ConcatOfPrefix(s.forwarded, nar);
  }

  /** How the stream ended for whoever read it to the end; `None` after an error of the body itself. */
  function OutcomeOf(task: Task): Option<Outcome> {
    if task.Ended? then Some(task.outcome) else None
  }

  /**
   What the client is told of an upload that storage gave up on: an error in the
   stream was the check's or, without an outcome, the body's own.
   */
  function Blame<T>(stored: Result<T>, outcome: Option<Outcome>): Result<T> {
    if stored != Err(ClientBody) || outcome.None? then stored
    else if outcome.value.Failed? then Err(CheckFailed) else Err(Rejected)
  }

  /** The NAR's way into the bucket: what the check passed on, then an error in place of its end unless it accepted. */
  method StoreNar(bucket: Bucket, h: Hash, forwarded: seq<Chunk>, outcome: Option<Outcome>,
                  size: nat, most: nat, hint: nat)
    returns (r: Result<(Digest, nat)>)
    requires size > 0
    modifies bucket
    ensures bucket.objects == if r.Ok? then old(bucket.objects)[h := Concat(forwarded)] else old(bucket.objects)
    ensures r.Ok? ==> outcome == Some(Accepted) && r.value == (Sha256(Concat(forwarded)), |Concat(forwarded)|)
    ensures outcome == Some(Accepted) && |Concat(forwarded)| <= hint && most > 0 ==> r.Ok? || r.error == S3
    ensures outcome == Some(Failed) && |Concat(forwarded)| <= hint && most > 0 ==> r == Err(S3) || r == Err(CheckFailed)
    ensures r == Err(CheckFailed) ==> outcome == Some(Failed)
    ensures r == Err(Rejected) ==> outcome.Some? && outcome.value.Turned?
    ensures r == Err(ClientBody) ==> outcome.None?
    ensures r == Err(BodyOverLimit) <==> Clamp(hint, 1, size) < size && Clamp(hint, 1, size) < |Concat(forwarded)|
    ensures r == Err(NoPartInFlight) ==> most == 0
    ensures r == Err(S3) ==> bucket.writes > old(bucket.writes)
  {
    var reader := new BodyReader(forwarded, outcome != Some(Accepted));
    ghost var parts;
    r, parts := PutStreaming(bucket, h, reader, size, most, hint);
    r := Blame(r, outcome);
  }

  /** The check of this NAR was offloaded, and its thread died. */
  ghost predicate ThreadDied<D(!new)>(claim: Claim, nar: seq<byte>,
                                      offloaded: (Claim, seq<Chunk>) -> State<Progress<D>>)
  {
    && claim.size >= 0x40_0000
    && exists chunks :: Concat(chunks) == nar && offloaded(claim, chunks).worker.Dead?
  }

  /**
   What each error of an upload that makes a claim comes from: a NAR that does not keep
   it, a body that breaks off, more of a NAR than the claim leaves room for, a write that
   failed, no room for a part, or a check whose thread died.
   */
  ghost predicate IsCause<D(!new)>(error: Failure, z: Zstd<D>, claim: Claim, nar: seq<byte>, breaks: bool,
                                   offloaded: (Claim, seq<Chunk>) -> State<Progress<D>>,
                                   size: nat, most: nat, wrote: bool)
  {
    match error
    case Rejected => !Honest(z, claim, nar)
    case ClientBody => breaks
    case BodyOverLimit =>
      var limit := if claim.maxCompressed == 0 then 1 else claim.maxCompressed;
      limit < size && limit < |nar|
    case S3 => wrote
    case NoPartInFlight => most == 0
    case CheckFailed => ThreadDied(claim, nar, offloaded)
  }

  /** The check of a NAR, read until it ended or the body broke off: what it passed on, and its outcome. */
  ghost predicate Checked<D>(z: Zstd<D>, claim: Claim, nar: seq<byte>, breaks: bool, died: bool,
                             forwarded: seq<byte>, outcome: Option<Outcome>)
  {
    && |forwarded| <= |nar|
    && match outcome
       case None => breaks
       case Some(Accepted) => !breaks && forwarded == nar && Honest(z, claim, nar)
       case Some(Turned(_)) => !Honest(z, claim, nar)
       case Some(Failed) => died
  }

  /** The check, inline or, if the NAR is large, under the schedule that `offloaded` is the end of. */
  method CheckNar<D(!new)>(z: Zstd<D>, claim: Claim, nar: seq<Chunk>, breaks: bool,
                           offloaded: (Claim, seq<Chunk>) -> State<Progress<D>>)
    returns (outcome: Option<Outcome>, forwarded: seq<Chunk>)
    requires Lawful(z) && Streamed(z, claim, nar, breaks, offloaded(claim, nar))
    ensures var died := ThreadDied(claim, Concat(nar), offloaded);
            Checked(z, claim, Concat(nar), breaks, died, Concat(forwarded), outcome)
  {
    if claim.size >= OFFLOAD_MIN {
      var end := offloaded(claim, nar);
      StreamedIsExact(z, claim, nar, breaks, end);
      outcome, forwarded := OutcomeOf(end.task), end.forwarded;
      assert end.task == Ended(Failed) ==> offloaded(claim, nar).worker.Dead?;
    } else {
      var inline;
      inline, forwarded := Inline(z, claim, nar);
      CheckIsExact(z, claim, nar);
      ConcatOfPrefix(forwarded, nar);
      outcome := if breaks && forwarded == nar then None else Some(inline);
    }
  }

  /** The NAR after its preamble: checked on its way into the bucket. */
  method StoreClaimed<D(!new)>(bucket: Bucket, h: Hash, nar: seq<Chunk>, breaks: bool, z: Zstd<D>, claim: Claim,
                               offloaded: (Claim, seq<Chunk>) -> State<Progress<D>>, size: nat, most: nat)
    returns (r: Result<(Digest, nat)>)
    requires Lawful(z) && size > 0 && Streamed(z, claim, nar, breaks, offloaded(claim, nar))
    modifies bucket
    ensures bucket.objects == if r.Ok? then old(bucket.objects)[h := Concat(nar)] else old(bucket.objects)
    ensures r.Ok? ==>
              !breaks && Honest(z, claim, Concat(nar)) && r.value == (Sha256(Concat(nar)), |Concat(nar)|)
    ensures r.Err? ==>
              IsCause(r.error, z, claim, Concat(nar), breaks, offloaded, size, most, bucket.writes > old(bucket.writes))
    ensures !breaks && Honest(z, claim, Concat(nar)) && most > 0 ==>
              r.Ok? || r.error == S3 || r.error == CheckFailed
  {
    var outcome, forwarded := CheckNar(z, claim, nar, breaks, offloaded);
    r := StoreNar(bucket, h, forwarded, outcome, size, most, claim.maxCompressed);
  }

  /**
   An upload up to its row: the preamble split off, and the NAR stored if it keeps the
   preamble's claim. `claimOf` is the preamble's own validation.
   */
  method StoreUpload<D(!new), P>(bucket: Bucket, h: Hash, chunks: seq<Chunk>, breaks: bool, z: Zstd<D>,
                                 parse: seq<byte> -> Option<P>, claimOf: P -> Option<Claim>,
                                 offloaded: (Claim, seq<Chunk>) -> State<Progress<D>>, size: nat, most: nat)
    returns (r: Result<(Digest, nat)>)
    requires Lawful(z) && size > 0
    requires forall claim, nar :: Streamed(z, claim, nar, breaks, offloaded(claim, nar))
    modifies bucket
    ensures r.Ok? ==>
              && !breaks && Acceptable(z, Concat(chunks), parse, claimOf)
              && var nar := SplitBody(Concat(chunks), parse).rest;
                 bucket.objects == old(bucket.objects)[h := nar] && r.value == (Sha256(nar), |nar|)
    ensures r.Err? ==> bucket.objects == old(bucket.objects)
    ensures var split := SplitBody(Concat(chunks), parse);
            if split.Split? && claimOf(split.preamble).Some? then
              r.Err? ==> IsCause(r.error, z, claimOf(split.preamble).value, split.rest, breaks, offloaded, size, most,
                                 bucket.writes > old(bucket.writes))
            else
              r == Err(Rejected) && bucket.writes == old(bucket.writes)
    ensures !breaks && Acceptable(z, Concat(chunks), parse, claimOf) && most > 0 ==>
              r.Ok? || r.error == S3 || r.error == CheckFailed
  {
    var split, used := ReadPreamble(chunks, parse);
    if !split.Split? {
      return Err(Rejected);
    }
    var claimed := claimOf(split.preamble);
    if claimed.None? {
      return Err(Rejected);
    }
    var nar := [split.rest] + chunks[used..];
    assert Concat(nar) == split.rest + Concat(chunks[used..]) by { assert nar[1..] == chunks[used..]; }
    r := StoreClaimed(bucket, h, nar, breaks, z, claimed.value, offloaded, size, most);
  }
}
