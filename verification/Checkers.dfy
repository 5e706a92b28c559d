/**
 The NarHash/NarSize check over a compressed body fed chunk by chunk: it passes
 exactly the bodies that match their claim, however they are cut into chunks.
 */
module Checkers {
  import opened Basics

  /** Decompressed bytes per decoder call. */
  const SCRATCH: nat := 128 * 1024

  datatype Refusal =
    | CompressedTooLong
    | NotZstd
    | LargerThanClaimed
    | EndedMidFrame
    | WrongSize(size: nat)
    | WrongHash(hash: Digest)

  datatype Verdict<+T> = Passed(value: T) | Refused(reason: Refusal)

  /** `maxCompressed` is zstd's worst case for `size`, plus slack. */
  datatype Claim = Claim(hash: Digest, size: int, maxCompressed: nat)

  // ------------------------------------------------------------ the decoder

  /** What one decoder call did. A hint of zero says a frame ended here. */
  datatype Call<D> = Call(decoder: D, consumed: nat, out: seq<byte>, hint: nat)

  /** What a run of compressed bytes stands for: its content, and whether it stops at a frame's end. */
  datatype Decoded = Decoded(content: seq<byte>, frameEnd: bool)

  /** A streaming decoder, and what it is a decoder of. */
  datatype Zstd<!D> = Zstd(
    start: D,
    run: (D, seq<byte>) -> Option<Call<D>>,
    fed: D -> seq<byte>,
    got: D -> seq<byte>,
    meaning: seq<byte> -> Option<Decoded>)

  /** Bytes decode to more as they grow, and stay malformed once they are. */
  ghost predicate MeaningGrows<D>(z: Zstd<D>) {
    && z.meaning([]) == Some(Decoded([], false))
    && forall a, b :: z.meaning(a + b).Some? ==>
                        z.meaning(a).Some? && z.meaning(a).value.content <= z.meaning(a + b).value.content
  }

  /** A call's result, as zstd documents streaming decompression. */
  ghost predicate CallIsLawful<D>(z: Zstd<D>, d: D, src: seq<byte>) {
    match z.run(d, src)
    case None => z.meaning(z.fed(d) + src).None?
    case Some(c) =>
      && c.consumed <= |src| && |c.out| <= SCRATCH
      && (src != [] ==> c.consumed > 0 || c.out != [])
      && z.fed(c.decoder) == z.fed(d) + src[..c.consumed]
      && z.got(c.decoder) == z.got(d) + c.out
      && var m := z.meaning(z.fed(c.decoder));
         && m.Some? && z.got(c.decoder) <= m.value.content
         && (c.consumed == |src| && |c.out| < SCRATCH ==> z.got(c.decoder) == m.value.content)
         && (c.consumed > 0 || c.out != [] ==>
               (c.hint == 0 <==> m.value.frameEnd && z.got(c.decoder) == m.value.content))
  }

  ghost predicate Lawful<D(!new)>(z: Zstd<D>) {
    && MeaningGrows(z)
    && z.fed(z.start) == [] && z.got(z.start) == []
    && forall d, src :: CallIsLawful(z, d, src)
  }

  /** A codec that stores bytes as they are; it obeys the law, so the law can be obeyed. */
  function Stored(): Zstd<seq<byte>> {
    Zstd([],
         (d: seq<byte>, src: seq<byte>) =>
           var n := if |src| < SCRATCH then |src| else SCRATCH;
           Some(Call(d + src[..n], n, src[..n], if d + src[..n] == [] then 1 else 0)),
         d => d, d => d,
         bytes => Some(Decoded(bytes, bytes != [])))
  }

  lemma StoredIsLawful()
    ensures Lawful(Stored())
  {
    var z := Stored();
    forall d, src
      ensures CallIsLawful(z, d, src)
    {
    }
    assert MeaningGrows(z);
  }

  // ------------------------------------------------------------ the check as a function

  datatype Progress<D> = Progress(decoder: D, nar: seq<byte>, compressed: nat, frameDone: bool)

  function Begin<D>(z: Zstd<D>): Progress<D> {
    Progress(z.start, [], 0, false)
  }

  /** One decoder call's effect on the check. */
  function Absorb<D>(p: Progress<D>, c: Call<D>): Progress<D> {
    p.(decoder := c.decoder, nar := p.nar + c.out,
       frameDone := if c.consumed > 0 || c.out != [] then c.hint == 0 else p.frameDone)
  }

  /** The decoder run over `src` until it is consumed and nothing more comes out. */
  ghost function Drain<D(!new)>(z: Zstd<D>, claim: Claim, p: Progress<D>, src: seq<byte>): Verdict<Progress<D>>
    requires Lawful(z)
    decreases |src| + (if claim.size < |p.nar| then 0 else claim.size - |p.nar|)
  {
    assert CallIsLawful(z, p.decoder, src);
    match z.run(p.decoder, src)
    case None => Refused(NotZstd)
    case Some(c) =>
      var next := Absorb(p, c);
      if |next.nar| > claim.size then Refused(LargerThanClaimed)
      else if c.consumed == |src| && |c.out| < SCRATCH then Passed(next)
      else Drain(z, claim, next, src[c.consumed..])
  }

  /** Input counts before it is decoded: frames with no content must not pass for free. */
  ghost function Feed<D(!new)>(z: Zstd<D>, claim: Claim, p: Progress<D>, chunk: seq<byte>): Verdict<Progress<D>>
    requires Lawful(z)
  {
    var counted := p.(compressed := p.compressed + |chunk|);
    if counted.compressed > claim.maxCompressed then Refused(CompressedTooLong)
    else Drain(z, claim, counted, chunk)
  }

  function Finish<D>(claim: Claim, p: Progress<D>): Verdict<()> {
    if !p.frameDone then Refused(EndedMidFrame)
    else if |p.nar| != claim.size then Refused(WrongSize(|p.nar|))
    else if Sha256(p.nar) != claim.hash then Refused(WrongHash(Sha256(p.nar)))
    else Passed(())
  }

  ghost function Check<D(!new)>(z: Zstd<D>, claim: Claim, p: Progress<D>, chunks: seq<seq<byte>>): Verdict<()>
    requires Lawful(z)
    decreases |chunks|
  {
    if chunks == [] then Finish(claim, p)
    else match Feed(z, claim, p, chunks[0])
      case Refused(reason) => Refused(reason)
      case Passed(next) => Check(z, claim, next, chunks[1..])
  }

  // ------------------------------------------------------------ what it checks

  /** The body is a whole number of frames holding the claimed bytes, within the size bound. */
  ghost predicate Honest<D>(z: Zstd<D>, claim: Claim, body: seq<byte>) {
    && |body| <= claim.maxCompressed
    && var m := z.meaning(body);
       && m.Some? && m.value.frameEnd
       && |m.value.content| == claim.size && Sha256(m.value.content) == claim.hash
  }

  /** The check has read `body` and knows what it decodes to. */
  ghost predicate Tracks<D>(z: Zstd<D>, p: Progress<D>, body: seq<byte>) {
    && p.compressed == |body| && z.fed(p.decoder) == body && z.got(p.decoder) == p.nar
    && var m := z.meaning(body);
       m.Some? && p.nar == m.value.content && (p.frameDone <==> m.value.frameEnd)
  }

  /** No continuation of `body` can be honest. */
  ghost predicate Hopeless<D>(z: Zstd<D>, claim: Claim, body: seq<byte>) {
    forall rest: seq<byte> :: !Honest(z, claim, body + rest)
  }

  /** What a refusal says of a body is so. */
  ghost predicate Deserved<D>(z: Zstd<D>, claim: Claim, body: seq<byte>, reason: Refusal) {
    var m := z.meaning(body);
    match reason
    case CompressedTooLong => |body| > claim.maxCompressed
    case NotZstd => m.None?
    case LargerThanClaimed => exists n | 0 <= n <= |body| :: HoldsMore(z, claim, body[..n])
    case EndedMidFrame => m.Some? && !m.value.frameEnd
    case WrongSize(size) => m.Some? && m.value.frameEnd && |m.value.content| == size != claim.size
    case WrongHash(hash) =>
      && m.Some? && m.value.frameEnd && |m.value.content| == claim.size
      && Sha256(m.value.content) == hash != claim.hash
  }

  ghost predicate HoldsMore<D>(z: Zstd<D>, claim: Claim, body: seq<byte>) {
    var m := z.meaning(body);
    m.Some? && |m.value.content| > claim.size
  }

  /** A refusal that does not wait for the end. */
  predicate Early(reason: Refusal) {
    reason.CompressedTooLong? || reason.NotZstd? || reason.LargerThanClaimed?
  }

  lemma StillDeserved<D>(z: Zstd<D>, claim: Claim, body: seq<byte>, rest: seq<byte>, reason: Refusal)
    requires MeaningGrows(z) && Early(reason) && Deserved(z, claim, body, reason)
    ensures Deserved(z, claim, body + rest, reason)
  {
    if reason.LargerThanClaimed? {
      var n :| 0 <= n <= |body| && HoldsMore(z, claim, body[..n]);
      assert (body + rest)[..n] == body[..n];
    }
  }

  /**
   In the middle of a chunk: the frame flag is right unless content is still
   waiting to come out, in which case another call follows that sets it.
   */
  ghost predicate MidChunk<D>(z: Zstd<D>, p: Progress<D>) {
    && z.got(p.decoder) == p.nar
    && var m := z.meaning(z.fed(p.decoder));
       && m.Some? && p.nar <= m.value.content
       && (p.frameDone <==> m.value.frameEnd && p.nar == m.value.content)
  }

  lemma {:induction false} DrainMeans<D(!new)>(z: Zstd<D>, claim: Claim, p: Progress<D>, src: seq<byte>,
                                               body: seq<byte>)
    requires Lawful(z) && MidChunk(z, p)
    requires body == z.fed(p.decoder) + src
    ensures var r := Drain(z, claim, p, src);
            match r
            case Passed(next) => MidChunk(z, next) && z.fed(next.decoder) == body && next.compressed == p.compressed
                                 && next.nar == z.meaning(body).value.content
            case Refused(_) => Hopeless(z, claim, body)
    ensures var r := Drain(z, claim, p, src);
            r.Refused? ==> Early(r.reason) && Deserved(z, claim, body, r.reason)
    decreases |src| + (if claim.size < |p.nar| then 0 else claim.size - |p.nar|)
  {
    assert CallIsLawful(z, p.decoder, src);
    match z.run(p.decoder, src) {
      case None =>
        forall rest: seq<byte> | true
          ensures !Honest(z, claim, body + rest)
        {
        }
      case Some(c) =>
        var next := Absorb(p, c);
        var read, left := z.fed(c.decoder), src[c.consumed..];
        assert body == read + left;
        if |next.nar| > claim.size {
          forall rest: seq<byte> | true
            ensures !Honest(z, claim, body + rest)
          {
            assert body + rest == read + (left + rest);
          }
          assert body[..|read|] == read && HoldsMore(z, claim, read);
        } else if c.consumed == |src| && |c.out| < SCRATCH {
          assert read == body;
          assert c.consumed == 0 && c.out == [] ==> read == z.fed(p.decoder) && next.nar == p.nar;
        } else {
          DrainMeans(z, claim, next, left, body);
        }
    }
  }

  lemma FeedMeans<D(!new)>(z: Zstd<D>, claim: Claim, p: Progress<D>, chunk: seq<byte>, body: seq<byte>)
    requires Lawful(z) && Tracks(z, p, body)
    ensures match Feed(z, claim, p, chunk)
            case Passed(next) => Tracks(z, next, body + chunk) && |body + chunk| <= claim.maxCompressed
            case Refused(_) => Hopeless(z, claim, body + chunk)
    ensures var r := Feed(z, claim, p, chunk);
            r.Refused? ==> Early(r.reason) && Deserved(z, claim, body + chunk, r.reason)
  {
    var counted := p.(compressed := p.compressed + |chunk|);
    if counted.compressed <= claim.maxCompressed {
      DrainMeans(z, claim, counted, chunk, body + chunk);
    }
  }

  lemma {:induction false} CheckMeans<D(!new)>(z: Zstd<D>, claim: Claim, p: Progress<D>,
                                               chunks: seq<seq<byte>>, body: seq<byte>)
    requires Lawful(z) && Tracks(z, p, body) && |body| <= claim.maxCompressed
    ensures var r := Check(z, claim, p, chunks);
            && (r.Passed? <==> Honest(z, claim, body + Concat(chunks)))
            && (r.Refused? ==> Deserved(z, claim, body + Concat(chunks), r.reason))
    decreases |chunks|
  {
    if chunks == [] {
      assert body + Concat(chunks) == body;
    } else {
      FeedMeans(z, claim, p, chunks[0], body);
      assert body + Concat(chunks) == body + chunks[0] + Concat(chunks[1..]);
      match Feed(z, claim, p, chunks[0]) {
        case Refused(reason) => StillDeserved(z, claim, body + chunks[0], Concat(chunks[1..]), reason);
        case Passed(next) => CheckMeans(z, claim, next, chunks[1..], body + chunks[0]);
      }
    }
  }

  /** The check passes exactly the honest bodies, whatever the chunking, and refuses the others with cause. */
  lemma CheckIsExact<D(!new)>(z: Zstd<D>, claim: Claim, chunks: seq<seq<byte>>)
    requires Lawful(z)
    ensures var r := Check(z, claim, Begin(z), chunks);
            && (r.Passed? <==> Honest(z, claim, Concat(chunks)))
            && (r.Refused? ==> Deserved(z, claim, Concat(chunks), r.reason))
  {
    CheckMeans(z, claim, Begin(z), chunks, []);
    assert [] + Concat(chunks) == Concat(chunks);
  }

  // ------------------------------------------------------------ the check as the server runs it

  class Checker<D(!new)> {
    const z: Zstd<D>
    const claim: Claim
    var decoder: D
    var hashed: seq<byte>
    var narSize: nat
    var compressed: nat
    var frameDone: bool

    /** Holds until the check refuses. */
    ghost predicate Valid()
      reads this
    {
      Lawful(z) && narSize == |hashed|
    }

    ghost function View(): Progress<D>
      reads this
    {
      Progress(decoder, hashed, compressed, frameDone)
    }

    constructor (z: Zstd<D>, claim: Claim)
      requires Lawful(z)
      ensures Valid() && this.z == z && this.claim == claim && View() == Begin(z)
    {
      this.z, this.claim := z, claim;
      decoder, hashed, narSize, compressed, frameDone := z.start, [], 0, 0, false;
    }

    method FeedChunk(chunk: seq<byte>) returns (r: Verdict<()>)
      requires Valid()
      modifies this
      ensures match Feed(z, claim, old(View()), chunk)
              case Passed(next) => r == Passed(()) && Valid() && View() == next
              case Refused(reason) => r == Refused(reason)
    {
      compressed := compressed + |chunk|;
      if compressed > claim.maxCompressed {
        return Refused(CompressedTooLong);
      }
      r := DrainChunk(chunk);
    }

    method DrainChunk(chunk: seq<byte>) returns (r: Verdict<()>)
      requires Valid()
      modifies this
      ensures match Drain(z, claim, old(View()), chunk)
              case Passed(next) => r == Passed(()) && Valid() && View() == next
              case Refused(reason) => r == Refused(reason)
    {
      ghost var whole := Drain(z, claim, View(), chunk);
      var pos: nat := 0;
      assert chunk[0..] == chunk;
      while true
        invariant pos <= |chunk| && Valid()
        invariant Drain(z, claim, View(), chunk[pos..]) == whole
        decreases |chunk| - pos + (if claim.size < narSize then 0 else claim.size - narSize)
      {
        ghost var before := View();
        var src := chunk[pos..];
        assert CallIsLawful(z, decoder, src);
        var call := z.run(decoder, src);
        if call.None? {
          assert whole == Refused(NotZstd);
          return Refused(NotZstd);
        }
        var c := call.value;
        ghost var next := Absorb(before, c);
        decoder, narSize := c.decoder, narSize + |c.out|;
        if narSize > claim.size {
          assert whole == Refused(LargerThanClaimed);
          return Refused(LargerThanClaimed);
        }
        hashed := hashed + c.out;
        if c.consumed > 0 || c.out != [] {
          frameDone := c.hint == 0;
        }
        assert View() == next;
        pos := pos + c.consumed;
        assert src[c.consumed..] == chunk[pos..];
        if pos == |chunk| && |c.out| < SCRATCH {
          assert whole == Passed(next);
          return Passed(());
        }
      }
    }

    method FinishCheck() returns (r: Verdict<()>)
      requires Valid()
      ensures r == Finish(claim, View())
    {
      if !frameDone {
        return Refused(EndedMidFrame);
      }
      if narSize != claim.size {
        return Refused(WrongSize(narSize));
      }
      var hash := Sha256(hashed);
      if hash != claim.hash {
        return Refused(WrongHash(hash));
      }
      return Passed(());
    }
  }
}
