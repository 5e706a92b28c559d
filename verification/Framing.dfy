/**
 An upload body is a length-prefixed preamble and then the compressed NAR. The
 server splits the two as chunks arrive; the split depends on the bytes alone.
 */
module Framing {
  import opened Basics

  const MAX_PREAMBLE: nat := 1024 * 1024

  const U32: nat := 0x1_0000_0000

  // ------------------------------------------------------------ the length prefix

  /** `len as u32`, little end first: a longer length wraps. */
  function Prefix(len: nat): (p: seq<byte>)
    ensures |p| == 4
  {
    var n := len % U32;
    [(n % 256) as byte, (n / 256 % 256) as byte, (n / 65536 % 256) as byte, (n / 16777216) as byte]
  }

  function ReadPrefix(p: seq<byte>): nat
    requires |p| >= 4
  {
    p[0] as nat + 256 * p[1] as nat + 65536 * p[2] as nat + 16777216 * p[3] as nat
  }

  function ToFramed(json: seq<byte>): seq<byte> {
    Prefix(|json|) + json
  }

  datatype End = NeedMore | TooLong(len: nat) | EndsAt(end: nat)

  /** Where the preamble ends, as soon as all of it is there; too long a one is refused at once. */
  function PreambleEnd(buf: seq<byte>, max: nat): (r: End)
    ensures r.EndsAt? ==> 4 <= r.end <= |buf|
  {
    if |buf| < 4 then NeedMore
    else
      var len := ReadPrefix(buf);
      if len > max then TooLong(len)
      else if |buf| - 4 >= len then EndsAt(4 + len)
      else NeedMore
  }

  /** The prefix is the length, little end first, and is read as what was written. */
  lemma PrefixRoundTrip(len: nat)
    ensures ReadPrefix(Prefix(len)) == len % U32
    ensures var p := Prefix(len);
            p[0] as nat + 0x100 * p[1] as nat + 0x1_0000 * p[2] as nat + 0x100_0000 * p[3] as nat == len % 0x1_0000_0000
  {
    var n := len % U32;
    assert n / 65536 == n / 256 / 256 && n / 16777216 == n / 65536 / 256;
  }

  /**
   What the client framed is found again exactly when it is within the limit. A
   longer one is refused as too long, as far as its length fits the prefix; past
   that the length wraps, and the preamble is not found where it ends.
   */
  lemma FramedIsFound(json: seq<byte>, nar: seq<byte>, max: nat)
    requires max < U32
    ensures PreambleEnd(ToFramed(json) + nar, max) == EndsAt(|ToFramed(json)|) <==> |json| <= max
    ensures max < |json| < U32 ==> PreambleEnd(ToFramed(json) + nar, max) == TooLong(|json|)
  {
    PrefixRoundTrip(|json|);
    var buf := ToFramed(json) + nar;
    SamePrefix(Prefix(|json|), json + nar, buf);
    var len := |json| % U32;
    assert ReadPrefix(buf) == len;
    assert |json| < U32 ==> len == |json|;
    assert |json| >= U32 ==> len < |json|;
  }

  lemma SamePrefix(p: seq<byte>, rest: seq<byte>, buf: seq<byte>)
    requires |p| == 4 && buf == p + rest
    ensures ReadPrefix(buf) == ReadPrefix(p)
  {
    assert buf[0] == p[0] && buf[1] == p[1] && buf[2] == p[2] && buf[3] == p[3];
  }

  // ------------------------------------------------------------ the split

  /** What a body splits into; `parse` reads a preamble's JSON. */
  datatype Split<+P> = Split(preamble: P, rest: seq<byte>) | Incomplete | Implausible | Malformed

  function SplitBody<P>(body: seq<byte>, parse: seq<byte> -> Option<P>): Split<P> {
    match PreambleEnd(body, MAX_PREAMBLE)
    case NeedMore => Incomplete
    case TooLong(_) => Implausible
    case EndsAt(end) =>
      match parse(body[4..end])
      case None => Malformed
      case Some(p) => Split(p, body[end..])
  }

  /** Bytes that come later change nothing once the split is known, but go to the NAR. */
  lemma SplitIsSettled<P>(head: seq<byte>, more: seq<byte>, parse: seq<byte> -> Option<P>)
    requires !SplitBody(head, parse).Incomplete?
    ensures SplitBody(head + more, parse) ==
            match SplitBody(head, parse)
            case Split(p, rest) => Split(p, rest + more)
            case other => other
  {
    var end := PreambleEnd(head, MAX_PREAMBLE);
    assert PreambleEnd(head + more, MAX_PREAMBLE) == end;
    if end.EndsAt? {
      assert (head + more)[4..end.end] == head[4..end.end];
      assert (head + more)[end.end..] == head[end.end..] + more;
    }
  }

  /** A preamble of up to a mebibyte comes back as sent, with the NAR after it; a longer one is implausible. */
  lemma SplitRoundTrip<P>(json: seq<byte>, nar: seq<byte>, parse: seq<byte> -> Option<P>)
    requires parse(json).Some?
    ensures |json| <= 0x10_0000 ==> SplitBody(ToFramed(json) + nar, parse) == Split(parse(json).value, nar)
    ensures 0x10_0000 < |json| < 0x1_0000_0000 ==> SplitBody(ToFramed(json) + nar, parse).Implausible?
  {
    FramedIsFound(json, nar, MAX_PREAMBLE);
    var buf := ToFramed(json) + nar;
    assert buf[4..4 + |json|] == json;
    assert buf[4 + |json|..] == nar;
  }

  /**
   Reads chunks until the preamble is whole. `head` keeps what came with it of the
   NAR; the chunks from `used` on have not been read.
   */
  method ReadPreamble<P>(chunks: seq<seq<byte>>, parse: seq<byte> -> Option<P>)
    returns (r: Split<P>, used: nat)
    ensures used <= |chunks|
    ensures SplitBody(Concat(chunks), parse) ==
            match r
            case Split(p, head) => Split(p, head + Concat(chunks[used..]))
            case other => other
  {
    var head: seq<byte> := [];
    used := 0;
    assert chunks[0..] == chunks;
    while true
      invariant used <= |chunks|
      invariant head + Concat(chunks[used..]) == Concat(chunks)
      decreases |chunks| - used
    {
      r := SplitBody(head, parse);
      if !r.Incomplete? {
        SplitIsSettled(head, Concat(chunks[used..]), parse);
        return;
      }
      if used == |chunks| {
        assert head == Concat(chunks);
        return;
      }
      assert chunks[used..][1..] == chunks[used + 1..];
      assert chunks[used..][0] == chunks[used];
      Joined(head, chunks[used], Concat(chunks[used + 1..]));
      head, used := head + chunks[used], used + 1;
    }
  }
}
