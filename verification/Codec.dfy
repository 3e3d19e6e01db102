/** Payload framing of the four codec families the re-packetizer understands. */
module Codec {
  import opened Words

  const RTP_PCMU := 0
  const RTP_GSM := 3
  const RTP_G723 := 4
  const RTP_PCMA := 8
  const RTP_G729 := 18

  const NSAMPLES_UNKNOWN := -1

  /** Length in bytes of the G.723 frame that starts with this byte. */
  function G723Len(ch: byte): (n: int)
    ensures n == NSAMPLES_UNKNOWN || n >= 4
  {
    match ch % 4
    case 2 => 4
    case 0 => 24
    case 1 => 20
    case _ => NSAMPLES_UNKNOWN
  }

  /** Samples in the run of G.723 frames from `pos` on; the last frame may be cut short. */
  function G723From(data: seq<byte>, pos: nat): (samples: int)
    ensures samples >= 0 || samples == NSAMPLES_UNKNOWN
    decreases |data| - pos
  {
    if pos >= |data| then 0 else
    var n := G723Len(data[pos]);
    if n == NSAMPLES_UNKNOWN then NSAMPLES_UNKNOWN else
    var rest := G723From(data, pos + n);
    if rest == NSAMPLES_UNKNOWN then NSAMPLES_UNKNOWN else 240 + rest
  }

  function G723Samples(data: seq<byte>): int {
    G723From(data, 0)
  }

  /** Samples carried by a payload of the given type. */
  function CalcSamples(pt: int, data: seq<byte>): (samples: int)
    ensures samples >= 0 || samples == NSAMPLES_UNKNOWN
  {
    if pt == RTP_PCMU || pt == RTP_PCMA then |data|
    else if pt == RTP_G729 then |data| / 10 * 80 + (if |data| % 10 == 0 then 0 else 80)
    else if pt == RTP_GSM then 160 * (|data| / 33)
    else if pt == RTP_G723 then G723Samples(data)
    else NSAMPLES_UNKNOWN
  }

  /** The frames of the G.723.1 coder: its two rates and the silence frame. */
  datatype Rate = High | Low | Silence

  /** What the first byte of such a frame says about its rate, and its length in bytes. */
  function RateBits(r: Rate): nat {
    match r case High => 0 case Low => 1 case Silence => 2
  }

  function RateLength(r: Rate): nat {
    match r case High => 24 case Low => 20 case Silence => 4
  }

  /** The bytes are one frame of the codec. */
  ghost predicate IsFrame(pt: int, f: seq<byte>) {
    if pt == RTP_PCMU || pt == RTP_PCMA then |f| == 1
    else if pt == RTP_G729 then |f| == 10
    else if pt == RTP_GSM then |f| == 33
    else if pt == RTP_G723 then exists r: Rate :: |f| == RateLength(r) && f[0] % 4 == RateBits(r)
    else false
  }

  function Joined(frames: seq<seq<byte>>): seq<byte> {
    if frames == [] then [] else frames[0] + Joined(frames[1..])
  }

  lemma FrameAhead(f: seq<byte>, rest: seq<byte>)
    requires IsFrame(RTP_G723, f)
    ensures
      var n := G723Samples(rest);
      G723Samples(f + rest) == if n == NSAMPLES_UNKNOWN then n else 240 + n
  {
    var data := f + rest;
    assert data[0] == f[0] && G723Len(data[0]) == |f| && data[|f|..] == rest;
    G723Suffix(data, |f|, |f|);
  }

  /** A payload that consists of whole frames counts one sample a frame for the two PCM codecs,
      80 for G.729, 160 for GSM and 240 for G.723.1. */
  lemma {:induction false} FramesCount(pt: int, frames: seq<seq<byte>>)
    requires pt == RTP_PCMU || pt == RTP_PCMA || pt == RTP_G729 || pt == RTP_GSM || pt == RTP_G723
    requires forall k :: 0 <= k < |frames| ==> IsFrame(pt, frames[k])
    ensures CalcSamples(pt, Joined(frames)) ==
            |frames| * (if pt == RTP_G729 then 80 else if pt == RTP_GSM then 160 else if pt == RTP_G723 then 240 else 1)
    ensures CalcSamples(pt, Joined(frames)) == |frames| * FrameSamples(pt)
    ensures pt == RTP_G729 ==> |Joined(frames)| == 10 * |frames|
    ensures pt == RTP_GSM ==> |Joined(frames)| == 33 * |frames|
  {
    if frames != [] {
      FramesCount(pt, frames[1..]);
      assert IsFrame(pt, frames[0]);
      if pt == RTP_G723 { FrameAhead(frames[0], Joined(frames[1..])); }
    }
  }

  lemma Tens(k: nat, m: nat)
    requires m < 10
    ensures (10 * k + m) / 10 == k && (10 * k + m) % 10 == m
  {
  }

  /** A last frame of G.729 that is short, as silence is, counts like any other. */
  lemma ShortFrameCounts(frames: seq<seq<byte>>, last: seq<byte>)
    requires (forall k :: 0 <= k < |frames| ==> IsFrame(RTP_G729, frames[k])) && 0 < |last| < 10
    ensures CalcSamples(RTP_G729, Joined(frames) + last) == 80 * |frames| + 80
  {
    hide Joined, IsFrame;
    FramesCount(RTP_G729, frames);
    assert |Joined(frames) + last| == 10 * |frames| + |last|;
    Tens(|frames|, |last|);
  }

  /** A G.723.1 payload is unknown from the first byte on that starts no frame. */
  lemma {:induction false} UnknownFrame(frames: seq<seq<byte>>, last: seq<byte>)
    requires forall k :: 0 <= k < |frames| ==> IsFrame(RTP_G723, frames[k])
    requires last != [] && last[0] % 4 == 3
    ensures CalcSamples(RTP_G723, Joined(frames) + last) == NSAMPLES_UNKNOWN
    decreases |frames|
  {
    hide IsFrame, G723From;
    if frames == [] {
      assert Joined(frames) + last == last;
      StrangeFrame(last);
    } else {
      var rest := Joined(frames[1..]);
      UnknownFrame(frames[1..], last);
      assert Joined(frames) + last == frames[0] + (rest + last);
      FrameAhead(frames[0], rest + last);
    }
  }

  lemma StrangeFrame(data: seq<byte>)
    requires data != [] && data[0] % 4 == 3
    ensures G723Samples(data) == NSAMPLES_UNKNOWN
  {
  }

  /** Samples in one codec frame. */
  function FrameSamples(pt: int): (n: nat)
    ensures n > 0
  {
    if pt == RTP_G729 then 80 else if pt == RTP_GSM then 160 else if pt == RTP_G723 then 240 else 1
  }

  /** The number of frames needed for at least `min` samples. */
  function FramesFor(min: nat, frame: nat): (n: nat)
    requires frame > 0
  {
    min / frame + (if min % frame == 0 then 0 else 1)
  }

  lemma FramesForBounds(min: nat, frame: nat)
    requires frame > 0
    ensures min <= FramesFor(min, frame) * frame < min + frame
    ensures min > 0 ==> FramesFor(min, frame) > 0
  {
    assert min == min / frame * frame + min % frame;
    if min % frame != 0 {
      assert FramesFor(min, frame) * frame == min / frame * frame + frame;
    }
  }

  /** The head of a packet: all of it, or a prefix of so many bytes and samples. */
  datatype Chunk = Whole | Part(bytes: nat, nsamples: nat)

  /** Byte position `k` G.723 frames after `pos`. */
  function G723Pos(data: seq<byte>, pos: nat, k: nat): nat
    decreases k
  {
    if k == 0 || pos >= |data| then pos else
    var n := G723Len(data[pos]);
    if n == NSAMPLES_UNKNOWN then pos else G723Pos(data, pos + n, k - 1)
  }

  /** The shortest frame-aligned head with at least `min` samples. */
  function FirstChunk(pt: int, data: seq<byte>, nsamples: int, min: nat): Chunk {
    if pt == RTP_PCMU || pt == RTP_PCMA then Part(min, min)
    else if pt == RTP_G729 then
      var frames := FramesFor(min, 80);
      if frames * 80 >= nsamples then Whole else Part(frames * 10, frames * 80)
    else if pt == RTP_GSM then
      var frames := FramesFor(min, 160);
      if frames * 160 >= nsamples then Whole else Part(frames * 33, frames * 160)
    else if pt == RTP_G723 then
      var frames := FramesFor(min, 240);
      if frames * 240 >= nsamples then Whole else
      var pos := G723Pos(data, 0, frames);
      Part(if pos < |data| then pos else |data|, frames * 240)
    else Whole
  }

  /** After `k` of the frames the walk is still inside the data, with the rest to go. */
  lemma {:induction false} G723Walk(data: seq<byte>, pos: nat, k: nat)
    requires 240 * k < G723From(data, pos)
    ensures pos <= G723Pos(data, pos, k) < |data| && (k > 0 ==> pos < G723Pos(data, pos, k))
    ensures G723From(data, G723Pos(data, pos, k)) == G723From(data, pos) - 240 * k
    decreases k
  {
    if k > 0 {
      G723Walk(data, pos + G723Len(data[pos]), k - 1);
    }
  }

  /** The samples from a position on depend only on the bytes from there on. */
  lemma {:induction false} G723Suffix(data: seq<byte>, cut: nat, pos: nat)
    requires cut <= pos && cut <= |data|
    ensures G723From(data[cut..], pos - cut) == G723From(data, pos)
    decreases |data| - pos
  {
    if pos < |data| && G723Len(data[pos]) != NSAMPLES_UNKNOWN {
      G723Suffix(data, cut, pos + G723Len(data[pos]));
    }
  }

  /** The first `k` frames on their own hold `k` frames' samples. */
  lemma {:induction false} G723Prefix(data: seq<byte>, pos: nat, k: nat)
    requires 240 * k < G723From(data, pos)
    ensures
      var cut := G723Pos(data, pos, k);
      pos <= cut <= |data| && G723From(data[..cut], pos) == 240 * k
    decreases k
  {
    G723Walk(data, pos, k);
    if k > 0 {
      var n := G723Len(data[pos]);
      G723Walk(data, pos + n, k - 1);
      G723Prefix(data, pos + n, k - 1);
    }
  }

  /** What a chunk must be: frame-aligned on both sides, no sample lost, and less
      than one frame more than was asked for. */
  ghost predicate GoodChunk(chunk: Chunk, pt: int, data: seq<byte>, min: nat) {
    var n := CalcSamples(pt, data);
    match chunk
    case Whole => n < min + FrameSamples(pt)
    case Part(bytes, s) =>
      && 0 < bytes < |data| && min <= s < min + FrameSamples(pt) && s < n
      && CalcSamples(pt, data[..bytes]) == s
      && CalcSamples(pt, data[bytes..]) == n - s
      && (pt == RTP_G729 ==> bytes % 10 == 0)
  }

  lemma ChunkKeepsFraming(pt: int, data: seq<byte>, min: nat)
    requires 0 < min < CalcSamples(pt, data)
    ensures GoodChunk(FirstChunk(pt, data, CalcSamples(pt, data), min), pt, data, min)
  {
    if pt == RTP_G723 {
      G723Chunk(data, min);
    } else if pt == RTP_G729 {
      G729Chunk(data, min);
    } else if pt == RTP_GSM {
      GsmChunk(data, min);
    }
  }

  lemma G723Chunk(data: seq<byte>, min: nat)
    requires 0 < min < G723Samples(data)
    ensures GoodChunk(FirstChunk(RTP_G723, data, G723Samples(data), min), RTP_G723, data, min)
  {
    FramesForBounds(min, 240);
    if FramesFor(min, 240) * 240 < G723Samples(data) {
      var cut := G723Pos(data, 0, FramesFor(min, 240));
      G723Walk(data, 0, FramesFor(min, 240));
      G723Prefix(data, 0, FramesFor(min, 240));
      G723Suffix(data, cut, cut);
    }
  }

  lemma G729Chunk(data: seq<byte>, min: nat)
    requires 0 < min < CalcSamples(RTP_G729, data)
    ensures GoodChunk(FirstChunk(RTP_G729, data, CalcSamples(RTP_G729, data), min), RTP_G729, data, min)
  {
    FramesForBounds(min, 80);
    if FramesFor(min, 80) * 80 < CalcSamples(RTP_G729, data) {
      G729Split(|data|, FramesFor(min, 80));
    }
  }

  lemma GsmChunk(data: seq<byte>, min: nat)
    requires 0 < min < CalcSamples(RTP_GSM, data)
    ensures GoodChunk(FirstChunk(RTP_GSM, data, CalcSamples(RTP_GSM, data), min), RTP_GSM, data, min)
  {
    FramesForBounds(min, 160);
    if FramesFor(min, 160) * 160 < CalcSamples(RTP_GSM, data) {
      GsmSplit(|data|, FramesFor(min, 160));
    }
  }

  lemma G729Split(len: nat, k: nat)
    requires 80 * k < len / 10 * 80 + (if len % 10 == 0 then 0 else 80)
    ensures k * 10 < len
    ensures (len - k * 10) / 10 == len / 10 - k && (len - k * 10) % 10 == len % 10
  {
    assert len == len / 10 * 10 + len % 10;
    assert len - k * 10 == (len / 10 - k) * 10 + len % 10;
  }

  lemma GsmSplit(len: nat, k: nat)
    requires 160 * k < 160 * (len / 33)
    ensures k * 33 < len
    ensures (len - k * 33) / 33 == len / 33 - k
  {
    assert len == len / 33 * 33 + len % 33;
    assert len - k * 33 == (len / 33 - k) * 33 + len % 33;
  }

  /** The counting loop over a G.723 payload. */
  method CountG723(buf: array<byte>, offset: nat, maxlen: nat) returns (samples: int)
    requires offset + maxlen <= buf.Length
    ensures samples == G723Samples(buf[offset..offset + maxlen])
  {
    var pos: nat := 0;
    samples := 0;
    ghost var data := buf[offset..offset + maxlen];
    while pos < maxlen
      invariant samples >= 0
      invariant G723From(data, 0) ==
                if G723From(data, pos) == NSAMPLES_UNKNOWN then NSAMPLES_UNKNOWN else samples + G723From(data, pos)
      decreases maxlen - pos
    {
      assert data[pos] == buf[offset + pos];
      samples := samples + 240;
      var n := G723Len(buf[offset + pos]);
      if n == NSAMPLES_UNKNOWN {
        return NSAMPLES_UNKNOWN;
      }
      pos := pos + n;
    }
  }

  /** The frame walk that finds a G.723 chunk; the walk never meets an unknown frame. */
  method FindG723Chunk(buf: array<byte>, offset: nat, size: nat, nsamples: nat, min: nat)
    returns (chunk: Chunk)
    requires offset + size <= buf.Length
    requires nsamples == G723Samples(buf[offset..offset + size]) && 0 < min < nsamples
    ensures chunk == FirstChunk(RTP_G723, buf[offset..offset + size], nsamples, min)
  {
    var frames := FramesFor(min, 240);
    var samples := frames * 240;
    if samples >= nsamples {
      return Whole;
    }
    ghost var data, k := buf[offset..offset + size], 0;
    var pos: nat, found: nat := 0, 0;
    while pos < size && samples > found
      invariant found == 240 * k && k <= frames
      invariant G723From(data, pos) == nsamples - found
      invariant G723Pos(data, 0, frames) == G723Pos(data, pos, frames - k)
      decreases frames - k
    {
      assert data[pos] == buf[offset + pos];
      found := found + 240;
      var n := G723Len(buf[offset + pos]);
      assert n != NSAMPLES_UNKNOWN;
      pos := pos + n;
      k := k + 1;
    }
    chunk := Part(if pos < size then pos else size, found);
  }
}
