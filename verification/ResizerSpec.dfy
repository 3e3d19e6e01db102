/** The re-packetizer on values: what one enqueue and one get compute, and the
    properties every run of them has. */
module ResizerSpec {
  import opened Options
  import opened Words
  import opened Codec

  /** Capacity of a packet buffer. */
  const BUF_SIZE := 8192

  /** A parsed packet: the fields the re-packetizer works on and the payload bytes. */
  datatype Packet = Packet(
    size: nat, offset: nat, nsamples: int, ts: u32, seqno: u16,
    appendable: bool, pt: nat, payload: seq<byte>)

  datatype Resizer = Resizer(
    queue: seq<Packet>, nsamplesTotal: int,
    seqInitialized: bool, seqno: u16,
    lastSentInited: bool, lastSentTs: u32,
    tsdeltaInited: bool, tsdelta: u32,
    outputNsamples: int)

  const EMPTY := Resizer([], 0, false, 0, false, 0, false, 0, 0)

  // ----- enqueue

  /** How the clock offset follows a newly arrived packet. */
  function SyncClock(r: Resizer, ts: u32, internalTs: u32): u32 {
    if !r.tsdeltaInited then Add32(ts, 40 - internalTs) else
    var refTs := Add32(internalTs, r.tsdelta);
    var late: int := Add32(ts, r.outputNsamples + 160);
    if TsLess(refTs, ts) then Add32(ts, 40 - internalTs)
    else if TsLess(late, refTs) then
      var behind: int := Add32(refTs, -late);
      Add32(r.tsdelta, -(behind / 2))
    else r.tsdelta
  }

  /** Where a packet goes: behind the last queued packet that is not later than it. */
  function InsertPos(q: seq<Packet>, ts: u32): (k: nat)
    ensures k <= |q|
  {
    if q == [] then 0
    else if TsLess(ts, q[|q| - 1].ts) then InsertPos(q[..|q| - 1], ts)
    else |q|
  }

  function Insert(q: seq<Packet>, p: Packet): seq<Packet> {
    var k := InsertPos(q, p.ts);
    q[..k] + [p] + q[k..]
  }

  predicate TooLate(r: Resizer, p: Packet) {
    r.lastSentInited && TsLess(p.ts, r.lastSentTs)
  }

  /** Enqueue of a packet that parsed and whose codec is known. */
  function Enqueue(r: Resizer, p: Packet, internalTs: u32): Resizer {
    if TooLate(r, p) then r
    else r.(queue := Insert(r.queue, p),
            nsamplesTotal := r.nsamplesTotal + p.nsamples,
            tsdeltaInited := true,
            tsdelta := SyncClock(r, p.ts, internalTs))
  }

  // ----- get

  function MaxNsamples(pt: nat): nat {
    if pt == RTP_GSM then 160 else 0
  }

  /** The requested output size, capped where the codec has a maximum. */
  function Target(outputNsamples: int, pt: nat): int {
    var max := MaxNsamples(pt);
    if max > 0 && outputNsamples > max then max else outputNsamples
  }

  function AppendPacket(dst: Packet, src: Packet): Packet {
    dst.(nsamples := dst.nsamples + src.nsamples,
         payload := dst.payload + src.payload,
         size := dst.size + |src.payload|,
         appendable := src.appendable)
  }

  /** What is left of a packet after its first bytes were taken. */
  function Truncate(src: Packet, bytes: nat, nsamples: nat): Packet
    requires bytes <= |src.payload| && |src.payload| <= src.size
  {
    src.(nsamples := src.nsamples - nsamples,
         ts := Add32(src.ts, nsamples),
         payload := src.payload[bytes..],
         size := src.size - bytes)
  }

  function AppendChunk(dst: Packet, src: Packet, bytes: nat, nsamples: nat): Packet
    requires bytes <= |src.payload|
  {
    dst.(nsamples := dst.nsamples + nsamples,
         payload := dst.payload + src.payload[..bytes],
         size := dst.size + bytes)
  }

  /** A split-off head. Its header bytes are whatever the fresh buffer held, so its
      payload type is an input. */
  function SplitHead(src: Packet, bytes: nat, nsamples: nat, sparePt: nat): Packet
    requires bytes <= |src.payload|
  {
    src.(nsamples := nsamples,
         payload := src.payload[..bytes],
         size := bytes + src.offset,
         pt := sparePt)
  }

  function ChunkOf(p: Packet, min: nat): Chunk {
    FirstChunk(p.pt, p.payload, p.nsamples, min)
  }

  /** A queued packet: framed, non-empty and inside its buffer. */
  ghost predicate Queued(p: Packet) {
    && p.payload != []
    && p.nsamples == CalcSamples(p.pt, p.payload) && p.nsamples >= 0
    && p.offset + |p.payload| <= p.size <= BUF_SIZE
    && (p.appendable <==> !(p.pt == RTP_G729 && |p.payload| % 10 != 0))
  }

  ghost predicate AllQueued(q: seq<Packet>) {
    forall i :: 0 <= i < |q| ==> Queued(q[i])
  }

  /** What one turn of the aggregation loop does with the packet at the head of the
      queue: leave it, use it up (and perhaps go on), or use only its head. */
  datatype Turn = Stop | UseAll(out: Packet, more: bool) | UseHead(out: Packet, rest: Packet)

  /** A turn that starts a new output packet; `spare` is the packet buffer that an
      allocation would return, if any. */
  function Start(p: Packet, target: int, spare: Option<nat>): Turn
    requires Queued(p) && target > 0
  {
    if p.nsamples > target then
      ChunkKeepsFraming(p.pt, p.payload, target);
      match ChunkOf(p, target)
      case Whole => UseAll(p, false)
      case Part(bytes, nsamples) =>
        if spare.None? then Stop
        else UseHead(SplitHead(p, bytes, nsamples, spare.value), Truncate(p, bytes, nsamples))
    else UseAll(p, p.appendable)
  }

  /** A turn that extends the output packet `ret`. */
  function Extend(ret: Packet, p: Packet, target: int): Turn
    requires Queued(p) && 0 <= ret.nsamples < target
  {
    var left := target - ret.nsamples;
    if Add32(ret.ts, ret.nsamples) != p.ts || ret.pt != p.pt then Stop
    else if left < p.nsamples then
      ChunkKeepsFraming(p.pt, p.payload, left);
      match ChunkOf(p, left)
      case Whole =>
        if ret.size + |p.payload| > BUF_SIZE then Stop else UseAll(AppendPacket(ret, p), false)
      case Part(bytes, nsamples) =>
        if ret.size + bytes > BUF_SIZE then Stop
        else UseHead(AppendChunk(ret, p, bytes, nsamples), Truncate(p, bytes, nsamples))
    else if ret.size + |p.payload| > BUF_SIZE then Stop
    else UseAll(AppendPacket(ret, p), p.appendable)
  }

  /** The outcome of an aggregation over a queue: the output packet, how many queued
      packets it used up, and what is left of the next one if that was cut. */
  datatype Taken = Taken(out: Packet, used: nat, rest: Option<Packet>)

  /** The aggregation loop over `q[i..]` once an output packet exists. */
  function Aggregate(ret: Packet, q: seq<Packet>, i: nat, target: int): (t: Taken)
    requires AllQueued(q) && i <= |q| && ret.nsamples >= 0
    ensures i <= t.used <= |q| && (t.rest.Some? ==> t.used < |q|)
    decreases |q| - i
  {
    if ret.nsamples >= target || i == |q| then Taken(ret, i, None) else
    match Extend(ret, q[i], target)
    case Stop => Taken(ret, i, None)
    case UseAll(out, more) => if more then Aggregate(out, q, i + 1, target) else Taken(out, i + 1, None)
    case UseHead(out, rest) => Taken(out, i, Some(rest))
  }

  /** The whole aggregation of `rtp_resizer_get`; nothing when a needed allocation fails. */
  function Take(q: seq<Packet>, target: int, spare: Option<nat>): (r: Option<Taken>)
    requires AllQueued(q) && q != [] && target > 0
    ensures r.Some? ==> r.value.used <= |q| && (r.value.rest.Some? ==> r.value.used < |q|)
  {
    match Start(q[0], target, spare)
    case Stop => None
    case UseHead(out, rest) => Some(Taken(out, 0, Some(rest)))
    case UseAll(out, more) => Some(if more then Aggregate(out, q, 1, target) else Taken(out, 1, None))
  }

  /** The queue after an aggregation. */
  function Remaining(q: seq<Packet>, t: Taken): seq<Packet>
    requires t.used <= |q| && (t.rest.Some? ==> t.used < |q|)
  {
    if t.rest.Some? then q[t.used..][0 := t.rest.value] else q[t.used..]
  }

  /** Not enough data yet and the head has not waited long enough. */
  predicate MustWait(r: Resizer, refTs: u32)
    requires r.queue != []
  {
    && r.nsamplesTotal < r.outputNsamples
    && TsLess(refTs, Add32(r.queue[0].ts, r.outputNsamples + 160))
  }

  /** The output packet is numbered, and its end noted. */
  function Numbered(r: Resizer, t: Option<Taken>): (Option<Packet>, Resizer)
    requires t.Some? ==> t.value.used <= |r.queue| && (t.value.rest.Some? ==> t.value.used < |r.queue|)
  {
    match t
    case None => (None, r)
    case Some(t) =>
      var seqno := if r.seqInitialized then r.seqno else t.out.seqno;
      (Some(t.out.(seqno := seqno)),
       r.(queue := Remaining(r.queue, t),
          nsamplesTotal := r.nsamplesTotal - t.out.nsamples,
          seqInitialized := true, seqno := Next16(seqno),
          lastSentInited := true, lastSentTs := Add32(t.out.ts, t.out.nsamples)))
  }

  /** One `rtp_resizer_get` call. */
  function Get(r: Resizer, refTs: u32, spare: Option<nat>): (res: (Option<Packet>, Resizer))
    requires AllQueued(r.queue) && r.outputNsamples > 0
  {
    if r.queue == [] || MustWait(r, refTs) then (None, r) else
    Numbered(r, Take(r.queue, Target(r.outputNsamples, r.queue[0].pt), spare))
  }
}
