/** The re-packetizer as it runs: packets are objects with byte buffers, and the queue and the
    pool of free packets are lists of them, relinked pointer by pointer while packets are cut
    and joined. In proofs the objects are numbered. */
module Resizer {
  import opened Options
  import opened Words
  import opened Chains
  import opened Codec
  import opened ResizerSpec
  import opened RtpParse
  import opened RtpPackets
  import opened ResizerProofs
  import opened PacketLists
  import ResizerOrder
  import ResizerSize

  // ----- an object and what it stands for

  ghost predicate Shows(o: RtpPacket, v: Packet)
    reads o, o.buf
  {
    o.Valid() && o.View() == v
  }

  twostate predicate Same(o: RtpPacket)
    reads o, o.buf
  {
    unchanged(o) && unchanged(o.buf)
  }

  ghost predicate Points(o: RtpPacket, next: RtpPacket?, prev: RtpPacket?)
    reads o
  {
    o.next == next && o.prev == prev
  }

  class RtpResizer {
    var first: RtpPacket?
    var last: RtpPacket?
    var pool: RtpPacket?
    var nsamplesTotal: int
    var seqInitialized: bool
    var seqno: u16
    var lastSentInited: bool
    var lastSentTs: u32
    var tsdeltaInited: bool
    var tsdelta: u32
    var outputNsamples: int
    /** All packets there are, and what their pointers and, for those queued or in hand, their
        buffers stand for. */
    ghost const objs: map<Id, RtpPacket>
    ghost var links: map<Id, Link>
    ghost var packets: map<Id, Packet>
    /** The queued packets with their values, and the free ones. */
    ghost var ids: seq<Id>
    ghost var queue: seq<Packet>
    ghost var fl: seq<Id>

    ghost function Objs(): set<RtpPacket> {
      set id | id in objs :: objs[id]
    }

    ghost function Bufs(): set<array<byte>> {
      set id | id in objs :: objs[id].buf
    }

    ghost predicate Is(id: Id, o: RtpPacket?) {
      id in objs && objs[id] == o
    }

    ghost function Ref(o: Option<Id>): RtpPacket? {
      if o.Some? && o.value in objs then objs[o.value] else null
    }

    /** Different packets are different objects with buffers of their own. */
    ghost predicate Apart() {
      && (forall id :: id in objs ==> objs[id].buf.Length == BUF_SIZE)
      && (forall a, b :: a in objs && b in objs && a != b ==> objs[a] != objs[b] && objs[a].buf != objs[b].buf)
    }

    /** Pointers and buffers are what they stand for. */
    ghost predicate Objects()
      reads this`links, this`packets, Objs(), Bufs()
    {
      && Apart()
      && (forall id :: id in packets ==> id in objs && Shows(objs[id], packets[id]))
      && (forall id :: id in links ==> id in objs && Points(objs[id], Ref(links[id].next), Ref(links[id].prev)))
    }

    ghost function View(): ResizerSpec.Resizer
      reads this
    {
      ResizerSpec.Resizer(queue, nsamplesTotal, seqInitialized, seqno,
                          lastSentInited, lastSentTs, tsdeltaInited, tsdelta, outputNsamples)
    }

    /** The pointers spell out the two lists. */
    ghost predicate ListsOk()
      reads this`first, this`last, this`pool, this`links, this`packets, this`ids, this`queue, this`fl
    {
      && Linked(ids, After(ids, 0), links) && Holds(packets, ids, queue) && Pooled(fl, links) && Disjoint(ids, fl)
      && |queue| == |ids| && Blank(fl, packets)
      && first == Ref(After(ids, 0)) && last == Ref(Before(ids, |ids|)) && pool == Ref(After(fl, 0))
    }

    ghost predicate Valid()
      reads this, Objs(), Bufs()
    {
      ListsOk() && Objects() && Inv(View())
    }

    /** The packet is neither queued nor free: somebody else has it. */
    ghost predicate Outside(id: Id)
      reads this
    {
      id !in ids && id !in fl
    }

    constructor (ghost objs: map<Id, RtpPacket>)
      requires forall id :: id in objs ==> objs[id].buf.Length == BUF_SIZE
      requires forall a, b :: a in objs && b in objs && a != b ==> objs[a] != objs[b] && objs[a].buf != objs[b].buf
      ensures this.objs == objs && Valid() && View() == EMPTY && fl == []
    {
      this.objs := objs;
      first, last, pool, links, packets := null, null, null, map[], map[];
      ids, queue, fl := [], [], [];
      nsamplesTotal, seqInitialized, seqno := 0, false, 0;
      lastSentInited, lastSentTs, tsdeltaInited, tsdelta, outputNsamples := false, 0, false, 0, 0;
    }

    // ----- one object

    /** What is known of an object. */
    lemma Seen(id: Id, o: RtpPacket)
      requires Objects() && Is(id, o)
      ensures o in Objs() && o.buf in Bufs() && o.buf.Length == BUF_SIZE
      ensures id in packets ==> o.Valid() && o.View() == packets[id]
      ensures id in links ==> o.next == Ref(links[id].next) && o.prev == Ref(links[id].prev)
    {
    }

    /** No other packet is the same object or has the same buffer. */
    lemma Alone(r: Id)
      requires Objects() && r in objs
      ensures forall x :: x in objs && x != r ==> objs[x] != objs[r] && objs[x].buf != objs[r].buf
    {
    }

    /** The two objects and what they stand for may have changed, the others have not. */
    twostate lemma Restored(two: (Id, Id))
      requires old(Objects()) && two.0 in objs && two.1 in objs
      requires forall x :: x in objs && x != two.0 && x != two.1 ==> Same(objs[x])
      requires forall x :: x in packets && x != two.0 && x != two.1 ==>
                 x in old(packets) && packets[x] == old(packets)[x]
      requires forall x :: x in links && x != two.0 && x != two.1 ==> x in old(links) && links[x] == old(links)[x]
      requires var (r, s) := two;
        && (r in packets ==> objs[r].Valid() && objs[r].View() == packets[r])
        && (s in packets ==> objs[s].Valid() && objs[s].View() == packets[s])
        && (r in links ==> objs[r].next == Ref(links[r].next) && objs[r].prev == Ref(links[r].prev))
        && (s in links ==> objs[s].next == Ref(links[s].next) && objs[s].prev == Ref(links[s].prev))
      ensures Objects()
    {
      forall x | x in packets ensures x in objs && Shows(objs[x], packets[x]) {
        if x != two.0 && x != two.1 { assert old(Shows(objs[x], packets[x])); }
      }
    }

    /** No object has changed. */
    twostate lemma Kept()
      requires old(Objects()) && links == old(links) && packets == old(packets)
      requires forall x :: x in objs ==> Same(objs[x])
      ensures Objects()
    {
      forall x | x in packets ensures x in objs && Shows(objs[x], packets[x]) {
        assert old(Shows(objs[x], packets[x]));
      }
    }

    /** Writes the pointers of a packet. */
    method SetLinks(o: RtpPacket, next: RtpPacket?, prev: RtpPacket?, ghost id: Id, ghost l: Link)
      requires Objects() && Is(id, o) && next == Ref(l.next) && prev == Ref(l.prev)
      modifies o`next, o`prev, this`links
      ensures Objects() && links == old(links)[id := l]
    {
      hide Objects, Shows;
      Seen(id, o);
      Alone(id);
      o.next, o.prev := next, prev;
      links := links[id := l];
      Restored((id, id));
    }

    /** Appends the payload of one packet to another. */
    method AppendWhole(ret: RtpPacket, src: RtpPacket, ghost r: Id, ghost s: Id)
      requires Objects() && Is(r, ret) && Is(s, src) && r != s && r in packets && s in packets
      requires packets[r].size + |packets[s].payload| <= BUF_SIZE
      modifies ret`nsamples, ret`dataSize, ret`size, ret`appendable, ret.buf, this`packets
      ensures Objects() && packets == old(packets)[r := AppendPacket(old(packets)[r], old(packets)[s])]
    {
      hide Objects, Shows;
      Seen(r, ret);
      Seen(s, src);
      Alone(r);
      ret.AppendPacket(src);
      packets := packets[r := AppendPacket(packets[r], packets[s])];
      Restored((r, r));
    }

    /** Moves the beginning of one packet to the end of another. */
    method AppendPart(ret: RtpPacket, src: RtpPacket, bytes: nat, nsamples: nat, ghost r: Id, ghost s: Id)
      requires Objects() && Is(r, ret) && Is(s, src) && r != s && r in packets && s in packets
      requires packets[r].size + bytes <= BUF_SIZE && bytes <= |packets[s].payload| <= packets[s].size
      modifies ret`nsamples, ret`dataSize, ret`size, ret.buf, this`packets
      modifies src`nsamples, src`ts, src`dataSize, src`size, src.buf
      ensures Objects()
      ensures packets == old(packets)[r := AppendChunk(old(packets)[r], old(packets)[s], bytes, nsamples)]
                                     [s := Truncate(old(packets)[s], bytes, nsamples)]
    {
      hide Objects, Shows, Ref, Points, AppendChunk, ResizerSpec.Truncate;
      Seen(r, ret);
      Seen(s, src);
      Alone(r);
      Alone(s);
      ghost var p := packets[s];
      ret.AppendChunk(src, bytes, nsamples);
      packets := packets[r := AppendChunk(packets[r], p, bytes, nsamples)][s := Truncate(p, bytes, nsamples)];
      Restored((r, s));
    }

    /** Cuts the beginning of one packet off into another, which takes over the pointers too. */
    method MoveHead(ret: RtpPacket, src: RtpPacket, bytes: nat, nsamples: nat, ghost r: Id, ghost s: Id, ghost pt: nat)
      requires ret.buf.Length == BUF_SIZE && pt == PayloadType(ret.buf[..])
      requires Objects() && Is(r, ret) && Is(s, src) && r != s && s in packets && s in links
      requires bytes <= |packets[s].payload| <= packets[s].size
      modifies ret, ret.buf, this`packets, this`links, src`nsamples, src`ts, src`dataSize, src`size, src.buf
      ensures Objects() && links == old(links)[r := old(links)[s]]
      ensures packets == old(packets)[r := SplitHead(old(packets)[s], bytes, nsamples, pt)]
                                     [s := Truncate(old(packets)[s], bytes, nsamples)]
    {
      hide Objects, Shows, Ref, Points, PayloadType, SplitHead, ResizerSpec.Truncate;
      Seen(r, ret);
      Seen(s, src);
      Alone(r);
      Alone(s);
      ghost var p := packets[s];
      ghost var head, rest := SplitHead(p, bytes, nsamples, pt), Truncate(p, bytes, nsamples);
      assert bytes <= src.dataSize;
      ret.MoveChunk(src, bytes, nsamples);
      links := links[r := links[s]];
      packets := packets[r := head][s := rest];
      Restored((r, s));
    }

    method SetNumber(ret: RtpPacket, n: u16, ghost r: Id)
      requires Objects() && Is(r, ret) && r in packets
      modifies ret`seqno, ret.buf, this`packets
      ensures Objects() && packets == old(packets)[r := old(packets)[r].(seqno := n)]
    {
      hide Objects, Shows;
      Seen(r, ret);
      Alone(r);
      ret.SetSeq(n);
      packets := packets[r := packets[r].(seqno := n)];
      Restored((r, r));
    }

    /** Parses a received packet; `ok` if the codec is known. */
    method ParseInto(pkt: RtpPacket, ghost id: Id) returns (ok: bool)
      requires Objects() && Is(id, pkt) && id !in packets && pkt.size <= BUF_SIZE
      modifies pkt`dataSize, pkt`dataOffset, pkt`appendable, pkt`nsamples, pkt`ts, pkt`seqno, this`packets
      ensures Objects()
      ensures var p := ToPacket(pkt.buf[..pkt.size]);
        ok == p.Some? && packets == if ok then old(packets)[id := p.value] else old(packets)
    {
      hide Objects, Shows, ToPacket, RtpParse.Parse;
      Seen(id, pkt);
      Alone(id);
      var r := pkt.Parse();
      ok := r.Ok? && pkt.nsamples != NSAMPLES_UNKNOWN;
      ghost var p := ToPacket(pkt.buf[..pkt.size]);
      if ok { packets := packets[id := p.value]; }
      Restored((id, id));
    }

    // ----- the lists

    /** The invariant of the lists, piece by piece. */
    lemma ListFacts()
      requires ListsOk()
      ensures Linked(ids, After(ids, 0), links) && Holds(packets, ids, queue) && Pooled(fl, links) && Disjoint(ids, fl)
      ensures |queue| == |ids| && Blank(fl, packets)
      ensures first == Ref(After(ids, 0)) && last == Ref(Before(ids, |ids|)) && pool == Ref(After(fl, 0))
    {
    }

    /** The other way round. */
    lemma ListsBack()
      requires Linked(ids, After(ids, 0), links) && Holds(packets, ids, queue) && Pooled(fl, links) && Disjoint(ids, fl)
      requires |queue| == |ids| && Blank(fl, packets)
      requires first == Ref(After(ids, 0)) && last == Ref(Before(ids, |ids|)) && pool == Ref(After(fl, 0))
      ensures ListsOk()
    {
    }

    /** What the pointers say about the two ends of the queue and the head of the pool. */
    lemma Ends()
      requires ListsOk() && Objects()
      ensures (first == null <==> ids == []) && (last == null <==> ids == []) && (pool == null <==> fl == [])
      ensures ids != [] ==> Is(ids[0], first) && Is(ids[|ids| - 1], last)
      ensures fl != [] ==> Is(fl[0], pool)
    {
      if ids != [] { assert LinkAt(ids, links, 0) && LinkAt(ids, links, |ids| - 1); }
      if fl != [] { assert PoolAt(fl, links, 0); }
    }

    /** What is known of a queued packet. */
    lemma Member(i: nat)
      requires ListsOk() && Objects() && i < |ids|
      ensures ids[i] in objs && ids[i] in packets && packets[ids[i]] == queue[i]
      ensures ids[i] in links && links[ids[i]] == Link(Before(ids, i), After(ids, i + 1))
      ensures var o := objs[ids[i]];
        && o.Valid() && o.View() == queue[i] && o.prev == Ref(Before(ids, i)) && o.next == Ref(After(ids, i + 1))
        && o in Objs() && o.buf in Bufs() && o.buf.Length == BUF_SIZE
    {
      assert LinkAt(ids, links, i) && HoldsAt(packets, ids, queue, i);
    }

    /** `rtp_packet_alloc`: a free packet, or the one the memory allocator gives. */
    method Alloc(mem: RtpPacket?, ghost m: Option<Id>) returns (o: RtpPacket?, ghost id: Option<Id>)
      requires ListsOk() && Objects() && mem == Ref(m) && (m.Some? ==> m.value in objs && Outside(m.value))
      modifies this`pool, this`fl
      ensures ListsOk() && Objects()
      ensures if old(fl) != [] then id == Some(old(fl)[0]) && fl == old(fl)[1..] else id == m && fl == []
      ensures o == Ref(id) && (id.Some? ==> id.value in objs && Outside(id.value))
    {
      hide Objects, Linked, Holds, Pooled, Disjoint;
      Ends();
      if pool != null {
        PoolTail(fl, links);
        DisjointTail(ids, fl);
        Seen(fl[0], pool);
        o, id := pool, Some(fl[0]);
        label L:
        pool := o.next;
        fl := fl[1..];
        Kept@L();
      } else {
        o, id := mem, m;
      }
    }

    /** `rtp_packet_free`: what the packet held no longer matters. */
    method Free(o: RtpPacket, ghost id: Id)
      requires ListsOk() && Objects() && Is(id, o) && Outside(id)
      modifies o`next, o`prev, this`pool, this`links, this`packets, this`fl
      ensures ListsOk() && Objects() && fl == [id] + old(fl) && packets == old(packets) - {id}
    {
      hide Objects, Linked, Holds, Pooled;
      PoolPush(fl, links, id);
      ChainElsewhere(ids, links, id, Link(None, After(fl, 0)));
      HoldsElsewhere(packets, ids, queue, packets - {id});
      SetLinks(o, pool, null, id, Link(None, After(fl, 0)));
      Forget(id);
      label L:
      pool := o;
      fl := [id] + fl;
      Kept@L();
    }

    /** What the packet holds does not matter any more. */
    ghost method Forget(id: Id)
      requires Objects()
      modifies this`packets
      ensures Objects() && packets == old(packets) - {id}
    {
      label L:
      assert forall x :: x in packets - {id} ==> x in packets && x in objs && Shows(objs[x], packets[x]);
      packets := packets - {id};
      hide Shows;
    }

    // ----- the queue

    /** Walks back from the tail to the packet behind which a new one goes. */
    method FindBefore(ts: u32) returns (p: RtpPacket?)
      requires ListsOk() && Objects()
      ensures p == Ref(Before(ids, InsertPos(queue, ts)))
    {
      hide Objects, Linked, Holds, Pooled, Disjoint;
      p := last;
      ghost var k: nat := |ids|;
      assert queue[..k] == queue;
      if k > 0 { Member(k - 1); }
      while p != null && TsLess(ts, p.ts)
        invariant k <= |ids| && p == Ref(Before(ids, k)) && (k > 0 ==> Is(ids[k - 1], p))
        invariant k > 0 ==> p.ts == queue[k - 1].ts && p.prev == Ref(Before(ids, k - 1))
        invariant InsertPos(queue, ts) == InsertPos(queue[..k], ts)
        decreases k
      {
        assert queue[..k][..k - 1] == queue[..k - 1];
        if k > 1 { Member(k - 2); }
        p := p.prev;
        k := k - 1;
      }
    }

    /** Links a packet in at its place: at the head, at the tail, in the middle or alone. */
    method LinkPacket(o: RtpPacket, ghost id: Id)
      requires ListsOk() && Objects() && Is(id, o) && Outside(id) && id in packets
      modifies this`first, this`last, this`links, this`ids, this`queue, Objs()
      ensures ListsOk() && Objects() && queue == Insert(old(queue), packets[id])
      ensures ids == WithIn(old(ids), InsertPos(old(queue), packets[id].ts), id)
    {
      hide ListsOk, Objects, Linked, Holds, Pooled, Disjoint, Blank, WithIn, LinkIn, InsertPos;
      ListFacts();
      Seen(id, o);
      var p := FindBefore(o.ts);
      ghost var k := InsertPos(queue, packets[id].ts);
      RelinkAt(o, p, id, k);
      Joined(id, k);
    }

    method RelinkAt(o: RtpPacket, p: RtpPacket?, ghost id: Id, ghost k: nat)
      requires ListsOk() && Objects() && Is(id, o) && Outside(id) && id in packets && k <= |ids| == |queue|
      requires p == Ref(Before(ids, k))
      modifies this`first, this`last, this`links, Objs()
      ensures Objects() && Between(id, k)
    {
      hide ListsOk, Objects, Linked, Holds, Pooled, Disjoint, Blank, WithIn, LinkIn;
      ListFacts();
      Joining(id, k);
      HoldsInsert(packets, ids, queue, id, packets[id], k);
      ghost var links0 := links;
      Relink(o, p, id, k);
      PoolElsewhere(fl, links0, links);
    }

    /** The pointers have the packet in the queue, the lists not yet. */
    ghost predicate Between(id: Id, k: nat)
      reads this
    {
      && k <= |ids| == |queue| && id in packets
      && var c := WithIn(ids, k, id);
      && |c| == |ids| + 1 && Linked(c, After(c, 0), links) && Pooled(fl, links) && Disjoint(c, fl) && Blank(fl, packets)
      && Holds(packets, c, queue[..k] + [packets[id]] + queue[k..])
      && first == Ref(After(c, 0)) && last == Ref(Before(c, |c|)) && pool == Ref(After(fl, 0))
    }

    /** Now the lists have it too. */
    ghost method Joined(id: Id, k: nat)
      requires Objects() && Between(id, k)
      modifies this`ids, this`queue
      ensures ListsOk() && Objects()
      ensures ids == WithIn(old(ids), k, id) && queue == old(queue)[..k] + [packets[id]] + old(queue)[k..]
    {
      hide Objects, Linked, Holds, Pooled, Disjoint, Blank, WithIn;
      label L:
      ids, queue := WithIn(ids, k, id), queue[..k] + [packets[id]] + queue[k..];
      Kept@L();
    }

    /** What linking in relies on. */
    lemma Joining(id: Id, k: nat)
      requires ListsOk() && Objects() && Outside(id) && k <= |ids|
      ensures forall x :: x in ids ==> x in objs && x !in fl
      ensures k > 0 ==> (k == |ids| <==> Before(ids, k) == Before(ids, |ids|))
      ensures k > 0 ==> ids[k - 1] in links && links[ids[k - 1]].next == After(ids, k)
      ensures k < |ids| ==> ids[k] in links && (k > 0 ==> ids[k - 1] != ids[k])
      ensures var c := WithIn(ids, k, id);
        && |c| == |ids| + 1 && Linked(c, After(c, 0), LinkIn(links, ids, k, id)) && Disjoint(c, fl)
        && After(c, 0) == (if k == 0 then Some(id) else After(ids, 0))
        && Before(c, |c|) == (if k == |ids| then Some(id) else Before(ids, |ids|))
      ensures forall x :: x in fl && x in links ==>
                x in LinkIn(links, ids, k, id) && LinkIn(links, ids, k, id)[x] == links[x]
    {
      LinkReady(ids, links, k, id);
      forall x | x in ids ensures x in objs {
        var i :| 0 <= i < |ids| && ids[i] == x;
        assert LinkAt(ids, links, i);
      }
    }

    /** The four cases of relinking. */
    method Relink(o: RtpPacket, p: RtpPacket?, ghost id: Id, ghost k: nat)
      requires Objects() && Is(id, o) && k <= |ids| && id !in ids && forall x :: x in ids ==> x in objs
      requires p == Ref(Before(ids, k)) && first == Ref(After(ids, 0)) && last == Ref(Before(ids, |ids|))
      requires k > 0 ==> (k == |ids| <==> Before(ids, k) == Before(ids, |ids|))
      requires k > 0 ==> ids[k - 1] in links && links[ids[k - 1]].next == After(ids, k)
      requires k < |ids| ==> ids[k] in links && (k > 0 ==> ids[k - 1] != ids[k])
      modifies this`first, this`last, this`links, Objs()
      ensures Objects() && links == LinkIn(old(links), ids, k, id)
      ensures first == (if k == 0 then o else old(first)) && last == if k == |ids| then o else old(last)
    {
      hide Objects;
      Seen(id, o);
      if last != null {
        Seen(ids[0], first);
        Seen(ids[|ids| - 1], last);
        if p == null {
          Seen(ids[0], first);
          SetLinks(o, first, null, id, Link(None, Some(ids[0])));
          Seen(ids[0], first);
          SetLinks(first, first.next, o, ids[0], links[ids[0]].(prev := Some(id)));
          first := o;
        } else {
          Seen(ids[k - 1], p);
          Alone(ids[k - 1]);
          if p == last {
            SetLinks(o, null, last, id, Link(Some(ids[k - 1]), None));
            Seen(ids[k - 1], last);
            SetLinks(last, o, last.prev, ids[k - 1], links[ids[k - 1]].(next := Some(id)));
            last := o;
          } else {
            LinkBetween(o, p, id, k);
          }
        }
      } else {
        SetLinks(o, null, null, id, Link(None, None));
        first, last := o, o;
      }
    }

    method LinkBetween(o: RtpPacket, p: RtpPacket, ghost id: Id, ghost k: nat)
      requires Objects() && Is(id, o) && 0 < k < |ids| && id !in ids && ids[k - 1] != ids[k]
      requires Is(ids[k - 1], p) && ids[k - 1] in links && links[ids[k - 1]].next == After(ids, k)
      requires ids[k] in links && ids[k] in objs
      modifies this`links, Objs()
      ensures Objects() && links == LinkIn(old(links), ids, k, id)
    {
      hide Objects;
      Seen(id, o);
      Seen(ids[k - 1], p);
      var next := p.next;
      Seen(ids[k], next);
      SetLinks(o, next, p, id, Link(Some(ids[k - 1]), Some(ids[k])));
      Seen(ids[k], next);
      SetLinks(next, next.next, o, ids[k], links[ids[k]].(prev := Some(id)));
      Seen(ids[k - 1], p);
      SetLinks(p, o, p.prev, ids[k - 1], links[ids[k - 1]].(next := Some(id)));
    }

    /** `detach_queue_head`: the first packet is outside now. */
    method DetachHead() returns (o: RtpPacket, ghost id: Id)
      requires ListsOk() && Objects() && ids != []
      modifies this`first, this`last, this`links, this`ids, this`queue, Objs()
      ensures ListsOk() && Objects() && ids == old(ids)[1..] && queue == old(queue)[1..]
      ensures Is(id, o) && id == old(ids)[0] && Outside(id) && id in packets && packets[id] == old(queue)[0]
    {
      hide ListsOk, Objects;
      Ends();
      Member(0);
      o, id := first, ids[0];
      ReleaseHead();
      Left();
    }

    method ReleaseHead()
      requires ListsOk() && Objects() && ids != []
      modifies this`first, this`last, this`links, Objs()
      ensures Objects() && Without0()
    {
      hide ListsOk, Objects, Linked, Holds, Pooled, Disjoint, Blank, Unlink;
      ListFacts();
      Ends();
      Member(0);
      if |ids| > 1 { Member(1); }
      HoldsTail(packets, ids, queue);
      DetachReady(ids, links, fl);
      ghost var links0 := links;
      StepHead();
      PoolElsewhere(fl, links0, links);
    }

    /** The pointers have the queue without its head, the lists not yet. */
    ghost predicate Without0()
      reads this
    {
      && ids != [] && |ids| == |queue|
      && var c := ids[1..];
      && Linked(c, After(c, 0), links) && Pooled(fl, links) && Disjoint(c, fl) && Blank(fl, packets)
      && Holds(packets, c, queue[1..]) && ids[0] !in c && ids[0] !in fl
      && first == Ref(After(c, 0)) && last == Ref(Before(c, |c|)) && pool == Ref(After(fl, 0))
    }

    /** Now the lists are without it too. */
    ghost method Left()
      requires Objects() && Without0()
      modifies this`ids, this`queue
      ensures ListsOk() && Objects() && ids == old(ids)[1..] && queue == old(queue)[1..] && Outside(old(ids)[0])
    {
      hide Objects, Linked, Holds, Pooled, Disjoint, Blank;
      label L:
      ids, queue := ids[1..], queue[1..];
      Kept@L();
    }

    /** Lets go of the first packet. */
    method StepHead()
      requires Objects() && ids != [] && Is(ids[0], first) && ids[0] in links && links[ids[0]].next == After(ids, 1)
      requires |ids| > 1 ==> ids[1] in links && ids[1] in objs
      modifies this`first, this`last, this`links, Objs()
      ensures Objects() && first == Ref(After(ids, 1)) && last == if |ids| == 1 then null else old(last)
      ensures links == if |ids| == 1 then old(links) else old(links)[ids[1] := old(links)[ids[1]].(prev := None)]
    {
      hide Objects;
      Seen(ids[0], first);
      label K:
      first := first.next;
      Kept@K();
      if first == null {
        label L:
        last := null;
        Kept@L();
      } else {
        Seen(ids[1], first);
        SetLinks(first, first.next, null, ids[1], links[ids[1]].(prev := None));
      }
    }

    // ----- arrival

    /** Takes a received packet over, or drops it as too late and frees it; `taken` tells the
        caller that the packet is no longer its own. */
    method Enqueue(pkt: RtpPacket, internalTs: u32, ghost id: Id) returns (taken: bool)
      requires Valid() && Is(id, pkt) && Outside(id) && id !in packets && pkt.size <= BUF_SIZE
      modifies this, Objs()
      ensures Valid()
      ensures
        var p := ToPacket(old(pkt.buf[..pkt.size]));
        && taken == p.Some?
        && View() == (if taken then ResizerSpec.Enqueue(old(View()), p.value, internalTs) else old(View()))
        && (if !taken then Outside(id) && id !in packets && ids == old(ids) && fl == old(fl)
            else if TooLate(old(View()), p.value) then ids == old(ids) && fl == [id] + old(fl)
            else ids == WithIn(old(ids), InsertPos(old(queue), p.value.ts), id) && fl == old(fl))
    {
      hide ListsOk, Objects, ToPacket, WithIn, Samples, AllQueued, ResizerSpec.SyncClock, InsertPos;
      Seen(id, pkt);
      ghost var p := ToPacket(pkt.buf[..pkt.size]);
      taken := ParseArrival(pkt, id, p);
      if !taken {
        return;
      }
      Seen(id, pkt);
      EnqueueConserves(View(), p.value, internalTs);
      if lastSentInited && TsLess(pkt.ts, lastSentTs) {
        Free(pkt, id);
        return;
      }
      Accept(pkt, internalTs, id);
    }

    method ParseArrival(pkt: RtpPacket, ghost id: Id, ghost p: Option<Packet>) returns (ok: bool)
      requires ListsOk() && Objects() && Is(id, pkt) && Outside(id) && id !in packets && pkt.size <= BUF_SIZE
      requires pkt.buf.Length == BUF_SIZE && p == ToPacket(pkt.buf[..pkt.size])
      modifies pkt, this`packets
      ensures ListsOk() && Objects() && ok == p.Some?
      ensures packets == if ok then old(packets)[id := p.value] else old(packets)
    {
      hide ListsOk, Objects, Linked, Holds, Pooled, Disjoint, ToPacket;
      ListFacts();
      ghost var packets0 := packets;
      ok := ParseInto(pkt, id);
      HoldsElsewhere(packets0, ids, queue, packets);
      ListsBack();
    }

    /** Queues a packet that came in time. */
    method Accept(pkt: RtpPacket, internalTs: u32, ghost id: Id)
      requires ListsOk() && Objects() && Is(id, pkt) && Outside(id) && id in packets && !TooLate(View(), packets[id])
      modifies this, Objs()
      ensures ListsOk() && Objects() && View() == ResizerSpec.Enqueue(old(View()), old(packets)[id], internalTs)
      ensures ids == WithIn(old(ids), InsertPos(old(queue), old(packets)[id].ts), id) && fl == old(fl)
    {
      hide ListsOk, Objects, WithIn, ResizerSpec.SyncClock, InsertPos, TooLate, Insert;
      Seen(id, pkt);
      ghost var v, r := packets[id], View();
      FollowClock(pkt.ts, internalTs);
      LinkPacket(pkt, id);
      Seen(id, pkt);
      AddSamples(pkt.nsamples);
      Accepted(r, v, internalTs);
    }

    lemma Accepted(r: ResizerSpec.Resizer, v: Packet, internalTs: u32)
      requires !TooLate(r, v) && tsdeltaInited && tsdelta == ResizerSpec.SyncClock(r, v.ts, internalTs)
      requires queue == Insert(r.queue, v) && nsamplesTotal == r.nsamplesTotal + v.nsamples
      requires View() == r.(queue := queue, nsamplesTotal := nsamplesTotal, tsdeltaInited := true, tsdelta := tsdelta)
      ensures View() == ResizerSpec.Enqueue(r, v, internalTs)
    {
    }

    method AddSamples(n: int)
      requires ListsOk() && Objects()
      modifies this`nsamplesTotal
      ensures ListsOk() && Objects() && nsamplesTotal == old(nsamplesTotal) + n
    {
      hide Objects, Linked, Holds, Pooled, Disjoint, Blank;
      label L:
      nsamplesTotal := nsamplesTotal + n;
      Kept@L();
    }

    method FollowClock(ts: u32, internalTs: u32)
      requires ListsOk() && Objects()
      modifies this`tsdelta, this`tsdeltaInited
      ensures ListsOk() && Objects() && tsdeltaInited && tsdelta == ResizerSpec.SyncClock(old(View()), ts, internalTs)
    {
      hide Objects, Linked, Holds, Pooled, Disjoint, Blank, ResizerSpec.SyncClock;
      label L:
      SyncClock(ts, internalTs);
      Kept@L();
    }

    /** Follows the sender's clock: on unwrapped times the stored offset makes it show 40
        samples past a packet from the future or the first one, half as late if it was too
        late, and otherwise what it showed. */
    method SyncClock(ts: u32, internalTs: u32)
      modifies this`tsdelta, this`tsdeltaInited
      ensures tsdeltaInited && tsdelta == ResizerSpec.SyncClock(old(View()), ts, internalTs)
      ensures forall u, v :: ResizerOrder.ClockReads(old(View()), ts, internalTs, u, v) ==>
        Add32(internalTs, tsdelta) ==
          (if old(tsdeltaInited) then ResizerOrder.Tracked(u, v, outputNsamples + 160) else u + 40) % M32
    {
      ghost var r := View();
      forall u, v | ResizerOrder.ClockReads(r, ts, internalTs, u, v)
        ensures Add32(internalTs, ResizerSpec.SyncClock(r, ts, internalTs)) ==
                (if r.tsdeltaInited then ResizerOrder.Tracked(u, v, r.outputNsamples + 160) else u + 40) % M32
      {
        ResizerOrder.SyncClockTracks(r, ts, internalTs, u, v);
      }
      hide ResizerOrder.ClockReads, ResizerOrder.Tracked;
      if !tsdeltaInited {
        tsdelta := Add32(ts, 40 - internalTs);
        tsdeltaInited := true;
      } else {
        var refTs: int := Add32(internalTs, tsdelta);
        var late: int := Add32(ts, outputNsamples + 160);
        if TsLess(refTs, ts) {
          tsdelta := Add32(ts, 40 - internalTs);
        } else if TsLess(late, refTs) {
          var behind: int := Add32(refTs, -late);
          tsdelta := Add32(tsdelta, -(behind / 2));
        }
      }
    }

    // ----- output

    /** The payload type that the buffer of the next packet to be allocated holds. */
    ghost function SpareType(m: Option<Id>): Option<nat>
      reads this`fl, Bufs()
    {
      var x := if fl != [] then Some(fl[0]) else m;
      if x.Some? && x.value in objs && objs[x.value].buf.Length == BUF_SIZE
      then Some(PayloadType(objs[x.value].buf[..])) else None
    }

    /** Cuts the beginning of the first packet off into another one. */
    method SplitOff(ret: RtpPacket, bytes: nat, nsamples: nat, ghost r: Id)
      requires ListsOk() && Objects() && queue != [] && Is(r, ret) && Outside(r)
      requires bytes <= |queue[0].payload| <= queue[0].size
      modifies this`links, this`packets, this`queue, Objs(), Bufs()
      ensures ListsOk() && Objects() && r in packets && ret.buf.Length == BUF_SIZE
      ensures packets[r] == SplitHead(old(queue)[0], bytes, nsamples, old(PayloadType(ret.buf[..])))
      ensures queue == old(queue)[0 := Truncate(old(queue)[0], bytes, nsamples)]
    {
      hide Objects, Linked, Holds, Pooled, Disjoint, PayloadType, SplitHead, ResizerSpec.Truncate;
      Ends();
      Member(0);
      Seen(r, ret);
      ghost var links0, packets0, pt := links, packets, PayloadType(ret.buf[..]);
      ghost var head, rest := SplitHead(queue[0], bytes, nsamples, pt), Truncate(queue[0], bytes, nsamples);
      HeadChanged(r, head, rest);
      ChainElsewhere(ids, links, r, links[ids[0]]);
      MoveHead(ret, first, bytes, nsamples, r, ids[0], pt);
      PoolElsewhere(fl, links0, links);
      label L:
      queue := queue[0 := rest];
      Kept@L();
    }

    /** The values of the queue when the output and the first packet have changed. */
    lemma HeadChanged(r: Id, v: Packet, rest: Packet)
      requires ListsOk() && queue != [] && Outside(r)
      ensures Holds(packets[r := v][ids[0] := rest], ids, queue[0 := rest]) && ids[0] in ids && ids[0] !in fl
    {
      HoldsElsewhere(packets, ids, queue, packets[r := v]);
      HoldsHead(packets[r := v], ids, queue, rest);
    }

    /** What the first turn leaves. */
    ghost predicate Started(q: seq<Packet>, ids0: seq<Id>, fl0: seq<Id>, m: Option<Id>, t: Turn, go: bool,
                            id: Option<Id>)
      reads this
    {
      q != [] && |ids0| == |q| &&
      match t
      case Stop => id.None? && !go && ids == ids0 && queue == q && fl == fl0
      case UseAll(out, more) =>
        && id == Some(ids0[0]) && id.value in packets && packets[id.value] == out && go == more
        && ids == ids0[1..] && queue == q[1..] && fl == fl0
      case UseHead(out, rest) =>
        && id.Some? && id.value in packets && packets[id.value] == out && !go && ids == ids0 && queue == q[0 := rest]
        && (if fl0 != [] then [id.value] + fl == fl0 else fl == [] && m == id)
    }

    /** The turn that starts an output packet: the head of the queue, or a newly allocated
        packet with the beginning of its payload. */
    method StartTurn(target: int, mem: RtpPacket?, ghost m: Option<Id>, ghost spare: Option<nat>, ghost t: Turn)
      returns (ret: RtpPacket?, go: bool, ghost id: Option<Id>)
      requires ListsOk() && Objects() && queue != [] && Queued(queue[0]) && target > 0
      requires mem == Ref(m) && (m.Some? ==> m.value in objs && Outside(m.value))
      requires spare == SpareType(m) && t == Start(queue[0], target, spare)
      modifies this`first, this`last, this`pool, this`links, this`packets, this`ids, this`queue, this`fl, Objs(), Bufs()
      ensures ListsOk() && Objects() && ret == Ref(id) && (id.None? ==> SpareType(m) == spare)
      ensures id.Some? ==> id.value in objs && Outside(id.value) && id.value in packets
      ensures Started(old(queue), old(ids), old(fl), m, t, go, id)
    {
      hide Objects, Linked, Holds, Pooled, Disjoint, Blank, ChunkOf, SplitHead, ResizerSpec.Truncate, PayloadType;
      Ends();
      Member(0);
      var p := first;
      if p.nsamples > target {
        PartFits(queue[0], target);
        var chunk := FindChunk(p, target);
        if chunk.Part? {
          hide ListsOk;
          ret, id := SplitTurn(chunk.bytes, chunk.nsamples, mem, m, spare, t);
          return ret, false, id;
        }
      }
      go := p.nsamples <= target && p.appendable;
      var o; ghost var i;
      hide ListsOk;
      o, i := DetachHead();
      return o, go, Some(i);
    }

    /** The first packet is too long: its beginning goes into a packet from pool or memory. */
    method SplitTurn(bytes: nat, nsamples: nat, mem: RtpPacket?, ghost m: Option<Id>, ghost spare: Option<nat>,
                     ghost t: Turn)
      returns (ret: RtpPacket?, ghost id: Option<Id>)
      requires ListsOk() && Objects() && queue != [] && bytes <= |queue[0].payload| <= queue[0].size
      requires mem == Ref(m) && (m.Some? ==> m.value in objs && Outside(m.value)) && spare == SpareType(m)
      requires t == if spare.None? then Stop
                    else UseHead(SplitHead(queue[0], bytes, nsamples, spare.value), Truncate(queue[0], bytes, nsamples))
      modifies this`pool, this`links, this`packets, this`queue, this`fl, Objs(), Bufs()
      ensures ListsOk() && Objects() && ret == Ref(id) && (id.None? ==> SpareType(m) == spare)
      ensures id.Some? ==> id.value in objs && Outside(id.value) && id.value in packets
      ensures Started(old(queue), old(ids), old(fl), m, t, false, id)
    {
      hide ListsOk, Objects, SplitHead, ResizerSpec.Truncate, PayloadType;
      ListFacts();
      hide Linked, Holds, Pooled, Disjoint, Blank;
      Ends();
      if pool != null { Seen(fl[0], pool); } else if mem != null { Seen(m.value, mem); }
      ret, id := Alloc(mem, m);
      if ret != null { SplitOff(ret, bytes, nsamples, id.value); }
    }

    /** Moves the beginning of the first packet to the end of the output. */
    method TakeChunk(ret: RtpPacket, bytes: nat, nsamples: nat, ghost r: Id)
      requires ListsOk() && Objects() && queue != [] && Is(r, ret) && Outside(r) && r in packets
      requires packets[r].size + bytes <= BUF_SIZE && bytes <= |queue[0].payload| <= queue[0].size
      modifies this`packets, this`queue, Objs(), Bufs()
      ensures ListsOk() && Objects() && r in packets
      ensures packets[r] == AppendChunk(old(packets)[r], old(queue)[0], bytes, nsamples)
      ensures queue == old(queue)[0 := Truncate(old(queue)[0], bytes, nsamples)]
    {
      hide Objects, Linked, Holds, Pooled, Disjoint, AppendChunk, ResizerSpec.Truncate;
      Ends();
      Member(0);
      Seen(r, ret);
      ghost var out, rest := AppendChunk(packets[r], queue[0], bytes, nsamples), Truncate(queue[0], bytes, nsamples);
      HeadChanged(r, out, rest);
      AppendPart(ret, first, bytes, nsamples, r, ids[0]);
      label L:
      queue := queue[0 := rest];
      Kept@L();
    }

    /** Appends the first packet to the output and frees it. */
    method TakePacket(ret: RtpPacket, ghost r: Id)
      requires ListsOk() && Objects() && queue != [] && Is(r, ret) && Outside(r) && r in packets
      requires packets[r].size + |queue[0].payload| <= BUF_SIZE
      modifies this`first, this`last, this`pool, this`links, this`packets, this`ids, this`queue, this`fl, Objs(), Bufs()
      ensures ListsOk() && Objects() && Outside(r) && r in packets
      ensures packets[r] == AppendPacket(old(packets)[r], old(queue)[0])
      ensures ids == old(ids)[1..] && queue == old(queue)[1..] && fl == [old(ids)[0]] + old(fl)
    {
      hide Objects, Linked, Holds, Pooled, Disjoint, AppendPacket;
      Ends();
      Member(0);
      Seen(r, ret);
      ghost var packets0 := packets;
      AppendWhole(ret, first, r, ids[0]);
      HoldsElsewhere(packets0, ids, queue, packets);
      var o; ghost var i;
      o, i := DetachHead();
      Seen(i, o);
      Free(o, i);
    }

    /** A turn that extends the output packet. */
    method ExtendTurn(ret: RtpPacket, target: int, ghost r: Id) returns (go: bool)
      requires ListsOk() && Objects() && queue != [] && Queued(queue[0]) && Is(r, ret) && Outside(r) && r in packets
      requires 0 <= packets[r].nsamples < target
      modifies this`first, this`last, this`pool, this`links, this`packets, this`ids, this`queue, this`fl, Objs(), Bufs()
      ensures ListsOk() && Objects() && Outside(r) && r in packets
      ensures match Extend(old(packets)[r], old(queue)[0], target)
        case Stop => !go && packets[r] == old(packets)[r] && ids == old(ids) && queue == old(queue) && fl == old(fl)
        case UseAll(out, more) =>
          && packets[r] == out && go == more
          && ids == old(ids)[1..] && queue == old(queue)[1..] && fl == [old(ids)[0]] + old(fl)
        case UseHead(out, rest) =>
          packets[r] == out && !go && ids == old(ids) && queue == old(queue)[0 := rest] && fl == old(fl)
    {
      hide Objects, Linked, Holds, Pooled, Disjoint, ChunkOf, PayloadType;
      hide AppendPacket, AppendChunk, ResizerSpec.Truncate;
      Ends();
      Member(0);
      Seen(r, ret);
      var p := first;
      if Add32(ret.ts, ret.nsamples) != p.ts || PayloadType(ret.buf[..]) != PayloadType(p.buf[..]) {
        return false;
      }
      var left := target - ret.nsamples;
      if left < p.nsamples {
        PartFits(queue[0], left);
        var chunk := FindChunk(p, left);
        match chunk {
          case Whole =>
            if ret.size + p.dataSize <= BUF_SIZE { TakePacket(ret, r); }
          case Part(bytes, nsamples) =>
            if ret.size + bytes <= BUF_SIZE { TakeChunk(ret, bytes, nsamples, r); }
        }
        return false;
      }
      if ret.size + p.dataSize > BUF_SIZE {
        return false;
      }
      go := p.appendable;
      TakePacket(ret, r);
    }

    /** What an aggregation leaves: the output packet outside, the rest of the queue in place,
        the packets it used up in the pool. A split takes its packet from the pool or from
        memory; otherwise the first packet becomes the output. */
    ghost predicate Taking(q: seq<Packet>, ids0: seq<Id>, fl0: seq<Id>, m: Option<Id>, t: Option<Taken>, id: Option<Id>)
      reads this
    {
      match t
      case None => id.None? && queue == q && ids == ids0 && fl == fl0
      case Some(t) =>
        && t.used <= |q| == |ids0| && (t.rest.Some? ==> t.used < |q|)
        && id.Some? && id.value in objs && Outside(id.value) && id.value in packets && packets[id.value] == t.out
        && queue == Remaining(q, t) && ids == ids0[t.used..]
        && if t.used > 0 then id.value == ids0[0] && fl == Freed(ids0, t.used) + fl0
           else if fl0 != [] then [id.value] + fl == fl0
           else fl == [] && m == id
    }

    /** The aggregation loop: one output packet from the head of the queue, if there is a
        packet and a needed allocation succeeds. */
    method Assemble(target: int, mem: RtpPacket?, ghost m: Option<Id>, ghost spare: Option<nat>)
      returns (ret: RtpPacket?, ghost id: Option<Id>)
      requires ListsOk() && Objects() && AllQueued(queue) && queue != [] && target > 0
      requires mem == Ref(m) && (m.Some? ==> m.value in objs && Outside(m.value)) && spare == SpareType(m)
      modifies this`first, this`last, this`pool, this`links, this`packets, this`ids, this`queue, this`fl, Objs(), Bufs()
      ensures ListsOk() && Objects() && ret == Ref(id) && (id.None? ==> SpareType(m) == spare)
      ensures Taking(old(queue), old(ids), old(fl), m, Take(old(queue), target, spare), id)
    {
      ghost var q, ids0, fl0 := queue, ids, fl;
      ghost var t, r := Start(q[0], target, spare), Take(q, target, spare);
      TakeTurn(q, target, spare);
      hide ListsOk, Objects, Queued, Start, Take, Aggregate, SpareType, Started, Taking;
      var go;
      ret, go, id := StartTurn(target, mem, m, spare, t);
      if go {
        MoreTurns(q, ids0, fl0, m, t, id);
        ExtendLoop(ret, target, id.value, q, ids0, fl0, m);
      } else {
        OneTurn(q, ids0, fl0, m, t, id, r);
      }
    }

    lemma MoreTurns(q: seq<Packet>, ids0: seq<Id>, fl0: seq<Id>, m: Option<Id>, t: Turn, id: Option<Id>)
      requires Started(q, ids0, fl0, m, t, true, id)
      ensures q != [] && |ids0| == |q| && t.UseAll? && t.more && id == Some(ids0[0])
      ensures id.value in packets && packets[id.value] == t.out && ids == ids0[1..] && queue == q[1..] && fl == fl0
    {
    }

    /** If the first turn is the only one, it was the whole aggregation. */
    lemma OneTurn(q: seq<Packet>, ids0: seq<Id>, fl0: seq<Id>, m: Option<Id>, t: Turn, id: Option<Id>, r: Option<Taken>)
      requires Started(q, ids0, fl0, m, t, false, id) && (id.Some? ==> id.value in objs && Outside(id.value))
      requires t.Stop? ==> r == None
      requires t.UseAll? && !t.more ==> r == Some(Taken(t.out, 1, None))
      requires t.UseHead? ==> r == Some(Taken(t.out, 0, Some(t.rest)))
      ensures Taking(q, ids0, fl0, m, r, id)
    {
      assert Freed(ids0, 1) + fl0 == fl0;
    }

    /** The turns after the first, while the output is too short and there are packets left. */
    method ExtendLoop(ret: RtpPacket, target: int, ghost r: Id, ghost q: seq<Packet>, ghost ids0: seq<Id>,
                      ghost fl0: seq<Id>, ghost m: Option<Id>)
      requires ListsOk() && Objects() && AllQueued(q) && q != [] && |ids0| == |q|
      requires Is(r, ret) && r == ids0[0] && Outside(r) && r in packets
      requires queue == q[1..] && ids == ids0[1..] && fl == fl0 && packets[r].nsamples >= 0
      modifies this`first, this`last, this`pool, this`links, this`packets, this`ids, this`queue, this`fl, Objs(), Bufs()
      ensures ListsOk() && Objects()
      ensures Taking(q, ids0, fl0, m, Some(Aggregate(old(packets)[r], q, 1, target)), Some(r))
    {
      hide ListsOk, Objects, Queued, Extend, Aggregate, PayloadType;
      ghost var t, i := Aggregate(packets[r], q, 1, target), 1;
      assert Freed(ids0, 1) + fl0 == fl0;
      Ends();
      Seen(r, ret);
      while ret.nsamples < target && first != null
        invariant ListsOk() && Objects() && Outside(r) && r in packets && ret.nsamples == packets[r].nsamples
        invariant 1 <= i <= |q| && queue == q[i..] && ids == ids0[i..] && fl == Freed(ids0, i) + fl0
        invariant packets[r].nsamples >= 0 && t == Aggregate(packets[r], q, i, target)
        invariant first == null <==> ids == []
        decreases |q| - i
      {
        AggregateTurn(packets[r], q, i, target);
        var go := ExtendTurn(ret, target, r);
        SliceStep(q, ids0, fl0, i);
        if !go {
          return;
        }
        Ends();
        Seen(r, ret);
        i := i + 1;
      }
      AggregateDone(packets[r], q, i, target);
    }

    /** The value of a packet in hand. */
    ghost function Value(id: Option<Id>): Option<Packet>
      reads this
    {
      if id.Some? && id.value in packets then Some(packets[id.value]) else None
    }

    /** The packet in hand and the state are those of the call on values, and the packet in
        hand is in nobody else's. */
    ghost predicate Got(res: (Option<Packet>, ResizerSpec.Resizer), id: Option<Id>)
      reads this
    {
      (Value(id), View()) == res && (id.Some? ==> Outside(id.value) && id.value in packets && id.value in objs)
    }

    /** Every packet that was queued or free still is, but for the one in hand; and the one in
        hand is one of those or comes from memory. */
    ghost predicate Accounted(ids0: seq<Id>, fl0: seq<Id>, m: Option<Id>, id: Option<Id>)
      reads this`ids, this`fl
    {
      if id.None? then ids == ids0 && fl == fl0
      else if id.value in ids0 || id.value in fl0 then Owned(ids, fl) + multiset{id.value} == Owned(ids0, fl0)
      else fl0 == [] && m == id && Owned(ids, fl) == Owned(ids0, fl0)
    }

    lemma TakingAccounts(q: seq<Packet>, ids0: seq<Id>, fl0: seq<Id>, m: Option<Id>, t: Option<Taken>, id: Option<Id>)
      requires Taking(q, ids0, fl0, m, t, id) && (m.Some? ==> m.value !in ids0 && m.value !in fl0)
      ensures Accounted(ids0, fl0, m, id)
      ensures t.Some? <==> id.Some?
      ensures t.Some? ==> t.value.used <= |q| && (t.value.rest.Some? ==> t.value.used < |q|)
      ensures t.Some? ==> id.value in objs && Outside(id.value)
      ensures t.Some? ==> id.value in packets && packets[id.value] == t.value.out
      ensures queue == if t.Some? then Remaining(q, t.value) else q
    {
      if t.Some? {
        if t.value.used > 0 {
          FreedIs(ids0, t.value.used);
        } else if fl0 != [] {
          assert fl0 == [id.value] + fl;
        }
      }
    }

    /** One output packet, or none when the queue is empty, must wait, or an allocation
        fails. `refTs` is the current time on the sender's clock, and `mem` the packet the
        memory allocator would give. */
    method Get(refTs: u32, mem: RtpPacket?, ghost m: Option<Id>) returns (out: RtpPacket?, ghost id: Option<Id>)
      requires Valid() && outputNsamples > 0 && mem == Ref(m) && (m.Some? ==> m.value in objs && Outside(m.value))
      modifies this, Objs(), Bufs()
      ensures Valid() && out == Ref(id) && Got(ResizerSpec.Get(old(View()), refTs, old(SpareType(m))), id)
      ensures out != null ==> out.Valid() && Value(id) == Some(out.View())
      ensures Accounted(old(ids), old(fl), m, id)
      ensures OutputBytes(Value(id)) + Flat(queue, 0) == Flat(old(queue), 0)
      ensures Value(id).Some? ==> ResizerSize.AsAsked(old(queue), queue, Value(id).value, outputNsamples)
      ensures if id.Some? then |Flat(queue, 0)| < |Flat(old(queue), 0)|
              else View() == old(View()) && SpareType(m) == old(SpareType(m))
      ensures outputNsamples == old(outputNsamples)
    {
      hide ListsOk, Objects, ResizerSpec.Get, Flat, Owned, OutputBytes, Got, Accounted, SpareType, AllQueued;
      ghost var r, spare := View(), SpareType(m);
      out, id := Fetch(refTs, mem, m, r, spare);
      Conserved(r, refTs, spare, id);
    }

    /** The call, without what it conserves. */
    method Fetch(refTs: u32, mem: RtpPacket?, ghost m: Option<Id>, ghost r: ResizerSpec.Resizer,
                 ghost spare: Option<nat>)
      returns (out: RtpPacket?, ghost id: Option<Id>)
      requires ListsOk() && Objects() && AllQueued(queue) && outputNsamples > 0 && r == View() && spare == SpareType(m)
      requires mem == Ref(m) && (m.Some? ==> m.value in objs && Outside(m.value))
      modifies this, Objs(), Bufs()
      ensures ListsOk() && Objects() && out == Ref(id) && Got(ResizerSpec.Get(r, refTs, spare), id)
      ensures Accounted(old(ids), old(fl), m, id) && (id.None? ==> SpareType(m) == spare)
      ensures out != null ==> out.Valid() && Value(id) == Some(out.View())
    {
      hide ListsOk, Objects, ResizerSpec.Get, MustWait, Target, Take, Owned, Numbered, Got, Accounted;
      hide SpareType, AllQueued, RtpPacket.View, RtpPacket.Valid;
      GetIs(r, refTs, spare);
      var target := Due(refTs);
      if target > 0 {
        out, id := Emit(target, mem, m, r, spare, Take(queue, target, spare));
        if out != null { Seen(id.value, out); }
      } else {
        out, id := null, None;
        NoneGot(r, m);
      }
    }

    lemma NoneGot(r: ResizerSpec.Resizer, m: Option<Id>)
      requires View() == r
      ensures Got((None, r), None) && Numbered(r, None) == (None, r) && Accounted(ids, fl, m, None)
    {
    }

    /** What the call on values conserves, the call conserves. */
    lemma Conserved(r: ResizerSpec.Resizer, refTs: u32, spare: Option<nat>, id: Option<Id>)
      requires Inv(r) && r.outputNsamples > 0 && Got(ResizerSpec.Get(r, refTs, spare), id)
      ensures Inv(View()) && outputNsamples == r.outputNsamples
      ensures OutputBytes(Value(id)) + Flat(queue, 0) == Flat(r.queue, 0)
      ensures Value(id).Some? ==> ResizerSize.AsAsked(r.queue, queue, Value(id).value, r.outputNsamples)
      ensures if id.Some? then |Flat(queue, 0)| < |Flat(r.queue, 0)| else View() == r
    {
      hide ResizerSize.AsAsked;
      GetConserves(r, refTs, spare);
      ResizerSize.GetIsExact(r, refTs, spare);
    }

    /** The size of the output that is due now, zero if none is. */
    method Due(refTs: u32) returns (target: nat)
      requires ListsOk() && Objects() && outputNsamples > 0
      ensures target == if queue == [] || MustWait(View(), refTs) then 0 else Target(outputNsamples, queue[0].pt)
      ensures target > 0 <==> queue != [] && !MustWait(View(), refTs)
    {
      hide Objects, Linked, Holds, Pooled, Disjoint;
      Ends();
      if first == null {
        return 0;
      }
      Member(0);
      if nsamplesTotal < outputNsamples && TsLess(refTs, Add32(first.ts, outputNsamples + 160)) {
        return 0;
      }
      target := outputNsamples;
      var max := MaxNsamples(PayloadType(first.buf[..]));
      if max > 0 && target > max {
        target := max;
      }
    }

    /** An output packet is put together and numbered. */
    method Emit(target: int, mem: RtpPacket?, ghost m: Option<Id>, ghost r: ResizerSpec.Resizer,
                ghost spare: Option<nat>, ghost t: Option<Taken>)
      returns (out: RtpPacket?, ghost id: Option<Id>)
      requires ListsOk() && Objects() && AllQueued(queue) && queue != [] && target > 0
      requires mem == Ref(m) && (m.Some? ==> m.value in objs && Outside(m.value))
      requires r == View() && spare == SpareType(m) && t == Take(queue, target, spare)
      modifies this, Objs(), Bufs()
      ensures ListsOk() && Objects() && out == Ref(id) && Accounted(old(ids), old(fl), m, id)
      ensures outputNsamples == r.outputNsamples && Got(Numbered(r, t), id) && (id.None? ==> SpareType(m) == spare)
      ensures id.Some? ==> id.value in objs && id.value in packets
    {
      hide ListsOk, Objects, Take, Owned, SpareType, Taking, Accounted, Remaining, Numbered, Got, AllQueued;
      ghost var ids0, fl0 := ids, fl;
      out, id := Assemble(target, mem, m, spare);
      TakingAccounts(r.queue, ids0, fl0, m, t, id);
      if out != null {
        ghost var r1 := View();
        Stamp(out, id.value);
        IsNumbered(r, r1, t.value, id.value);
      } else {
        NoneGot(r, m);
      }
    }

    lemma IsNumbered(r0: ResizerSpec.Resizer, r1: ResizerSpec.Resizer, t: Taken, id: Id)
      requires t.used <= |r0.queue| && (t.rest.Some? ==> t.used < |r0.queue|)
      requires r1 == r0.(queue := Remaining(r0.queue, t)) && id in packets && Outside(id) && id in objs
      requires var n := if r0.seqInitialized then r0.seqno else t.out.seqno;
        && packets[id] == t.out.(seqno := n)
        && View() == r1.(nsamplesTotal := r0.nsamplesTotal - t.out.nsamples, seqInitialized := true, seqno := Next16(n),
                         lastSentInited := true, lastSentTs := Add32(t.out.ts, t.out.nsamples))
      ensures Got(Numbered(r0, Some(t)), Some(id))
    {
    }

    /** Numbers an output packet and notes where it ends. */
    method Stamp(ret: RtpPacket, ghost r: Id)
      requires ListsOk() && Objects() && Is(r, ret) && Outside(r) && r in packets
      modifies this`packets, this`nsamplesTotal, this`seqInitialized, this`seqno, this`lastSentInited, this`lastSentTs
      modifies Objs(), Bufs()
      ensures ListsOk() && Objects() && r in packets
      ensures
        var v, n := old(packets)[r], if old(seqInitialized) then old(seqno) else old(packets)[r].seqno;
        && packets[r] == v.(seqno := n) && seqInitialized && seqno == Next16(n)
        && nsamplesTotal == old(nsamplesTotal) - v.nsamples
        && lastSentInited && lastSentTs == Add32(v.ts, v.nsamples)
    {
      hide ListsOk, Objects;
      Seen(r, ret);
      var n := if seqInitialized then seqno else ret.seqno;
      Renumber(ret, n, r);
      Seen(r, ret);
      Note(n, ret.nsamples, Add32(ret.ts, ret.nsamples));
    }

    /** Notes what was put out. */
    method Note(n: u16, nsamples: int, end: u32)
      requires ListsOk() && Objects()
      modifies this`nsamplesTotal, this`seqInitialized, this`seqno, this`lastSentInited, this`lastSentTs
      ensures ListsOk() && Objects() && seqInitialized && seqno == Next16(n) && lastSentInited && lastSentTs == end
      ensures nsamplesTotal == old(nsamplesTotal) - nsamples
    {
      hide Objects, Linked, Holds, Pooled, Disjoint, Blank;
      label L:
      seqInitialized, seqno, lastSentInited, lastSentTs := true, Next16(n), true, end;
      nsamplesTotal := nsamplesTotal - nsamples;
      Kept@L();
    }

    /** Numbers a packet that is in neither list. */
    method Renumber(ret: RtpPacket, n: u16, ghost r: Id)
      requires ListsOk() && Objects() && Is(r, ret) && Outside(r) && r in packets
      modifies ret`seqno, ret.buf, this`packets
      ensures ListsOk() && Objects() && r in packets && packets[r] == old(packets)[r].(seqno := n)
    {
      hide ListsOk, Objects, Linked, Holds, Pooled, Disjoint;
      ListFacts();
      ghost var packets0 := packets;
      SetNumber(ret, n, r);
      HoldsElsewhere(packets0, ids, queue, packets);
      ListsBack();
    }

    /** Gets one packet, sends it and frees it: nothing is lost, and a packet from memory
        joins the others. */
    method SendNext(refTs: u32, mem: RtpPacket?, ghost m: Option<Id>) returns (bytes: Option<seq<byte>>)
      requires Valid() && outputNsamples > 0 && mem == Ref(m) && (m.Some? ==> m.value in objs && Outside(m.value))
      modifies this, Objs(), Bufs()
      ensures Valid() && outputNsamples == old(outputNsamples)
      ensures bytes.None? ==> View() == old(View()) && ids == old(ids) && fl == old(fl)
      ensures bytes.None? ==> SpareType(m) == old(SpareType(m))
      ensures bytes.None? <==> ResizerSpec.Get(old(View()), refTs, old(SpareType(m))).0.None?
      ensures bytes.Some? ==> bytes.value + Flat(queue, 0) == Flat(old(queue), 0)
      ensures bytes.Some? ==> |Flat(queue, 0)| < |Flat(old(queue), 0)| && fl != []
      ensures NoneLost(old(ids), old(fl), m)
    {
      hide ListsOk, Objects, Linked, Holds, Pooled, Disjoint, Flat, Owned, AllQueued, Samples, ResizerSpec.Get;
      var out; ghost var id;
      out, id := Get(refTs, mem, m);
      if out == null {
        return None;
      }
      bytes := Some(out.Payload());
      OwnedPush(ids, fl, id.value);
      Seen(id.value, out);
      Free(out, id.value);
    }

    /** The packets that were queued or free still are, with the one from memory if there was
        no free one. */
    ghost predicate NoneLost(ids0: seq<Id>, fl0: seq<Id>, m: Option<Id>)
      reads this
    {
      || Owned(ids, fl) == Owned(ids0, fl0)
      || (fl0 == [] && m.Some? && Owned(ids, fl) == Owned(ids0, fl0) + multiset{m.value})
    }

    /** Sends everything that is due and frees it. The loop ends because each packet takes
        bytes out of the queue; the bytes sent and those still queued are the bytes that were
        queued, and no packet is lost. Once a packet has been freed, no memory is needed. */
    method Drain(refTs: u32, mem: RtpPacket?, ghost m: Option<Id>) returns (sent: seq<byte>)
      requires Valid() && outputNsamples > 0 && mem == Ref(m) && (m.Some? ==> m.value in objs && Outside(m.value))
      modifies this, Objs(), Bufs()
      ensures Valid() && outputNsamples == old(outputNsamples)
      ensures sent + Flat(queue, 0) == Flat(old(queue), 0)
      ensures ResizerSpec.Get(View(), refTs, SpareType(m)).0.None?
      ensures NoneLost(old(ids), old(fl), m)
    {
      hide ListsOk, Objects, Linked, Holds, Pooled, Disjoint, Flat, Owned, AllQueued, Samples, ResizerSpec.Get;
      var bytes := SendNext(refTs, mem, m);
      sent := [];
      while bytes.Some?
        invariant Valid() && outputNsamples == old(outputNsamples)
        invariant sent + OrEmpty(bytes) + Flat(queue, 0) == Flat(old(queue), 0)
        invariant bytes.Some? ==> fl != []
        invariant NoneLost(old(ids), old(fl), m)
        invariant bytes.None? ==> ResizerSpec.Get(View(), refTs, SpareType(m)).0.None?
        decreases |Flat(queue, 0)|, bytes.Some?
      {
        sent := sent + bytes.value;
        bytes := SendNext(refTs, null, None);
      }
    }
  }
}
