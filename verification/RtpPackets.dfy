/** Packets as they are stored: fields, list pointers and a byte buffer that is copied and
    moved in place. */
module RtpPackets {
  import opened Words
  import opened Buffers
  import opened Codec
  import opened ResizerSpec
  import opened RtpParse

  class RtpPacket {
    var size: nat
    var dataSize: nat
    var dataOffset: nat
    var nsamples: int
    var ts: u32
    var seqno: u16
    var appendable: bool
    var next: RtpPacket?
    var prev: RtpPacket?
    const buf: array<byte>

    /** A packet from the allocator: its buffer holds whatever was there. */
    constructor (junk: nat -> byte)
      ensures fresh(this.buf) && buf.Length == BUF_SIZE && next == null && prev == null
      ensures forall i :: 0 <= i < BUF_SIZE ==> buf[i] == junk(i)
    {
      size, dataSize, dataOffset, nsamples, ts, seqno, appendable := 0, 0, 0, 0, 0, 0, false;
      next, prev := null, null;
      buf := new byte[BUF_SIZE](i => junk(i));
    }

    /** The payload lies behind the fixed header and inside the buffer. */
    predicate Valid()
      reads this`size, this`dataSize, this`dataOffset
    {
      buf.Length == BUF_SIZE && HDR_SIZE <= dataOffset && dataOffset + dataSize <= size <= BUF_SIZE
    }

    function Payload(): seq<byte>
      requires Valid()
      reads this`size, this`dataSize, this`dataOffset, buf
    {
      buf[dataOffset..dataOffset + dataSize]
    }

    /** The packet as a value; the payload type is read from the header bytes. */
    function View(): Packet
      requires Valid()
      reads this`size, this`dataSize, this`dataOffset, this`nsamples, this`ts, this`seqno, this`appendable, buf
    {
      Packet(size, dataOffset, nsamples, ts, seqno, appendable, PayloadType(buf[..]), Payload())
    }

    /** Writes the sequence number, also into its two header bytes and no others. */
    method SetSeq(n: u16)
      requires Valid()
      modifies this`seqno, buf
      ensures Valid() && View() == old(View()).(seqno := n)
      ensures Be16(buf[..], 2) == n && forall i :: 0 <= i < buf.Length && i != 2 && i != 3 ==> buf[i] == old(buf[i])
    {
      seqno := n;
      buf[2], buf[3] := n / 256, n % 256;
      assert Payload() == old(Payload());
    }

    /** Writes the timestamp, also into its four header bytes and no others. */
    method SetTs(t: u32)
      requires Valid()
      modifies this`ts, buf
      ensures Valid() && View() == old(View()).(ts := t)
      ensures Be32(buf[..], 4) == t && forall i :: 0 <= i < buf.Length && !(4 <= i < 8) ==> buf[i] == old(buf[i])
    {
      ts := t;
      var hi, lo := t / M16, t % M16;
      buf[4], buf[5], buf[6], buf[7] := hi / 256, hi % 256, lo / 256, lo % 256;
      assert Payload() == old(Payload());
    }

    /** Copies bytes of another packet's payload into this buffer at `at`. */
    method CopyIn(at: nat, src: RtpPacket, bytes: nat)
      requires buf.Length == BUF_SIZE && HDR_SIZE <= at && at + bytes <= BUF_SIZE && src.Valid() && src.buf != buf
      requires bytes <= src.dataSize
      modifies buf
      ensures buf[at..at + bytes] == src.Payload()[..bytes] && buf[..at] == old(buf[..at])
      ensures PayloadType(buf[..]) == PayloadType(old(buf[..]))
    {
      ghost var whole := buf[..];
      MoveBytes(buf, at, src.buf, src.dataOffset, bytes);
      assert src.buf[src.dataOffset..src.dataOffset + bytes] == src.Payload()[..bytes];
      assert buf[..][1] == whole[..at][1];
    }

    /** Appends the first bytes of another packet's payload. */
    method AppendBytes(src: RtpPacket, bytes: nat)
      requires Valid() && src.Valid() && src != this && src.buf != buf
      requires bytes <= src.dataSize && size + bytes <= BUF_SIZE
      modifies this`dataSize, this`size, buf
      ensures Valid() && size == old(size) + bytes && dataSize == old(dataSize) + bytes
      ensures Payload() == old(Payload()) + src.Payload()[..bytes]
      ensures PayloadType(buf[..]) == PayloadType(old(buf[..]))
    {
      hide PayloadType;
      var end := dataOffset + dataSize;
      CopyIn(end, src, bytes);
      SubSlice(buf[..], dataOffset, end, end);
      SubSlice(old(buf[..]), dataOffset, end, end);
      dataSize := dataSize + bytes;
      size := size + bytes;
      JoinSlices(buf[..], dataOffset, end, end + bytes);
    }

    /** Appends the whole payload of another packet. */
    method AppendPacket(src: RtpPacket)
      requires Valid() && src.Valid() && src != this && src.buf != buf
      requires size + src.dataSize <= BUF_SIZE
      modifies this`nsamples, this`dataSize, this`size, this`appendable, buf
      ensures Valid() && View() == ResizerSpec.AppendPacket(old(View()), src.View())
    {
      hide PayloadType;
      AppendBytes(src, src.dataSize);
      assert src.Payload()[..src.dataSize] == src.Payload();
      nsamples := nsamples + src.nsamples;
      appendable := src.appendable;
    }

    /** Drops the first bytes of the payload and moves the rest down. */
    method Truncate(bytes: nat, samples: nat)
      requires Valid() && bytes <= dataSize
      modifies this`nsamples, this`ts, this`dataSize, this`size, buf
      ensures Valid() && View() == ResizerSpec.Truncate(old(View()), bytes, samples)
    {
      hide PayloadType;
      ghost var rest := Payload()[bytes..];
      nsamples := nsamples - samples;
      SetTs(Add32(ts, samples));
      assert Payload()[bytes..] == rest;
      dataSize := dataSize - bytes;
      size := size - bytes;
      MoveDown(bytes);
    }

    /** Moves the payload behind the first bytes down over them. */
    method MoveDown(bytes: nat)
      requires Valid() && dataOffset + bytes + dataSize <= BUF_SIZE
      modifies buf
      ensures Payload() == old(buf[dataOffset + bytes..dataOffset + bytes + dataSize])
      ensures PayloadType(buf[..]) == PayloadType(old(buf[..]))
    {
      ghost var whole := buf[..];
      MoveBytes(buf, dataOffset, buf, dataOffset + bytes, dataSize);
      assert buf[..][1] == whole[..dataOffset][1];
    }

    /** Moves the first bytes of another packet's payload to the end of this one. */
    method AppendChunk(src: RtpPacket, bytes: nat, samples: nat)
      requires Valid() && src.Valid() && src != this && src.buf != buf
      requires bytes <= src.dataSize && size + bytes <= BUF_SIZE
      modifies this`nsamples, this`dataSize, this`size, buf
      modifies src`nsamples, src`ts, src`dataSize, src`size, src.buf
      ensures Valid() && View() == ResizerSpec.AppendChunk(old(View()), old(src.View()), bytes, samples)
      ensures src.Valid() && src.View() == ResizerSpec.Truncate(old(src.View()), bytes, samples)
    {
      hide PayloadType;
      AppendBytes(src, bytes);
      nsamples := nsamples + samples;
      src.Truncate(bytes, samples);
    }

    /** Makes this fresh packet the head split off another packet: the fields are copied,
        the header bytes in the buffer are not. */
    method MoveChunk(src: RtpPacket, bytes: nat, samples: nat)
      requires buf.Length == BUF_SIZE && src.Valid() && src != this && src.buf != buf
      requires bytes <= src.dataSize
      modifies this, buf, src`nsamples, src`ts, src`dataSize, src`size, src.buf
      ensures Valid() && View() == SplitHead(old(src.View()), bytes, samples, PayloadType(old(buf[..])))
      ensures next == src.next && prev == src.prev
      ensures src.Valid() && src.View() == ResizerSpec.Truncate(old(src.View()), bytes, samples)
    {
      CopyHead(src, bytes, samples);
      src.Truncate(bytes, samples);
    }

    method CopyHead(src: RtpPacket, bytes: nat, samples: nat)
      requires buf.Length == BUF_SIZE && src.Valid() && src != this && src.buf != buf
      requires bytes <= src.dataSize
      modifies this, buf
      ensures Valid() && View() == SplitHead(src.View(), bytes, samples, PayloadType(old(buf[..])))
      ensures next == src.next && prev == src.prev
    {
      hide PayloadType;
      ghost var v := src.View();
      ts, seqno, appendable, dataOffset := src.ts, src.seqno, src.appendable, src.dataOffset;
      next, prev := src.next, src.prev;
      assert src.View() == v;
      CopyIn(dataOffset, src, bytes);
      nsamples := samples;
      dataSize := bytes;
      size := dataSize + dataOffset;
      assert Payload() == v.payload[..bytes];
    }

    /** Parses the received bytes into the packet's fields. */
    method Parse() returns (r: Parsed)
      requires buf.Length == BUF_SIZE && size <= BUF_SIZE
      modifies this`dataSize, this`dataOffset, this`appendable, this`nsamples, this`ts, this`seqno
      ensures r == RtpParse.Parse(buf[..size]) && dataOffset == OffsetSeen(buf[..size])
      ensures nsamples != NSAMPLES_UNKNOWN <==> ToPacket(buf[..size]).Some?
      ensures ToPacket(buf[..size]).Some? ==> Valid() && View() == ToPacket(buf[..size]).value
      ensures r.Err? ==> nsamples == NSAMPLES_UNKNOWN && dataSize == 0 && appendable
      ensures r.Err? ==> ts == old(ts) && seqno == old(seqno)
    {
      ToPacketIs(buf[..size]);
      hide RtpParse.Parse, ToPacket, CalcSamples, OffsetSeen, Be16, Be32;
      dataSize, dataOffset, appendable, nsamples := 0, 0, true, NSAMPLES_UNKNOWN;
      r, dataOffset := ParseHeader(buf, size);
      if r.Err? {
        return;
      }
      dataSize := r.dataSize;
      ts := Be32(buf[..size], 4);
      seqno := Be16(buf[..size], 2);
      if dataSize == 0 {
        return;
      }
      assert PayloadType(buf[..]) == PayloadType(buf[..size]);
      SubSlice(buf[..], r.offset, r.offset + r.dataSize, size);
      hide PayloadType;
      CountPayload();
    }

    /** Counts the samples of the payload; a G.729 comfort noise frame at its end makes the
        packet non-appendable. */
    method CountPayload()
      requires Valid()
      modifies this`nsamples, this`appendable
      ensures nsamples == CalcSamples(PayloadType(buf[..]), Payload())
      ensures appendable == (old(appendable) && !(PayloadType(buf[..]) == RTP_G729 && dataSize % 10 != 0))
    {
      hide CalcSamples;
      var pt := PayloadType(buf[..]);
      nsamples := CountSamples(pt, buf, dataOffset, dataSize);
      if pt == RTP_G729 && dataSize % 10 != 0 {
        appendable := false;
      }
    }
  }

  lemma SubSlice(s: seq<byte>, i: nat, j: nat, n: nat)
    requires i <= j <= n <= |s|
    ensures s[..n][i..j] == s[i..j]
  {
  }

  lemma JoinSlices(s: seq<byte>, i: nat, j: nat, k: nat)
    requires i <= j <= k <= |s|
    ensures s[i..k] == s[i..j] + s[j..k]
  {
  }

  method CountSamples(pt: nat, buf: array<byte>, offset: nat, nbytes: nat) returns (nsamples: int)
    requires offset + nbytes <= buf.Length
    ensures nsamples == CalcSamples(pt, buf[offset..offset + nbytes])
  {
    if pt == RTP_PCMU || pt == RTP_PCMA {
      nsamples := nbytes;
    } else if pt == RTP_G729 {
      nsamples := nbytes / 10 * 80 + if nbytes % 10 == 0 then 0 else 80;
    } else if pt == RTP_GSM {
      nsamples := 160 * (nbytes / 33);
    } else if pt == RTP_G723 {
      nsamples := CountG723(buf, offset, nbytes);
    } else {
      nsamples := NSAMPLES_UNKNOWN;
    }
  }

  /** The header checks of the parser, in the order the source makes them; `offset` is how far
      the payload was found to be when it stopped. */
  method ParseHeader(buf: array<byte>, size: nat) returns (r: Parsed, offset: nat)
    requires size <= buf.Length
    ensures r == RtpParse.Parse(buf[..size]) && offset == OffsetSeen(buf[..size]) && (r.Ok? ==> offset == r.offset)
  {
    ghost var b := buf[..size];
    offset := 0;
    if size < HDR_SIZE {
      return Err(TooShort), offset;
    }
    assert b[0] == buf[0];
    if buf[0] / 64 != 2 {
      return Err(BadVersion), offset;
    }
    offset := HDR_SIZE + 4 * (buf[0] % 16);
    if buf[0] / 16 % 2 != 0 {
      if size < offset + EXT_SIZE {
        return Err(TooShortExtSize), offset;
      }
      var length: int := buf[offset + 2];
      offset := offset + EXT_SIZE + (length * 256 + buf[offset + 3]) * 4;
    }
    if size < offset {
      return Err(TooShortExt), offset;
    }
    var padding: nat := 0;
    if buf[0] / 32 % 2 != 0 {
      if offset == size {
        return Err(TooShortPadSize), offset;
      }
      padding := buf[size - 1];
      if padding == 0 {
        return Err(BadPadSize), offset;
      }
    }
    if size < offset + padding {
      return Err(TooShortPad), offset;
    }
    r := Ok(offset, size - offset - padding);
  }

  /** The head of a packet with at least `min` samples. */
  method FindChunk(p: RtpPacket, min: nat) returns (chunk: Chunk)
    requires p.Valid() && Queued(p.View()) && 0 < min < p.nsamples
    ensures chunk == ChunkOf(p.View(), min)
  {
    var pt := PayloadType(p.buf[..]);
    if pt == RTP_G723 {
      chunk := FindG723Chunk(p.buf, p.dataOffset, p.dataSize, p.nsamples, min);
    } else {
      // the other codecs do not look at the payload
      chunk := FirstChunk(pt, [], p.nsamples, min);
    }
  }
}
