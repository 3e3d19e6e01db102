/** Parsing of RTP datagrams, against the layout of sections 5.1 and 5.3.1 of RFC 3550. */
module RtpParse {
  import opened Options
  import opened Words
  import opened Codec
  import opened ResizerSpec

  const HDR_SIZE := 12
  const EXT_SIZE := 4

  datatype ParseError =
    | TooShort | BadVersion | TooShortExtSize | TooShortExt | TooShortPadSize | TooShortPad | BadPadSize

  /** Where the payload lies in a datagram. */
  datatype Parsed = Ok(offset: nat, dataSize: nat) | Err(error: ParseError)

  // ----- header fields

  function Version(b: seq<byte>): nat requires |b| > 0 { b[0] / 64 }

  predicate HasPadding(b: seq<byte>) requires |b| > 0 { b[0] / 32 % 2 == 1 }

  predicate HasExtension(b: seq<byte>) requires |b| > 0 { b[0] / 16 % 2 == 1 }

  function CsrcCount(b: seq<byte>): nat requires |b| > 0 { b[0] % 16 }

  function PayloadType(b: seq<byte>): nat requires |b| > 1 { b[1] % 128 }

  function Be16(b: seq<byte>, i: nat): u16
    requires i + 2 <= |b|
  {
    var hi: int := b[i];
    hi * 256 + b[i + 1]
  }

  function Be32(b: seq<byte>, i: nat): u32
    requires i + 4 <= |b|
  {
    Be16(b, i) * M16 + Be16(b, i + 2)
  }

  /** `rtp_packet_parse` on the received bytes. */
  function Parse(b: seq<byte>): (r: Parsed)
    ensures r.Ok? ==> HDR_SIZE <= r.offset && r.offset + r.dataSize <= |b|
  {
    if |b| < HDR_SIZE then Err(TooShort)
    else if Version(b) != 2 then Err(BadVersion)
    else
      var hdr := HDR_SIZE + 4 * CsrcCount(b);
      if HasExtension(b) && |b| < hdr + EXT_SIZE then Err(TooShortExtSize)
      else
        var offset := if HasExtension(b) then hdr + EXT_SIZE + 4 * Be16(b, hdr + 2) else hdr;
        if |b| < offset then Err(TooShortExt)
        else if HasPadding(b) && offset == |b| then Err(TooShortPadSize)
        else if HasPadding(b) && b[|b| - 1] == 0 then Err(BadPadSize)
        else
          var padding: nat := if HasPadding(b) then b[|b| - 1] else 0;
          if |b| < offset + padding then Err(TooShortPad) else Ok(offset, |b| - offset - padding)
  }

  /** Where the parser takes the payload to begin when it stops, be it with an error: nowhere
      before it has seen the header, and behind the extension once it knows its length. */
  function OffsetSeen(b: seq<byte>): nat {
    if |b| < HDR_SIZE || Version(b) != 2 then 0 else
    var hdr := HDR_SIZE + 4 * CsrcCount(b);
    if HasExtension(b) && hdr + EXT_SIZE <= |b| then hdr + EXT_SIZE + 4 * Be16(b, hdr + 2) else hdr
  }

  /** The packet a parsed datagram becomes; nothing when it does not parse or its
      sample count is unknown, in which case it is not for the re-packetizer. */
  function ToPacket(b: seq<byte>): (p: Option<Packet>)
    requires |b| <= BUF_SIZE
    ensures p.Some? ==> Queued(p.value)
  {
    var r := Parse(b);
    if r.Err? || r.dataSize == 0 then None else
    var data := b[r.offset..r.offset + r.dataSize];
    var pt := PayloadType(b);
    var nsamples := CalcSamples(pt, data);
    if nsamples == NSAMPLES_UNKNOWN then None
    else Some(Packet(|b|, r.offset, nsamples, Be32(b, 4), Be16(b, 2),
                     !(pt == RTP_G729 && r.dataSize % 10 != 0), pt, data))
  }

  lemma ToPacketIs(b: seq<byte>)
    requires |b| <= BUF_SIZE
    ensures var r := Parse(b);
      ToPacket(b) ==
        if r.Err? || r.dataSize == 0 then None else
        var data, pt := b[r.offset..r.offset + r.dataSize], PayloadType(b);
        if CalcSamples(pt, data) == NSAMPLES_UNKNOWN then None
        else Some(Packet(|b|, r.offset, CalcSamples(pt, data), Be32(b, 4), Be16(b, 2),
                         !(pt == RTP_G729 && r.dataSize % 10 != 0), pt, data))
  {
  }

  // ----- the wire format of RFC 3550

  datatype Extension = Extension(profile: u16, words: seq<byte>)

  /** An RTP packet as its sender composes it: `padding` counts the padding octets. */
  datatype Wire = Wire(
    marker: bool, pt: nat, seqno: u16, ts: u32, ssrc: u32,
    csrc: seq<byte>, ext: Option<Extension>, payload: seq<byte>, padding: seq<byte>)

  predicate WireOk(w: Wire) {
    && w.pt < 128
    && |w.csrc| % 4 == 0 && |w.csrc| / 4 < 16
    && (w.ext.Some? ==> |w.ext.value.words| % 4 == 0 && |w.ext.value.words| / 4 < M16)
    && (w.padding != [] ==> |w.padding| < 256 && w.padding[|w.padding| - 1] == |w.padding|)
  }

  function Bytes16(x: u16): (b: seq<byte>)
    ensures |b| == 2 && Be16(b, 0) == x
  {
    [x / 256, x % 256]
  }

  function Bytes32(x: u32): (b: seq<byte>)
    ensures |b| == 4
  {
    Bytes16(x / M16) + Bytes16(x % M16)
  }

  function FirstByte(w: Wire): byte
    requires WireOk(w)
  {
    128 + (if w.padding != [] then 32 else 0) + (if w.ext.Some? then 16 else 0) + |w.csrc| / 4
  }

  function FixedHeader(w: Wire): (b: seq<byte>)
    requires WireOk(w)
    ensures |b| == HDR_SIZE
  {
    [FirstByte(w), (if w.marker then 128 else 0) + w.pt] + Bytes16(w.seqno) + Bytes32(w.ts) + Bytes32(w.ssrc)
  }

  function ExtensionBytes(w: Wire): seq<byte>
    requires WireOk(w)
  {
    if w.ext.None? then [] else
    Bytes16(w.ext.value.profile) + Bytes16(|w.ext.value.words| / 4) + w.ext.value.words
  }

  /** Everything before the payload. */
  function Header(w: Wire): seq<byte>
    requires WireOk(w)
  {
    FixedHeader(w) + w.csrc + ExtensionBytes(w)
  }

  function Serialize(w: Wire): seq<byte>
    requires WireOk(w)
  {
    Header(w) + w.payload + w.padding
  }

  lemma FixedHeaderFields(w: Wire)
    requires WireOk(w)
    ensures
      var b := FixedHeader(w);
      && Version(b) == 2 && HasPadding(b) == (w.padding != []) && HasExtension(b) == w.ext.Some?
      && CsrcCount(b) == |w.csrc| / 4 && PayloadType(b) == w.pt
      && Be16(b, 2) == w.seqno && Be32(b, 4) == w.ts
  {
    var b := FixedHeader(w);
    assert b[0] == FirstByte(w);
    assert b[2..4] == Bytes16(w.seqno);
    assert b[4..6] == Bytes16(w.ts / M16);
    assert b[6..8] == Bytes16(w.ts % M16);
  }

  /** Reading fields that lie in a common prefix. */
  lemma PrefixFields(a: seq<byte>, b: seq<byte>)
    requires |a| == HDR_SIZE <= |b| && a == b[..HDR_SIZE]
    ensures Version(a) == Version(b) && HasPadding(a) == HasPadding(b) && HasExtension(a) == HasExtension(b)
    ensures CsrcCount(a) == CsrcCount(b) && PayloadType(a) == PayloadType(b)
    ensures Be16(a, 2) == Be16(b, 2) && Be32(a, 4) == Be32(b, 4)
  {
    assert forall i :: 0 <= i < HDR_SIZE ==> a[i] == b[i];
  }

  /** Every packet that RFC 3550 lets a sender compose parses, and the payload and the
      fields come back. */
  lemma ParseSerialized(w: Wire)
    requires WireOk(w)
    ensures
      var b := Serialize(w);
      && Parse(b) == Ok(|Header(w)|, |w.payload|)
      && b[|Header(w)|..|Header(w)| + |w.payload|] == w.payload
      && PayloadType(b) == w.pt && Be16(b, 2) == w.seqno && Be32(b, 4) == w.ts
  {
    var b := Serialize(w);
    FixedHeaderFields(w);
    assert b[..HDR_SIZE] == FixedHeader(w);
    PrefixFields(FixedHeader(w), b);
    var hdr := HDR_SIZE + |w.csrc|;
    assert |w.csrc| == 4 * (|w.csrc| / 4);
    if w.ext.Some? {
      var len := |w.ext.value.words| / 4;
      assert |w.ext.value.words| == 4 * len;
      assert b[hdr + 2..hdr + 4] == Bytes16(len);
      assert Be16(b, hdr + 2) == Be16(b[hdr + 2..hdr + 4], 0);
    }
    if w.padding != [] {
      assert b[|b| - 1] == w.padding[|w.padding| - 1];
    }
  }

  // ----- the converse

  /** The packet whose serialization a parsed datagram is. */
  function Recompose(b: seq<byte>): (w: Wire)
    requires Parse(b).Ok?
  {
    var r := Parse(b);
    var hdr := HDR_SIZE + 4 * CsrcCount(b);
    Wire(b[1] / 128 == 1, PayloadType(b), Be16(b, 2), Be32(b, 4), Be32(b, 8),
         b[HDR_SIZE..hdr],
         if HasExtension(b) then Some(Extension(Be16(b, hdr), b[hdr + EXT_SIZE..r.offset])) else None,
         b[r.offset..r.offset + r.dataSize],
         b[r.offset + r.dataSize..])
  }

  lemma RecomposeOk(b: seq<byte>)
    requires Parse(b).Ok?
    ensures WireOk(Recompose(b))
  {
    var w := Recompose(b);
    if w.padding != [] {
      assert w.padding[|w.padding| - 1] == b[|b| - 1];
    }
  }

  lemma Bytes16Of(b: seq<byte>, i: nat)
    requires i + 2 <= |b|
    ensures Bytes16(Be16(b, i)) == b[i..i + 2]
  {
  }

  lemma Bytes32Of(b: seq<byte>, i: nat)
    requires i + 4 <= |b|
    ensures Bytes32(Be32(b, i)) == b[i..i + 4]
  {
    var hi, lo := Be16(b, i), Be16(b, i + 2);
    assert Be32(b, i) / M16 == hi && Be32(b, i) % M16 == lo;
    Bytes16Of(b, i);
    Bytes16Of(b, i + 2);
    assert b[i..i + 4] == b[i..i + 2] + b[i + 2..i + 4];
  }

  /** The parser accepts nothing else: whatever parses is such a packet, and only one. */
  lemma SerializeParsed(b: seq<byte>)
    requires Parse(b).Ok?
    ensures WireOk(Recompose(b)) && Serialize(Recompose(b)) == b
  {
    RecomposeOk(b);
    FixedHeaderOf(b);
    ExtensionOf(b);
    var w, r := Recompose(b), Parse(b);
    var hdr := HDR_SIZE + 4 * CsrcCount(b);
    assert Header(w) == b[..r.offset] by {
      assert b[..r.offset] == b[..HDR_SIZE] + b[HDR_SIZE..hdr] + b[hdr..r.offset];
    }
    assert b == b[..r.offset] + b[r.offset..r.offset + r.dataSize] + b[r.offset + r.dataSize..];
  }

  lemma FixedHeaderOf(b: seq<byte>)
    requires Parse(b).Ok? && WireOk(Recompose(b))
    ensures FixedHeader(Recompose(b)) == b[..HDR_SIZE]
  {
    var w := Recompose(b);
    FirstByteOf(b);
    Bytes16Of(b, 2);
    Bytes32Of(b, 4);
    Bytes32Of(b, 8);
    assert b[..HDR_SIZE] == [b[0], b[1]] + b[2..4] + b[4..8] + b[8..12];
  }

  lemma FirstByteOf(b: seq<byte>)
    requires Parse(b).Ok? && WireOk(Recompose(b))
    ensures FirstByte(Recompose(b)) == b[0]
  {
    var w := Recompose(b);
    assert |w.csrc| / 4 == CsrcCount(b);
    assert w.padding != [] <==> HasPadding(b);
  }

  lemma ExtensionOf(b: seq<byte>)
    requires Parse(b).Ok? && WireOk(Recompose(b))
    ensures ExtensionBytes(Recompose(b)) == b[HDR_SIZE + 4 * CsrcCount(b)..Parse(b).offset]
  {
    var r := Parse(b);
    var hdr := HDR_SIZE + 4 * CsrcCount(b);
    if HasExtension(b) {
      Bytes16Of(b, hdr);
      Bytes16Of(b, hdr + 2);
      assert b[hdr..r.offset] == b[hdr..hdr + 2] + b[hdr + 2..hdr + 4] + b[hdr + 4..r.offset];
    }
  }
}
