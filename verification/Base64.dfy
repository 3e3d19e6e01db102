/** Base 64 encoding and decoding over byte buffers, with the standard alphabet and with the
    shifted one, and the encoder that looks up two digits at a time. */
module Base64 {

  type byte = bv8

  datatype Alphabet = Standard | Shifted

  /** `base64_enc_char`. */
  function EncChar(v: byte): byte {
    if v == 0x3f then 0x2f
    else if v == 0x3e then 0x2b
    else if v <= 25 then v + 0x41
    else if v <= 51 then v - 26 + 0x61
    else if v <= 61 then v - 52 + 0x30
    else 0xff
  }

  /** `base64_dec_char`. */
  function DecChar(c: byte): byte {
    if c == 0x2f then 0x3f
    else if c == 0x2b then 0x3e
    else if c < 0x30 || (0x3a <= c <= 0x40) || (0x5b <= c <= 0x60) then 0xff
    else if c <= 0x39 then c - 0x30 + 0x34
    else if c <= 0x5a then c - 0x41
    else if c <= 0x7a then c - 0x61 + 0x1a
    else 0xff
  }

  function Enc(al: Alphabet, v: byte): byte {
    if al.Standard? then EncChar(v) else v + 0x30
  }

  function Dec(al: Alphabet, c: byte): byte {
    if al.Standard? then DecChar(c) else c - 0x30
  }

  function Pad(al: Alphabet): byte {
    if al.Standard? then 0x3d else 0x7a
  }

  /** Characters that follow each other. */
  function Letters(first: char, n: nat): (s: seq<int>)
    ensures |s| == n
  {
    seq(n, i => first as int + i)
  }

  /** The alphabets: table 1 of RFC 4648, and 64 characters in a row. */
  function Digits(al: Alphabet): (s: seq<int>)
    ensures |s| == 64
  {
    match al
    case Standard => Letters('A', 26) + Letters('a', 26) + Letters('0', 10) + ['+' as int, '/' as int]
    case Shifted => Letters('0', 64)
  }

  lemma EncIsAlphabet(al: Alphabet, v: byte)
    requires v < 64
    ensures Enc(al, v) as int == Digits(al)[v as int]
    ensures Pad(al) as int == (if al.Standard? then '=' else 'z') as int
  {
  }

  /** Outside the table, the standard decoder has no digit: it gives 255. */
  lemma DecOutsideAlphabet(c: byte)
    ensures (exists v: byte :: v < 64 && EncChar(v) == c) <==> DecChar(c) < 64
    ensures DecChar(c) < 64 || DecChar(c) == 0xff
    ensures c as int in Digits(Standard) <==> DecChar(c) < 64
  {
    if DecChar(c) < 64 {
      assert EncChar(DecChar(c)) == c;
      EncIsAlphabet(Standard, DecChar(c));
    }
    if c as int in Digits(Standard) {
      var k :| 0 <= k < 64 && Digits(Standard)[k] == c as int;
      EncIsAlphabet(Standard, k as byte);
    }
  }

  // ----- six bits at a time, and back

  function D1(a: byte): byte { a >> 2 }

  function D2(a: byte, b: byte): byte { ((a << 4) & 0x3f) | (b >> 4) }

  function D3(b: byte, c: byte): byte { ((b << 2) & 0x3f) | (c >> 6) }

  function D4(c: byte): byte { c & 0x3f }

  function U1(a: byte, b: byte): byte { (a << 2) | (b >> 4) }

  function U2(b: byte, c: byte): byte { (b << 4) | (c >> 2) }

  function U3(c: byte, d: byte): byte { (c << 6) | d }

  /** The digits are the four six-bit groups of the three bytes put together, as in section 4
      of RFC 4648, and the three bytes come back from them. */
  lemma DigitsOfGroup(a: byte, b: byte, c: byte)
    ensures var u := ((a as bv24) << 16) | ((b as bv24) << 8) | (c as bv24);
      && D1(a) as bv24 == u >> 18 && D2(a, b) as bv24 == (u >> 12) & 0x3f
      && D3(b, c) as bv24 == (u >> 6) & 0x3f && D4(c) as bv24 == u & 0x3f
    ensures D1(a) < 64 && D2(a, b) < 64 && D3(b, c) < 64 && D4(c) < 64
    ensures U1(D1(a), D2(a, b)) == a && U2(D2(a, b), D3(b, c)) == b && U3(D3(b, c), D4(c)) == c
  {
  }

  /** Each digit decodes to its value and is not the pad character. */
  lemma DigitRoundTrip(al: Alphabet, v: byte)
    requires v < 64
    ensures Dec(al, Enc(al, v)) == v && Enc(al, v) != Pad(al)
  {
  }

  // ----- whole strings

  function Quad(al: Alphabet, a: byte, b: byte, c: byte): seq<byte> {
    [Enc(al, D1(a)), Enc(al, D2(a, b)), Enc(al, D3(b, c)), Enc(al, D4(c))]
  }

  function LastQuad(al: Alphabet, s: seq<byte>): seq<byte>
    requires |s| < 3
  {
    if |s| == 2 then [Enc(al, D1(s[0])), Enc(al, D2(s[0], s[1])), Enc(al, D3(s[1], 0)), Pad(al)]
    else if |s| == 1 then [Enc(al, D1(s[0])), Enc(al, D2(s[0], 0)), Pad(al), Pad(al)]
    else []
  }

  function Encode(al: Alphabet, s: seq<byte>): (r: seq<byte>)
    ensures |r| == EncLen(|s|)
  {
    if |s| < 3 then LastQuad(al, s) else Quad(al, s[0], s[1], s[2]) + Encode(al, s[3..])
  }

  predicate Accepts(al: Alphabet, s: seq<byte>) {
    && |s| >= 4 && |s| % 4 == 0
    && !(s[|s| - 2] == Pad(al) && s[|s| - 1] != Pad(al))
  }

  function Pads(al: Alphabet, s: seq<byte>): nat
    requires |s| >= 4
  {
    (if s[|s| - 2] == Pad(al) then 1 else 0) + if s[|s| - 1] == Pad(al) then 1 else 0
  }

  function Triple(al: Alphabet, s: seq<byte>): seq<byte>
    requires |s| >= 4
  {
    var a, b, c, d := Dec(al, s[0]), Dec(al, s[1]), Dec(al, s[2]), Dec(al, s[3]);
    [U1(a, b), U2(b, c), U3(c, d)]
  }

  /** Characters outside the alphabet are not rejected; they decode to some bytes. */
  function Decode(al: Alphabet, s: seq<byte>): (r: seq<byte>)
    requires Accepts(al, s)
    ensures |r| == |s| / 4 * 3 - Pads(al, s)
  {
    if |s| == 4 then Triple(al, s)[..3 - Pads(al, s)] else Triple(al, s) + Decode(al, s[4..])
  }

  lemma QuadDecodes(al: Alphabet, a: byte, b: byte, c: byte)
    ensures Triple(al, Quad(al, a, b, c)) == [a, b, c]
    ensures Quad(al, a, b, c)[2] != Pad(al) && Quad(al, a, b, c)[3] != Pad(al)
  {
    DigitsOfGroup(a, b, c);
    DigitRoundTrip(al, D1(a));
    DigitRoundTrip(al, D2(a, b));
    DigitRoundTrip(al, D3(b, c));
    DigitRoundTrip(al, D4(c));
  }

  lemma LastQuadDecodes(al: Alphabet, s: seq<byte>)
    requires 0 < |s| < 3
    ensures Accepts(al, LastQuad(al, s)) && Decode(al, LastQuad(al, s)) == s
  {
    var b := if |s| == 2 then s[1] else 0;
    var q := LastQuad(al, s);
    DigitsOfGroup(s[0], b, 0);
    DigitRoundTrip(al, D1(s[0]));
    DigitRoundTrip(al, D2(s[0], b));
    DigitRoundTrip(al, D3(b, 0));
    assert Triple(al, q)[0] == s[0] && (|s| == 2 ==> Triple(al, q)[1] == b);
  }

  lemma DecodeFirst(al: Alphabet, q: seq<byte>, rest: seq<byte>)
    requires |q| == 4 && (rest == [] || Accepts(al, rest)) && q[2] != Pad(al) && q[3] != Pad(al)
    ensures Accepts(al, q + rest)
    ensures Decode(al, q + rest) == Triple(al, q) + if rest == [] then [] else Decode(al, rest)
  {
    if rest != [] {
      var s := q + rest;
      assert s[4..] == rest && s[|s| - 2] == rest[|rest| - 2] && s[|s| - 1] == rest[|rest| - 1];
      assert s[0] == q[0] && s[1] == q[1] && s[2] == q[2] && s[3] == q[3];
      assert Triple(al, s) == Triple(al, q);
    } else {
      assert q + rest == q;
    }
  }

  lemma QuadFirst(al: Alphabet, a: byte, b: byte, c: byte, rest: seq<byte>, e: seq<byte>)
    requires if rest == [] then e == [] else Accepts(al, e) && Decode(al, e) == rest
    ensures Accepts(al, Quad(al, a, b, c) + e) && Decode(al, Quad(al, a, b, c) + e) == [a, b, c] + rest
  {
    QuadDecodes(al, a, b, c);
    assert |Quad(al, a, b, c)| == 4;
    hide Quad, Triple, Decode;
    DecodeFirst(al, Quad(al, a, b, c), e);
  }

  /** Every byte string comes back; only the empty encoding is not accepted. */
  lemma {:induction false} RoundTrip(al: Alphabet, s: seq<byte>)
    ensures Accepts(al, Encode(al, s)) <==> s != []
    ensures s != [] ==> Decode(al, Encode(al, s)) == s
  {
    hide *;
    EncodeCases(al, s);
    if |s| >= 3 {
      RoundTrip(al, s[3..]);
      EncodeCases(al, s[3..]);
      QuadFirst(al, s[0], s[1], s[2], s[3..], Encode(al, s[3..]));
      assert s == [s[0], s[1], s[2]] + s[3..];
    } else if s != [] {
      LastQuadDecodes(al, s);
    }
  }

  lemma EncodeCases(al: Alphabet, s: seq<byte>)
    ensures |s| >= 3 ==> Encode(al, s) == Quad(al, s[0], s[1], s[2]) + Encode(al, s[3..])
    ensures |s| < 3 ==> Encode(al, s) == LastQuad(al, s)
    ensures s == [] ==> Encode(al, s) == [] && !Accepts(al, [])
  {
  }

  // ----- which strings are encodings

  predicate Letter(al: Alphabet, c: byte) {
    if al.Shifted? then 0x30 <= c < 0x70
    else 0x41 <= c <= 0x5a || 0x61 <= c <= 0x7a || 0x30 <= c <= 0x39 || c == 0x2b || c == 0x2f
  }

  /** Every character but the padding is in the alphabet, and the bits of the last one that
      carry nothing are zero, as section 3.5 of RFC 4648 has it. */
  predicate Canonical(al: Alphabet, s: seq<byte>)
    requires |s| >= 4
  {
    var n := |s| - Pads(al, s);
    && (forall i :: 0 <= i < n ==> Letter(al, s[i]))
    && (Pads(al, s) == 1 ==> Dec(al, s[n - 1]) & 0x3 == 0)
    && (Pads(al, s) == 2 ==> Dec(al, s[n - 1]) & 0xf == 0)
  }

  /** The letters are the digits, one for each value. */
  lemma LetterDigit(al: Alphabet, c: byte, v: byte)
    requires v < 64
    ensures c == Enc(al, v) <==> Letter(al, c) && Dec(al, c) == v
    ensures Letter(al, c) ==> Dec(al, c) < 64
    ensures !Letter(al, Pad(al))
  {
    if al.Standard? { StandardDigit(c, v); } else { ShiftedDigit(c, v); }
  }

  lemma StandardDigit(c: byte, v: byte)
    requires v < 64
    ensures c == EncChar(v) <==> Letter(Standard, c) && DecChar(c) == v
    ensures Letter(Standard, c) ==> DecChar(c) < 64
  {
  }

  lemma ShiftedDigit(c: byte, v: byte)
    requires v < 64
    ensures c == Enc(Shifted, v) <==> Letter(Shifted, c) && Dec(Shifted, c) == v
    ensures Letter(Shifted, c) ==> Dec(Shifted, c) < 64
  {
  }

  lemma GroupOfDigits(a: byte, b: byte, c: byte, d: byte)
    requires a < 64 && b < 64 && c < 64 && d < 64
    ensures D1(U1(a, b)) == a && D2(U1(a, b), U2(b, c)) == b && D3(U2(b, c), U3(c, d)) == c && D4(U3(c, d)) == d
    ensures D3(U2(b, c), 0) == c <==> c & 0x3 == 0
    ensures D2(U1(a, b), 0) == b <==> b & 0xf == 0
  {
  }

  lemma FourBack(a: byte, b: byte, c: byte, d: byte)
    ensures D1(U1(a, b)) == a && D2(U1(a, b), U2(b, c)) == b && D3(U2(b, c), U3(c, d)) == c && D4(U3(c, d)) == d
       <==> a < 64 && b < 64 && c < 64 && d < 64
  {
  }

  lemma DigitsSmall(a: byte, b: byte, c: byte)
    ensures D1(a) < 64 && D2(a, b) < 64 && D3(b, c) < 64 && D4(c) < 64
  {
  }

  /** Four characters come back from their three bytes exactly if all are letters. */
  lemma QuadBack(al: Alphabet, q: seq<byte>)
    requires |q| == 4
    ensures var t := Triple(al, q);
      Quad(al, t[0], t[1], t[2]) == q <==>
        Letter(al, q[0]) && Letter(al, q[1]) && Letter(al, q[2]) && Letter(al, q[3])
  {
    var a, b, c, d := Dec(al, q[0]), Dec(al, q[1]), Dec(al, q[2]), Dec(al, q[3]);
    var x, y, z := U1(a, b), U2(b, c), U3(c, d);
    DigitsSmall(x, y, z);
    FourBack(a, b, c, d);
    LetterDigit(al, q[0], D1(x));
    LetterDigit(al, q[1], D2(x, y));
    LetterDigit(al, q[2], D3(y, z));
    LetterDigit(al, q[3], D4(z));
    hide D1, D2, D3, D4, U1, U2, U3, Enc, Dec, Letter;
    SameFour(Quad(al, x, y, z), q);
  }

  lemma SameFour(u: seq<byte>, q: seq<byte>)
    requires |u| == |q| == 4
    ensures u == q <==> u[0] == q[0] && u[1] == q[1] && u[2] == q[2] && u[3] == q[3]
  {
  }

  lemma SameParts(u: seq<byte>, e: seq<byte>, q: seq<byte>, rest: seq<byte>)
    requires |u| == |q|
    ensures u + e == q + rest <==> u == q && e == rest
  {
    assert (u + e)[..|u|] == u && (u + e)[|u|..] == e && (q + rest)[..|u|] == q && (q + rest)[|u|..] == rest;
  }

  lemma LastQuadBack(al: Alphabet, q: seq<byte>)
    requires |q| == 4 && Accepts(al, q) && Pads(al, q) > 0
    ensures LastQuad(al, Triple(al, q)[..3 - Pads(al, q)]) == q <==> Canonical(al, q)
  {
    var t, p := Triple(al, q), Pads(al, q);
    var b := if p == 1 then t[1] else 0;
    DigitsSmall(t[0], b, 0);
    hide D1, D2, D3, D4, U1, U2, U3, Enc, Dec, Letter;
    LetterDigit(al, q[0], D1(t[0]));
    LetterDigit(al, q[1], D2(t[0], b));
    LetterDigit(al, q[2], D3(b, 0));
    if Letter(al, q[0]) && Letter(al, q[1]) {
      GroupOfDigits(Dec(al, q[0]), Dec(al, q[1]), if p == 1 && Letter(al, q[2]) then Dec(al, q[2]) else 0, 0);
    }
  }

  /** Of the strings the decoder takes, exactly the canonical ones are what encoding the
      result gives again: the others stand for the same bytes as another string. */
  lemma {:induction false} CanonicalIff(al: Alphabet, s: seq<byte>)
    requires Accepts(al, s)
    ensures Encode(al, Decode(al, s)) == s <==> Canonical(al, s)
    decreases |s|
  {
    hide Enc, Dec, Letter, D1, D2, D3, D4, U1, U2, U3;
    var t := Triple(al, s);
    if |s| > 4 {
      var q, rest := s[..4], s[4..];
      CanonicalIff(al, rest);
      QuadBack(al, q);
      var d := Decode(al, rest);
      assert Decode(al, s) == t + d && (t + d)[3..] == d && t == Triple(al, q);
      assert Encode(al, t + d) == Quad(al, t[0], t[1], t[2]) + Encode(al, d);
      assert |Quad(al, t[0], t[1], t[2])| == 4 && s == q + rest;
      CanonicalCons(al, s);
      SameParts(Quad(al, t[0], t[1], t[2]), Encode(al, d), q, rest);
    } else if Pads(al, s) == 0 {
      QuadBack(al, s);
      assert t[..3] == t && t[3..] == [];
    } else {
      LastQuadBack(al, s);
    }
  }

  lemma CanonicalCons(al: Alphabet, s: seq<byte>)
    requires Accepts(al, s) && |s| > 4
    ensures Canonical(al, s) <==>
      Canonical(al, s[4..]) && Letter(al, s[0]) && Letter(al, s[1]) && Letter(al, s[2]) && Letter(al, s[3])
  {
    var r, n := s[4..], |s| - Pads(al, s);
    assert r[|r| - 2] == s[|s| - 2] && r[|r| - 1] == s[|s| - 1];
    hide Letter, Dec;
    if Canonical(al, r) && Letter(al, s[0]) && Letter(al, s[1]) && Letter(al, s[2]) && Letter(al, s[3]) {
      forall i | 0 <= i < n ensures Letter(al, s[i]) {
        if i >= 4 { assert s[i] == r[i - 4]; }
      }
    }
    if Canonical(al, s) {
      forall i | 0 <= i < n - 4 ensures Letter(al, r[i]) { assert r[i] == s[i + 4]; }
    }
  }

  // ----- the encoders and decoders as code

  lemma EncodeStep(al: Alphabet, s: seq<byte>, i: nat)
    requires i + 3 <= |s|
    ensures Encode(al, s[i..]) == Quad(al, s[i], s[i + 1], s[i + 2]) + Encode(al, s[i + 3..])
  {
    assert s[i..][3..] == s[i + 3..];
  }

  lemma DecodeStep(al: Alphabet, s: seq<byte>, i: nat)
    requires Accepts(al, s) && i + 4 < |s| && i % 4 == 0
    ensures Accepts(al, s[i..]) && Accepts(al, s[i + 4..])
    ensures Decode(al, s[i..]) == Triple(al, s[i..i + 4]) + Decode(al, s[i + 4..])
  {
    var t := s[i..];
    assert t[4..] == s[i + 4..];
    assert Triple(al, t) == Triple(al, s[i..i + 4]);
  }

  /** Stores four bytes. */
  method Write4(dst: array<byte>, k: nat, d0: byte, d1: byte, d2: byte, d3: byte)
    requires k + 4 <= dst.Length
    modifies dst
    ensures dst[..] == old(dst[..k]) + [d0, d1, d2, d3] + old(dst[k + 4..])
  {
    dst[k], dst[k + 1], dst[k + 2], dst[k + 3] := d0, d1, d2, d3;
  }

  function EncLen(n: nat): int {
    (n + 2) / 3 * 4
  }

  /** What an encoder leaves in the buffer and reports. */
  ghost predicate Encoded(al: Alphabet, src: seq<byte>, before: seq<byte>, after: seq<byte>, n: int) {
    if |before| < EncLen(|src|) then n == -EncLen(|src|) && after == before
    else n == EncLen(|src|) && after == Encode(al, src) + before[EncLen(|src|)..]
  }

  /** The loop state: `g` groups read and written, the rest of the buffer untouched. */
  ghost predicate EncodedUpTo(al: Alphabet, src: seq<byte>, before: seq<byte>, now: seq<byte>, g: nat) {
    && 3 * g <= |src| && |now| == |before| && 4 * g <= |now|
    && now[..4 * g] + Encode(al, src[3 * g..]) == Encode(al, src) && now[4 * g..] == before[4 * g..]
  }

  lemma EncodedStart(al: Alphabet, src: seq<byte>, before: seq<byte>)
    ensures EncodedUpTo(al, src, before, before, 0)
  {
    assert src[0..] == src && before[..0] + Encode(al, src) == Encode(al, src);
  }

  lemma EncodedNext(al: Alphabet, src: seq<byte>, before: seq<byte>, now: seq<byte>, next: seq<byte>, g: nat)
    requires EncodedUpTo(al, src, before, now, g) && 3 * g + 3 <= |src| && 4 * g + 4 <= |now|
    requires var (i, o) := (3 * g, 4 * g); next == now[..o] + Quad(al, src[i], src[i + 1], src[i + 2]) + now[o + 4..]
    ensures EncodedUpTo(al, src, before, next, g + 1)
  {
    var i := 3 * g;
    EncodeStep(al, src, i);
    hide Enc, Encode;
    BlockWritten(now, before, next, 4 * g, Quad(al, src[i], src[i + 1], src[i + 2]),
                 Encode(al, src[i + 3..]), Encode(al, src));
  }

  /** Writing the next block of the result moves the border between done and untouched. */
  lemma BlockWritten(now: seq<byte>, before: seq<byte>, next: seq<byte>, o: nat, block: seq<byte>,
                     rest: seq<byte>, all: seq<byte>)
    requires o + |block| <= |now| == |before| && next == now[..o] + block + now[o + |block|..]
    requires now[..o] + (block + rest) == all && now[o..] == before[o..]
    ensures |next| == |now| && next[..o + |block|] + rest == all
    ensures next[o + |block|..] == before[o + |block|..]
  {
    assert next[..o + |block|] == now[..o] + block;
    assert next[o + |block|..] == now[o..][|block|..] == before[o..][|block|..] == before[o + |block|..];
    assert (now[..o] + block) + rest == now[..o] + (block + rest);
  }

  lemma EncodedEnd(al: Alphabet, src: seq<byte>, before: seq<byte>, now: seq<byte>, last: seq<byte>, g: nat)
    requires EncodedUpTo(al, src, before, now, g) && |src| - 3 * g < 3 && EncLen(|src|) <= |now|
    requires last == now[..4 * g] + LastQuad(al, src[3 * g..]) + now[EncLen(|src|)..]
    ensures Encoded(al, src, before, last, EncLen(|src|))
  {
    EncodeRoom(|src|, g);
    var o, osize := 4 * g, EncLen(|src|);
    assert now[osize..] == now[o..][osize - o..] == before[osize..];
  }

  lemma EncodeRoom(slen: nat, g: nat)
    requires 3 * g <= slen
    ensures 3 * g + 3 <= slen ==> 4 * g + 4 <= EncLen(slen)
    ensures slen - 3 * g < 3 ==>
      slen % 3 == slen - 3 * g && EncLen(slen) == if slen % 3 == 0 then 4 * g else 4 * g + 4
  {
  }

  method WritePlain(dst: array<byte>, k: nat, a: byte, b: byte, c: byte)
    requires k + 4 <= dst.Length
    modifies dst
    ensures dst[..] == old(dst[..k]) + Quad(Standard, a, b, c) + old(dst[k + 4..])
  {
    Write4(dst, k, EncChar(D1(a)), EncChar(D2(a, b)), EncChar(D3(b, c)), EncChar(D4(c)));
  }

  method WriteLastPlain(dst: array<byte>, k: nat, s: seq<byte>)
    requires k + 4 <= dst.Length && 0 < |s| < 3
    modifies dst
    ensures dst[..] == old(dst[..k]) + LastQuad(Standard, s) + old(dst[k + 4..])
  {
    if |s| == 2 {
      Write4(dst, k, EncChar(D1(s[0])), EncChar(D2(s[0], s[1])), EncChar(D3(s[1], 0)), 0x3d);
    } else {
      Write4(dst, k, EncChar(D1(s[0])), EncChar(D2(s[0], 0)), 0x3d, 0x3d);
    }
  }

  /** `base64_enc` without the 8K tables. */
  method EncodePlain(src: seq<byte>, dst: array<byte>) returns (n: int)
    modifies dst
    ensures Encoded(Standard, src, old(dst[..]), dst[..], n)
  {
    if dst.Length < EncLen(|src|) { return -EncLen(|src|); }
    var g := 0;
    ghost var before := dst[..];
    EncodedStart(Standard, src, before);
    hide Quad, EncodedUpTo, Encoded, Encode;
    while 3 * g + 3 <= |src|
      invariant EncodedUpTo(Standard, src, before, dst[..], g) && 3 * g <= |src|
    {
      var i := 3 * g;
      ghost var now := dst[..];
      EncodeRoom(|src|, g);
      WritePlain(dst, 4 * g, src[i], src[i + 1], src[i + 2]);
      EncodedNext(Standard, src, before, now, dst[..], g);
      g := g + 1;
    }
    ghost var now := dst[..];
    EncodeRoom(|src|, g);
    if |src| % 3 != 0 { WriteLastPlain(dst, 4 * g, src[3 * g..]); }
    EncodedEnd(Standard, src, before, now, dst[..], g);
    return EncLen(|src|);
  }

  method WriteShifted(dst: array<byte>, k: nat, a: byte, b: byte, c: byte)
    requires k + 4 <= dst.Length
    modifies dst
    ensures dst[..] == old(dst[..k]) + Quad(Shifted, a, b, c) + old(dst[k + 4..])
  {
    ShiftedDigits(a, b, c);
    Write4(dst, k, Q1(a), Q2(a) | (b >> 4), Q3(b) | (c >> 6), Q4(c));
  }

  method WriteLastShifted(dst: array<byte>, k: nat, s: seq<byte>)
    requires k + 4 <= dst.Length && 0 < |s| < 3
    modifies dst
    ensures dst[..] == old(dst[..k]) + LastQuad(Shifted, s) + old(dst[k + 4..])
  {
    if |s| == 2 {
      ShiftedDigits(s[0], s[1], 0);
      Write4(dst, k, Q1(s[0]), Q2(s[0]) | (s[1] >> 4), Q3(s[1]), 0x7a);
    } else {
      ShiftedDigits(s[0], 0, 0);
      Write4(dst, k, Q1(s[0]), Q2(s[0]), 0x7a, 0x7a);
    }
  }

  /** `q_base64_enc`: the digits are offsets from a base character. */
  method EncodeShifted(src: seq<byte>, dst: array<byte>) returns (n: int)
    modifies dst
    ensures Encoded(Shifted, src, old(dst[..]), dst[..], n)
  {
    if dst.Length < EncLen(|src|) { return -EncLen(|src|); }
    var g := 0;
    ghost var before := dst[..];
    EncodedStart(Shifted, src, before);
    hide Quad, EncodedUpTo, Encoded, Encode;
    while 3 * g + 3 <= |src|
      invariant EncodedUpTo(Shifted, src, before, dst[..], g) && 3 * g <= |src|
    {
      var i := 3 * g;
      ghost var now := dst[..];
      EncodeRoom(|src|, g);
      WriteShifted(dst, 4 * g, src[i], src[i + 1], src[i + 2]);
      EncodedNext(Shifted, src, before, now, dst[..], g);
      g := g + 1;
    }
    ghost var now := dst[..];
    EncodeRoom(|src|, g);
    if |src| % 3 != 0 { WriteLastShifted(dst, 4 * g, src[3 * g..]); }
    EncodedEnd(Shifted, src, before, now, dst[..], g);
    return EncLen(|src|);
  }

  function Q1(a: byte): byte { (a >> 2) + 0x30 }

  function Q2(a: byte): byte { ((a << 4) & 0x3f) + 0x30 }

  function Q3(b: byte): byte { ((b << 2) & 0x3f) + 0x30 }

  function Q4(c: byte): byte { (c & 0x3f) + 0x30 }

  /** Or-ing bits into a character that already has the base added is adding them. */
  lemma ShiftedDigits(a: byte, b: byte, c: byte)
    ensures Q1(a) == Enc(Shifted, D1(a)) && Q2(a) | (b >> 4) == Enc(Shifted, D2(a, b))
    ensures Q3(b) | (c >> 6) == Enc(Shifted, D3(b, c)) && Q4(c) == Enc(Shifted, D4(c))
    ensures Q2(a) == Enc(Shifted, D2(a, 0)) && Q3(b) == Enc(Shifted, D3(b, 0))
  {
  }

  // ----- the 8K tables

  /** Two digits as they lie in memory, read as a machine word. */
  function Entry(r: bv12, little: bool): bv16 {
    var hi, lo := EncChar((r >> 6) as byte) as bv16, EncChar((r & 0x3f) as byte) as bv16;
    if little then hi | (lo << 8) else (hi << 8) | lo
  }

  function First8(w: bv16, little: bool): byte {
    if little then (w & 0xff) as byte else (w >> 8) as byte
  }

  function Last8(w: bv16, little: bool): byte {
    if little then (w >> 8) as byte else (w & 0xff) as byte
  }

  function Index12(a: byte, b: byte): bv12 { ((a as bv12) << 4) | ((b as bv12) >> 4) }

  function Index34(b: byte, c: byte): bv12 { (((b as bv12) & 0xf) << 8) | (c as bv12) }

  /** On either byte order an entry stores the two digits of the plain form. */
  lemma EntryDigits(a: byte, b: byte, c: byte, little: bool)
    ensures var w := Entry(Index12(a, b), little);
      First8(w, little) == EncChar(D1(a)) && Last8(w, little) == EncChar(D2(a, b))
    ensures var w := Entry(Index34(b, c), little);
      First8(w, little) == EncChar(D3(b, c)) && Last8(w, little) == EncChar(D4(c))
  {
    IndexDigits(a, b, c);
    EntryBytes(Index12(a, b), little);
    EntryBytes(Index34(b, c), little);
  }

  lemma IndexDigits(a: byte, b: byte, c: byte)
    ensures (Index12(a, b) >> 6) as byte == D1(a) && (Index12(a, b) & 0x3f) as byte == D2(a, b)
    ensures (Index34(b, c) >> 6) as byte == D3(b, c) && (Index34(b, c) & 0x3f) as byte == D4(c)
  {
  }

  lemma EntryBytes(r: bv12, little: bool)
    ensures First8(Entry(r, little), little) == EncChar((r >> 6) as byte)
    ensures Last8(Entry(r, little), little) == EncChar((r & 0x3f) as byte)
  {
    WordBytes(EncChar((r >> 6) as byte), EncChar((r & 0x3f) as byte));
  }

  lemma WordBytes(hi: byte, lo: byte)
    ensures var w := (hi as bv16) | ((lo as bv16) << 8); w & 0xff == hi as bv16 && w >> 8 == lo as bv16
    ensures var w := ((hi as bv16) << 8) | (lo as bv16); w >> 8 == hi as bv16 && w & 0xff == lo as bv16
  {
  }

  ghost predicate TableOk(t: seq<bv16>, little: bool) {
    |t| == 4096 && forall r: bv12 :: t[r as int] == Entry(r, little)
  }

  ghost predicate UntableOk(t: seq<byte>) {
    |t| == 256 && forall c: byte :: t[c as int] == DecChar(c)
  }

  /** The encoding half of `init_basex`. */
  method InitTable(little: bool) returns (t: array<bv16>)
    ensures fresh(t) && TableOk(t[..], little)
  {
    t := new bv16[4096];
    var r := 0;
    while r < 4096
      invariant 0 <= r <= 4096
      invariant forall k :: 0 <= k < r ==> t[k] == Entry(k as bv12, little)
    {
      t[r] := Entry(r as bv12, little);
      r := r + 1;
    }
    TableFilled(t[..], little);
  }

  /** The decoding half of `init_basex`. */
  method InitUntable() returns (ut: array<byte>)
    ensures fresh(ut) && UntableOk(ut[..])
  {
    ut := new byte[256];
    var r := 0;
    while r < 256
      invariant 0 <= r <= 256
      invariant forall k :: 0 <= k < r ==> ut[k] == DecChar(k as byte)
    {
      ut[r] := DecChar(r as byte);
      r := r + 1;
    }
    UntableFilled(ut[..]);
  }

  lemma TableFilled(t: seq<bv16>, little: bool)
    requires |t| == 4096 && forall k :: 0 <= k < 4096 ==> t[k] == Entry(k as bv12, little)
    ensures TableOk(t, little)
  {
    forall x: bv12 ensures t[x as int] == Entry(x, little) {
      var k := x as int;
      assert t[k] == Entry(k as bv12, little) && k as bv12 == x;
    }
  }

  lemma UntableFilled(ut: seq<byte>)
    requires |ut| == 256 && forall k :: 0 <= k < 256 ==> ut[k] == DecChar(k as byte)
    ensures UntableOk(ut)
  {
    forall c: byte ensures ut[c as int] == DecChar(c) {
      var k := c as int;
      assert ut[k] == DecChar(k as byte) && k as byte == c;
    }
  }

  /** A 16-bit store. */
  method Store16(dst: array<byte>, k: nat, w: bv16, little: bool)
    requires k + 2 <= dst.Length
    modifies dst
    ensures dst[..] == old(dst[..k]) + [First8(w, little), Last8(w, little)] + old(dst[k + 2..])
  {
    dst[k], dst[k + 1] := First8(w, little), Last8(w, little);
  }

  lemma TwoStores(x: seq<byte>, k: nat, p: byte, q: byte, r: byte, s: byte)
    requires k + 4 <= |x|
    ensures var y := x[..k] + [p, q] + x[k + 2..];
      y[..k + 2] + [r, s] + y[k + 4..] == x[..k] + [p, q, r, s] + x[k + 4..]
  {
  }

  /** The four bytes for three, by byte stores or, on an even address, by two word stores. */
  method WriteQuad(t: array<bv16>, dst: array<byte>, k: nat, a: byte, b: byte, c: byte, odd: bool, little: bool)
    requires TableOk(t[..], little) && k + 4 <= dst.Length
    modifies dst
    ensures dst[..] == old(dst[..k]) + Quad(Standard, a, b, c) + old(dst[k + 4..])
  {
    EntryDigits(a, b, c, little);
    hide EncChar, D1, D2, D3, D4, First8, Last8, Entry;
    var w12, w34 := t[..][Index12(a, b) as int], t[..][Index34(b, c) as int];
    if odd {
      Write4(dst, k, First8(w12, little), Last8(w12, little), First8(w34, little), Last8(w34, little));
    } else {
      ghost var x := dst[..];
      Store16(dst, k, w12, little);
      Store16(dst, k + 2, w34, little);
      TwoStores(x, k, First8(w12, little), Last8(w12, little), First8(w34, little), Last8(w34, little));
    }
  }

  /** The last four bytes, for one or two: a quad with its end overwritten. */
  method WriteLastQuad(t: array<bv16>, dst: array<byte>, k: nat, s: seq<byte>, odd: bool, little: bool)
    requires TableOk(t[..], little) && k + 4 <= dst.Length && 0 < |s| < 3
    modifies dst
    ensures dst[..] == old(dst[..k]) + LastQuad(Standard, s) + old(dst[k + 4..])
  {
    if |s| == 2 {
      WriteQuad(t, dst, k, s[0], s[1], 0, odd, little);
      dst[k + 3] := 0x3d;
    } else {
      WriteQuad(t, dst, k, s[0], 0, 0, odd, little);
      dst[k + 2], dst[k + 3] := 0x3d, 0x3d;
    }
  }

  /** `base64_enc` with the 8K tables, for an odd or even destination address. */
  method Encode8K(t: array<bv16>, src: seq<byte>, dst: array<byte>, odd: bool, little: bool) returns (n: int)
    requires TableOk(t[..], little)
    modifies dst
    ensures Encoded(Standard, src, old(dst[..]), dst[..], n)
  {
    if dst.Length < EncLen(|src|) { return -EncLen(|src|); }
    var g := 0;
    ghost var before := dst[..];
    EncodedStart(Standard, src, before);
    hide Quad, EncodedUpTo, Encoded, Encode, TableOk;
    while 3 * g + 3 <= |src|
      invariant EncodedUpTo(Standard, src, before, dst[..], g) && 3 * g <= |src| && TableOk(t[..], little)
    {
      var i := 3 * g;
      ghost var now := dst[..];
      EncodeRoom(|src|, g);
      WriteQuad(t, dst, 4 * g, src[i], src[i + 1], src[i + 2], odd, little);
      EncodedNext(Standard, src, before, now, dst[..], g);
      g := g + 1;
    }
    ghost var now := dst[..];
    EncodeRoom(|src|, g);
    if |src| % 3 != 0 { WriteLastQuad(t, dst, 4 * g, src[3 * g..], odd, little); }
    EncodedEnd(Standard, src, before, now, dst[..], g);
    return EncLen(|src|);
  }

  // ----- decoding

  function DecLen(al: Alphabet, s: seq<byte>): int
    requires |s| >= 4
  {
    |s| / 4 * 3 - Pads(al, s)
  }

  ghost predicate Decoded(al: Alphabet, src: seq<byte>, before: seq<byte>, after: seq<byte>, n: int) {
    if !Accepts(al, src) then n == 0 && after == before
    else if |before| < DecLen(al, src) then n == -DecLen(al, src) && after == before
    else n == DecLen(al, src) && after == Decode(al, src) + before[DecLen(al, src)..]
  }

  ghost predicate DecodedUpTo(al: Alphabet, src: seq<byte>, before: seq<byte>, now: seq<byte>, g: nat) {
    && Accepts(al, src) && 4 * g + 4 <= |src| && |now| == |before| && 3 * g <= |now|
    && Accepts(al, src[4 * g..]) && now[..3 * g] + Decode(al, src[4 * g..]) == Decode(al, src)
    && now[3 * g..] == before[3 * g..]
  }

  lemma TripleLength(al: Alphabet, q: seq<byte>)
    requires |q| >= 4
    ensures |Triple(al, q)| == 3
  {
  }

  lemma DecodedNext(al: Alphabet, src: seq<byte>, before: seq<byte>, now: seq<byte>, next: seq<byte>, g: nat)
    requires DecodedUpTo(al, src, before, now, g) && 4 * g + 8 <= |src| && 3 * g + 3 <= |now|
    requires next == now[..3 * g] + Triple(al, src[4 * g..4 * g + 4]) + now[3 * g + 3..]
    ensures DecodedUpTo(al, src, before, next, g + 1)
  {
    hide Triple, Decode, Pads, Accepts;
    var i, t := 4 * g, Triple(al, src[4 * g..4 * g + 4]);
    assert |t| == 3 by { TripleLength(al, src[i..i + 4]); }
    DecodeStep(al, src, i);
    BlockWritten(now, before, next, 3 * g, t, Decode(al, src[i + 4..]), Decode(al, src));
  }

  lemma DecodedEnd(al: Alphabet, src: seq<byte>, before: seq<byte>, now: seq<byte>, last: seq<byte>, g: nat)
    requires DecodedUpTo(al, src, before, now, g) && 4 * g + 4 == |src| && DecLen(al, src) <= |now|
    requires last == now[..3 * g] + Triple(al, src[4 * g..])[..3 - Pads(al, src)] + now[DecLen(al, src)..]
    ensures Decoded(al, src, before, last, DecLen(al, src))
  {
    var o, osize := 3 * g, DecLen(al, src);
    assert now[osize..] == now[o..][osize - o..] == before[osize..];
    assert Pads(al, src[4 * g..]) == Pads(al, src);
  }

  /** The value of a character: from the table, or by its offset. */
  method Lookup(al: Alphabet, ut: array<byte>, c: byte) returns (v: byte)
    requires UntableOk(ut[..])
    ensures v == Dec(al, c)
  {
    if al.Standard? {
      assert ut[..][c as int] == DecChar(c);
      v := ut[c as int];
    } else {
      v := c - 0x30;
    }
  }

  /** Decodes one quad into its first `m` bytes. */
  method WriteTriple(al: Alphabet, ut: array<byte>, dst: array<byte>, at: nat, q: seq<byte>, m: nat)
    requires UntableOk(ut[..]) && ut != dst
    requires |q| == 4 && 1 <= m <= 3 && at + m <= dst.Length
    modifies dst
    ensures dst[..] == old(dst[..at]) + Triple(al, q)[..m] + old(dst[at + m..])
  {
    hide UntableOk;
    var a := Lookup(al, ut, q[0]);
    var b := Lookup(al, ut, q[1]);
    var c := Lookup(al, ut, q[2]);
    var d := Lookup(al, ut, q[3]);
    hide Dec, U1, U2, U3;
    ghost var t := Triple(al, q);
    if m == 1 {
      assert t[..m] == [t[0]];
      dst[at] := U1(a, b);
    } else if m == 2 {
      assert t[..m] == [t[0], t[1]];
      dst[at], dst[at + 1] := U1(a, b), U2(b, c);
    } else {
      assert t[..m] == t;
      dst[at], dst[at + 1], dst[at + 2] := U1(a, b), U2(b, c), U3(c, d);
    }
  }

  lemma DecodeRoom(al: Alphabet, s: seq<byte>, g: nat)
    requires Accepts(al, s) && 4 * g + 4 <= |s|
    ensures 4 * g + 4 < |s| ==> 3 * g + 3 <= DecLen(al, s)
    ensures 4 * g + 4 == |s| ==> 3 * g + 3 - Pads(al, s) == DecLen(al, s)
    ensures DecLen(al, s) % 3 == if Pads(al, s) == 0 then 0 else 3 - Pads(al, s)
  {
    var n, p := |s| / 4, Pads(al, s);
    assert |s| == 4 * n;
    ThreesLess(n, p);
  }

  lemma ThreesLess(n: nat, p: nat)
    requires p <= 2
    ensures (3 * n - p) % 3 == if p == 0 then 0 else 3 - p
  {
    if p > 0 { assert 3 * n - p == 3 * (n - 1) + (3 - p); }
  }

  lemma DecodedStart(al: Alphabet, src: seq<byte>, before: seq<byte>)
    requires Accepts(al, src)
    ensures DecodedUpTo(al, src, before, before, 0)
  {
    assert src[0..] == src && before[..0] + Decode(al, src) == Decode(al, src);
  }

  method WriteWholeTriple(al: Alphabet, ut: array<byte>, src: seq<byte>, dst: array<byte>, g: nat)
    requires UntableOk(ut[..]) && ut != dst
    requires Accepts(al, src) && 4 * g + 8 <= |src| && DecLen(al, src) <= dst.Length
    modifies dst
    ensures 3 * g + 3 <= dst.Length
    ensures dst[..] == old(dst[..3 * g]) + Triple(al, src[4 * g..4 * g + 4]) + old(dst[3 * g + 3..])
  {
    DecodeRoom(al, src, g);
    hide UntableOk, Triple;
    WriteTriple(al, ut, dst, 3 * g, src[4 * g..4 * g + 4], 3);
    assert Triple(al, src[4 * g..4 * g + 4])[..3] == Triple(al, src[4 * g..4 * g + 4]);
  }

  /** The loop over all quads but the last. */
  method DecodeQuads(al: Alphabet, ut: array<byte>, src: seq<byte>, dst: array<byte>) returns (g: nat)
    requires UntableOk(ut[..]) && ut != dst
    requires Accepts(al, src) && DecLen(al, src) <= dst.Length
    modifies dst
    ensures DecodedUpTo(al, src, old(dst[..]), dst[..], g) && 4 * g + 4 == |src|
  {
    g := 0;
    ghost var before := dst[..];
    DecodedStart(al, src, before);
    assert |src| % 4 == 0;
    hide UntableOk, Triple, DecodedUpTo, Accepts, Pads, DecLen;
    while 4 * g + 8 <= |src|
      invariant DecodedUpTo(al, src, before, dst[..], g) && 4 * g + 4 <= |src| && UntableOk(ut[..])
    {
      ghost var now := dst[..];
      WriteWholeTriple(al, ut, src, dst, g);
      DecodedNext(al, src, before, now, dst[..], g);
      g := g + 1;
    }
  }

  /** `base64_dec` and `q_base64_dec`. */
  method DecodeBuffer(al: Alphabet, ut: array<byte>, src: seq<byte>, dst: array<byte>) returns (n: int)
    requires UntableOk(ut[..]) && ut != dst
    modifies dst
    ensures Decoded(al, src, old(dst[..]), dst[..], n)
  {
    var slen := |src|;
    if slen < 4 || slen % 4 != 0 || (src[slen - 2] == Pad(al) && src[slen - 1] != Pad(al)) { return 0; }
    var osize := DecLen(al, src);
    if dst.Length < osize { return -osize; }
    ghost var before := dst[..];
    var g := DecodeQuads(al, ut, src, dst);
    hide UntableOk, Triple, DecodedUpTo, Decoded;
    ghost var now := dst[..];
    DecodeRoom(al, src, g);
    WriteTriple(al, ut, dst, 3 * g, src[4 * g..], if osize % 3 == 0 then 3 else osize % 3);
    DecodedEnd(al, src, before, now, dst[..], g);
    return osize;
  }

  /** Encoding into a large enough buffer and decoding what was reported as written gives back
      the bytes and their number, the empty string included. */
  lemma BufferRoundTrip(al: Alphabet, src: seq<byte>, buf: seq<byte>, coded: seq<byte>, n: int,
                        out: seq<byte>, plain: seq<byte>, m: int)
    requires Encoded(al, src, buf, coded, n) && EncLen(|src|) <= |buf|
    requires Decoded(al, coded[..n], out, plain, m) && |src| <= |out|
    ensures m == |src| && plain[..m] == src && plain[m..] == out[m..]
  {
    RoundTrip(al, src);
    assert coded[..n] == Encode(al, src);
  }
}
