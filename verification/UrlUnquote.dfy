/** Percent-decoding in place. */
module UrlUnquote {
  import opened Options
  import opened Words
  import opened Buffers

  const PERCENT: byte := 0x25

  /** `hex2char`, with -1 for bytes above 127 too. */
  function Hex(c: byte): (r: int)
    ensures -1 <= r < 16
  {
    if 0x30 <= c <= 0x39 then c - 0x30
    else if 0x41 <= c <= 0x46 then c - 0x41 + 10
    else if 0x61 <= c <= 0x66 then c - 0x61 + 10
    else -1
  }

  predicate IsHex(c: byte) { Hex(c) != -1 }

  // ----- decoding as section 2.1 of RFC 3986 describes it

  function Then(c: byte, rest: Option<seq<byte>>): Option<seq<byte>> {
    if rest.None? then None else Some([c] + rest.value)
  }

  /** Decodes `s[i..n]` left to right; a percent sign that comes out of a decoding is not
      looked at again. */
  function Decode(s: seq<byte>, i: nat, n: nat): Option<seq<byte>>
    requires i <= n <= |s|
    decreases n - i
  {
    if i == n then Some([])
    else if s[i] != PERCENT then Then(s[i], Decode(s, i + 1, n))
    else if i + 3 > n || !IsHex(s[i + 1]) || !IsHex(s[i + 2]) then None
    else Then(16 * Hex(s[i + 1]) + Hex(s[i + 2]), Decode(s, i + 3, n))
  }

  /** Only the bytes themselves matter, not where they lie. */
  lemma {:induction false} DecodeShift(s: seq<byte>, i: nat, n: nat, t: seq<byte>, d: int)
    requires i <= n <= |s| && 0 <= i + d && n + d <= |t|
    requires forall k :: i <= k < n ==> s[k] == t[k + d]
    ensures Decode(s, i, n) == Decode(t, i + d, n + d)
    decreases n - i
  {
    if i < n {
      var step := if s[i] == PERCENT then 3 else 1;
      assert i + 3 <= n ==> s[i + 1] == t[i + 1 + d] && s[i + 2] == t[i + 2 + d];
      if i + step <= n { DecodeShift(s, i + step, n, t, d); }
    }
  }

  /** A hexadecimal digit, with an upper-case or a lower-case letter. */
  function Digit(v: int, lower: bool): byte
    requires 0 <= v < 16
  {
    if v < 10 then 0x30 + v else (if lower then 0x61 else 0x41) + v - 10
  }

  /** A byte is read as a digit exactly if it is one. */
  lemma HexDigits(c: byte)
    ensures forall v, lower :: 0 <= v < 16 && c == Digit(v, lower) ==> Hex(c) == v
    ensures IsHex(c) <==> exists v, lower :: 0 <= v < 16 && c == Digit(v, lower)
  {
    if IsHex(c) { assert c == Digit(Hex(c), c >= 0x61); }
  }

  /** Percent-encodes the bytes outside `plain`; `lower` says which digits get lower-case
      letters. */
  function Quote(s: seq<byte>, plain: set<byte>, lower: seq<(bool, bool)>): seq<byte>
    requires |lower| == |s|
  {
    if s == [] then []
    else
      (if s[0] in plain then [s[0]] else [PERCENT, Digit(s[0] / 16, lower[0].0), Digit(s[0] % 16, lower[0].1)])
      + Quote(s[1..], plain, lower[1..])
  }

  /** Decoding undoes encoding, whichever bytes are left alone. */
  lemma {:induction false} QuoteRoundTrip(s: seq<byte>, plain: set<byte>, lower: seq<(bool, bool)>)
    requires PERCENT !in plain && |lower| == |s|
    ensures Decode(Quote(s, plain, lower), 0, |Quote(s, plain, lower)|) == Some(s)
  {
    hide Digit, Hex;
    if s != [] {
      QuoteRoundTrip(s[1..], plain, lower[1..]);
      var q, rest := Quote(s, plain, lower), Quote(s[1..], plain, lower[1..]);
      if s[0] in plain {
        DecodeShift(q, 1, |q|, rest, -1);
      } else {
        HexDigits(q[1]);
        HexDigits(q[2]);
        DecodeShift(q, 3, |q|, rest, -3);
      }
      assert [s[0]] + s[1..] == s;
    }
  }

  // ----- what the code computes

  function Prepend(s: seq<byte>, rest: Option<seq<byte>>): Option<seq<byte>> {
    if rest.None? then None else Some(s + rest.value)
  }

  lemma ThenPrepend(c: byte, s: seq<byte>, rest: Option<seq<byte>>)
    ensures Then(c, Prepend(s, rest)) == Prepend([c] + s, rest)
  {
    if rest.Some? { assert [c] + (s + rest.value) == ([c] + s) + rest.value; }
  }

  lemma {:induction false} DecodePlain(s: seq<byte>, i: nat, j: nat, n: nat)
    requires i <= j <= n <= |s| && forall k :: i <= k < j ==> s[k] != PERCENT
    ensures Decode(s, i, n) == Prepend(s[i..j], Decode(s, j, n))
    decreases j - i
  {
    var rest := Decode(s, j, n);
    if i == j {
      assert rest.Some? ==> s[i..j] + rest.value == rest.value;
    } else {
      DecodePlain(s, i + 1, j, n);
      ThenPrepend(s[i], s[i + 1..j], rest);
      assert [s[i]] + s[i + 1..j] == s[i..j];
    }
  }

  /** The one case in which the byte behind the string is taken for its second hex digit: the
      first percent sign is the last byte but one, and what follows it is hex. */
  ghost predicate ReadsBeyond(s: seq<byte>, next: byte) {
    && |s| >= 2 && (forall i :: 0 <= i < |s| - 2 ==> s[i] != PERCENT)
    && s[|s| - 2] == PERCENT && IsHex(s[|s| - 1]) && IsHex(next)
  }

  /** The string is then malformed. */
  lemma ReadsBeyondMalformed(s: seq<byte>, next: byte)
    requires ReadsBeyond(s, next)
    ensures Decode(s, 0, |s|) == None
  {
    DecodePlain(s, 0, |s| - 2, |s|);
  }

  /** The string that comes out of the code, if one does: in the case above what stands before
      the percent sign, since neither that nor the digit behind it is counted. */
  ghost function Outcome(s: seq<byte>, next: byte): Option<seq<byte>> {
    if ReadsBeyond(s, next) then Some(s[..|s| - 2]) else Decode(s, 0, |s|)
  }

  /** The code decodes a string rightly exactly if it does not read beyond it. */
  lemma OutcomeRight(s: seq<byte>, next: byte)
    ensures Outcome(s, next) == Decode(s, 0, |s|) <==> !ReadsBeyond(s, next)
  {
    if ReadsBeyond(s, next) { ReadsBeyondMalformed(s, next); }
  }

  /** For one: `%4` followed in memory by `1` comes out empty instead of as an error. */
  lemma ReadsBeyondExample()
    ensures Outcome([PERCENT, 0x34], 0x31) == Some([]) && Decode([PERCENT, 0x34], 0, 2) == None
  {
    assert IsHex(0x34) && IsHex(0x31);
  }

  /** A terminated string is never read beyond. */
  lemma TerminatedIsFine(s: seq<byte>)
    ensures !ReadsBeyond(s, 0)
  {
  }

  method Memchr(buf: array<byte>, from: nat, len: nat) returns (p: nat)
    requires from + len <= buf.Length
    ensures p <= len && (p < len ==> buf[from + p] == PERCENT)
    ensures forall i :: from <= i < from + p ==> buf[i] != PERCENT
  {
    p := 0;
    while p < len && buf[from + p] != PERCENT
      invariant p <= len && forall i :: from <= i < from + p ==> buf[i] != PERCENT
    {
      p := p + 1;
    }
  }

  /** The loop state: `b` bytes are done, `n` are left, and once something has been moved down,
      the byte behind them is the old last byte but one. */
  ghost predicate Progress(all: seq<byte>, buf: seq<byte>, b: nat, n: nat) {
    && b + n < |buf|
    && Decode(all, 0, |all|) == Prepend(buf[..b], Decode(buf, b, b + n))
    && (b > 0 && n >= 2 ==> buf[b + n] == buf[b + n - 2])
    && (b == 0 ==> n == |all| && buf[..n] == all)
  }

  /** One escape is replaced by its byte and the rest moved down. */
  ghost predicate Replaced(buf: seq<byte>, next: seq<byte>, b: nat, n: nat, p: nat)
    requires p + 3 <= n && b + n < |buf|
  {
    var at := b + p;
    && IsHex(buf[at + 1]) && IsHex(buf[at + 2])
    && |next| == |buf| && next[..at] == buf[..at] && next[at] == 16 * Hex(buf[at + 1]) + Hex(buf[at + 2])
    && next[at + 1..b + n - 2] == buf[at + 3..b + n] && next[b + n - 2..] == buf[b + n - 2..]
  }

  lemma DecodeEscape(buf: seq<byte>, b: nat, n: nat, p: nat)
    requires p < n && b + n <= |buf| && buf[b + p] == PERCENT
    requires forall i :: b <= i < b + p ==> buf[i] != PERCENT
    ensures p + 3 > n || !IsHex(buf[b + p + 1]) || !IsHex(buf[b + p + 2]) ==> Decode(buf, b, b + n) == None
    ensures p + 3 <= n && IsHex(buf[b + p + 1]) && IsHex(buf[b + p + 2]) ==>
      Decode(buf, b, b + n) == Prepend(buf[b..b + p],
        Then(16 * Hex(buf[b + p + 1]) + Hex(buf[b + p + 2]), Decode(buf, b + p + 3, b + n)))
  {
    DecodePlain(buf, b, b + p, b + n);
  }

  lemma ReplacedStale(buf: seq<byte>, next: seq<byte>, b: nat, n: nat, p: nat)
    requires p + 5 <= n && b + n < |buf| && Replaced(buf, next, b, n, p)
    ensures next[b + n - 2] == next[b + n - 4]
  {
    var at := b + p;
    assert next[b + n - 2] == next[b + n - 2..][0] == buf[b + n - 2];
    assert next[b + n - 4] == next[at + 1..b + n - 2][n - p - 5] == buf[at + 3..b + n][n - p - 5];
  }

  lemma JoinPrefix(x: seq<byte>, y: seq<byte>, c: byte, rest: Option<seq<byte>>)
    ensures Prepend(x, Prepend(y, Then(c, rest))) == Prepend(x + y + [c], rest)
  {
    if rest.Some? { assert x + (y + ([c] + rest.value)) == (x + y + [c]) + rest.value; }
  }

  lemma ReplacedProgress(all: seq<byte>, buf: seq<byte>, next: seq<byte>, b: nat, n: nat, p: nat)
    requires Progress(all, buf, b, n) && p + 3 <= n && buf[b + p] == PERCENT && Replaced(buf, next, b, n, p)
    requires forall i :: b <= i < b + p ==> buf[i] != PERCENT
    ensures Progress(all, next, b + p + 1, n - p - 3)
  {
    hide Decode, Prepend, Then, IsHex;
    var at, m := b + p, n - p - 3;
    DecodeEscape(buf, b, n, p);
    forall k | at + 1 <= k < at + 1 + m ensures next[k] == buf[k + 2] {
      assert next[at + 1..b + n - 2][k - at - 1] == buf[at + 3..b + n][k - at - 1];
    }
    DecodeShift(next, at + 1, at + 1 + m, buf, 2);
    JoinPrefix(buf[..b], buf[b..at], next[at], Decode(buf, at + 3, b + n));
    assert next[..at + 1] == next[..at] + [next[at]] == buf[..b] + buf[b..at] + [next[at]];
    if m >= 2 { ReplacedStale(buf, next, b, n, p); }
  }

  // ----- the code

  /** Replaces the escape `p` bytes into the rest by its byte and moves what follows down. */
  method ReplaceEscape(buf: array<byte>, b: nat, n: nat, p: nat)
    requires p + 3 <= n && b + n < buf.Length && IsHex(buf[b + p + 1]) && IsHex(buf[b + p + 2])
    modifies buf
    ensures Replaced(old(buf[..]), buf[..], b, n, p)
    ensures forall i :: b + n <= i < buf.Length ==> buf[i] == old(buf[i])
  {
    var at, m := b + p, n - p - 3;
    buf[at] := 16 * Hex(buf[at + 1]) + Hex(buf[at + 2]);
    MoveBytes(buf, at + 1, buf, at + 3, m);
  }

  /** `url_unquote` on a buffer with a byte behind the string. The bytes behind the string are
      never changed. */
  method Unquote(buf: array<byte>, len: nat) returns (r: int)
    requires len < buf.Length
    modifies buf
    ensures match Outcome(old(buf[..len]), old(buf[len]))
      case None => r == -1
      case Some(v) => r == |v| && r <= len && buf[..r] == v
    ensures forall i :: len <= i < buf.Length ==> buf[i] == old(buf[i])
  {
    ghost var all, behind := buf[..len], buf[len];
    var b: nat, n: nat, outlen := 0, len, len;
    DecodeStart(buf[..], len);
    hide Decode, Prepend, Then, Progress, Replaced;
    while n > 0
      invariant outlen == b + n <= len && Progress(all, buf[..], b, n)
      invariant forall i :: len <= i < buf.Length ==> buf[i] == old(buf[i])
      invariant b > 0 ==> !ReadsBeyond(all, behind)
      decreases n
    {
      var p := Memchr(buf, b, n);
      if p == n {
        PlainDone(all, buf[..], behind, b, n);
        return outlen;
      }
      EscapeDone(all, buf[..], behind, b, n, p);
      if p + 2 > n { return -1; }
      var at := b + p;
      if !IsHex(buf[at + 1]) || !IsHex(buf[at + 2]) { return -1; }
      if p + 3 > n {
        assert buf[..at] == all[..len - 2];
        buf[at] := 16 * Hex(buf[at + 1]) + Hex(buf[at + 2]);
        assert buf[..at] == all[..len - 2];
        return outlen - 2;
      }
      ghost var before := buf[..];
      ReplaceEscape(buf, b, n, p);
      ReplacedProgress(all, before, buf[..], b, n, p);
      n := n - p - 3;
      b := at + 1;
      outlen := outlen - 2;
    }
    PlainDone(all, buf[..], behind, b, n);
    return outlen;
  }

  /** No percent sign is left: the buffer holds the decoding. */
  lemma PlainDone(all: seq<byte>, buf: seq<byte>, behind: byte, b: nat, n: nat)
    requires Progress(all, buf, b, n) && (b > 0 ==> !ReadsBeyond(all, behind))
    requires forall i :: b <= i < b + n ==> buf[i] != PERCENT
    ensures Outcome(all, behind) == Some(buf[..b + n])
  {
    DecodePlain(buf, b, b + n, b + n);
    assert buf[..b] + (buf[b..b + n] + []) == buf[..b + n];
    if b == 0 { assert forall i :: 0 <= i < n ==> all[i] == buf[i]; }
  }

  /** What the first percent sign left means, in each of the code's cases. */
  lemma EscapeDone(all: seq<byte>, buf: seq<byte>, behind: byte, b: nat, n: nat, p: nat)
    requires Progress(all, buf, b, n) && (b > 0 ==> !ReadsBeyond(all, behind)) && (b == 0 ==> buf[n] == behind)
    requires p < n && buf[b + p] == PERCENT && forall i :: b <= i < b + p ==> buf[i] != PERCENT
    ensures p + 2 > n || !IsHex(buf[b + p + 1]) || !IsHex(buf[b + p + 2]) ==> Outcome(all, behind) == None
    ensures p + 2 == n && IsHex(buf[b + p + 1]) && IsHex(buf[b + p + 2]) ==>
      b == 0 && n == |all| && buf[..n] == all && ReadsBeyond(all, behind)
    ensures p + 3 <= n ==> !ReadsBeyond(all, behind)
  {
    DecodeEscape(buf, b, n, p);
    if b == 0 { assert forall i :: 0 <= i < n ==> all[i] == buf[i]; }
  }

  lemma DecodeStart(buf: seq<byte>, len: nat)
    requires len < |buf|
    ensures Progress(buf[..len], buf, 0, len)
  {
    DecodeShift(buf[..len], 0, len, buf, 0);
    var d := Decode(buf, 0, len);
    assert d.Some? ==> buf[..0] + d.value == d.value;
  }
}
