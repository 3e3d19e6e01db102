/** The configuration file scanner: a character loop over a state variable, with one
    character of look-ahead kept between calls. */
module Scanner {
  import opened Options

  const MAX_TOKEN_LEN: nat := 512

  datatype Kind = Alpha | Str | Char(c: char)

  datatype Token = Token(kind: Kind, val: string)

  datatype St = S | A | AE | Q | QE | C | CE | E

  /** What one character does: change state, append to the value, end the token with or
      without the character, switch state without consuming it, or fail. */
  datatype Act =
    | Move(st: St)
    | Push(st: St, c: char)
    | Symbol(c: char)
    | CloseString
    | EndAlpha
    | Again(st: St)
    | Bad

  predicate IsAlpha(c: char) {
    'a' <= c <= 'z' || 'A' <= c <= 'Z' || '0' <= c <= '9' || c == '_'
  }

  predicate IsDelim(c: char) {
    || c == '=' || c == ':' || c == ';' || c == '.' || c == ',' || c == '?' || c == '['
    || c == ']' || c == '/' || c == '@' || c == '!' || c == '$' || c == '%' || c == '&'
    || c == '*' || c == '(' || c == ')' || c == '-' || c == '+' || c == '|' || c == '\''
  }

  predicate IsWhitespace(c: char) {
    c == ' ' || c == '\t' || c == '\r'
  }

  /** The character an escape sequence stands for outside quotes. */
  function Unescape(c: char): Option<char> {
    if c == '#' || c == '"' || c == '\\' || c == ' ' then Some(c)
    else if c == 'r' then Some('\r')
    else if c == 'n' then Some('\n')
    else if c == 't' then Some('\t')
    else None
  }

  function StepStart(c: char, ext: bool): Act {
    if IsWhitespace(c) then Move(S)
    else if IsAlpha(c) || (ext && (c == '\\' || IsDelim(c))) then Push(A, c)
    else if c == '"' then Move(Q)
    else if c == '#' then Move(C)
    else if c == '\\' then Move(E)
    else if IsDelim(c) || c == '\n' then Symbol(c)
    else Bad
  }

  function StepAlpha(c: char, ext: bool): Act {
    if IsAlpha(c) || (ext && (IsDelim(c) || c == '"')) then Push(A, c)
    else if c == '\\' then Move(AE)
    else if c == '#' || c == '\n' || IsWhitespace(c) || IsDelim(c) || c == '"' then EndAlpha
    else Bad
  }

  function Step(st: St, c: char, ext: bool): Act {
    match st
    case S => StepStart(c, ext)
    case A => StepAlpha(c, ext)
    case AE =>
      if Unescape(c).Some? then Push(A, Unescape(c).value) else if c == '\n' then Move(A) else Bad
    case Q => if c == '"' then CloseString else if c == '\\' then Move(QE) else Push(Q, c)
    case QE =>
      if c != '#' && c != ' ' && Unescape(c).Some? then Push(Q, Unescape(c).value)
      else if c == '\n' then Move(Q) else Bad
    case C => if c == '\\' then Move(CE) else if c == '\n' then Again(S) else Move(C)
    case CE => Move(C)
    case E =>
      if Unescape(c).Some? then Symbol(Unescape(c).value) else if c == '\n' then Move(S) else Bad
  }

  datatype Out = Tok(t: Token) | Eof | Error

  /** The result of a call, and the position of the first character the next call looks at. */
  datatype Result = Result(out: Out, pos: nat)

  function AtEof(st: St, val: string): Out {
    match st
    case S | C | CE => Eof
    case A => Tok(Token(Alpha, val))
    case Q | QE | E | AE => Error
  }

  /** The scanner without look-ahead or counters: it reads `input` from `p` on. */
  function Scan(input: string, p: nat, st: St, val: string, ext: bool): (r: Result)
    requires p <= |input|
    ensures p <= r.pos <= |input|
    ensures r.out.Tok? && !st.A? ==> p < r.pos
    decreases |input| - p, if st.C? then 1 else 0
  {
    if p == |input| then Result(AtEof(st, val), p)
    else
      match Step(st, input[p], ext)
      case Move(to) => Scan(input, p + 1, to, val, ext)
      case Push(to, c) =>
        if |val| >= MAX_TOKEN_LEN then Result(Error, p + 1) else Scan(input, p + 1, to, val + [c], ext)
      case Symbol(c) =>
        if |val| >= MAX_TOKEN_LEN then Result(Error, p + 1) else Result(Tok(Token(Char(c), val + [c])), p + 1)
      case CloseString => Result(Tok(Token(Str, val)), p + 1)
      case EndAlpha => Result(Tok(Token(Alpha, val)), p)
      case Again(to) => Scan(input, p, to, val, ext)
      case Bad => Result(Error, p + 1)
  }

  /** What one character does to a scan. */
  lemma {:induction false} ScanStep(input: string, p: nat, st: St, val: string, ext: bool)
    requires p < |input|
    ensures var a := Step(st, input[p], ext); var r := Scan(input, p, st, val, ext);
      && (a.Move? ==> r == Scan(input, p + 1, a.st, val, ext))
      && (a.Push? && |val| < MAX_TOKEN_LEN ==> r == Scan(input, p + 1, a.st, val + [a.c], ext))
      && (a.Symbol? && |val| < MAX_TOKEN_LEN ==> r == Result(Tok(Token(Char(a.c), val + [a.c])), p + 1))
      && ((a.Push? || a.Symbol?) && |val| >= MAX_TOKEN_LEN ==> r == Result(Error, p + 1))
      && (a.CloseString? ==> r == Result(Tok(Token(Str, val)), p + 1))
      && (a.EndAlpha? ==> r == Result(Tok(Token(Alpha, val)), p))
      && (a.Again? ==> st.C? && a.st == S && r == Scan(input, p, S, val, ext))
      && (a.Bad? ==> r == Result(Error, p + 1))
  {
  }

  lemma {:induction false} ScanEnd(input: string, st: St, val: string, ext: bool)
    ensures Scan(input, |input|, st, val, ext) == Result(AtEof(st, val), |input|)
  {
  }

  /** Every token up to the end of the file, or nothing if the file does not scan. */
  function Tokens(input: string, p: nat, ext: bool): Option<seq<Token>>
    requires p <= |input|
    decreases |input| - p
  {
    var r := Scan(input, p, S, "", ext);
    match r.out
    case Error => None
    case Eof => Some([])
    case Tok(t) => Then(t, Tokens(input, r.pos, ext))
  }

  lemma {:induction false} TokensStep(input: string, p: nat, ext: bool)
    requires p <= |input|
    ensures var r := Scan(input, p, S, "", ext); var ts := Tokens(input, p, ext);
      && (r.out.Error? ==> ts == None)
      && (r.out.Eof? ==> ts == Some([]))
      && (r.out.Tok? ==> p < r.pos && ts == Then(r.out.t, Tokens(input, r.pos, ext)))
  {
  }

  function Then(t: Token, rest: Option<seq<Token>>): Option<seq<Token>> {
    if rest.None? then None else Some([t] + rest.value)
  }

  // ----- printing

  function EscapeAlpha(c: char): string {
    if c == '#' || c == '"' || c == '\\' || c == ' ' then ['\\', c]
    else if c == '\r' then "\\r"
    else if c == '\n' then "\\n"
    else if c == '\t' then "\\t"
    else [c]
  }

  function EscapeString(c: char): string {
    if c == '"' || c == '\\' then ['\\', c] else [c]
  }

  function AlphaText(s: string, i: nat): string
    requires i <= |s|
    decreases |s| - i
  {
    if i == |s| then "" else EscapeAlpha(s[i]) + AlphaText(s, i + 1)
  }

  function StringText(s: string, i: nat): string
    requires i <= |s|
    decreases |s| - i
  {
    if i == |s| then "" else EscapeString(s[i]) + StringText(s, i + 1)
  }

  function SymbolText(c: char): string {
    if c == '\n' || IsDelim(c) then [c] else EscapeAlpha(c)
  }

  function Text(t: Token): string
    requires t.kind.Alpha? ==> |t.val| > 0
  {
    match t.kind
    case Alpha => [t.val[0]] + AlphaText(t.val, 1)
    case Str => "\"" + StringText(t.val, 0) + "\""
    case Char(c) => SymbolText(c)
  }

  /** The characters, besides the newline, that only an escape sequence brings into a token. */
  predicate Escapable(c: char) {
    c == '#' || c == '"' || c == '\\' || c == ' ' || c == '\r' || c == '\t'
  }

  predicate AlphaFirst(c: char, ext: bool) {
    IsAlpha(c) || (ext && (c == '\\' || IsDelim(c)))
  }

  predicate AlphaRest(c: char, ext: bool) {
    IsAlpha(c) || Escapable(c) || c == '\n' || (ext && IsDelim(c))
  }

  predicate SymbolChar(c: char, ext: bool) {
    c == '\n' || (!ext && (IsDelim(c) || Escapable(c)))
  }

  predicate AlphaVal(val: string, ext: bool) {
    |val| > 0 && AlphaFirst(val[0], ext) && forall i :: 1 <= i < |val| ==> AlphaRest(val[i], ext)
  }

  /** The tokens there are. */
  predicate WellFormed(t: Token, ext: bool) {
    && |t.val| <= MAX_TOKEN_LEN
    && (t.kind.Alpha? ==> AlphaVal(t.val, ext))
    && (t.kind.Char? ==> t.val == [t.kind.c] && SymbolChar(t.kind.c, ext))
  }

  /** Blanks, and newlines that are escaped. */
  predicate Blanks(s: string, ext: bool)
    decreases |s|
  {
    || s == "" || (IsWhitespace(s[0]) && Blanks(s[1..], ext))
    || (!ext && |s| > 1 && s[0] == '\\' && s[1] == '\n' && Blanks(s[2..], ext))
  }

  /** What may stand in a comment: anything but a newline that is not escaped. */
  predicate Remark(s: string)
    decreases |s|
  {
    if s == "" then true
    else if s[0] == '\\' then |s| > 1 && Remark(s[2..])
    else s[0] != '\n' && Remark(s[1..])
  }

  /** What stands before a token: blanks and, before a newline or the end, a comment. */
  datatype Gap = Gap(blanks: string, comment: string)

  predicate GapOk(g: Gap, ext: bool, beforeNewline: bool) {
    && Blanks(g.blanks, ext)
    && (g.comment == "" || (beforeNewline && g.comment[0] == '#' && Remark(g.comment[1..])))
  }

  /** A character that ends an alphanumeric token and is none of it. */
  predicate Ends(c: char, ext: bool) {
    c == '#' || c == '\n' || IsWhitespace(c) || (!ext && (IsDelim(c) || c == '"'))
  }

  predicate BeforeNewline(ts: seq<Token>, i: nat) {
    i < |ts| ==> ts[i].kind == Char('\n')
  }

  ghost predicate Printable(ts: seq<Token>, gaps: seq<Gap>, ext: bool) {
    && |gaps| == |ts| + 1 && (forall k :: 0 <= k < |ts| ==> WellFormed(ts[k], ext))
    && (forall k :: 0 <= k <= |ts| ==> GapOk(gaps[k], ext, BeforeNewline(ts, k)))
  }

  /** The tokens from number `i` on with the gaps before them, and the gap at the end. */
  ghost function Print(ts: seq<Token>, gaps: seq<Gap>, i: nat, ext: bool): string
    requires Printable(ts, gaps, ext) && i <= |ts|
    decreases |ts| - i
  {
    gaps[i].blanks + (gaps[i].comment +
      if i == |ts| then "" else assert WellFormed(ts[i], ext); Text(ts[i]) + Print(ts, gaps, i + 1, ext))
  }

  /** Alphanumeric tokens are followed by something that ends them; no other token needs that. */
  ghost predicate Separated(ts: seq<Token>, gaps: seq<Gap>, ext: bool)
    requires Printable(ts, gaps, ext)
  {
    forall i :: 0 <= i < |ts| && ts[i].kind.Alpha? ==>
      var rest := Print(ts, gaps, i + 1, ext);
      rest == "" || Ends(rest[0], ext)
  }

  // ----- the round trip

  ghost predicate CharAt(input: string, p: nat, s: string, i: nat) {
    i < |s| ==> p + i < |input| && input[p + i] == s[i]
  }

  ghost predicate Has(input: string, p: nat, s: string) {
    p + |s| <= |input| && forall i: nat :: CharAt(input, p, s, i)
  }

  lemma HasAt(input: string, p: nat, s: string, i: nat)
    requires Has(input, p, s) && i < |s|
    ensures p + i < |input| && input[p + i] == s[i]
  {
    assert CharAt(input, p, s, i);
  }

  lemma HasSplit(input: string, p: nat, s: string, t: string)
    requires Has(input, p, s + t)
    ensures Has(input, p, s) && Has(input, p + |s|, t)
  {
    forall i: nat {:trigger CharAt(input, p, s, i)} ensures CharAt(input, p, s, i) {
      assert CharAt(input, p, s + t, i);
    }
    forall i: nat {:trigger CharAt(input, p + |s|, t, i)} ensures CharAt(input, p + |s|, t, i) {
      assert CharAt(input, p, s + t, |s| + i);
    }
  }

  /** How the escapes of one character are read back. */
  lemma EscapesRead(c: char, ext: bool)
    ensures var e := EscapeAlpha(c); AlphaRest(c, ext) ==>
      if |e| == 1 then e[0] == c && Step(A, c, ext) == Push(A, c)
      else |e| == 2 && Step(A, e[0], ext) == Move(AE) && Step(AE, e[1], ext) == Push(A, c)
    ensures var e := EscapeString(c);
      if |e| == 1 then e[0] == c && Step(Q, c, ext) == Push(Q, c)
      else |e| == 2 && Step(Q, e[0], ext) == Move(QE) && Step(QE, e[1], ext) == Push(Q, c)
    ensures var e := EscapeAlpha(c); !ext && Escapable(c) ==>
      |e| == 2 && Step(S, e[0], ext) == Move(E) && Step(E, e[1], ext) == Symbol(c)
  {
  }

  lemma CharScans(input: string, p: nat, st: St, val: string, c: char, ext: bool)
    requires (st.A? && AlphaRest(c, ext)) || st.Q?
    requires |val| < MAX_TOKEN_LEN && Has(input, p, if st.A? then EscapeAlpha(c) else EscapeString(c))
    ensures Scan(input, p, st, val, ext) ==
      Scan(input, p + |if st.A? then EscapeAlpha(c) else EscapeString(c)|, st, val + [c], ext)
  {
    var e := if st.A? then EscapeAlpha(c) else EscapeString(c);
    EscapesRead(c, ext);
    HasAt(input, p, e, 0);
    if |e| == 2 { HasAt(input, p, e, 1); }
  }

  ghost predicate EndsAt(input: string, p: nat, ext: bool) {
    p == |input| || (p < |input| && Ends(input[p], ext))
  }

  lemma {:induction false} AlphaScans(input: string, p: nat, s: string, i: nat, ext: bool)
    requires i <= |s| <= MAX_TOKEN_LEN && (forall k :: i <= k < |s| ==> AlphaRest(s[k], ext))
    requires Has(input, p, AlphaText(s, i)) && EndsAt(input, p + |AlphaText(s, i)|, ext)
    ensures Scan(input, p, A, s[..i], ext) == Result(Tok(Token(Alpha, s)), p + |AlphaText(s, i)|)
    decreases |s| - i
  {
    hide Scan;
    if i == |s| {
      if p < |input| { ScanStep(input, p, A, s, ext); } else { ScanEnd(input, A, s, ext); }
      assert s[..i] == s;
    } else {
      var e, rest := EscapeAlpha(s[i]), AlphaText(s, i + 1);
      assert AlphaText(s, i) == e + rest && AlphaRest(s[i], ext);
      hide AlphaText, EscapeAlpha, AlphaRest, Has;
      HasSplit(input, p, e, rest);
      assert p + |e + rest| == (p + |e|) + |rest|;
      CharScans(input, p, A, s[..i], s[i], ext);
      assert s[..i] + [s[i]] == s[..i + 1];
      AlphaScans(input, p + |e|, s, i + 1, ext);
    }
  }

  lemma {:induction false} StringScans(input: string, p: nat, s: string, i: nat, ext: bool)
    requires i <= |s| <= MAX_TOKEN_LEN
    requires Has(input, p, StringText(s, i)) && Has(input, p + |StringText(s, i)|, "\"")
    ensures Scan(input, p, Q, s[..i], ext) == Result(Tok(Token(Str, s)), p + |StringText(s, i)| + 1)
    decreases |s| - i
  {
    hide Scan;
    if i == |s| {
      HasAt(input, p, "\"", 0);
      ScanStep(input, p, Q, s, ext);
      assert s[..i] == s;
    } else {
      var e, rest := EscapeString(s[i]), StringText(s, i + 1);
      assert StringText(s, i) == e + rest;
      hide StringText, EscapeString, Has;
      HasSplit(input, p, e, rest);
      assert p + |e + rest| == (p + |e|) + |rest|;
      CharScans(input, p, Q, s[..i], s[i], ext);
      assert s[..i] + [s[i]] == s[..i + 1];
      StringScans(input, p + |e|, s, i + 1, ext);
    }
  }

  lemma SymbolScans(input: string, p: nat, c: char, ext: bool)
    requires SymbolChar(c, ext) && Has(input, p, SymbolText(c))
    ensures Scan(input, p, S, "", ext) == Result(Tok(Token(Char(c), [c])), p + |SymbolText(c)|)
  {
    HasAt(input, p, SymbolText(c), 0);
    assert "" + [c] == [c];
    if c != '\n' && !IsDelim(c) {
      assert SymbolText(c) == EscapeAlpha(c);
      EscapesRead(c, ext);
      HasAt(input, p, EscapeAlpha(c), 1);
      assert Scan(input, p, S, "", ext) == Scan(input, p + 1, E, "", ext);
      assert Step(E, input[p + 1], ext) == Symbol(c);
    } else {
      assert Step(S, input[p], ext) == Symbol(c);
    }
  }

  lemma FirstRead(c: char, ext: bool)
    requires AlphaFirst(c, ext)
    ensures Step(S, c, ext) == Push(A, c)
  {
  }

  /** A printed token scans as itself and leaves what is behind it. */
  lemma TextScans(input: string, p: nat, t: Token, ext: bool)
    requires WellFormed(t, ext) && Has(input, p, Text(t)) && (t.kind.Alpha? ==> EndsAt(input, p + |Text(t)|, ext))
    ensures Scan(input, p, S, "", ext) == Result(Tok(t), p + |Text(t)|)
  {
    match t.kind
    case Alpha =>
      FirstRead(t.val[0], ext);
      HasSplit(input, p, [t.val[0]], AlphaText(t.val, 1));
      HasAt(input, p, [t.val[0]], 0);
      assert "" + [t.val[0]] == t.val[..1];
      AlphaScans(input, p + 1, t.val, 1, ext);
    case Str =>
      HasSplit(input, p, "\"" + StringText(t.val, 0), "\"");
      HasSplit(input, p, "\"", StringText(t.val, 0));
      HasAt(input, p, "\"", 0);
      assert Step(S, '"', ext) == Move(Q);
      assert t.val[..0] == "";
      StringScans(input, p + 1, t.val, 0, ext);
    case Char(c) => SymbolScans(input, p, c, ext);
  }

  /** Blanks and escaped newlines are skipped. */
  lemma {:induction false} SkipBlanks(input: string, p: nat, s: string, ext: bool)
    requires Blanks(s, ext) && Has(input, p, s)
    ensures Tokens(input, p, ext) == Tokens(input, p + |s|, ext)
    decreases |s|
  {
    hide Has, Scan;
    if s != "" {
      HasAt(input, p, s, 0);
      var n := if IsWhitespace(s[0]) then 1 else 2;
      ScanStep(input, p, S, "", ext);
      if n == 2 {
        HasAt(input, p, s, 1);
        ScanStep(input, p + 1, E, "", ext);
      }
      assert s == s[..n] + s[n..];
      HasSplit(input, p, s[..n], s[n..]);
      SkipBlanks(input, p + n, s[n..], ext);
    }
  }

  /** A comment is skipped up to the newline that ends it, or to the end of the file. */
  lemma SkipComment(input: string, p: nat, s: string, ext: bool)
    requires s != "" && s[0] == '#' && Remark(s[1..]) && Has(input, p, s)
    requires p + |s| < |input| ==> input[p + |s|] == '\n'
    ensures Tokens(input, p, ext) == Tokens(input, p + |s|, ext)
  {
    HasAt(input, p, s, 0);
    assert s == s[..1] + s[1..];
    HasSplit(input, p, s[..1], s[1..]);
    SkipRemark(input, p + 1, s[1..], ext);
  }

  lemma {:induction false} SkipRemark(input: string, p: nat, s: string, ext: bool)
    requires Remark(s) && Has(input, p, s) && (p + |s| < |input| ==> input[p + |s|] == '\n')
    ensures Scan(input, p, C, "", ext) == Scan(input, p + |s|, S, "", ext)
    decreases |s|
  {
    if s == "" {
      if p == |input| {
        ScanEnd(input, C, "", ext);
        ScanEnd(input, S, "", ext);
      }
    } else {
      HasAt(input, p, s, 0);
      var n := if s[0] == '\\' then 2 else 1;
      if n == 2 { HasAt(input, p, s, 1); }
      assert Scan(input, p, C, "", ext) == Scan(input, p + n, C, "", ext);
      assert s == s[..n] + s[n..];
      HasSplit(input, p, s[..n], s[n..]);
      SkipRemark(input, p + n, s[n..], ext);
    }
  }

  lemma {:induction false} TokensOfPrint(input: string, p: nat, ts: seq<Token>, gaps: seq<Gap>, i: nat, ext: bool)
    requires Printable(ts, gaps, ext) && Separated(ts, gaps, ext) && i <= |ts|
    requires Has(input, p, Print(ts, gaps, i, ext)) && p + |Print(ts, gaps, i, ext)| == |input|
    ensures Tokens(input, p, ext) == Some(ts[i..])
    decreases |ts| - i
  {
    hide Tokens, Scan, Text, Has, Then, Print, Printable, Separated, GapOk, WellFormed;
    var rest := PrintParts(ts, gaps, i, ext);
    SkipGap(input, p, gaps[i], rest, ts, i, ext);
    var q := p + |gaps[i].blanks| + |gaps[i].comment|;
    if i == |ts| {
      TokensStep(input, |input|, ext);
      ScanEnd(input, S, "", ext);
      assert ts[i..] == [];
    } else {
      TokenThenRest(input, q, ts, gaps, i, ext);
      TokensOfPrint(input, q + |Text(ts[i])|, ts, gaps, i + 1, ext);
      ThenRest(ts, i);
    }
  }

  lemma PrintParts(ts: seq<Token>, gaps: seq<Gap>, i: nat, ext: bool) returns (rest: string)
    requires Printable(ts, gaps, ext) && i <= |ts|
    ensures |gaps| == |ts| + 1 && GapOk(gaps[i], ext, BeforeNewline(ts, i))
    ensures Print(ts, gaps, i, ext) == gaps[i].blanks + (gaps[i].comment + rest)
    ensures i == |ts| ==> rest == ""
    ensures i < |ts| ==> WellFormed(ts[i], ext) && (ts[i].kind.Alpha? ==> |ts[i].val| > 0)
    ensures i < |ts| ==> Text(ts[i]) <= rest && rest == Text(ts[i]) + Print(ts, gaps, i + 1, ext)
  {
    hide Text;
    assert i < |ts| ==> WellFormed(ts[i], ext);
    rest := if i == |ts| then "" else Text(ts[i]) + Print(ts, gaps, i + 1, ext);
  }

  lemma SkipGap(input: string, p: nat, g: Gap, rest: string, ts: seq<Token>, i: nat, ext: bool)
    requires GapOk(g, ext, BeforeNewline(ts, i)) && Has(input, p, g.blanks + (g.comment + rest))
    requires p + |g.blanks| + |g.comment| + |rest| == |input|
    requires if i < |ts| then WellFormed(ts[i], ext) && Text(ts[i]) <= rest else rest == ""
    ensures Has(input, p + |g.blanks| + |g.comment|, rest)
    ensures Tokens(input, p, ext) == Tokens(input, p + |g.blanks| + |g.comment|, ext)
  {
    hide Tokens, Scan, Has, Blanks, Remark, WellFormed;
    HasSplit(input, p, g.blanks, g.comment + rest);
    HasSplit(input, p + |g.blanks|, g.comment, rest);
    SkipBlanks(input, p, g.blanks, ext);
    if g.comment != "" {
      if rest != "" { HasAt(input, p + |g.blanks| + |g.comment|, rest, 0); }
      SkipComment(input, p + |g.blanks|, g.comment, ext);
    }
  }

  lemma TokenThenRest(input: string, q: nat, ts: seq<Token>, gaps: seq<Gap>, i: nat, ext: bool)
    requires Printable(ts, gaps, ext) && Separated(ts, gaps, ext) && i < |ts| && WellFormed(ts[i], ext)
    requires Has(input, q, Text(ts[i]) + Print(ts, gaps, i + 1, ext))
    requires q + |Text(ts[i])| + |Print(ts, gaps, i + 1, ext)| == |input|
    ensures Has(input, q + |Text(ts[i])|, Print(ts, gaps, i + 1, ext))
    ensures Tokens(input, q, ext) == Then(ts[i], Tokens(input, q + |Text(ts[i])|, ext))
  {
    hide Print, Text, Printable;
    var rest := Print(ts, gaps, i + 1, ext);
    HasSplit(input, q, Text(ts[i]), rest);
    if rest != "" { HasAt(input, q + |Text(ts[i])|, rest, 0); }
    TextScans(input, q, ts[i], ext);
    TokensStep(input, q, ext);
  }

  lemma ThenRest(ts: seq<Token>, i: nat)
    requires i < |ts|
    ensures Then(ts[i], Some(ts[i + 1..])) == Some(ts[i..])
  {
    assert ts[i..] == [ts[i]] + ts[i + 1..];
  }

  /** Printing any list of tokens and scanning it gives the list back, whatever blanks, escaped
      newlines and comments stand between them, and whether or not anything does where none is
      needed. */
  lemma RoundTrip(ts: seq<Token>, gaps: seq<Gap>, ext: bool)
    requires Printable(ts, gaps, ext) && Separated(ts, gaps, ext)
    ensures Tokens(Print(ts, gaps, 0, ext), 0, ext) == Some(ts)
  {
    var input := Print(ts, gaps, 0, ext);
    forall i: nat {:trigger CharAt(input, 0, input, i)} ensures CharAt(input, 0, input, i) {}
    TokensOfPrint(input, 0, ts, gaps, 0, ext);
  }

  /** A blank before each token and at the end. */
  function Plain(n: nat): (gaps: seq<Gap>)
    ensures |gaps| == n && forall k :: 0 <= k < n ==> gaps[k] == Gap(" ", "")
  {
    seq(n, _ => Gap(" ", ""))
  }

  lemma PlainPrints(ts: seq<Token>, ext: bool)
    requires forall k :: 0 <= k < |ts| ==> WellFormed(ts[k], ext)
    ensures Printable(ts, Plain(|ts| + 1), ext) && Separated(ts, Plain(|ts| + 1), ext)
  {
    assert " "[1..] == "";
  }

  // ----- what the round trip does not show

  const DELIMS := "=:;.,?[]/@!$%&*()-+|'"

  const LOWER := "abcdefghijklmnopqrstuvwxyz"
  const UPPER := "ABCDEFGHIJKLMNOPQRSTUVWXYZ"
  const DIGITS := "0123456789"

  lemma LowerCase(c: char)
    ensures 'a' <= c <= 'z' <==> c in LOWER
  {
    assert |LOWER| == 26 && forall i :: 0 <= i < 26 ==> LOWER[i] as int == 'a' as int + i;
    if 'a' <= c <= 'z' { assert LOWER[c as int - 'a' as int] == c; }
  }

  lemma UpperCase(c: char)
    ensures 'A' <= c <= 'Z' <==> c in UPPER
  {
    assert |UPPER| == 26 && forall i :: 0 <= i < 26 ==> UPPER[i] as int == 'A' as int + i;
    if 'A' <= c <= 'Z' { assert UPPER[c as int - 'A' as int] == c; }
  }

  lemma Alphanumeric(c: char)
    ensures IsAlpha(c) <==> c in LOWER || c in UPPER || c in DIGITS || c == '_'
  {
    LowerCase(c);
    UpperCase(c);
  }

  lemma CharClasses(c: char)
    ensures IsDelim(c) <==> c in DELIMS
    ensures IsWhitespace(c) <==> c in " \t\r"
  {
  }

  /** Inside an alphanumeric or a quoted token an escaped newline is nothing, and an escaped
      letter may stand for a control character. */
  lemma EscapesInside(input: string, p: nat, st: St, val: string, ext: bool)
    requires (st.A? || st.Q?) && p + 1 < |input| && input[p] == '\\'
    ensures input[p + 1] == '\n' ==> Scan(input, p, st, val, ext) == Scan(input, p + 2, st, val, ext)
    ensures forall k :: 0 <= k < 3 && input[p + 1] == "rnt"[k] && |val| < MAX_TOKEN_LEN ==>
              Scan(input, p, st, val, ext) == Scan(input, p + 2, st, val + ["\r\n\t"[k]], ext)
  {
  }

  /** A character that is in none of the classes does not scan, alone or behind others. */
  lemma StrangeRejected(input: string, p: nat, val: string, ext: bool)
    requires p < |input| && !IsAlpha(input[p]) && input[p] !in DELIMS && input[p] !in " \t\r\n\"#\\"
    ensures Tokens(input, p, ext) == None && Scan(input, p, A, val, ext).out == Error
  {
    CharClasses(input[p]);
  }

  /** Nor does an escape of anything but the characters that may be escaped. */
  lemma BadEscapeRejected(input: string, p: nat, st: St, val: string, ext: bool)
    requires st.A? || st.Q? || (st.S? && !ext)
    requires p < |input| && input[p] == '\\'
    requires p + 1 < |input| ==> input[p + 1] !in (if st.Q? then "rnt\"\\\n" else "rnt\"\\\n# ")
    ensures Scan(input, p, st, val, ext).out == Error
  {
    if p + 1 < |input| {
      assert forall c :: Unescape(c).Some? ==> c in "rnt\"\\\n# ";
      assert forall c :: Unescape(c).Some? && c != '#' && c != ' ' ==> c in "rnt\"\\\n";
    }
  }

  /** Nor a quoted token that is never closed. */
  lemma {:induction false} OpenQuoteRejected(input: string, p: nat, st: St, val: string, ext: bool)
    requires p <= |input| && (st.Q? || st.QE?) && forall k :: p <= k < |input| ==> input[k] != '"'
    ensures Scan(input, p, st, val, ext).out == Error
    decreases |input| - p
  {
    if p < |input| {
      match Step(st, input[p], ext)
      case Move(to) => OpenQuoteRejected(input, p + 1, to, val, ext);
      case Push(to, c) => if |val| < MAX_TOKEN_LEN { OpenQuoteRejected(input, p + 1, to, val + [c], ext); }
      case Bad =>
    }
  }

  ghost predicate ValOk(st: St, val: string, ext: bool) {
    && |val| <= MAX_TOKEN_LEN
    && (st.A? || st.AE? ==> AlphaVal(val, ext))
    && (st.S? || st.C? || st.CE? || st.E? ==> val == "")
    && (ext ==> !st.E?)
  }

  lemma {:induction false} ScanGivesWellFormed(input: string, p: nat, st: St, val: string, ext: bool)
    requires p <= |input| && ValOk(st, val, ext)
    ensures var r := Scan(input, p, st, val, ext); r.out.Tok? ==> WellFormed(r.out.t, ext)
    decreases |input| - p, if st.C? then 1 else 0
  {
    if p < |input| {
      match Step(st, input[p], ext)
      case Move(to) => ScanGivesWellFormed(input, p + 1, to, val, ext);
      case Push(to, c) =>
        if |val| < MAX_TOKEN_LEN { ScanGivesWellFormed(input, p + 1, to, val + [c], ext); }
      case Again(to) => ScanGivesWellFormed(input, p, to, val, ext);
      case Symbol(c) =>
      case CloseString =>
      case EndAlpha =>
      case Bad =>
    }
  }

  lemma {:induction false} TokensAreWellFormed(input: string, p: nat, ext: bool)
    requires p <= |input| && Tokens(input, p, ext).Some?
    ensures var ts := Tokens(input, p, ext).value; forall k :: 0 <= k < |ts| ==> WellFormed(ts[k], ext)
    decreases |input| - p
  {
    var r := Scan(input, p, S, "", ext);
    ScanGivesWellFormed(input, p, S, "", ext);
    if r.out.Tok? { TokensAreWellFormed(input, r.pos, ext); }
  }

  /** Whatever file was read, its tokens survive being printed and read again. */
  lemma Reprint(input: string, ext: bool)
    requires Tokens(input, 0, ext).Some?
    ensures var ts := Tokens(input, 0, ext).value;
      Printable(ts, Plain(|ts| + 1), ext) && Tokens(Print(ts, Plain(|ts| + 1), 0, ext), 0, ext) == Some(ts)
  {
    var ts := Tokens(input, 0, ext).value;
    TokensAreWellFormed(input, 0, ext);
    PlainPrints(ts, ext);
    RoundTrip(ts, Plain(|ts| + 1), ext);
  }

  // ----- the scanner as code

  function Newlines(s: string, n: nat): nat
    requires n <= |s|
  {
    if n == 0 then 0 else Newlines(s, n - 1) + if s[n - 1] == '\n' then 1 else 0
  }

  /** How many of the first `n` characters follow the last newline among them. */
  function Column(s: string, n: nat): nat
    requires n <= |s|
  {
    if n == 0 || s[n - 1] == '\n' then 0 else Column(s, n - 1) + 1
  }

  /** A parser reading a file from its start. */
  class CfgParser {
    const input: string
    var pos: nat
    var line: nat
    var col: nat
    var lookAhead: Option<char>
    /** How often reading has hit the end of the file, which moves the column too. */
    ghost var eofs: nat

    ghost predicate Valid()
      reads this
    {
      && pos <= |input|
      && line == 1 + Newlines(input, pos) && col == Column(input, pos) + eofs
      && (lookAhead.Some? ==> pos > 0 && input[pos - 1] == lookAhead.value)
    }

    /** The position of the next character to look at. */
    function At(): (r: nat)
      requires Valid()
      reads this
      ensures r <= |input|
    {
      if lookAhead.Some? then pos - 1 else pos
    }

    constructor (file: string)
      ensures Valid() && input == file && At() == 0
    {
      input := file;
      pos, line, col, lookAhead, eofs := 0, 1, 0, None, 0;
    }

    method ReadChar() returns (c: Option<char>)
      requires Valid() && lookAhead == None
      modifies this
      ensures Valid() && lookAhead == None
      ensures if old(pos) == |input| then c == None && pos == old(pos)
              else c == Some(input[old(pos)]) && pos == old(pos) + 1
    {
      if pos == |input| {
        c, col, eofs := None, col + 1, eofs + 1;
      } else {
        c, pos := Some(input[pos]), pos + 1;
        if c == Some('\n') {
          line, col := line + 1, 0;
          eofs := 0;
        } else {
          col := col + 1;
        }
      }
    }

    /** `cfg_get_token`: the look-ahead character makes no difference to what is scanned. */
    method GetToken(ext: bool) returns (out: Out)
      requires Valid()
      modifies this
      ensures Valid() && Result(out, At()) == Scan(input, old(At()), S, "", ext)
    {
      hide Scan, Step, Newlines, Column;
      var st, val := S, "";
      var c: Option<char>;
      if lookAhead.Some? {
        c, lookAhead := lookAhead, None;
      } else {
        c := ReadChar();
      }
      while c.Some?
        invariant Valid() && lookAhead == None
        invariant if c.Some? then pos > 0 && c.value == input[pos - 1] else pos == |input|
        invariant Scan(input, old(At()), S, "", ext) == Scan(input, if c.Some? then pos - 1 else pos, st, val, ext)
        decreases |input| - pos, if c.Some? then 1 else 0, if st.C? then 1 else 0
      {
        ScanStep(input, pos - 1, st, val, ext);
        match Step(st, c.value, ext) {
          case Move(to) => st := to;
          case Push(to, d) =>
            if |val| >= MAX_TOKEN_LEN { return Error; }
            st, val := to, val + [d];
          case Symbol(d) =>
            if |val| >= MAX_TOKEN_LEN { return Error; }
            return Tok(Token(Char(d), val + [d]));
          case CloseString => return Tok(Token(Str, val));
          case EndAlpha =>
            lookAhead := c;
            return Tok(Token(Alpha, val));
          case Again(to) =>
            st := to;
            continue;
          case Bad => return Error;
        }
        c := ReadChar();
      }
      ScanEnd(input, st, val, ext);
      return AtEof(st, val);
    }

    /** Calling for tokens until the end of the file gives all of them, or the first error. */
    method ReadAll(ext: bool) returns (ts: Option<seq<Token>>)
      requires Valid()
      modifies this
      ensures Valid() && ts == Tokens(input, old(At()), ext)
    {
      hide Tokens, Scan, Newlines, Column;
      var got: seq<Token> := [];
      ghost var all := Tokens(input, At(), ext);
      assert all.Some? ==> got + all.value == all.value;
      while true
        invariant Valid()
        invariant Tokens(input, old(At()), ext) == Prepend(got, Tokens(input, At(), ext))
        decreases |input| - At()
      {
        ghost var at := At();
        TokensStep(input, at, ext);
        var out := GetToken(ext);
        match out
        case Error => return None;
        case Eof =>
          assert got + [] == got;
          return Some(got);
        case Tok(t) =>
          assert Tokens(input, at, ext) == Then(t, Tokens(input, At(), ext));
          ghost var rest := Tokens(input, At(), ext);
          if rest.Some? { assert got + ([t] + rest.value) == (got + [t]) + rest.value; }
          got := got + [t];
      }
    }
  }

  function Prepend(ts: seq<Token>, rest: Option<seq<Token>>): Option<seq<Token>> {
    if rest.None? then None else Some(ts + rest.value)
  }
}
