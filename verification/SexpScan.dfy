/** What a text means: a recursive-descent reading of the S-expression syntax, one lexeme at a time.
    The character-by-character scanner is proved against it. */
module SexpScan {
  import opened Bytes
  import opened SexpTokens
  import opened SexpChars

  datatype ScanError =
    | UnmatchedParen | UnmatchedHint | NestedHint | BadQuotation | OddHexNumbers | BadHexChar
    | StringTooLong | InvalidLength | ZeroPrefix | UnexpectedPunctuation | BadCharacter | BadBase64

  /** The tokens of the text, or the error and the offset it is reported at (none for the errors
      that report no offset). */
  datatype ScanResult =
    | Tokens(ts: seq<Token>)
    | Failed(err: ScanError, at: Option<nat>)

  /** The base64 decoder is a library routine; it decodes a text or refuses it. */
  type Decoder = seq<byte> -> Option<seq<byte>>

  /** Where the body of a bracketed lexeme ends: at its closing character, nowhere, or in an error. */
  datatype Lexeme = Ends(n: nat) | Runs | Wrong(err: ScanError, n: nat)

  function Shift(k: nat, l: Lexeme): Lexeme {
    match l
    case Ends(n) => Ends(k + n)
    case Runs => Runs
    case Wrong(e, n) => Wrong(e, k + n)
  }

  /** Length of the escape that follows a backslash, 0 if there is no such escape. */
  function EscapeLen(t: seq<byte>): (n: nat)
    ensures n <= |t|
  {
    if t == [] then 0
    else if t[0] in {LETTER_B, LETTER_T, LETTER_V, LETTER_N, LETTER_F, LETTER_R, DQUOTE, SQUOTE, BACKSLASH} then 1
    else if IsOctal(t[0]) then
      if |t| > 2 && IsOctal(t[1]) && IsOctal(t[2]) then 3 else 0
    else if t[0] == LETTER_X then
      if |t| > 2 && IsHex(t[1]) && IsHex(t[2]) then 3 else 0
    else if t[0] == RETURN then
      if |t| > 1 && t[1] == NEWLINE then 2 else 1
    else if t[0] == NEWLINE then
      if |t| > 1 && t[1] == RETURN then 2 else 1
    else 0
  }

  /** The end of a quoted string, from behind its opening quote (`esc`: behind a backslash). */
  function QuoteLex(t: seq<byte>, esc: bool): (l: Lexeme)
    ensures l.Ends? ==> l.n < |t|
    ensures l.Wrong? ==> l.n < |t|
    decreases |t|
  {
    if t == [] then Runs
    else if esc then
      if EscapeLen(t) == 0 then Wrong(BadQuotation, 0)
      else Shift(EscapeLen(t), QuoteLex(t[EscapeLen(t)..], false))
    else if t[0] == BACKSLASH then Shift(1, QuoteLex(t[1..], true))
    else if t[0] == DQUOTE then Ends(0)
    else Shift(1, QuoteLex(t[1..], false))
  }

  /** The end of a hex string whose digits so far number `count`. */
  function HexLex(t: seq<byte>, count: nat): (l: Lexeme)
    ensures l.Ends? ==> l.n < |t|
    ensures l.Wrong? ==> l.n < |t|
    decreases |t|
  {
    if t == [] then Runs
    else if IsHex(t[0]) then Shift(1, HexLex(t[1..], count + 1))
    else if t[0] == HASH then (if count % 2 == 1 then Wrong(OddHexNumbers, 0) else Ends(0))
    else if !IsWhite(t[0]) then Wrong(BadHexChar, 0)
    else Shift(1, HexLex(t[1..], count))
  }

  function Base64Lex(t: seq<byte>): (l: Lexeme)
    ensures l.Ends? ==> l.n < |t|
    ensures l.Wrong? ==> l.n < |t|
    decreases |t|
  {
    if t == [] then Runs
    else if IsBase64(t[0]) then Shift(1, Base64Lex(t[1..]))
    else if t[0] == BAR then Ends(0)
    else Wrong(BadCharacter, 0)
  }

  /** The bytes a quoted string denotes; `s` is what stands between the quotes. */
  function Unquote(s: seq<byte>): seq<byte>
    decreases |s|
  {
    if s == [] then []
    else if s[0] != BACKSLASH then [s[0]] + Unquote(s[1..])
    else if |s| == 1 then []
    else Unescape(s[1..]) + Unquote(s[1 + UnescapeLen(s[1..])..])
  }

  /** What the escape behind a backslash denotes: one byte, or nothing. */
  function Unescape(s: seq<byte>): seq<byte>
    requires s != []
  {
    if s[0] == LETTER_B then [BACKSPACE]
    else if s[0] == LETTER_T then [TAB]
    else if s[0] == LETTER_V then [VTAB]
    else if s[0] == LETTER_N then [NEWLINE]
    else if s[0] == LETTER_F then [FORMFEED]
    else if s[0] == LETTER_R then [RETURN]
    else if s[0] in {DQUOTE, SQUOTE, BACKSLASH} then [s[0]]
    else if s[0] == LETTER_X && |s| > 2 && IsHex(s[1]) && IsHex(s[2]) then
      [HexValue(s[1]) * 16 + HexValue(s[2])]
    else if |s| > 2 && IsOctal(s[0]) && IsOctal(s[1]) && IsOctal(s[2]) then
      [(HexValue(s[0]) * 64 + HexValue(s[1]) * 8 + HexValue(s[2])) % 256]
    else []
  }

  function UnescapeLen(s: seq<byte>): (n: nat)
    requires s != []
    ensures 1 <= n <= |s|
  {
    if s[0] == LETTER_X && |s| > 2 && IsHex(s[1]) && IsHex(s[2]) then 3
    else if |s| > 2 && IsOctal(s[0]) && IsOctal(s[1]) && IsOctal(s[2]) then 3
    else if s[0] == RETURN && |s| > 1 && s[1] == NEWLINE then 2
    else if s[0] == NEWLINE && |s| > 1 && s[1] == RETURN then 2
    else 1
  }

  /** The hex digits of a text, in order, without the white space. */
  function Nibbles(s: seq<byte>): seq<byte> {
    if s == [] then []
    else if IsWhite(s[0]) then Nibbles(s[1..])
    else [HexValue(s[0])] + Nibbles(s[1..])
  }

  function Pairs(s: seq<byte>): seq<byte>
    requires forall k :: 0 <= k < |s| ==> s[k] < 16
  {
    if |s| < 2 then [] else [s[0] * 16 + s[1]] + Pairs(s[2..])
  }

  lemma NibblesSmall(s: seq<byte>)
    ensures forall k :: 0 <= k < |Nibbles(s)| ==> Nibbles(s)[k] < 16
  {}

  /** The bytes a hex string denotes. */
  function HexBytes(s: seq<byte>): seq<byte> {
    NibblesSmall(s);
    Pairs(Nibbles(s))
  }

  /** Reaching the end of the text: every list must be closed. What a token, a string or a length
      prefix has begun is dropped. */
  function Finish(level: nat): ScanResult {
    if level > 0 then Failed(UnmatchedParen, None) else Tokens([])
  }

  function Prepend(done: seq<Token>, r: ScanResult): ScanResult {
    match r
    case Tokens(ts) => Tokens(done + ts)
    case Failed(_, _) => r
  }

  /** Read `t`, which starts at offset `off` of the text, with `level` lists open and perhaps a
      display hint (`dh`). */
  function Scan(b64: Decoder, t: seq<byte>, off: nat, level: nat, dh: bool): ScanResult
    decreases |t|, 1
  {
    if t == [] then Finish(level)
    else
      var c := t[0];
      if c == LPAREN then
        if dh then Failed(UnmatchedHint, Some(off))
        else Prepend([Open], Scan(b64, t[1..], off + 1, level + 1, dh))
      else if c == RPAREN then
        if dh then Failed(UnmatchedHint, Some(off))
        else if level == 0 then Failed(UnmatchedParen, Some(off))
        else Prepend([Close], Scan(b64, t[1..], off + 1, level - 1, dh))
      else if c == DQUOTE then AfterQuote(b64, t[1..], off + 1, level, dh)
      else if c == HASH then AfterHash(b64, t[1..], off + 1, level, dh)
      else if c == BAR then AfterBar(b64, t[1..], off + 1, level, dh)
      else if c == LBRACKET then
        if dh then Failed(NestedHint, Some(off)) else Scan(b64, t[1..], off + 1, level, true)
      else if c == RBRACKET then
        if !dh then Failed(UnmatchedHint, Some(off)) else Scan(b64, t[1..], off + 1, level, false)
      else if IsDigit(c) then
        if c == ZERO then Failed(ZeroPrefix, Some(off))
        else AfterDigits(b64, t, DigitRun(t), off, level, dh)
      else if IsTokenChar(c) then
        var n := TokenRun(t);
        if n == |t| then Finish(level)
        else Prepend([Data(t[..n])], Scan(b64, t[n..], off + n, level, dh))
      else if IsWhite(c) then Scan(b64, t[1..], off + 1, level, dh)
      else if c == LBRACE || c == AMPERSAND || c == BACKSLASH then Failed(UnexpectedPunctuation, Some(off))
      else Failed(BadCharacter, Some(off))
  }

  function AfterQuote(b64: Decoder, t: seq<byte>, off: nat, level: nat, dh: bool): ScanResult
    decreases |t|, 2
  {
    match QuoteLex(t, false)
    case Runs => Finish(level)
    case Wrong(e, n) => Failed(e, Some(off + n))
    case Ends(n) => Prepend([Data(Unquote(t[..n]))], Scan(b64, t[n + 1..], off + n + 1, level, dh))
  }

  function AfterHash(b64: Decoder, t: seq<byte>, off: nat, level: nat, dh: bool): ScanResult
    decreases |t|, 2
  {
    match HexLex(t, 0)
    case Runs => Finish(level)
    case Wrong(e, n) => Failed(e, Some(off + n))
    case Ends(n) => Prepend([Data(HexBytes(t[..n]))], Scan(b64, t[n + 1..], off + n + 1, level, dh))
  }

  function AfterBar(b64: Decoder, t: seq<byte>, off: nat, level: nat, dh: bool): ScanResult
    decreases |t|, 2
  {
    match Base64Lex(t)
    case Runs => Finish(level)
    case Wrong(e, n) => Failed(e, Some(off + n))
    case Ends(n) =>
      match b64(t[..n])
      case None => Failed(BadBase64, None)
      case Some(d) => Prepend([Data(d)], Scan(b64, t[n + 1..], off + n + 1, level, dh))
  }

  /** Behind the `n` digits at the front of `t`: a length and its bytes, or a string whose length
      prefix is ignored. */
  function AfterDigits(b64: Decoder, t: seq<byte>, n: nat, off: nat, level: nat, dh: bool): ScanResult
    requires 0 < n <= |t|
    decreases |t|, 0
  {
    if n == |t| then Finish(level)
    else if t[n] == COLON then
      var size := Number(t[..n]);
      if size > |t| - n - 1 then Failed(StringTooLong, Some(off + n))
      else Prepend([Data(t[n + 1..n + 1 + size])],
                   Scan(b64, t[n + 1 + size..], off + n + 1 + size, level, dh))
    else if t[n] == DQUOTE then AfterQuote(b64, t[n + 1..], off + n + 1, level, dh)
    else if t[n] == HASH then AfterHash(b64, t[n + 1..], off + n + 1, level, dh)
    else if t[n] == BAR then AfterBar(b64, t[n + 1..], off + n + 1, level, dh)
    else Failed(InvalidLength, Some(off + n))
  }

  /** Forbidden empty expressions: no token at all, or an empty list in front. */
  predicate Degenerate(ts: seq<Token>) {
    ts == [] || (|ts| > 1 && ts[0] == Open && ts[1] == Close)
  }

  /** What the caller gets: an error, no expression, or the stored buffer. */
  datatype Outcome =
    | Refused(err: ScanError, at: Option<nat>)
    | NoExpression
    | Expression(buffer: seq<byte>)

  function Read(b64: Decoder, text: seq<byte>): Outcome {
    match Scan(b64, text, 0, 0, false)
    case Failed(e, at) => Refused(e, at)
    case Tokens(ts) => if Degenerate(ts) then NoExpression else Expression(Stored(ts))
  }

  // ---- what every accepted text is ----

  lemma PrependNothing(r: ScanResult)
    ensures Prepend([], r) == r
  {}

  lemma PrependTwice(a: seq<Token>, b: seq<Token>, r: ScanResult)
    ensures Prepend(a, Prepend(b, r)) == Prepend(a + b, r)
  {
    if r.Tokens? {
      assert a + (b + r.ts) == a + b + r.ts;
    }
  }

  ghost predicate BalancedResult(r: ScanResult, level: nat) {
    r.Tokens? ==> Balanced(r.ts, level)
  }

  lemma PrependData(d: seq<byte>, r: ScanResult, level: nat)
    requires BalancedResult(r, level)
    ensures BalancedResult(Prepend([Data(d)], r), level)
  {
    if r.Tokens? {
      BalancedStep(Data(d), r.ts, level);
    }
  }

  lemma FinishBalanced(level: nat)
    ensures BalancedResult(Finish(level), level)
  {}

  /** Every accepted text yields a balanced token sequence. */
  lemma {:induction false} ScanBalanced(b64: Decoder, t: seq<byte>, off: nat, level: nat, dh: bool)
    ensures BalancedResult(Scan(b64, t, off, level, dh), level)
    decreases |t|, 1
  {
    if t != [] {
      var c := t[0];
      if c == LPAREN {
        if !dh {
          ScanBalanced(b64, t[1..], off + 1, level + 1, dh);
          var r := Scan(b64, t[1..], off + 1, level + 1, dh);
          if r.Tokens? {
            BalancedStep(Open, r.ts, level);
          }
        }
      } else if c == RPAREN {
        if !dh && level > 0 {
          ScanBalanced(b64, t[1..], off + 1, level - 1, dh);
          var r := Scan(b64, t[1..], off + 1, level - 1, dh);
          if r.Tokens? {
            BalancedStep(Close, r.ts, level);
          }
        }
      } else if c == DQUOTE || c == HASH || c == BAR {
        BracketedBalanced(b64, t[1..], off + 1, level, dh);
      } else if c == LBRACKET || c == RBRACKET {
        ScanBalanced(b64, t[1..], off + 1, level, c == LBRACKET);
      } else if IsDigit(c) {
        if c != ZERO {
          DigitsBalanced(b64, t, DigitRun(t), off, level, dh);
        }
      } else if IsTokenChar(c) {
        var n := TokenRun(t);
        if n < |t| {
          ScanBalanced(b64, t[n..], off + n, level, dh);
          PrependData(t[..n], Scan(b64, t[n..], off + n, level, dh), level);
        }
      } else if IsWhite(c) {
        ScanBalanced(b64, t[1..], off + 1, level, dh);
      }
    }
  }

  lemma {:induction false} BracketedBalanced(b64: Decoder, t: seq<byte>, off: nat, level: nat, dh: bool)
    ensures BalancedResult(AfterQuote(b64, t, off, level, dh), level)
    ensures BalancedResult(AfterHash(b64, t, off, level, dh), level)
    ensures BalancedResult(AfterBar(b64, t, off, level, dh), level)
    decreases |t|, 2
  {
    hide Balanced, Unquote, HexBytes, QuoteLex, HexLex, Base64Lex, Scan;
    FinishBalanced(level);
    var q, h, v := QuoteLex(t, false), HexLex(t, 0), Base64Lex(t);
    if q.Ends? {
      LexemeBalanced(b64, Unquote(t[..q.n]), t, q.n, off, level, dh);
    }
    if h.Ends? {
      LexemeBalanced(b64, HexBytes(t[..h.n]), t, h.n, off, level, dh);
    }
    if v.Ends? && b64(t[..v.n]).Some? {
      LexemeBalanced(b64, b64(t[..v.n]).value, t, v.n, off, level, dh);
    }
  }

  lemma {:induction false} LexemeBalanced(b64: Decoder, d: seq<byte>, t: seq<byte>, n: nat, off: nat, level: nat,
                                          dh: bool)
    requires n < |t|
    ensures BalancedResult(Prepend([Data(d)], Scan(b64, t[n + 1..], off + n + 1, level, dh)), level)
    decreases |t|, 0
  {
    ScanBalanced(b64, t[n + 1..], off + n + 1, level, dh);
    PrependData(d, Scan(b64, t[n + 1..], off + n + 1, level, dh), level);
  }

  lemma {:induction false} DigitsBalanced(b64: Decoder, t: seq<byte>, n: nat, off: nat, level: nat, dh: bool)
    requires 0 < n <= |t|
    ensures BalancedResult(AfterDigits(b64, t, n, off, level, dh), level)
    decreases |t|, 0
  {
    if n < |t| {
      if t[n] == COLON {
        var size := Number(t[..n]);
        if size <= |t| - n - 1 {
          ScanBalanced(b64, t[n + 1 + size..], off + n + 1 + size, level, dh);
          PrependData(t[n + 1..n + 1 + size], Scan(b64, t[n + 1 + size..], off + n + 1 + size, level, dh), level);
        }
      } else {
        BracketedBalanced(b64, t[n + 1..], off + n + 1, level, dh);
      }
    }
  }

  /** Whatever a text is read as, the buffer is the encoding of a list of trees behind which the stop
      tag stands; and the buffer reads back as those tokens exactly when no data item is longer
      than its length field can say. */
  lemma ReadIsWellFormed(b64: Decoder, text: seq<byte>)
    requires Read(b64, text).Expression?
    ensures var ts := Scan(b64, text, 0, 0, false).ts; var d := Read(b64, text).buffer;
            && d == Stored(ts) && d[|d| - 1] == ST_STOP == 0
            && ts == FlattenAll(Parse(ts).0)
            && (Decode(d) == Some(ts) <==> Storable(ts))
  {
    ScanBalanced(b64, text, 0, 0, false);
    var ts := Scan(b64, text, 0, 0, false).ts;
    ParseFlattens(ts, 0);
    assert FlattenAll(Parse(ts).0) + [] == FlattenAll(Parse(ts).0);
    StoredReadsBack(ts);
  }
}
