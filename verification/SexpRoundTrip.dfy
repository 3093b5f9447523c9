/** Printing an expression and scanning the text gives the expression back. */
module SexpRoundTrip {
  import opened Bytes
  import opened SexpTokens
  import opened SexpChars
  import opened SexpScan
  import opened SexpPrint
  import SexpScanSteps

  // ---- decimal lengths ----

  lemma {:induction false} DecimalReads(n: nat)
    ensures Number(Decimal(n)) == n
    ensures forall k :: 0 <= k < |Decimal(n)| ==> IsDigit(Decimal(n)[k])
    ensures Decimal(n)[0] == ZERO <==> n == 0
  {
    if n >= 10 {
      DecimalReads(n / 10);
      var d := Decimal(n);
      assert d[..|d| - 1] == Decimal(n / 10);
      assert d[0] == Decimal(n / 10)[0];
    } else {
      assert Decimal(n)[..0] == [];
    }
  }

  lemma {:induction false} DigitRunIs(d: seq<byte>, rest: seq<byte>)
    requires forall k :: 0 <= k < |d| ==> IsDigit(d[k])
    requires rest == [] || !IsDigit(rest[0])
    ensures DigitRun(d + rest) == |d|
  {
    if d == [] {
      assert d + rest == rest;
    } else {
      assert (d + rest)[1..] == d[1..] + rest;
      DigitRunIs(d[1..], rest);
    }
  }

  lemma {:induction false} TokenRunIs(d: seq<byte>, rest: seq<byte>)
    requires forall k :: 0 <= k < |d| ==> IsTokenChar(d[k])
    requires rest != [] && !IsTokenChar(rest[0])
    ensures TokenRun(d + rest) == |d|
  {
    if d == [] {
      assert d + rest == rest;
    } else {
      assert (d + rest)[1..] == d[1..] + rest;
      TokenRunIs(d[1..], rest);
    }
  }

  // ---- strings ----

  lemma EscapedByteReads(c: byte, rest: seq<byte>)
    ensures QuoteLex(EscapeByte(c) + rest, false) == Shift(|EscapeByte(c)|, QuoteLex(rest, false))
    ensures Unquote(EscapeByte(c) + rest) == [c] + Unquote(rest)
  {
    hide QuoteLex, Unquote, EscapeLen, Unescape, UnescapeLen, HexDigit;
    var e := EscapeByte(c);
    var t := e + rest;
    if HasShortEscape(c) {
      assert t[1..] == [EscapeLetter(c)] + rest && t[2..] == rest;
      ShortEscape(c, rest);
      EscapeReads(t, 1);
    } else if Unprintable(c) {
      assert t[1..] == e[1..] + rest && t[4..] == rest;
      HexEscape(c, rest);
      EscapeReads(t, 3);
    } else {
      assert t[1..] == rest;
      PlainReads(t);
    }
  }

  /** An escape of `k` characters, on which both readings agree. */
  lemma EscapeReads(t: seq<byte>, k: nat)
    requires |t| > k > 0 && t[0] == BACKSLASH && EscapeLen(t[1..]) == k == UnescapeLen(t[1..])
    ensures QuoteLex(t, false) == Shift(1 + k, QuoteLex(t[1 + k..], false))
    ensures Unquote(t) == Unescape(t[1..]) + Unquote(t[1 + k..])
  {
    hide EscapeLen, Unescape, UnescapeLen, QuoteLex, Unquote;
    assert t[1..][k..] == t[1 + k..];
    SexpScanSteps.QuoteUnfolds(t, false);
    SexpScanSteps.QuoteUnfolds(t[1..], true);
    UnquoteUnfolds(t);
    SexpScanSteps.ShiftTwice(1, k, QuoteLex(t[1 + k..], false));
  }

  lemma UnquoteUnfolds(t: seq<byte>)
    requires |t| > 1 && t[0] == BACKSLASH
    ensures Unquote(t) == Unescape(t[1..]) + Unquote(t[1 + UnescapeLen(t[1..])..])
  {
    hide Unescape, UnescapeLen;
  }

  lemma PlainReads(t: seq<byte>)
    requires t != [] && t[0] != BACKSLASH && t[0] != DQUOTE
    ensures QuoteLex(t, false) == Shift(1, QuoteLex(t[1..], false))
    ensures Unquote(t) == [t[0]] + Unquote(t[1..])
  {}

  lemma ShortEscape(c: byte, rest: seq<byte>)
    requires HasShortEscape(c)
    ensures var s := [EscapeLetter(c)] + rest;
            EscapeLen(s) == 1 == UnescapeLen(s) && Unescape(s) == [c]
  {}

  lemma HexEscape(c: byte, rest: seq<byte>)
    ensures var s := [LETTER_X, HexDigit(c / 16, false), HexDigit(c % 16, false)] + rest;
            EscapeLen(s) == 3 == UnescapeLen(s) && Unescape(s) == [c]
  {
    hide HexDigit;
    DigitReads(c / 16, false);
    DigitReads(c % 16, false);
  }

  lemma DigitReads(v: nat, upper: bool)
    requires v < 16
    ensures IsHex(HexDigit(v, upper)) && HexValue(HexDigit(v, upper)) == v
  {}

  lemma {:induction false} EscapedTextReads(b: seq<byte>, rest: seq<byte>)
    ensures QuoteLex(EscapeAll(b) + [DQUOTE] + rest, false) == Ends(|EscapeAll(b)|)
    ensures Unquote(EscapeAll(b)) == b
  {
    hide EscapeByte, EscapeLen, Unescape, UnescapeLen;
    if b == [] {
      assert EscapeAll(b) + [DQUOTE] + rest == [DQUOTE] + rest;
    } else {
      var tail := EscapeAll(b[1..]);
      EscapedTextReads(b[1..], rest);
      assert EscapeAll(b) + [DQUOTE] + rest == EscapeByte(b[0]) + (tail + [DQUOTE] + rest);
      EscapedByteReads(b[0], tail + [DQUOTE] + rest);
      EscapedByteReads(b[0], tail);
      assert b == [b[0]] + b[1..];
    }
  }

  // ---- hex ----

  lemma HexTextReads(b: seq<byte>, rest: seq<byte>)
    ensures HexLex(HexAll(b) + [HASH] + rest, 0) == Ends(|HexAll(b)|)
    ensures HexBytes(HexAll(b)) == b
  {
    HexTextLex(b, rest, 0);
    HexTextPairs(b);
  }

  lemma {:induction false} HexTextLex(b: seq<byte>, rest: seq<byte>, count: nat)
    requires count % 2 == 0
    ensures HexLex(HexAll(b) + [HASH] + rest, count) == Ends(|HexAll(b)|)
    decreases |b|
  {
    var t := HexAll(b) + [HASH] + rest;
    if b == [] {
      assert t == [HASH] + rest;
    } else {
      var t' := HexAll(b[1..]) + [HASH] + rest;
      assert t == [HexDigit(b[0] / 16, true), HexDigit(b[0] % 16, true)] + t';
      assert t[1..][1..] == t';
      HexTextLex(b[1..], rest, count + 2);
    }
  }

  lemma {:induction false} HexTextPairs(b: seq<byte>)
    ensures HexBytes(HexAll(b)) == b
  {
    if b != [] {
      HexTextPairs(b[1..]);
      var hi, lo := HexDigit(b[0] / 16, true), HexDigit(b[0] % 16, true);
      var t := HexAll(b);
      assert t == [hi, lo] + HexAll(b[1..]);
      assert t[1..] == [lo] + HexAll(b[1..]) && t[1..][1..] == HexAll(b[1..]);
      assert Nibbles(t) == [HexValue(hi)] + Nibbles(t[1..]);
      assert Nibbles(t[1..]) == [HexValue(lo)] + Nibbles(HexAll(b[1..]));
      assert Nibbles(t)[2..] == Nibbles(HexAll(b[1..]));
      assert b == [b[0]] + b[1..];
    }
  }

  // ---- one lexeme in front of a text ----

  lemma {:induction false} ScanWhite(b64: Decoder, ws: seq<byte>, rest: seq<byte>, off: nat, level: nat, dh: bool)
    requires forall k :: 0 <= k < |ws| ==> IsWhite(ws[k])
    ensures Scan(b64, ws + rest, off, level, dh) == Scan(b64, rest, off + |ws|, level, dh)
    decreases |ws|
  {
    if ws == [] {
      assert ws + rest == rest;
    } else {
      assert (ws + rest)[1..] == ws[1..] + rest;
      ScanWhite(b64, ws[1..], rest, off + 1, level, dh);
    }
  }

  lemma ScanVerbatim(b64: Decoder, b: seq<byte>, rest: seq<byte>, off: nat, level: nat, dh: bool)
    requires b != []
    ensures var d := Decimal(|b|) + [COLON] + b;
            Scan(b64, d + rest, off, level, dh) == Prepend([Data(b)], Scan(b64, rest, off + |d|, level, dh))
  {
    hide Scan, Number, DigitRun, Decimal;
    var n := Decimal(|b|);
    var t := n + [COLON] + b + rest;
    DecimalReads(|b|);
    assert t == n + ([COLON] + b + rest);
    DigitRunIs(n, [COLON] + b + rest);
    assert t[..|n|] == n;
    assert t[|n| + 1..|n| + 1 + |b|] == b;
    assert t[|n| + 1 + |b|..] == rest;
    ScanDigits(b64, t, |n|, off, level, dh);
  }

  /** Digits, a colon and as many bytes as the digits say. */
  lemma ScanDigits(b64: Decoder, t: seq<byte>, n: nat, off: nat, level: nat, dh: bool)
    requires 0 < n < |t| && n == DigitRun(t) && t[0] != ZERO && t[n] == COLON && Number(t[..n]) <= |t| - n - 1
    ensures var size := Number(t[..n]);
            Scan(b64, t, off, level, dh)
            == Prepend([Data(t[n + 1..n + 1 + size])], Scan(b64, t[n + 1 + size..], off + n + 1 + size, level, dh))
  {
    hide Number, DigitRun;
    assert IsDigit(t[0]);
    assert Scan(b64, t, off, level, dh) == AfterDigits(b64, t, n, off, level, dh);
  }

  /** A length may not begin with a zero, and a printed empty item begins with one. */
  lemma ScanEmptyVerbatim(b64: Decoder, rest: seq<byte>, off: nat, level: nat, dh: bool)
    ensures Scan(b64, Decimal(0) + [COLON] + [] + rest, off, level, dh) == Failed(ZeroPrefix, Some(off))
  {
    var t := Decimal(0) + [COLON] + [] + rest;
    assert t[0] == ZERO;
  }

  lemma ScanToken(b64: Decoder, b: seq<byte>, rest: seq<byte>, off: nat, level: nat, dh: bool)
    requires b != [] && !IsDigit(b[0]) && forall k :: 0 <= k < |b| ==> InToken(b[k])
    requires rest != [] && !IsTokenChar(rest[0])
    ensures Scan(b64, b + rest, off, level, dh) == Prepend([Data(b)], Scan(b64, rest, off + |b|, level, dh))
  {
    var t := b + rest;
    TokenRunIs(b, rest);
    assert t[..|b|] == b && t[|b|..] == rest;
    assert t[0] == b[0];
  }

  lemma ScanString(b64: Decoder, b: seq<byte>, rest: seq<byte>, off: nat, level: nat, dh: bool)
    ensures var d := [DQUOTE] + EscapeAll(b) + [DQUOTE];
            Scan(b64, d + rest, off, level, dh) == Prepend([Data(b)], Scan(b64, rest, off + |d|, level, dh))
  {
    hide EscapeAll, Unquote, QuoteLex, Scan;
    var e := EscapeAll(b);
    var t := [DQUOTE] + e + [DQUOTE] + rest;
    var t' := e + [DQUOTE] + rest;
    assert t == [DQUOTE] + t' && t[1..] == t';
    EscapedTextReads(b, rest);
    assert t'[..|e|] == e && t'[|e| + 1..] == rest;
    ScanOpening(b64, t, off, level, dh);
  }

  /** The text of a display hint is stored as an ordinary data item. */
  lemma HintIsStored(b64: Decoder, b: seq<byte>)
    ensures var hint := [LBRACKET] + ([DQUOTE] + EscapeAll(b) + [DQUOTE] + [RBRACKET]);
            Scan(b64, hint, 0, 0, false) == Tokens([Data(b)])
  {
    hide EscapeAll;
    var d := [DQUOTE] + EscapeAll(b) + [DQUOTE];
    var hint := [LBRACKET] + (d + [RBRACKET]);
    assert hint[1..] == d + [RBRACKET] && [RBRACKET][1..] == [];
    ScanString(b64, b, [RBRACKET], 1, 0, true);
    assert Scan(b64, [], |d| + 2, 0, false) == Tokens([]);
    assert Scan(b64, [RBRACKET], |d| + 1, 0, true) == Tokens([]);
    assert Prepend([Data(b)], Tokens([])) == Tokens([Data(b)]);
  }

  /** A string or a hex text is read from behind its opening character. */
  lemma ScanOpening(b64: Decoder, t: seq<byte>, off: nat, level: nat, dh: bool)
    requires t != []
    ensures t[0] == DQUOTE ==> Scan(b64, t, off, level, dh) == AfterQuote(b64, t[1..], off + 1, level, dh)
    ensures t[0] == HASH ==> Scan(b64, t, off, level, dh) == AfterHash(b64, t[1..], off + 1, level, dh)
  {
    hide AfterQuote, AfterHash;
  }

  lemma ScanHex(b64: Decoder, b: seq<byte>, rest: seq<byte>, off: nat, level: nat, dh: bool)
    ensures var d := [HASH] + HexAll(b) + [HASH];
            Scan(b64, d + rest, off, level, dh) == Prepend([Data(b)], Scan(b64, rest, off + |d|, level, dh))
  {
    hide HexAll, HexBytes, HexLex, Scan;
    var e := HexAll(b);
    var t := [HASH] + e + [HASH] + rest;
    var t' := e + [HASH] + rest;
    assert t == [HASH] + t' && t[1..] == t';
    HexTextReads(b, rest);
    assert t'[..|e|] == e && t'[|e| + 1..] == rest;
    ScanOpening(b64, t, off, level, dh);
  }

  // ---- one printed token in front of a text ----

  lemma ScanForm(b64: Decoder, b: seq<byte>, rest: seq<byte>, off: nat, level: nat, dh: bool)
    requires rest != [] && !IsTokenChar(rest[0])
    ensures var d := FormText(SuitableForm(b), b);
            Scan(b64, d + rest, off, level, dh) == Prepend([Data(b)], Scan(b64, rest, off + |d|, level, dh))
  {
    hide Scan, EscapeAll, HexAll;
    match SuitableForm(b) {
      case TokenForm => ScanToken(b64, b, rest, off, level, dh);
      case StringForm => ScanString(b64, b, rest, off, level, dh);
      case HexForm => ScanHex(b64, b, rest, off, level, dh);
    }
  }

  lemma ScanParen(b64: Decoder, t: Token, rest: seq<byte>, off: nat, level: nat)
    requires t == Open || (t == Close && level > 0)
    ensures Scan(b64, (if t == Open then [LPAREN] else [RPAREN]) + rest, off, level, false)
         == Prepend([t], Scan(b64, rest, off + 1, if t == Open then level + 1 else level - 1, false))
  {
    var c := if t == Open then LPAREN else RPAREN;
    assert ([c] + rest)[0] == c && ([c] + rest)[1..] == rest;
  }

  lemma WhiteLine(n: nat)
    ensures forall k :: 0 <= k < n + 1 ==> IsWhite(([NEWLINE] + Spaces(n))[k])
  {}

  /** A printed token is read back as that token, and the scanner goes on behind its text. */
  lemma ScanTokenText(b64: Decoder, t: Token, next: Option<Token>, mode: Mode, level: nat, rest: seq<byte>, off: nat)
    requires t == Close ==> level > 0
    requires t.Data? && mode != Advanced ==> t.bytes != []
    requires next == Some(Close) ==> rest != [] && rest[0] == RPAREN
    ensures var d := TokenText(t, next, mode, level);
            Scan(b64, d + rest, off, level, false)
              == Prepend([t], Scan(b64, rest, off + |d|, IndentAfter(t, level), false))
  {
    hide Scan, FormText, SuitableForm, Decimal;
    var d := TokenText(t, next, mode, level);
    match t {
      case Open =>
        if mode == Canonical || level == 0 {
          ScanParen(b64, t, rest, off, level);
        } else {
          WhiteLine(level);
          assert d + rest == ([NEWLINE] + Spaces(level)) + ([LPAREN] + rest);
          ScanWhite(b64, [NEWLINE] + Spaces(level), [LPAREN] + rest, off, level, false);
          ScanParen(b64, t, rest, off + level + 1, level);
          assert |Spaces(level)| == level;
        }
      case Close =>
        if d == [RPAREN] {
          ScanParen(b64, t, rest, off, level);
        } else {
          WhiteLine(level - 1);
          var ws := [NEWLINE] + Spaces(level - 1);
          assert d == [RPAREN] + ws;
          assert d + rest == [RPAREN] + (ws + rest);
          ScanParen(b64, t, ws + rest, off, level);
          ScanWhite(b64, ws, rest, off + 1, level - 1, false);
        }
      case Data(b) =>
        if mode != Advanced {
          ScanVerbatim(b64, b, rest, off, level, false);
        } else if next == Some(Close) {
          assert d == FormText(SuitableForm(b), b);
          ScanForm(b64, b, rest, off, level, false);
        } else {
          var f := FormText(SuitableForm(b), b);
          assert d + rest == f + ([SPACE] + rest);
          ScanForm(b64, b, [SPACE] + rest, off, level, false);
          ScanWhite(b64, [SPACE], rest, off + |f|, level, false);
        }
    }
  }

  lemma NextIsFirst(ts: seq<Token>, mode: Mode, indent: nat)
    ensures ts != [] && ts[0] == Close ==>
              PrintFrom(ts, mode, indent) != [] && PrintFrom(ts, mode, indent)[0] == RPAREN
  {}

  /** Whatever is balanced and printed is scanned back, whole. */
  lemma {:induction false} PrintedTextScans(b64: Decoder, ts: seq<Token>, mode: Mode, off: nat, level: nat)
    requires Balanced(ts, level)
    requires mode == Advanced || NoEmptyData(ts)
    ensures Scan(b64, PrintFrom(ts, mode, level), off, level, false) == Tokens(ts)
    decreases |ts|
  {
    hide TokenText;
    if ts == [] {
      assert PrintFrom(ts, mode, level) == (if mode == Canonical then [] else [NEWLINE]);
      if mode != Canonical {
        ScanWhite(b64, [NEWLINE], [], off, 0, false);
        assert [NEWLINE] + [] == [NEWLINE];
      }
    } else {
      var t, tail := ts[0], ts[1..];
      var next := IndentAfter(t, level);
      var rest := PrintFrom(tail, mode, next);
      var d := TokenText(t, Next(ts), mode, level);
      assert ts == [t] + tail;
      NextIsFirst(tail, mode, next);
      ScanTokenText(b64, t, Next(ts), mode, level, rest, off);
      PrintedTextScans(b64, tail, mode, off + |d|, next);
    }
  }

  /** An empty item printed with its length is refused, wherever it stands. */
  lemma {:induction false} PrintedEmptyDataRefused(b64: Decoder, ts: seq<Token>, mode: Mode, off: nat, level: nat)
    requires Balanced(ts, level) && mode != Advanced && !NoEmptyData(ts)
    ensures var r := Scan(b64, PrintFrom(ts, mode, level), off, level, false);
            r.Failed? && r.err == ZeroPrefix && r.at.Some?
    decreases |ts|
  {
    hide TokenText;
    var t, tail := ts[0], ts[1..];
    var next := IndentAfter(t, level);
    var rest := PrintFrom(tail, mode, next);
    var d := TokenText(t, Next(ts), mode, level);
    if t == Data([]) {
      EmptyItemText(Next(ts), mode, level);
      ScanEmptyVerbatim(b64, rest, off, level, false);
    } else {
      assert ts == [t] + tail;
      NextIsFirst(tail, mode, next);
      ScanTokenText(b64, t, Next(ts), mode, level, rest, off);
      PrintedEmptyDataRefused(b64, tail, mode, off + |d|, next);
    }
  }

  lemma EmptyItemText(next: Option<Token>, mode: Mode, level: nat)
    requires mode != Advanced
    ensures TokenText(Data([]), next, mode, level) == Decimal(0) + [COLON] + []
  {}

  /** Print then scan is the identity on balanced expressions exactly when the expression is one
      the library allows (there is a token, and no empty list in front) and, in the modes that
      print lengths, no data item is empty. */
  lemma PrintScanRoundTrip(b64: Decoder, ts: seq<Token>, mode: Mode)
    requires Balanced(ts, 0)
    ensures Read(b64, Print(ts, mode)) == Expression(Stored(ts)) <==>
              !Degenerate(ts) && (mode == Advanced || NoEmptyData(ts))
  {
    if mode == Advanced || NoEmptyData(ts) {
      PrintedTextScans(b64, ts, mode, 0, 0);
    } else {
      PrintedEmptyDataRefused(b64, ts, mode, 0, 0);
    }
  }
}
