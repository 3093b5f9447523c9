/** What the scanner drops. A lexeme that the end of the text cuts off, and a display hint that is still
    open there, go without an error; this says exactly when that happens. */
module SexpEnds {
  import opened Bytes
  import opened SexpTokens
  import opened SexpChars
  import opened SexpScan
  import opened SexpScanSteps
  import opened SexpPrint
  import opened SexpRoundTrip

  const EMPTY_LIST: seq<byte> := [LPAREN, RPAREN]

  /** The text ends between lexemes, with no display hint open. */
  predicate Complete(t: seq<byte>, dh: bool)
    decreases |t|, 1
  {
    if t == [] then !dh
    else
      var c := t[0];
      if c == LPAREN || c == RPAREN || IsWhite(c) then Complete(t[1..], dh)
      else if c == DQUOTE then EndsComplete(QuoteLex(t[1..], false), t[1..], dh)
      else if c == HASH then EndsComplete(HexLex(t[1..], 0), t[1..], dh)
      else if c == BAR then EndsComplete(Base64Lex(t[1..]), t[1..], dh)
      else if c == LBRACKET then Complete(t[1..], true)
      else if c == RBRACKET then Complete(t[1..], false)
      else if IsDigit(c) then DigitsComplete(t, DigitRun(t), dh)
      else
        var n := TokenRun(t);
        0 < n < |t| && Complete(t[n..], dh)
  }

  predicate EndsComplete(l: Lexeme, t: seq<byte>, dh: bool)
    requires l.Ends? ==> l.n < |t|
    decreases |t|, 1
  {
    l.Ends? && Complete(t[l.n + 1..], dh)
  }

  predicate DigitsComplete(t: seq<byte>, n: nat, dh: bool)
    requires n <= |t|
    decreases |t|, 0
  {
    && 0 < n < |t|
    && if t[n] == COLON then
         Number(t[..n]) <= |t| - n - 1 && Complete(t[n + 1 + Number(t[..n])..], dh)
       else if t[n] == DQUOTE then EndsComplete(QuoteLex(t[n + 1..], false), t[n + 1..], dh)
       else if t[n] == HASH then EndsComplete(HexLex(t[n + 1..], 0), t[n + 1..], dh)
       else t[n] == BAR && EndsComplete(Base64Lex(t[n + 1..]), t[n + 1..], dh)
  }

  /** The result of the text with an empty list behind it is that of the text, with that list behind it. */
  predicate ListAppears(r: ScanResult, r': ScanResult)
    requires r.Tokens?
  {
    r' == Tokens(r.ts + [Open, Close])
  }

  lemma ListAppearsBehind(done: seq<Token>, r: ScanResult, r': ScanResult)
    requires r.Tokens?
    ensures ListAppears(Prepend(done, r), Prepend(done, r')) <==> ListAppears(r, r')
  {
    if r'.Tokens? {
      assert done + r.ts + [Open, Close] == done + (r.ts + [Open, Close]);
      if done + r'.ts == done + (r.ts + [Open, Close]) {
        assert r'.ts == (done + r'.ts)[|done|..] == r.ts + [Open, Close];
      }
    }
  }

  lemma Split(t: seq<byte>, k: nat)
    requires k <= |t|
    ensures (t + EMPTY_LIST)[..k] == t[..k] && (t + EMPTY_LIST)[k..] == t[k..] + EMPTY_LIST
  {}

  // ---- lexemes in a text that goes on with a list ----

  /** A lexeme that ends does so whatever follows; one that the text cuts off does not end in the list. */
  predicate Settled(l: Lexeme, l': Lexeme) {
    && (l.Ends? ==> l' == l)
    && (l.Runs? ==> !l'.Ends?)
  }

  lemma EscapeLenGoesOn(t: seq<byte>)
    requires EscapeLen(t) > 0
    ensures EscapeLen(t + EMPTY_LIST) == EscapeLen(t)
  {}

  lemma {:induction false} QuoteGoesOn(t: seq<byte>, esc: bool)
    ensures Settled(QuoteLex(t, esc), QuoteLex(t + EMPTY_LIST, esc))
    decreases |t|
  {
    hide EscapeLen;
    if t == [] {
      assert t + EMPTY_LIST == EMPTY_LIST;
      QuoteOfList(esc);
    } else if esc {
      if EscapeLen(t) > 0 {
        EscapeLenGoesOn(t);
        Split(t, EscapeLen(t));
        QuoteGoesOn(t[EscapeLen(t)..], false);
      }
    } else {
      Split(t, 1);
      QuoteGoesOn(t[1..], t[0] == BACKSLASH);
    }
  }

  lemma QuoteOfList(esc: bool)
    ensures !QuoteLex(EMPTY_LIST, esc).Ends?
  {
    var t := EMPTY_LIST;
    if !esc {
      assert t[1..] == [RPAREN] && t[1..][1..] == [];
      assert QuoteLex(t[1..][1..], false) == Runs;
      assert QuoteLex(t[1..], false) == Runs;
    }
  }

  lemma {:induction false} HexGoesOn(t: seq<byte>, count: nat)
    ensures Settled(HexLex(t, count), HexLex(t + EMPTY_LIST, count))
    decreases |t|
  {
    if t == [] {
      assert (t + EMPTY_LIST)[0] == LPAREN;
    } else {
      Split(t, 1);
      HexGoesOn(t[1..], if IsHex(t[0]) then count + 1 else count);
    }
  }

  lemma {:induction false} Base64GoesOn(t: seq<byte>)
    ensures Settled(Base64Lex(t), Base64Lex(t + EMPTY_LIST))
    decreases |t|
  {
    if t == [] {
      assert (t + EMPTY_LIST)[0] == LPAREN;
    } else {
      Split(t, 1);
      Base64GoesOn(t[1..]);
    }
  }

  lemma RunsStay(t: seq<byte>)
    ensures TokenRun(t + EMPTY_LIST) == TokenRun(t) && DigitRun(t + EMPTY_LIST) == DigitRun(t)
  {
    TokenRunFrom(t + EMPTY_LIST, TokenRun(t));
    DigitRunFrom(t + EMPTY_LIST, DigitRun(t));
  }

  // ---- nothing is dropped ----

  /** From every state of the scanner: an accepted text is complete exactly when a list behind it is
      read as that list. */
  lemma {:induction false} CompleteMeans(b64: Decoder, t: seq<byte>, off: nat, level: nat, dh: bool)
    requires Scan(b64, t, off, level, dh).Tokens?
    ensures Complete(t, dh)
       <==> ListAppears(Scan(b64, t, off, level, dh), Scan(b64, t + EMPTY_LIST, off, level, dh))
    decreases |t|, 2
  {
    hide QuoteLex, HexLex, Base64Lex, TokenRun, DigitRun, Number, AfterQuote, AfterHash, AfterBar, AfterDigits;
    hide EndsComplete, DigitsComplete, ListAppears;
    var u := t + EMPTY_LIST;
    if t == [] {
      assert u == EMPTY_LIST;
      ListAlone(b64, off, level, dh);
    } else {
      var c := t[0];
      assert u[0] == c;
      Split(t, 1);
      if c == LPAREN {
        CompleteMeans(b64, t[1..], off + 1, level + 1, dh);
        ListAppearsBehind([Open], Scan(b64, t[1..], off + 1, level + 1, dh), Scan(b64, u[1..], off + 1, level + 1, dh));
      } else if c == RPAREN {
        CompleteMeans(b64, t[1..], off + 1, level - 1, dh);
        ListAppearsBehind([Close], Scan(b64, t[1..], off + 1, level - 1, dh),
                          Scan(b64, u[1..], off + 1, level - 1, dh));
      } else if c == DQUOTE {
        QuoteMeans(b64, t[1..], off + 1, level, dh);
      } else if c == HASH {
        HexMeans(b64, t[1..], off + 1, level, dh);
      } else if c == BAR {
        Base64Means(b64, t[1..], off + 1, level, dh);
      } else if c == LBRACKET || c == RBRACKET {
        CompleteMeans(b64, t[1..], off + 1, level, c == LBRACKET);
      } else if IsDigit(c) {
        RunsStay(t);
        DigitsMeans(b64, t, DigitRun(t), off, level, dh);
      } else if IsTokenChar(c) {
        RunsStay(t);
        TokenMeans(b64, t, off, level, dh);
      } else {
        CompleteMeans(b64, t[1..], off + 1, level, dh);
      }
    }
  }

  lemma ListAlone(b64: Decoder, off: nat, level: nat, dh: bool)
    requires Scan(b64, [], off, level, dh).Tokens?
    ensures !dh <==> ListAppears(Scan(b64, [], off, level, dh), Scan(b64, EMPTY_LIST, off, level, dh))
  {
    var t := EMPTY_LIST;
    assert t[1..] == [RPAREN] && t[1..][1..] == [];
    if !dh {
      assert Scan(b64, t[1..][1..], off + 2, level, dh) == Tokens([]);
      assert Scan(b64, t[1..], off + 1, level + 1, dh) == Prepend([Close], Tokens([]));
      assert [Open] + ([Close] + []) == [] + [Open, Close];
    }
  }

  lemma TokenMeans(b64: Decoder, t: seq<byte>, off: nat, level: nat, dh: bool)
    requires t != [] && !IsDigit(t[0]) && IsTokenChar(t[0]) && Scan(b64, t, off, level, dh).Tokens?
    requires TokenRun(t + EMPTY_LIST) == TokenRun(t)
    ensures 0 < TokenRun(t)
    ensures TokenRun(t) < |t| && Complete(t[TokenRun(t)..], dh)
       <==> ListAppears(Scan(b64, t, off, level, dh), Scan(b64, t + EMPTY_LIST, off, level, dh))
    decreases |t|, 1
  {
    hide ListAppears, Scan, TokenRun, IsTokenChar, Complete;
    var n, u := TokenRun(t), t + EMPTY_LIST;
    assert u[0] == t[0];
    Split(t, n);
    ScanOfToken(b64, t, off, level, dh);
    ScanOfToken(b64, u, off, level, dh);
    if n < |t| {
      CompleteMeans(b64, t[n..], off + n, level, dh);
      ListAppearsBehind([Data(t[..n])], Scan(b64, t[n..], off + n, level, dh), Scan(b64, u[n..], off + n, level, dh));
    } else {
      assert t[n..] + EMPTY_LIST == EMPTY_LIST;
      assert t[..n] == t;
      DataBeforeList(b64, t, off + n, level, dh);
      assert Finish(level) == Tokens([]);
    }
  }

  lemma ScanOfToken(b64: Decoder, t: seq<byte>, off: nat, level: nat, dh: bool)
    requires t != [] && !IsDigit(t[0]) && IsTokenChar(t[0])
    ensures 0 < TokenRun(t)
    ensures Scan(b64, t, off, level, dh)
         == if TokenRun(t) == |t| then Finish(level)
            else Prepend([Data(t[..TokenRun(t)])], Scan(b64, t[TokenRun(t)..], off + TokenRun(t), level, dh))
  {}

  lemma DataBeforeList(b64: Decoder, d: seq<byte>, off: nat, level: nat, dh: bool)
    ensures !ListAppears(Tokens([]), Prepend([Data(d)], Scan(b64, EMPTY_LIST, off, level, dh)))
  {
    var r := Prepend([Data(d)], Scan(b64, EMPTY_LIST, off, level, dh));
    if r.Tokens? {
      assert r.ts[0] == Data(d) && ([] + [Open, Close])[0] == Open;
    }
  }

  /** A cut-off lexeme leaves the list unread. */
  lemma NoListBehind(level: nat, r: ScanResult)
    requires Finish(level).Tokens? && (r == Finish(level) || r.Failed?)
    ensures !ListAppears(Finish(level), r)
  {
    if r == Finish(level) {
      assert |r.ts| == 0 && |[] + [Open, Close]| == 2;
    }
  }

  lemma QuoteMeans(b64: Decoder, t: seq<byte>, off: nat, level: nat, dh: bool)
    requires AfterQuote(b64, t, off, level, dh).Tokens?
    ensures EndsComplete(QuoteLex(t, false), t, dh)
       <==> ListAppears(AfterQuote(b64, t, off, level, dh), AfterQuote(b64, t + EMPTY_LIST, off, level, dh))
    decreases |t|, 3
  {
    hide QuoteLex, Scan, Complete, ListAppears, Unquote, Finish;
    QuoteGoesOn(t, false);
    match QuoteLex(t, false) {
      case Runs => NoListBehind(level, AfterQuote(b64, t + EMPTY_LIST, off, level, dh));
      case Ends(n) =>
        Split(t, n);
        Split(t, n + 1);
        CompleteMeans(b64, t[n + 1..], off + n + 1, level, dh);
        ListAppearsBehind([Data(Unquote(t[..n]))], Scan(b64, t[n + 1..], off + n + 1, level, dh),
                          Scan(b64, t[n + 1..] + EMPTY_LIST, off + n + 1, level, dh));
    }
  }

  lemma HexMeans(b64: Decoder, t: seq<byte>, off: nat, level: nat, dh: bool)
    requires AfterHash(b64, t, off, level, dh).Tokens?
    ensures EndsComplete(HexLex(t, 0), t, dh)
       <==> ListAppears(AfterHash(b64, t, off, level, dh), AfterHash(b64, t + EMPTY_LIST, off, level, dh))
    decreases |t|, 3
  {
    hide HexLex, Scan, Complete, ListAppears, HexBytes, Finish;
    HexGoesOn(t, 0);
    match HexLex(t, 0) {
      case Runs => NoListBehind(level, AfterHash(b64, t + EMPTY_LIST, off, level, dh));
      case Ends(n) =>
        Split(t, n);
        Split(t, n + 1);
        CompleteMeans(b64, t[n + 1..], off + n + 1, level, dh);
        ListAppearsBehind([Data(HexBytes(t[..n]))], Scan(b64, t[n + 1..], off + n + 1, level, dh),
                          Scan(b64, t[n + 1..] + EMPTY_LIST, off + n + 1, level, dh));
    }
  }

  lemma Base64Means(b64: Decoder, t: seq<byte>, off: nat, level: nat, dh: bool)
    requires AfterBar(b64, t, off, level, dh).Tokens?
    ensures EndsComplete(Base64Lex(t), t, dh)
       <==> ListAppears(AfterBar(b64, t, off, level, dh), AfterBar(b64, t + EMPTY_LIST, off, level, dh))
    decreases |t|, 3
  {
    hide Base64Lex, Scan, Complete, ListAppears, Finish;
    Base64GoesOn(t);
    match Base64Lex(t) {
      case Runs => NoListBehind(level, AfterBar(b64, t + EMPTY_LIST, off, level, dh));
      case Ends(n) =>
        Split(t, n);
        Split(t, n + 1);
        CompleteMeans(b64, t[n + 1..], off + n + 1, level, dh);
        ListAppearsBehind([Data(b64(t[..n]).value)], Scan(b64, t[n + 1..], off + n + 1, level, dh),
                          Scan(b64, t[n + 1..] + EMPTY_LIST, off + n + 1, level, dh));
    }
  }

  lemma DigitsMeans(b64: Decoder, t: seq<byte>, n: nat, off: nat, level: nat, dh: bool)
    requires 0 < n <= |t| && AfterDigits(b64, t, n, off, level, dh).Tokens?
    ensures DigitsComplete(t, n, dh)
       <==> ListAppears(AfterDigits(b64, t, n, off, level, dh), AfterDigits(b64, t + EMPTY_LIST, n, off, level, dh))
    decreases |t|, 1
  {
    hide QuoteLex, HexLex, Base64Lex, Scan, Complete, EndsComplete, ListAppears, Number;
    hide AfterQuote, AfterHash, AfterBar, Finish;
    var u := t + EMPTY_LIST;
    Split(t, n);
    if n == |t| {
      assert u[n] == LPAREN;
      NoListBehind(level, AfterDigits(b64, u, n, off, level, dh));
    } else {
      assert u[n] == t[n];
      Split(t, n + 1);
      if t[n] == COLON {
        VerbatimMeans(b64, t, n, off, level, dh);
      } else if t[n] == DQUOTE {
        QuoteMeans(b64, t[n + 1..], off + n + 1, level, dh);
      } else if t[n] == HASH {
        HexMeans(b64, t[n + 1..], off + n + 1, level, dh);
      } else {
        Base64Means(b64, t[n + 1..], off + n + 1, level, dh);
      }
    }
  }

  lemma VerbatimMeans(b64: Decoder, t: seq<byte>, n: nat, off: nat, level: nat, dh: bool)
    requires 0 < n < |t| && t[n] == COLON && AfterDigits(b64, t, n, off, level, dh).Tokens?
    ensures Number(t[..n]) <= |t| - n - 1
    ensures Complete(t[n + 1 + Number(t[..n])..], dh)
       <==> ListAppears(AfterDigits(b64, t, n, off, level, dh), AfterDigits(b64, t + EMPTY_LIST, n, off, level, dh))
    decreases |t|, 0
  {
    hide Scan, Complete, ListAppears, Number;
    var u, size := t + EMPTY_LIST, Number(t[..n]);
    var end := n + 1 + size;
    Split(t, n);
    Split(t, end);
    assert u[n] == COLON;
    assert u[n + 1..end] == t[n + 1..end];
    CompleteMeans(b64, t[end..], off + end, level, dh);
    ListAppearsBehind([Data(t[n + 1..end])], Scan(b64, t[end..], off + end, level, dh),
                      Scan(b64, t[end..] + EMPTY_LIST, off + end, level, dh));
  }

  /** Nothing of an accepted text is dropped, exactly when a list behind it is read as that list. */
  lemma NothingDropped(b64: Decoder, text: seq<byte>)
    requires !Read(b64, text).Refused?
    ensures Complete(text, false)
       <==> Scan(b64, text + EMPTY_LIST, 0, 0, false) == Tokens(Scan(b64, text, 0, 0, false).ts + [Open, Close])
  {
    hide Scan, Complete;
    CompleteMeans(b64, text, 0, 0, false);
  }

  /** A token at the end of the text is dropped, whatever it is. */
  lemma CutTokenDropped(b64: Decoder, t: seq<byte>)
    requires t != [] && !IsDigit(t[0]) && forall k :: 0 <= k < |t| ==> IsTokenChar(t[k])
    ensures Read(b64, t) == NoExpression && !Complete(t, false)
  {
    TokenRunFrom(t, |t|);
    ScanOfToken(b64, t, 0, 0, false);
  }

  /** So is a display hint that is opened behind a string and not closed. */
  lemma OpenHintDropped(b64: Decoder, b: seq<byte>)
    ensures var text := [DQUOTE] + EscapeAll(b) + [DQUOTE];
            && Complete(text, false) && Read(b64, text) == Expression(Stored([Data(b)]))
            && !Complete(text + [LBRACKET], false) && Read(b64, text + [LBRACKET]) == Read(b64, text)
  {
    hide EscapeAll, QuoteLex, Unquote, Scan, Stored;
    var e := EscapeAll(b);
    var text := [DQUOTE] + e + [DQUOTE];
    ScanString(b64, b, [], 0, 0, false);
    ScanString(b64, b, [LBRACKET], 0, 0, false);
    assert text + [] == text;
    OnlyBracket(b64, |text|);
    assert Prepend([Data(b)], Tokens([])) == Tokens([Data(b)]);
    StringComplete(b, []);
    StringComplete(b, [LBRACKET]);
  }

  lemma OnlyBracket(b64: Decoder, off: nat)
    ensures Scan(b64, [], off, 0, false) == Tokens([]) == Scan(b64, [LBRACKET], off, 0, false)
    ensures Complete([], false) && !Complete([LBRACKET], false)
  {
    assert [LBRACKET][1..] == [];
  }

  lemma StringComplete(b: seq<byte>, rest: seq<byte>)
    ensures Complete([DQUOTE] + EscapeAll(b) + [DQUOTE] + rest, false) <==> Complete(rest, false)
  {
    hide EscapeAll, QuoteLex, Unquote;
    var e := EscapeAll(b);
    var t := [DQUOTE] + e + [DQUOTE] + rest;
    assert t[1..] == e + [DQUOTE] + rest;
    EscapedTextReads(b, rest);
    assert t[1..][|e| + 1..] == rest;
  }
}
