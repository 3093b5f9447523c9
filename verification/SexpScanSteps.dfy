/** What one character does to the scanner, stated on the lexeme-by-lexeme reading of the text. */
module SexpScanSteps {
  import opened Bytes
  import opened SexpTokens
  import opened SexpChars
  import opened SexpScan

  /** What the scanner is in the middle of; `at` is where that lexeme (for strings: its opening
      character) stands. */
  datatype Mode =
    | Between
    | InToken(at: nat)
    | InQuote(at: nat, esc: bool)
    | InHex(at: nat, count: nat)
    | InBase64(at: nat)
    | InDigits(at: nat)

  /** What the scanner knows of the lexeme it is in, at position `p`. */
  ghost predicate Knows(text: seq<byte>, p: nat, mode: Mode) {
    && p <= |text|
    && match mode
       case Between => true
       case InToken(s) =>
         s < p && !IsDigit(text[s]) && forall k :: s <= k < p ==> IsTokenChar(text[k])
       case InQuote(s, esc) =>
         s < p && QuoteLex(text[s + 1..], false) == Shift(p - s - 1, QuoteLex(text[p..], esc))
       case InHex(s, count) =>
         && s < p && HexLex(text[s + 1..], 0) == Shift(p - s - 1, HexLex(text[p..], count))
         && |Nibbles(text[s + 1..p])| == count
       case InBase64(s) =>
         s < p && Base64Lex(text[s + 1..]) == Shift(p - s - 1, Base64Lex(text[p..]))
       case InDigits(s) =>
         s < p && text[s] != ZERO && forall k :: s <= k < p ==> IsDigit(text[k])
  }

  /** What is still to come, read from the start of the lexeme the scanner is in. */
  ghost function ToCome(b64: Decoder, text: seq<byte>, p: nat, level: nat, dh: bool, mode: Mode): ScanResult
    requires Knows(text, p, mode)
  {
    match mode
    case Between => Scan(b64, text[p..], p, level, dh)
    case InToken(s) => Scan(b64, text[s..], s, level, dh)
    case InQuote(s, _) => AfterQuote(b64, text[s + 1..], s + 1, level, dh)
    case InHex(s, _) => AfterHash(b64, text[s + 1..], s + 1, level, dh)
    case InBase64(s) => AfterBar(b64, text[s + 1..], s + 1, level, dh)
    case InDigits(s) => Scan(b64, text[s..], s, level, dh)
  }

  lemma ShiftTwice(a: nat, b: nat, l: Lexeme)
    ensures Shift(a, Shift(b, l)) == Shift(a + b, l)
  {}

  lemma ShiftNothing(l: Lexeme)
    ensures Shift(0, l) == l
  {}

  lemma Tail(text: seq<byte>, p: nat, k: nat)
    requires p + k <= |text|
    ensures text[p..][k..] == text[p + k..]
  {}

  // ---- tokens ----

  lemma {:induction false} TokenRunFrom(t: seq<byte>, n: nat)
    requires n <= |t| && (forall k :: 0 <= k < n ==> IsTokenChar(t[k])) && (n < |t| ==> !IsTokenChar(t[n]))
    ensures TokenRun(t) == n
  {
    if n > 0 {
      TokenRunFrom(t[1..], n - 1);
    }
  }

  lemma {:induction false} DigitRunFrom(t: seq<byte>, n: nat)
    requires n <= |t| && (forall k :: 0 <= k < n ==> IsDigit(t[k])) && (n < |t| ==> !IsDigit(t[n]))
    ensures DigitRun(t) == n
  {
    if n > 0 {
      DigitRunFrom(t[1..], n - 1);
    }
  }

  lemma TokenEnds(b64: Decoder, text: seq<byte>, p: nat, level: nat, dh: bool, s: nat)
    requires Knows(text, p, InToken(s)) && p < |text| && !IsTokenChar(text[p])
    ensures ToCome(b64, text, p, level, dh, InToken(s))
         == Prepend([Data(text[s..p])], ToCome(b64, text, p, level, dh, Between))
  {
    var t := text[s..];
    TokenRunFrom(t, p - s);
    Tail(text, s, p - s);
    assert t[..p - s] == text[s..p];
    assert t[0] == text[s];
  }

  // ---- strings ----

  lemma QuoteStep(b64: Decoder, text: seq<byte>, p: nat, level: nat, dh: bool, s: nat, esc: bool)
    requires Knows(text, p, InQuote(s, esc)) && p < |text|
    ensures var n := EscapeLen(text[p..]);
            if esc then
              if n == 0 then ToCome(b64, text, p, level, dh, InQuote(s, esc)) == Failed(BadQuotation, Some(p))
              else Knows(text, p + n, InQuote(s, false))
            else if text[p] == BACKSLASH then Knows(text, p + 1, InQuote(s, true))
            else if text[p] == DQUOTE then
              ToCome(b64, text, p, level, dh, InQuote(s, esc))
                == Prepend([Data(Unquote(text[s + 1..p]))], ToCome(b64, text, p + 1, level, dh, Between))
            else Knows(text, p + 1, InQuote(s, false))
  {
    hide Scan, EscapeLen, Unquote, QuoteLex;
    var t := text[p..];
    var u := text[s + 1..];
    var n := if esc then EscapeLen(t) else 1;
    Tail(text, p, n);
    assert t[0] == text[p];
    QuoteUnfolds(t, esc);
    if !esc && text[p] == DQUOTE {
      assert u[..p - s - 1] == text[s + 1..p];
      Tail(text, s + 1, p - s);
    } else if n > 0 {
      ShiftTwice(p - s - 1, n, QuoteLex(text[p + n..], !esc && text[p] == BACKSLASH));
    }
  }

  lemma QuoteUnfolds(t: seq<byte>, esc: bool)
    requires t != []
    ensures QuoteLex(t, esc)
         == if esc then
              if EscapeLen(t) == 0 then Wrong(BadQuotation, 0)
              else Shift(EscapeLen(t), QuoteLex(t[EscapeLen(t)..], false))
            else if t[0] == BACKSLASH then Shift(1, QuoteLex(t[1..], true))
            else if t[0] == DQUOTE then Ends(0)
            else Shift(1, QuoteLex(t[1..], false))
  {
    hide EscapeLen;
  }

  lemma {:induction false} NibblesConcat(a: seq<byte>, b: seq<byte>)
    ensures Nibbles(a + b) == Nibbles(a) + Nibbles(b)
  {
    if a == [] {
      assert a + b == b;
    } else {
      assert (a + b)[1..] == a[1..] + b;
      NibblesConcat(a[1..], b);
    }
  }

  lemma HexStep(b64: Decoder, text: seq<byte>, p: nat, level: nat, dh: bool, s: nat, count: nat)
    requires Knows(text, p, InHex(s, count)) && p < |text|
    ensures if IsHex(text[p]) then Knows(text, p + 1, InHex(s, count + 1))
            else if text[p] == HASH then
              ToCome(b64, text, p, level, dh, InHex(s, count))
                == (if count % 2 == 1 then Failed(OddHexNumbers, Some(p))
                    else Prepend([Data(HexBytes(text[s + 1..p]))], ToCome(b64, text, p + 1, level, dh, Between)))
            else if IsWhite(text[p]) then Knows(text, p + 1, InHex(s, count))
            else ToCome(b64, text, p, level, dh, InHex(s, count)) == Failed(BadHexChar, Some(p))
  {
    hide Scan, HexBytes, HexLex, Nibbles;
    var t := text[p..];
    Tail(text, p, 1);
    assert t[0] == text[p];
    HexUnfolds(t, count);
    if text[p] == HASH {
      assert text[s + 1..][..p - s - 1] == text[s + 1..p];
      Tail(text, s + 1, p - s);
    } else if IsHex(text[p]) || IsWhite(text[p]) {
      ShiftTwice(p - s - 1, 1, HexLex(text[p + 1..], if IsHex(text[p]) then count + 1 else count));
      assert text[s + 1..p + 1] == text[s + 1..p] + [text[p]];
      NibblesConcat(text[s + 1..p], [text[p]]);
      OneNibble(text[p]);
    }
  }

  lemma HexUnfolds(t: seq<byte>, count: nat)
    requires t != []
    ensures HexLex(t, count)
         == if IsHex(t[0]) then Shift(1, HexLex(t[1..], count + 1))
            else if t[0] == HASH then (if count % 2 == 1 then Wrong(OddHexNumbers, 0) else Ends(0))
            else if !IsWhite(t[0]) then Wrong(BadHexChar, 0)
            else Shift(1, HexLex(t[1..], count))
  {}

  lemma OneNibble(c: byte)
    ensures |Nibbles([c])| == if IsWhite(c) then 0 else 1
  {}

  lemma Base64Step(b64: Decoder, text: seq<byte>, p: nat, level: nat, dh: bool, s: nat)
    requires Knows(text, p, InBase64(s)) && p < |text|
    ensures if IsBase64(text[p]) then Knows(text, p + 1, InBase64(s))
            else if text[p] == BAR then
              var d := b64(text[s + 1..p]);
              ToCome(b64, text, p, level, dh, InBase64(s))
                == (if d.None? then Failed(BadBase64, None)
                    else Prepend([Data(d.value)], ToCome(b64, text, p + 1, level, dh, Between)))
            else ToCome(b64, text, p, level, dh, InBase64(s)) == Failed(BadCharacter, Some(p))
  {
    hide Scan;
    var t := text[p..];
    Tail(text, p, 1);
    assert t[0] == text[p];
    if text[p] == BAR {
      assert text[s + 1..][..p - s - 1] == text[s + 1..p];
      Tail(text, s + 1, p - s);
    } else {
      ShiftTwice(p - s - 1, 1, Base64Lex(text[p + 1..]));
    }
  }

  // ---- length prefixes ----

  /** Behind a string's opening character the string is all that is known. */
  lemma Opens(text: seq<byte>, p: nat)
    requires p < |text|
    ensures Knows(text, p + 1, InQuote(p, false)) && Knows(text, p + 1, InHex(p, 0)) && Knows(text, p + 1, InBase64(p))
  {
    ShiftNothing(QuoteLex(text[p + 1..], false));
    ShiftNothing(HexLex(text[p + 1..], 0));
    ShiftNothing(Base64Lex(text[p + 1..]));
  }

  lemma DigitsEnd(b64: Decoder, text: seq<byte>, p: nat, level: nat, dh: bool, s: nat)
    requires Knows(text, p, InDigits(s)) && p < |text| && !IsDigit(text[p])
    ensures ToCome(b64, text, p, level, dh, InDigits(s)) == AfterDigits(b64, text[s..], p - s, s, level, dh)
  {
    hide AfterQuote, AfterHash, AfterBar, AfterDigits;
    var t := text[s..];
    assert t[0] == text[s];
    DigitRunFrom(t, p - s);
  }

  lemma DigitsStep(b64: Decoder, text: seq<byte>, p: nat, level: nat, dh: bool, s: nat)
    requires Knows(text, p, InDigits(s)) && p < |text|
    ensures Knows(text, p + 1, InQuote(p, false)) && Knows(text, p + 1, InHex(p, 0)) && Knows(text, p + 1, InBase64(p))
    ensures var size := Number(text[s..p]); var r := ToCome(b64, text, p, level, dh, InDigits(s)); var c := text[p];
            if IsDigit(c) then Knows(text, p + 1, InDigits(s))
            else if c == COLON then
              if size > |text| - p - 1 then r == Failed(StringTooLong, Some(p))
              else r == Prepend([Data(text[p + 1..p + 1 + size])], ToCome(b64, text, p + 1 + size, level, dh, Between))
            else if c == DQUOTE then r == ToCome(b64, text, p + 1, level, dh, InQuote(p, false))
            else if c == HASH then r == ToCome(b64, text, p + 1, level, dh, InHex(p, 0))
            else if c == BAR then r == ToCome(b64, text, p + 1, level, dh, InBase64(p))
            else r == Failed(InvalidLength, Some(p))
  {
    hide AfterQuote, AfterHash, AfterBar, Number, Scan, QuoteLex, HexLex, Base64Lex;
    Opens(text, p);
    var t := text[s..];
    if !IsDigit(text[p]) {
      DigitsEnd(b64, text, p, level, dh, s);
      assert t[p - s] == text[p];
      assert t[..p - s] == text[s..p];
      Tail(text, s, p - s + 1);
      if text[p] == COLON {
        var size := Number(text[s..p]);
        if size <= |text| - p - 1 {
          assert t[p - s + 1..p - s + 1 + size] == text[p + 1..p + 1 + size];
          Tail(text, s, p - s + 1 + size);
        }
      }
    }
  }

  // ---- between lexemes, and the end ----

  lemma BetweenStep(b64: Decoder, text: seq<byte>, p: nat, level: nat, dh: bool)
    requires p < |text|
    ensures Knows(text, p + 1, InQuote(p, false)) && Knows(text, p + 1, InHex(p, 0)) && Knows(text, p + 1, InBase64(p))
    ensures var c := text[p]; var r := ToCome(b64, text, p, level, dh, Between);
            if c == LPAREN then
              r == (if dh then Failed(UnmatchedHint, Some(p))
                    else Prepend([Open], ToCome(b64, text, p + 1, level + 1, dh, Between)))
            else if c == RPAREN then
              r == (if dh then Failed(UnmatchedHint, Some(p))
                    else if level == 0 then Failed(UnmatchedParen, Some(p))
                    else Prepend([Close], ToCome(b64, text, p + 1, level - 1, dh, Between)))
            else if c == DQUOTE then r == ToCome(b64, text, p + 1, level, dh, InQuote(p, false))
            else if c == HASH then r == ToCome(b64, text, p + 1, level, dh, InHex(p, 0))
            else if c == BAR then r == ToCome(b64, text, p + 1, level, dh, InBase64(p))
            else if c == LBRACKET then
              r == (if dh then Failed(NestedHint, Some(p)) else ToCome(b64, text, p + 1, level, true, Between))
            else if c == RBRACKET then
              r == (if !dh then Failed(UnmatchedHint, Some(p)) else ToCome(b64, text, p + 1, level, false, Between))
            else if IsDigit(c) then
              if c == ZERO then r == Failed(ZeroPrefix, Some(p))
              else Knows(text, p + 1, InDigits(p)) && r == ToCome(b64, text, p + 1, level, dh, InDigits(p))
            else if IsTokenChar(c) then
              Knows(text, p + 1, InToken(p)) && r == ToCome(b64, text, p + 1, level, dh, InToken(p))
            else if IsWhite(c) then r == ToCome(b64, text, p + 1, level, dh, Between)
            else if c == LBRACE || c == AMPERSAND || c == BACKSLASH then r == Failed(UnexpectedPunctuation, Some(p))
            else r == Failed(BadCharacter, Some(p))
  {
    hide AfterQuote, AfterHash, AfterBar, AfterDigits;
    Opens(text, p);
    var t := text[p..];
    Tail(text, p, 1);
    assert t[0] == text[p];
  }

  /** At the end of the text, whatever the scanner is in the middle of is dropped. */
  lemma AtTheEnd(b64: Decoder, text: seq<byte>, level: nat, dh: bool, mode: Mode)
    requires Knows(text, |text|, mode)
    ensures ToCome(b64, text, |text|, level, dh, mode) == Finish(level)
  {
    var p := |text|;
    assert text[p..] == [];
    match mode {
      case InToken(s) =>
        TokenRunFrom(text[s..], p - s);
        assert text[s..][0] == text[s];
      case InDigits(s) =>
        DigitRunFrom(text[s..], p - s);
        assert text[s..][0] == text[s];
        assert Scan(b64, text[s..], s, level, dh) == AfterDigits(b64, text[s..], p - s, s, level, dh);
      case _ =>
    }
  }
}
