/** The rest of the syntax in plain character codes: punctuation, lengths, tokens, and what is refused. */
module SexpSyntax {
  import opened Bytes
  import opened SexpTokens
  import opened SexpChars
  import opened SexpScan
  import opened SexpRoundTrip

  // ---- characters between lexemes ----

  /** Parentheses open and close lists, brackets a display hint; each is refused where it cannot stand. */
  lemma Punctuation(b64: Decoder, rest: seq<byte>, off: nat, level: nat)
    ensures Scan(b64, [40] + rest, off, level, false) == Prepend([Open], Scan(b64, rest, off + 1, level + 1, false))
    ensures Scan(b64, [40] + rest, off, level, true) == Failed(UnmatchedHint, Some(off))
    ensures level > 0 ==>
              Scan(b64, [41] + rest, off, level, false) == Prepend([Close], Scan(b64, rest, off + 1, level - 1, false))
    ensures level == 0 ==> Scan(b64, [41] + rest, off, level, false) == Failed(UnmatchedParen, Some(off))
    ensures Scan(b64, [41] + rest, off, level, true) == Failed(UnmatchedHint, Some(off))
    ensures Scan(b64, [91] + rest, off, level, false) == Scan(b64, rest, off + 1, level, true)
    ensures Scan(b64, [91] + rest, off, level, true) == Failed(NestedHint, Some(off))
    ensures Scan(b64, [93] + rest, off, level, true) == Scan(b64, rest, off + 1, level, false)
    ensures Scan(b64, [93] + rest, off, level, false) == Failed(UnmatchedHint, Some(off))
  {
    assert ([40] + rest)[1..] == rest && ([41] + rest)[1..] == rest;
    assert ([91] + rest)[1..] == rest && ([93] + rest)[1..] == rest;
  }

  /** White space is passed over. A length may not begin with a zero; an ampersand, a backslash and a left
      brace are reserved; and the characters below stand nowhere. Every other one begins a lexeme. */
  lemma OtherCharacters(b64: Decoder, c: byte, rest: seq<byte>, off: nat, level: nat, dh: bool)
    ensures var r := Scan(b64, [c] + rest, off, level, dh);
            && (9 <= c <= 13 || c == 32 ==> r == Scan(b64, rest, off + 1, level, dh))
            && (c == 48 ==> r == Failed(ZeroPrefix, Some(off)))
            && (c == 38 || c == 92 || c == 123 ==> r == Failed(UnexpectedPunctuation, Some(off)))
            && (StandsNowhere(c) ==> r == Failed(BadCharacter, Some(off)))
  {
    assert ([c] + rest)[1..] == rest;
  }

  /** Control characters but NUL and white space, ! $ % ' , ; < > ? @ ^ ` } ~ and what is not ASCII. */
  predicate StandsNowhere(c: byte) {
    || 1 <= c <= 8 || 14 <= c <= 31 || c >= 125
    || c in {33, 36, 37, 39, 44, 59, 60, 62, 63, 64, 94, 96}
  }

  // ---- tokens ----

  /** Letters, digits and - . / _ : * + =, and NUL, which the lookup takes for one of them. */
  predicate TokenCode(c: byte) {
    48 <= c <= 57 || 65 <= c <= 90 || 97 <= c <= 122 || c in {45, 46, 47, 95, 58, 42, 43, 61, 0}
  }

  /** A token ends at the first other character, and is stored as it is. */
  lemma TokenMeans(b64: Decoder, d: seq<byte>, rest: seq<byte>, off: nat, level: nat, dh: bool)
    requires d != [] && !(48 <= d[0] <= 57) && forall k :: 0 <= k < |d| ==> TokenCode(d[k])
    requires rest != [] && !TokenCode(rest[0])
    ensures Scan(b64, d + rest, off, level, dh) == Prepend([Data(d)], Scan(b64, rest, off + |d|, level, dh))
  {
    hide Scan, TokenRun;
    var t := d + rest;
    TokenRunIs(d, rest);
    assert t[..|d|] == d && t[|d|..] == rest && t[0] == d[0];
    TokenInFront(b64, t, off, level, dh);
  }

  lemma TokenInFront(b64: Decoder, t: seq<byte>, off: nat, level: nat, dh: bool)
    requires t != [] && !(48 <= t[0] <= 57) && TokenCode(t[0]) && TokenRun(t) < |t|
    ensures Scan(b64, t, off, level, dh)
         == Prepend([Data(t[..TokenRun(t)])], Scan(b64, t[TokenRun(t)..], off + TokenRun(t), level, dh))
  {}

  // ---- lengths ----

  /** The number that decimal digits denote. */
  function Decimals(ds: seq<nat>): nat {
    if ds == [] then 0 else 10 * Decimals(ds[..|ds| - 1]) + ds[|ds| - 1]
  }

  function DigitCodes(ds: seq<nat>): (t: seq<byte>)
    requires forall k :: 0 <= k < |ds| ==> ds[k] < 10
    ensures |t| == |ds|
  {
    seq(|ds|, k requires 0 <= k < |ds| => 48 + ds[k])
  }

  lemma {:induction false} DecimalsAreNumber(ds: seq<nat>)
    requires forall k :: 0 <= k < |ds| ==> ds[k] < 10
    ensures Number(DigitCodes(ds)) == Decimals(ds)
  {
    if ds != [] {
      var front := ds[..|ds| - 1];
      DecimalsAreNumber(front);
      assert DigitCodes(ds)[..|ds| - 1] == DigitCodes(front);
    }
  }

  /** Behind a length and a colon stand as many bytes as it says; fewer are refused at the colon. In front
      of a string the length is read and ignored; nothing else may follow it. */
  lemma LengthMeans(b64: Decoder, ds: seq<nat>, rest: seq<byte>, off: nat, level: nat, dh: bool)
    requires ds != [] && ds[0] != 0 && forall k :: 0 <= k < |ds| ==> ds[k] < 10
    requires rest != [] && !(48 <= rest[0] <= 57)
    ensures var n := Decimals(ds); var at := off + |ds|; var r := Scan(b64, DigitCodes(ds) + rest, off, level, dh);
            if rest[0] == 58 then
              if |rest| - 1 < n then r == Failed(StringTooLong, Some(at))
              else r == Prepend([Data(rest[1..n + 1])], Scan(b64, rest[n + 1..], at + n + 1, level, dh))
            else if rest[0] in {34, 35, 124} then r == Scan(b64, rest, at, level, dh)
            else r == Failed(InvalidLength, Some(at))
  {
    hide Number, DigitRun, Scan, QuoteLex, HexLex, Base64Lex;
    var d := DigitCodes(ds);
    var t, n := d + rest, Decimals(ds);
    DecimalsAreNumber(ds);
    DigitRunIs(d, rest);
    assert t[..|d|] == d && t[|d|..] == rest && t[|d|] == rest[0] && t[|d| + 1..] == rest[1..];
    DigitsInFront(b64, t, off, level, dh);
    if rest[0] == 58 {
      if |rest| - 1 >= n {
        assert t[|d| + 1..|d| + 1 + n] == rest[1..n + 1] && t[|d| + 1 + n..] == rest[n + 1..];
      }
    } else if rest[0] in {34, 35, 124} {
      StringInFront(b64, rest, off + |d|, level, dh);
    }
  }

  lemma DigitsInFront(b64: Decoder, t: seq<byte>, off: nat, level: nat, dh: bool)
    requires t != [] && 49 <= t[0] <= 57
    ensures DigitRun(t) > 0 && Scan(b64, t, off, level, dh) == AfterDigits(b64, t, DigitRun(t), off, level, dh)
  {
    hide AfterDigits;
  }

  lemma StringInFront(b64: Decoder, t: seq<byte>, off: nat, level: nat, dh: bool)
    requires t != []
    ensures t[0] == 34 ==> Scan(b64, t, off, level, dh) == AfterQuote(b64, t[1..], off + 1, level, dh)
    ensures t[0] == 35 ==> Scan(b64, t, off, level, dh) == AfterHash(b64, t[1..], off + 1, level, dh)
    ensures t[0] == 124 ==> Scan(b64, t, off, level, dh) == AfterBar(b64, t[1..], off + 1, level, dh)
  {
    hide AfterQuote, AfterHash, AfterBar;
  }

  // ---- whole texts ----

  /** At the end every list must be closed. */
  lemma EndOfText(b64: Decoder, off: nat, level: nat, dh: bool)
    ensures Scan(b64, [], off, level, dh) == if level > 0 then Failed(UnmatchedParen, None) else Tokens([])
  {}

  /** What begins with an empty list is no expression, whatever follows. */
  lemma EmptyListIsNothing(b64: Decoder, rest: seq<byte>)
    ensures Read(b64, [40, 41] + rest) == match Scan(b64, rest, 2, 0, false)
                                          case Failed(e, at) => Refused(e, at)
                                          case Tokens(_) => NoExpression
  {
    hide Scan;
    assert [40, 41] + rest == [40] + ([41] + rest);
    Punctuation(b64, [41] + rest, 0, 0);
    Punctuation(b64, rest, 1, 1);
    var r := Scan(b64, rest, 2, 0, false);
    if r.Tokens? {
      assert [Open] + ([Close] + r.ts) == [Open, Close] + r.ts;
    }
  }
}
