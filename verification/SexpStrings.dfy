/** What the quoted strings, hex strings and lengths of a text denote, in plain character codes. */
module SexpStrings {
  import opened Bytes
  import opened SexpTokens
  import opened SexpChars
  import opened SexpScan
  import opened SexpRoundTrip

  // ---- quoted strings ----

  /** What a quoted string is made of: a character that stands for itself; a backslash and a letter;
      three octal digits; two hex digits in either case; a line end that is left out. */
  datatype Piece =
    | Plain(c: byte)
    | Letter(c: byte)
    | Octal(d2: nat, d1: nat, d0: nat)
    | Hex(high: nat, low: nat, highUpper: bool, lowUpper: bool)
    | LineEnd(first: byte, both: bool)

  predicate Legal(p: Piece) {
    match p
    case Plain(c) => c != 34 && c != 92
    case Letter(c) => c in {98, 116, 118, 110, 102, 114, 34, 39, 92}
    case Octal(d2, d1, d0) => d2 < 8 && d1 < 8 && d0 < 8
    case Hex(high, low, _, _) => high < 16 && low < 16
    case LineEnd(first, _) => first == 10 || first == 13
  }

  /** The character of a hex digit: 0 to 9, A to F or a to f. */
  function HexChar(v: nat, upper: bool): byte
    requires v < 16
  {
    if v < 10 then 48 + v else if upper then 65 + (v - 10) else 97 + (v - 10)
  }

  function PieceText(p: Piece): (t: seq<byte>)
    requires Legal(p)
    ensures t != []
  {
    match p
    case Plain(c) => [c]
    case Letter(c) => [92, c]
    case Octal(d2, d1, d0) => [92, 48 + d2, 48 + d1, 48 + d0]
    case Hex(high, low, highUpper, lowUpper) => [92, 120, HexChar(high, highUpper), HexChar(low, lowUpper)]
    case LineEnd(first, both) => if both then [92, first, 23 - first] else [92, first]
  }

  function PieceBytes(p: Piece): seq<byte>
    requires Legal(p)
  {
    match p
    case Plain(c) => [c]
    case Letter(c) =>
      [if c == 98 then 8 else if c == 116 then 9 else if c == 118 then 11 else if c == 110 then 10
       else if c == 102 then 12 else if c == 114 then 13 else c]
    case Octal(d2, d1, d0) => [(64 * d2 + 8 * d1 + d0) % 256]
    case Hex(high, low, _, _) => [16 * high + low]
    case LineEnd(_, _) => []
  }

  /** A line end of one character is not followed by the other one. */
  predicate Clear(p: Piece, t: seq<byte>) {
    p.LineEnd? && !p.both && t != [] ==> p.first + t[0] != 23
  }

  predicate AllLegal(ps: seq<Piece>) {
    forall i :: 0 <= i < |ps| ==> Legal(ps[i])
  }

  function Text(ps: seq<Piece>): seq<byte>
    requires AllLegal(ps)
  {
    if ps == [] then [] else PieceText(ps[0]) + Text(ps[1..])
  }

  function Denoted(ps: seq<Piece>): seq<byte>
    requires AllLegal(ps)
  {
    if ps == [] then [] else PieceBytes(ps[0]) + Denoted(ps[1..])
  }

  predicate AllClear(ps: seq<Piece>)
    requires AllLegal(ps)
  {
    ps == [] || (Clear(ps[0], Text(ps[1..])) && AllClear(ps[1..]))
  }

  lemma PieceReads(p: Piece, rest: seq<byte>)
    requires Legal(p) && Clear(p, rest)
    ensures QuoteLex(PieceText(p) + rest, false) == Shift(|PieceText(p)|, QuoteLex(rest, false))
    ensures Unquote(PieceText(p) + rest) == PieceBytes(p) + Unquote(rest)
  {
    hide QuoteLex, Unquote, EscapeLen, Unescape, UnescapeLen, HexChar;
    var t := PieceText(p) + rest;
    assert t[|PieceText(p)|..] == rest;
    if p.Plain? {
      PlainReads(t);
    } else {
      assert t[1..] == PieceText(p)[1..] + rest;
      EscapeDenotes(p, rest);
      EscapeReads(t, |PieceText(p)| - 1);
    }
  }

  lemma EscapeDenotes(p: Piece, rest: seq<byte>)
    requires Legal(p) && Clear(p, rest) && !p.Plain?
    ensures var s := PieceText(p)[1..] + rest;
            EscapeLen(s) == |PieceText(p)| - 1 == UnescapeLen(s) && Unescape(s) == PieceBytes(p)
  {
    hide HexChar;
    var s := PieceText(p)[1..] + rest;
    match p {
      case Letter(c) => assert s[0] == c;
      case Octal(d2, d1, d0) => assert s[0] == 48 + d2 && s[1] == 48 + d1 && s[2] == 48 + d0;
      case Hex(high, low, highUpper, lowUpper) =>
        HexCharReads(high, highUpper);
        HexCharReads(low, lowUpper);
        assert s[0] == 120 && s[1] == HexChar(high, highUpper) && s[2] == HexChar(low, lowUpper);
      case LineEnd(first, both) =>
        assert s[0] == first && (both ==> s[1] == 23 - first);
        assert !both && rest != [] ==> s[1] == rest[0];
    }
  }

  lemma HexCharReads(v: nat, upper: bool)
    requires v < 16
    ensures IsHex(HexChar(v, upper)) && HexValue(HexChar(v, upper)) == v
    ensures !IsWhite(HexChar(v, upper)) && HexChar(v, upper) != HASH
  {}

  lemma {:induction false} PiecesRead(ps: seq<Piece>, rest: seq<byte>)
    requires AllLegal(ps) && AllClear(ps)
    ensures QuoteLex(Text(ps) + [34] + rest, false) == Ends(|Text(ps)|)
    ensures Unquote(Text(ps)) == Denoted(ps)
  {
    hide QuoteLex, Unquote, PieceText, PieceBytes;
    if ps == [] {
      assert Text(ps) + [34] + rest == [34] + rest;
      NoPieces(rest);
    } else {
      var t := Text(ps[1..]);
      PiecesRead(ps[1..], rest);
      assert Text(ps) + [34] + rest == PieceText(ps[0]) + (t + [34] + rest);
      assert t != [] ==> (t + [34] + rest)[0] == t[0];
      PieceReads(ps[0], t + [34] + rest);
      PieceReads(ps[0], t);
    }
  }

  lemma NoPieces(rest: seq<byte>)
    ensures QuoteLex([34] + rest, false) == Ends(0) && Unquote([]) == []
  {}

  /** A quoted string is stored as the bytes that its pieces denote, one behind the other. */
  lemma StringMeans(b64: Decoder, ps: seq<Piece>, rest: seq<byte>, off: nat, level: nat, dh: bool)
    requires AllLegal(ps) && AllClear(ps)
    ensures var d := [34] + Text(ps) + [34];
            Scan(b64, d + rest, off, level, dh) == Prepend([Data(Denoted(ps))], Scan(b64, rest, off + |d|, level, dh))
  {
    hide Text, Denoted, AllClear, Unquote, QuoteLex, Scan;
    var e := Text(ps);
    var t := [34] + e + [34] + rest;
    var t' := e + [34] + rest;
    assert t == [34] + t' && t[1..] == t';
    PiecesRead(ps, rest);
    assert t'[..|e|] == e && t'[|e| + 1..] == rest;
    ScanOpening(b64, t, off, level, dh);
  }

  /** Every byte can be written with three octal digits. */
  lemma OctalByte(b64: Decoder, c: byte, rest: seq<byte>, off: nat, level: nat, dh: bool)
    ensures Scan(b64, [34, 92, 48 + c / 64, 48 + c / 8 % 8, 48 + c % 8, 34] + rest, off, level, dh)
         == Prepend([Data([c])], Scan(b64, rest, off + 6, level, dh))
  {
    hide Scan;
    var p := Octal(c / 64, c / 8 % 8, c % 8);
    OnePiece(p);
    StringMeans(b64, [p], rest, off, level, dh);
    assert [34] + Text([p]) + [34] == [34, 92, 48 + c / 64, 48 + c / 8 % 8, 48 + c % 8, 34];
  }

  lemma OnePiece(p: Piece)
    requires Legal(p)
    ensures AllLegal([p]) && AllClear([p]) && Text([p]) == PieceText(p) && Denoted([p]) == PieceBytes(p)
  {
    assert [p][1..] == [];
    assert Text([p][1..]) == [] && Denoted([p][1..]) == [];
    assert PieceText(p) + [] == PieceText(p) && PieceBytes(p) + [] == PieceBytes(p);
  }

  /** What may not stand behind a backslash: the end aside, anything but the letters, three octal digits,
      an x with two hex digits, and a line end. */
  predicate NoEscape(u: seq<byte>) {
    && u != []
    && u[0] !in {98, 116, 118, 110, 102, 114, 34, 39, 92, 10, 13}
    && (48 <= u[0] <= 55 ==> |u| < 3 || !(48 <= u[1] <= 55 && 48 <= u[2] <= 55))
    && (u[0] == 120 ==> |u| < 3 || !(HexCode(u[1]) && HexCode(u[2])))
  }

  predicate HexCode(c: byte) { 48 <= c <= 57 || 65 <= c <= 70 || 97 <= c <= 102 }

  /** Such a string is refused at the character behind the backslash. */
  lemma BadEscapeRefused(b64: Decoder, ps: seq<Piece>, u: seq<byte>, off: nat, level: nat, dh: bool)
    requires AllLegal(ps) && AllClear(ps) && NoEscape(u)
    ensures Scan(b64, [34] + Text(ps) + [92] + u, off, level, dh)
         == Failed(BadQuotation, Some(off + 2 + |Text(ps)|))
  {
    hide Text, AllClear, QuoteLex, Scan;
    var t := [34] + Text(ps) + [92] + u;
    assert t[1..] == Text(ps) + ([92] + u);
    PiecesGoOn(ps, [92] + u);
    BadEscape(u);
    ScanOpening(b64, t, off, level, dh);
  }

  lemma BadEscape(u: seq<byte>)
    requires NoEscape(u)
    ensures QuoteLex([92] + u, false) == Wrong(BadQuotation, 1)
  {
    assert ([92] + u)[1..] == u;
    assert QuoteLex(u, true) == Wrong(BadQuotation, 0);
  }

  /** Legal pieces are passed over, whatever is behind them. */
  lemma {:induction false} PiecesGoOn(ps: seq<Piece>, rest: seq<byte>)
    requires AllLegal(ps) && AllClear(ps) && rest != [] && rest[0] != 10 && rest[0] != 13
    ensures QuoteLex(Text(ps) + rest, false) == Shift(|Text(ps)|, QuoteLex(rest, false))
  {
    hide QuoteLex, PieceText, PieceBytes;
    if ps == [] {
      assert Text(ps) + rest == rest;
      SexpScanSteps.ShiftNothing(QuoteLex(rest, false));
    } else {
      var t := Text(ps[1..]);
      PiecesGoOn(ps[1..], rest);
      assert Text(ps) + rest == PieceText(ps[0]) + (t + rest);
      assert (t + rest)[0] == if t != [] then t[0] else rest[0];
      PieceReads(ps[0], t + rest);
      SexpScanSteps.ShiftTwice(|PieceText(ps[0])|, |t|, QuoteLex(rest, false));
    }
  }

  // ---- hex strings ----

  /** A hex string is made of digits in either case and of white space. */
  datatype HexPiece = Space(c: byte) | Nibble(v: nat, upper: bool)

  predicate LegalHex(p: HexPiece) {
    match p
    case Space(c) => c in {9, 10, 11, 12, 13, 32}
    case Nibble(v, _) => v < 16
  }

  predicate AllLegalHex(ps: seq<HexPiece>) {
    forall i :: 0 <= i < |ps| ==> LegalHex(ps[i])
  }

  function HexPieceText(p: HexPiece): byte
    requires LegalHex(p)
  {
    match p
    case Space(c) => c
    case Nibble(v, upper) => HexChar(v, upper)
  }

  function HexText(ps: seq<HexPiece>): (t: seq<byte>)
    requires AllLegalHex(ps)
    ensures |t| == |ps|
  {
    if ps == [] then [] else [HexPieceText(ps[0])] + HexText(ps[1..])
  }

  /** The digits alone. */
  function Digits(ps: seq<HexPiece>): (d: seq<byte>)
    requires AllLegalHex(ps)
    ensures forall i :: 0 <= i < |d| ==> d[i] < 16
  {
    if ps == [] then []
    else (if ps[0].Space? then [] else [ps[0].v]) + Digits(ps[1..])
  }

  /** Two digits make a byte, the first one the high half. */
  function Joined(d: seq<byte>): seq<byte>
    requires forall i :: 0 <= i < |d| ==> d[i] < 16
  {
    seq(|d| / 2, i requires 0 <= i < |d| / 2 => 16 * d[2 * i] + d[2 * i + 1])
  }

  lemma HexPieceReads(p: HexPiece, t: seq<byte>, count: nat)
    requires LegalHex(p)
    ensures HexLex([HexPieceText(p)] + t, count) == Shift(1, HexLex(t, if p.Space? then count else count + 1))
    ensures Nibbles([HexPieceText(p)] + t) == (if p.Space? then [] else [p.v]) + Nibbles(t)
  {
    hide HexChar;
    if p.Nibble? {
      HexCharReads(p.v, p.upper);
    }
    assert ([HexPieceText(p)] + t)[1..] == t;
  }

  lemma {:induction false} HexPiecesRead(ps: seq<HexPiece>, rest: seq<byte>, count: nat)
    requires AllLegalHex(ps)
    ensures HexLex(HexText(ps) + rest, count) == Shift(|ps|, HexLex(rest, count + |Digits(ps)|))
    ensures Nibbles(HexText(ps)) == Digits(ps)
    decreases |ps|
  {
    hide HexLex, Nibbles, HexPieceText;
    if ps == [] {
      assert HexText(ps) + rest == rest;
      SexpScanSteps.ShiftNothing(HexLex(rest, count));
      NoNibbles();
    } else {
      var t, n := HexText(ps[1..]), if ps[0].Space? then count else count + 1;
      assert HexText(ps) + rest == [HexPieceText(ps[0])] + (t + rest);
      HexPieceReads(ps[0], t + rest, count);
      HexPieceReads(ps[0], t, count);
      HexPiecesRead(ps[1..], rest, n);
      SexpScanSteps.ShiftTwice(1, |ps| - 1, HexLex(rest, n + |Digits(ps[1..])|));
    }
  }

  lemma NoNibbles()
    ensures Nibbles([]) == []
  {}

  lemma {:induction false} PairsAreJoined(d: seq<byte>)
    requires forall i :: 0 <= i < |d| ==> d[i] < 16
    ensures Pairs(d) == Joined(d)
  {
    hide Joined;
    if |d| >= 2 {
      PairsAreJoined(d[2..]);
      JoinedStep(d);
    } else {
      NothingJoined(d);
    }
  }

  lemma NothingJoined(d: seq<byte>)
    requires |d| < 2 && forall i :: 0 <= i < |d| ==> d[i] < 16
    ensures Joined(d) == []
  {}

  lemma JoinedStep(d: seq<byte>)
    requires |d| >= 2 && forall i :: 0 <= i < |d| ==> d[i] < 16
    ensures forall i :: 0 <= i < |d[2..]| ==> d[2..][i] < 16
    ensures Joined(d) == [16 * d[0] + d[1]] + Joined(d[2..])
  {
    var r := [16 * d[0] + d[1]] + Joined(d[2..]);
    assert |d| / 2 == 1 + |d[2..]| / 2;
    forall k | 0 <= k < |d| / 2 ensures Joined(d)[k] == r[k] {
      if k > 0 {
        assert d[2..][2 * (k - 1)] == d[2 * k] && d[2..][2 * (k - 1) + 1] == d[2 * k + 1];
      }
    }
  }

  /** A hex string is stored as its digits two by two, the white space left out; an odd number of digits
      is refused at the closing character, and anything else where it stands. */
  lemma HexMeans(b64: Decoder, ps: seq<HexPiece>, rest: seq<byte>, off: nat, level: nat, dh: bool)
    requires AllLegalHex(ps) && rest != []
    ensures var d := Digits(ps); var r := Scan(b64, [35] + HexText(ps) + rest, off, level, dh);
            && (rest[0] == 35 && |d| % 2 == 0 ==>
                  r == Prepend([Data(Joined(d))], Scan(b64, rest[1..], off + |ps| + 2, level, dh)))
            && (rest[0] == 35 && |d| % 2 == 1 ==> r == Failed(OddHexNumbers, Some(off + |ps| + 1)))
            && (rest[0] != 35 && !HexCode(rest[0]) && rest[0] !in {9, 10, 11, 12, 13, 32} ==>
                  r == Failed(BadHexChar, Some(off + |ps| + 1)))
  {
    hide HexText, Digits, Joined, Pairs, Nibbles, Scan;
    var e := HexText(ps);
    var t := [35] + e + rest;
    assert t[1..] == e + rest;
    HexPiecesRead(ps, rest, 0);
    PairsAreJoined(Digits(ps));
    assert (e + rest)[..|ps|] == e && (e + rest)[|ps| + 1..] == rest[1..];
    ScanOpening(b64, t, off, level, dh);
  }

  // ---- base64 strings ----

  /** The characters between the bars go to the decoder as they are; it may refuse them. */
  lemma Base64Means(b64: Decoder, e: seq<byte>, rest: seq<byte>, off: nat, level: nat, dh: bool)
    requires forall k :: 0 <= k < |e| ==> Base64Code(e[k])
    requires rest != [] && !Base64Code(rest[0])
    ensures var r := Scan(b64, [124] + e + rest, off, level, dh);
            if rest[0] != 124 then r == Failed(BadCharacter, Some(off + |e| + 1))
            else if b64(e).None? then r == Failed(BadBase64, None)
            else r == Prepend([Data(b64(e).value)], Scan(b64, rest[1..], off + |e| + 2, level, dh))
  {
    hide Scan;
    var t := [124] + e + rest;
    assert t[1..] == e + rest;
    Base64Reads(e, rest);
    assert (e + rest)[..|e|] == e && (e + rest)[|e| + 1..] == rest[1..];
    ScanBar(b64, t, off, level, dh);
  }

  predicate Base64Code(c: byte) {
    48 <= c <= 57 || 65 <= c <= 90 || 97 <= c <= 122 || c == 43 || c == 47 || c == 61
  }

  lemma {:induction false} Base64Reads(e: seq<byte>, rest: seq<byte>)
    requires forall k :: 0 <= k < |e| ==> Base64Code(e[k])
    requires rest != [] && !Base64Code(rest[0])
    ensures Base64Lex(e + rest) == if rest[0] == 124 then Ends(|e|) else Wrong(BadCharacter, |e|)
  {
    if e == [] {
      assert e + rest == rest;
    } else {
      assert (e + rest)[1..] == e[1..] + rest;
      Base64Reads(e[1..], rest);
    }
  }

  lemma ScanBar(b64: Decoder, t: seq<byte>, off: nat, level: nat, dh: bool)
    requires t != [] && t[0] == 124
    ensures Scan(b64, t, off, level, dh) == AfterBar(b64, t[1..], off + 1, level, dh)
  {
    hide AfterBar;
  }
}
