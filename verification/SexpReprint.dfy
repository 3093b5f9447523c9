/** Scanning a canonical text and printing it again. */
module SexpReprint {
  import opened Bytes
  import opened SexpTokens
  import opened SexpChars
  import opened SexpScan
  import opened SexpPrint
  import opened SexpRoundTrip
  import opened SexpCanon

  // ---- lengths have one spelling ----

  /** Digits without a leading zero are the decimal text of the number they denote. */
  lemma {:induction false} DecimalOfNumber(d: seq<byte>)
    requires d != [] && d[0] != ZERO && forall k :: 0 <= k < |d| ==> IsDigit(d[k])
    ensures Decimal(Number(d)) == d
  {
    var front, last := d[..|d| - 1], d[|d| - 1];
    assert d == front + [last];
    if front == [] {
      assert Number(front) == 0;
      LastDigit(0, last);
    } else {
      DecimalOfNumber(front);
      NumberPositive(front);
      LastDigit(Number(front), last);
    }
  }

  lemma LastDigit(n: nat, c: byte)
    requires IsDigit(c)
    ensures n > 0 ==> Decimal(10 * n + HexValue(c)) == Decimal(n) + [c]
    ensures n == 0 ==> Decimal(HexValue(c)) == [c]
  {
    assert (10 * n + HexValue(c)) / 10 == n && (10 * n + HexValue(c)) % 10 == HexValue(c);
  }

  // ---- display hints ----

  /** No bracket stands outside a data item. */
  predicate HintFree(t: seq<byte>)
    decreases |t|
  {
    if t == [] then true
    else if IsDigit(t[0]) then
      var skip := DigitRun(t) + 1 + Number(t[..DigitRun(t)]);
      skip <= |t| && HintFree(t[skip..])
    else t[0] != LBRACKET && t[0] != RBRACKET && HintFree(t[1..])
  }

  /** The text is printed back, or it has hints and the print is shorter. */
  ghost predicate Reprinted(t: seq<byte>, r: ScanResult) {
    && r.Tokens? && |CanonText(r.ts)| <= |t|
    && (if HintFree(t) then CanonText(r.ts) == t else |CanonText(r.ts)| < |t|)
  }

  lemma ReprintedBehind(token: Token, front: seq<byte>, t: seq<byte>, r: ScanResult)
    requires Reprinted(t, r) && front == TokenText(token, None, Canonical, 0)
    requires HintFree(front + t) <==> HintFree(t)
    ensures Reprinted(front + t, Prepend([token], r))
  {
    hide CanonText, TokenText, HintFree;
    CanonTextStep(token, r.ts);
  }

  /** From every state: what the canonical parser accepts to its end the scanner reads, and the tokens
      print as the text itself, exactly when it has no hints. */
  lemma {:induction false} AcceptedIsReprinted(b64: Decoder, t: seq<byte>, at: nat, off: nat, level: nat, dh: bool,
                                               bounded: bool)
    requires CanonFrom(t, at, 0, level, dh, bounded) == Length(at + |t|) && LengthsBelow(t, 0, TWO_32)
    ensures Reprinted(t, Scan(b64, t, off, level, dh))
    decreases |t|
  {
    hide CanonFrom, Scan, LengthsBelow, Number, Reprinted, HintFree, CanonText;
    CanonCases(t, at, 0, level, dh, bounded);
    if IsDigit(t[0]) {
      ItemReprinted(b64, t, at, off, level, dh, bounded);
    } else if IsMark(t[0], level, dh) {
      CanonMarkForward(t, at, level, dh, bounded);
      LengthsBelowMark(t, TWO_32);
      AcceptedIsReprinted(b64, t[1..], at + 1, off + 1, NextLevel(t[0], level), NextHint(t[0], dh), bounded);
      MarkReprinted(b64, t, off, level, dh);
    } else {
      LastCloseReprinted(b64, t, off);
    }
  }

  lemma ItemReprinted(b64: Decoder, t: seq<byte>, at: nat, off: nat, level: nat, dh: bool, bounded: bool)
    requires t != [] && IsDigit(t[0]) && t[0] != ZERO && LengthsBelow(t, 0, TWO_32)
    requires CanonFrom(t, at, 0, level, dh, bounded) == Length(at + |t|)
    ensures Reprinted(t, Scan(b64, t, off, level, dh))
    decreases |t|, 0
  {
    hide CanonFrom, Scan, LengthsBelow, Number, Reprinted, HintFree, CanonText, DigitRun;
    var k := DigitRun(t);
    LengthsBelowItem(t, TWO_32);
    CanonReadsItem(t, at, level, dh, bounded);
    var size := Number(t[..k]);
    var skip := k + 1 + size;
    var rest := t[skip..];
    AcceptedIsReprinted(b64, rest, at + skip, off + skip, level, dh, bounded);
    DecimalOfNumber(t[..k]);
    ScanDigits(b64, t, k, off, level, dh);
    var d := t[k + 1..skip];
    assert t[..skip] == t[..k] + [COLON] + d;
    assert t == t[..skip] + rest;
    HintFreeItem(t);
    ReprintedBehind(Data(d), t[..skip], rest, Scan(b64, rest, off + skip, level, dh));
  }

  lemma HintFreeItem(t: seq<byte>)
    requires t != [] && IsDigit(t[0]) && DigitRun(t) + 1 + Number(t[..DigitRun(t)]) <= |t|
    ensures HintFree(t) <==> HintFree(t[DigitRun(t) + 1 + Number(t[..DigitRun(t)])..])
  {
    hide Number, DigitRun;
  }

  lemma MarkReprinted(b64: Decoder, t: seq<byte>, off: nat, level: nat, dh: bool)
    requires t != [] && IsMark(t[0], level, dh)
    requires Reprinted(t[1..], Scan(b64, t[1..], off + 1, NextLevel(t[0], level), NextHint(t[0], dh)))
    ensures Reprinted(t, Scan(b64, t, off, level, dh))
  {
    hide Scan, CanonText;
    var r := Scan(b64, t[1..], off + 1, NextLevel(t[0], level), NextHint(t[0], dh));
    assert t == [t[0]] + t[1..];
    ScanOfMark(b64, t, off, level, dh);
    if t[0] == LPAREN {
      ReprintedBehind(Open, [LPAREN], t[1..], r);
    } else if t[0] == RPAREN {
      ReprintedBehind(Close, [RPAREN], t[1..], r);
    }
  }

  lemma ScanOfMark(b64: Decoder, t: seq<byte>, off: nat, level: nat, dh: bool)
    requires t != [] && IsMark(t[0], level, dh)
    ensures var r := Scan(b64, t[1..], off + 1, NextLevel(t[0], level), NextHint(t[0], dh));
            Scan(b64, t, off, level, dh)
              == if t[0] == LPAREN then Prepend([Open], r) else if t[0] == RPAREN then Prepend([Close], r) else r
  {}

  lemma LastCloseReprinted(b64: Decoder, t: seq<byte>, off: nat)
    requires t == [RPAREN]
    ensures Reprinted(t, Scan(b64, t, off, 1, false))
  {
    assert t[1..] == [];
    assert Scan(b64, [], off + 1, 0, false) == Tokens([]);
    assert CanonText([]) == [];
    ReprintedBehind(Close, [RPAREN], [], Tokens([]));
    assert [RPAREN] + [] == t;
  }

  /** Scan then print is the identity on canonical texts: of the bytes the canonical parser accepts, with
      lengths of 32 bits, the scanner makes tokens that print in canonical mode as those bytes, exactly
      when there is no display hint among them. */
  lemma CanonicalTextReprints(b64: Decoder, memory: seq<byte>, length: nat)
    requires 0 < |memory| && length <= |memory| && Canon(memory, length).Length?
    ensures var n := Canon(memory, length).n;
            && n <= |memory|
            && (LengthsBelow(memory[..n], 0, TWO_32) ==>
                  var r := Scan(b64, memory[..n], 0, 0, false);
                  r.Tokens? && (Print(r.ts, Canonical) == memory[..n] <==> HintFree(memory[..n])))
  {
    hide CanonFrom, LengthsBelow, Scan, HintFree;
    var whole := if length == 0 then memory else memory[..length];
    CanonWithin(whole, 0, 0, 0, false, length != 0);
    CanonNeedsNoMore(whole, 0, 0, 0, false, length != 0);
    var n := Canon(memory, length).n;
    assert whole[..n] == memory[..n];
    if LengthsBelow(memory[..n], 0, TWO_32) {
      AcceptedIsReprinted(b64, memory[..n], 0, 0, 0, false, length != 0);
    }
  }
}
