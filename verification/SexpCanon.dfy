/** The second parser: the length of a canonical expression at the front of a buffer. */
module SexpCanon {
  import opened Bytes
  import opened SexpTokens
  import opened SexpChars
  import opened SexpScan
  import opened SexpPrint
  import opened SexpRoundTrip

  /** `Overrun`: without a length limit the parser would read past the end of the memory. */
  datatype CanonResult =
    | Length(n: nat)
    | NotCanonical
    | Faulty(err: ScanError, at: nat)
    | Overrun

  function OutOfText(bounded: bool, at: nat): CanonResult {
    if bounded then Faulty(StringTooLong, at) else Overrun
  }

  /** Read `t`, `at` bytes into the buffer, with the length read so far (0: none), kept in 32 bits. */
  function CanonFrom(t: seq<byte>, at: nat, datalen: nat, level: nat, dh: bool, bounded: bool): CanonResult
    decreases |t|
  {
    if t == [] then OutOfText(bounded, at)
    else
      var c, tail := t[0], t[1..];
      if datalen > 0 then
        if c == COLON then
          if datalen >= |t| then OutOfText(bounded, at)
          else CanonFrom(t[datalen + 1..], at + datalen + 1, 0, level, dh, bounded)
        else if IsDigit(c) then
          CanonFrom(tail, at + 1, (datalen * 10 + HexValue(c)) % TWO_32, level, dh, bounded)
        else Faulty(InvalidLength, at)
      else if c == LPAREN then
        if dh then Faulty(UnmatchedHint, at) else CanonFrom(tail, at + 1, 0, level + 1, dh, bounded)
      else if c == RPAREN then
        if level == 0 then Faulty(UnmatchedParen, at)
        else if dh then Faulty(UnmatchedHint, at)
        else if level == 1 then Length(at + 1)
        else CanonFrom(tail, at + 1, 0, level - 1, dh, bounded)
      else if c == LBRACKET then
        if dh then Faulty(NestedHint, at) else CanonFrom(tail, at + 1, 0, level, true, bounded)
      else if c == RBRACKET then
        if !dh then Faulty(UnmatchedHint, at) else CanonFrom(tail, at + 1, 0, level, false, bounded)
      else if IsDigit(c) then
        if c == ZERO then Faulty(ZeroPrefix, at)
        else CanonFrom(tail, at + 1, HexValue(c), level, dh, bounded)
      else if c == AMPERSAND || c == BACKSLASH then Faulty(UnexpectedPunctuation, at)
      else Faulty(BadCharacter, at)
  }

  /** `memory` is the buffer as far as it goes; a `length` of 0 sets no limit. */
  function Canon(memory: seq<byte>, length: nat): CanonResult
    requires 0 < |memory| && length <= |memory|
  {
    if memory[0] != LPAREN then NotCanonical
    else CanonFrom(if length == 0 then memory else memory[..length], 0, 0, 0, false, length != 0)
  }

  /** The parser as the loop it is. Callers that set no limit promise that the expression ends. */
  method CanonLen(memory: seq<byte>, length: nat) returns (r: CanonResult)
    requires 0 < |memory| && length <= |memory|
    requires length == 0 ==> Canon(memory, length) != Overrun
    ensures r == Canon(memory, length)
  {
    if memory[0] != LPAREN {
      return NotCanonical;
    }
    hide CanonFrom, HexValue;
    ghost var text := if length == 0 then memory else memory[..length];
    var datalen, count, level, disphint := 0, 0, 0, false;
    while true
      invariant count <= |text| && datalen >= 0 && level >= 0
      invariant Canon(memory, length) == CanonFrom(text[count..], count, datalen, level, disphint, length != 0)
      decreases |text| - count
    {
      CanonUnfolds(text[count..], count, datalen, level, disphint, length != 0);
      if length != 0 && count >= length {
        return Faulty(StringTooLong, count);
      }
      var c := memory[count];
      assert text[count..][1..] == text[count + 1..];
      if datalen > 0 {
        if c == COLON {
          if length != 0 && count + datalen >= length {
            return Faulty(StringTooLong, count);
          }
          assert text[count..][datalen + 1..] == text[count + datalen + 1..];
          count := count + datalen;
          datalen := 0;
        } else if IsDigit(c) {
          datalen := (datalen * 10 + HexValue(c)) % TWO_32;
        } else {
          return Faulty(InvalidLength, count);
        }
      } else if c == LPAREN {
        if disphint {
          return Faulty(UnmatchedHint, count);
        }
        level := level + 1;
      } else if c == RPAREN {
        if level == 0 {
          return Faulty(UnmatchedParen, count);
        }
        if disphint {
          return Faulty(UnmatchedHint, count);
        }
        level := level - 1;
        if level == 0 {
          return Length(count + 1);
        }
      } else if c == LBRACKET {
        if disphint {
          return Faulty(NestedHint, count);
        }
        disphint := true;
      } else if c == RBRACKET {
        if !disphint {
          return Faulty(UnmatchedHint, count);
        }
        disphint := false;
      } else if IsDigit(c) {
        if c == ZERO {
          return Faulty(ZeroPrefix, count);
        }
        datalen := HexValue(c);
      } else if c == AMPERSAND || c == BACKSLASH {
        return Faulty(UnexpectedPunctuation, count);
      } else {
        return Faulty(BadCharacter, count);
      }
      count := count + 1;
    }
  }

  /** What one byte does, for proofs that need no more of the reading. */
  lemma CanonUnfolds(t: seq<byte>, at: nat, datalen: nat, level: nat, dh: bool, bounded: bool)
    ensures CanonFrom(t, at, datalen, level, dh, bounded)
         == if t == [] then OutOfText(bounded, at)
            else if datalen > 0 then
              if t[0] == COLON then
                if datalen >= |t| then OutOfText(bounded, at)
                else CanonFrom(t[datalen + 1..], at + datalen + 1, 0, level, dh, bounded)
              else if IsDigit(t[0]) then
                CanonFrom(t[1..], at + 1, (datalen * 10 + HexValue(t[0])) % TWO_32, level, dh, bounded)
              else Faulty(InvalidLength, at)
            else if IsDigit(t[0]) && t[0] != ZERO then CanonFrom(t[1..], at + 1, HexValue(t[0]), level, dh, bounded)
            else if IsMark(t[0], level, dh) then
              CanonFrom(t[1..], at + 1, 0, NextLevel(t[0], level), NextHint(t[0], dh), bounded)
            else if t[0] == RPAREN && level == 1 && !dh then Length(at + 1)
            else Faulty(MarkError(t[0], level, dh), at)
  {}

  function MarkError(c: byte, level: nat, dh: bool): ScanError {
    if c == LPAREN then UnmatchedHint
    else if c == RPAREN then (if level == 0 then UnmatchedParen else UnmatchedHint)
    else if c == LBRACKET then NestedHint
    else if c == RBRACKET then UnmatchedHint
    else if c == ZERO then ZeroPrefix
    else if c == AMPERSAND || c == BACKSLASH then UnexpectedPunctuation
    else BadCharacter
  }

  // ---- the two parsers agree ----

  /** Every length written in `t` is below `limit`, as far as the canonical reading gets. */
  predicate LengthsBelow(t: seq<byte>, datalen: nat, limit: nat)
    decreases |t|
  {
    if t == [] then true
    else if datalen > 0 then
      if t[0] == COLON then datalen >= |t| || LengthsBelow(t[datalen + 1..], 0, limit)
      else if IsDigit(t[0]) then
        datalen * 10 + HexValue(t[0]) < limit && LengthsBelow(t[1..], datalen * 10 + HexValue(t[0]), limit)
      else true
    else LengthsBelow(t[1..], if IsDigit(t[0]) then HexValue(t[0]) else 0, limit)
  }

  lemma {:induction false} NumberPositive(d: seq<byte>)
    requires d != [] && d[0] != ZERO && forall k :: 0 <= k < |d| ==> IsDigit(d[k])
    ensures Number(d) > 0
  {
    if |d| > 1 {
      NumberPositive(d[..|d| - 1]);
    } else {
      assert d[..0] == [];
    }
  }

  lemma NumberStep(t: seq<byte>, k: nat)
    requires k < |t|
    ensures Number(t[..k + 1]) == Number(t[..k]) * 10 + HexValue(t[k])
    ensures k == 0 ==> Number(t[..k]) == 0
  {
    assert t[..k + 1][..k] == t[..k];
  }

  lemma {:induction false} NumberGrows(t: seq<byte>, k: nat, n: nat)
    requires k <= n <= |t|
    ensures Number(t[..k]) <= Number(t[..n])
    decreases n - k
  {
    if k < n {
      NumberStep(t, k);
      NumberGrows(t, k + 1, n);
    }
  }

  lemma CanonDigitStep(t: seq<byte>, at: nat, datalen: nat, level: nat, dh: bool, bounded: bool)
    requires t != [] && IsDigit(t[0]) && (datalen == 0 ==> t[0] != ZERO)
    ensures CanonFrom(t, at, datalen, level, dh, bounded)
         == CanonFrom(t[1..], at + 1, (datalen * 10 + HexValue(t[0])) % TWO_32, level, dh, bounded)
  {}

  lemma CanonColonStep(t: seq<byte>, at: nat, datalen: nat, level: nat, dh: bool, bounded: bool)
    requires datalen > 0
    ensures if t != [] && t[0] == COLON && datalen < |t| then
              CanonFrom(t, at, datalen, level, dh, bounded)
                == CanonFrom(t[datalen + 1..], at + datalen + 1, 0, level, dh, bounded)
            else t == [] || !IsDigit(t[0]) ==> !CanonFrom(t, at, datalen, level, dh, bounded).Length?
  {}

  /** Reading the digits `k..` of a length whose first `k` digits have been read. */
  lemma {:induction false} CanonReadsDigits(t: seq<byte>, k: nat, at: nat, level: nat, dh: bool, bounded: bool)
    requires k <= DigitRun(t) && 0 < DigitRun(t) && t[0] != ZERO && Number(t[..DigitRun(t)]) < TWO_32
    ensures var n := DigitRun(t);
            CanonFrom(t[k..], at + k, Number(t[..k]), level, dh, bounded)
              == CanonFrom(t[n..], at + n, Number(t[..n]), level, dh, bounded)
    decreases |t| - k
  {
    hide CanonFrom, Number;
    var n := DigitRun(t);
    if k < n {
      NumberStep(t, k);
      NumberGrows(t, k + 1, n);
      if k > 0 {
        NumberPositive(t[..k]);
      }
      assert t[k..][1..] == t[k + 1..];
      CanonDigitStep(t[k..], at + k, Number(t[..k]), level, dh, bounded);
      CanonReadsDigits(t, k + 1, at, level, dh, bounded);
    }
  }

  /** A length, its colon and its bytes, read in one go. */
  lemma CanonReadsItem(t: seq<byte>, at: nat, level: nat, dh: bool, bounded: bool)
    requires t != [] && IsDigit(t[0]) && t[0] != ZERO && Number(t[..DigitRun(t)]) < TWO_32
    ensures var n := DigitRun(t); var size := Number(t[..n]);
            && 0 < n && 0 < size
            && if n < |t| && t[n] == COLON && size < |t| - n then
                 CanonFrom(t, at, 0, level, dh, bounded)
                   == CanonFrom(t[n + 1 + size..], at + n + 1 + size, 0, level, dh, bounded)
               else !CanonFrom(t, at, 0, level, dh, bounded).Length?
  {
    hide CanonFrom, Number;
    var n := DigitRun(t);
    assert t[0..] == t;
    NumberStep(t, 0);
    CanonReadsDigits(t, 0, at, level, dh, bounded);
    NumberPositive(t[..n]);
    var size := Number(t[..n]);
    CanonColonStep(t[n..], at + n, size, level, dh, bounded);
    if n < |t| && size < |t| - n {
      assert t[n..][size + 1..] == t[n + 1 + size..];
    }
  }

  lemma LengthsBelowStep(t: seq<byte>, datalen: nat, limit: nat)
    requires t != [] && IsDigit(t[0]) && LengthsBelow(t, datalen, limit) && limit > 9
    ensures datalen * 10 + HexValue(t[0]) < limit && LengthsBelow(t[1..], datalen * 10 + HexValue(t[0]), limit)
  {}

  lemma {:induction false} LengthsBelowDigits(t: seq<byte>, k: nat, limit: nat)
    requires k <= DigitRun(t) && 0 < DigitRun(t) && t[0] != ZERO && limit > 9
    requires LengthsBelow(t[k..], Number(t[..k]), limit) && Number(t[..k]) < limit
    ensures var n := DigitRun(t); Number(t[..n]) < limit && LengthsBelow(t[n..], Number(t[..n]), limit)
    decreases |t| - k
  {
    hide LengthsBelow, Number;
    if k < DigitRun(t) {
      NumberStep(t, k);
      assert t[k..][1..] == t[k + 1..];
      LengthsBelowStep(t[k..], Number(t[..k]), limit);
      LengthsBelowDigits(t, k + 1, limit);
    }
  }

  lemma LengthsBelowItem(t: seq<byte>, limit: nat)
    requires t != [] && IsDigit(t[0]) && t[0] != ZERO && LengthsBelow(t, 0, limit) && limit > 9
    ensures var n := DigitRun(t); var size := Number(t[..n]);
            && size < limit
            && (n < |t| && t[n] == COLON && size < |t| - n ==> LengthsBelow(t[n + 1 + size..], 0, limit))
  {
    hide Number;
    var n := DigitRun(t);
    assert t[0..] == t;
    NumberStep(t, 0);
    LengthsBelowDigits(t, 0, limit);
    NumberPositive(t[..n]);
    var size := Number(t[..n]);
    if n < |t| && t[n] == COLON && size < |t| - n {
      assert t[n..][size + 1..] == t[n + 1 + size..];
    }
  }

  predicate DataBelow(ts: seq<Token>, limit: nat) {
    forall i :: 0 <= i < |ts| && ts[i].Data? ==> |ts[i].bytes| < limit
  }

  ghost predicate ScansBelow(r: ScanResult, limit: nat) {
    r.Tokens? && DataBelow(r.ts, limit)
  }

  lemma PrependBelow(t: Token, r: ScanResult, limit: nat)
    requires ScansBelow(r, limit) && (t.Data? ==> |t.bytes| < limit)
    ensures ScansBelow(Prepend([t], r), limit)
  {}

  /** Whatever the canonical parser accepts as `n` bytes, the scanner accepts on exactly those. */
  lemma {:induction false} CanonAcceptedScans(b64: Decoder, t: seq<byte>, at: nat, off: nat, level: nat, dh: bool,
                                              bounded: bool, limit: nat)
    requires 9 < limit <= TWO_32 && LengthsBelow(t, 0, limit)
    requires CanonFrom(t, at, 0, level, dh, bounded).Length?
    ensures var n := CanonFrom(t, at, 0, level, dh, bounded).n;
            && at < n <= at + |t| && ScansBelow(Scan(b64, t[..n - at], off, level, dh), limit)
    decreases |t|
  {
    hide Number, ScansBelow, Scan, LengthsBelow, DigitRun;
    var c := t[0];
    if IsDigit(c) {
      LengthsBelowItem(t, limit);
      CanonReadsItem(t, at, level, dh, bounded);
      var k := DigitRun(t);
      var skip := k + 1 + Number(t[..k]);
      CanonAcceptedScans(b64, t[skip..], at + skip, off + skip, level, dh, bounded, limit);
      var n := CanonFrom(t, at, 0, level, dh, bounded).n - at;
      ScanOfItem(b64, t, n, off, level, dh, limit);
    } else if c == RPAREN && level == 1 {
      assert t[..1][1..] == [];
      LastClose(b64, t[..1], off, dh, limit);
    } else {
      CanonMarkStep(t, at, level, dh, bounded);
      var level', dh' := NextLevel(c, level), NextHint(c, dh);
      LengthsBelowMark(t, limit);
      CanonAcceptedScans(b64, t[1..], at + 1, off + 1, level', dh', bounded, limit);
      var n := CanonFrom(t, at, 0, level, dh, bounded).n - at;
      assert t[..n][1..] == t[1..][..n - 1];
      ScanMarkStep(b64, t[..n], off, level, dh, limit);
    }
  }

  function NextLevel(c: byte, level: nat): nat {
    if c == LPAREN then level + 1 else if c == RPAREN && level > 0 then level - 1 else level
  }

  function NextHint(c: byte, dh: bool): bool {
    if c == LBRACKET then true else if c == RBRACKET then false else dh
  }

  /** The parentheses and brackets a canonical text may go on with. */
  predicate IsMark(c: byte, level: nat, dh: bool) {
    (c == LPAREN && !dh) || (c == RPAREN && !dh && level > 1) || (c == LBRACKET && !dh) || (c == RBRACKET && dh)
  }

  lemma CanonMarkStep(t: seq<byte>, at: nat, level: nat, dh: bool, bounded: bool)
    requires CanonFrom(t, at, 0, level, dh, bounded).Length?
    requires !IsDigit(t[0]) && !(t[0] == RPAREN && level == 1)
    ensures IsMark(t[0], level, dh)
    ensures CanonFrom(t, at, 0, level, dh, bounded)
         == CanonFrom(t[1..], at + 1, 0, NextLevel(t[0], level), NextHint(t[0], dh), bounded)
  {}

  lemma CanonMarkForward(t: seq<byte>, at: nat, level: nat, dh: bool, bounded: bool)
    requires t != [] && IsMark(t[0], level, dh)
    ensures CanonFrom(t, at, 0, level, dh, bounded)
         == CanonFrom(t[1..], at + 1, 0, NextLevel(t[0], level), NextHint(t[0], dh), bounded)
  {}

  /** Where an accepted text can go on from a given state. */
  lemma CanonCases(t: seq<byte>, at: nat, datalen: nat, level: nat, dh: bool, bounded: bool)
    requires CanonFrom(t, at, datalen, level, dh, bounded).Length?
    ensures t != []
    ensures datalen > 0 ==> IsDigit(t[0]) || (t[0] == COLON && datalen < |t|)
    ensures datalen == 0 && IsDigit(t[0]) ==> t[0] != ZERO
    ensures datalen == 0 && !IsDigit(t[0]) ==>
              || IsMark(t[0], level, dh)
              || (&& t[0] == RPAREN && level == 1 && !dh
                  && CanonFrom(t, at, datalen, level, dh, bounded) == Length(at + 1))
  {}

  lemma CanonLast(t: seq<byte>, at: nat, bounded: bool)
    requires t == [RPAREN]
    ensures CanonFrom(t, at, 0, 1, false, bounded) == Length(at + 1)
  {}

  lemma LengthsBelowMark(t: seq<byte>, limit: nat)
    requires t != [] && !IsDigit(t[0]) && LengthsBelow(t, 0, limit)
    ensures LengthsBelow(t[1..], 0, limit)
  {}

  lemma ScanMarkStep(b64: Decoder, u: seq<byte>, off: nat, level: nat, dh: bool, limit: nat)
    requires u != [] && IsMark(u[0], level, dh)
    requires ScansBelow(Scan(b64, u[1..], off + 1, NextLevel(u[0], level), NextHint(u[0], dh)), limit)
    ensures ScansBelow(Scan(b64, u, off, level, dh), limit)
  {
    hide ScansBelow;
    var r := Scan(b64, u[1..], off + 1, NextLevel(u[0], level), NextHint(u[0], dh));
    PrependBelow(Open, r, limit);
    PrependBelow(Close, r, limit);
  }

  lemma LastClose(b64: Decoder, t: seq<byte>, off: nat, dh: bool, limit: nat)
    requires t == [RPAREN] && !dh
    ensures ScansBelow(Scan(b64, t, off, 1, dh), limit)
  {
    assert t[1..] == [];
  }

  lemma ScanOfItem(b64: Decoder, t: seq<byte>, n: nat, off: nat, level: nat, dh: bool, limit: nat)
    requires t != [] && IsDigit(t[0]) && t[0] != ZERO && DigitRun(t) < |t| && t[DigitRun(t)] == COLON
    requires var skip := DigitRun(t) + 1 + Number(t[..DigitRun(t)]);
             && skip < n <= |t| && Number(t[..DigitRun(t)]) < limit
             && ScansBelow(Scan(b64, t[skip..][..n - skip], off + skip, level, dh), limit)
    ensures ScansBelow(Scan(b64, t[..n], off, level, dh), limit)
  {
    hide Number, ScansBelow, Scan, DigitRun;
    var k := DigitRun(t);
    var skip := k + 1 + Number(t[..k]);
    var u := t[..n];
    DigitRunOfPrefix(t, n);
    assert u[..k] == t[..k];
    assert u[skip..] == t[skip..][..n - skip];
    assert u[0] == t[0];
    assert k > 0 by { DigitsInFront(t); }
    ScanDigits(b64, u, k, off, level, dh);
    PrependBelow(Data(u[k + 1..skip]), Scan(b64, u[skip..], off + skip, level, dh), limit);
  }

  lemma DigitsInFront(t: seq<byte>)
    requires t != [] && IsDigit(t[0])
    ensures DigitRun(t) > 0
  {}

  lemma {:induction false} DigitRunOfPrefix(t: seq<byte>, n: nat)
    requires DigitRun(t) < n <= |t|
    ensures DigitRun(t[..n]) == DigitRun(t)
  {
    var k := DigitRun(t);
    assert t == t[..k] + t[k..];
    assert t[..n] == t[..k] + t[k..n];
    DigitRunIs(t[..k], t[k..n]);
  }

  /** Two parsers agree: on the `n` bytes the canonical parser accepts, the scanner reports no error
      when the lengths in them fit 32 bits; and what it stores reads back when they fit 16 bits. */
  lemma TwoParsersAgree(b64: Decoder, memory: seq<byte>, length: nat, limit: nat)
    requires 0 < |memory| && length <= |memory| && 9 < limit <= TWO_32
    requires Canon(memory, length).Length?
    ensures var n := Canon(memory, length).n;
            && 0 < n <= |memory| && (length != 0 ==> n <= length)
            && (LengthsBelow(memory[..n], 0, limit) ==>
                  && !Read(b64, memory[..n]).Refused?
                  && DataBelow(Scan(b64, memory[..n], 0, 0, false).ts, limit))
  {
    hide CanonFrom, LengthsBelow, Scan;
    var text := if length == 0 then memory else memory[..length];
    CanonWithin(text, 0, 0, 0, false, length != 0);
    CanonNeedsNoMore(text, 0, 0, 0, false, length != 0);
    var n := Canon(memory, length).n;
    assert text[..n] == memory[..n];
    if LengthsBelow(memory[..n], 0, limit) {
      CanonAcceptedScans(b64, memory[..n], 0, 0, 0, false, length != 0, limit);
      assert memory[..n][..n] == memory[..n];
    }
  }

  lemma {:induction false} CanonWithin(t: seq<byte>, at: nat, datalen: nat, level: nat, dh: bool, bounded: bool)
    requires CanonFrom(t, at, datalen, level, dh, bounded).Length?
    ensures at < CanonFrom(t, at, datalen, level, dh, bounded).n <= at + |t|
    decreases |t|
  {
    var c := t[0];
    if datalen > 0 && c == COLON {
      CanonWithin(t[datalen + 1..], at + datalen + 1, 0, level, dh, bounded);
    } else if datalen > 0 {
      CanonWithin(t[1..], at + 1, (datalen * 10 + HexValue(c)) % TWO_32, level, dh, bounded);
    } else if !(c == RPAREN && level == 1) {
      CanonWithin(t[1..], at + 1, if IsDigit(c) then HexValue(c) else 0,
                  if c == LPAREN then level + 1 else if c == RPAREN then level - 1 else level,
                  if c == LBRACKET then true else if c == RBRACKET then false else dh, bounded);
    }
  }

  /** Acceptance depends on the accepted bytes alone. */
  lemma {:induction false} CanonNeedsNoMore(t: seq<byte>, at: nat, datalen: nat, level: nat, dh: bool, bounded: bool)
    requires CanonFrom(t, at, datalen, level, dh, bounded).Length?
    ensures var n := CanonFrom(t, at, datalen, level, dh, bounded).n;
            && at < n <= at + |t|
            && CanonFrom(t[..n - at], at, datalen, level, dh, bounded) == Length(n)
    decreases |t|
  {
    hide CanonFrom;
    CanonWithin(t, at, datalen, level, dh, bounded);
    CanonCases(t, at, datalen, level, dh, bounded);
    var c := t[0];
    var n := CanonFrom(t, at, datalen, level, dh, bounded).n - at;
    if datalen > 0 && c == COLON {
      var skip := datalen + 1;
      CanonColonStep(t, at, datalen, level, dh, bounded);
      CanonWithin(t[skip..], at + skip, 0, level, dh, bounded);
      CanonNeedsNoMore(t[skip..], at + skip, 0, level, dh, bounded);
      assert t[..n][skip..] == t[skip..][..n - skip];
      CanonColonStep(t[..n], at, datalen, level, dh, bounded);
    } else if IsDigit(c) {
      CanonDigitStep(t, at, datalen, level, dh, bounded);
      CanonNeedsNoMore(t[1..], at + 1, (datalen * 10 + HexValue(c)) % TWO_32, level, dh, bounded);
      assert t[..n][1..] == t[1..][..n - 1];
      CanonDigitStep(t[..n], at, datalen, level, dh, bounded);
    } else if IsMark(c, level, dh) {
      CanonMarkForward(t, at, level, dh, bounded);
      CanonNeedsNoMore(t[1..], at + 1, 0, NextLevel(c, level), NextHint(c, dh), bounded);
      assert t[..n][1..] == t[1..][..n - 1];
      CanonMarkForward(t[..n], at, level, dh, bounded);
    } else {
      CanonLast(t[..n], at, bounded);
    }
  }

  // ---- the length of a canonical print ----

  /** The canonical text of a token does not depend on where it stands. */
  function CanonText(ts: seq<Token>): seq<byte> {
    PrintFrom(ts, Canonical, 0)
  }

  lemma {:induction false} CanonTextAnywhere(ts: seq<Token>, indent: nat)
    ensures PrintFrom(ts, Canonical, indent) == CanonText(ts)
    decreases |ts|
  {
    if ts != [] {
      CanonTextAnywhere(ts[1..], IndentAfter(ts[0], indent));
      CanonTextAnywhere(ts[1..], IndentAfter(ts[0], 0));
    }
  }

  lemma CanonTextStep(t: Token, ts: seq<Token>)
    ensures CanonText([t] + ts) == TokenText(t, None, Canonical, 0) + CanonText(ts)
  {
    assert ([t] + ts)[1..] == ts;
    CanonTextAnywhere(ts, IndentAfter(t, 0));
  }

  /** The parser passes over the text of a whole tree inside a list. */
  lemma {:induction false} CanonPassesTree(e: Sexp, ts: seq<Token>, more: seq<byte>, at: nat, level: nat, bounded: bool)
    requires level > 0 && NoEmptyData(Flatten(e)) && Storable(Flatten(e))
    ensures |CanonText(Flatten(e) + ts)| >= |CanonText(ts)|
    ensures CanonFrom(CanonText(Flatten(e) + ts) + more, at, 0, level, false, bounded)
         == CanonFrom(CanonText(ts) + more, at + |CanonText(Flatten(e) + ts)| - |CanonText(ts)|, 0,
                      level, false, bounded)
    decreases e, 1
  {
    hide Scan, PrintFrom, CanonFrom, Decimal, Storable, NoEmptyData, CanonText;
    match e {
      case Atom(b) =>
        CleanAtom(b);
        CanonTextStep(Data(b), ts);
        CanonPassesData(b, CanonText(ts) + more, at, level, bounded);
        assert CanonText([Data(b)] + ts) + more == Decimal(|b|) + [COLON] + b + (CanonText(ts) + more);
      case List(kids) =>
        var inner := FlattenAll(kids) + ([Close] + ts);
        assert Flatten(e) + ts == [Open] + inner;
        CanonTextStep(Open, inner);
        CanonTextStep(Close, ts);
        KidsClean(kids);
        CanonPassesParen(LPAREN, CanonText(inner) + more, at, level, bounded);
        assert CanonText([Open] + inner) + more == [LPAREN] + (CanonText(inner) + more);
        CanonPassesTrees(kids, [Close] + ts, more, at + 1, level + 1, bounded);
        var at' := at + 1 + |CanonText(inner)| - |CanonText([Close] + ts)|;
        CanonPassesParen(RPAREN, CanonText(ts) + more, at', level + 1, bounded);
        assert CanonText([Close] + ts) + more == [RPAREN] + (CanonText(ts) + more);
    }
  }

  lemma {:induction false} CanonPassesTrees(es: seq<Sexp>, ts: seq<Token>, more: seq<byte>, at: nat, level: nat,
                                            bounded: bool)
    requires level > 0 && NoEmptyData(FlattenAll(es)) && Storable(FlattenAll(es))
    ensures |CanonText(FlattenAll(es) + ts)| >= |CanonText(ts)|
    ensures CanonFrom(CanonText(FlattenAll(es) + ts) + more, at, 0, level, false, bounded)
         == CanonFrom(CanonText(ts) + more, at + |CanonText(FlattenAll(es) + ts)| - |CanonText(ts)|, 0,
                      level, false, bounded)
    decreases es, 0
  {
    hide PrintFrom, CanonFrom;
    if es == [] {
      assert FlattenAll(es) + ts == ts;
    } else {
      var rest := FlattenAll(es[1..]) + ts;
      assert FlattenAll(es) + ts == Flatten(es[0]) + rest;
      CleanParts(Flatten(es[0]), FlattenAll(es[1..]));
      CanonPassesTree(es[0], rest, more, at, level, bounded);
      CanonPassesTrees(es[1..], ts, more, at + |CanonText(FlattenAll(es) + ts)| - |CanonText(rest)|, level, bounded);
    }
  }

  lemma CleanAtom(b: seq<byte>)
    requires NoEmptyData([Data(b)]) && Storable([Data(b)])
    ensures b != [] && |b| <= DATALEN_MAX
  {
    assert [Data(b)][0] == Data(b);
  }

  lemma CleanParts(a: seq<Token>, b: seq<Token>)
    requires NoEmptyData(a + b) && Storable(a + b)
    ensures NoEmptyData(a) && Storable(a) && NoEmptyData(b) && Storable(b)
  {
    assert forall i :: 0 <= i < |a| ==> a[i] == (a + b)[i];
    assert forall i :: 0 <= i < |b| ==> b[i] == (a + b)[|a| + i];
  }

  lemma KidsClean(kids: seq<Sexp>)
    requires NoEmptyData(Flatten(List(kids))) && Storable(Flatten(List(kids)))
    ensures NoEmptyData(FlattenAll(kids)) && Storable(FlattenAll(kids))
  {
    CleanParts([Open] + FlattenAll(kids), [Close]);
    CleanParts([Open], FlattenAll(kids));
  }

  lemma CanonPassesParen(c: byte, rest: seq<byte>, at: nat, level: nat, bounded: bool)
    requires (c == LPAREN) || (c == RPAREN && level > 1)
    ensures CanonFrom([c] + rest, at, 0, level, false, bounded)
         == CanonFrom(rest, at + 1, 0, if c == LPAREN then level + 1 else level - 1, false, bounded)
  {
    assert ([c] + rest)[0] == c && ([c] + rest)[1..] == rest;
  }

  lemma CanonPassesData(b: seq<byte>, rest: seq<byte>, at: nat, level: nat, bounded: bool)
    requires b != [] && |b| <= DATALEN_MAX
    ensures var d := Decimal(|b|) + [COLON] + b;
            CanonFrom(d + rest, at, 0, level, false, bounded) == CanonFrom(rest, at + |d|, 0, level, false, bounded)
  {
    hide CanonFrom, Decimal, Number;
    var n := Decimal(|b|);
    var t := n + [COLON] + b + rest;
    DecimalReads(|b|);
    assert t == n + ([COLON] + b + rest);
    DigitRunIs(n, [COLON] + b + rest);
    assert t[0] == n[0] && t[..|n|] == n;
    CanonReadsItem(t, at, level, false, bounded);
    assert t[|n| + 1 + |b|..] == rest;
  }

  /** The canonical length of a printed list is the length of the print, whatever follows. */
  lemma CanonLenOfPrint(kids: seq<Sexp>, more: seq<byte>, bounded: bool)
    requires NoEmptyData(Flatten(List(kids))) && Storable(Flatten(List(kids)))
    ensures var text := Print(Flatten(List(kids)), Canonical);
            && 0 < |text|
            && Canon(text + more, if bounded then |text + more| else 0) == Length(|text|)
  {
    hide PrintFrom, CanonFrom, CanonText;
    var ts := Flatten(List(kids));
    var text := CanonText(ts);
    var inner := FlattenAll(kids) + [Close];
    assert ts == [Open] + inner;
    CanonTextStep(Open, inner);
    CanonTextStep(Close, []);
    assert [Close] + [] == [Close];
    EmptyCanonText();
    CanonTextIsPrint(ts);
    KidsClean(kids);
    CanonPassesParen(LPAREN, CanonText(inner) + more, 0, 0, bounded);
    assert text + more == [LPAREN] + (CanonText(inner) + more);
    CanonPassesTrees(kids, [Close], more, 1, 1, bounded);
    CanonEnds(more, |CanonText(inner)|, bounded);
    assert CanonText([Close]) == [RPAREN];
    assert (text + more)[..|text + more|] == text + more;
  }

  lemma CanonTextIsPrint(ts: seq<Token>)
    ensures CanonText(ts) == Print(ts, Canonical)
  {}

  lemma EmptyCanonText()
    ensures CanonText([]) == []
  {}

  lemma CanonEnds(more: seq<byte>, at: nat, bounded: bool)
    ensures CanonFrom([RPAREN] + more, at, 0, 1, false, bounded) == Length(at + 1)
  {}
}
