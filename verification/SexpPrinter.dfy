/** The printer as the program it is: a pass over the stored bytes that counts, and writes when it
    has a buffer. */
module SexpPrinter {
  import opened Bytes
  import opened SexpTokens
  import opened SexpChars
  import opened SexpPrint
  import opened SexpAccess
  import SexpLayout

  method SuitableEncoding(b: seq<byte>) returns (f: Form)
    ensures f == SuitableForm(b)
    ensures f == HexForm <==>
              b != [] && (b[0] >= 128 || exists k | 0 <= k < |b| :: b[k] <= 7 || 14 <= b[k] <= 31 || 127 <= b[k] <= 160)
    ensures f == TokenForm <==>
              && b != [] && !(48 <= b[0] <= 57)
              && forall k | 0 <= k < |b| ::
                   || 48 <= b[k] <= 57 || 65 <= b[k] <= 90 || 97 <= b[k] <= 122
                   || b[k] in {45, 46, 47, 95, 58, 42, 43, 61}
  {
    SexpLayout.FormIs(b);
    if b == [] {
      return StringForm;
    }
    if b[0] >= 0x80 {
      return HexForm;
    }
    var maybeToken := true;
    var k := 0;
    while k < |b|
      invariant k <= |b|
      invariant forall j :: 0 <= j < k ==> !IsBinary(b[j])
      invariant maybeToken <==> forall j :: 0 <= j < k ==> InToken(b[j])
    {
      if b[k] == 0 {
        return HexForm;
      }
      if (b[k] < 0x20 || 0x7f <= b[k] <= 0xa0) && !HasShortEscape(b[k]) {
        return HexForm;
      }
      if maybeToken && !IsAlpha(b[k]) && !IsDigit(b[k]) && !IsTokenSpecial(b[k]) {
        maybeToken := false;
      }
      k := k + 1;
    }
    f := if maybeToken && !IsDigit(b[0]) then TokenForm else StringForm;
  }

  /** How many bytes a data item takes in a form. */
  method ConvertedSize(f: Form, b: seq<byte>) returns (n: nat)
    ensures n == |FormText(f, b)|
  {
    match f {
      case TokenForm =>
        n := |b|;
      case HexForm =>
        HexAllSize(b);
        n := |b| * 2 + 2;
      case StringForm =>
        n := 2;
        var k := 0;
        assert b[0..] == b;
        while k < |b|
          invariant k <= |b|
          invariant n + |EscapeAll(b[k..])| == |FormText(f, b)|
        {
          assert b[k..][1..] == b[k + 1..];
          if HasShortEscape(b[k]) {
            n := n + 2;
          } else if b[k] < 0x20 || 0x7f <= b[k] <= 0xa0 {
            n := n + 4;
          } else {
            n := n + 1;
          }
          k := k + 1;
        }
    }
  }

  lemma {:induction false} HexAllSize(b: seq<byte>)
    ensures |HexAll(b)| == 2 * |b|
  {
    if b != [] {
      HexAllSize(b[1..]);
    }
  }

  method PutAll(buffer: array<byte>, at: nat, max: nat, d: seq<byte>)
    requires at + |d| <= max <= buffer.Length
    modifies buffer
    ensures buffer[..at + |d|] == old(buffer[..at]) + d
    ensures buffer[max..] == old(buffer[max..])
  {
    var k := 0;
    while k < |d|
      invariant k <= |d|
      invariant buffer[..at + k] == old(buffer[..at]) + d[..k]
      invariant buffer[max..] == old(buffer[max..])
    {
      buffer[at + k] := d[k];
      k := k + 1;
    }
  }

  /** The C library's formatted output: the text and a terminating NUL behind it. */
  method PutTerminated(buffer: array<byte>, at: nat, max: nat, d: seq<byte>)
    requires at + |d| < max <= buffer.Length
    modifies buffer
    ensures buffer[..at + |d|] == old(buffer[..at]) + d
    ensures buffer[max..] == old(buffer[max..])
  {
    PutAll(buffer, at, max, d);
    buffer[at + |d|] := 0;
  }

  method PutHexText(buffer: array<byte>, at: nat, max: nat, b: seq<byte>)
    requires at + |FormText(HexForm, b)| < max <= buffer.Length
    modifies buffer
    ensures buffer[..at + |FormText(HexForm, b)|] == old(buffer[..at]) + FormText(HexForm, b)
    ensures buffer[max..] == old(buffer[max..])
  {
    hide HexAll, HexDigit;
    HexAllSize(b);
    HexOfNothing(b);
    ghost var front := buffer[..at];
    PutAll(buffer, at, max, [HASH]);
    var k := 0;
    while k < |b|
      invariant k <= |b|
      invariant buffer[..at + 1 + 2 * k] == front + [HASH] + HexAll(b[..k])
      invariant buffer[max..] == old(buffer[max..])
    {
      var pair := [HexDigit(b[k] / 16, true), HexDigit(b[k] % 16, true)];
      PutTerminated(buffer, at + 1 + 2 * k, max, pair);
      HexAllSnoc(b, k);
      k := k + 1;
    }
    assert b[..|b|] == b;
    PutAll(buffer, at + 1 + 2 * |b|, max, [HASH]);
  }

  lemma HexOfNothing(b: seq<byte>)
    ensures HexAll(b[..0]) == []
  {}

  lemma {:induction false} HexAllSnoc(b: seq<byte>, k: nat)
    requires k < |b|
    ensures HexAll(b[..k + 1]) == HexAll(b[..k]) + [HexDigit(b[k] / 16, true), HexDigit(b[k] % 16, true)]
    decreases k
  {
    if k > 0 {
      assert b[..k + 1][1..] == b[1..][..k];
      assert b[..k][1..] == b[1..][..k - 1];
      HexAllSnoc(b[1..], k - 1);
    } else {
      assert b[..1][1..] == [];
    }
  }

  lemma {:induction false} EscapeAllSnoc(b: seq<byte>, k: nat)
    requires k < |b|
    ensures EscapeAll(b[..k + 1]) == EscapeAll(b[..k]) + EscapeByte(b[k])
    decreases k
  {
    if k > 0 {
      assert b[..k + 1][1..] == b[1..][..k];
      assert b[..k][1..] == b[1..][..k - 1];
      EscapeAllSnoc(b[1..], k - 1);
    } else {
      assert b[..1][1..] == [];
    }
  }

  lemma {:induction false} EscapeAllFront(b: seq<byte>, k: nat)
    requires k <= |b|
    ensures |EscapeAll(b[..k])| <= |EscapeAll(b)|
    decreases |b| - k
  {
    if k < |b| {
      EscapeAllSnoc(b, k);
      EscapeAllFront(b, k + 1);
    } else {
      assert b[..k] == b;
    }
  }

  method PutStringText(buffer: array<byte>, at: nat, max: nat, b: seq<byte>)
    requires at + |FormText(StringForm, b)| < max <= buffer.Length
    modifies buffer
    ensures buffer[..at + |FormText(StringForm, b)|] == old(buffer[..at]) + FormText(StringForm, b)
    ensures buffer[max..] == old(buffer[max..])
  {
    hide EscapeAll, EscapeByte;
    ghost var front := buffer[..at];
    PutAll(buffer, at, max, [DQUOTE]);
    var q := at + 1;
    var k := 0;
    EscapeNothing(b);
    while k < |b|
      invariant k <= |b| && q == at + 1 + |EscapeAll(b[..k])| <= max
      invariant buffer[..q] == front + [DQUOTE] + EscapeAll(b[..k])
      invariant buffer[max..] == old(buffer[max..])
    {
      EscapeAllSnoc(b, k);
      EscapeAllFront(b, k + 1);
      q := PutEscaped(buffer, q, max, b[k]);
      k := k + 1;
    }
    assert b[..|b|] == b;
    PutAll(buffer, q, max, [DQUOTE]);
  }

  /** One byte of a string, escaped where that is needed. */
  method PutEscaped(buffer: array<byte>, at: nat, max: nat, c: byte) returns (end: nat)
    requires at + |EscapeByte(c)| < max <= buffer.Length
    modifies buffer
    ensures end == at + |EscapeByte(c)| && buffer[..end] == old(buffer[..at]) + EscapeByte(c)
    ensures buffer[max..] == old(buffer[max..])
  {
    hide EscapeByte, EscapeLetter, HexDigit;
    EscapeCases(c);
    if HasShortEscape(c) {
      PutAll(buffer, at, max, [BACKSLASH, EscapeLetter(c)]);
      end := at + 2;
    } else if c < 0x20 || 0x7f <= c <= 0xa0 {
      PutTerminated(buffer, at, max, [BACKSLASH, LETTER_X, HexDigit(c / 16, false), HexDigit(c % 16, false)]);
      end := at + 4;
    } else {
      PutAll(buffer, at, max, [c]);
      end := at + 1;
    }
  }

  lemma EscapeNothing(b: seq<byte>)
    ensures EscapeAll(b[..0]) == []
  {}

  lemma EscapeCases(c: byte)
    ensures EscapeByte(c) ==
              if HasShortEscape(c) then [BACKSLASH, EscapeLetter(c)]
              else if Unprintable(c) then [BACKSLASH, LETTER_X, HexDigit(c / 16, false), HexDigit(c % 16, false)]
              else [c]
  {}

  method PutForm(f: Form, buffer: array<byte>, at: nat, max: nat, b: seq<byte>)
    requires at + |FormText(f, b)| < max <= buffer.Length
    modifies buffer
    ensures buffer[..at + |FormText(f, b)|] == old(buffer[..at]) + FormText(f, b)
    ensures buffer[max..] == old(buffer[max..])
  {
    match f {
      case TokenForm => PutAll(buffer, at, max, b);
      case StringForm => PutStringText(buffer, at, max, b);
      case HexForm => PutHexText(buffer, at, max, b);
    }
  }

  // ---- the printing pass ----

  method PutDecimal(buffer: array<byte>, at: nat, max: nat, n: nat) returns (end: nat)
    requires at + |Decimal(n)| + 1 < max <= buffer.Length
    modifies buffer
    ensures end == at + |Decimal(n)| + 1
    ensures buffer[..end] == old(buffer[..at]) + (Decimal(n) + [COLON])
    ensures buffer[max..] == old(buffer[max..])
  {
    PutTerminated(buffer, at, max, Decimal(n) + [COLON]);
    end := at + |Decimal(n)| + 1;
  }

  /** Count the bytes of `piece`, and write them when there is a buffer; `ok` turns false when they
      do not fit below `max`. */
  method Put(buffer: array?<byte>, max: nat, len: nat, piece: seq<byte>) returns (ok: bool, len': nat)
    requires buffer != null ==> len < max <= buffer.Length
    modifies if buffer == null then {} else {buffer}
    ensures len' == len + |piece|
    ensures buffer != null ==> buffer[max..] == old(buffer[max..])
    ensures ok <==> buffer == null || len' < max
    ensures ok && buffer != null ==> buffer[..len'] == old(buffer[..len]) + piece
  {
    len' := len + |piece|;
    if buffer != null {
      if len' >= max {
        return false, len';
      }
      PutAll(buffer, len, max, piece);
    }
    ok := true;
  }

  /** A data item in the advanced mode, without the space behind it. */
  method PutItem(buffer: array?<byte>, max: nat, len: nat, b: seq<byte>) returns (ok: bool, len': nat)
    requires buffer != null ==> len < max <= buffer.Length
    modifies if buffer == null then {} else {buffer}
    ensures len' == len + |FormText(SuitableForm(b), b)|
    ensures buffer != null ==> buffer[max..] == old(buffer[max..])
    ensures ok <==> buffer == null || len' < max
    ensures ok && buffer != null ==> buffer[..len'] == old(buffer[..len]) + FormText(SuitableForm(b), b)
  {
    hide FormText;
    var form := SuitableEncoding(b);
    var size := ConvertedSize(form, b);
    len' := len + size;
    if buffer != null {
      if len' >= max {
        return false, len';
      }
      PutForm(form, buffer, len, max, b);
    }
    ok := true;
  }

  /** A data item with its length in front. */
  method PutVerbatim(buffer: array?<byte>, max: nat, len: nat, b: seq<byte>) returns (ok: bool, len': nat)
    requires buffer != null ==> len < max <= buffer.Length
    modifies if buffer == null then {} else {buffer}
    ensures len' == len + |Decimal(|b|) + [COLON] + b|
    ensures buffer != null ==> buffer[max..] == old(buffer[max..])
    ensures ok <==> buffer == null || len' < max
    ensures ok && buffer != null ==> buffer[..len'] == old(buffer[..len]) + (Decimal(|b|) + [COLON] + b)
  {
    hide Decimal;
    len' := len + |Decimal(|b|)| + 1 + |b|;
    if buffer != null {
      if len' >= max {
        return false, len';
      }
      ghost var front := buffer[..len];
      var end := PutDecimal(buffer, len, max, |b|);
      PutAll(buffer, end, max, b);
      assert front + (Decimal(|b|) + [COLON]) + b == front + (Decimal(|b|) + [COLON] + b);
    }
    ok := true;
  }

  /** One token, given the tag byte behind it. */
  method PutToken(buffer: array?<byte>, max: nat, len: nat, t: Token, nextTag: byte, mode: Mode, indent: nat,
                  ghost next: Option<Token>) returns (ok: bool, len': nat)
    requires buffer != null ==> len < max <= buffer.Length
    requires t == Close ==> indent > 0
    requires (nextTag == ST_STOP <==> next == None) && (nextTag == ST_OPEN <==> next == Some(Open))
    requires nextTag == ST_CLOSE <==> next == Some(Close)
    modifies if buffer == null then {} else {buffer}
    ensures len' <= len + |TokenText(t, next, mode, indent)|
    ensures buffer != null ==> buffer[max..] == old(buffer[max..])
    ensures !ok ==> buffer != null && len' >= max
    ensures ok ==> len' == len + |TokenText(t, next, mode, indent)|
    ensures ok && buffer != null ==>
              len' < max && buffer[..len'] == old(buffer[..len]) + TokenText(t, next, mode, indent)
  {
    hide FormText, SuitableForm, Decimal, Spaces, TokenText;
    TokenTexts(t, next, mode, indent);
    match t {
      case Open =>
        var lead := if mode != Canonical && indent > 0 then [NEWLINE] + Spaces(indent) else [];
        ok, len' := Put(buffer, max, len, lead + [LPAREN]);
      case Close =>
        ok, len' := Put(buffer, max, len, [RPAREN]);
        if ok && nextTag != ST_OPEN && nextTag != ST_STOP && mode != Canonical {
          ok, len' := PutMore(buffer, max, len, len', [RPAREN], [NEWLINE] + Spaces(indent - 1));
        }
      case Data(b) =>
        if mode == Advanced {
          ok, len' := PutItem(buffer, max, len, b);
          if ok && nextTag != ST_CLOSE {
            ok, len' := PutMore(buffer, max, len, len', FormText(SuitableForm(b), b), [SPACE]);
          }
        } else {
          ok, len' := PutVerbatim(buffer, max, len, b);
        }
    }
  }

  /** A second piece behind a first one. */
  method PutMore(buffer: array?<byte>, max: nat, ghost start: nat, len: nat, ghost first: seq<byte>, piece: seq<byte>)
    returns (ok: bool, len': nat)
    requires buffer != null ==> len < max <= buffer.Length
    requires len == start + |first| && (buffer != null ==> buffer[start..len] == first)
    modifies if buffer == null then {} else {buffer}
    ensures len' == start + |first + piece|
    ensures buffer != null ==> buffer[max..] == old(buffer[max..])
    ensures ok <==> buffer == null || len' < max
    ensures ok && buffer != null ==> buffer[..len'] == old(buffer[..start]) + (first + piece)
  {
    ghost var front := if buffer == null then [] else buffer[..start];
    assert buffer != null ==> buffer[..len] == front + first;
    ok, len' := Put(buffer, max, len, piece);
    assert front + first + piece == front + (first + piece);
  }

  lemma TokenTexts(t: Token, next: Option<Token>, mode: Mode, indent: nat)
    ensures t == Open ==>
              TokenText(t, next, mode, indent)
              == (if mode != Canonical && indent > 0 then [NEWLINE] + Spaces(indent) else []) + [LPAREN]
    ensures t == Close && indent > 0 ==>
              TokenText(t, next, mode, indent)
              == if next != Some(Open) && next != None && mode != Canonical
                 then [RPAREN] + ([NEWLINE] + Spaces(indent - 1)) else [RPAREN]
    ensures t.Data? ==>
              TokenText(t, next, mode, indent)
              == if mode != Advanced then Decimal(|t.bytes|) + [COLON] + t.bytes
                 else if next == Some(Close) then FormText(SuitableForm(t.bytes), t.bytes)
                 else FormText(SuitableForm(t.bytes), t.bytes) + [SPACE]
  {
    hide FormText, SuitableForm, Decimal, Spaces;
  }

  lemma NextTag(d: seq<byte>, p: nat, rest: seq<Token>)
    requires At(d, p, rest)
    ensures var next := if rest == [] then None else Some(rest[0]);
            && p < |d|
            && (d[p] == ST_STOP <==> next == None) && (d[p] == ST_OPEN <==> next == Some(Open))
            && (d[p] == ST_CLOSE <==> next == Some(Close))
  {
    TagAt(d, p, rest);
  }

  lemma PrintStep(ts: seq<Token>, mode: Mode, indent: nat)
    requires ts != []
    ensures PrintFrom(ts, mode, indent)
         == TokenText(ts[0], Next(ts), mode, indent) + PrintFrom(ts[1..], mode, IndentAfter(ts[0], indent))
    ensures Next(ts) == if ts[1..] == [] then None else Some(ts[1..][0])
  {}

  /** Print the stored expression `d`. Without a buffer: the size a buffer needs. With one: the
      length of the text, which is written with a NUL behind it; or 0, when it does not fit. Bytes
      from `max` on are never touched. */
  method Sprint(d: seq<byte>, mode: Mode, buffer: array?<byte>, max: nat, ghost ts: seq<Token>) returns (size: nat)
    requires At(d, 0, ts) && Balanced(ts, 0)
    requires buffer != null ==> max <= buffer.Length
    modifies if buffer == null then {} else {buffer}
    ensures buffer == null ==> size == |Print(ts, mode)| + 1
    ensures buffer != null ==> buffer[max..] == old(buffer[max..])
    ensures buffer != null && |Print(ts, mode)| < max ==>
              size == |Print(ts, mode)| && buffer[..size] == Print(ts, mode) && buffer[size] == 0
    ensures buffer != null && |Print(ts, mode)| >= max ==> size == 0
  {
    hide Value, At, TokenText, Balanced, Next, PrintFrom, Print, IndentAfter;
    var p: nat := 0;
    var len: nat := 0;
    var indent: nat := 0;
    ghost var rest := ts;
    ghost var done: seq<byte> := [];
    PrintNothing(ts, mode);
    AtInside(d, p, rest);
    TagAt(d, p, rest);
    while d[p] != ST_STOP
      invariant p < |d| && At(d, p, rest) && Balanced(rest, indent)
      invariant d[p] == ST_STOP <==> rest == []
      invariant Print(ts, mode) == done + PrintFrom(rest, mode, indent) && len == |done|
      invariant buffer != null ==> buffer[max..] == old(buffer[max..])
      invariant buffer != null && len > 0 ==> len < max && buffer[..len] == done
      decreases |rest|
    {
      PrintStep(rest, mode, indent);
      BalancedHead(rest, indent);
      var t;
      t, p := TokenAt(d, p, rest);
      NextTag(d, p, rest[1..]);
      if buffer != null && max == 0 {
        return 0;
      }
      ghost var piece := TokenText(t, Next(rest), mode, indent);
      var ok, len' := PutToken(buffer, max, len, t, d[p], mode, indent, Next(rest));
      if !ok {
        return 0;
      }
      ghost var tail := PrintFrom(rest[1..], mode, IndentAfter(t, indent));
      assert done + (piece + tail) == done + piece + tail;
      done := done + piece;
      len := len';
      indent := IndentAfter(t, indent);
      rest := rest[1..];
    }
    assert rest == [];
    PrintEnd(mode, indent);
    size := EndText(buffer, max, len, mode);
  }

  /** The token in front of the walk, and the place behind it. */
  method TokenAt(d: seq<byte>, p: nat, ghost rest: seq<Token>) returns (t: Token, end: nat)
    requires At(d, p, rest) && rest != []
    ensures t == rest[0] && At(d, end, rest[1..])
  {
    hide Value, At;
    TagAt(d, p, rest);
    AtInside(d, p, rest);
    if d[p] == ST_OPEN {
      t, end := Open, p + 1;
    } else if d[p] == ST_CLOSE {
      t, end := Close, p + 1;
    } else {
      var n := Datalen(d[p + 1..]);
      t, end := Data(d[p + 3..p + 3 + n]), p + 3 + n;
    }
  }

  /** The newline behind the text, except in canonical mode, and the NUL. */
  method EndText(buffer: array?<byte>, max: nat, len: nat, mode: Mode) returns (size: nat)
    requires buffer != null ==> max <= buffer.Length && (len > 0 ==> len < max)
    modifies if buffer == null then {} else {buffer}
    ensures var end := if mode == Canonical then [] else [NEWLINE];
            && (buffer == null ==> size == len + |end| + 1)
            && (buffer != null && len + |end| < max ==>
                  size == len + |end| && buffer[..size] == old(buffer[..len]) + end && buffer[size] == 0)
            && (buffer != null && len + |end| >= max ==> size == 0)
    ensures buffer != null ==> buffer[max..] == old(buffer[max..])
  {
    size := 0;
    if buffer != null && max == 0 {
      return;
    }
    var n := len;
    if mode != Canonical {
      var ok;
      ok, n := Put(buffer, max, n, [NEWLINE]);
      if !ok {
        return;
      }
    }
    if buffer != null {
      if n >= max {
        return;
      }
      buffer[n] := 0;
      size := n;
    } else {
      size := n + 1;
    }
  }

  lemma PrintEnd(mode: Mode, indent: nat)
    ensures PrintFrom([], mode, indent) == if mode == Canonical then [] else [NEWLINE]
  {}

  lemma PrintNothing(ts: seq<Token>, mode: Mode)
    ensures Print(ts, mode) == [] + PrintFrom(ts, mode, 0)
  {}

  lemma BalancedHead(ts: seq<Token>, level: nat)
    requires ts != [] && Balanced(ts, level)
    ensures ts[0] == Close ==> level > 0
    ensures Balanced(ts[1..], IndentAfter(ts[0], level))
  {}
}
