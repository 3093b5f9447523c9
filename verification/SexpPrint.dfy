/** The text an expression is printed as, in the library's modes. */
module SexpPrint {
  import opened Bytes
  import opened SexpTokens
  import opened SexpChars

  /** Base64 output is not implemented by the printer: that mode prints like the default one. */
  datatype Mode = Default | Canonical | Base64 | Advanced

  function Decimal(n: nat): (r: seq<byte>)
    ensures |r| > 0
  {
    if n < 10 then [48 + n] else Decimal(n / 10) + [48 + n % 10]
  }

  datatype Form = HexForm | StringForm | TokenForm

  /** The characters that a string shows as a backslash and a letter. */
  predicate HasShortEscape(c: byte) {
    c in {BACKSPACE, TAB, VTAB, NEWLINE, FORMFEED, RETURN, DQUOTE, SQUOTE, BACKSLASH}
  }

  predicate Unprintable(c: byte) {
    c < 0x20 || 0x7f <= c <= 0xa0
  }

  predicate IsBinary(c: byte) {
    c == 0 || (Unprintable(c) && !HasShortEscape(c))
  }

  predicate InToken(c: byte) {
    IsAlpha(c) || IsDigit(c) || IsTokenSpecial(c)
  }

  /** How the advanced mode shows a data item: data whose first byte has the top bit set, or that
      holds unprintable bytes, as hex; data that can be a token, as that; the rest as a string. */
  function SuitableForm(b: seq<byte>): Form {
    if b == [] then StringForm
    else if b[0] >= 0x80 || (exists k :: 0 <= k < |b| && IsBinary(b[k])) then HexForm
    else if (forall k :: 0 <= k < |b| ==> InToken(b[k])) && !IsDigit(b[0]) then TokenForm
    else StringForm
  }

  function HexDigit(v: nat, upper: bool): byte
    requires v < 16
  {
    if v < 10 then 48 + v else if upper then 55 + v else 87 + v
  }

  function EscapeLetter(c: byte): byte
    requires HasShortEscape(c)
  {
    if c == BACKSPACE then LETTER_B
    else if c == TAB then LETTER_T
    else if c == VTAB then LETTER_V
    else if c == NEWLINE then LETTER_N
    else if c == FORMFEED then LETTER_F
    else if c == RETURN then LETTER_R
    else c
  }

  function EscapeByte(c: byte): seq<byte> {
    if HasShortEscape(c) then [BACKSLASH, EscapeLetter(c)]
    else if Unprintable(c) then [BACKSLASH, LETTER_X, HexDigit(c / 16, false), HexDigit(c % 16, false)]
    else [c]
  }

  function EscapeAll(b: seq<byte>): seq<byte> {
    if b == [] then [] else EscapeByte(b[0]) + EscapeAll(b[1..])
  }

  function HexAll(b: seq<byte>): seq<byte> {
    if b == [] then [] else [HexDigit(b[0] / 16, true), HexDigit(b[0] % 16, true)] + HexAll(b[1..])
  }

  function FormText(f: Form, b: seq<byte>): seq<byte> {
    match f
    case TokenForm => b
    case StringForm => [DQUOTE] + EscapeAll(b) + [DQUOTE]
    case HexForm => [HASH] + HexAll(b) + [HASH]
  }

  function Spaces(n: nat): seq<byte> {
    Fill(SPACE, n)
  }

  /** The text of one token, given the one behind it and the number of lists around it. */
  function TokenText(t: Token, next: Option<Token>, mode: Mode, indent: nat): seq<byte> {
    match t
    case Open =>
      if mode == Canonical || indent == 0 then [LPAREN]
      else [NEWLINE] + Spaces(indent) + [LPAREN]
    case Close =>
      if mode == Canonical || next == None || next == Some(Open) || indent == 0 then [RPAREN]
      else [RPAREN, NEWLINE] + Spaces(indent - 1)
    case Data(b) =>
      if mode == Advanced then
        FormText(SuitableForm(b), b) + (if next == Some(Close) then [] else [SPACE])
      else
        Decimal(|b|) + [COLON] + b
  }

  function Next(ts: seq<Token>): Option<Token> {
    if |ts| > 1 then Some(ts[1]) else None
  }

  function IndentAfter(t: Token, indent: nat): nat {
    match t
    case Open => indent + 1
    case Close => if indent > 0 then indent - 1 else 0
    case Data(_) => indent
  }

  function PrintFrom(ts: seq<Token>, mode: Mode, indent: nat): seq<byte> {
    if ts == [] then (if mode == Canonical then [] else [NEWLINE])
    else TokenText(ts[0], Next(ts), mode, indent) + PrintFrom(ts[1..], mode, IndentAfter(ts[0], indent))
  }

  function Print(ts: seq<Token>, mode: Mode): seq<byte> {
    PrintFrom(ts, mode, 0)
  }
}
