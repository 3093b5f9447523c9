/** Character classes of the S-expression syntax, on ASCII codes. */
module SexpChars {
  import opened Bytes

  const BACKSPACE: byte := 8
  const TAB: byte := 9
  const NEWLINE: byte := 10
  const VTAB: byte := 11
  const FORMFEED: byte := 12
  const RETURN: byte := 13
  const SPACE: byte := 32
  const DQUOTE: byte := 34
  const HASH: byte := 35
  const AMPERSAND: byte := 38
  const SQUOTE: byte := 39
  const LPAREN: byte := 40
  const RPAREN: byte := 41
  const ZERO: byte := 48
  const COLON: byte := 58
  const LBRACKET: byte := 91
  const BACKSLASH: byte := 92
  const RBRACKET: byte := 93
  const LETTER_B: byte := 98
  const LETTER_F: byte := 102
  const LETTER_N: byte := 110
  const LETTER_R: byte := 114
  const LETTER_T: byte := 116
  const LETTER_V: byte := 118
  const LETTER_X: byte := 120
  const LBRACE: byte := 123
  const BAR: byte := 124

  predicate IsDigit(c: byte) { 48 <= c <= 57 }

  predicate IsOctal(c: byte) { 48 <= c <= 55 }

  predicate IsAlpha(c: byte) { 65 <= c <= 90 || 97 <= c <= 122 }

  predicate IsHex(c: byte) { IsDigit(c) || 65 <= c <= 70 || 97 <= c <= 102 }

  predicate IsWhite(c: byte) {
    c == SPACE || c == TAB || c == VTAB || c == FORMFEED || c == RETURN || c == NEWLINE
  }

  /** The characters - . / _ : * + = that a token may hold besides letters and digits. */
  predicate IsTokenSpecial(c: byte) {
    45 <= c <= 47 || c == 95 || c == 58 || c == 42 || c == 43 || c == 61
  }

  /** The scanner looks token characters up with strchr, which also finds the terminating NUL. */
  predicate IsTokenChar(c: byte) {
    IsAlpha(c) || IsDigit(c) || IsTokenSpecial(c) || c == 0
  }

  predicate IsBase64(c: byte) {
    IsAlpha(c) || IsDigit(c) || c == 43 || c == 47 || c == 61
  }

  function HexValue(c: byte): (v: nat)
    ensures v < 16
  {
    if IsDigit(c) then c - 48
    else if 65 <= c <= 70 then c - 55
    else if 97 <= c <= 102 then c - 87
    else 0
  }

  /** Number of leading bytes of `t` that are digits. */
  function DigitRun(t: seq<byte>): (n: nat)
    ensures n <= |t| && (n < |t| ==> !IsDigit(t[n]))
    ensures forall k :: 0 <= k < n ==> IsDigit(t[k])
  {
    if t == [] || !IsDigit(t[0]) then 0 else 1 + DigitRun(t[1..])
  }

  /** Number of leading bytes of `t` that are token characters. */
  function TokenRun(t: seq<byte>): (n: nat)
    ensures n <= |t| && (n < |t| ==> !IsTokenChar(t[n]))
    ensures forall k :: 0 <= k < n ==> IsTokenChar(t[k])
  {
    if t == [] || !IsTokenChar(t[0]) then 0 else 1 + TokenRun(t[1..])
  }

  /** The number a string of digits denotes, most significant digit first. */
  function Number(t: seq<byte>): nat {
    if t == [] then 0 else 10 * Number(t[..|t| - 1]) + HexValue(t[|t| - 1])
  }
}
