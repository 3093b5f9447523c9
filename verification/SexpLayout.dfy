/** How expressions are laid out when they are printed, on trees and in plain character codes. */
module SexpLayout {
  import opened Bytes
  import opened SexpTokens
  import opened SexpPrint

  // ---- one data item ----

  /** What the advanced mode shows as hex: unprintable bytes, but not those with a letter of their own. */
  predicate BinaryCode(c: byte) {
    c <= 7 || 14 <= c <= 31 || 127 <= c <= 160
  }

  /** Letters, digits and - . / _ : * + = */
  predicate WordCode(c: byte) {
    48 <= c <= 57 || 65 <= c <= 90 || 97 <= c <= 122 || c in {45, 46, 47, 95, 58, 42, 43, 61}
  }

  predicate ShownAsHex(b: seq<byte>) {
    b != [] && (b[0] >= 128 || exists k | 0 <= k < |b| :: BinaryCode(b[k]))
  }

  predicate ShownAsToken(b: seq<byte>) {
    b != [] && !(48 <= b[0] <= 57) && forall k | 0 <= k < |b| :: WordCode(b[k])
  }

  lemma FormIs(b: seq<byte>)
    ensures SuitableForm(b) == HexForm <==> ShownAsHex(b)
    ensures SuitableForm(b) == TokenForm <==> ShownAsToken(b)
    ensures SuitableForm(b) == StringForm <==> !ShownAsHex(b) && !ShownAsToken(b)
  {
    forall c: byte ensures IsBinary(c) <==> BinaryCode(c) {}
    forall c: byte ensures InToken(c) <==> WordCode(c) {}
    if ShownAsToken(b) {
      assert WordCode(b[0]) && !(b[0] >= 128);
      forall k | 0 <= k < |b| ensures !BinaryCode(b[k]) {
        assert WordCode(b[k]);
      }
    }
  }

  /** One character of a string. */
  function CharText(c: byte): seq<byte> {
    if c == 8 then [92, 98]
    else if c == 9 then [92, 116]
    else if c == 11 then [92, 118]
    else if c == 10 then [92, 110]
    else if c == 12 then [92, 102]
    else if c == 13 then [92, 114]
    else if c == 34 then [92, 34]
    else if c == 39 then [92, 39]
    else if c == 92 then [92, 92]
    else if c < 32 || 127 <= c <= 160 then [92, 120, LowerDigit(c / 16), LowerDigit(c % 16)]
    else [c]
  }

  function LowerDigit(v: nat): byte
    requires v < 16
  {
    if v < 10 then 48 + v else 97 + (v - 10)
  }

  function UpperDigit(v: nat): byte
    requires v < 16
  {
    if v < 10 then 48 + v else 65 + (v - 10)
  }

  function StringText(b: seq<byte>): seq<byte> {
    if b == [] then [] else CharText(b[0]) + StringText(b[1..])
  }

  function HexText(b: seq<byte>): seq<byte> {
    if b == [] then [] else [UpperDigit(b[0] / 16), UpperDigit(b[0] % 16)] + HexText(b[1..])
  }

  function AtomText(b: seq<byte>): seq<byte> {
    if ShownAsHex(b) then [35] + HexText(b) + [35]
    else if ShownAsToken(b) then b
    else [34] + StringText(b) + [34]
  }

  lemma CharTextIs(c: byte)
    ensures EscapeByte(c) == CharText(c)
  {}

  lemma {:induction false} StringTextIs(b: seq<byte>)
    ensures EscapeAll(b) == StringText(b)
  {
    hide EscapeByte, CharText;
    if b != [] {
      CharTextIs(b[0]);
      StringTextIs(b[1..]);
    }
  }

  lemma {:induction false} HexTextIs(b: seq<byte>)
    ensures HexAll(b) == HexText(b)
  {
    if b != [] {
      HexTextIs(b[1..]);
    }
  }

  lemma AtomTextIs(b: seq<byte>)
    ensures FormText(SuitableForm(b), b) == AtomText(b)
  {
    hide SuitableForm, ShownAsHex, ShownAsToken;
    FormIs(b);
    StringTextIs(b);
    HexTextIs(b);
  }

  /** The decimal digits of a length. */
  function LengthText(n: nat): seq<byte> {
    if n < 10 then [48 + n] else LengthText(n / 10) + [48 + n % 10]
  }

  lemma {:induction false} LengthTextIs(n: nat)
    ensures Decimal(n) == LengthText(n)
  {
    if n >= 10 {
      LengthTextIs(n / 10);
    }
  }

  // ---- lists ----

  /** What stands behind an expression. */
  datatype Follow = TheEnd | ListEnd | AList | AnAtom

  function Behind(es: seq<Sexp>, last: Follow): Follow {
    if es == [] then last else if es[0].Atom? then AnAtom else AList
  }

  /** An expression inside `d` lists. But for the canonical mode a list inside another one begins a line,
      and so does what follows a list, unless that is a list again; lines are indented by their depth. In the
      advanced mode a space stands behind an item that does not end its list. */
  function Pretty(e: Sexp, d: nat, mode: Mode, next: Follow): seq<byte>
    decreases e, 0
  {
    match e
    case Atom(b) =>
      if mode == Advanced then AtomText(b) + (if next == ListEnd then [] else [32])
      else LengthText(|b|) + [58] + b
    case List(kids) =>
      (if mode == Canonical || d == 0 then [] else [10] + Fill(32, d))
      + [40] + PrettyAll(kids, d + 1, mode, ListEnd) + [41]
      + (if mode == Canonical || next == TheEnd || next == AList then [] else [10] + Fill(32, d))
  }

  function PrettyAll(es: seq<Sexp>, d: nat, mode: Mode, last: Follow): seq<byte>
    decreases es, 1
  {
    if es == [] then []
    else Pretty(es[0], d, mode, Behind(es[1..], last)) + PrettyAll(es[1..], d, mode, last)
  }

  ghost predicate Heads(next: Follow, ts: seq<Token>) {
    match next
    case TheEnd => ts == []
    case ListEnd => ts != [] && ts[0] == Close
    case AList => ts != [] && ts[0] == Open
    case AnAtom => ts != [] && ts[0].Data?
  }

  lemma BehindHeads(es: seq<Sexp>, last: Follow, rest: seq<Token>)
    requires Heads(last, rest)
    ensures Heads(Behind(es, last), FlattenAll(es) + rest)
  {
    if es == [] {
      assert FlattenAll(es) + rest == rest;
    } else {
      assert Flatten(es[0]) != [];
      assert (FlattenAll(es) + rest)[0] == Flatten(es[0])[0];
    }
  }

  lemma PrintTwo(t: Token, rest: seq<Token>, mode: Mode, d: nat)
    ensures PrintFrom([t] + rest, mode, d)
         == TokenText(t, if rest == [] then None else Some(rest[0]), mode, d) + PrintFrom(rest, mode, IndentAfter(t, d))
  {
    hide TokenText;
    assert ([t] + rest)[1..] == rest;
  }

  lemma {:induction false} PrettyIsPrint(e: Sexp, rest: seq<Token>, d: nat, mode: Mode, next: Follow)
    requires Heads(next, rest) && (next == ListEnd ==> d > 0)
    ensures PrintFrom(Flatten(e) + rest, mode, d) == Pretty(e, d, mode, next) + PrintFrom(rest, mode, d)
    decreases e, 0
  {
    hide PrintFrom, AtomText, Heads, LengthText, TokenText, PrettyAll, FlattenAll;
    match e {
      case Atom(b) =>
        PrintTwo(Data(b), rest, mode, d);
        AtomIs(b, rest, d, mode, next);
      case List(kids) =>
        var inner := FlattenAll(kids) + ([Close] + rest);
        assert Flatten(e) + rest == [Open] + inner;
        PrintTwo(Open, inner, mode, d);
        OpenIs(if inner == [] then None else Some(inner[0]), d, mode);
        CloseHeads(rest);
        PrettyAllIsPrint(kids, [Close] + rest, d + 1, mode, ListEnd);
        PrintTwo(Close, rest, mode, d + 1);
        CloseIs(rest, d, mode, next);
    }
  }

  lemma AtomIs(b: seq<byte>, rest: seq<Token>, d: nat, mode: Mode, next: Follow)
    requires Heads(next, rest)
    ensures TokenText(Data(b), if rest == [] then None else Some(rest[0]), mode, d) == Pretty(Atom(b), d, mode, next)
  {
    hide AtomText, SuitableForm, FormText, Heads, LengthText, Decimal;
    HeadsMeans(next, rest);
    AtomTextIs(b);
    LengthTextIs(|b|);
  }

  lemma OpenIs(next: Option<Token>, d: nat, mode: Mode)
    ensures TokenText(Open, next, mode, d) == (if mode == Canonical || d == 0 then [] else [10] + Fill(32, d)) + [40]
  {}

  lemma CloseIs(rest: seq<Token>, d: nat, mode: Mode, next: Follow)
    requires Heads(next, rest)
    ensures TokenText(Close, if rest == [] then None else Some(rest[0]), mode, d + 1)
         == [41] + (if mode == Canonical || next == TheEnd || next == AList then [] else [10] + Fill(32, d))
  {
    hide Heads;
    HeadsMeans(next, rest);
  }

  lemma CloseHeads(rest: seq<Token>)
    ensures Heads(ListEnd, [Close] + rest)
  {}

  lemma HeadsMeans(next: Follow, rest: seq<Token>)
    requires Heads(next, rest)
    ensures next == TheEnd <==> rest == []
    ensures next == ListEnd <==> rest != [] && rest[0] == Close
    ensures next == AList <==> rest != [] && rest[0] == Open
  {}

  lemma Regroup(a: seq<byte>, b: seq<byte>, c: seq<byte>)
    ensures a + (b + c) == a + b + c
  {}

  lemma {:induction false} PrettyAllIsPrint(es: seq<Sexp>, rest: seq<Token>, d: nat, mode: Mode, last: Follow)
    requires Heads(last, rest) && (last == ListEnd ==> d > 0)
    ensures PrintFrom(FlattenAll(es) + rest, mode, d) == PrettyAll(es, d, mode, last) + PrintFrom(rest, mode, d)
    decreases es, 1
  {
    hide PrintFrom, Pretty, Heads;
    if es == [] {
      assert FlattenAll(es) + rest == rest;
    } else {
      var tail := FlattenAll(es[1..]) + rest;
      assert FlattenAll(es) + rest == Flatten(es[0]) + tail;
      BehindHeads(es[1..], last, rest);
      PrettyIsPrint(es[0], tail, d, mode, Behind(es[1..], last));
      PrettyAllIsPrint(es[1..], rest, d, mode, last);
      Regroup(Pretty(es[0], d, mode, Behind(es[1..], last)), PrettyAll(es[1..], d, mode, last),
              PrintFrom(rest, mode, d));
    }
  }

  /** The print of any expressions is their layout, with a line end but in the canonical mode. */
  lemma PrintIsLayout(es: seq<Sexp>, mode: Mode)
    ensures Print(FlattenAll(es), mode)
         == PrettyAll(es, 0, mode, TheEnd) + (if mode == Canonical then [] else [10])
  {
    hide PrettyAll;
    assert Heads(TheEnd, []);
    PrettyAllIsPrint(es, [], 0, mode, TheEnd);
    assert FlattenAll(es) + [] == FlattenAll(es);
  }

  /** A list of one item that can be a token prints as just that, in parentheses. */
  lemma TokenPrintsBare(b: seq<byte>)
    requires b != [] && !(48 <= b[0] <= 57)
    requires forall k :: 0 <= k < |b| ==>
               48 <= b[k] <= 57 || 65 <= b[k] <= 90 || 97 <= b[k] <= 122 || b[k] in {45, 46, 47, 95, 58, 42, 43, 61}
    ensures Print([Open, Data(b), Close], Advanced) == [40] + b + [41, 10]
  {
    var e := List([Atom(b)]);
    PrintIsLayout([e], Advanced);
    assert FlattenAll([Atom(b)][1..]) == [] && FlattenAll([e][1..]) == [];
    assert FlattenAll([Atom(b)]) == [Data(b)];
    assert FlattenAll([e]) == [Open, Data(b), Close];
    forall k | 0 <= k < |b| ensures WordCode(b[k]) && !BinaryCode(b[k]) {}
    assert WordCode(b[0]);
    assert AtomText(b) == b;
    assert PrettyAll([Atom(b)], 1, Advanced, ListEnd) == b;
    assert PrettyAll([e], 0, Advanced, TheEnd) == [40] + b + [41];
  }
}
