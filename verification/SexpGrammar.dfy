/** The texts that the canonical parser accepts, as a grammar of their own in plain character codes. */
module SexpGrammar {
  import opened Bytes
  import opened SexpChars
  import opened SexpScan
  import opened SexpPrint
  import opened SexpRoundTrip
  import opened SexpCanon
  import SexpReprint

  /** Parentheses, the brackets of a display hint, and data behind its length. */
  datatype Mark = ListOpen | ListClose | HintOpen | HintClose | Item(bytes: seq<byte>)

  /** An element of a list: data, a display hint with any number of data items in it, or a list. */
  datatype Element = Datum(bytes: seq<byte>) | Hint(items: seq<seq<byte>>) | Nested(kids: seq<Element>)

  function MarkText(m: Mark): seq<byte> {
    match m
    case ListOpen => [40]
    case ListClose => [41]
    case HintOpen => [91]
    case HintClose => [93]
    case Item(b) => Decimal(|b|) + [58] + b
  }

  function Text(ms: seq<Mark>): seq<byte> {
    if ms == [] then [] else MarkText(ms[0]) + Text(ms[1..])
  }

  /** One list, read with `level` lists and perhaps a hint open: a hint holds data only, hints and lists are
      closed in order, data is not empty and its length fits 32 bits, and nothing stands behind the list. */
  predicate OneList(ms: seq<Mark>, level: nat, dh: bool) {
    && ms != []
    && match ms[0]
       case ListOpen => !dh && OneList(ms[1..], level + 1, false)
       case ListClose =>
         !dh && level > 0 && if level == 1 then ms[1..] == [] else OneList(ms[1..], level - 1, false)
       case HintOpen => !dh && OneList(ms[1..], level, true)
       case HintClose => dh && OneList(ms[1..], level, false)
       case Item(b) => 0 < |b| < 0x1_0000_0000 && OneList(ms[1..], level, dh)
  }

  // ---- trees are of the grammar ----

  function Marks(e: Element): seq<Mark> {
    match e
    case Datum(b) => [Item(b)]
    case Hint(items) => [HintOpen] + seq(|items|, i requires 0 <= i < |items| => Item(items[i])) + [HintClose]
    case Nested(kids) => [ListOpen] + AllMarks(kids) + [ListClose]
  }

  function AllMarks(es: seq<Element>): seq<Mark> {
    if es == [] then [] else Marks(es[0]) + AllMarks(es[1..])
  }

  /** No data is empty, and its length fits 32 bits. */
  predicate Measured(ms: seq<Mark>) {
    forall i :: 0 <= i < |ms| && ms[i].Item? ==> 0 < |ms[i].bytes| < 0x1_0000_0000
  }

  lemma MeasuredParts(a: seq<Mark>, b: seq<Mark>)
    requires Measured(a + b)
    ensures Measured(a) && Measured(b)
  {
    forall i | 0 <= i < |a| && a[i].Item? ensures 0 < |a[i].bytes| < 0x1_0000_0000 {
      assert a[i] == (a + b)[i];
    }
    forall i | 0 <= i < |b| && b[i].Item? ensures 0 < |b[i].bytes| < 0x1_0000_0000 {
      assert b[i] == (a + b)[|a| + i];
    }
  }

  lemma OneListStep(m: Mark, ms: seq<Mark>, level: nat, dh: bool)
    ensures OneList([m] + ms, level, dh) <==>
              match m
              case ListOpen => !dh && OneList(ms, level + 1, false)
              case ListClose => !dh && level > 0 && if level == 1 then ms == [] else OneList(ms, level - 1, false)
              case HintOpen => !dh && OneList(ms, level, true)
              case HintClose => dh && OneList(ms, level, false)
              case Item(b) => 0 < |b| < 0x1_0000_0000 && OneList(ms, level, dh)
  {
    assert ([m] + ms)[1..] == ms;
  }

  lemma {:induction false} ItemsInside(items: seq<Mark>, rest: seq<Mark>, level: nat, dh: bool)
    requires Measured(items) && forall i :: 0 <= i < |items| ==> items[i].Item?
    ensures OneList(items + rest, level, dh) <==> OneList(rest, level, dh)
  {
    hide OneList;
    if items == [] {
      assert items + rest == rest;
    } else {
      assert items + rest == [items[0]] + (items[1..] + rest);
      assert items == [items[0]] + items[1..];
      MeasuredParts([items[0]], items[1..]);
      OneListStep(items[0], items[1..] + rest, level, dh);
      ItemsInside(items[1..], rest, level, dh);
    }
  }

  lemma {:induction false} ElementInside(e: Element, rest: seq<Mark>, level: nat)
    requires Measured(Marks(e)) && level > 0
    ensures OneList(Marks(e) + rest, level, false) <==> OneList(rest, level, false)
    decreases e, 0
  {
    hide OneList, Measured;
    match e {
      case Datum(b) =>
        ItemsInside([Item(b)], rest, level, false);
      case Hint(items) =>
        var inner := seq(|items|, i requires 0 <= i < |items| => Item(items[i]));
        assert Marks(e) + rest == [HintOpen] + (inner + ([HintClose] + rest));
        MeasuredParts([HintOpen] + inner, [HintClose]);
        MeasuredParts([HintOpen], inner);
        OneListStep(HintOpen, inner + ([HintClose] + rest), level, false);
        ItemsInside(inner, [HintClose] + rest, level, true);
        OneListStep(HintClose, rest, level, true);
      case Nested(kids) =>
        assert Marks(e) + rest == [ListOpen] + (AllMarks(kids) + ([ListClose] + rest));
        MeasuredParts([ListOpen] + AllMarks(kids), [ListClose]);
        MeasuredParts([ListOpen], AllMarks(kids));
        OneListStep(ListOpen, AllMarks(kids) + ([ListClose] + rest), level, false);
        ElementsInside(kids, [ListClose] + rest, level + 1);
        OneListStep(ListClose, rest, level + 1, false);
    }
  }

  lemma {:induction false} ElementsInside(es: seq<Element>, rest: seq<Mark>, level: nat)
    requires Measured(AllMarks(es)) && level > 0
    ensures OneList(AllMarks(es) + rest, level, false) <==> OneList(rest, level, false)
    decreases es, 1
  {
    hide OneList, Measured, Marks;
    if es == [] {
      assert AllMarks(es) + rest == rest;
    } else {
      assert AllMarks(es) + rest == Marks(es[0]) + (AllMarks(es[1..]) + rest);
      MeasuredParts(Marks(es[0]), AllMarks(es[1..]));
      ElementInside(es[0], AllMarks(es[1..]) + rest, level);
      ElementsInside(es[1..], rest, level);
    }
  }

  lemma TreeIsOneList(kids: seq<Element>)
    requires Measured(Marks(Nested(kids)))
    ensures OneList(Marks(Nested(kids)), 0, false)
  {
    hide OneList, Measured;
    MeasuredParts([ListOpen] + AllMarks(kids), [ListClose]);
    MeasuredParts([ListOpen], AllMarks(kids));
    assert [ListOpen] + AllMarks(kids) + [ListClose] == [ListOpen] + (AllMarks(kids) + [ListClose]);
    OneListStep(ListOpen, AllMarks(kids) + [ListClose], 0, false);
    ElementsInside(kids, [ListClose], 1);
    OneListStep(ListClose, [], 1, false);
    assert [ListClose] + [] == [ListClose];
  }

  // ---- the grammar is accepted ----

  /** From every state of the parser: what is of the grammar is accepted, whatever stands behind it. */
  lemma {:induction false} GrammarIsAccepted(ms: seq<Mark>, more: seq<byte>, at: nat, level: nat, dh: bool,
                                             bounded: bool)
    requires OneList(ms, level, dh)
    ensures CanonFrom(Text(ms) + more, at, 0, level, dh, bounded) == Length(at + |Text(ms)|)
    decreases |ms|
  {
    hide CanonFrom, MarkText;
    var m, ms' := ms[0], ms[1..];
    var t := Text(ms') + more;
    assert Text(ms) + more == MarkText(m) + t;
    if m.Item? {
      ItemPassed(m.bytes, t, at, level, dh, bounded);
      GrammarIsAccepted(ms', more, at + |MarkText(m)|, level, dh, bounded);
    } else {
      MarkTextIs(m);
      var c := MarkText(m)[0];
      assert Text(ms) + more == [c] + t;
      assert (Text(ms) + more)[0] == c && (Text(ms) + more)[1..] == t;
      if m == ListClose && level == 1 {
        assert Text(ms') == [] && t == more;
        CanonEnds(more, at, bounded);
      } else {
        CanonMarkForward(Text(ms) + more, at, level, dh, bounded);
        GrammarIsAccepted(ms', more, at + 1, NextLevel(c, level), NextHint(c, dh), bounded);
      }
    }
  }

  lemma MarkTextIs(m: Mark)
    requires !m.Item?
    ensures MarkText(m) == [match m case ListOpen => 40 case ListClose => 41 case HintOpen => 91 case _ => 93]
  {}

  lemma ItemPassed(b: seq<byte>, rest: seq<byte>, at: nat, level: nat, dh: bool, bounded: bool)
    requires 0 < |b| < 0x1_0000_0000
    ensures var d := MarkText(Item(b));
            CanonFrom(d + rest, at, 0, level, dh, bounded) == CanonFrom(rest, at + |d|, 0, level, dh, bounded)
  {
    hide CanonFrom, Decimal, Number;
    var n := Decimal(|b|);
    var t := n + [58] + b + rest;
    DecimalReads(|b|);
    assert t == n + ([58] + b + rest);
    DigitRunIs(n, [58] + b + rest);
    assert t[0] == n[0] && t[..|n|] == n;
    CanonReadsItem(t, at, level, dh, bounded);
    assert t[|n| + 1 + |b|..] == rest;
  }

  /** Lists whose data may carry display hints: the canonical length of their text is the length of the
      text, whatever bytes follow and with or without a limit. */
  lemma HintedTreeAccepted(kids: seq<Element>, more: seq<byte>, bounded: bool)
    requires Measured(Marks(Nested(kids)))
    ensures var text := Text(Marks(Nested(kids)));
            && 0 < |text|
            && Canon(text + more, if bounded then |text + more| else 0) == Length(|text|)
  {
    hide CanonFrom, OneList, Measured;
    var ms := Marks(Nested(kids));
    TreeIsOneList(kids);
    GrammarIsAccepted(ms, more, 0, 0, false, bounded);
    assert ms[0] == ListOpen;
    var text := Text(ms);
    assert text == [40] + Text(ms[1..]);
    assert (text + more)[..|text + more|] == text + more;
  }

  // ---- and nothing else ----

  lemma Cut(t: seq<byte>, k: nat, n: nat)
    requires k < n <= |t|
    ensures t[..n] == t[..k] + [t[k]] + t[k + 1..n]
  {}

  /** An accepted text that begins with a digit begins with a data item. */
  lemma ItemInFront(t: seq<byte>, at: nat, level: nat, dh: bool, bounded: bool) returns (n: nat, b: seq<byte>)
    requires CanonFrom(t, at, 0, level, dh, bounded) == Length(at + |t|) && LengthsBelow(t, 0, TWO_32)
    requires t != [] && IsDigit(t[0]) && t[0] != ZERO
    ensures 0 < n <= |t| && 0 < |b| < TWO_32 && t[..n] == MarkText(Item(b))
    ensures CanonFrom(t[n..], at + n, 0, level, dh, bounded) == Length(at + |t|) && LengthsBelow(t[n..], 0, TWO_32)
  {
    hide CanonFrom, LengthsBelow, Number, DigitRun, MarkText;
    var k := DigitRun(t);
    LengthsBelowItem(t, TWO_32);
    CanonReadsItem(t, at, level, dh, bounded);
    var size := Number(t[..k]);
    n := k + 1 + size;
    b := t[k + 1..n];
    SexpReprint.DecimalOfNumber(t[..k]);
    ItemText(b);
    Cut(t, k, n);
  }

  /** From every state: an accepted text, with lengths of 32 bits, is of the grammar. */
  lemma {:induction false} AcceptedIsGrammar(t: seq<byte>, at: nat, level: nat, dh: bool, bounded: bool)
    returns (ms: seq<Mark>)
    requires CanonFrom(t, at, 0, level, dh, bounded) == Length(at + |t|) && LengthsBelow(t, 0, TWO_32)
    ensures Text(ms) == t && OneList(ms, level, dh)
    decreases |t|
  {
    hide CanonFrom, LengthsBelow, Number, DigitRun, MarkText;
    CanonCases(t, at, 0, level, dh, bounded);
    if IsDigit(t[0]) {
      var n, b := ItemInFront(t, at, level, dh, bounded);
      var rest := AcceptedIsGrammar(t[n..], at + n, level, dh, bounded);
      ms := [Item(b)] + rest;
      OneListStep(Item(b), rest, level, dh);
      TextStep(Item(b), rest);
      assert t == t[..n] + t[n..];
    } else if IsMark(t[0], level, dh) {
      CanonMarkForward(t, at, level, dh, bounded);
      LengthsBelowMark(t, TWO_32);
      var rest := AcceptedIsGrammar(t[1..], at + 1, NextLevel(t[0], level), NextHint(t[0], dh), bounded);
      var m := if t[0] == 40 then ListOpen else if t[0] == 41 then ListClose
               else if t[0] == 91 then HintOpen else HintClose;
      ms := [m] + rest;
      MarkTextIs(m);
      OneListStep(m, rest, level, dh);
      TextStep(m, rest);
      assert t == [t[0]] + t[1..];
    } else {
      ms := [ListClose];
      MarkTextIs(ListClose);
      OneListStep(ListClose, [], level, dh);
      TextStep(ListClose, []);
      assert [ListClose] + [] == [ListClose] && t == [41];
    }
  }

  lemma ItemText(b: seq<byte>)
    ensures MarkText(Item(b)) == Decimal(|b|) + [58] + b
  {}

  lemma TextStep(m: Mark, ms: seq<Mark>)
    ensures Text([m] + ms) == MarkText(m) + Text(ms)
  {
    assert ([m] + ms)[1..] == ms;
  }

  /** The canonical parser accepts exactly the texts of the grammar: with lengths of 32 bits, the length it
      gives is that of the one list that stands in front of the memory, inside the limit. */
  lemma AcceptsExactly(memory: seq<byte>, length: nat, n: nat)
    requires 0 < |memory| && length <= |memory| && n <= |memory| && (length != 0 ==> n <= length)
    requires LengthsBelow(memory[..n], 0, TWO_32)
    ensures Canon(memory, length) == Length(n)
       <==> exists ms :: ms != [] && OneList(ms, 0, false) && ms[0] == ListOpen && Text(ms) == memory[..n]
  {
    hide CanonFrom, LengthsBelow, OneList;
    var whole := if length == 0 then memory else memory[..length];
    assert whole[..n] == memory[..n] && memory[..n] + whole[n..] == whole;
    if Canon(memory, length) == Length(n) {
      CanonNeedsNoMore(whole, 0, 0, 0, false, length != 0);
      CanonWithin(whole, 0, 0, 0, false, length != 0);
      var ms := AcceptedIsGrammar(memory[..n], 0, 0, false, length != 0);
      FirstMark(ms);
      assert memory[..n][0] == 40;
    }
    forall ms | ms != [] && OneList(ms, 0, false) && ms[0] == ListOpen && Text(ms) == memory[..n]
      ensures Canon(memory, length) == Length(n)
    {
      GrammarIsAccepted(ms, whole[n..], 0, 0, false, length != 0);
      FirstMark(ms);
      assert memory[..n][0] == memory[0];
    }
  }

  lemma FirstMark(ms: seq<Mark>)
    requires OneList(ms, 0, false)
    ensures ms != [] && Text(ms) != [] && (ms[0] == ListOpen <==> Text(ms)[0] == 40)
  {
    if ms[0].Item? {
      DecimalReads(|ms[0].bytes|);
    }
  }

  // ---- what is refused, and how ----

  /** A byte that cannot stand where it is, by its code. */
  lemma RefusedBytes(c: byte, rest: seq<byte>, at: nat, level: nat, dh: bool, bounded: bool)
    ensures var r := CanonFrom([c] + rest, at, 0, level, dh, bounded);
            && (c == 40 && dh ==> r == Faulty(UnmatchedHint, at))
            && (c == 41 && level == 0 ==> r == Faulty(UnmatchedParen, at))
            && (c == 41 && level > 0 && dh ==> r == Faulty(UnmatchedHint, at))
            && (c == 91 && dh ==> r == Faulty(NestedHint, at))
            && (c == 93 && !dh ==> r == Faulty(UnmatchedHint, at))
            && (c == 48 ==> r == Faulty(ZeroPrefix, at))
            && (c == 38 || c == 92 ==> r == Faulty(UnexpectedPunctuation, at))
            && (!(48 <= c <= 57) && c !in {40, 41, 91, 93, 38, 92} ==> r == Faulty(BadCharacter, at))
  {
    CanonUnfolds([c] + rest, at, 0, level, dh, bounded);
  }

  /** What does not begin with a parenthesis is not canonical; a text that ends early is too long for its
      limit; without a limit the parser would read on. */
  lemma RefusedEnds(memory: seq<byte>, length: nat, at: nat, level: nat, dh: bool, bounded: bool)
    requires 0 < |memory| && length <= |memory|
    ensures memory[0] != 40 ==> Canon(memory, length) == NotCanonical
    ensures CanonFrom([], at, 0, level, dh, bounded) == if bounded then Faulty(StringTooLong, at) else Overrun
  {}

  /** A length is followed by digits or a colon, and by as many bytes as it says. */
  lemma RefusedLengths(d: seq<byte>, rest: seq<byte>, at: nat, level: nat, dh: bool, bounded: bool)
    requires d != [] && d[0] != 48 && (forall k :: 0 <= k < |d| ==> 48 <= d[k] <= 57) && Number(d) < 0x1_0000_0000
    requires rest == [] || !(48 <= rest[0] <= 57)
    ensures var r := CanonFrom(d + rest, at, 0, level, dh, bounded);
            && (rest != [] && rest[0] != 58 ==> r == Faulty(InvalidLength, at + |d|))
            && (rest == [] || (rest[0] == 58 && Number(d) > |rest| - 1) ==>
                  r == if bounded then Faulty(StringTooLong, at + |d|) else Overrun)
  {
    hide CanonFrom, Number;
    var t := d + rest;
    DigitRunIs(d, rest);
    assert t[..|d|] == d && t[|d|..] == rest && t[0..] == t;
    NumberStep(t, 0);
    CanonReadsDigits(t, 0, at, level, dh, bounded);
    NumberPositive(d);
    LengthEnds(rest, at + |d|, Number(d), level, dh, bounded);
  }

  lemma LengthEnds(rest: seq<byte>, at: nat, n: nat, level: nat, dh: bool, bounded: bool)
    requires n > 0 && (rest == [] || !(48 <= rest[0] <= 57))
    ensures var r := CanonFrom(rest, at, n, level, dh, bounded);
            && (rest != [] && rest[0] != 58 ==> r == Faulty(InvalidLength, at))
            && (rest == [] || (rest[0] == 58 && n > |rest| - 1) ==>
                  r == if bounded then Faulty(StringTooLong, at) else Overrun)
  {}
}
