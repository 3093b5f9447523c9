/** The accessors: flat walks over the stored bytes, and the tree operations they carry out. */
module SexpAccess {
  import opened Bytes
  import opened SexpTokens

  // ---- walking the stored bytes ----

  /** The walk stands at `p` in front of the tokens `rest`. */
  ghost predicate At(d: seq<byte>, p: nat, rest: seq<Token>) {
    p < |d| && d[p..] == Stored(rest) && Storable(rest)
  }

  /** What the byte under the walk says, and where the item ends. */
  lemma TagAt(d: seq<byte>, p: nat, rest: seq<Token>)
    requires At(d, p, rest)
    ensures rest == [] ==> d[p] == ST_STOP && p + 1 == |d|
    ensures rest != [] && rest[0] == Open ==> d[p] == ST_OPEN && At(d, p + 1, rest[1..])
    ensures rest != [] && rest[0] == Close ==> d[p] == ST_CLOSE && At(d, p + 1, rest[1..])
    ensures rest != [] && rest[0].Data? ==>
              && var b := rest[0].bytes;
              && d[p] == ST_DATA && p + 3 + |b| < |d| && Datalen(d[p + 1..]) == |b|
              && d[p + 3..p + 3 + |b|] == b && At(d, p + 3 + |b|, rest[1..])
  {
    hide Value, Octets, EncodeOne;
    assert d[p..][0] == d[p];
    if rest != [] {
      var t, tail := rest[0], rest[1..];
      assert rest == [t] + tail;
      EncodeStep(t, tail);
      ItemLayout(t, Stored(tail));
      assert FitsOne(t);
      assert d[p..][1..] == d[p + 1..];
      if t.Data? {
        var b := t.bytes;
        assert d[p..][3..3 + |b|] == d[p + 3..p + 3 + |b|];
        assert d[p..][3 + |b|..] == d[p + 3 + |b|..];
      }
    }
  }

  // ---- the length of a list ----

  function LengthFrom(ts: seq<Token>, level: int): nat
    decreases |ts|
  {
    if ts == [] then 0
    else match ts[0]
      case Open => (if level == 1 then 1 else 0) + LengthFrom(ts[1..], level + 1)
      case Close => LengthFrom(ts[1..], level - 1)
      case Data(_) => (if level == 1 then 1 else 0) + LengthFrom(ts[1..], level)
  }

  method Length(d: seq<byte>, ghost ts: seq<Token>) returns (length: nat)
    requires At(d, 0, ts)
    ensures length == LengthFrom(ts, 0)
  {
    hide Value, At;
    var p := 0;
    var level: int := 0;
    length := 0;
    ghost var rest := ts;
    TagAt(d, p, rest);
    AtInside(d, p, rest);
    while d[p] != ST_STOP
      invariant p < |d| && At(d, p, rest)
      invariant LengthFrom(ts, 0) == length + LengthFrom(rest, level)
      decreases |d| - p
    {
      TagAt(d, p, rest);
      var tag := d[p];
      if tag == ST_DATA {
        p := p + 3 + Datalen(d[p + 1..]);
        if level == 1 {
          length := length + 1;
        }
      } else if tag == ST_OPEN {
        p := p + 1;
        if level == 1 {
          length := length + 1;
        }
        level := level + 1;
      } else {
        p := p + 1;
        level := level - 1;
      }
      rest := rest[1..];
      AtInside(d, p, rest);
    }
    TagAt(d, p, rest);
  }

  lemma AtInside(d: seq<byte>, p: nat, rest: seq<Token>)
    requires At(d, p, rest)
    ensures p < |d|
  {}

  /** A tree inside a list counts once, whatever it holds. */
  lemma {:induction false} LengthPasses(e: Sexp, ts: seq<Token>, level: nat)
    requires level > 0
    ensures LengthFrom(Flatten(e) + ts, level) == (if level == 1 then 1 else 0) + LengthFrom(ts, level)
    decreases e, 1
  {
    match e {
      case Atom(b) =>
        assert ([Data(b)] + ts)[1..] == ts;
      case List(kids) =>
        var inner := FlattenAll(kids) + ([Close] + ts);
        assert Flatten(e) + ts == [Open] + inner;
        assert ([Open] + inner)[1..] == inner;
        LengthPassesAll(kids, [Close] + ts, level + 1);
        assert ([Close] + ts)[1..] == ts;
    }
  }

  lemma {:induction false} LengthPassesAll(es: seq<Sexp>, ts: seq<Token>, level: nat)
    requires level > 0
    ensures LengthFrom(FlattenAll(es) + ts, level) == (if level == 1 then |es| else 0) + LengthFrom(ts, level)
    decreases es, 0
  {
    if es == [] {
      assert FlattenAll(es) + ts == ts;
    } else {
      assert FlattenAll(es) + ts == Flatten(es[0]) + (FlattenAll(es[1..]) + ts);
      LengthPasses(es[0], FlattenAll(es[1..]) + ts, level);
      LengthPassesAll(es[1..], ts, level);
    }
  }

  /** The elements of all top-level lists; data outside a list does not count. */
  function ElementCount(es: seq<Sexp>): nat {
    if es == [] then 0
    else (match es[0] case Atom(_) => 0 case List(kids) => |kids|) + ElementCount(es[1..])
  }

  /** The length of an expression is the number of elements of all its lists together: the walk does
      not stop at the end of the first one. */
  lemma {:induction false} LengthIsCount(es: seq<Sexp>)
    ensures LengthFrom(FlattenAll(es), 0) == ElementCount(es)
  {
    if es != [] {
      var rest := FlattenAll(es[1..]);
      LengthIsCount(es[1..]);
      match es[0] {
        case Atom(b) =>
          assert FlattenAll(es) == [Data(b)] + rest;
          assert ([Data(b)] + rest)[1..] == rest;
        case List(kids) =>
          var inner := FlattenAll(kids) + ([Close] + rest);
          assert FlattenAll(es) == [Open] + inner;
          assert ([Open] + inner)[1..] == inner;
          LengthPassesAll(kids, [Close] + rest, 1);
          assert ([Close] + rest)[1..] == rest;
      }
    }
  }

  lemma LengthOfOneList(kids: seq<Sexp>)
    ensures LengthFrom(Flatten(List(kids)), 0) == |kids|
  {
    var es := [List(kids)];
    LengthIsCount(es);
    assert es[1..] == [];
    assert FlattenAll(es) == Flatten(List(kids)) + FlattenAll(es[1..]);
    assert Flatten(List(kids)) + [] == Flatten(List(kids));
    assert ElementCount(es) == |kids| + ElementCount(es[1..]);
  }

  // ---- skipping elements ----

  /** The tokens from the element `number` places further on; none if the buffer ends first. */
  function SkipElements(ts: seq<Token>, level: int, number: int): Option<seq<Token>>
    decreases |ts|
  {
    if number <= 0 then Some(ts)
    else if ts == [] then None
    else match ts[0]
      case Open => SkipElements(ts[1..], level + 1, number)
      case Close => SkipElements(ts[1..], level - 1, if level == 1 then number - 1 else number)
      case Data(_) => SkipElements(ts[1..], level, if level == 0 then number - 1 else number)
  }

  lemma {:induction false} SkipPasses(e: Sexp, ts: seq<Token>, level: nat, number: int)
    requires number > 0
    ensures SkipElements(Flatten(e) + ts, level, number)
         == SkipElements(ts, level, if level == 0 then number - 1 else number)
    decreases e, 1
  {
    match e {
      case Atom(b) =>
        assert ([Data(b)] + ts)[1..] == ts;
      case List(kids) =>
        var inner := FlattenAll(kids) + ([Close] + ts);
        assert Flatten(e) + ts == [Open] + inner;
        assert ([Open] + inner)[1..] == inner;
        SkipPassesAll(kids, [Close] + ts, level + 1, number);
        assert ([Close] + ts)[1..] == ts;
    }
  }

  lemma {:induction false} SkipPassesAll(es: seq<Sexp>, ts: seq<Token>, level: nat, number: int)
    requires number > 0 && level > 0
    ensures SkipElements(FlattenAll(es) + ts, level, number) == SkipElements(ts, level, number)
    decreases es, 0
  {
    if es == [] {
      assert FlattenAll(es) + ts == ts;
    } else {
      assert FlattenAll(es) + ts == Flatten(es[0]) + (FlattenAll(es[1..]) + ts);
      SkipPasses(es[0], FlattenAll(es[1..]) + ts, level, number);
      SkipPassesAll(es[1..], ts, level, number);
    }
  }

  /** Skipping `number` elements of a list ends in front of that element, or at its end; or it runs on
      behind the list, one level up. */
  lemma {:induction false} SkipInList(kids: seq<Sexp>, more: seq<Token>, number: int)
    ensures var i := if number < 0 then 0 else number;
            SkipElements(FlattenAll(kids) + ([Close] + more), 0, number)
              == if i <= |kids| then Some(FlattenAll(kids[i..]) + ([Close] + more))
                 else SkipElements(more, -1, i - |kids|)
    decreases |kids|
  {
    var ts := FlattenAll(kids) + ([Close] + more);
    if number <= 0 {
      assert kids[0..] == kids;
    } else if kids == [] {
      assert ts == [Close] + more && ts[1..] == more;
    } else {
      assert ts == Flatten(kids[0]) + (FlattenAll(kids[1..]) + ([Close] + more));
      SkipPasses(kids[0], FlattenAll(kids[1..]) + ([Close] + more), 0, number);
      SkipInList(kids[1..], more, number - 1);
      assert number <= |kids| ==> kids[1..][number - 1..] == kids[number..];
    }
  }

  /** The element that a walk over `i` elements ends in front of, when it starts inside the first list
      and runs on into the lists behind it. It never ends in front of the first element of a later list:
      it has then stopped at the end of the list before. */
  function ElementAt(es: seq<Sexp>, i: nat): Option<Sexp> {
    if es == [] then None
    else match es[0]
      case Atom(_) => ElementAt(es[1..], i)
      case List(kids) =>
        if i < |kids| then Some(kids[i]) else if i == |kids| then None else ElementAt(es[1..], i - |kids|)
  }

  /** What a walk that ended at `r` stands in front of. */
  ghost predicate StandsAt(r: Option<seq<Token>>, e: Option<Sexp>, tail: seq<Token>) {
    match e
    case Some(x) => r == Some(Flatten(x) + tail)
    case None => r.None? || (r.value != [] && r.value[0] == Close)
  }

  lemma SkipFromList(kids: seq<Sexp>, es: seq<Sexp>, number: int) returns (tail: seq<Token>)
    ensures var i := if number < 0 then 0 else number;
            StandsAt(SkipElements(FlattenAll(kids) + ([Close] + FlattenAll(es)), 0, number),
                     ElementAt([List(kids)] + es, i), tail)
    decreases |es|, 1
  {
    var i := if number < 0 then 0 else number;
    var more := FlattenAll(es);
    SkipInList(kids, more, number);
    assert ([List(kids)] + es)[1..] == es;
    tail := [];
    if i < |kids| {
      tail := FlattenAll(kids[i + 1..]) + ([Close] + more);
      assert kids[i..] == [kids[i]] + kids[i + 1..];
      TreeInFront(kids[i], kids[i + 1..], [Close] + more);
    } else if i == |kids| {
      assert FlattenAll(kids[i..]) + ([Close] + more) == [Close] + more;
    } else {
      tail := SkipBetweenLists(es, i - |kids|);
    }
  }

  lemma SkipBetweenLists(es: seq<Sexp>, number: nat) returns (tail: seq<Token>)
    requires number > 0
    ensures StandsAt(SkipElements(FlattenAll(es), -1, number), ElementAt(es, number), tail)
    decreases |es|, 0
  {
    tail := [];
    if es != [] {
      var more := FlattenAll(es[1..]);
      match es[0] {
        case Atom(b) =>
          assert FlattenAll(es) == [Data(b)] + more && ([Data(b)] + more)[1..] == more;
          tail := SkipBetweenLists(es[1..], number);
        case List(kids) =>
          var inner := FlattenAll(kids) + ([Close] + more);
          assert FlattenAll(es) == [Open] + inner && ([Open] + inner)[1..] == inner;
          assert [List(kids)] + es[1..] == es;
          tail := SkipFromList(kids, es[1..], number);
      }
    }
  }

  // ---- the end of a list ----

  /** What follows the closing tag that ends `level` open lists. */
  function AfterLists(ts: seq<Token>, level: nat): Option<seq<Token>>
    decreases |ts|
  {
    if level == 0 then Some(ts)
    else if ts == [] then None
    else match ts[0]
      case Open => AfterLists(ts[1..], level + 1)
      case Close => AfterLists(ts[1..], level - 1)
      case Data(_) => AfterLists(ts[1..], level)
  }

  lemma {:induction false} AfterListsPasses(e: Sexp, ts: seq<Token>, level: nat)
    requires level > 0
    ensures AfterLists(Flatten(e) + ts, level) == AfterLists(ts, level)
    decreases e, 1
  {
    match e {
      case Atom(b) =>
        assert ([Data(b)] + ts)[1..] == ts;
      case List(kids) =>
        var inner := FlattenAll(kids) + ([Close] + ts);
        assert Flatten(e) + ts == [Open] + inner;
        assert ([Open] + inner)[1..] == inner;
        AfterListsPassesAll(kids, [Close] + ts, level + 1);
        assert ([Close] + ts)[1..] == ts;
    }
  }

  lemma {:induction false} AfterListsPassesAll(es: seq<Sexp>, ts: seq<Token>, level: nat)
    requires level > 0
    ensures AfterLists(FlattenAll(es) + ts, level) == AfterLists(ts, level)
    decreases es, 0
  {
    if es == [] {
      assert FlattenAll(es) + ts == ts;
    } else {
      assert FlattenAll(es) + ts == Flatten(es[0]) + (FlattenAll(es[1..]) + ts);
      AfterListsPasses(es[0], FlattenAll(es[1..]) + ts, level);
      AfterListsPassesAll(es[1..], ts, level);
    }
  }

  lemma ListEnds(kids: seq<Sexp>, ts: seq<Token>)
    ensures AfterLists(FlattenAll(kids) + ([Close] + ts), 1) == Some(ts)
  {
    AfterListsPassesAll(kids, [Close] + ts, 1);
    assert ([Close] + ts)[1..] == ts;
  }

  /** The walk to the end of the lists that are open: `level` of them. */
  method FindEnd(d: seq<byte>, start: nat, level: nat, ghost ts: seq<Token>) returns (p: nat, ghost rest: seq<Token>)
    requires At(d, start, ts) && AfterLists(ts, level).Some?
    ensures start <= p && At(d, p, rest) && Some(rest) == AfterLists(ts, level)
  {
    hide Value, At;
    p := start;
    rest := ts;
    var open := level;
    while open > 0
      invariant start <= p && At(d, p, rest)
      invariant AfterLists(ts, level) == AfterLists(rest, open)
      decreases |rest|
    {
      TagAt(d, p, rest);
      AtInside(d, p, rest);
      var tag := d[p];
      if tag == ST_DATA {
        p := p + 3 + Datalen(d[p + 1..]);
      } else if tag == ST_OPEN {
        p := p + 1;
        open := open + 1;
      } else {
        p := p + 1;
        open := open - 1;
      }
      rest := rest[1..];
    }
  }

  // ---- copying a list out ----

  /** Forbidden empty expressions never leave an accessor. */
  function Normalize(d: seq<byte>): Option<seq<byte>>
    requires d != []
  {
    if d[0] == ST_STOP || (d[0] == ST_OPEN && |d| > 1 && d[1] == ST_CLOSE) then None else Some(d)
  }

  /** A copy of the list at the front of `ts`; its size passes through 16 bits. */
  function CopyList(ts: seq<Token>): Option<seq<byte>>
    requires ts != [] && ts[0] == Open && AfterLists(ts[1..], 1).Some?
  {
    ListIsPrefix(ts);
    var size := |Encode(ts)| - |Encode(AfterLists(ts[1..], 1).value)|;
    Normalize(Encode(ts)[..size % 65536] + [ST_STOP])
  }

  lemma {:induction false} EncodeSuffix(ts: seq<Token>, level: nat)
    requires AfterLists(ts, level).Some?
    ensures |Encode(AfterLists(ts, level).value)| <= |Encode(ts)|
    decreases |ts|
  {
    if level > 0 {
      EncodeSuffix(ts[1..], match ts[0] case Open => level + 1 case Close => level - 1 case Data(_) => level);
    }
  }

  lemma ListIsPrefix(ts: seq<Token>)
    requires ts != [] && AfterLists(ts[1..], 1).Some?
    ensures |Encode(AfterLists(ts[1..], 1).value)| <= |Encode(ts)|
  {
    EncodeSuffix(ts[1..], 1);
  }

  /** The copy of a list is that list exactly when its encoding fits 16 bits; the empty list becomes
      no expression at all. */
  lemma CopyListIsList(kids: seq<Sexp>, ts: seq<Token>)
    ensures var l := Flatten(List(kids));
            && AfterLists((l + ts)[1..], 1).Some?
            && (kids == [] ==> CopyList(l + ts) == None)
            && (kids != [] ==> (CopyList(l + ts) == Some(Stored(l)) <==> |Encode(l)| <= DATALEN_MAX))
  {
    hide Encode, EncodeOne, AfterLists, FlattenAll;
    var l := Flatten(List(kids));
    assert (l + ts)[1..] == FlattenAll(kids) + ([Close] + ts);
    ListEnds(kids, ts);
    EncodeConcat(l, ts);
    var size := |Encode(l)|;
    ListEncoding(kids);
    if size <= DATALEN_MAX {
      assert Encode(l + ts)[..size] == Encode(l);
    } else {
      assert |Encode(l + ts)[..size % 65536] + [ST_STOP]| < |Stored(l)|;
    }
  }

  lemma ListEncoding(kids: seq<Sexp>)
    ensures var e := Encode(Flatten(List(kids)));
            && |e| >= 2 && e[0] == ST_OPEN && (e[1] == ST_CLOSE <==> kids == [])
            && (kids == [] ==> |e| == 2)
  {
    var l := Flatten(List(kids));
    assert l[1..] == FlattenAll(kids) + [Close];
    assert l == [Open] + l[1..];
    if kids == [] {
      assert l == [Open] + [Close];
      assert Encode([Close]) == [ST_CLOSE];
    } else {
      FirstOfTree(kids[0]);
      assert l[1] == Flatten(kids[0])[0];
      assert Encode(l[1..]) == EncodeOne(l[1]) + Encode(l[1..][1..]);
    }
  }

  lemma FirstOfTree(e: Sexp)
    ensures Flatten(e) != [] && Flatten(e)[0] != Close
  {}

  /** A balanced walk finds the end of every list it is in. */
  lemma {:induction false} BalancedHasEnd(ts: seq<Token>, depth: nat, level: nat)
    requires Balanced(ts, depth) && level <= depth
    ensures AfterLists(ts, level).Some?
    decreases |ts|
  {
    if level > 0 {
      match ts[0] {
        case Open => BalancedHasEnd(ts[1..], depth + 1, level + 1);
        case Close => BalancedHasEnd(ts[1..], depth - 1, level - 1);
        case Data(_) => BalancedHasEnd(ts[1..], depth, level);
      }
    }
  }

  /** The depth of the walk behind the first token. */
  function DepthAfter(t: Token, depth: nat): nat {
    match t
    case Open => depth + 1
    case Close => if depth > 0 then depth - 1 else 0
    case Data(_) => depth
  }

  // ---- the n-th element ----

  /** The element in front of the walk, as an expression of its own: data is wrapped in a list. */
  function ElementFrom(r: Option<seq<Token>>): Option<seq<byte>> {
    if r.None? || r.value == [] then None
    else match r.value[0]
      case Close => None
      case Data(b) => Some(Stored([Open, Data(b), Close]))
      case Open => if AfterLists(r.value[1..], 1).None? then None else CopyList(r.value)
  }

  /** The n-th element of a list. */
  function NthElement(ts: seq<Token>, number: int): Option<seq<byte>> {
    if ts == [] || ts[0] != Open then None else ElementFrom(SkipElements(ts[1..], 0, number))
  }

  function BytesFrom(r: Option<seq<Token>>): Option<seq<byte>> {
    if r.None? || r.value == [] || !r.value[0].Data? then None else Some(r.value[0].bytes)
  }

  /** The bytes of the n-th element when it is data; also of an expression that is data alone. */
  function NthBytes(ts: seq<Token>, number: int): Option<seq<byte>> {
    BytesFrom(if ts != [] && ts[0] == Open then SkipElements(ts[1..], 0, number)
              else if number != 0 then None else Some(ts))
  }

  /** Walk over `number` elements from `start`, which stands `depth` lists deep in a balanced
      expression. */
  method Skip(d: seq<byte>, start: nat, number: int, ghost ts: seq<Token>, ghost depth: nat)
    returns (found: bool, p: nat, ghost rest: seq<Token>, ghost depth': nat)
    requires At(d, start, ts) && Balanced(ts, depth)
    ensures found <==> SkipElements(ts, 0, number).Some?
    ensures found ==> SkipElements(ts, 0, number) == Some(rest) && At(d, p, rest) && Balanced(rest, depth')
  {
    hide Value, At;
    p, rest, depth' := start, ts, depth;
    var left := number;
    var level: int := 0;
    while left > 0
      invariant At(d, p, rest) && Balanced(rest, depth')
      invariant SkipElements(ts, 0, number) == SkipElements(rest, level, left)
      decreases |rest|
    {
      TagAt(d, p, rest);
      AtInside(d, p, rest);
      var tag := d[p];
      if tag == ST_STOP {
        found := false;
        return;
      } else if tag == ST_DATA {
        p := p + 3 + Datalen(d[p + 1..]);
        if level == 0 {
          left := left - 1;
        }
      } else if tag == ST_OPEN {
        p := p + 1;
        level := level + 1;
      } else {
        p := p + 1;
        level := level - 1;
        if level == 0 {
          left := left - 1;
        }
      }
      depth' := DepthAfter(rest[0], depth');
      rest := rest[1..];
    }
    found := true;
  }

  method Nth(d: seq<byte>, number: int, ghost ts: seq<Token>) returns (r: Option<seq<byte>>)
    requires At(d, 0, ts) && Balanced(ts, 0)
    ensures r == NthElement(ts, number)
  {
    hide Value, At, CopyList, Encode;
    TagAt(d, 0, ts);
    AtInside(d, 0, ts);
    if d[0] != ST_OPEN {
      return None;
    }
    ghost var rest, depth;
    var found, p;
    found, p, rest, depth := Skip(d, 1, number, ts[1..], 1);
    if !found {
      return None;
    }
    TagAt(d, p, rest);
    AtInside(d, p, rest);
    if d[p] == ST_DATA {
      var n := Datalen(d[p + 1..]);
      WrappedData(d, p, rest);
      r := Normalize([ST_OPEN] + d[p..p + 3 + n] + [ST_CLOSE, ST_STOP]);
    } else if d[p] == ST_OPEN {
      BalancedHasEnd(rest[1..], depth + 1, 1);
      r := CopyOut(d, p, rest);
    } else {
      r := None;
    }
  }

  /** Copy the list at `p` into a buffer of its own; the number of bytes is kept in 16 bits. */
  method CopyOut(d: seq<byte>, p: nat, ghost rest: seq<Token>) returns (r: Option<seq<byte>>)
    requires At(d, p, rest) && rest != [] && rest[0] == Open && AfterLists(rest[1..], 1).Some?
    ensures r == CopyList(rest)
  {
    hide Value, Encode;
    TagAt(d, p, rest);
    ghost var after;
    var end;
    end, after := FindEnd(d, p + 1, 1, rest[1..]);
    var n := (end - p) % 65536;
    ListIsPrefix(rest);
    assert |d| - p == |Encode(rest)| + 1 && |d| - end == |Encode(after)| + 1;
    r := Normalize(d[p..p + n] + [ST_STOP]);
    assert d[p..][..n] == d[p..p + n];
    assert Stored(rest)[..n] == Encode(rest)[..n];
  }

  lemma WrappedData(d: seq<byte>, p: nat, rest: seq<Token>)
    requires At(d, p, rest) && rest != [] && rest[0].Data?
    ensures var b := rest[0].bytes;
            && p + 3 + |b| < |d|
            && Normalize([ST_OPEN] + d[p..p + 3 + |b|] + [ST_CLOSE, ST_STOP]) == Some(Stored([Open, Data(b), Close]))
  {
    hide Value, At, Stored, EncodeOne;
    var b := rest[0].bytes;
    TagAt(d, p, rest);
    ItemAt(d, p, rest);
    WrappedStored(b);
    var e := EncodeOne(Data(b));
    var w := [ST_OPEN] + e + [ST_CLOSE, ST_STOP];
    assert w[1] == e[0] == ST_DATA by { DataFront(b); }
  }

  /** The bytes of the item in front of the walk are its encoding. */
  lemma ItemAt(d: seq<byte>, p: nat, rest: seq<Token>)
    requires At(d, p, rest) && rest != [] && rest[0].Data?
    ensures p + 3 + |rest[0].bytes| <= |d| && d[p..p + 3 + |rest[0].bytes|] == EncodeOne(rest[0])
  {
    hide Value;
    var b := rest[0].bytes;
    assert rest == [rest[0]] + rest[1..];
    EncodeStep(rest[0], rest[1..]);
    DataFront(b);
    var e := EncodeOne(rest[0]);
    assert d[p..] == e + Stored(rest[1..]);
    assert d[p..][..|e|] == e;
  }

  lemma DataFront(b: seq<byte>)
    ensures var e := EncodeOne(Data(b)); |e| == 3 + |b| && e[0] == ST_DATA
  {}

  lemma WrappedStored(b: seq<byte>)
    ensures Stored([Open, Data(b), Close]) == [ST_OPEN] + EncodeOne(Data(b)) + [ST_CLOSE, ST_STOP]
  {
    hide Stored;
    EncodeStep(Open, [Data(b), Close]);
    EncodeStep(Data(b), [Close]);
    EncodeStep(Close, []);
    assert [Open] + [Data(b), Close] == [Open, Data(b), Close];
    assert [Data(b)] + [Close] == [Data(b), Close];
    assert [Close] + [] == [Close];
    StoredNothing();
    var e := EncodeOne(Data(b));
    assert [ST_OPEN] + (e + ([ST_CLOSE] + [ST_STOP])) == [ST_OPEN] + e + [ST_CLOSE, ST_STOP];
  }

  lemma StoredNothing()
    ensures Stored([]) == [ST_STOP]
  {}

  method NthData(d: seq<byte>, number: int, ghost ts: seq<Token>) returns (r: Option<seq<byte>>)
    requires At(d, 0, ts) && Balanced(ts, 0)
    ensures r == NthBytes(ts, number)
  {
    hide Value, At;
    TagAt(d, 0, ts);
    AtInside(d, 0, ts);
    var p := 0;
    ghost var rest, depth := ts, 0;
    if d[0] == ST_OPEN {
      var found;
      found, p, rest, depth := Skip(d, 1, number, ts[1..], 1);
      if !found {
        return None;
      }
    } else if number != 0 {
      return None;
    }
    TagAt(d, p, rest);
    AtInside(d, p, rest);
    if d[p] == ST_DATA {
      r := Some(d[p + 3..p + 3 + Datalen(d[p + 1..])]);
    } else {
      r := None;
    }
  }

  /** The copy of an element, when its encoding fits 16 bits. */
  ghost predicate CopyOf(r: Option<seq<byte>>, e: Option<Sexp>) {
    match e
    case None => r == None
    case Some(Atom(b)) => r == Some(Stored(Flatten(List([Atom(b)]))))
    case Some(List(inner)) =>
      if inner == [] then r == None
      else r == Some(Stored(Flatten(e.value))) <==> |Encode(Flatten(e.value))| <= DATALEN_MAX
  }

  lemma ElementIsCopied(r: Option<seq<Token>>, e: Option<Sexp>, tail: seq<Token>)
    requires StandsAt(r, e, tail)
    ensures CopyOf(ElementFrom(r), e)
  {
    hide CopyList, Encode;
    match e {
      case None =>
      case Some(Atom(b)) =>
        assert FlattenAll([Atom(b)]) == [Data(b)] + FlattenAll([]);
        assert Flatten(List([Atom(b)])) == [Open, Data(b), Close];
      case Some(List(deep)) =>
        CopyListIsList(deep, tail);
    }
  }

  /** How an expression that begins with a list is laid out. */
  lemma ListInFront(kids: seq<Sexp>, es: seq<Sexp>)
    ensures var ts, inner := FlattenAll([List(kids)] + es), FlattenAll(kids) + ([Close] + FlattenAll(es));
            ts == [Open] + inner && ts != [] && ts[0] == Open && ts[1..] == inner
  {
    assert ([List(kids)] + es)[1..] == es;
    var inner := FlattenAll(kids) + ([Close] + FlattenAll(es));
    assert Flatten(List(kids)) + FlattenAll(es) == [Open] + inner;
    assert ([Open] + inner)[1..] == inner;
  }

  lemma DataInFront(b: seq<byte>, es: seq<Sexp>)
    ensures var ts := FlattenAll([Atom(b)] + es); ts == [Data(b)] + FlattenAll(es) && ts != [] && ts[0] == Data(b)
  {
    assert ([Atom(b)] + es)[1..] == es;
  }

  /** What the n-th element of an expression is: none of one that does not begin with a list, otherwise
      the element the walk ends in front of; a negative number stands for the first. */
  lemma NthIsElement(es: seq<Sexp>, number: int)
    ensures var i := if number < 0 then 0 else number;
            CopyOf(NthElement(FlattenAll(es), number), if es == [] || es[0].Atom? then None else ElementAt(es, i))
  {
    hide ElementFrom, SkipElements, ElementAt, CopyOf, StandsAt, FlattenAll;
    CopyOfNone();
    if es == [] {
      FlattenNothing([]);
    } else {
      assert es == [es[0]] + es[1..];
      match es[0] {
        case Atom(b) =>
          DataInFront(b, es[1..]);
        case List(kids) =>
          ListInFront(kids, es[1..]);
          var tail := SkipFromList(kids, es[1..], number);
          ElementIsCopied(SkipElements(FlattenAll(es)[1..], 0, number),
                          ElementAt(es, if number < 0 then 0 else number), tail);
      }
    }
  }

  lemma CopyOfNone()
    ensures CopyOf(None, None)
  {}

  /** The n-th element of the first list is its n-th child, whatever follows the list. */
  lemma NthIsChild(kids: seq<Sexp>, rest: seq<Sexp>, number: int)
    requires number < |kids|
    ensures var i := if number < 0 then 0 else number;
            i < |kids| ==> CopyOf(NthElement(FlattenAll([List(kids)] + rest), number), Some(kids[i]))
  {
    NthIsElement([List(kids)] + rest, number);
  }

  /** The bytes of the n-th element, when it is data. */
  lemma NthDataIsAtom(es: seq<Sexp>, number: int)
    ensures var i := if number < 0 then 0 else number;
            NthBytes(FlattenAll(es), number)
              == if es == [] then None
                 else match es[0]
                   case Atom(b) => if number == 0 then Some(b) else None
                   case List(_) =>
                     match ElementAt(es, i)
                     case Some(Atom(b)) => Some(b)
                     case _ => None
  {
    hide BytesFrom, SkipElements, ElementAt, StandsAt, FlattenAll;
    BytesOfFront(es);
    if es == [] {
      FlattenNothing([]);
    } else {
      assert es == [es[0]] + es[1..];
      match es[0] {
        case Atom(b) =>
          DataInFront(b, es[1..]);
        case List(kids) =>
          ListInFront(kids, es[1..]);
          var tail := SkipFromList(kids, es[1..], number);
          DataIsRead(SkipElements(FlattenAll(es)[1..], 0, number),
                     ElementAt(es, if number < 0 then 0 else number), tail);
      }
    }
  }

  lemma BytesOfFront(es: seq<Sexp>)
    ensures BytesFrom(None) == None
    ensures BytesFrom(Some(FlattenAll(es))) == if es == [] || es[0].List? then None else Some(es[0].bytes)
  {
    if es != [] {
      assert es == [es[0]] + es[1..];
      match es[0] {
        case Atom(b) => DataInFront(b, es[1..]);
        case List(kids) => ListInFront(kids, es[1..]);
      }
    }
  }

  lemma DataIsRead(r: Option<seq<Token>>, e: Option<Sexp>, tail: seq<Token>)
    requires StandsAt(r, e, tail)
    ensures BytesFrom(r) == match e case Some(Atom(b)) => Some(b) case _ => None
  {}

  /** Beyond the end of the first list there is nothing, exactly when no list behind it has a second
      element: the walk runs on into those lists. */
  lemma NothingBeyondTheEnd(kids: seq<Sexp>, rest: seq<Sexp>)
    ensures (forall i: nat :: i >= |kids| ==> ElementAt([List(kids)] + rest, i) == None)
       <==> forall k :: 0 <= k < |rest| && rest[k].List? ==> |rest[k].kids| <= 1
  {
    var es := [List(kids)] + rest;
    assert es[1..] == rest;
    if k :| 0 <= k < |rest| && rest[k].List? && |rest[k].kids| > 1 {
      var j := ReachesList(rest, k);
      assert ElementAt(es, |kids| + j) == ElementAt(rest, j);
    } else {
      forall i: nat | i >= |kids| ensures ElementAt(es, i) == None {
        if i > |kids| {
          ShortListsHideAll(rest, i - |kids|);
        }
      }
    }
  }

  lemma {:induction false} ReachesList(es: seq<Sexp>, k: nat) returns (j: nat)
    requires k < |es| && es[k].List? && |es[k].kids| > 1
    ensures j > 0 && ElementAt(es, j).Some?
  {
    if es[0].List? && |es[0].kids| > 1 {
      j := 1;
    } else {
      j := ReachesList(es[1..], k - 1);
      if es[0].List? {
        j := j + |es[0].kids|;
      }
    }
  }

  lemma {:induction false} ShortListsHideAll(es: seq<Sexp>, i: nat)
    requires i > 0 && forall k :: 0 <= k < |es| && es[k].List? ==> |es[k].kids| <= 1
    ensures ElementAt(es, i) == None
  {
    if es != [] {
      match es[0] {
        case Atom(_) => ShortListsHideAll(es[1..], i);
        case List(kids) =>
          if i > |kids| {
            ShortListsHideAll(es[1..], i - |kids|);
          }
      }
    }
  }

  /** The two expressions (a)(b c): three elements in all, and the walk beyond the end of the first list
      finds the last of them. */
  lemma WalkRunsOn(a: seq<byte>, b: seq<byte>, c: seq<byte>)
    ensures var es := [List([Atom(a)]), List([Atom(b), Atom(c)])];
            && LengthFrom(FlattenAll(es), 0) == 3
            && NthBytes(FlattenAll(es), 1) == None && NthBytes(FlattenAll(es), 2) == Some(c)
  {
    hide LengthFrom, NthBytes;
    var es := [List([Atom(a)]), List([Atom(b), Atom(c)])];
    LengthIsCount(es);
    NthDataIsAtom(es, 1);
    NthDataIsAtom(es, 2);
    assert es[1..] == [List([Atom(b), Atom(c)])] && es[1..][1..] == [];
    assert ElementCount(es[1..]) == 2 + ElementCount(es[1..][1..]);
    assert ElementCount(es) == 1 + ElementCount(es[1..]);
    assert ElementAt(es[1..], 1) == Some(Atom(c));
  }

  // ---- finding a sublist by its head ----

  /** The tokens from the first list on whose head is the data `tok`. */
  function FindHead(ts: seq<Token>, tok: seq<byte>): Option<seq<Token>>
    decreases |ts|
  {
    if ts == [] then None
    else if ts[0] == Open && |ts| > 1 && ts[1].Data? then
      if ts[1].bytes == tok then Some(ts) else FindHead(ts[2..], tok)
    else FindHead(ts[1..], tok)
  }

  /** The first sublist of a tree, in preorder, whose head is `tok`. */
  function FindIn(e: Sexp, tok: seq<byte>): Option<Sexp> {
    match e
    case Atom(_) => None
    case List(kids) => if kids != [] && kids[0] == Atom(tok) then Some(e) else FindAmong(kids, tok)
  }

  function FindAmong(es: seq<Sexp>, tok: seq<byte>): Option<Sexp> {
    if es == [] then None
    else
      var first := FindIn(es[0], tok);
      if first.Some? then first else FindAmong(es[1..], tok)
  }

  function FindToken(ts: seq<Token>, tok: seq<byte>): Option<seq<byte>> {
    FindHeadIsOpen(ts, tok);
    var r := FindHead(ts, tok);
    if r.None? || AfterLists(r.value[1..], 1).None? then None else CopyList(r.value)
  }

  lemma {:induction false} FindHeadIsOpen(ts: seq<Token>, tok: seq<byte>)
    ensures FindHead(ts, tok).Some? ==>
              FindHead(ts, tok).value != [] && FindHead(ts, tok).value[0] == Open
    decreases |ts|
  {
    if ts != [] {
      FindHeadIsOpen(ts[1..], tok);
      if |ts| > 1 {
        FindHeadIsOpen(ts[2..], tok);
      }
    }
  }

  /** The bytes of a C string, in front of its NUL. */
  function CString(m: seq<byte>): seq<byte> {
    if m == [] || m[0] == 0 then [] else [m[0]] + CString(m[1..])
  }

  /** The token a caller names: a length of 0 stands for the length of the C string. */
  function Named(name: seq<byte>, length: nat): seq<byte>
    requires length <= |name|
  {
    if length == 0 then CString(name) else name[..length]
  }

  method StringLength(m: seq<byte>) returns (n: nat)
    requires 0 in m
    ensures n < |m| && m[..n] == CString(m)
  {
    hide CString;
    n := 0;
    while n < |m| && m[n] != 0
      invariant n <= |m| && forall k :: 0 <= k < n ==> m[k] != 0
    {
      n := n + 1;
    }
    CStringEnds(m, n);
  }

  lemma {:induction false} CStringEnds(m: seq<byte>, n: nat)
    requires n < |m| && m[n] == 0 && forall k :: 0 <= k < n ==> m[k] != 0
    ensures m[..n] == CString(m)
  {
    if n > 0 {
      CStringEnds(m[1..], n - 1);
      assert m[..n] == [m[0]] + m[1..][..n - 1];
    }
  }

  method Find(d: seq<byte>, name: seq<byte>, length: nat, ghost ts: seq<Token>) returns (r: Option<seq<byte>>)
    requires At(d, 0, ts) && Balanced(ts, 0) && length <= |name| && (length == 0 ==> 0 in name)
    ensures r == FindToken(ts, Named(name, length))
    ensures length > 0 ==> r == FindToken(ts, name[..length])
    ensures forall k | 0 <= k < |name| && length == 0 && name[k] == 0 && 0 !in name[..k] ::
              r == FindToken(ts, name[..k])
  {
    hide At, Balanced, FindToken, CString;
    var n := length;
    if n == 0 {
      n := StringLength(name);
    }
    r := FindBytes(d, name[..n], ts);
    forall k | 0 <= k < |name| && length == 0 && name[k] == 0 && 0 !in name[..k] ensures r == FindToken(ts, name[..k]) {
      assert forall j :: 0 <= j < k ==> name[j] == name[..k][j];
      CStringEnds(name, k);
    }
  }

  method FindBytes(d: seq<byte>, tok: seq<byte>, ghost ts: seq<Token>) returns (r: Option<seq<byte>>)
    requires At(d, 0, ts) && Balanced(ts, 0)
    ensures r == FindToken(ts, tok)
  {
    hide Value, At, CopyList;
    var p: nat := 0;
    ghost var rest, depth := ts, 0;
    TagAt(d, p, rest);
    AtInside(d, p, rest);
    while d[p] != ST_STOP
      invariant p < |d| && At(d, p, rest) && Balanced(rest, depth)
      invariant FindHead(ts, tok) == FindHead(rest, tok)
      decreases |rest|
    {
      TagAt(d, p, rest);
      ghost var t := rest[0];
      if d[p] == ST_OPEN {
        TagAt(d, p + 1, rest[1..]);
        AtInside(d, p + 1, rest[1..]);
        if d[p + 1] == ST_DATA {
          var n := Datalen(d[p + 2..]);
          assert rest[1..][0] == rest[1] && rest[1..][1..] == rest[2..];
          assert d[p + 1 + 3..p + 1 + 3 + n] == rest[1].bytes;
          if n == |tok| && d[p + 4..p + 4 + n] == tok {
            BalancedHasEnd(rest[1..], depth + 1, 1);
            r := CopyOut(d, p, rest);
            return;
          }
          p := p + 4 + n;
          depth := DepthAfter(rest[1], DepthAfter(t, depth));
          rest := rest[2..];
        } else {
          p := p + 1;
          depth := DepthAfter(t, depth);
          rest := rest[1..];
        }
      } else if d[p] == ST_DATA {
        p := p + 3 + Datalen(d[p + 1..]);
        rest := rest[1..];
      } else {
        p := p + 1;
        depth := DepthAfter(t, depth);
        rest := rest[1..];
      }
      AtInside(d, p, rest);
    }
    TagAt(d, p, rest);
    r := None;
  }

  lemma {:induction false} FindHeadInTree(e: Sexp, ts: seq<Token>, tok: seq<byte>) returns (more: seq<Token>)
    ensures match FindIn(e, tok)
            case None => FindHead(Flatten(e) + ts, tok) == FindHead(ts, tok)
            case Some(x) => x.List? && x.kids != [] && FindHead(Flatten(e) + ts, tok) == Some(Flatten(x) + more)
    decreases e, 2
  {
    more := [];
    match e {
      case Atom(b) =>
        assert ([Data(b)] + ts)[1..] == ts;
      case List(kids) =>
        if kids != [] && kids[0].Atom? {
          more := FindHeadOfNamed(kids, ts, tok);
        } else {
          more := FindHeadOfUnnamed(kids, ts, tok);
        }
    }
  }

  /** A list whose first element is data: found itself, or searched behind that element. */
  lemma FindHeadOfNamed(kids: seq<Sexp>, ts: seq<Token>, tok: seq<byte>) returns (more: seq<Token>)
    requires kids != [] && kids[0].Atom?
    ensures match FindIn(List(kids), tok)
            case None => FindHead(Flatten(List(kids)) + ts, tok) == FindHead(ts, tok)
            case Some(x) =>
              x.List? && x.kids != [] && FindHead(Flatten(List(kids)) + ts, tok) == Some(Flatten(x) + more)
    decreases kids, 1
  {
    hide FindHead, FlattenAll;
    var all, tail := Flatten(List(kids)) + ts, FlattenAll(kids[1..]) + ([Close] + ts);
    assert kids == [kids[0]] + kids[1..];
    TreeInFront(kids[0], kids[1..], [Close] + ts);
    assert all == [Open] + (FlattenAll(kids) + ([Close] + ts));
    assert all == [Open, Data(kids[0].bytes)] + tail;
    assert all[1] == Data(kids[0].bytes) && all[2..] == tail;
    FindHeadSteps(all, tok);
    if kids[0].bytes == tok {
      more := ts;
    } else {
      assert FindAmong(kids, tok) == FindAmong(kids[1..], tok);
      more := FindHeadInTrees(kids[1..], [Close] + ts, tok);
      FindHeadBehindClose(ts, tok);
    }
  }

  lemma FindHeadOfUnnamed(kids: seq<Sexp>, ts: seq<Token>, tok: seq<byte>) returns (more: seq<Token>)
    requires kids == [] || kids[0].List?
    ensures match FindIn(List(kids), tok)
            case None => FindHead(Flatten(List(kids)) + ts, tok) == FindHead(ts, tok)
            case Some(x) =>
              x.List? && x.kids != [] && FindHead(Flatten(List(kids)) + ts, tok) == Some(Flatten(x) + more)
    decreases kids, 1
  {
    hide FindHead;
    var all, inner := Flatten(List(kids)) + ts, FlattenAll(kids) + ([Close] + ts);
    assert all == [Open] + inner && all[1..] == inner;
    if kids != [] {
      FirstOfTree(kids[0]);
      assert all[1] == Flatten(kids[0])[0] == Open;
    } else {
      assert all[1] == Close;
    }
    FindHeadSteps(all, tok);
    more := FindHeadInTrees(kids, [Close] + ts, tok);
    FindHeadBehindClose(ts, tok);
  }

  lemma FindHeadSteps(ts: seq<Token>, tok: seq<byte>)
    requires ts != []
    ensures FindHead(ts, tok)
         == if ts[0] == Open && |ts| > 1 && ts[1].Data? then
              if ts[1].bytes == tok then Some(ts) else FindHead(ts[2..], tok)
            else FindHead(ts[1..], tok)
  {}

  lemma FindHeadBehindClose(ts: seq<Token>, tok: seq<byte>)
    ensures FindHead([Close] + ts, tok) == FindHead(ts, tok)
  {
    assert ([Close] + ts)[1..] == ts;
  }

  lemma {:induction false} FindHeadInTrees(es: seq<Sexp>, ts: seq<Token>, tok: seq<byte>) returns (more: seq<Token>)
    ensures match FindAmong(es, tok)
            case None => FindHead(FlattenAll(es) + ts, tok) == FindHead(ts, tok)
            case Some(x) => x.List? && x.kids != [] && FindHead(FlattenAll(es) + ts, tok) == Some(Flatten(x) + more)
    decreases es, 0
  {
    if es == [] {
      assert FlattenAll(es) + ts == ts;
      more := [];
    } else {
      var tail := FlattenAll(es[1..]) + ts;
      assert FlattenAll(es) + ts == Flatten(es[0]) + tail;
      more := FindHeadInTree(es[0], tail, tok);
      if FindIn(es[0], tok).None? {
        more := FindHeadInTrees(es[1..], ts, tok);
      }
    }
  }

  /** find_token: the first sublist, in preorder over all the trees, whose head is the token; a copy
      of it exactly when its encoding fits 16 bits. Data that looks like tags never confuses it. */
  lemma FindTokenIsPreorder(es: seq<Sexp>, tok: seq<byte>)
    ensures var r := FindToken(FlattenAll(es), tok);
            match FindAmong(es, tok)
            case None => r == None
            case Some(x) =>
              && x.List? && x.kids != []
              && (r == Some(Stored(Flatten(x))) <==> |Encode(Flatten(x))| <= DATALEN_MAX)
  {
    hide Encode, CopyList, FindHead;
    var more := FindHeadInTrees(es, [], tok);
    assert FlattenAll(es) + [] == FlattenAll(es);
    FindHeadOfNothing(tok);
    if FindAmong(es, tok).Some? {
      CopyListIsList(FindAmong(es, tok).value.kids, more);
    }
  }

  lemma FindHeadOfNothing(tok: seq<byte>)
    ensures FindHead([], tok) == None
  {}
}
