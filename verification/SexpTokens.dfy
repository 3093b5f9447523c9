/** S-expressions in the three shapes the library has them: a flat buffer of tagged items, the
    tokens the buffer stands for, and the trees the tokens flatten. */
module SexpTokens {
  import opened Bytes

  const ST_STOP: byte := 0
  const ST_DATA: byte := 1
  const ST_OPEN: byte := 3
  const ST_CLOSE: byte := 4

  /** A stored length is an unsigned short. */
  const DATALEN_MAX: nat := 65535

  datatype Token = Open | Close | Data(bytes: seq<byte>)

  datatype Sexp = Atom(bytes: seq<byte>) | List(kids: seq<Sexp>)

  /** One item as stored: a tag, and for data the low 16 bits of the length and the bytes. */
  function EncodeOne(t: Token): (r: seq<byte>)
    ensures |r| > 0
  {
    match t
    case Open => [ST_OPEN]
    case Close => [ST_CLOSE]
    case Data(b) => [ST_DATA] + Octets(|b|, 2) + b
  }

  function Encode(ts: seq<Token>): seq<byte> {
    if ts == [] then [] else EncodeOne(ts[0]) + Encode(ts[1..])
  }

  /** The buffer of a whole expression ends in the stop tag. */
  function Stored(ts: seq<Token>): seq<byte> {
    Encode(ts) + [ST_STOP]
  }

  predicate FitsOne(t: Token) {
    t.Data? ==> |t.bytes| <= DATALEN_MAX
  }

  /** Every data item is short enough for its length field. */
  predicate Storable(ts: seq<Token>) {
    forall i :: 0 <= i < |ts| ==> FitsOne(ts[i])
  }

  predicate NoEmptyData(ts: seq<Token>) {
    forall i :: 0 <= i < |ts| ==> ts[i] != Data([])
  }

  /** Every closing tag has its opening tag, `level` of them in front of `ts`, and none is left. */
  predicate Balanced(ts: seq<Token>, level: nat) {
    if ts == [] then level == 0
    else match ts[0]
      case Open => Balanced(ts[1..], level + 1)
      case Close => level > 0 && Balanced(ts[1..], level - 1)
      case Data(_) => Balanced(ts[1..], level)
  }

  function Flatten(e: Sexp): seq<Token> {
    match e
    case Atom(b) => [Data(b)]
    case List(kids) => [Open] + FlattenAll(kids) + [Close]
  }

  function FlattenAll(es: seq<Sexp>): seq<Token> {
    if es == [] then [] else Flatten(es[0]) + FlattenAll(es[1..])
  }

  // ---- reading a buffer back ----

  /** The 16-bit length field in memory order. */
  function Datalen(d: seq<byte>): nat
    requires |d| >= 2
  {
    Value(d[..2])
  }

  /** The tokens in front of the first stop tag; none for a buffer that is cut or has other tags. */
  function Decode(d: seq<byte>): Option<seq<Token>> {
    if d == [] then None
    else if d[0] == ST_STOP then Some([])
    else if d[0] == ST_OPEN then Before(Open, Decode(d[1..]))
    else if d[0] == ST_CLOSE then Before(Close, Decode(d[1..]))
    else if d[0] == ST_DATA && |d| >= 3 && 3 + Datalen(d[1..]) <= |d| then
      Before(Data(d[3..3 + Datalen(d[1..])]), Decode(d[3 + Datalen(d[1..])..]))
    else None
  }

  function Before(t: Token, ts: Option<seq<Token>>): Option<seq<Token>> {
    match ts
    case None => None
    case Some(s) => Some([t] + s)
  }

  lemma LengthField(n: nat)
    ensures Value(Octets(n, 2)) == n % 65536
  {
    assert Octets(n, 2) == [n % 256] + Octets(n / 256, 1);
    assert Octets(n / 256, 1) == [n / 256 % 256] + Octets(n / 256 / 256, 0);
    var d := Octets(n, 2);
    assert d[1..] == [n / 256 % 256];
    assert d[1..][1..] == [];
    assert Value(d[1..]) == n / 256 % 256 + 256 * Value(d[1..][1..]);
  }

  lemma LengthBytes(d: seq<byte>)
    requires |d| == 2
    ensures Value(d) == d[0] as nat + 256 * d[1] as nat
  {
    assert d[1..][1..] == [];
    assert Value(d[1..]) == d[1] as nat + 256 * Value(d[1..][1..]);
  }

  /** How a stored item is laid out, for a walk that stands in front of it. */
  lemma ItemLayout(t: Token, rest: seq<byte>)
    ensures var d := EncodeOne(t) + rest;
            match t
            case Open => d[0] == ST_OPEN == 3 && d[1..] == rest
            case Close => d[0] == ST_CLOSE == 4 && d[1..] == rest
            case Data(b) =>
              && |d| == 3 + |b| + |rest| && d[0] == ST_DATA == 1 && Datalen(d[1..]) == |b| % 65536
              && d[1] as nat + 256 * d[2] as nat == |b| % 65536
              && d[3..3 + |b|] == b && d[3 + |b|..] == rest
  {
    hide Octets, Value;
    var d := EncodeOne(t) + rest;
    match t {
      case Open =>
      case Close =>
      case Data(b) =>
        assert d == [ST_DATA] + (Octets(|b|, 2) + (b + rest));
        assert d[1..] == Octets(|b|, 2) + (b + rest);
        assert d[1..][..2] == Octets(|b|, 2);
        LengthField(|b|);
        LengthBytes(Octets(|b|, 2));
        assert d[3..] == b + rest;
    }
  }

  lemma EncodeStep(t: Token, ts: seq<Token>)
    ensures Encode([t] + ts) == EncodeOne(t) + Encode(ts)
    ensures Stored([t] + ts) == EncodeOne(t) + Stored(ts)
  {
    assert ([t] + ts)[1..] == ts;
  }

  lemma {:induction false} EncodeConcat(a: seq<Token>, b: seq<Token>)
    ensures Encode(a + b) == Encode(a) + Encode(b)
  {
    if a == [] {
      assert a + b == b;
    } else {
      assert (a + b)[1..] == a[1..] + b;
      EncodeConcat(a[1..], b);
    }
  }

  /** A buffer reads back as the tokens it was written from exactly when every data item fits its
      length field: the field keeps 16 bits, whatever was stored behind it. */
  lemma {:induction false} StoredReadsBack(ts: seq<Token>)
    ensures Decode(Stored(ts)) == Some(ts) <==> Storable(ts)
    decreases |ts|
  {
    hide EncodeOne, Stored;
    if ts == [] {
      NothingStored();
    } else {
      var rest := ts[1..];
      assert ts == [ts[0]] + rest;
      EncodeStep(ts[0], rest);
      StoredReadsBack(rest);
      assert Storable(ts) <==> FitsOne(ts[0]) && Storable(rest);
      ItemReadsBack(ts[0], Stored(rest));
    }
  }

  lemma NothingStored()
    ensures Decode(Stored([])) == Some([])
  {}

  /** The item in front reads back when it fits; when it does not, another one does. */
  lemma ItemReadsBack(t: Token, rest: seq<byte>)
    ensures FitsOne(t) ==> Decode(EncodeOne(t) + rest) == Before(t, Decode(rest))
    ensures !FitsOne(t) ==>
              var r := Decode(EncodeOne(t) + rest);
              r.Some? ==> r.value != [] && r.value[0] != t
  {
    hide EncodeOne;
    ItemLayout(t, rest);
    if !FitsOne(t) {
      var d, n := EncodeOne(t) + rest, |t.bytes| % 65536;
      assert Decode(d) == Before(Data(d[3..3 + n]), Decode(d[3 + n..]));
    }
  }

  // ---- tokens and trees ----

  lemma BalancedStep(t: Token, ts: seq<Token>, level: nat)
    ensures Balanced([t] + ts, level) <==>
              (match t
               case Open => Balanced(ts, level + 1)
               case Close => level > 0 && Balanced(ts, level - 1)
               case Data(_) => Balanced(ts, level))
  {
    assert ([t] + ts)[1..] == ts;
  }

  /** The tokens of a tree leave the nesting level as they found it. */
  lemma {:induction false} FlattenBalanced(e: Sexp, ts: seq<Token>, level: nat)
    ensures Balanced(Flatten(e) + ts, level) <==> Balanced(ts, level)
    decreases e, 1
  {
    match e {
      case Atom(b) =>
        BalancedStep(Data(b), ts, level);
      case List(kids) =>
        assert Flatten(e) + ts == [Open] + (FlattenAll(kids) + ([Close] + ts));
        BalancedStep(Open, FlattenAll(kids) + ([Close] + ts), level);
        FlattenAllBalanced(kids, [Close] + ts, level + 1);
        BalancedStep(Close, ts, level + 1);
    }
  }

  lemma {:induction false} FlattenAllBalanced(es: seq<Sexp>, ts: seq<Token>, level: nat)
    ensures Balanced(FlattenAll(es) + ts, level) <==> Balanced(ts, level)
    decreases es, 0
  {
    if es == [] {
      assert FlattenAll(es) + ts == ts;
    } else {
      assert FlattenAll(es) + ts == Flatten(es[0]) + (FlattenAll(es[1..]) + ts);
      FlattenBalanced(es[0], FlattenAll(es[1..]) + ts, level);
      FlattenAllBalanced(es[1..], ts, level);
    }
  }

  /** The trees in front of the first unmatched closing tag, and what is left from that tag on. */
  function Parse(ts: seq<Token>): (r: (seq<Sexp>, seq<Token>))
    ensures |r.1| <= |ts|
    decreases |ts|
  {
    if ts == [] || ts[0] == Close then ([], ts)
    else match ts[0]
      case Data(b) =>
        var (es, rest) := Parse(ts[1..]);
        ([Atom(b)] + es, rest)
      case Open =>
        var (kids, rest) := Parse(ts[1..]);
        if rest == [] then ([List(kids)], [])
        else
          var (es, rest') := Parse(rest[1..]);
          ([List(kids)] + es, rest')
  }

  lemma FlattenNothing(ts: seq<Token>)
    ensures FlattenAll([]) + ts == ts
  {}

  lemma TreeInFront(e: Sexp, es: seq<Sexp>, rest: seq<Token>)
    ensures FlattenAll([e] + es) + rest == Flatten(e) + (FlattenAll(es) + rest)
  {
    assert ([e] + es)[1..] == es;
  }

  lemma {:induction false} ParseFlattens(ts: seq<Token>, level: nat)
    requires Balanced(ts, level)
    ensures var (es, rest) := Parse(ts);
            && ts == FlattenAll(es) + rest
            && (if level == 0 then rest == []
                else rest != [] && rest[0] == Close && Balanced(rest[1..], level - 1))
    decreases |ts|
  {
    hide FlattenAll, Flatten, Balanced;
    if ts == [] || ts[0] == Close {
      FlattenNothing(ts);
      BalancedFront(ts, level);
    } else {
      var tail := ts[1..];
      assert ts == [ts[0]] + tail;
      BalancedFront(ts, level);
      match ts[0] {
        case Data(b) =>
          ParseFlattens(tail, level);
          DataSpelt(b, Parse(tail).0, Parse(tail).1);
        case Open =>
          ParseFlattens(tail, level + 1);
          var (kids, rest) := Parse(tail);
          ParseFlattens(rest[1..], level);
          ListSpelt(kids, rest, Parse(rest[1..]).0, Parse(rest[1..]).1);
      }
    }
  }

  lemma DataSpelt(b: seq<byte>, es: seq<Sexp>, rest: seq<Token>)
    ensures [Data(b)] + (FlattenAll(es) + rest) == FlattenAll([Atom(b)] + es) + rest
  {
    hide FlattenAll;
    TreeInFront(Atom(b), es, rest);
  }

  /** An opening tag, trees, a closing tag and what follows: a list in front of more trees. */
  lemma ListSpelt(kids: seq<Sexp>, rest: seq<Token>, es: seq<Sexp>, rest': seq<Token>)
    requires rest != [] && rest[0] == Close && rest[1..] == FlattenAll(es) + rest'
    ensures [Open] + (FlattenAll(kids) + rest) == FlattenAll([List(kids)] + es) + rest'
  {
    hide FlattenAll;
    TreeInFront(List(kids), es, rest');
    var behind := FlattenAll(es) + rest';
    assert rest == [Close] + behind;
    FourParts([Open], FlattenAll(kids), [Close], behind);
  }

  lemma FourParts(a: seq<Token>, b: seq<Token>, c: seq<Token>, d: seq<Token>)
    ensures a + (b + (c + d)) == a + b + c + d
  {}

  lemma BalancedFront(ts: seq<Token>, level: nat)
    requires Balanced(ts, level)
    ensures ts == [] ==> level == 0
    ensures ts != [] ==>
              match ts[0]
              case Open => Balanced(ts[1..], level + 1)
              case Close => level > 0 && Balanced(ts[1..], level - 1)
              case Data(_) => Balanced(ts[1..], level)
  {}

  /** Balanced token sequences are exactly the flattenings of lists of trees. */
  lemma BalancedIffTrees(ts: seq<Token>)
    ensures Balanced(ts, 0) <==> exists es :: FlattenAll(es) == ts
  {
    if Balanced(ts, 0) {
      ParseFlattens(ts, 0);
      assert FlattenAll(Parse(ts).0) == ts;
    }
    forall es | FlattenAll(es) == ts
      ensures Balanced(ts, 0)
    {
      FlattenAllBalanced(es, [], 0);
      assert ts + [] == ts;
    }
  }
}
