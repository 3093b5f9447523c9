/** The growing buffer the scanner fills. Every store is an array store, so that each lies inside
    the allocated size is part of what is verified here. */
module SexpBuffer {
  import opened Bytes
  import opened SexpTokens
  import opened SexpChars
  import opened SexpScan

  class Buffer {
    var data: array<byte>
    var pos: nat

    ghost predicate Valid()
      reads this
    {
      pos <= data.Length
    }

    /** What has been stored. */
    ghost function Used(): seq<byte>
      requires Valid()
      reads this, data
    {
      data[..pos]
    }

    /** Room for a text of `length` bytes and one length field. */
    constructor (length: nat)
      ensures Valid() && Used() == [] && fresh(data)
    {
      data := new byte[length + 2];
      pos := 0;
    }

    /** Room for a tag, a length field and `n` bytes, and one byte to spare. */
    method MakeSpace(n: nat)
      requires Valid()
      modifies this`data
      ensures Valid() && Used() == old(Used())
      ensures pos + n + 3 < data.Length && (data == old(data) || fresh(data))
    {
      if pos + n + 3 >= data.Length {
        var grown := new byte[data.Length + 2 * (n + 3)];
        var k := 0;
        while k < pos
          invariant k <= pos && grown[..k] == data[..k]
          modifies grown
        {
          grown[k] := data[k];
          k := k + 1;
        }
        data := grown;
      }
    }

    method PutByte(b: byte)
      requires Valid() && pos < data.Length
      modifies this`pos, data
      ensures Valid() && pos == old(pos) + 1 && Used() == old(Used()) + [b]
    {
      data[pos] := b;
      pos := pos + 1;
    }

    method PutBytes(d: seq<byte>)
      requires Valid() && pos + |d| <= data.Length
      modifies this`pos, data
      ensures Valid() && pos == old(pos) + |d| && Used() == old(Used()) + d
    {
      var k := 0;
      while k < |d|
        invariant k <= |d| && pos == old(pos) + k && Valid()
        invariant Used() == old(Used()) + d[..k]
      {
        PutByte(d[k]);
        k := k + 1;
      }
    }

    /** Store the low 16 bits of a length. */
    method PutLength(n: nat)
      requires Valid() && pos + 2 <= data.Length
      modifies this`pos, data
      ensures Valid() && pos == old(pos) + 2 && Used() == old(Used()) + Octets(n, 2)
    {
      TwoOctets(n);
      PutByte(n % 256);
      PutByte(n / 256 % 256);
    }

    method PutTag(t: Token)
      requires Valid() && !t.Data?
      modifies this, data
      ensures Valid() && (data == old(data) || fresh(data))
      ensures Used() == old(Used()) + EncodeOne(t)
    {
      MakeSpace(0);
      PutByte(if t == Open then ST_OPEN else ST_CLOSE);
    }

    method PutStop()
      requires Valid()
      modifies this, data
      ensures Valid() && (data == old(data) || fresh(data))
      ensures Used() == old(Used()) + [ST_STOP]
    {
      MakeSpace(0);
      PutByte(ST_STOP);
    }

    method PutData(d: seq<byte>)
      requires Valid()
      modifies this, data
      ensures Valid() && (data == old(data) || fresh(data))
      ensures Used() == old(Used()) + EncodeOne(Data(d))
    {
      hide Octets, EncodeOne;
      MakeSpace(|d|);
      PutByte(ST_DATA);
      PutLength(|d|);
      PutBytes(d);
      DataEncoding(old(Used()), d);
    }

    /** Fill in the two bytes that were left for a length. */
    method PatchLength(save: nat, n: nat)
      requires Valid() && save + 2 <= pos
      modifies data
      ensures Used() == old(Used())[..save] + Octets(n, 2) + old(Used())[save + 2..]
    {
      hide Octets;
      data[save], data[save + 1] := n % 256, n / 256 % 256;
      TwoOctets(n);
    }

    /** Store a quoted string, `s` being what stands between its quotes: the length is filled in
        once the escapes are resolved. */
    method PutQuoted(s: seq<byte>)
      requires Valid()
      modifies this, data
      ensures Valid() && (data == old(data) || fresh(data))
      ensures Used() == old(Used()) + EncodeOne(Data(Unquote(s)))
    {
      hide Octets, Unquote, EncodeOne;
      MakeSpace(|s|);
      PutByte(ST_DATA);
      var save := pos;
      PutLength(0);
      PutUnquoted(s);
      var length: nat := pos - save - 2;
      ghost var was := Used();
      PatchLength(save, length);
      LengthFilledIn(old(Used()), Unquote(s), was, Used());
    }

    /** What an escape denotes: a byte, or nothing. */
    method PutEscape(t: seq<byte>)
      requires Valid() && t != [] && pos < data.Length
      modifies this`pos, data
      ensures Valid() && Used() == old(Used()) + Unescape(t) && old(pos) <= pos <= old(pos) + 1
    {
      var d := Unescape(t);
      if d != [] {
        assert d == [d[0]];
        PutByte(d[0]);
      }
    }

    method PutUnquoted(s: seq<byte>)
      requires Valid() && pos + |s| <= data.Length
      modifies this`pos, data
      ensures Valid() && Used() == old(Used()) + Unquote(s)
    {
      hide Unquote, Unescape, UnescapeLen;
      var esc := false;
      var i := 0;
      ghost var out: seq<byte> := [];
      assert s[0..] == s;
      while i < |s|
        invariant i <= |s| && Valid() && pos <= old(pos) + i
        invariant Used() == old(Used()) + out && out + UnquoteFrom(s[i..], esc) == Unquote(s)
      {
        UnquoteSteps(s[i..]);
        ghost var was, toGo := out, UnquoteFrom(s[i..], esc);
        if esc {
          var n := UnescapeLen(s[i..]);
          assert s[i..][n..] == s[i + n..];
          PutEscape(s[i..]);
          out := was + Unescape(s[i..]);
          Reassociate(was, Unescape(s[i..]), Unquote(s[i + n..]), toGo);
          i := i + n;
          esc := false;
        } else if s[i] == BACKSLASH {
          assert s[i..][1..] == s[i + 1..];
          esc := true;
          i := i + 1;
        } else {
          assert s[i..][1..] == s[i + 1..];
          PutByte(s[i]);
          out := was + [s[i]];
          Reassociate(was, [s[i]], Unquote(s[i + 1..]), toGo);
          i := i + 1;
        }
      }
      UnquoteSteps([]);
      assert s[i..] == [];
    }

    /** Store a hex string of `count` digits, `s` being what stands between its hashes. */
    method PutHex(s: seq<byte>, count: nat)
      requires Valid() && |Nibbles(s)| == count && count % 2 == 0
      modifies this, data
      ensures Valid() && (data == old(data) || fresh(data))
      ensures Used() == old(Used()) + EncodeOne(Data(HexBytes(s)))
    {
      hide Octets, HexBytes, Nibbles, EncodeOne;
      MakeSpace(count / 2);
      PairCount(s);
      PutByte(ST_DATA);
      PutLength(count / 2);
      PutHexBytes(s);
      DataEncoding(old(Used()), HexBytes(s));
    }

    method PutHexBytes(s: seq<byte>)
      requires Valid() && |Nibbles(s)| % 2 == 0 && pos + |Nibbles(s)| / 2 <= data.Length
      modifies this`pos, data
      ensures Valid() && Used() == old(Used()) + HexBytes(s)
    {
      hide Nibbles, HexBytes, HexValue;
      ghost var out: seq<byte> := [];
      var i := 0;
      assert s[0..] == s;
      while i < |s|
        invariant i <= |s| && Valid() && Used() == old(Used()) + out
        invariant |Nibbles(s[i..])| % 2 == 0 && pos + |Nibbles(s[i..])| / 2 <= data.Length
        invariant out + HexBytes(s[i..]) == HexBytes(s)
      {
        NibbleSteps(s[i..]);
        assert s[i..][1..] == s[i + 1..];
        if IsWhite(s[i]) {
          i := i + 1;
        } else {
          var j := SkipWhite(s, i + 1);
          ghost var k := PairAt(s, i, j);
          var b := HexValue(s[i]) * 16 + HexValue(s[j]);
          PutByte(b);
          Reassociate(out, [b], HexBytes(s[j + 1..]), HexBytes(s[i..]));
          out := out + [b];
          i := j + 1;
        }
      }
      NibbleSteps([]);
      assert s[i..] == [];
    }
  }

  /** The two digits of one byte, with white space between them. */
  lemma PairAt(s: seq<byte>, i: nat, j: nat) returns (b: byte)
    requires i < j <= |s| && !IsWhite(s[i]) && (j < |s| ==> !IsWhite(s[j]))
    requires Nibbles(s[j..]) == Nibbles(s[i + 1..]) && |Nibbles(s[i..])| % 2 == 0
    ensures j < |s| && b == HexValue(s[i]) * 16 + HexValue(s[j])
    ensures HexBytes(s[i..]) == [b] + HexBytes(s[j + 1..])
    ensures |Nibbles(s[i..])| == 2 + |Nibbles(s[j + 1..])|
  {
    hide HexBytes, HexValue, Nibbles;
    assert s[i..][1..] == s[i + 1..];
    NibbleSteps(s[i..]);
    NibbleSteps(s[j..]);
    assert s[j..][1..] == s[j + 1..];
    PairStep(s[i..], s[j..]);
    b := HexValue(s[i]) * 16 + HexValue(s[j]);
  }

  method SkipWhite(s: seq<byte>, i: nat) returns (j: nat)
    requires i <= |s|
    ensures i <= j <= |s| && (j < |s| ==> !IsWhite(s[j]))
    ensures Nibbles(s[j..]) == Nibbles(s[i..])
  {
    hide Nibbles;
    j := i;
    while j < |s| && IsWhite(s[j])
      invariant i <= j <= |s| && Nibbles(s[j..]) == Nibbles(s[i..])
    {
      NibbleSteps(s[j..]);
      assert s[j..][1..] == s[j + 1..];
      j := j + 1;
    }
  }

  lemma DataEncoding(used: seq<byte>, d: seq<byte>)
    ensures used + [ST_DATA] + Octets(|d|, 2) + d == used + EncodeOne(Data(d))
  {
    hide Octets, EncodeOne;
    DataIs(d);
    FourPieces(used, [ST_DATA], Octets(|d|, 2), d);
  }

  lemma DataIs(d: seq<byte>)
    ensures EncodeOne(Data(d)) == [ST_DATA] + Octets(|d|, 2) + d
  {
    hide Octets;
  }

  lemma FourPieces(a: seq<byte>, b: seq<byte>, c: seq<byte>, d: seq<byte>)
    ensures a + b + c + d == a + (b + c + d)
  {}

  lemma LengthFilledIn(used: seq<byte>, d: seq<byte>, was: seq<byte>, now: seq<byte>)
    requires was == used + [ST_DATA] + Octets(0, 2) + d
    requires now == was[..|used| + 1] + Octets(|d|, 2) + was[|used| + 3..]
    ensures now == used + EncodeOne(Data(d))
  {
    hide Octets, EncodeOne;
    assert was[..|used| + 1] == used + [ST_DATA] && was[|used| + 3..] == d;
    DataEncoding(used, d);
  }

  lemma Reassociate(a: seq<byte>, b: seq<byte>, c: seq<byte>, bc: seq<byte>)
    requires bc == b + c
    ensures a + b + c == a + bc
  {}

  lemma TwoOctets(n: nat)
    ensures Octets(n, 2) == [n % 256, n / 256 % 256]
  {
    assert Octets(n, 2) == [n % 256] + Octets(n / 256, 1);
    assert Octets(n / 256, 1) == [n / 256 % 256] + Octets(n / 256 / 256, 0);
  }

  /** What is left of a quoted string, `esc` behind a backslash. */
  function UnquoteFrom(s: seq<byte>, esc: bool): seq<byte> {
    if !esc then Unquote(s)
    else if s == [] then []
    else Unescape(s) + Unquote(s[UnescapeLen(s)..])
  }

  lemma UnquoteSteps(s: seq<byte>)
    ensures s == [] ==> Unquote(s) == []
    ensures s != [] ==> |Unescape(s)| <= 1
    ensures s != [] && s[0] == BACKSLASH ==> Unquote(s) == UnquoteFrom(s[1..], true)
    ensures s != [] && s[0] != BACKSLASH ==> Unquote(s) == [s[0]] + Unquote(s[1..])
  {
    if |s| > 1 && s[0] == BACKSLASH {
      assert s[1..][UnescapeLen(s[1..])..] == s[1 + UnescapeLen(s[1..])..];
    }
  }

  lemma NibbleSteps(s: seq<byte>)
    ensures s == [] ==> Nibbles(s) == [] && HexBytes(s) == []
    ensures s != [] && IsWhite(s[0]) ==> Nibbles(s) == Nibbles(s[1..]) && HexBytes(s) == HexBytes(s[1..])
    ensures s != [] && !IsWhite(s[0]) ==> Nibbles(s) == [HexValue(s[0])] + Nibbles(s[1..])
  {}

  lemma PairStep(s: seq<byte>, t: seq<byte>)
    requires s != [] && !IsWhite(s[0]) && t != [] && !IsWhite(t[0]) && Nibbles(s[1..]) == Nibbles(t)
    ensures HexBytes(s) == [HexValue(s[0]) * 16 + HexValue(t[0])] + HexBytes(t[1..])
    ensures |Nibbles(s)| == 2 + |Nibbles(t[1..])|
  {
    hide HexValue, IsWhite;
    assert Nibbles(s) == [HexValue(s[0])] + Nibbles(t);
    assert Nibbles(t) == [HexValue(t[0])] + Nibbles(t[1..]);
    NibblesSmall(s);
    NibblesSmall(t[1..]);
    assert Nibbles(s)[2..] == Nibbles(t[1..]);
  }

  lemma {:induction false} PairsCount(v: seq<byte>)
    requires forall k :: 0 <= k < |v| ==> v[k] < 16
    ensures |Pairs(v)| == |v| / 2
  {
    if |v| >= 2 {
      PairsCount(v[2..]);
    }
  }

  lemma PairCount(s: seq<byte>)
    ensures |HexBytes(s)| == |Nibbles(s)| / 2
  {
    NibblesSmall(s);
    PairsCount(Nibbles(s));
  }
}
