/** Octets, byte strings and what the modules of the project share about them. */
module Bytes {

  type byte = b: nat | b < 256

  datatype Option<+T> = None | Some(value: T)

  /** `m` with `d` written at `off`. */
  function Put(m: seq<byte>, off: nat, d: seq<byte>): (r: seq<byte>)
    requires off + |d| <= |m|
    ensures |r| == |m|
    ensures forall k :: 0 <= k < |m| ==> r[k] == if off <= k < off + |d| then d[k - off] else m[k]
  {
    m[..off] + d + m[off + |d|..]
  }

  /** `n` copies of `b`. */
  function Fill(b: byte, n: nat): (r: seq<byte>)
    ensures |r| == n && forall k :: 0 <= k < n ==> r[k] == b
  {
    seq(n, _ => b)
  }

  const TWO_32: nat := 0x1_0000_0000

  /** 32-bit arithmetic. */
  function Wrap(n: nat): (w: nat)
    ensures w < TWO_32
  {
    n % TWO_32
  }

  /** The number an octet string denotes, least significant octet first. */
  function Value(d: seq<byte>): nat {
    if d == [] then 0 else (d[0] as nat) + 256 * Value(d[1..])
  }

  /** `n` in `k` octets, least significant first; higher octets are dropped. */
  function Octets(n: nat, k: nat): (r: seq<byte>)
    ensures |r| == k
  {
    if k == 0 then [] else [n % 256] + Octets(n / 256, k - 1)
  }

  function Power256(k: nat): (p: nat)
    ensures p > 0
  {
    if k == 0 then 1 else 256 * Power256(k - 1)
  }

  lemma Powers()
    ensures Power256(0) == 1 && Power256(1) == 0x100 && Power256(2) == 0x1_0000 && Power256(3) == 0x100_0000
    ensures Power256(4) == 0x1_0000_0000 && Power256(5) == 0x100_0000_0000
    ensures Power256(6) == 0x1_0000_0000_0000 && Power256(7) == 0x100_0000_0000_0000
  {
    assert Power256(2) == 256 * Power256(1);
    assert Power256(4) == 256 * Power256(3);
    assert Power256(6) == 256 * Power256(5);
  }

  lemma {:induction false} ValueOfOctets(n: nat, k: nat)
    requires n < Power256(k)
    ensures Value(Octets(n, k)) == n
  {
    if k > 0 {
      ValueOfOctets(n / 256, k - 1);
    }
  }

  lemma ValueOfFour(d: seq<byte>)
    requires |d| == 4
    ensures Value(d) == (d[0] as nat) + 0x100 * (d[1] as nat) + 0x1_0000 * (d[2] as nat)
                        + 0x100_0000 * (d[3] as nat)
  {
    var d1, d2, d3 := d[1..], d[2..], d[3..];
    assert d1[1..] == d2 && d2[1..] == d3 && d3[1..] == [];
    assert Value(d3) == d[3] as nat;
    assert Value(d2) == (d[2] as nat) + 256 * Value(d3);
    assert Value(d1) == (d[1] as nat) + 256 * Value(d2);
  }

  /** A 32-bit word in memory order. */
  function WordBytes(n: nat): (r: seq<byte>)
    requires n < TWO_32
    ensures |r| == 4
  {
    Octets(n, 4)
  }

  function Word(m: seq<byte>, off: nat): nat
    requires off + 4 <= |m|
  {
    Value(m[off..off + 4])
  }

  function PutWord(m: seq<byte>, off: nat, n: nat): (r: seq<byte>)
    requires off + 4 <= |m| && n < TWO_32
    ensures |r| == |m|
  {
    Put(m, off, WordBytes(n))
  }

  lemma WordOfPut(m: seq<byte>, off: nat, n: nat)
    requires off + 4 <= |m| && n < TWO_32
    ensures Word(PutWord(m, off, n), off) == n
  {
    assert PutWord(m, off, n)[off..off + 4] == WordBytes(n);
    assert Power256(4) == 256 * (256 * (256 * Power256(1)));
    ValueOfOctets(n, 4);
  }

  lemma WordElsewhere(m: seq<byte>, off: nat, d: seq<byte>, at: nat)
    requires off + |d| <= |m| && at + 4 <= |m|
    requires at + 4 <= off || off + |d| <= at
    ensures Word(Put(m, off, d), at) == Word(m, at)
  {
    assert Put(m, off, d)[at..at + 4] == m[at..at + 4];
  }

  ghost predicate SameBetween(m: seq<byte>, m': seq<byte>, lo: nat, hi: nat) {
    hi <= |m| && hi <= |m'| && forall k :: lo <= k < hi ==> m[k] == m'[k]
  }
}
