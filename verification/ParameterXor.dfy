/** XOR obfuscation of a parameter: a key stream of whole digests, one derivation at a time, combined
    with the data in place. */
module ParameterXor {
  import opened Arithmetic
  import opened Bytes
  import opened Sha256
  import opened Kdf
  import opened KeyDerivation

  /** How many derivations the data takes: none when there is none. */
  function XorBlocks(n: nat, h: nat): nat
    requires h > 0
  {
    if n == 0 then 0 else Blocks(n, h)
  }

  const XOR: seq<octet> := [0x58, 0x4f, 0x52]

  /** The bit length of the data, as far as 32 bits hold it. */
  function SizeBits(size: nat): nat { Wrap(size * 8) }

  /** The iterations the key stream is from. */
  function XorMac(c: Crypto, alg: Alg, key: seq<octet>, u: seq<octet>, v: seq<octet>, size: nat)
    : nat -> Option<seq<octet>>
  {
    MacAt(c, alg, key, Some(XOR), u, v, SizeBits(size))
  }

  function Mixed(x: octet, y: octet): octet { x ^ y }

  /** The first octets are combined with the key stream, as many as it has; the others stay. */
  function XorWith(d: seq<octet>, key: seq<octet>): (r: seq<octet>)
    ensures |r| == |d|
    ensures forall i :: 0 <= i < |d| ==> r[i] == if i < |key| then Mixed(d[i], key[i]) else d[i]
  {
    seq(|d|, i requires 0 <= i < |d| => if i < |key| then Mixed(d[i], key[i]) else d[i])
  }

  /** What the obfuscation makes of the data, if the crypto library does not fail. */
  function Obfuscated(c: Crypto, alg: Alg, key: seq<octet>, u: seq<octet>, v: seq<octet>, d: seq<octet>)
    : Option<seq<octet>>
    requires DigestSize(alg).Some?
  {
    var s := Stream(XorMac(c, alg, key, u, v, |d|), 0, XorBlocks(|d|, DigestSize(alg).value));
    if s.Some? then Some(XorWith(d, s.value)) else None
  }

  const MAX_DIGEST_BUFFER: nat := 1024

  method XorObfuscation(c: Crypto, alg: Alg, key: Option<seq<octet>>, u: seq<octet>, v: seq<octet>, data: array?<octet>)
    returns (rc: Rc)
    requires Exact(c)
    modifies data
    ensures key.None? || data == null ==> rc == BadReference
    ensures key.Some? && data != null && DigestSize(alg).None? ==> rc == BadValue
    ensures data != null && (rc == BadReference || rc == BadValue) ==> data[..] == old(data[..])
    ensures key.Some? && data != null && DigestSize(alg).Some? ==>
              var o := Obfuscated(c, alg, key.value, u, v, old(data[..]));
              && rc == (if o.Some? then Success else Failure)
              && (o.Some? ==> data[..] == o.value)
              && (o.None? ==>
                    var f := XorMac(c, alg, key.value, u, v, data.Length);
                    exists j | 0 <= j < XorBlocks(data.Length, DigestSize(alg).value) ::
                      XorDone(f, j, old(data[..]), data[..]))
  {
    hide Stream, Blocks, XorMac, XorWith, DigestSize, XorDone;
    if key.None? || data == null {
      return BadReference;
    }
    if DigestSize(alg).None? {
      return BadValue;
    }
    DigestSizes(alg);
    rc := XorLoop(c, alg, key.value, u, v, data);
    XorDoneMeans(XorMac(c, alg, key.value, u, v, data.Length), XorBlocks(data.Length, DigestSize(alg).value),
                 old(data[..]), data[..]);
  }

  /** `j` digests of the key stream have been combined with the data. */
  ghost predicate XorDone(f: nat -> Option<seq<octet>>, j: nat, before: seq<octet>, after: seq<octet>) {
    Stream(f, 0, j).Some? && after == XorWith(before, Stream(f, 0, j).value)
  }

  lemma XorDoneMeans(f: nat -> Option<seq<octet>>, j: nat, before: seq<octet>, after: seq<octet>)
    ensures XorDone(f, j, before, after)
       <==> Stream(f, 0, j).Some? && after == XorWith(before, Stream(f, 0, j).value)
  {}

  method XorLoop(c: Crypto, alg: Alg, key: seq<octet>, u: seq<octet>, v: seq<octet>, data: array<octet>)
    returns (rc: Rc)
    requires Exact(c) && DigestSize(alg).Some?
    modifies data
    ensures var f := XorMac(c, alg, key, u, v, data.Length);
            var n := XorBlocks(data.Length, DigestSize(alg).value);
            && rc == (if Stream(f, 0, n).Some? then Success else Failure)
            && (rc == Success ==> XorDone(f, n, old(data[..]), data[..]))
            && (rc == Failure ==> exists j | 0 <= j < n :: XorDone(f, j, old(data[..]), data[..]))
  {
    hide Wrap, Stream, Blocks, MacAt, Sized, XorWith, XorDone, SizeBits;
    var h := DigestSize(alg).value;
    var counter, at, rest: nat := 0, 0, data.Length;
    var keyStream := new octet[MAX_DIGEST_BUFFER];
    ghost var f, n, before := XorMac(c, alg, key, u, v, data.Length), XorBlocks(data.Length, h), data[..];
    ghost var j := 0;
    NothingDone(f, before);
    WrapSmall(j);
    MacAtSized(c, alg, key, Some(XOR), u, v, SizeBits(data.Length));
    while rest > 0
      invariant rest <= data.Length && at == data.Length - rest && counter == Wrap(j)
      invariant if rest > 0 then at == j * h && n == j + Blocks(rest, h) else j == n
      invariant XorDone(f, j, before, data[..])
    {
      ghost var mid := data[..];
      rc, counter := NextDigest(c, alg, key, u, v, data.Length, counter, keyStream);
      NextCounter(f, j);
      assert data[..] == mid;
      if rc != Success {
        StreamStops(f, 0, j, n);
        return;
      }
      var size := if h < rest then h else rest;
      XorPart(data, at, size, keyStream);
      OneMoreDone(f, h, j, before, mid, data[..], at, size, keyStream[..h]);
      LastIteration(rest, h);
      j := j + 1;
      at := at + size;
      rest := rest - size;
    }
    rc := Success;
    XorDoneMeans(f, n, before, data[..]);
  }

  lemma NothingDone(f: nat -> Option<seq<octet>>, d: seq<octet>)
    ensures XorDone(f, 0, d, d)
  {}

  lemma NextCounter(f: nat -> Option<seq<octet>>, j: nat)
    ensures Wrap(Wrap(j) + 1) == Wrap(0 + j + 1)
  {}

  /** A derivation of one digest, from the counter carried along. */
  method NextDigest(c: Crypto, alg: Alg, key: seq<octet>, u: seq<octet>, v: seq<octet>, size: nat, counter: nat,
                    keyStream: array<octet>)
    returns (rc: Rc, next: nat)
    requires Exact(c) && DigestSize(alg).Some? && counter < TWO_32 && keyStream.Length == MAX_DIGEST_BUFFER
    modifies keyStream
    ensures var d := XorMac(c, alg, key, u, v, size)(Wrap(counter + 1));
            && rc == (if d.Some? then Success else Failure)
            && (d.Some? ==> |d.value| == DigestSize(alg).value && keyStream[..DigestSize(alg).value] == d.value
                            && next == Wrap(counter + 1))
  {
    hide Wrap, Masked, Stream, XorMac, Blocks, DigestSize, SizeBits;
    DigestSizes(alg);
    var h := DigestSize(alg).value;
    OneBlock(h);
    SizeBitsFit(size);
    ghost var f := XorMac(c, alg, key, u, v, size);
    var counterOut;
    XorMacIs(c, alg, key, u, v, size);
    rc, counterOut := Kdfa(c, alg, Some(key), Some(XOR), u, v, SizeBits(size), Some(counter), keyStream, true);
    next := counterOut.value;
    StreamOne(f, counter);
    if rc == Success {
      WholeOctets(f(Wrap(counter + 1)).value, size);
    }
  }

  lemma OneBlock(h: nat)
    requires h > 0
    ensures Blocks(h, h) == 1
  {}

  lemma SizeBitsFit(size: nat)
    ensures SizeBits(size) < TWO_32
  {}

  lemma XorMacIs(c: Crypto, alg: Alg, key: seq<octet>, u: seq<octet>, v: seq<octet>, size: nat)
    ensures XorMac(c, alg, key, u, v, size) == MacAt(c, alg, key, Some(XOR), u, v, SizeBits(size))
  {}

  lemma StreamOne(f: nat -> Option<seq<octet>>, c: nat)
    ensures Stream(f, c, 1) == f(Wrap(c + 1))
  {
    assert Stream(f, c, 0) == Some([]);
    var d := f(Wrap(c + 1));
    assert d.Some? ==> [] + d.value == d.value;
  }

  lemma WholeOctets(s: seq<octet>, size: nat)
    requires |s| > 0
    ensures Masked(s, SizeBits(size)) == s
  {}

  method XorPart(data: array<octet>, at: nat, size: nat, keyStream: array<octet>)
    requires at + size <= data.Length && size <= keyStream.Length && data != keyStream
    modifies data
    ensures forall k :: 0 <= k < size ==> data[at + k] == Mixed(old(data[at + k]), keyStream[k])
    ensures forall k :: 0 <= k < data.Length && !(at <= k < at + size) ==> data[k] == old(data[k])
  {
    hide Mixed;
    ghost var was := data[..];
    var i, d, k := size, at, 0;
    while i > 0
      invariant 0 <= i <= size && k == size - i && d == at + k
      invariant forall t :: 0 <= t < k ==> data[at + t] == Mixed(was[at + t], keyStream[t])
      invariant forall t :: 0 <= t < data.Length && !(at <= t < d) ==> data[t] == was[t]
    {
      data[d] := Mixed(data[d], keyStream[k]);
      d := d + 1;
      k := k + 1;
      i := i - 1;
    }
  }

  lemma OneMoreDone(f: nat -> Option<seq<octet>>, h: nat, j: nat,
                    before: seq<octet>, mid: seq<octet>, after: seq<octet>, at: nat, size: nat, digest: seq<octet>)
    requires Sized(f, h) && XorDone(f, j, before, mid) && f(Wrap(0 + j + 1)) == Some(digest)
    requires at == j * h && at <= |before| == |after|
    requires size == if h < |before| - at then h else |before| - at
    requires |mid| == |before| && |digest| == h
    requires forall k :: 0 <= k < size ==> after[at + k] == Mixed(mid[at + k], digest[k])
    requires forall k :: 0 <= k < |after| && !(at <= k < at + size) ==> after[k] == mid[k]
    ensures XorDone(f, j + 1, before, after)
  {
    StreamSize(f, h, 0, j);
    var p := Stream(f, 0, j).value;
    assert Stream(f, 0, j + 1).value == p + digest;
    forall k | at <= k < at + size ensures after[k] == Mixed(before[k], (p + digest)[k]) {
      assert after[at + (k - at)] == Mixed(mid[k], digest[k - at]);
    }
    assert after == XorWith(before, p + digest);
  }

  // ---- what the obfuscation promises ----

  lemma XorTwice(x: octet, y: octet)
    ensures Mixed(Mixed(x, y), y) == x
  {}

  /** Obfuscating what was obfuscated gives the data back, for every length. */
  lemma ObfuscationUndoesItself(c: Crypto, alg: Alg, key: seq<octet>, u: seq<octet>, v: seq<octet>, d: seq<octet>)
    requires DigestSize(alg).Some?
    ensures var e := Obfuscated(c, alg, key, u, v, d);
            e.Some? ==> Obfuscated(c, alg, key, u, v, e.value) == Some(d)
  {
    hide Stream, Blocks, DigestSize, XorMac;
    DigestSizes(alg);
    var e := Obfuscated(c, alg, key, u, v, d);
    if e.Some? {
      var s := Stream(XorMac(c, alg, key, u, v, |d|), 0, XorBlocks(|d|, DigestSize(alg).value)).value;
      forall i | 0 <= i < |d| ensures XorWith(XorWith(d, s), s)[i] == d[i] {
        if i < |s| {
          XorTwice(d[i], s[i]);
        }
      }
      assert XorWith(e.value, s) == d;
    }
  }

  /** Every octet of the data is combined with one of the key stream. */
  lemma KeyStreamCovers(c: Crypto, alg: Alg, key: seq<octet>, u: seq<octet>, v: seq<octet>, d: seq<octet>)
    requires Exact(c) && DigestSize(alg).Some?
    ensures var s := Stream(XorMac(c, alg, key, u, v, |d|), 0, XorBlocks(|d|, DigestSize(alg).value));
            s.Some? ==> |d| <= |s.value| && Obfuscated(c, alg, key, u, v, d) == Some(XorWith(d, s.value))
  {
    hide Stream, Blocks, XorWith;
    var h := DigestSize(alg).value;
    MacAtSized(c, alg, key, Some(XOR), u, v, SizeBits(|d|));
    StreamSize(XorMac(c, alg, key, u, v, |d|), h, 0, XorBlocks(|d|, h));
    BlocksIsCeiling(|d|, h);
  }

  /** Octet `k` of the data is combined with octet `k % h` of the HMAC of counter `1 + k / h`, the octets of
      "XOR" with their zero, both contexts and the bit length of the data. */
  lemma ObfuscatedOctet(c: Crypto, alg: Alg, key: seq<octet>, u: seq<octet>, v: seq<octet>, d: seq<octet>,
                        h: nat, k: nat)
    requires Exact(c) && DigestSize(alg) == Some(h) && h > 0 && k < |d|
    ensures var o := Obfuscated(c, alg, key, u, v, d);
            o.Some? ==>
              var e := c.mac(alg, key, Marshal32((1 + k / h) % 0x1_0000_0000) + [0x58, 0x4f, 0x52, 0x00]
                                       + u + v + Marshal32(8 * |d| % 0x1_0000_0000));
              && e.Some? && |e.value| == h && |o.value| == |d|
              && o.value[k] == d[k] ^ e.value[k % h]
  {
    hide Stream, Blocks, DigestSize, MacAt, Marshal32, Obfuscated;
    var f, n := XorMac(c, alg, key, u, v, |d|), XorBlocks(|d|, h);
    MacAtSized(c, alg, key, Some(XOR), u, v, SizeBits(|d|));
    KeyStreamCovers(c, alg, key, u, v, d);
    ObfuscatedIs(c, alg, key, u, v, d);
    if Stream(f, 0, n).Some? {
      StreamSize(f, h, 0, n);
      StreamOctet(f, h, 0, n, k);
      MacAtIs(c, alg, key, Some(XOR), u, v, SizeBits(|d|), Wrap(0 + 1 + k / h));
      assert XOR + [0] == [0x58, 0x4f, 0x52, 0x00];
    }
  }

  lemma ObfuscatedIs(c: Crypto, alg: Alg, key: seq<octet>, u: seq<octet>, v: seq<octet>, d: seq<octet>)
    requires DigestSize(alg).Some? && DigestSize(alg).value > 0
    ensures Obfuscated(c, alg, key, u, v, d).Some?
       <==> Stream(XorMac(c, alg, key, u, v, |d|), 0, XorBlocks(|d|, DigestSize(alg).value)).Some?
  {
    hide Stream, XorMac, XorBlocks;
  }

  /** What one single derivation of the whole length gives, by the contract of Kdfa. */
  function OneDerivation(c: Crypto, alg: Alg, key: seq<octet>, u: seq<octet>, v: seq<octet>, size: nat)
    : Option<seq<octet>>
    requires DigestSize(alg).Some?
  {
    DigestSizes(alg);
    var h := DigestSize(alg).value;
    Stream(MacAt(c, alg, key, Some(XOR), u, v, SizeBits(size)), 0, Blocks(Wanted(h, SizeBits(size), false), h))
  }

  /** The stream of the carried counter is what one single derivation of the whole length gives, and
      nothing of that is masked, for exactly the data whose bit length fits 32 bits. For longer data the
      single derivation ends early: it is a prefix that does not reach over the data. */
  lemma OneDerivationSuffices(c: Crypto, alg: Alg, key: seq<octet>, u: seq<octet>, v: seq<octet>, size: nat)
    requires Exact(c) && DigestSize(alg).Some? && size > 0
    ensures var one := OneDerivation(c, alg, key, u, v, size);
            var all := Stream(XorMac(c, alg, key, u, v, size), 0, XorBlocks(size, DigestSize(alg).value));
            && (size < 0x2000_0000 ==>
                  one == all && (all.Some? ==> |all.value| > 0 && Masked(all.value, SizeBits(size)) == all.value))
            && (size >= 0x2000_0000 && all.Some? ==>
                  && one.Some? && |one.value| < size <= |all.value|
                  && one.value == all.value[..|one.value|])
  {
    hide Blocks, DigestSize, Stream, OctetsOf, SizeBits, Masked;
    DigestSizes(alg);
    var h := DigestSize(alg).value;
    var f, m, n := XorMac(c, alg, key, u, v, size), OctetsOf(SizeBits(size)), XorBlocks(size, h);
    MacAtSized(c, alg, key, Some(XOR), u, v, SizeBits(size));
    SizeBack(size);
    BlocksIsCeiling(size, h);
    BlocksIsCeiling(m, h);
    StreamSize(f, h, 0, n);
    if size < 0x2000_0000 {
      if Stream(f, 0, n).Some? {
        WholeOctets(Stream(f, 0, n).value, size);
      }
    } else {
      assert size >= m + h;
      MoreBlocks(m, size, h);
      Distributes(Blocks(m, h) - 1, 1, h);
      if Stream(f, 0, n).Some? {
        StreamPrefix(f, h, 0, Blocks(m, h), n);
        StreamSize(f, h, 0, Blocks(m, h));
      }
    }
  }

  lemma SizeBack(size: nat)
    ensures OctetsOf(SizeBits(size)) == size % 0x2000_0000
  {
    var q, r := size / 0x2000_0000, size % 0x2000_0000;
    Divided(size, 0x2000_0000);
    DivideBack(q, TWO_32, r * 8);
    assert size * 8 == q * TWO_32 + r * 8;
    DivideBack(r, 8, 7);
  }

  lemma {:induction false} MoreBlocks(m: nat, n: nat, h: nat)
    requires h > 0 && n >= m + h && n > h
    ensures Blocks(n, h) > Blocks(m, h)
  {
    if m > h {
      MoreBlocks(m - h, n - h, h);
    }
  }
}
