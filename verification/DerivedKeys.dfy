/** Which derived keys are the standard's: the guard of the masking, stated on what the derivations return. */
module DerivedKeys {
  import opened Bytes
  import opened Sha256
  import opened Kdf
  import opened KeyBits
  import opened KeyDerivation

  /** The key in front of the digests that a derivation masks and returns is the leftmost bits of them. */
  ghost predicate KeepsLeftmost(f: nat -> Option<seq<octet>>, start: nat, n: nat, bits: nat)
    requires bits > 0
  {
    var s := Stream(f, start, n);
    s.Some? ==> |s.value| >= KeyOctets(bits) && IsLeftmost(s.value, bits)
  }

  /** What Kdfa returns for `bits`, by its contract. */
  ghost predicate KdfaIsStandard(c: Crypto, alg: Alg, key: seq<octet>, purpose: Option<seq<octet>>,
                                 u: seq<octet>, v: seq<octet>, bits: nat, start: nat)
    requires DigestSize(alg).Some? && bits > 0
  {
    var h := DigestSize(alg).value;
    h > 0 && KeepsLeftmost(MacAt(c, alg, key, purpose, u, v, bits), start, Blocks(Wanted(h, bits, false), h), bits)
  }

  ghost predicate KdfeIsStandard(c: Crypto, alg: Alg, z: Option<seq<octet>>, purpose: Option<seq<octet>>,
                                 u: Option<seq<octet>>, v: Option<seq<octet>>, bits: nat)
    requires DigestSize(alg).Some? && bits > 0
  {
    var h := DigestSize(alg).value;
    h > 0 && KeepsLeftmost(HashAt(c, alg, z, purpose, u, v), 0, Blocks(OctetsOf(bits), h), bits)
  }

  /** A crypto library whose digests all begin with a set bit and have no other. */
  function TopBitCrypto(): Crypto {
    Crypto((alg, m) => TopBitDigest(alg), (alg, key, m) => TopBitDigest(alg))
  }

  function TopBitDigest(alg: Alg): Option<seq<octet>> {
    match DigestSize(alg)
    case None => None
    case Some(h) => Some([0x80] + Zeros(if h > 0 then h - 1 else 0))
  }

  lemma TopBitExact()
    ensures Exact(TopBitCrypto())
  {}

  lemma {:induction false} TopBitStream(f: nat -> Option<seq<octet>>, h: nat, start: nat, n: nat)
    requires n > 0 && Sized(f, h) && forall k :: f(k).Some? && f(k).value[0] == 0x80
    ensures Stream(f, start, n).Some? && |Stream(f, start, n).value| > 0 && Stream(f, start, n).value[0] == 0x80
  {
    var d := f(Wrap(start + n));
    if n > 1 {
      TopBitStream(f, h, start, n - 1);
    } else {
      assert Stream(f, start, 0) == Some([]);
    }
  }

  lemma LongEnough(f: nat -> Option<seq<octet>>, h: nat, start: nat, bits: nat)
    requires Sized(f, h) && 0 < bits <= TWO_32 - 8
    ensures var s := Stream(f, start, Blocks(OctetsOf(bits), h));
            s.Some? ==> |s.value| >= KeyOctets(bits)
  {
    hide Stream, Blocks;
    BlocksIsCeiling(OctetsOf(bits), h);
    StreamSize(f, h, start, Blocks(OctetsOf(bits), h));
    assert OctetsOf(bits) == KeyOctets(bits);
  }

  lemma WholeOctetsKept(f: nat -> Option<seq<octet>>, h: nat, start: nat, bits: nat)
    requires Sized(f, h) && 0 < bits <= TWO_32 - 8 && bits % 8 == 0
    ensures KeepsLeftmost(f, start, Blocks(OctetsOf(bits), h), bits)
  {
    hide Stream, Blocks, OctetsOf, IsLeftmost;
    LongEnough(f, h, start, bits);
    var s := Stream(f, start, Blocks(OctetsOf(bits), h));
    if s.Some? {
      WholeOctetsAreLeftmost(s.value, bits);
    }
  }

  lemma TopBitNotKept(f: nat -> Option<seq<octet>>, h: nat, start: nat, n: nat, bits: nat)
    requires Sized(f, h) && n > 0 && bits % 8 != 0 && forall k :: f(k).Some? && f(k).value[0] == 0x80
    ensures !KeepsLeftmost(f, start, n, bits)
  {
    hide Stream, IsLeftmost;
    TopBitStream(f, h, start, n);
    var s := Stream(f, start, n).value;
    if |s| >= KeyOctets(bits) {
      TopBitIsNotLeftmost(s, bits);
    }
  }

  /** Kdfa gives the standard's key with every crypto library, for exactly the bit lengths that are
      multiples of 8: a caller can see from the bit length whether it does. */
  lemma KdfaIffWholeOctets(alg: Alg, key: seq<octet>, purpose: Option<seq<octet>>, u: seq<octet>, v: seq<octet>,
                           bits: nat, start: nat)
    requires DigestSize(alg).Some? && 0 < bits <= TWO_32 - 8
    ensures (forall c: Crypto | Exact(c) :: KdfaIsStandard(c, alg, key, purpose, u, v, bits, start)) <==> bits % 8 == 0
  {
    hide KeepsLeftmost, Exact, MacAt, OctetsOf, Blocks, DigestSize, Sized;
    DigestSizes(alg);
    var h := DigestSize(alg).value;
    if bits % 8 == 0 {
      forall c: Crypto | Exact(c) ensures KdfaIsStandard(c, alg, key, purpose, u, v, bits, start) {
        MacAtSized(c, alg, key, purpose, u, v, bits);
        WholeOctetsKept(MacAt(c, alg, key, purpose, u, v, bits), h, start, bits);
      }
    } else {
      var c := TopBitCrypto();
      TopBitExact();
      MacAtSized(c, alg, key, purpose, u, v, bits);
      TopBitMac(alg, key, purpose, u, v, bits);
      TopBitNotKept(MacAt(c, alg, key, purpose, u, v, bits), h, start, Blocks(Wanted(h, bits, false), h), bits);
      assert !KdfaIsStandard(c, alg, key, purpose, u, v, bits, start);
    }
  }

  lemma TopBitMac(alg: Alg, key: seq<octet>, purpose: Option<seq<octet>>, u: seq<octet>, v: seq<octet>, bits: nat)
    requires DigestSize(alg).Some?
    ensures var f := MacAt(TopBitCrypto(), alg, key, purpose, u, v, bits);
            forall k :: f(k).Some? && |f(k).value| > 0 && f(k).value[0] == 0x80
  {}

  /** The same for Kdfe. */
  lemma KdfeIffWholeOctets(alg: Alg, z: Option<seq<octet>>, purpose: Option<seq<octet>>,
                           u: Option<seq<octet>>, v: Option<seq<octet>>, bits: nat)
    requires DigestSize(alg).Some? && 0 < bits <= TWO_32 - 8
    ensures (forall c: Crypto | Exact(c) :: KdfeIsStandard(c, alg, z, purpose, u, v, bits)) <==> bits % 8 == 0
  {
    hide KeepsLeftmost, Exact, HashAt, OctetsOf, Blocks, DigestSize, Sized;
    DigestSizes(alg);
    var h := DigestSize(alg).value;
    if bits % 8 == 0 {
      forall c: Crypto | Exact(c) ensures KdfeIsStandard(c, alg, z, purpose, u, v, bits) {
        HashAtSized(c, alg, z, purpose, u, v);
        WholeOctetsKept(HashAt(c, alg, z, purpose, u, v), h, 0, bits);
      }
    } else {
      var c := TopBitCrypto();
      TopBitExact();
      HashAtSized(c, alg, z, purpose, u, v);
      TopBitHash(alg, z, purpose, u, v);
      TopBitNotKept(HashAt(c, alg, z, purpose, u, v), h, 0, Blocks(OctetsOf(bits), h), bits);
      assert !KdfeIsStandard(c, alg, z, purpose, u, v, bits);
    }
  }

  lemma TopBitHash(alg: Alg, z: Option<seq<octet>>, purpose: Option<seq<octet>>,
                   u: Option<seq<octet>>, v: Option<seq<octet>>)
    requires DigestSize(alg).Some?
    ensures var f := HashAt(TopBitCrypto(), alg, z, purpose, u, v);
            forall k :: f(k).Some? && |f(k).value| > 0 && f(k).value[0] == 0x80
  {}
}
