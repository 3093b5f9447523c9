/** What the counter-mode key derivations of the TPM software stack compute, over an abstract HMAC and
    hash: the messages, the key streams and the masking. */
module Kdf {
  import opened Arithmetic
  import opened Bytes
  import opened Sha256
  import opened OctetNumbers

  datatype Alg = AlgSha1 | AlgSha256 | AlgSha384 | AlgSha512 | AlgSm3 | AlgNull | AlgOther

  datatype Rc = Success | BadReference | BadValue | Failure

  function DigestSize(alg: Alg): Option<nat> {
    match alg
    case AlgSha1 => Some(20)
    case AlgSha256 => Some(32)
    case AlgSha384 => Some(48)
    case AlgSha512 => Some(64)
    case AlgSm3 => Some(32)
    case _ => None
  }

  lemma DigestSizes(alg: Alg)
    requires DigestSize(alg).Some?
    ensures 0 < DigestSize(alg).value <= 64
  {}

  /** In bits they are what the algorithms are named for. */
  lemma DigestBits()
    ensures 8 * DigestSize(AlgSha1).value == 160 && 8 * DigestSize(AlgSha256).value == 256
    ensures 8 * DigestSize(AlgSha384).value == 384 && 8 * DigestSize(AlgSha512).value == 512
    ensures 8 * DigestSize(AlgSm3).value == 256 && DigestSize(AlgNull).None? && DigestSize(AlgOther).None?
  {}

  /** The crypto library below: a digest of just the digest size, or a failure. */
  datatype Crypto = Crypto(hash: (Alg, seq<octet>) -> Option<seq<octet>>,
                           mac: (Alg, seq<octet>, seq<octet>) -> Option<seq<octet>>)

  ghost predicate Exact(c: Crypto) {
    && (forall a, m :: c.hash(a, m).Some? ==> DigestSize(a) == Some(|c.hash(a, m).value|))
    && (forall a, k, m :: c.mac(a, k, m).Some? ==> DigestSize(a) == Some(|c.mac(a, k, m).value|))
  }

  // ---- what goes into each iteration ----

  /** A 32-bit number, most significant octet first. */
  function Marshal32(n: nat): (r: seq<octet>)
    ensures |r| == 4
  {
    [NumberOctet(n, 3), NumberOctet(n, 2), NumberOctet(n, 1), NumberOctet(n, 0)]
  }

  /** A label goes with its terminating zero. */
  function LabelOctets(purpose: Option<seq<octet>>): seq<octet> {
    if purpose.Some? then purpose.value + [0] else []
  }

  function KdfaMessage(counter: nat, purpose: Option<seq<octet>>, u: seq<octet>, v: seq<octet>, bits: nat): seq<octet> {
    Marshal32(counter) + LabelOctets(purpose) + u + v + Marshal32(bits)
  }

  function OrEmpty(d: Option<seq<octet>>): seq<octet> {
    if d.Some? then d.value else []
  }

  function KdfeMessage(counter: nat, z: Option<seq<octet>>, purpose: Option<seq<octet>>,
                       u: Option<seq<octet>>, v: Option<seq<octet>>): seq<octet> {
    Marshal32(counter) + OrEmpty(z) + LabelOctets(purpose) + OrEmpty(u) + OrEmpty(v)
  }

  /** One iteration as a function of the counter. */
  function MacAt(c: Crypto, alg: Alg, key: seq<octet>, purpose: Option<seq<octet>>,
                 u: seq<octet>, v: seq<octet>, bits: nat)
    : nat -> Option<seq<octet>>
  {
    (n: nat) => c.mac(alg, key, KdfaMessage(n, purpose, u, v, bits))
  }

  function HashAt(c: Crypto, alg: Alg, z: Option<seq<octet>>, purpose: Option<seq<octet>>,
                  u: Option<seq<octet>>, v: Option<seq<octet>>)
    : nat -> Option<seq<octet>>
  {
    (n: nat) => c.hash(alg, KdfeMessage(n, z, purpose, u, v))
  }

  /** What is marshalled is the number, read with the most significant octet first. */
  lemma MarshalledValue(n: nat)
    requires n < TWO_32
    ensures BigValue(Marshal32(n)) == n
  {
    hide NumberOctet, BigValue, Power256;
    MarshalIsDigits(n);
    DigitsValue(n, 4);
    Powers();
  }

  lemma MarshalledOctets(n: nat)
    ensures var d := Marshal32(n);
            && d[0] as nat == n / 0x100_0000 % 256 && d[1] as nat == n / 0x1_0000 % 256
            && d[2] as nat == n / 0x100 % 256 && d[3] as nat == n % 256
  {
    hide Low8, Power256;
    Powers();
    LowOctetIs(n / 0x100_0000);
    LowOctetIs(n / 0x1_0000);
    LowOctetIs(n / 0x100);
    LowOctetIs(n);
  }

  lemma MarshalIsDigits(n: nat)
    ensures Marshal32(n) == Digits(n, 4)
  {
    hide NumberOctet, Digits;
    forall i | 0 <= i < 4 ensures Marshal32(n)[i] == Digits(n, 4)[i] {
      DigitAt(n, 4, i);
    }
  }

  /** Different counters never feed the same message to the HMAC. */
  lemma CountersSeparate(c: nat, d: nat, purpose: Option<seq<octet>>, u: seq<octet>, v: seq<octet>, bits: nat)
    requires c < TWO_32 && d < TWO_32
    ensures KdfaMessage(c, purpose, u, v, bits) == KdfaMessage(d, purpose, u, v, bits) <==> c == d
  {
    hide Marshal32, BigValue;
    var m, n := KdfaMessage(c, purpose, u, v, bits), KdfaMessage(d, purpose, u, v, bits);
    assert m[..4] == Marshal32(c) && n[..4] == Marshal32(d);
    MarshalledValue(c);
    MarshalledValue(d);
  }

  // ---- key streams ----

  /** What the iterations with counters `c + 1` to `c + n` give, one after the other. */
  function Stream(f: nat -> Option<seq<octet>>, c: nat, n: nat): Option<seq<octet>> {
    if n == 0 then Some([])
    else
      var p, d := Stream(f, c, n - 1), f(Wrap(c + n));
      if p.Some? && d.Some? then Some(p.value + d.value) else None
  }

  ghost predicate Sized(f: nat -> Option<seq<octet>>, h: nat) {
    h > 0 && forall n :: f(n).Some? ==> |f(n).value| == h
  }

  lemma {:induction false} StreamSize(f: nat -> Option<seq<octet>>, h: nat, c: nat, n: nat)
    requires Sized(f, h)
    ensures Stream(f, c, n).Some? ==> |Stream(f, c, n).value| == n * h
  {
    if n > 0 {
      StreamSize(f, h, c, n - 1);
      assert n * h == (n - 1) * h + h;
    }
  }

  /** A shorter stream is a prefix of a longer one, and succeeds when that does. */
  lemma {:induction false} StreamPrefix(f: nat -> Option<seq<octet>>, h: nat, c: nat, j: nat, n: nat)
    requires Sized(f, h) && j <= n && Stream(f, c, n).Some?
    ensures j * h <= n * h && |Stream(f, c, n).value| == n * h
    ensures Stream(f, c, j) == Some(Stream(f, c, n).value[..j * h])
    decreases n
  {
    StreamSize(f, h, c, n);
    StreamSize(f, h, c, j);
    if j < n {
      StreamPrefix(f, h, c, j, n - 1);
      StreamSize(f, h, c, n - 1);
      assert n * h == (n - 1) * h + h;
      assert Stream(f, c, n).value[..(n - 1) * h] == Stream(f, c, n - 1).value;
      assert Stream(f, c, j).value == Stream(f, c, n - 1).value[..j * h] == Stream(f, c, n).value[..j * h];
    } else {
      assert Stream(f, c, n).value[..n * h] == Stream(f, c, n).value;
    }
  }

  /** The counter carried from call to call goes on where the call before stopped. */
  lemma {:induction false} StreamCarriesOn(f: nat -> Option<seq<octet>>, c: nat, i: nat, j: nat)
    ensures var p, q := Stream(f, c, i), Stream(f, Wrap(c + i), j);
            Stream(f, c, i + j) == if p.Some? && q.Some? then Some(p.value + q.value) else None
  {
    hide Wrap;
    var p := Stream(f, c, i);
    if j == 0 {
      assert p.Some? ==> p.value + [] == p.value;
    } else {
      StreamCarriesOn(f, c, i, j - 1);
      CarryOn(c + i, j);
      var q, d := Stream(f, Wrap(c + i), j - 1), f(Wrap(c + i + j));
      if p.Some? && q.Some? && d.Some? {
        assert p.value + q.value + d.value == p.value + (q.value + d.value);
      }
    }
  }

  lemma WrapSmall(n: nat)
    requires n < TWO_32
    ensures Wrap(n) == n
  {}

  lemma CarryOn(a: nat, b: nat)
    ensures Wrap(Wrap(a) + b) == Wrap(a + b)
  {}

  /** Octet `k` of a stream is octet `k % h` of iteration `k / h + 1`. */
  lemma {:induction false} StreamOctet(f: nat -> Option<seq<octet>>, h: nat, c: nat, n: nat, k: nat)
    requires Sized(f, h) && Stream(f, c, n).Some? && k < n * h
    ensures |Stream(f, c, n).value| == n * h
    ensures var d := f(Wrap(c + 1 + k / h));
            d.Some? && Stream(f, c, n).value[k] == d.value[k % h]
  {
    StreamSize(f, h, c, n);
    StreamSize(f, h, c, n - 1);
    assert n * h == (n - 1) * h + h;
    if k < (n - 1) * h {
      StreamOctet(f, h, c, n - 1, k);
    } else {
      LastBlock(n - 1, h, k);
    }
  }

  lemma LastBlock(n: nat, h: nat, k: nat)
    requires n * h <= k < n * h + h
    ensures k / h == n && k % h == k - n * h
  {
    SameQuotient(k / h, n, h, k % h, k - n * h);
  }

  /** How many iterations are made for `bytes` octets: there is always one. */
  function Blocks(bytes: nat, h: nat): (n: nat)
    requires h > 0
    ensures n >= 1
  {
    if bytes <= h then 1 else 1 + Blocks(bytes - h, h)
  }

  /** That is the quotient rounded up, but at least one. */
  lemma {:induction false} BlocksIsCeiling(bytes: nat, h: nat)
    requires h > 0
    ensures bytes <= Blocks(bytes, h) * h
    ensures bytes > 0 ==> (Blocks(bytes, h) - 1) * h < bytes
    ensures bytes == 0 ==> Blocks(bytes, h) == 1
  {
    if bytes > h {
      BlocksIsCeiling(bytes - h, h);
      var n := Blocks(bytes - h, h);
      assert (1 + n) * h == n * h + h && n * h == (n - 1) * h + h;
    }
  }

  /** The byte count asked for; 32-bit arithmetic rounds it up. */
  function OctetsOf(bits: nat): nat {
    Wrap(bits + 7) / 8
  }

  /** The rounding is right for all but the last seven bit lengths; for those the count is zero. */
  lemma OctetsOfExact(bits: nat)
    requires bits < TWO_32
    ensures (8 * (OctetsOf(bits) as int - 1) < bits <= 8 * OctetsOf(bits)) <==> bits <= TWO_32 - 8
    ensures bits > TWO_32 - 8 ==> OctetsOf(bits) == 0
  {}

  function Wanted(h: nat, bits: nat, useDigestSize: bool): nat {
    if useDigestSize then h else OctetsOf(bits)
  }

  /** The buffer for the key: the longest symmetric key and block, rounded up to whole digests. */
  const MAX_SYM_KEY_BYTES: nat := 32
  const MAX_SYM_BLOCK_SIZE: nat := 16

  function KeyLen(h: nat): nat
    requires h > 0
  {
    var n := MAX_SYM_KEY_BYTES + MAX_SYM_BLOCK_SIZE;
    if n % h > 0 then n + h - n % h else n
  }

  /** Whole digests are written, and for any key and block sizes within the maxima they fit the
      caller's buffer; the longest key fills it. */
  lemma KeyBufferFits(alg: Alg, bits: nat)
    requires DigestSize(alg).Some? && bits <= 8 * (MAX_SYM_KEY_BYTES + MAX_SYM_BLOCK_SIZE)
    ensures var h := DigestSize(alg).value;
            && Blocks(OctetsOf(bits), h) * h <= KeyLen(h)
            && (bits == 8 * (MAX_SYM_KEY_BYTES + MAX_SYM_BLOCK_SIZE) ==> Blocks(OctetsOf(bits), h) * h == KeyLen(h))
  {
    hide OctetsOf, Blocks;
    AtMost48(bits);
    var b := OctetsOf(bits);
    BlocksIsCeiling(b, DigestSize(alg).value);
    var h := DigestSize(alg).value;
    if h == 20 {
      assert KeyLen(20) == 60;
    } else if h == 48 {
      assert KeyLen(48) == 48;
    } else {
      assert KeyLen(32) == 64 && KeyLen(64) == 64;
    }
  }

  lemma AtMost48(bits: nat)
    requires bits <= 384
    ensures OctetsOf(bits) <= 48 && (bits == 384 ==> OctetsOf(bits) == 48)
  {}

  // ---- masking ----

  function LowMask(k: nat): octet
    requires k < 8
  {
    ((1 as octet) << k) - 1
  }

  /** The first octet loses its high bits when the bit length is no multiple of 8. */
  function Masked(d: seq<octet>, bits: nat): (r: seq<octet>)
    requires |d| > 0
    ensures |r| == |d|
  {
    if bits % 8 == 0 then d else [d[0] & LowMask(bits % 8)] + d[1..]
  }

  function Power2(k: nat): (p: nat)
    ensures p > 0
  {
    if k == 0 then 1 else 2 * Power2(k - 1)
  }

  /** Read as a number, the masked key is the stream reduced to the bit length. */
  lemma MaskIsModulo(d: seq<octet>, bits: nat)
    requires |d| == (bits + 7) / 8 && bits > 0
    ensures BigValue(Masked(d, bits)) == BigValue(d) % Power2(bits)
  {
    hide BigValue, Power256, Power2, LowMask, Masked, Num, TopBits;
    var top, n := TopBits(bits), |d| - 1;
    TopAndRest(bits);
    ValueSplits(d);
    ValueSplits(Masked(d, bits));
    MaskedParts(d, bits);
    ValueBound(d[1..]);
    PowerOfOctets(top, n);
    ModuloTop(Num(d[0]), Power2(top), Power256(n), BigValue(d[1..]));
  }

  /** How many bits of the first octet count. */
  function TopBits(bits: nat): nat {
    if bits % 8 == 0 then 8 else bits % 8
  }

  lemma TopAndRest(bits: nat)
    requires bits > 0
    ensures bits == TopBits(bits) + 8 * ((bits + 7) / 8 - 1)
  {}

  lemma MaskedParts(d: seq<octet>, bits: nat)
    requires |d| > 0
    ensures Masked(d, bits)[1..] == d[1..]
    ensures Num(Masked(d, bits)[0]) == Num(d[0]) % Power2(TopBits(bits))
  {
    hide Power2, LowMask, Num;
    if bits % 8 == 0 {
      Powers2();
    } else {
      MaskOctet(d[0], bits % 8);
    }
  }

  lemma Powers2()
    ensures Power2(1) == 2 && Power2(2) == 4 && Power2(3) == 8 && Power2(4) == 16
    ensures Power2(5) == 32 && Power2(6) == 64 && Power2(7) == 128 && Power2(8) == 256
  {
    assert Power2(2) == 2 * Power2(1);
    assert Power2(4) == 2 * Power2(3);
    assert Power2(6) == 2 * Power2(5);
    assert Power2(8) == 2 * Power2(7);
  }

  lemma {:induction false} PowerOfOctets(k: nat, n: nat)
    ensures Power2(k + 8 * n) == Power2(k) * Power256(n)
  {
    if n > 0 {
      PowerOfOctets(k, n - 1);
      EightDoublings(k + 8 * (n - 1));
      assert k + 8 * (n - 1) + 8 == k + 8 * n;
    }
  }

  lemma EightDoublings(k: nat)
    ensures Power2(k + 8) == 256 * Power2(k)
  {
    assert Power2(k + 2) == 4 * Power2(k);
    assert Power2(k + 4) == 4 * Power2(k + 2);
    assert Power2(k + 6) == 4 * Power2(k + 4);
  }

  lemma MaskOctet(b: octet, k: nat)
    requires 0 < k < 8
    ensures Num(b & LowMask(k)) == Num(b) % Power2(k)
  {
    hide Power2, LowMask, Num;
    Powers2();
    LowMasks();
    match k
    case 1 => LowBit(b);
    case 2 => LowBits2(b);
    case 3 => LowBits3(b);
    case 4 => LowBits4(b);
    case 5 => LowBits5(b);
    case 6 => LowBits6(b);
    case _ => LowBits7(b);
  }

  lemma LowMasks()
    ensures LowMask(1) == 1 && LowMask(2) == 3 && LowMask(3) == 7 && LowMask(4) == 15
    ensures LowMask(5) == 31 && LowMask(6) == 63 && LowMask(7) == 127
  {}

  lemma LowBit(b: octet)
    ensures Num(b & 1) == Num(b) % 2
  {}

  lemma LowBits2(b: octet)
    ensures Num(b & 3) == Num(b) % 4
  {}

  lemma LowBits3(b: octet)
    ensures Num(b & 7) == Num(b) % 8
  {}

  lemma LowBits4(b: octet)
    ensures Num(b & 15) == Num(b) % 16
  {}

  lemma LowBits5(b: octet)
    ensures Num(b & 31) == Num(b) % 32
  {}

  lemma LowBits6(b: octet)
    ensures Num(b & 63) == Num(b) % 64
  {}

  lemma LowBits7(b: octet)
    ensures Num(b & 127) == Num(b) % 128
  {}
}
