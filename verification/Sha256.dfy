/** SHA-256 as sections 4.1.2, 5.1.1 and 6.2.2 of FIPS 180-2 define it. */
module Sha256 {
  import opened Bytes

  type octet = bv8
  type word = bv32

  const BLOCK: nat := 64
  const DIGEST: nat := 32

  /** Addition modulo 2^32. */
  function Add(x: word, y: word): word { x + y }

  function Ch(x: word, y: word, z: word): word { (x & y) ^ (!x & z) }

  function Maj(x: word, y: word, z: word): word { (x & y) ^ (x & z) ^ (y & z) }

  // The four sums of rotations and shifts; a rotation by n is a shift by n together with one by 32 - n.

  function BigSigma0(x: word): word { ((x >> 2) | (x << 30)) ^ ((x >> 13) | (x << 19)) ^ ((x >> 22) | (x << 10)) }

  function BigSigma1(x: word): word { ((x >> 6) | (x << 26)) ^ ((x >> 11) | (x << 21)) ^ ((x >> 25) | (x << 7)) }

  function SmallSigma0(x: word): word { ((x >> 7) | (x << 25)) ^ ((x >> 18) | (x << 14)) ^ (x >> 3) }

  function SmallSigma1(x: word): word { ((x >> 17) | (x << 15)) ^ ((x >> 19) | (x << 13)) ^ (x >> 10) }

  function Constants(row: nat): (r: seq<word>)
    requires row < 8
    ensures |r| == 8
  {
    match row
    case 0 => [0x428a2f98, 0x71374491, 0xb5c0fbcf, 0xe9b5dba5, 0x3956c25b, 0x59f111f1, 0x923f82a4, 0xab1c5ed5]
    case 1 => [0xd807aa98, 0x12835b01, 0x243185be, 0x550c7dc3, 0x72be5d74, 0x80deb1fe, 0x9bdc06a7, 0xc19bf174]
    case 2 => [0xe49b69c1, 0xefbe4786, 0x0fc19dc6, 0x240ca1cc, 0x2de92c6f, 0x4a7484aa, 0x5cb0a9dc, 0x76f988da]
    case 3 => [0x983e5152, 0xa831c66d, 0xb00327c8, 0xbf597fc7, 0xc6e00bf3, 0xd5a79147, 0x06ca6351, 0x14292967]
    case 4 => [0x27b70a85, 0x2e1b2138, 0x4d2c6dfc, 0x53380d13, 0x650a7354, 0x766a0abb, 0x81c2c92e, 0x92722c85]
    case 5 => [0xa2bfe8a1, 0xa81a664b, 0xc24b8b70, 0xc76c51a3, 0xd192e819, 0xd6990624, 0xf40e3585, 0x106aa070]
    case 6 => [0x19a4c116, 0x1e376c08, 0x2748774c, 0x34b0bcb5, 0x391c0cb3, 0x4ed8aa4a, 0x5b9cca4f, 0x682e6ff3]
    case _ => [0x748f82ee, 0x78a5636f, 0x84c87814, 0x8cc70208, 0x90befffa, 0xa4506ceb, 0xbef9a3f7, 0xc67178f2]
  }

  function K(t: nat): word
    requires t < 64
  {
    Constants(t / 8)[t % 8]
  }

  /** The eight working variables, and the eight hash words. */
  datatype Regs = Regs(a: word, b: word, c: word, d: word, e: word, f: word, g: word, h: word)

  const IV: Regs := Regs(0x6a09e667, 0xbb67ae85, 0x3c6ef372, 0xa54ff53a,
                         0x510e527f, 0x9b05688c, 0x1f83d9ab, 0x5be0cd19)

  /** A word from four octets, the most significant first. */
  function FourOctets(a: octet, b: octet, c: octet, d: octet): word {
    ((a as word) << 24) | ((b as word) << 16) | ((c as word) << 8) | (d as word)
  }

  function BigEndian(d: seq<octet>, at: nat): word
    requires at + 4 <= |d|
  {
    FourOctets(d[at], d[at + 1], d[at + 2], d[at + 3])
  }

  /** The message schedule. */
  function W(block: seq<octet>, t: nat): word
    requires |block| == BLOCK && t < 64
  {
    if t < 16 then BigEndian(block, 4 * t)
    else Add(Add(Add(SmallSigma1(W(block, t - 2)), W(block, t - 7)), SmallSigma0(W(block, t - 15))), W(block, t - 16))
  }

  function Round(r: Regs, k: word, w: word): Regs {
    var t1 := Add(Add(Add(Add(r.h, BigSigma1(r.e)), Ch(r.e, r.f, r.g)), k), w);
    var t2 := Add(BigSigma0(r.a), Maj(r.a, r.b, r.c));
    Regs(Add(t1, t2), r.a, r.b, r.c, Add(r.d, t1), r.e, r.f, r.g)
  }

  function Rounds(r: Regs, block: seq<octet>, n: nat): Regs
    requires |block| == BLOCK && n <= 64
  {
    if n == 0 then r else Round(Rounds(r, block, n - 1), K(n - 1), W(block, n - 1))
  }

  function Compress(r: Regs, block: seq<octet>): Regs
    requires |block| == BLOCK
  {
    var s := Rounds(r, block, 64);
    Regs(Add(r.a, s.a), Add(r.b, s.b), Add(r.c, s.c), Add(r.d, s.d),
         Add(r.e, s.e), Add(r.f, s.f), Add(r.g, s.g), Add(r.h, s.h))
  }

  /** The hash words after all full blocks of `m`. */
  function Absorb(m: seq<octet>): Regs
    requires |m| % BLOCK == 0
    decreases |m|
  {
    if m == [] then IV else Compress(Absorb(m[..|m| - BLOCK]), m[|m| - BLOCK..])
  }

  function OctetOf(x: word, shift: word): octet
    requires shift < 32
  {
    ((x >> shift) & 0xff) as octet
  }

  function WordOctets(x: word): (r: seq<octet>)
    ensures |r| == 4
  {
    [OctetOf(x, 24), OctetOf(x, 16), OctetOf(x, 8), OctetOf(x, 0)]
  }

  function DigestOf(r: Regs): (d: seq<octet>)
    ensures |d| == DIGEST
  {
    WordOctets(r.a) + WordOctets(r.b) + WordOctets(r.c) + WordOctets(r.d)
    + WordOctets(r.e) + WordOctets(r.f) + WordOctets(r.g) + WordOctets(r.h)
  }

  function Zeros(n: nat): (r: seq<octet>)
    ensures |r| == n && forall k :: 0 <= k < n ==> r[k] == 0
  {
    seq(n, _ => 0)
  }

  function Bit(n: nat, weight: octet): octet {
    if n == 1 then weight else 0
  }

  /** The octet with these bits, the least significant first. */
  function FromBits(n0: nat, n1: nat, n2: nat, n3: nat, n4: nat, n5: nat, n6: nat, n7: nat): octet {
    Bit(n0, 1) | Bit(n1, 2) | Bit(n2, 4) | Bit(n3, 8) | Bit(n4, 16) | Bit(n5, 32) | Bit(n6, 64) | Bit(n7, 128)
  }

  function Parity(n: nat): (r: nat)
    ensures r < 2
  {
    n % 2
  }

  function Half(n: nat): nat { n / 2 }

  /** The lowest octet of a number, bit by bit. */
  function Low8(n: int): octet {
    OctetFrom(n % 256)
  }

  function OctetFrom(n: nat): octet {
    var n1 := Half(n);
    var n2 := Half(n1);
    var n3 := Half(n2);
    var n4 := Half(n3);
    var n5 := Half(n4);
    var n6 := Half(n5);
    FromBits(Parity(n), Parity(n1), Parity(n2), Parity(n3), Parity(n4), Parity(n5), Parity(n6), Parity(Half(n6)))
  }

  /** Octet `k` of a number, counted from the least significant. */
  function NumberOctet(n: nat, k: nat): octet {
    Low8(n / Power256(k))
  }

  /** A 64-bit number, most significant octet first. */
  function LengthOctets(bits: nat): (r: seq<octet>)
    ensures |r| == 8
  {
    [NumberOctet(bits, 7), NumberOctet(bits, 6), NumberOctet(bits, 5), NumberOctet(bits, 4),
     NumberOctet(bits, 3), NumberOctet(bits, 2), NumberOctet(bits, 1), NumberOctet(bits, 0)]
  }

  /** How many zero octets stand between the 0x80 and the length. */
  function PadZeros(n: nat): nat {
    if n % BLOCK < 56 then 55 - n % BLOCK else 119 - n % BLOCK
  }

  lemma PadFills(n: nat)
    ensures (n + 1 + PadZeros(n) + 8) % BLOCK == 0
  {}

  /** The padding of section 5.1.1, for a length field that says `bits`. */
  function Padded(m: seq<octet>, bits: nat): (r: seq<octet>)
    ensures |r| % BLOCK == 0
  {
    PadFills(|m|);
    m + [0x80] + Zeros(PadZeros(|m|)) + LengthOctets(bits)
  }

  /** The standard's hash, for messages below 2^64 bits. */
  function Hash(m: seq<octet>): (d: seq<octet>)
    requires 8 * |m| < TWO_32 * TWO_32
    ensures |d| == DIGEST
  {
    DigestOf(Absorb(Padded(m, 8 * |m|)))
  }

  lemma AbsorbBlock(m: seq<octet>, b: seq<octet>)
    requires |m| % BLOCK == 0 && |b| == BLOCK
    ensures |m + b| % BLOCK == 0
    ensures Absorb(m + b) == Compress(Absorb(m), b)
  {
    assert (m + b)[..|m|] == m && (m + b)[|m|..] == b;
  }

  // ---- where the constants come from ----

  const TWO_64: nat := 0x1_0000_0000_0000_0000

  /** `x` is the first 32 bits behind the point of the square root of `p`, whose integer part is `k`. */
  predicate SquareRootBits(p: nat, k: nat, x: nat) {
    var y := k * TWO_32 + x;
    k * k <= p < (k + 1) * (k + 1) && y * y <= p * TWO_64 < (y + 1) * (y + 1)
  }

  predicate CubeRootBits(p: nat, k: nat, x: nat) {
    var y := k * TWO_32 + x;
    k * k * k <= p < (k + 1) * (k + 1) * (k + 1) && y * y * y <= p * TWO_32 * TWO_64 < (y + 1) * (y + 1) * (y + 1)
  }

  /** The initial hash words come from the square roots of the first eight primes. */
  lemma InitialWordsAreRoots()
    ensures SquareRootBits(2, 1, IV.a as nat) && SquareRootBits(3, 1, IV.b as nat)
    ensures SquareRootBits(5, 2, IV.c as nat) && SquareRootBits(7, 2, IV.d as nat)
    ensures SquareRootBits(11, 3, IV.e as nat) && SquareRootBits(13, 3, IV.f as nat)
    ensures SquareRootBits(17, 4, IV.g as nat) && SquareRootBits(19, 4, IV.h as nat)
  {}

  /** The round constants 0 to 7 come from the cube roots of the primes from 2 to 19. */
  lemma Constants0AreRoots()
    ensures var c := Constants(0);
            && CubeRootBits(2, 1, c[0] as nat) && CubeRootBits(3, 1, c[1] as nat)
            && CubeRootBits(5, 1, c[2] as nat) && CubeRootBits(7, 1, c[3] as nat)
            && CubeRootBits(11, 2, c[4] as nat) && CubeRootBits(13, 2, c[5] as nat)
            && CubeRootBits(17, 2, c[6] as nat) && CubeRootBits(19, 2, c[7] as nat)
  {}

  /** The round constants 8 to 15 come from the cube roots of the primes from 23 to 53. */
  lemma Constants8AreRoots()
    ensures var c := Constants(1);
            && CubeRootBits(23, 2, c[0] as nat) && CubeRootBits(29, 3, c[1] as nat)
            && CubeRootBits(31, 3, c[2] as nat) && CubeRootBits(37, 3, c[3] as nat)
            && CubeRootBits(41, 3, c[4] as nat) && CubeRootBits(43, 3, c[5] as nat)
            && CubeRootBits(47, 3, c[6] as nat) && CubeRootBits(53, 3, c[7] as nat)
  {}

  /** The round constants 16 to 23 come from the cube roots of the primes from 59 to 89. */
  lemma Constants16AreRoots()
    ensures var c := Constants(2);
            && CubeRootBits(59, 3, c[0] as nat) && CubeRootBits(61, 3, c[1] as nat)
            && CubeRootBits(67, 4, c[2] as nat) && CubeRootBits(71, 4, c[3] as nat)
            && CubeRootBits(73, 4, c[4] as nat) && CubeRootBits(79, 4, c[5] as nat)
            && CubeRootBits(83, 4, c[6] as nat) && CubeRootBits(89, 4, c[7] as nat)
  {}

  /** The round constants 24 to 31 come from the cube roots of the primes from 97 to 131. */
  lemma Constants24AreRoots()
    ensures var c := Constants(3);
            && CubeRootBits(97, 4, c[0] as nat) && CubeRootBits(101, 4, c[1] as nat)
            && CubeRootBits(103, 4, c[2] as nat) && CubeRootBits(107, 4, c[3] as nat)
            && CubeRootBits(109, 4, c[4] as nat) && CubeRootBits(113, 4, c[5] as nat)
            && CubeRootBits(127, 5, c[6] as nat) && CubeRootBits(131, 5, c[7] as nat)
  {}

  /** The round constants 32 to 39 come from the cube roots of the primes from 137 to 173. */
  lemma Constants32AreRoots()
    ensures var c := Constants(4);
            && CubeRootBits(137, 5, c[0] as nat) && CubeRootBits(139, 5, c[1] as nat)
            && CubeRootBits(149, 5, c[2] as nat) && CubeRootBits(151, 5, c[3] as nat)
            && CubeRootBits(157, 5, c[4] as nat) && CubeRootBits(163, 5, c[5] as nat)
            && CubeRootBits(167, 5, c[6] as nat) && CubeRootBits(173, 5, c[7] as nat)
  {}

  /** The round constants 40 to 47 come from the cube roots of the primes from 179 to 223. */
  lemma Constants40AreRoots()
    ensures var c := Constants(5);
            && CubeRootBits(179, 5, c[0] as nat) && CubeRootBits(181, 5, c[1] as nat)
            && CubeRootBits(191, 5, c[2] as nat) && CubeRootBits(193, 5, c[3] as nat)
            && CubeRootBits(197, 5, c[4] as nat) && CubeRootBits(199, 5, c[5] as nat)
            && CubeRootBits(211, 5, c[6] as nat) && CubeRootBits(223, 6, c[7] as nat)
  {}

  /** The round constants 48 to 55 come from the cube roots of the primes from 227 to 263. */
  lemma Constants48AreRoots()
    ensures var c := Constants(6);
            && CubeRootBits(227, 6, c[0] as nat) && CubeRootBits(229, 6, c[1] as nat)
            && CubeRootBits(233, 6, c[2] as nat) && CubeRootBits(239, 6, c[3] as nat)
            && CubeRootBits(241, 6, c[4] as nat) && CubeRootBits(251, 6, c[5] as nat)
            && CubeRootBits(257, 6, c[6] as nat) && CubeRootBits(263, 6, c[7] as nat)
  {}

  /** The round constants 56 to 63 come from the cube roots of the primes from 269 to 311. */
  lemma Constants56AreRoots()
    ensures var c := Constants(7);
            && CubeRootBits(269, 6, c[0] as nat) && CubeRootBits(271, 6, c[1] as nat)
            && CubeRootBits(277, 6, c[2] as nat) && CubeRootBits(281, 6, c[3] as nat)
            && CubeRootBits(283, 6, c[4] as nat) && CubeRootBits(293, 6, c[5] as nat)
            && CubeRootBits(307, 6, c[6] as nat) && CubeRootBits(311, 6, c[7] as nat)
  {}
}
