/** Streaming SHA-256 and HMAC-SHA-256 as the program they are: a context that is updated in place,
    with a partial block and 32-bit counters. */
module Hmac256 {
  import opened Arithmetic
  import opened Bytes
  import opened Sha256
  import opened OctetNumbers

  // ---- the round functions as the program writes them ----

  function Cho(x: word, y: word, z: word): word { z ^ (x & (y ^ z)) }

  function Majority(x: word, y: word, z: word): word { (x & y) | (z & (x | y)) }

  function Sum0(x: word): word { ((x >> 2) | (x << 30)) ^ ((x >> 13) | (x << 19)) ^ ((x >> 22) | (x << 10)) }

  function Sum1(x: word): word { ((x >> 6) | (x << 26)) ^ ((x >> 11) | (x << 21)) ^ ((x >> 25) | (x << 7)) }

  function S0(x: word): word { ((x >> 7) | (x << 25)) ^ ((x >> 18) | (x << 14)) ^ (x >> 3) }

  function S1(x: word): word { ((x >> 17) | (x << 15)) ^ ((x >> 19) | (x << 13)) ^ (x >> 10) }

  lemma SameSums(x: word)
    ensures Sum0(x) == BigSigma0(x) && Sum1(x) == BigSigma1(x)
    ensures S0(x) == SmallSigma0(x) && S1(x) == SmallSigma1(x)
  {}

  lemma ChoiceBits(x: word, y: word, z: word)
    ensures z ^ (x & (y ^ z)) == (x & y) ^ (!x & z)
  {}

  lemma MajorityBits(x: word, y: word, z: word)
    ensures (x & y) | (z & (x | y)) == (x & y) ^ (x & z) ^ (y & z)
  {}

  lemma SameRoundFunctions(x: word, y: word, z: word)
    ensures Cho(x, y, z) == Ch(x, y, z) && Majority(x, y, z) == Maj(x, y, z)
  {
    ChoiceBits(x, y, z);
    MajorityBits(x, y, z);
  }

  // ---- lengths ----

  /** The bit length as the program computes it, from a 32-bit count of blocks. */
  function CountedBits(n: nat): nat {
    8 * (n / BLOCK % TWO_32 * BLOCK + n % BLOCK)
  }

  /** The counters say the true length exactly for messages below 2^38 octets. */
  lemma CountedBitsExact(n: nat)
    requires 8 * n < TWO_32 * TWO_32
    ensures CountedBits(n) == 8 * n <==> n < 0x40_0000_0000
  {
    assert n == n / BLOCK * BLOCK + n % BLOCK;
  }

  /** Beyond that the bits of the 2^38 octets last counted round are said. */
  lemma CountedBitsIs(n: nat)
    ensures CountedBits(n) == 8 * (n % 0x40_0000_0000)
  {
    var q, r := n / 0x40_0000_0000, n % 0x40_0000_0000;
    Divided(n, 0x40_0000_0000);
    QuotientOfSum(q * TWO_32, r, BLOCK);
    DivideBack(q, TWO_32, r / BLOCK);
    assert n / BLOCK == q * TWO_32 + r / BLOCK && n % BLOCK == r % BLOCK;
  }

  /** The block counter after a message of `n` octets. */
  function Counter(n: nat): (w: nat)
    ensures w < TWO_32
  {
    Wrap(n / BLOCK)
  }

  lemma NextCounter(n: nat)
    ensures Wrap(Counter(n) + 1) == Counter(n + BLOCK)
  {
    QuotientOfSum(1, n, BLOCK);
    assert (n / BLOCK % TWO_32 + 1) % TWO_32 == (n / BLOCK + 1) % TWO_32;
  }

  /** The hash with the length field the program writes. */
  function CountedHash(m: seq<octet>): (d: seq<octet>)
    ensures |d| == DIGEST
  {
    DigestOf(Absorb(Padded(m, CountedBits(|m|))))
  }

  lemma CountedHashIsHash(m: seq<octet>)
    requires |m| < 0x40_0000_0000
    ensures CountedHash(m) == Hash(m)
  {
    CountedBitsExact(|m|);
  }

  /** What is fed to the compression function is the standard's padded message, for exactly the messages
      below 2^38 octets. */
  lemma PaddedExact(m: seq<octet>)
    requires 8 * |m| < TWO_32 * TWO_32
    ensures Padded(m, CountedBits(|m|)) == Padded(m, 8 * |m|) <==> |m| < 0x40_0000_0000
  {
    hide LengthOctets, CountedBits;
    CountedBitsExact(|m|);
    CountedBitsFit(|m|);
    SameLength(CountedBits(|m|), 8 * |m|);
    var a, b := LengthOctets(CountedBits(|m|)), LengthOctets(8 * |m|);
    var front := m + [0x80] + Zeros(PadZeros(|m|));
    assert (front + a)[|front|..] == a && (front + b)[|front|..] == b;
  }

  lemma CountedBitsFit(n: nat)
    ensures CountedBits(n) < TWO_32 * TWO_32
  {}

  /** Different lengths have different length fields. */
  lemma SameLength(a: nat, b: nat)
    requires a < TWO_32 * TWO_32 && b < TWO_32 * TWO_32
    ensures LengthOctets(a) == LengthOctets(b) <==> a == b
  {
    hide LengthOctets, BigValue;
    LengthValue(a);
    LengthValue(b);
  }

  lemma LengthValue(n: nat)
    requires n < TWO_32 * TWO_32
    ensures BigValue(LengthOctets(n)) == n
  {
    hide LengthOctets, BigValue, Power256;
    LengthIsDigits(n);
    DigitsValue(n, 8);
    EightOctets();
    DivideBack(0, Power256(8), n);
  }

  lemma EightOctets()
    ensures Power256(8) == TWO_32 * TWO_32
  {
    hide Power256;
    Powers();
    NextPower(7);
  }

  lemma LengthIsDigits(n: nat)
    ensures LengthOctets(n) == Digits(n, 8)
  {
    hide NumberOctet, Digits;
    forall i | 0 <= i < 8 ensures LengthOctets(n)[i] == Digits(n, 8)[i] {
      DigitAt(n, 8, i);
    }
  }

  /** The padding octet by octet: the message, the octet 0x80, zeros, and the length in eight octets, in
      the fewest blocks that hold them. */
  lemma PaddedIs(m: seq<octet>, bits: nat)
    requires bits < TWO_32 * TWO_32
    ensures var d := Padded(m, bits); var n := |d|;
            && n % 64 == 0 && |m| + 9 <= n < |m| + 73
            && d[..|m|] == m && d[|m|] == 0x80 && (forall k :: |m| < k < n - 8 ==> d[k] == 0)
            && BigValue(d[n - 8..]) == bits
  {
    hide LengthOctets, BigValue;
    LengthValue(bits);
    var d := Padded(m, bits);
    assert d[|d| - 8..] == LengthOctets(bits);
  }

  // ---- HMAC, section 2 of RFC 2104 ----

  function KeyBlock(key: seq<octet>): (k: seq<octet>)
    ensures |k| == BLOCK
  {
    if |key| <= BLOCK then key + Zeros(BLOCK - |key|)
    else CountedHash(key) + Zeros(BLOCK - DIGEST)
  }

  function Xor(d: seq<octet>, pad: octet): (r: seq<octet>)
    ensures |r| == |d|
  {
    seq(|d|, i requires 0 <= i < |d| => d[i] ^ pad)
  }

  const IPAD: octet := 0x36
  const OPAD: octet := 0x5c

  /** The key block of the standard: a long key is hashed. */
  function StandardKeyBlock(key: seq<octet>): (k: seq<octet>)
    requires 8 * |key| < TWO_32 * TWO_32
    ensures |k| == BLOCK
  {
    (if |key| <= BLOCK then key else Hash(key)) + Zeros(BLOCK - (if |key| <= BLOCK then |key| else DIGEST))
  }

  function Hmac(key: seq<octet>, m: seq<octet>): seq<octet>
    requires 8 * |key| < TWO_32 * TWO_32 && 8 * (BLOCK + |m|) < TWO_32 * TWO_32
  {
    var k := StandardKeyBlock(key);
    Hash(Xor(k, OPAD) + Hash(Xor(k, IPAD) + m))
  }

  class Context {
    var h0: word
    var h1: word
    var h2: word
    var h3: word
    var h4: word
    var h5: word
    var h6: word
    var h7: word
    var nblocks: nat
    var count: nat
    var finalized: bool
    var useHmac: bool
    const buf: array<octet>
    const opad: array<octet>
    /** The octets of the blocks taken in so far. */
    ghost var taken: seq<octet>

    ghost function State(): Regs
      reads this`h0, this`h1, this`h2, this`h3, this`h4, this`h5, this`h6, this`h7
    {
      Regs(h0, h1, h2, h3, h4, h5, h6, h7)
    }

    ghost predicate Sized() {
      buf.Length == BLOCK && opad.Length == BLOCK && buf != opad
    }

    /** The octets given so far: the blocks taken in and what waits in the buffer. */
    ghost function Msg(): seq<octet>
      requires count <= buf.Length
      reads this, buf
    {
      taken + buf[..count]
    }

    /** The hash words are those after all blocks taken in, and the counters say how much there is. */
    ghost predicate Streaming()
      reads this, buf
    {
      && Sized() && !finalized && count <= BLOCK
      && |taken| % BLOCK == 0 && State() == Absorb(taken)
      && nblocks == Counter(|taken|)
    }

    /** Between calls a full block never waits in the buffer. */
    ghost predicate Ready()
      reads this, buf
    {
      Streaming() && count < BLOCK
    }

    constructor Plain()
      ensures Ready() && Msg() == [] && !useHmac
      ensures fresh(buf) && fresh(opad)
    {
      h0, h1, h2, h3 := 0x6a09e667, 0xbb67ae85, 0x3c6ef372, 0xa54ff53a;
      h4, h5, h6, h7 := 0x510e527f, 0x9b05688c, 0x1f83d9ab, 0x5be0cd19;
      nblocks, count, finalized, useHmac := 0, 0, false, false;
      buf := new octet[BLOCK];
      opad := new octet[BLOCK];
      taken := [];
    }

    /** The compression function on one block. */
    method Transform(data: seq<octet>)
      requires |data| == BLOCK
      modifies this`h0, this`h1, this`h2, this`h3, this`h4, this`h5, this`h6, this`h7
      ensures State() == Compress(old(State()), data)
    {
      hide Add, K, BigSigma0, BigSigma1, Sum0, Sum1, Ch, Maj, Cho, Majority, BigEndian, W, Rounds;
      var a, b, c, d, e, f, g, h := h0, h1, h2, h3, h4, h5, h6, h7;
      ghost var start := State();
      var w := Schedule(data);
      var i := 0;
      RoundsStart(start, data);
      while i < 64
        invariant i <= 64 && w.Length == 64 && fresh(w)
        invariant forall t :: 0 <= t < 64 ==> w[t] == W(data, t)
        invariant Regs(a, b, c, d, e, f, g, h) == Rounds(start, data, i)
        invariant State() == start
      {
        SameRoundFunctions(e, f, g);
        SameRoundFunctions(a, b, c);
        SameSums(e);
        SameSums(a);
        RoundsStep(start, data, i);
        var t1 := Add(Add(Add(Add(h, Sum1(e)), Cho(e, f, g)), K(i)), w[i]);
        var t2 := Add(Sum0(a), Majority(a, b, c));
        h := g;
        g := f;
        f := e;
        e := Add(d, t1);
        d := c;
        c := b;
        b := a;
        a := Add(t1, t2);
        i := i + 1;
      }
      h0 := Add(h0, a);
      h1 := Add(h1, b);
      h2 := Add(h2, c);
      h3 := Add(h3, d);
      h4 := Add(h4, e);
      h5 := Add(h5, f);
      h6 := Add(h6, g);
      h7 := Add(h7, h);
    }

    /** One more block has been through the compression function. */
    method BlockTaken(block: seq<octet>)
      requires Sized() && !finalized && |block| == BLOCK
      requires |taken| % BLOCK == 0 && State() == Compress(Absorb(taken), block)
      requires nblocks == Counter(|taken|)
      modifies this`count, this`nblocks, this`taken
      ensures Ready() && count == 0 && taken == old(taken) + block
    {
      hide Absorb, Compress, State, Counter, Wrap;
      AbsorbBlock(taken, block);
      NextCounter(|taken|);
      count := 0;
      nblocks := Wrap(nblocks + 1);
      taken := taken + block;
    }

    /** Take in the buffer when it is full. */
    method Flush()
      requires Streaming()
      modifies this
      ensures Ready() && Msg() == old(Msg()) && useHmac == old(useHmac)
      ensures old(count) < BLOCK ==> State() == old(State()) && taken == old(taken) && count == old(count)
      ensures old(count) == BLOCK ==> count == 0
    {
      hide Absorb, Compress, State, Counter;
      if count == BLOCK {
        assert buf[..] == buf[..count];
        Transform(buf[..]);
        BlockTaken(buf[..]);
      }
    }

    /** One octet more in the buffer. */
    method Append(c: octet)
      requires Streaming() && count < BLOCK
      modifies this`count, buf
      ensures Streaming() && count == old(count) + 1 && buf[..count] == old(buf[..count]) + [c]
      ensures Msg() == old(Msg()) + [c]
    {
      hide Absorb, State, Counter;
      buf[count] := c;
      count := count + 1;
    }

    /** Put octets of `data` from `i` on into the buffer until it is full or `data` ends. */
    method Gather(data: seq<octet>, i: nat) returns (j: nat)
      requires Streaming() && i <= |data|
      modifies this`count, buf
      ensures Streaming() && i <= j <= |data| && Msg() == old(Msg()) + data[i..j]
      ensures count == old(count) + (j - i) && (j == |data| || count == BLOCK)
    {
      hide Absorb, State, Counter, Msg;
      ghost var m := Msg();
      OnePart(m, data, i, i);
      j := i;
      while j < |data| && count < BLOCK
        invariant Streaming() && i <= j <= |data| && Msg() == m + data[i..j] && count == old(count) + (j - i)
      {
        OnePart(m, data, i, j);
        Append(data[j]);
        j := j + 1;
      }
    }

    /** Take in more of the message. A finalized context silently ignores it. */
    method Update(data: seq<octet>)
      requires finalized || Ready()
      modifies this, buf
      ensures old(finalized) ==> State() == old(State()) && finalized && buf[..] == old(buf[..])
      ensures !old(finalized) ==> Ready() && Msg() == old(Msg()) + data
      ensures useHmac == old(useHmac) && opad[..] == old(opad[..])
    {
      hide Absorb, Compress, State, Counter;
      if finalized {
        return;
      }
      var i := 0;
      if count > 0 {
        i := Gather(data, i);
        Flush();
        if i == |data| {
          assert data[0..i] == data;
          return;
        }
      }
      ghost var j := i;
      assert Msg() == taken;
      i := TakeBlocks(data, i);
      ghost var k := i;
      assert Msg() == taken;
      i := Gather(data, i);
      ThreeParts(old(Msg()), data, j, k);
    }

    /** The whole blocks of `data` from `i` on. */
    method TakeBlocks(data: seq<octet>, i: nat) returns (j: nat)
      requires Ready() && count == 0 && i <= |data|
      modifies this
      ensures Ready() && count == 0 && i <= j <= |data| && |data| - j < BLOCK
      ensures taken == old(taken) + data[i..j] && useHmac == old(useHmac)
    {
      hide Streaming;
      j := i;
      while |data| - j >= BLOCK
        invariant Ready() && count == 0 && i <= j <= |data|
        invariant taken == old(taken) + data[i..j] && useHmac == old(useHmac)
      {
        TwoParts(data, i, j, j + BLOCK);
        TakeBlock(data[j..j + BLOCK]);
        j := j + BLOCK;
      }
    }

    /** A whole block goes past the empty buffer. */
    method TakeBlock(block: seq<octet>)
      requires Ready() && count == 0 && |block| == BLOCK
      modifies this
      ensures Ready() && count == 0 && taken == old(taken) + block && useHmac == old(useHmac)
    {
      hide Absorb, Compress, State, Counter;
      Transform(block);
      BlockTaken(block);
    }

    /** Pad octets up to, not including, position `to`. */
    method PadTo(to: nat)
      requires Streaming() && count < to <= BLOCK
      modifies this`count, buf
      ensures Streaming() && count == to
      ensures buf[..to] == old(buf[..count]) + [0x80] + Zeros(to - old(count) - 1)
    {
      hide Absorb, State, Counter;
      ghost var n := count;
      Append(0x80);
      while count < to
        invariant Streaming() && n < count <= to
        invariant buf[..count] == old(buf[..count]) + [0x80] + Zeros(count - n - 1)
      {
        Append(0);
      }
    }

    /** The bit count, as two 32-bit words, at the end of the buffer. */
    method PutLength(msb: nat, lsb: nat)
      requires Sized() && msb < TWO_32 && lsb < TWO_32
      modifies buf
      ensures buf[..] == old(buf[..56]) + LengthOctets(msb * TWO_32 + lsb)
    {
      hide Low8;
      LengthInTwoWords(msb, lsb);
      buf[56] := Low8(msb / 0x100_0000);
      buf[57] := Low8(msb / 0x1_0000);
      buf[58] := Low8(msb / 0x100);
      buf[59] := Low8(msb);
      buf[60] := Low8(lsb / 0x100_0000);
      buf[61] := Low8(lsb / 0x1_0000);
      buf[62] := Low8(lsb / 0x100);
      buf[63] := Low8(lsb);
    }

    method PutWord(at: nat, w: word)
      requires Sized() && at + 4 <= BLOCK
      modifies buf
      ensures buf[..at + 4] == old(buf[..at]) + WordOctets(w)
    {
      buf[at] := OctetOf(w, 24);
      buf[at + 1] := OctetOf(w, 16);
      buf[at + 2] := OctetOf(w, 8);
      buf[at + 3] := OctetOf(w, 0);
    }

    method PutDigest()
      requires Sized()
      modifies buf
      ensures buf[..DIGEST] == DigestOf(State())
    {
      hide WordOctets;
      PutWords(0, h0, h1, h2, h3);
      assert buf[..0] == [];
      PutWords(16, h4, h5, h6, h7);
      DigestInHalves(State());
    }

    method PutWords(at: nat, w0: word, w1: word, w2: word, w3: word)
      requires Sized() && at + 16 <= BLOCK
      modifies buf
      ensures buf[..at + 16] == old(buf[..at]) + (WordOctets(w0) + WordOctets(w1) + WordOctets(w2) + WordOctets(w3))
    {
      hide WordOctets;
      PutWord(at, w0);
      PutWord(at + 4, w1);
      PutWord(at + 8, w2);
      PutWord(at + 12, w3);
    }

    /** Pad up to the place of the length, over one block more when this one has no room for it. */
    method Pad()
      requires Ready()
      modifies this, buf
      ensures Sized() && !finalized && |taken| % BLOCK == 0 && State() == Absorb(taken)
      ensures useHmac == old(useHmac)
      ensures forall bits :: Padded(old(Msg()), bits) == taken + (buf[..56] + LengthOctets(bits))
    {
      hide Absorb, Compress, State, Padded, LengthOctets;
      ghost var full, rest := taken, buf[..count];
      if count < 56 {
        PadTo(56);
      } else {
        PadTo(64);
        Flush();
        var k := 0;
        while k < 56
          invariant k <= 56 && buf[..k] == Zeros(k)
          invariant Ready() && useHmac == old(useHmac)
          invariant taken == full + (rest + [0x80] + Zeros(63 - |rest|))
        {
          buf[k] := 0;
          k := k + 1;
        }
      }
      forall bits ensures Padded(full + rest, bits) == taken + (buf[..56] + LengthOctets(bits)) {
        PaddedEnds(full, rest, taken, buf[..56], bits);
      }
    }

    /** Pad, take in the last one or two blocks, and leave the digest in the buffer. */
    method FinalizeHash()
      requires Sized() && (finalized || Ready())
      modifies this, buf
      ensures finalized && useHmac == old(useHmac)
      ensures old(finalized) ==> buf[..] == old(buf[..])
      ensures !old(finalized) ==> buf[..DIGEST] == CountedHash(old(Msg()))
    {
      hide Absorb, Compress, State, DigestOf, Padded, LengthOctets, Power256;
      if finalized {
        return;
      }
      Flush();
      ghost var m := Msg();
      CountedOf(taken, count);
      var msb, lsb := BitCount(nblocks, count);
      Pad();
      PutLength(msb, lsb);
      AbsorbBlock(taken, buf[..]);
      Transform(buf[..]);
      PutDigest();
      finalized := true;
    }

    /** The key block goes, with the two pads, to the inner and the outer hash. */
    method Prepare(ipad: array<octet>, k: seq<octet>)
      requires Sized() && ipad.Length == BLOCK && ipad != opad && |k| <= BLOCK
      modifies ipad, opad
      ensures ipad[..] == Xor(k + Zeros(BLOCK - |k|), IPAD) && opad[..] == Xor(k + Zeros(BLOCK - |k|), OPAD)
    {
      ghost var block := k + Zeros(BLOCK - |k|);
      forall i | 0 <= i < BLOCK {
        ipad[i] := if i < |k| then k[i] else 0;
      }
      forall i | 0 <= i < BLOCK {
        opad[i] := if i < |k| then k[i] else 0;
      }
      var i := 0;
      while i < 64
        invariant i <= 64
        invariant forall t :: 0 <= t < 64 ==> ipad[t] == (if t < i then block[t] ^ IPAD else block[t])
        invariant forall t :: 0 <= t < 64 ==> opad[t] == (if t < i then block[t] ^ OPAD else block[t])
      {
        ipad[i] := ipad[i] ^ 0x36;
        opad[i] := opad[i] ^ 0x5c;
        i := i + 1;
      }
    }

    /** The digest. A second call hashes the first one's result once more when there is a key. */
    method Finish() returns (d: seq<octet>)
      requires Sized() && (finalized || Ready())
      modifies this, buf
      ensures finalized && useHmac == old(useHmac) && d == buf[..DIGEST]
      ensures var inner := if old(finalized) then old(buf[..DIGEST]) else CountedHash(old(Msg()));
              d == if useHmac then CountedHash(opad[..] + inner) else inner
    {
      hide CountedHash, State, Absorb, Counter;
      FinalizeHash();
      ghost var inner := buf[..DIGEST];
      assert old(finalized) ==> inner == buf[..][..DIGEST] == old(buf[..])[..DIGEST] == old(buf[..DIGEST]);
      if useHmac {
        d := HashOf(opad[..], buf[..DIGEST]);
        forall i | 0 <= i < DIGEST {
          buf[i] := d[i];
        }
        assert opad[..] == old(opad[..]);
      }
      d := buf[..DIGEST];
    }
  }

  /** The plain hash of two pieces, in a context of its own. */
  method HashOf(p: seq<octet>, q: seq<octet>) returns (d: seq<octet>)
    ensures d == CountedHash(p + q)
  {
    hide CountedHash, Context.State, Absorb, Counter;
    var tmp := new Context.Plain();
    tmp.Update(p);
    tmp.Update(q);
    assert tmp.Msg() == p + q;
    tmp.FinalizeHash();
    d := tmp.buf[..DIGEST];
  }

  /** A context for the plain hash, or for HMAC when there is a key. */
  method New(key: Option<seq<octet>>) returns (hd: Context)
    ensures fresh(hd) && fresh(hd.buf) && fresh(hd.opad) && hd.Ready()
    ensures key.None? ==> !hd.useHmac && hd.Msg() == []
    ensures key.Some? ==>
              && hd.useHmac && hd.Msg() == Xor(KeyBlock(key.value), IPAD)
              && hd.opad[..] == Xor(KeyBlock(key.value), OPAD)
  {
    hide CountedHash, KeyBlock, Xor, Context.State, Absorb, Counter;
    hd := new Context.Plain();
    if key.Some? {
      var ipad := new octet[BLOCK];
      var k := ShortKey(key.value);
      hd.Prepare(ipad, k);
      hd.useHmac := true;
      hd.Update(ipad[..]);
      assert hd.Msg() == ipad[..];
    }
  }

  /** A key longer than a block is replaced by its hash. */
  method ShortKey(key: seq<octet>) returns (k: seq<octet>)
    ensures |k| <= BLOCK && k + Zeros(BLOCK - |k|) == KeyBlock(key)
  {
    hide CountedHash, KeyBlock;
    KeyBlockIs(key);
    if |key| <= BLOCK {
      k := key;
    } else {
      k := HashOf(key, []);
      assert key + [] == key;
    }
  }

  lemma KeyBlockIs(key: seq<octet>)
    ensures |key| <= BLOCK ==> KeyBlock(key) == key + Zeros(BLOCK - |key|)
    ensures |key| > BLOCK ==> KeyBlock(key) == CountedHash(key) + Zeros(BLOCK - DIGEST)
  {
    hide CountedHash;
  }

  /** The program's two nested hashes, or its plain hash without a key. */
  function CountedMac(key: Option<seq<octet>>, m: seq<octet>): seq<octet> {
    if key.None? then CountedHash(m)
    else CountedHash(Xor(KeyBlock(key.value), OPAD) + CountedHash(Xor(KeyBlock(key.value), IPAD) + m))
  }

  /** HMAC, or the plain hash without a key, of a message that arrives in pieces. */
  method Mac(key: Option<seq<octet>>, pieces: seq<seq<octet>>) returns (d: seq<octet>)
    ensures d == CountedMac(key, Concat(pieces))
  {
    hide CountedHash, KeyBlock, Xor, Context.State, Absorb, Counter;
    var hd := New(key);
    ghost var start := hd.Msg();
    UpdateAll(hd, pieces);
    assert start == [] ==> start + Concat(pieces) == Concat(pieces);
    ghost var outer := hd.opad[..];
    d := hd.Finish();
    assert hd.opad[..] == outer;
  }

  method UpdateAll(hd: Context, pieces: seq<seq<octet>>)
    requires hd.Ready()
    modifies hd, hd.buf
    ensures hd.Ready() && hd.Msg() == old(hd.Msg()) + Concat(pieces)
    ensures hd.useHmac == old(hd.useHmac) && hd.opad[..] == old(hd.opad[..])
  {
    hide Context.State, Absorb, Counter;
    var i := 0;
    ghost var start := hd.Msg();
    assert Concat(pieces[..0]) == [];
    while i < |pieces|
      invariant i <= |pieces| && hd.Ready()
      invariant hd.Msg() == start + Concat(pieces[..i])
      invariant hd.useHmac == old(hd.useHmac) && hd.opad[..] == old(hd.opad[..])
    {
      ConcatOneMore(pieces, i);
      hd.Update(pieces[i]);
      i := i + 1;
    }
    assert pieces[..i] == pieces;
  }

  function Concat(pieces: seq<seq<octet>>): seq<octet> {
    if pieces == [] then [] else Concat(pieces[..|pieces| - 1]) + pieces[|pieces| - 1]
  }

  lemma ConcatOneMore(pieces: seq<seq<octet>>, i: nat)
    requires i < |pieces|
    ensures Concat(pieces[..i + 1]) == Concat(pieces[..i]) + pieces[i]
  {
    assert pieces[..i + 1][..i] == pieces[..i];
  }

  /** Within the lengths the counters can say, the key block is the standard's. */
  lemma KeyBlockIsStandard(key: seq<octet>)
    requires |key| < 0x40_0000_0000
    ensures KeyBlock(key) == StandardKeyBlock(key)
  {
    hide CountedHash, Hash;
    CountedHashIsHash(key);
  }

  /** Within these lengths the program's two nested hashes are the standard's HMAC. */
  lemma MacIsStandard(key: seq<octet>, m: seq<octet>)
    requires |key| < 0x40_0000_0000 && BLOCK + |m| < 0x40_0000_0000
    ensures CountedMac(Some(key), m) == Hmac(key, m)
  {
    hide CountedHash, Hash, KeyBlock, StandardKeyBlock, Xor;
    KeyBlockIsStandard(key);
    var k := KeyBlock(key);
    CountedHashIsHash(Xor(k, IPAD) + m);
    CountedHashIsHash(Xor(k, OPAD) + CountedHash(Xor(k, IPAD) + m));
  }

  /** The same written out: the key, hashed when it is longer than 64 octets, is filled with zeros and
      combined with 0x36 for the inner hash and with 0x5c for the outer one. */
  lemma MacWrittenOut(key: seq<octet>, m: seq<octet>)
    requires |key| < 0x40_0000_0000 && 64 + |m| < 0x40_0000_0000
    ensures var k := if |key| > 64 then Hash(key) else key;
            var inner := seq(64, i requires 0 <= i < 64 => (if i < |k| then k[i] else 0) ^ 0x36);
            var outer := seq(64, i requires 0 <= i < 64 => (if i < |k| then k[i] else 0) ^ 0x5c);
            CountedMac(Some(key), m) == Hash(outer + Hash(inner + m))
    ensures CountedMac(None, m) == Hash(m)
  {
    hide CountedHash, Hash;
    CountedHashIsHash(m);
    MacIsStandard(key, m);
    var k := if |key| > 64 then Hash(key) else key;
    var inner := seq(64, i requires 0 <= i < 64 => (if i < |k| then k[i] else 0) ^ 0x36);
    var outer := seq(64, i requires 0 <= i < 64 => (if i < |k| then k[i] else 0) ^ 0x5c);
    assert Xor(StandardKeyBlock(key), 0x36) == inner;
    assert Xor(StandardKeyBlock(key), 0x5c) == outer;
  }

  /** The bit count in two 32-bit words, from the block counter and what is in the buffer. */
  method BitCount(nblocks: nat, count: nat) returns (msb: nat, lsb: nat)
    requires nblocks < TWO_32 && count < BLOCK
    ensures msb < TWO_32 && lsb < TWO_32
    ensures msb * TWO_32 + lsb == 8 * (nblocks * BLOCK + count)
  {
    CarryArithmetic(nblocks, count);
    hide Wrap;
    var t := nblocks;
    lsb := Wrap(t * 64);
    msb := t / 0x400_0000;
    t := lsb;
    lsb := Wrap(lsb + count);
    // A carry, though there never is one: the low word is a multiple of 64 before the count is added.
    msb := Wrap(msb + if lsb < t then 1 else 0);
    t := lsb;
    lsb := Wrap(lsb * 8);
    // The shifted word has three zero bits at its end: or-ing into them is adding.
    msb := Wrap(msb * 8) + t / 0x2000_0000;
  }

  /** The two 32-bit words make up the bit count, with the carry between them. */
  lemma CarryArithmetic(nblocks: nat, count: nat)
    requires nblocks < TWO_32 && count < 64
    ensures var low := Wrap(nblocks * 64);
            var high := nblocks / 0x400_0000;
            && Wrap(low + count) == low + count && Wrap(high) == high && Wrap(high * 8) == high * 8
            && high * 8 + (low + count) / 0x2000_0000 < TWO_32
            && (high * 8 + (low + count) / 0x2000_0000) * TWO_32 + Wrap((low + count) * 8)
               == 8 * (nblocks * BLOCK + count)
  {
    hide Wrap;
    var hi, lo := nblocks / 0x400_0000, nblocks % 0x400_0000;
    Divided(nblocks, 0x400_0000);
    assert hi < 64;
    WrapOf(hi, lo * 64);
    WrapOf(0, lo * 64 + count);
    WrapOf(0, hi);
    WrapOf(0, hi * 8);
    ShiftThree(lo * 64 + count);
  }

  lemma WrapOf(q: nat, r: nat)
    requires r < TWO_32
    ensures Wrap(q * TWO_32 + r) == r
  {
    DivideBack(q, TWO_32, r);
  }

  lemma ShiftThree(s: nat)
    requires s < TWO_32
    ensures s / 0x2000_0000 < 8 && s / 0x2000_0000 * TWO_32 + Wrap(s * 8) == 8 * s
  {
    hide Wrap;
    var q, r := s / 0x2000_0000, s % 0x2000_0000;
    Divided(s, 0x2000_0000);
    assert s * 8 == q * TWO_32 + r * 8;
    WrapOf(q, r * 8);
  }

  lemma CountedOf(taken: seq<octet>, n: nat)
    requires |taken| % BLOCK == 0 && n < BLOCK
    ensures CountedBits(|taken| + n) == 8 * (Counter(|taken|) * BLOCK + n)
  {
    DivideBack(|taken| / BLOCK, BLOCK, n);
  }

  lemma LengthInTwoWords(msb: nat, lsb: nat)
    requires msb < TWO_32 && lsb < TWO_32
    ensures LengthOctets(msb * TWO_32 + lsb)
         == [Low8(msb / 0x100_0000), Low8(msb / 0x1_0000), Low8(msb / 0x100), Low8(msb),
             Low8(lsb / 0x100_0000), Low8(lsb / 0x1_0000), Low8(lsb / 0x100), Low8(lsb)]
  {
    hide Power256, Low8;
    Powers();
    LowOctet(msb * 0x100_0000, lsb, 1);
    LowOctet(msb * 0x1_0000, lsb, 0x100);
    LowOctet(msb * 0x100, lsb, 0x1_0000);
    LowOctet(msb, lsb, 0x100_0000);
    HighOctet(msb, lsb, 1);
    HighOctet(msb, lsb, 0x100);
    HighOctet(msb, lsb, 0x1_0000);
    HighOctet(msb, lsb, 0x100_0000);
  }

  /** The octets of the low word are below 2^32, so the high word does not reach them. */
  lemma LowOctet(x: nat, y: nat, p: nat)
    requires p > 0
    ensures Low8((x * 256 * p + y) / p) == Low8(y / p)
  {
    hide Low8;
    QuotientOfSum(x * 256, y, p);
    SameLowOctet(x, y / p);
  }

  lemma SameLowOctet(x: nat, y: nat)
    ensures Low8(x * 256 + y) == Low8(y)
  {
    assert (x * 256 + y) % 256 == y % 256;
  }

  lemma HighOctet(msb: nat, lsb: nat, p: nat)
    requires lsb < TWO_32 && p > 0
    ensures p * TWO_32 > 0 && Low8((msb * TWO_32 + lsb) / (p * TWO_32)) == Low8(msb / p)
  {
    hide Low8;
    DivideTwice(msb * TWO_32 + lsb, TWO_32, p);
    DivideBack(msb, TWO_32, lsb);
  }

  lemma TwoParts(d: seq<octet>, i: nat, j: nat, k: nat)
    requires i <= j <= k <= |d|
    ensures d[i..k] == d[i..j] + d[j..k]
  {}

  lemma OnePart(m: seq<octet>, d: seq<octet>, i: nat, j: nat)
    requires i <= j <= |d|
    ensures m + d[i..i] == m
    ensures j < |d| ==> m + d[i..j] + [d[j]] == m + d[i..j + 1]
  {}

  lemma ThreeParts(m: seq<octet>, d: seq<octet>, j: nat, k: nat)
    requires j <= k <= |d|
    ensures m + d == m + d[0..j] + d[j..k] + d[k..|d|]
    ensures j == 0 ==> m + d == m + d[j..k] + d[k..|d|]
  {}

  lemma DigestInHalves(r: Regs)
    ensures DigestOf(r) == [] + (WordOctets(r.a) + WordOctets(r.b) + WordOctets(r.c) + WordOctets(r.d))
                              + (WordOctets(r.e) + WordOctets(r.f) + WordOctets(r.g) + WordOctets(r.h))
  {
    hide WordOctets;
  }

  /** The 64 words of the message schedule. */
  method Schedule(data: seq<octet>) returns (w: array<word>)
    requires |data| == BLOCK
    ensures fresh(w) && w.Length == 64
    ensures forall t :: 0 <= t < 64 ==> w[t] == W(data, t)
  {
    hide Add, SmallSigma0, SmallSigma1, S0, S1, BigEndian, W;
    w := new word[64];
    var i := 0;
    while i < 16
      invariant i <= 16
      invariant forall t :: 0 <= t < i ==> w[t] == W(data, t)
    {
      ScheduleWord(data, i);
      w[i] := BigEndian(data, 4 * i);
      i := i + 1;
    }
    while i < 64
      invariant 16 <= i <= 64
      invariant forall t :: 0 <= t < i ==> w[t] == W(data, t)
    {
      ScheduleWord(data, i);
      SameSums(w[i - 2]);
      SameSums(w[i - 15]);
      w[i] := Add(Add(Add(S1(w[i - 2]), w[i - 7]), S0(w[i - 15])), w[i - 16]);
      i := i + 1;
    }
  }

  lemma ScheduleWord(data: seq<octet>, t: nat)
    requires |data| == BLOCK && t < 64
    ensures t < 16 ==> W(data, t) == BigEndian(data, 4 * t)
    ensures t >= 16 ==>
              W(data, t) == Add(Add(Add(SmallSigma1(W(data, t - 2)), W(data, t - 7)), SmallSigma0(W(data, t - 15))),
                                W(data, t - 16))
  {
    hide Add, SmallSigma0, SmallSigma1, BigEndian;
  }

  lemma RoundsStart(r: Regs, block: seq<octet>)
    requires |block| == BLOCK
    ensures Rounds(r, block, 0) == r
  {}

  lemma RoundsStep(r: Regs, block: seq<octet>, n: nat)
    requires |block| == BLOCK && n < 64
    ensures Rounds(r, block, n + 1) == Round(Rounds(r, block, n), K(n), W(block, n))
  {}

  /** What is fed to the compression function at the end is the padding of the standard. */
  lemma PaddedEnds(full: seq<octet>, rest: seq<octet>, taken: seq<octet>, last: seq<octet>, bits: nat)
    requires |full| % BLOCK == 0 && |rest| < BLOCK
    requires if |rest| < 56 then taken == full && last == rest + [0x80] + Zeros(55 - |rest|)
             else taken == full + (rest + [0x80] + Zeros(63 - |rest|)) && last == Zeros(56)
    ensures Padded(full + rest, bits) == taken + (last + LengthOctets(bits))
  {
    hide LengthOctets;
    var n := |rest|;
    assert |full + rest| % BLOCK == n;
    if n >= 56 {
      assert Zeros(119 - n) == Zeros(63 - n) + Zeros(56);
    }
  }
}
