/** Known answers: the example of appendix B.1 of FIPS 180-2, and the first vector of the program's own
    self test. */
module KnownAnswers {
  import opened Bytes
  import opened Sha256
  import opened Hmac256
  import opened TraceWords
  import opened TraceChecks

  // ---- octets ----

  /** A block that ends a message: what is left of the message, and the padding. */
  function LastBlock(rest: seq<octet>, bits: nat): (d: seq<octet>)
    requires |rest| < 56
    ensures |d| == BLOCK
  {
    rest + [0x80] + Zeros(55 - |rest|) + LengthOctets(bits)
  }

  /** Behind the rest and the octet 0x80 there are zero words up to the length. */
  lemma ZeroWords(rest: seq<octet>, bits: nat, t: nat)
    requires |rest| < 4 * t && t < 14
    ensures BigEndian(LastBlock(rest, bits), 4 * t) == 0
  {
    hide LengthOctets;
    assert FourOctets(0, 0, 0, 0) == 0;
  }

  lemma MarkWord(rest: seq<octet>, bits: nat, t: nat)
    requires |rest| == 4 * t && t < 14
    ensures BigEndian(LastBlock(rest, bits), 4 * t) == 0x8000_0000
  {
    hide LengthOctets;
    assert FourOctets(0x80, 0, 0, 0) == 0x8000_0000;
  }

  lemma RestWord(rest: seq<octet>, bits: nat, t: nat)
    requires 4 * t + 4 <= |rest| < 56
    ensures BigEndian(LastBlock(rest, bits), 4 * t) == BigEndian(rest, 4 * t)
  {
    hide LengthOctets, FourOctets;
  }

  lemma LengthWords(rest: seq<octet>, bits: nat)
    requires |rest| < 56
    ensures BigEndian(LastBlock(rest, bits), 56) == BigEndian(LengthOctets(bits), 0)
    ensures BigEndian(LastBlock(rest, bits), 60) == BigEndian(LengthOctets(bits), 4)
  {
    hide LengthOctets, FourOctets;
  }

  /** The length field of a message below 8192 octets. */
  lemma ShortLength(bits: nat, high: octet, low: octet)
    requires bits < 0x1_0000 && Low8(bits / 0x100) == high && Low8(bits) == low
    ensures BigEndian(LengthOctets(bits), 0) == 0
    ensures BigEndian(LengthOctets(bits), 4) == FourOctets(0, 0, high, low)
  {
    hide Low8, Power256, FourOctets;
    Powers();
    NoBits();
    HighQuotients(bits);
    NoOctets();
  }

  lemma HighQuotients(bits: nat)
    requires bits < 0x1_0000
    ensures bits / 0x1_0000 == bits / 0x100_0000 == bits / 0x1_0000_0000 == bits / 0x100_0000_0000 == 0
    ensures bits / 0x1_0000_0000_0000 == bits / 0x100_0000_0000_0000 == 0
  {}

  lemma NoOctets()
    ensures FourOctets(0, 0, 0, 0) == 0
  {}

  lemma NoBits()
    ensures Low8(0) == 0
  {
    hide Low8;
    Low8Bits(0, 0, 0, 0, 0, 0, 0, 0, 0);
  }

  /** The lowest octet from the lowest eight bits. */
  lemma Low8Bits(n: nat, n0: nat, n1: nat, n2: nat, n3: nat, n4: nat, n5: nat, n6: nat, n7: nat)
    requires n0 < 2 && n1 < 2 && n2 < 2 && n3 < 2 && n4 < 2 && n5 < 2 && n6 < 2 && n7 < 2
    requires n % 256 == n0 + 2 * (n1 + 2 * (n2 + 2 * (n3 + 2 * (n4 + 2 * (n5 + 2 * (n6 + 2 * n7))))))
    ensures Low8(n) == FromBits(n0, n1, n2, n3, n4, n5, n6, n7)
  {
    hide FromBits, Parity, Half;
    var m6 := n6 + 2 * n7;
    var m5 := n5 + 2 * m6;
    var m4 := n4 + 2 * m5;
    var m3 := n3 + 2 * m4;
    var m2 := n2 + 2 * m3;
    var m1 := n1 + 2 * m2;
    LastBit(n0, m1);
    LastBit(n1, m2);
    LastBit(n2, m3);
    LastBit(n3, m4);
    LastBit(n4, m5);
    LastBit(n5, m6);
    LastBit(n6, n7);
    LastBit(n7, 0);
  }

  lemma LastBit(b: nat, m: nat)
    requires b < 2
    ensures Parity(b + 2 * m) == b && Half(b + 2 * m) == m
  {}

  lemma Low8Of24()
    ensures Low8(24) == 24
  {
    hide Low8;
    Low8Bits(24, 0, 0, 0, 1, 1, 0, 0, 0);
  }

  lemma Low8Of736()
    ensures Low8(736) == 0xe0 && Low8(736 / 0x100) == 2
  {
    hide Low8;
    Low8Bits(736, 0, 0, 0, 0, 0, 1, 1, 1);
    Low8Bits(2, 0, 1, 0, 0, 0, 0, 0, 0);
  }

  lemma Low8Of768()
    ensures Low8(768) == 0 && Low8(768 / 0x100) == 3
  {
    hide Low8;
    Low8Bits(768, 0, 0, 0, 0, 0, 0, 0, 0);
    Low8Bits(3, 1, 1, 0, 0, 0, 0, 0, 0);
  }

  lemma WordIs(block: seq<octet>, t: nat)
    requires |block| == BLOCK && t < 16
    ensures W(block, t) == BigEndian(block, 4 * t)
  {
    hide FourOctets;
  }

  // ---- the hash of "abc" ----

  const ABC: seq<octet> := [0x61, 0x62, 0x63]

  lemma AbcFits()
    ensures Fits(LastBlock(ABC, 24), AbcSteps0(), 0) && Fits(LastBlock(ABC, 24), AbcSteps1(), 8)
  {
    hide Low8, LengthOctets, BigEndian, W, Fits;
    var d := LastBlock(ABC, 24);
    NoBits();
    Low8Of24();
    ShortLength(24, 0, 24);
    LengthWords(ABC, 24);
    AbcFirstWord(d);
    forall t | 0 <= t < 16 ensures W(d, t) == if t == 0 then 0x61626380 else if t == 15 then 24 else 0 {
      WordIs(d, t);
      if 0 < t < 14 {
        ZeroWords(ABC, 24, t);
      }
    }
    RowWords(d, AbcSteps0(), 0);
    RowWords(d, AbcSteps1(), 8);
  }

  lemma AbcFirstWord(d: seq<octet>)
    requires d == LastBlock(ABC, 24)
    ensures BigEndian(d, 0) == 0x61626380
    ensures FourOctets(0, 0, 0, 24) == 24
  {
    hide LengthOctets;
  }

  lemma OneBlock(d: seq<octet>)
    requires |d| == BLOCK
    ensures Absorb(d) == Compress(IV, d)
  {
    hide Compress;
    AbsorbBlock([], d);
    assert [] + d == d;
  }

  /** Appendix B.1 of FIPS 180-2. */
  lemma HashOfAbc()
    ensures Hash([0x61, 0x62, 0x63])
         == [0xba, 0x78, 0x16, 0xbf, 0x8f, 0x01, 0xcf, 0xea, 0x41, 0x41, 0x40, 0xde, 0x5d, 0xae, 0x22, 0x23,
             0xb0, 0x03, 0x61, 0xa3, 0x96, 0x17, 0x7a, 0x9c, 0xb4, 0x10, 0xff, 0x61, 0xf2, 0x00, 0x15, 0xad]
  {
    hide Compress, Absorb, LengthOctets, DigestOf, AbcResult, Fits;
    var d := LastBlock(ABC, 24);
    assert Padded(ABC, 24) == d;
    OneBlock(d);
    AbcFits();
    AbcCompress(d);
    AbcDigest();
  }

  lemma AbcDigest()
    ensures DigestOf(AbcResult())
         == [0xba, 0x78, 0x16, 0xbf, 0x8f, 0x01, 0xcf, 0xea, 0x41, 0x41, 0x40, 0xde, 0x5d, 0xae, 0x22, 0x23,
             0xb0, 0x03, 0x61, 0xa3, 0x96, 0x17, 0x7a, 0x9c, 0xb4, 0x10, 0xff, 0x61, 0xf2, 0x00, 0x15, 0xad]
  {}

  // ---- the first answer of the self test ----

  const KEY: seq<octet> := [0x4a, 0x65, 0x66, 0x65]

  /** "what do ya want for nothing?" */
  const TEXT: seq<octet> :=
    [0x77, 0x68, 0x61, 0x74, 0x20, 0x64, 0x6f, 0x20, 0x79, 0x61, 0x20, 0x77, 0x61, 0x6e, 0x74, 0x20,
     0x66, 0x6f, 0x72, 0x20, 0x6e, 0x6f, 0x74, 0x68, 0x69, 0x6e, 0x67, 0x3f]

  lemma KeyPad(pad: octet, t: nat)
    requires t < 16
    ensures var d := Xor(KEY + Zeros(60), pad);
            && |d| == BLOCK
            && BigEndian(d, 4 * t)
               == if t == 0 then FourOctets(0x4a ^ pad, 0x65 ^ pad, 0x66 ^ pad, 0x65 ^ pad)
                  else FourOctets(pad, pad, pad, pad)
  {
    hide FourOctets;
    NoChange(pad);
  }

  lemma NoChange(pad: octet)
    ensures 0 ^ pad == pad
  {}

  lemma InnerKeyFits()
    ensures var d := Xor(KEY + Zeros(60), 0x36); Fits(d, InnerKeySteps0(), 0) && Fits(d, InnerKeySteps1(), 8)
  {
    hide Xor, BigEndian, FourOctets, W, Fits;
    var d := Xor(KEY + Zeros(60), 0x36);
    InnerPadWords();
    forall t | 0 <= t < 16 ensures W(d, t) == if t == 0 then 0x7c535053 else 0x36363636 {
      KeyPad(0x36, t);
      WordIs(d, t);
    }
    RowWords(d, InnerKeySteps0(), 0);
    RowWords(d, InnerKeySteps1(), 8);
  }

  lemma InnerPadWords()
    ensures FourOctets(0x4a ^ 0x36, 0x65 ^ 0x36, 0x66 ^ 0x36, 0x65 ^ 0x36) == 0x7c535053
    ensures FourOctets(0x36, 0x36, 0x36, 0x36) == 0x36363636
  {}

  lemma OuterKeyFits()
    ensures var d := Xor(KEY + Zeros(60), 0x5c); Fits(d, OuterKeySteps0(), 0) && Fits(d, OuterKeySteps1(), 8)
  {
    hide Xor, BigEndian, FourOctets, W, Fits;
    var d := Xor(KEY + Zeros(60), 0x5c);
    OuterPadWords();
    forall t | 0 <= t < 16 ensures W(d, t) == if t == 0 then 0x16393a39 else 0x5c5c5c5c {
      KeyPad(0x5c, t);
      WordIs(d, t);
    }
    RowWords(d, OuterKeySteps0(), 0);
    RowWords(d, OuterKeySteps1(), 8);
  }

  lemma OuterPadWords()
    ensures FourOctets(0x4a ^ 0x5c, 0x65 ^ 0x5c, 0x66 ^ 0x5c, 0x65 ^ 0x5c) == 0x16393a39
    ensures FourOctets(0x5c, 0x5c, 0x5c, 0x5c) == 0x5c5c5c5c
  {}

  lemma InnerTextFits()
    ensures Fits(LastBlock(TEXT, 736), InnerTextSteps0(), 0) && Fits(LastBlock(TEXT, 736), InnerTextSteps1(), 8)
  {
    hide Low8, LengthOctets, BigEndian, W, Fits;
    var d := LastBlock(TEXT, 736);
    Low8Of736();
    ShortLength(736, 2, 0xe0);
    LengthWords(TEXT, 736);
    TextLength();
    MarkWord(TEXT, 736, 7);
    FirstTextWords();
    SecondTextWords();
    ThirdTextWords();
    LastTextWord();
    forall t | 0 <= t < 16
      ensures W(d, t) == if t < 7 then BigEndian(TEXT, 4 * t) else if t == 7 then 0x8000_0000
                         else if t == 15 then 0x2e0 else 0
    {
      WordIs(d, t);
      if t < 7 {
        RestWord(TEXT, 736, t);
      } else if 7 < t < 14 {
        ZeroWords(TEXT, 736, t);
      }
    }
    RowWords(d, InnerTextSteps0(), 0);
    RowWords(d, InnerTextSteps1(), 8);
  }

  lemma TextLength()
    ensures FourOctets(0, 0, 2, 0xe0) == 0x2e0 && FourOctets(0, 0, 3, 0) == 0x300
  {}

  lemma FirstTextWords()
    ensures BigEndian(TEXT, 0) == 0x77686174 && BigEndian(TEXT, 4) == 0x20646f20
  {}

  lemma SecondTextWords()
    ensures BigEndian(TEXT, 8) == 0x79612077 && BigEndian(TEXT, 12) == 0x616e7420
  {}

  lemma ThirdTextWords()
    ensures BigEndian(TEXT, 16) == 0x666f7220 && BigEndian(TEXT, 20) == 0x6e6f7468
  {}

  lemma LastTextWord()
    ensures BigEndian(TEXT, 24) == 0x696e673f
  {}

  lemma OuterDigestFits()
    ensures var d := LastBlock(DigestOf(InnerTextResult()), 768);
            Fits(d, OuterDigestSteps0(), 0) && Fits(d, OuterDigestSteps1(), 8)
  {
    hide Low8, LengthOctets, BigEndian, DigestOf, W, Fits;
    var e := DigestOf(InnerTextResult());
    var d := LastBlock(e, 768);
    Low8Of768();
    ShortLength(768, 3, 0);
    LengthWords(e, 768);
    TextLength();
    MarkWord(e, 768, 8);
    DigestWords(InnerTextResult());
    forall t | 0 <= t < 16
      ensures W(d, t) == if t < 8 then BigEndian(e, 4 * t) else if t == 8 then 0x8000_0000
                         else if t == 15 then 0x300 else 0
    {
      WordIs(d, t);
      if t < 8 {
        RestWord(e, 768, t);
      } else if 8 < t < 14 {
        ZeroWords(e, 768, t);
      }
    }
    RowWords(d, OuterDigestSteps0(), 0);
    RowWords(d, OuterDigestSteps1(), 8);
  }

  /** A digest holds the hash words in order. */
  lemma DigestWords(r: Regs)
    ensures var d := DigestOf(r);
            && BigEndian(d, 0) == r.a && BigEndian(d, 4) == r.b && BigEndian(d, 8) == r.c && BigEndian(d, 12) == r.d
            && BigEndian(d, 16) == r.e && BigEndian(d, 20) == r.f && BigEndian(d, 24) == r.g && BigEndian(d, 28) == r.h
  {
    hide WordOctets, BigEndian, DigestOf;
    var x := WordOctets(r.a) + WordOctets(r.b) + WordOctets(r.c) + WordOctets(r.d);
    var y := WordOctets(r.e) + WordOctets(r.f) + WordOctets(r.g) + WordOctets(r.h);
    DigestInHalves(r);
    assert DigestOf(r) == x + y;
    WordsIn(r.a, r.b, r.c, r.d, [], y);
    WordsIn(r.e, r.f, r.g, r.h, x, []);
    assert [] + x + y == x + y == x + y + [];
  }

  lemma WordsIn(x0: word, x1: word, x2: word, x3: word, front: seq<octet>, rest: seq<octet>)
    ensures var n := |front|;
            var d := front + (WordOctets(x0) + WordOctets(x1) + WordOctets(x2) + WordOctets(x3)) + rest;
            && BigEndian(d, n) == x0 && BigEndian(d, n + 4) == x1
            && BigEndian(d, n + 8) == x2 && BigEndian(d, n + 12) == x3
  {
    hide OctetOf, FourOctets;
    BackToWord(x0);
    BackToWord(x1);
    BackToWord(x2);
    BackToWord(x3);
  }

  lemma BackToWord(x: word)
    ensures FourOctets(OctetOf(x, 24), OctetOf(x, 16), OctetOf(x, 8), OctetOf(x, 0)) == x
  {}

  /** The hash of a block and a rest that fits the second one with its padding. */
  lemma TwoBlocks(full: seq<octet>, rest: seq<octet>)
    requires |full| == BLOCK && |rest| < 56
    ensures Hash(full + rest) == DigestOf(Compress(Compress(IV, full), LastBlock(rest, 8 * (BLOCK + |rest|))))
  {
    hide Compress, Absorb, LengthOctets, DigestOf;
    var bits := 8 * (BLOCK + |rest|);
    PaddedEnds(full, rest, full, rest + [0x80] + Zeros(55 - |rest|), bits);
    OneBlock(full);
    AbsorbBlock(full, LastBlock(rest, bits));
  }

  lemma InnerHash()
    ensures Hash(Xor(KEY + Zeros(60), 0x36) + TEXT) == DigestOf(InnerTextResult())
  {
    hide Xor, Compress, LengthOctets, DigestOf, InnerTextResult, OuterDigestResult, Fits;
    TwoBlocks(Xor(KEY + Zeros(60), 0x36), TEXT);
    InnerKeyFits();
    InnerKeyCompress(Xor(KEY + Zeros(60), 0x36));
    InnerTextFits();
    InnerTextCompress(LastBlock(TEXT, 736));
  }

  lemma OuterHash()
    ensures Hash(Xor(KEY + Zeros(60), 0x5c) + DigestOf(InnerTextResult())) == DigestOf(OuterDigestResult())
  {
    hide Xor, Compress, LengthOctets, DigestOf, InnerTextResult, OuterDigestResult, Fits;
    TwoBlocks(Xor(KEY + Zeros(60), 0x5c), DigestOf(InnerTextResult()));
    OuterKeyFits();
    OuterKeyCompress(Xor(KEY + Zeros(60), 0x5c));
    OuterDigestFits();
    OuterDigestCompress(LastBlock(DigestOf(InnerTextResult()), 768));
  }

  /** The first answer of the self test: key "Jefe", text "what do ya want for nothing?". */
  lemma MacOfText()
    ensures CountedMac(Some(KEY), TEXT)
         == [0x5b, 0xdc, 0xc1, 0x46, 0xbf, 0x60, 0x75, 0x4e, 0x6a, 0x04, 0x24, 0x26, 0x08, 0x95, 0x75, 0xc7,
             0x5a, 0x00, 0x3f, 0x08, 0x9d, 0x27, 0x39, 0x83, 0x9d, 0xec, 0x58, 0xb9, 0x64, 0xec, 0x38, 0x43]
  {
    hide Xor, Hash, CountedMac, DigestOf, InnerTextResult, OuterDigestResult;
    MacIsStandard(KEY, TEXT);
    InnerHash();
    OuterHash();
    MacDigest();
  }

  lemma MacDigest()
    ensures DigestOf(OuterDigestResult())
         == [0x5b, 0xdc, 0xc1, 0x46, 0xbf, 0x60, 0x75, 0x4e, 0x6a, 0x04, 0x24, 0x26, 0x08, 0x95, 0x75, 0xc7,
             0x5a, 0x00, 0x3f, 0x08, 0x9d, 0x27, 0x39, 0x83, 0x9d, 0xec, 0x58, 0xb9, 0x64, 0xec, 0x38, 0x43]
  {}
}
