/** Which bits of the key stream a derived key keeps when its bit length is no multiple of 8. */
module KeyBits {
  import opened Arithmetic
  import opened Bytes
  import opened Sha256
  import opened OctetNumbers
  import opened Kdf

  /** Bit `i` of a number, counted from the least significant. */
  function BitAt(n: nat, i: nat): nat {
    Quotient(n, Power2(i)) % 2
  }

  /** The program keeps the rightmost bits of the octets; the standard takes the leftmost ones. The two
      keys are the same number exactly when the octets repeat themselves with the distance between the
      two places. */
  lemma LeftmostBitsAgree(d: seq<octet>, bits: nat)
    requires |d| == (bits + 7) / 8 && bits > 0
    ensures var v, gap := BigValue(d), 8 * |d| - bits;
            BigValue(Masked(d, bits)) == Quotient(v, Power2(gap))
            <==> forall i :: 0 <= i < bits ==> BitAt(v, i) == BitAt(v, i + gap)
  {
    hide BigValue, Masked, Power2, BitAt, Quotient;
    var v, gap := BigValue(d), 8 * |d| - bits;
    var x, y := v % Power2(bits), Quotient(v, Power2(gap));
    MaskIsModulo(d, bits);
    TopHalfFits(d, bits);
    SameBits(x, y, bits);
    if x == y {
      forall i | 0 <= i < bits ensures BitAt(v, i) == BitAt(v, i + gap) {
        OneBit(v, bits, gap, i);
      }
    } else {
      var i :| 0 <= i < bits && BitAt(x, i) != BitAt(y, i);
      OneBit(v, bits, gap, i);
    }
  }

  // ---- which bit lengths meet the standard ----

  /** The octets of a key of so many bits. */
  function KeyOctets(bits: nat): nat { (bits + 7) / 8 }

  /** Read as a number, the key that masking leaves of a stream is the front of the stream, reduced to the
      bit length: masking whole digests masks the key in front of them. */
  lemma KeyIsModulo(s: seq<octet>, bits: nat)
    requires bits > 0 && |s| >= KeyOctets(bits)
    ensures Masked(s, bits)[..KeyOctets(bits)] == Masked(s[..KeyOctets(bits)], bits)
    ensures BigValue(Masked(s, bits)[..KeyOctets(bits)]) == BigValue(s[..KeyOctets(bits)]) % Power2(bits)
  {
    hide BigValue, Power2, LowMask;
    MaskIsModulo(s[..KeyOctets(bits)], bits);
  }

  /** The key that masking leaves of a stream is what the standard takes: the leftmost bits. */
  ghost predicate IsLeftmost(s: seq<octet>, bits: nat)
    requires bits > 0 && |s| >= KeyOctets(bits)
  {
    var n := KeyOctets(bits);
    BigValue(Masked(s, bits)[..n]) == Quotient(BigValue(s[..n]), Power2(8 * n - bits))
  }

  lemma WholeOctetsAreLeftmost(s: seq<octet>, bits: nat)
    requires bits > 0 && bits % 8 == 0 && |s| >= KeyOctets(bits)
    ensures IsLeftmost(s, bits)
  {
    hide BigValue, LowMask;
    PowerOfNone();
  }

  /** A stream that begins with the octet 0x80 gives another key than the standard, for every bit length
      that is no multiple of 8: the bit is masked out, while the standard keeps it as the topmost. */
  lemma TopBitIsLost(s: seq<octet>, bits: nat)
    requires bits % 8 != 0 && |s| >= KeyOctets(bits) && s[0] == 0x80
    ensures var n := KeyOctets(bits);
            BigValue(Masked(s, bits)[..n]) < Quotient(BigValue(s[..n]), Power2(8 * n - bits))
  {
    hide BigValue, Power2, Power256, Masked, Quotient, LowMask, Num;
    var n, k := KeyOctets(bits), bits % 8;
    var d := s[..n];
    KeyIsModulo(s, bits);
    ValueSplits(d);
    ValueSplits(Masked(d, bits));
    MaskedTop(d, bits);
    ValueBound(d[1..]);
    TopBitPowers(n, bits);
    // What is left of the key stays below 2^(bits - k), while the leftmost bits reach 2^(bits - 1).
    QuotientAtLeast(BigValue(d), Power2(bits - 1), Power2(8 - k));
  }

  lemma TopBitPowers(n: nat, bits: nat)
    requires bits % 8 != 0 && n == KeyOctets(bits)
    ensures Power256(n - 1) <= Power2(bits - 1)
    ensures 128 * Power256(n - 1) == Power2(bits - 1) * Power2(8 - bits % 8)
  {
    hide Power2, Power256;
    var k, p := bits % 8, Power256(n - 1);
    assert bits == 8 * (n - 1) + k;
    TopBitSplit(k);
    PowerOfOctets(k - 1, n - 1);
    Associates(Power2(8 - k), Power2(k - 1), p);
    AtLeastOne(Power2(k - 1), p);
  }

  lemma TopBitSplit(k: nat)
    requires 0 < k < 8
    ensures Power2(8 - k) * Power2(k - 1) == 128 && Power2(k - 1) > 0
  {
    hide Power2;
    PowerOfSum(8 - k, k - 1);
    Powers2();
  }

  lemma MaskedTop(d: seq<octet>, bits: nat)
    requires bits % 8 != 0 && |d| > 0 && d[0] == 0x80
    ensures Num(d[0]) == 128 && Num(Masked(d, bits)[0]) == 0 && Masked(d, bits)[1..] == d[1..]
  {
    hide LowMask;
    LowMasks();
    NumOfTop(LowMask(bits % 8));
  }

  lemma NumOfTop(m: octet)
    requires m in {1, 3, 7, 15, 31, 63, 127}
    ensures Num(0x80) == 128 && Num(0x80 & m) == 0
  {}

  lemma QuotientAtLeast(v: nat, a: nat, b: nat)
    requires b > 0 && v >= a * b
    ensures Quotient(v, b) >= a
  {
    QuotientOfSum(a, v - a * b, b);
  }

  /** The derived key is the standard's leftmost bits, whatever the stream, for exactly the bit lengths
      that are multiples of 8. */
  lemma LeftmostIffWholeOctets(bits: nat)
    requires bits > 0
    ensures (forall s: seq<octet> | |s| >= KeyOctets(bits) :: IsLeftmost(s, bits)) <==> bits % 8 == 0
  {
    hide IsLeftmost;
    if bits % 8 == 0 {
      forall s: seq<octet> | |s| >= KeyOctets(bits) ensures IsLeftmost(s, bits) {
        WholeOctetsAreLeftmost(s, bits);
      }
    } else {
      var s := [0x80] + Zeros(KeyOctets(bits) - 1);
      TopBitIsNotLeftmost(s, bits);
    }
  }

  lemma TopBitIsNotLeftmost(s: seq<octet>, bits: nat)
    requires bits % 8 != 0 && |s| >= KeyOctets(bits) && s[0] == 0x80
    ensures !IsLeftmost(s, bits)
  {
    hide BigValue, Power2, Masked, Quotient;
    TopBitIsLost(s, bits);
  }

  /** The same on keys of just the octets wanted, for the maskings above. */
  lemma MaskIsLeftmostIffWholeOctets(bits: nat)
    requires bits > 0
    ensures (forall d: seq<octet> | |d| == KeyOctets(bits) ::
               BigValue(Masked(d, bits)) == Quotient(BigValue(d), Power2(8 * |d| - bits)))
       <==> bits % 8 == 0
  {
    hide BigValue, Power2, Masked, Quotient;
    if bits % 8 == 0 {
      forall d: seq<octet> | |d| == KeyOctets(bits)
        ensures BigValue(Masked(d, bits)) == Quotient(BigValue(d), Power2(8 * |d| - bits))
      {
        WholeOctetsAreLeftmost(d, bits);
        assert Masked(d, bits)[..|d|] == Masked(d, bits) && d[..|d|] == d;
      }
    } else {
      var d := [0x80] + Zeros(KeyOctets(bits) - 1);
      TopBitIsLost(d, bits);
      assert Masked(d, bits)[..|d|] == Masked(d, bits) && d[..|d|] == d;
    }
  }

  lemma OneBit(v: nat, bits: nat, gap: nat, i: nat)
    requires i < bits
    ensures BitAt(v % Power2(bits), i) == BitAt(v, i)
    ensures BitAt(Quotient(v, Power2(gap)), i) == BitAt(v, i + gap)
  {
    hide BitAt, Power2, Quotient;
    BitOfRemainder(v, bits, i);
    BitOfQuotient(v, gap, i);
  }

  lemma TopHalfFits(d: seq<octet>, bits: nat)
    requires bits <= 8 * |d|
    ensures Quotient(BigValue(d), Power2(8 * |d| - bits)) < Power2(bits)
  {
    hide BigValue, Power2, Power256, Quotient;
    var v, gap := BigValue(d), 8 * |d| - bits;
    ValueBound(d);
    PowerOfOctets(0, |d|);
    PowerOfNone();
    PowerOfSum(bits, gap);
    QuotientBelow(v, Power2(bits), Power2(gap));
  }

  lemma PowerOfNone()
    ensures Power2(0) == 1
  {}

  lemma {:induction false} PowerOfSum(a: nat, b: nat)
    ensures Power2(a + b) == Power2(a) * Power2(b)
  {
    if a > 0 {
      PowerOfSum(a - 1, b);
      Associates(2, Power2(a - 1), Power2(b));
    }
  }

  lemma BitOfQuotient(v: nat, gap: nat, i: nat)
    ensures BitAt(Quotient(v, Power2(gap)), i) == BitAt(v, i + gap)
  {
    hide Power2;
    PowerOfSum(i, gap);
    DivideTwice(v, Power2(gap), Power2(i));
  }

  lemma BitOfRemainder(v: nat, bits: nat, i: nat)
    requires i < bits
    ensures BitAt(v % Power2(bits), i) == BitAt(v, i)
  {
    hide Power2, Quotient;
    var p, a := Power2(i), Power2(bits - i - 1);
    PowerOfSum(bits - i - 1, i + 1);
    DoubledPower(i);
    assert Power2(bits) == a * (2 * p);
    WholeAndRest(v, Power2(bits));
    DigitParity(Quotient(v, Power2(bits)), a, p, v % Power2(bits));
  }

  lemma WholeAndRest(n: nat, p: nat)
    requires p > 0
    ensures n == Quotient(n, p) * p + n % p
  {
    Divided(n, p);
  }

  lemma DoubledPower(i: nat)
    ensures Power2(i + 1) == 2 * Power2(i)
  {}

  /** Numbers of `k` bits are equal when their bits are. */
  lemma {:induction false} SameBits(x: nat, y: nat, k: nat)
    requires x < Power2(k) && y < Power2(k)
    ensures x == y <==> forall i :: 0 <= i < k ==> BitAt(x, i) == BitAt(y, i)
  {
    hide BitAt, Power2;
    if k == 0 {
      PowerOfNone();
    } else {
      DoubledPower(k - 1);
      SameBits(x / 2, y / 2, k - 1);
      if forall i :: 0 <= i < k ==> BitAt(x, i) == BitAt(y, i) {
        forall i | 0 <= i < k - 1 ensures BitAt(x / 2, i) == BitAt(y / 2, i) {
          BitOfHalf(x, i);
          BitOfHalf(y, i);
        }
        LastBit(x);
        LastBit(y);
      }
    }
  }

  lemma BitOfHalf(x: nat, i: nat)
    ensures BitAt(x / 2, i) == BitAt(x, i + 1)
  {
    BitOfQuotient(x, 1, i);
    PowerOfNone();
  }

  lemma LastBit(x: nat)
    ensures x == 2 * (x / 2) + BitAt(x, 0)
  {
    PowerOfNone();
  }
}
