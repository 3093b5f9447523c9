/** Octets and octet strings as the numbers they denote. */
module OctetNumbers {
  import opened Arithmetic
  import opened Bytes
  import opened Sha256

  /** The number an octet string denotes, most significant octet first. */
  function BigValue(d: seq<octet>): nat {
    if d == [] then 0 else Num(d[0]) * Power256(|d| - 1) + BigValue(d[1..])
  }

  /** The number an octet denotes, bit by bit. */
  function Num(b: octet): (n: nat)
    ensures n < 256
  {
    NumLow(b) + 16 * NumHigh(b)
  }

  function NumLow(b: octet): (n: nat)
    ensures n < 16
  {
    One(b & 1 != 0) + 2 * (One(b & 2 != 0) + 2 * (One(b & 4 != 0) + 2 * One(b & 8 != 0)))
  }

  function NumHigh(b: octet): (n: nat)
    ensures n < 16
  {
    One(b & 16 != 0) + 2 * (One(b & 32 != 0) + 2 * (One(b & 64 != 0) + 2 * One(b & 128 != 0)))
  }

  function One(on: bool): nat {
    if on then 1 else 0
  }

  lemma ValueSplits(d: seq<octet>)
    requires |d| > 0
    ensures BigValue(d) == Num(d[0]) * Power256(|d| - 1) + BigValue(d[1..])
  {}

  lemma {:induction false} ValueBound(d: seq<octet>)
    ensures BigValue(d) < Power256(|d|)
  {
    if d != [] {
      ValueBound(d[1..]);
      TopFits(Num(d[0]), Power256(|d| - 1));
    }
  }

  lemma TopFits(a: nat, p: nat)
    requires a < 256
    ensures a * p + p <= 256 * p
  {}

  lemma OneMoreDigit(a: octet, d: seq<octet>)
    ensures BigValue([a] + d) == Num(a) * Power256(|d|) + BigValue(d)
  {
    hide Num, Power256;
    assert ([a] + d)[1..] == d;
  }

  lemma ValueOfNone()
    ensures BigValue([]) == 0
  {}

  // ---- the octets of a number ----

  /** The number an octet denotes is its value as a bit vector. */
  lemma NumIsValue(b: octet)
    ensures Num(b) == b as nat
  {}

  lemma LowOctetIs(n: nat)
    ensures Low8(n) as nat == n % 256
  {
    hide Num, Low8;
    BackFromOctet(n);
    NumIsValue(Low8(n));
  }

  lemma BackFromOctet(n: nat)
    ensures Num(Low8(n)) == n % 256
  {
    hide Num, OctetFrom;
    BitsOfOctet(n % 256);
  }

  lemma BitsOfOctet(n: nat)
    requires n < 256
    ensures Num(OctetFrom(n)) == n
  {
    hide Num, FromBits, Parity, Half;
    var n1 := Half(n);
    var n2 := Half(n1);
    var n3 := Half(n2);
    var n4 := Half(n3);
    var n5 := Half(n4);
    var n6 := Half(n5);
    NumOfBits(Parity(n), Parity(n1), Parity(n2), Parity(n3), Parity(n4), Parity(n5), Parity(n6), Parity(Half(n6)));
    Halves(n);
    Halves(n4);
  }

  lemma Halves(n: nat)
    ensures var h := Half(Half(Half(Half(n))));
            && (n < 256 ==> h < 16) && (n < 16 ==> h == 0)
            && n == Parity(n) + 2 * (Parity(Half(n)) + 2 * (Parity(Half(Half(n)))
                    + 2 * (Parity(Half(Half(Half(n)))) + 2 * h)))
  {
    hide Parity, Half;
    Halved(n);
    Halved(Half(n));
    Halved(Half(Half(n)));
    Halved(Half(Half(Half(n))));
  }

  lemma Halved(n: nat)
    ensures n == Parity(n) + 2 * Half(n)
  {}

  lemma NumOfBits(n0: nat, n1: nat, n2: nat, n3: nat, n4: nat, n5: nat, n6: nat, n7: nat)
    requires n0 < 2 && n1 < 2 && n2 < 2 && n3 < 2 && n4 < 2 && n5 < 2 && n6 < 2 && n7 < 2
    ensures Num(FromBits(n0, n1, n2, n3, n4, n5, n6, n7))
         == n0 + 2 * (n1 + 2 * (n2 + 2 * (n3 + 2 * (n4 + 2 * (n5 + 2 * (n6 + 2 * n7))))))
  {
    hide FromBits, NumLow, NumHigh;
    LowBitsOf(n0, n1, n2, n3, n4, n5, n6, n7);
    HighBitsOf(n0, n1, n2, n3, n4, n5, n6, n7);
  }

  lemma LowBitsOf(n0: nat, n1: nat, n2: nat, n3: nat, n4: nat, n5: nat, n6: nat, n7: nat)
    requires n0 < 2 && n1 < 2 && n2 < 2 && n3 < 2
    ensures NumLow(FromBits(n0, n1, n2, n3, n4, n5, n6, n7)) == n0 + 2 * (n1 + 2 * (n2 + 2 * n3))
  {}

  lemma HighBitsOf(n0: nat, n1: nat, n2: nat, n3: nat, n4: nat, n5: nat, n6: nat, n7: nat)
    requires n4 < 2 && n5 < 2 && n6 < 2 && n7 < 2
    ensures NumHigh(FromBits(n0, n1, n2, n3, n4, n5, n6, n7)) == n4 + 2 * (n5 + 2 * (n6 + 2 * n7))
  {}

  /** The lowest `k` octets of a number, the most significant first. */
  function Digits(n: nat, k: nat): (d: seq<octet>)
    ensures |d| == k
  {
    if k == 0 then [] else [NumberOctet(n, k - 1)] + Digits(n, k - 1)
  }

  lemma {:induction false} DigitAt(n: nat, k: nat, i: nat)
    requires i < k
    ensures Digits(n, k)[i] == NumberOctet(n, k - 1 - i)
  {
    hide NumberOctet;
    if i > 0 {
      DigitAt(n, k - 1, i - 1);
    }
  }

  /** They denote the number, up to the weight of the octet above them. */
  lemma {:induction false} DigitsValue(n: nat, k: nat)
    ensures BigValue(Digits(n, k)) == n % Power256(k)
  {
    hide BigValue, NumberOctet, Power256;
    Powers();
    if k == 0 {
      ValueOfNone();
    } else {
      var p := Power256(k - 1);
      DigitsValue(n, k - 1);
      OneMoreDigit(NumberOctet(n, k - 1), Digits(n, k - 1));
      OctetValue(n, k - 1);
      NextPower(k - 1);
      DigitAbove(n, p);
    }
  }

  lemma OctetValue(n: nat, k: nat)
    ensures Num(NumberOctet(n, k)) == Quotient(n, Power256(k)) % 256
  {
    hide Num, Low8, Power256;
    BackFromOctet(Quotient(n, Power256(k)));
  }

  lemma NextPower(k: nat)
    ensures Power256(k + 1) == 256 * Power256(k)
  {}

  lemma DigitAbove(n: nat, p: nat)
    requires p > 0
    ensures n % (256 * p) == Quotient(n, p) % 256 * p + n % p
  {
    Divided(n, p);
    ModuloTop(n / p, 256, p, n % p);
  }
}
