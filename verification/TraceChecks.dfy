/** The worked-out compressions of `TraceWords` are those of the standard: each number is checked, eight
    rounds at a time, and the rows add up to the compression function. */
module TraceChecks {
  import opened Sha256
  import opened Hmac256
  import opened TraceWords

  // ---- what a trace must keep ----

  /** Each step follows from the working variables in front of it. */
  predicate RoundsHold(a: word, b: word, c: word, d: word, e: word, f: word, g: word, h: word, s: Steps, ks: Words)
    decreases s
  {
    if s.Done? || ks.End? then s.Done? && ks.End?
    else
      && s.a == Add(Add(Add(Add(Add(h, BigSigma1(e)), Ch(e, f, g)), ks.k), s.w), Add(BigSigma0(a), Maj(a, b, c)))
      && s.e == Add(d, Add(Add(Add(Add(h, BigSigma1(e)), Ch(e, f, g)), ks.k), s.w))
      && RoundsHold(s.a, a, b, c, s.e, e, f, g, s.rest, ks.rest)
  }

  /** Each word follows from the sixteen in front of it. */
  predicate ScheduleHolds(w0: word, w1: word, w2: word, w3: word, w4: word, w5: word, w6: word,
                          w7: word, w8: word, w9: word, w10: word, w11: word, w12: word, w13: word,
                          w14: word, w15: word,
                          s: Steps)
    decreases s
  {
    if s.Done? then true
    else
      && s.w == Add(Add(Add(((w14 >> 17) | (w14 << 15)) ^ ((w14 >> 19) | (w14 << 13)) ^ (w14 >> 10), w9),
                        ((w1 >> 7) | (w1 << 25)) ^ ((w1 >> 18) | (w1 << 14)) ^ (w1 >> 3)), w0)
      && ScheduleHolds(w1, w2, w3, w4, w5, w6, w7, w8, w9, w10, w11, w12, w13, w14, w15, s.w, s.rest)
  }

  predicate IsRow(s: Steps) {
    && s.Step? && s.rest.Step? && s.rest.rest.Step? && s.rest.rest.rest.Step?
    && IsHalf(s.rest.rest.rest.rest)
  }

  predicate IsHalf(s: Steps) {
    s.Step? && s.rest.Step? && s.rest.rest.Step? && s.rest.rest.rest.Step? && s.rest.rest.rest.rest.Done?
  }

  /** The working variables behind a row of eight. */
  function Behind(s: Steps): Regs
    requires IsRow(s)
  {
    var t := s.rest.rest.rest.rest;
    Regs(t.rest.rest.rest.a, t.rest.rest.a, t.rest.a, t.a, t.rest.rest.rest.e, t.rest.rest.e, t.rest.e, t.e)
  }

  /** A row holds from the working variables `r` on. */
  predicate RowFollows(r: Regs, s: Steps, ks: Words) {
    IsRow(s) && RoundsHold(r.a, r.b, r.c, r.d, r.e, r.f, r.g, r.h, s, ks)
  }

  /** The words of a row follow from those of the two rows in front. */
  predicate WordsFollow(x: Steps, y: Steps, s: Steps) {
    && IsRow(x) && IsRow(y)
    && var t, u := x.rest.rest.rest.rest, y.rest.rest.rest.rest;
       ScheduleHolds(x.w, x.rest.w, x.rest.rest.w, x.rest.rest.rest.w,
                     t.w, t.rest.w, t.rest.rest.w, t.rest.rest.rest.w,
                     y.w, y.rest.w, y.rest.rest.w, y.rest.rest.rest.w,
                     u.w, u.rest.w, u.rest.rest.w, u.rest.rest.rest.w, s)
  }

  function Sums(r: Regs, s: Regs): Regs {
    Regs(Add(r.a, s.a), Add(r.b, s.b), Add(r.c, s.c), Add(r.d, s.d),
         Add(r.e, s.e), Add(r.f, s.f), Add(r.g, s.g), Add(r.h, s.h))
  }

  lemma CompressIsSums(r: Regs, block: seq<octet>)
    requires |block| == BLOCK
    ensures Compress(r, block) == Sums(r, Rounds(r, block, 64))
  {
    hide Rounds, Add;
  }

  /** Eight round constants. */
  function Row(c: seq<word>): Words
    requires |c| == 8
  {
    Word(c[0], Word(c[1], Word(c[2], Word(c[3], Word(c[4], Word(c[5], Word(c[6], Word(c[7], End))))))))
  }

  lemma ConstantsAre()
    ensures Constants0() == Row(Constants(0)) && Constants1() == Row(Constants(1))
    ensures Constants2() == Row(Constants(2)) && Constants3() == Row(Constants(3))
    ensures Constants4() == Row(Constants(4)) && Constants5() == Row(Constants(5))
    ensures Constants6() == Row(Constants(6)) && Constants7() == Row(Constants(7))
  {}

  // ---- from a trace to the compression function ----

  /** The words of the steps are those of the schedule from number `t` on. */
  ghost predicate Fits(block: seq<octet>, s: Steps, t: nat)
    requires |block| == BLOCK
    decreases s
  {
    s.Done? || (t < 64 && s.w == W(block, t) && Fits(block, s.rest, t + 1))
  }

  /** The constants are those of the rounds from number `t` on. */
  ghost predicate ConstantsFit(ks: Words, t: nat)
    decreases ks
  {
    ks.End? || (t < 64 && ks.k == K(t) && ConstantsFit(ks.rest, t + 1))
  }

  function Moved(r: Regs, s: Steps): Regs
    decreases s
  {
    if s.Done? then r else Moved(Regs(s.a, r.a, r.b, r.c, s.e, r.e, r.f, r.g), s.rest)
  }

  function Count(s: Steps): nat {
    if s.Done? then 0 else 1 + Count(s.rest)
  }

  lemma {:induction false} RoundsFollow(block: seq<octet>, r0: Regs, t: nat, r: Regs, s: Steps, ks: Words)
    requires |block| == BLOCK && t <= 64 && t + Count(s) <= 64 && Rounds(r0, block, t) == r
    requires RoundsHold(r.a, r.b, r.c, r.d, r.e, r.f, r.g, r.h, s, ks) && Fits(block, s, t) && ConstantsFit(ks, t)
    ensures Rounds(r0, block, t + Count(s)) == Moved(r, s)
    decreases s
  {
    hide Add, BigSigma0, BigSigma1, Ch, Maj, W, K, Rounds;
    if s.Step? {
      RoundsStep(r0, block, t);
      RoundsFollow(block, r0, t + 1, Regs(s.a, r.a, r.b, r.c, s.e, r.e, r.f, r.g), s.rest, ks.rest);
    }
  }

  lemma ConstantsOfRow(q: nat)
    requires q < 8
    ensures ConstantsFit(Row(Constants(q)), 8 * q)
  {
    hide Constants, K;
    var c, t := Constants(q), 8 * q;
    ConstantsAt(q);
    var k4 := Word(c[4], Word(c[5], Word(c[6], Word(c[7], End))));
    FourConstants(k4, t + 4);
    FourConstants(Row(c), t);
  }

  lemma ConstantsAt(q: nat)
    requires q < 8
    ensures var c, t := Constants(q), 8 * q;
            && K(t) == c[0] && K(t + 1) == c[1] && K(t + 2) == c[2] && K(t + 3) == c[3]
            && K(t + 4) == c[4] && K(t + 5) == c[5] && K(t + 6) == c[6] && K(t + 7) == c[7]
  {
    hide Constants;
  }

  lemma FourConstants(ks: Words, t: nat)
    requires t + 4 <= 64 && ks.Word? && ks.rest.Word? && ks.rest.rest.Word? && ks.rest.rest.rest.Word?
    requires ks.k == K(t) && ks.rest.k == K(t + 1) && ks.rest.rest.k == K(t + 2) && ks.rest.rest.rest.k == K(t + 3)
    requires ConstantsFit(ks.rest.rest.rest.rest, t + 4)
    ensures ConstantsFit(ks, t)
  {
    hide K;
    assert ConstantsFit(ks.rest.rest, t + 2);
  }

  lemma RowMoves(r: Regs, s: Steps)
    requires IsRow(s)
    ensures Count(s) == 8 && Moved(r, s) == Behind(s)
  {
    var t := s.rest.rest.rest.rest;
    var m := Regs(s.rest.rest.rest.a, s.rest.rest.a, s.rest.a, s.a, s.rest.rest.rest.e, s.rest.rest.e, s.rest.e, s.e);
    FourMove(r, s);
    FourMove(m, t);
  }

  lemma RowCount(s: Steps)
    requires IsRow(s)
    ensures Count(s) == 8
  {
    assert Count(s) == 2 + Count(s.rest.rest) && Count(s.rest.rest) == 2 + Count(s.rest.rest.rest.rest);
    var t := s.rest.rest.rest.rest;
    assert Count(t.rest.rest.rest.rest) == 0;
    assert Count(t) == 2 + Count(t.rest.rest) && Count(t.rest.rest) == 2;
  }

  lemma FourMove(r: Regs, s: Steps)
    requires s.Step? && s.rest.Step? && s.rest.rest.Step? && s.rest.rest.rest.Step?
    ensures var t := s.rest.rest.rest.rest;
            && Count(s) == 4 + Count(t)
            && Moved(r, s) == Moved(Regs(s.rest.rest.rest.a, s.rest.rest.a, s.rest.a, s.a,
                                         s.rest.rest.rest.e, s.rest.rest.e, s.rest.e, s.e), t)
  {
    hide Moved, Count;
    TwoMove(r, s);
    TwoMove(Regs(s.rest.a, s.a, r.a, r.b, s.rest.e, s.e, r.e, r.f), s.rest.rest);
  }

  lemma TwoMove(r: Regs, s: Steps)
    requires s.Step? && s.rest.Step?
    ensures Count(s) == 2 + Count(s.rest.rest)
    ensures Moved(r, s) == Moved(Regs(s.rest.a, s.a, r.a, r.b, s.rest.e, s.e, r.e, r.f), s.rest.rest)
  {
    hide Moved, Count;
    OneMove(r, s);
    OneMove(Regs(s.a, r.a, r.b, r.c, s.e, r.e, r.f, r.g), s.rest);
  }

  lemma OneMove(r: Regs, s: Steps)
    requires s.Step?
    ensures Count(s) == 1 + Count(s.rest)
    ensures Moved(r, s) == Moved(Regs(s.a, r.a, r.b, r.c, s.e, r.e, r.f, r.g), s.rest)
  {}

  /** One row on. */
  lemma NextRow(block: seq<octet>, r0: Regs, q: nat, r: Regs, s: Steps, ks: Words)
    requires |block| == BLOCK && q < 8 && Rounds(r0, block, 8 * q) == r
    requires RowFollows(r, s, ks) && ks == Row(Constants(q)) && Fits(block, s, 8 * q)
    ensures Rounds(r0, block, 8 * q + 8) == Behind(s)
  {
    hide RoundsHold, Fits, ConstantsFit, Rounds, Row, Behind;
    ConstantsOfRow(q);
    RowMoves(r, s);
    RoundsFollow(block, r0, 8 * q, r, s, ks);
  }

  lemma SigmasAre(x: word, y: word)
    ensures SmallSigma0(x) == ((x >> 7) | (x << 25)) ^ ((x >> 18) | (x << 14)) ^ (x >> 3)
    ensures SmallSigma1(y) == ((y >> 17) | (y << 15)) ^ ((y >> 19) | (y << 13)) ^ (y >> 10)
  {}

  lemma {:induction false} ScheduleFollows(block: seq<octet>, t: nat, s: Steps,
                                           w0: word, w1: word, w2: word, w3: word, w4: word, w5: word,
                                           w6: word, w7: word, w8: word, w9: word, w10: word, w11: word,
                                           w12: word, w13: word, w14: word, w15: word)
    requires |block| == BLOCK && 16 <= t && t + Count(s) <= 64
    requires W(block, t - 16) == w0 && W(block, t - 15) == w1 && W(block, t - 14) == w2 && W(block, t - 13) == w3
    requires W(block, t - 12) == w4 && W(block, t - 11) == w5 && W(block, t - 10) == w6 && W(block, t - 9) == w7
    requires W(block, t - 8) == w8 && W(block, t - 7) == w9 && W(block, t - 6) == w10 && W(block, t - 5) == w11
    requires W(block, t - 4) == w12 && W(block, t - 3) == w13 && W(block, t - 2) == w14 && W(block, t - 1) == w15
    requires ScheduleHolds(w0, w1, w2, w3, w4, w5, w6, w7, w8, w9, w10, w11, w12, w13, w14, w15, s)
    ensures Fits(block, s, t)
    decreases s
  {
    hide Add, SmallSigma0, SmallSigma1, W;
    if s.Step? {
      ScheduleWord(block, t);
      SigmasAre(w1, w14);
      ScheduleFollows(block, t + 1, s.rest, w1, w2, w3, w4, w5, w6, w7, w8, w9, w10, w11, w12, w13, w14, w15, s.w);
    }
  }

  /** The words of one row more. */
  lemma NextWords(block: seq<octet>, t: nat, x: Steps, y: Steps, s: Steps)
    requires |block| == BLOCK && 16 <= t <= 56 && WordsFollow(x, y, s) && IsRow(s)
    requires Fits(block, x, t - 16) && Fits(block, y, t - 8)
    ensures Fits(block, s, t)
  {
    hide ScheduleHolds, Fits, W, Count, Add, Moved, Behind;
    RowWords(block, x, t - 16);
    RowWords(block, y, t - 8);
    RowCount(s);
    var x4, y4 := x.rest.rest.rest.rest, y.rest.rest.rest.rest;
    ScheduleFollows(block, t, s, x.w, x.rest.w, x.rest.rest.w, x.rest.rest.rest.w,
                    x4.w, x4.rest.w, x4.rest.rest.w, x4.rest.rest.rest.w,
                    y.w, y.rest.w, y.rest.rest.w, y.rest.rest.rest.w,
                    y4.w, y4.rest.w, y4.rest.rest.w, y4.rest.rest.rest.w);
  }

  lemma RowWords(block: seq<octet>, s: Steps, t: nat)
    requires |block| == BLOCK && IsRow(s) && t + 8 <= 64
    ensures var u := s.rest.rest.rest.rest;
            Fits(block, s, t) <==>
              && s.w == W(block, t) && s.rest.w == W(block, t + 1)
              && s.rest.rest.w == W(block, t + 2) && s.rest.rest.rest.w == W(block, t + 3)
              && u.w == W(block, t + 4) && u.rest.w == W(block, t + 5)
              && u.rest.rest.w == W(block, t + 6) && u.rest.rest.rest.w == W(block, t + 7)
  {
    hide W;
    var u := s.rest.rest.rest.rest;
    assert Fits(block, s, t) <==> s.w == W(block, t) && s.rest.w == W(block, t + 1) && Fits(block, s.rest.rest, t + 2);
    assert Fits(block, s.rest.rest, t + 2)
      <==> s.rest.rest.w == W(block, t + 2) && s.rest.rest.rest.w == W(block, t + 3) && Fits(block, u, t + 4);
    assert Fits(block, u, t + 4)
      <==> u.w == W(block, t + 4) && u.rest.w == W(block, t + 5) && Fits(block, u.rest.rest, t + 6);
    assert Fits(block, u.rest.rest.rest.rest, t + 8);
    assert Fits(block, u.rest.rest, t + 6)
      <==> u.rest.rest.w == W(block, t + 6) && u.rest.rest.rest.w == W(block, t + 7);
  }

  // ---- the block of "abc" ----

  lemma AbcRounds0()
    ensures RowFollows(IV, AbcSteps0(), Constants0())
  {
    assert RoundsHold(0x6a09e667, 0xbb67ae85, 0x3c6ef372, 0xa54ff53a, 0x510e527f, 0x9b05688c, 0x1f83d9ab, 0x5be0cd19,
                      AbcSteps0(), Constants0());
  }

  lemma AbcRounds1()
    ensures IsRow(AbcSteps0())
    ensures RowFollows(Behind(AbcSteps0()), AbcSteps1(), Constants1())
  {
    assert RoundsHold(0x85a07b5f, 0xe5030380, 0x2b4209f5, 0x04409a6a, 0x0c657a79, 0x9b27a401, 0x714260ad, 0x43ada245,
                      AbcSteps1(), Constants1());
  }

  lemma AbcRounds2()
    ensures IsRow(AbcSteps1())
    ensures RowFollows(Behind(AbcSteps1()), AbcSteps2(), Constants2())
  {
    assert RoundsHold(0xb0fa238e, 0xc0645fde, 0xd932eb16, 0x87912990, 0x07590dcd, 0x0b92f20c, 0x745a48de, 0x1e578218,
                      AbcSteps2(), Constants2());
  }

  lemma AbcRounds3()
    ensures IsRow(AbcSteps2())
    ensures RowFollows(Behind(AbcSteps2()), AbcSteps3(), Constants3())
  {
    assert RoundsHold(0xc5d53d8d, 0xa7a3623f, 0xc2606d6d, 0x9dc68b63, 0xaa47c347, 0x49f5114a, 0xe1257970, 0x8ada8930,
                      AbcSteps3(), Constants3());
  }

  lemma AbcRounds4()
    ensures IsRow(AbcSteps3())
    ensures RowFollows(Behind(AbcSteps3()), AbcSteps4(), Constants4())
  {
    assert RoundsHold(0x73b33bf5, 0xea992a22, 0xa0060b30, 0x363482c9, 0xba591112, 0x0109ab3a, 0xade79437, 0x6112a3b7,
                      AbcSteps4(), Constants4());
  }

  lemma AbcRounds5()
    ensures IsRow(AbcSteps4())
    ensures RowFollows(Behind(AbcSteps4()), AbcSteps5(), Constants5())
  {
    assert RoundsHold(0x79ea687a, 0x6dc57a8a, 0x34df1604, 0x41a65cb1, 0x1efbc0a0, 0xf0781bc8, 0xa507a53d, 0x0772a26b,
                      AbcSteps5(), Constants5());
  }

  lemma AbcRounds6()
    ensures IsRow(AbcSteps5())
    ensures RowFollows(Behind(AbcSteps5()), AbcSteps6(), Constants6())
  {
    assert RoundsHold(0x4172328d, 0xa14c14b0, 0x72ab4b91, 0x26628815, 0xfecf0bc6, 0xd57b94a9, 0xb7755da1, 0xa80f11f0,
                      AbcSteps6(), Constants6());
  }

  lemma AbcRounds7()
    ensures IsRow(AbcSteps6())
    ensures RowFollows(Behind(AbcSteps6()), AbcSteps7(), Constants7())
  {
    assert RoundsHold(0x38cc9913, 0x3ec45cdb, 0xf5702fdb, 0x101fd28f, 0x54cb266b, 0xe50e1b4f, 0x9f4787c3, 0x529e7d00,
                      AbcSteps7(), Constants7());
  }

  lemma AbcSchedule2()
    ensures IsRow(AbcSteps2()) && WordsFollow(AbcSteps0(), AbcSteps1(), AbcSteps2())
  {
    assert ScheduleHolds(0x61626380, 0x00000000, 0x00000000, 0x00000000,
                         0x00000000, 0x00000000, 0x00000000, 0x00000000,
                         0x00000000, 0x00000000, 0x00000000, 0x00000000,
                         0x00000000, 0x00000000, 0x00000000, 0x00000018,
                         AbcSteps2());
  }

  lemma AbcSchedule3()
    ensures IsRow(AbcSteps3()) && WordsFollow(AbcSteps1(), AbcSteps2(), AbcSteps3())
  {
    assert ScheduleHolds(0x00000000, 0x00000000, 0x00000000, 0x00000000,
                         0x00000000, 0x00000000, 0x00000000, 0x00000018,
                         0x61626380, 0x000f0000, 0x7da86405, 0x600003c6,
                         0x3e9d7b78, 0x0183fc00, 0x12dcbfdb, 0xe2e2c38e,
                         AbcSteps3());
  }

  lemma AbcSchedule4()
    ensures IsRow(AbcSteps4()) && WordsFollow(AbcSteps2(), AbcSteps3(), AbcSteps4())
  {
    assert ScheduleHolds(0x61626380, 0x000f0000, 0x7da86405, 0x600003c6,
                         0x3e9d7b78, 0x0183fc00, 0x12dcbfdb, 0xe2e2c38e,
                         0xc8215c1a, 0xb73679a2, 0xe5bc3909, 0x32663c5b,
                         0x9d209d67, 0xec8726cb, 0x702138a4, 0xd3b7973b,
                         AbcSteps4());
  }

  lemma AbcSchedule5()
    ensures IsRow(AbcSteps5()) && WordsFollow(AbcSteps3(), AbcSteps4(), AbcSteps5())
  {
    assert ScheduleHolds(0xc8215c1a, 0xb73679a2, 0xe5bc3909, 0x32663c5b,
                         0x9d209d67, 0xec8726cb, 0x702138a4, 0xd3b7973b,
                         0x93f5997f, 0x3b68ba73, 0xaff4ffc1, 0xf10a5c62,
                         0x0a8b3996, 0x72af830a, 0x9409e33e, 0x24641522,
                         AbcSteps5());
  }

  lemma AbcSchedule6()
    ensures IsRow(AbcSteps6()) && WordsFollow(AbcSteps4(), AbcSteps5(), AbcSteps6())
  {
    assert ScheduleHolds(0x93f5997f, 0x3b68ba73, 0xaff4ffc1, 0xf10a5c62,
                         0x0a8b3996, 0x72af830a, 0x9409e33e, 0x24641522,
                         0x9f47bf94, 0xf0a64f5a, 0x3e246a79, 0x27333ba3,
                         0x0c4763f2, 0x840abf27, 0x7a290d5d, 0x065c43da,
                         AbcSteps6());
  }

  lemma AbcSchedule7()
    ensures IsRow(AbcSteps7()) && WordsFollow(AbcSteps5(), AbcSteps6(), AbcSteps7())
  {
    assert ScheduleHolds(0x9f47bf94, 0xf0a64f5a, 0x3e246a79, 0x27333ba3,
                         0x0c4763f2, 0x840abf27, 0x7a290d5d, 0x065c43da,
                         0xfb3e89cb, 0xcc7617db, 0xb9e66c34, 0xa9993667,
                         0x84badedd, 0xc21462bc, 0x1487472c, 0xb20f7a99,
                         AbcSteps7());
  }

  function AbcResult(): Regs {
    Regs(0xba7816bf, 0x8f01cfea, 0x414140de, 0x5dae2223,
         0xb00361a3, 0x96177a9c, 0xb410ff61, 0xf20015ad)
  }

  lemma AbcSums()
    ensures IsRow(AbcSteps7()) && Sums(IV, Behind(AbcSteps7())) == AbcResult()
  {
    assert Sums(Regs(0x6a09e667, 0xbb67ae85, 0x3c6ef372, 0xa54ff53a,
                     0x510e527f, 0x9b05688c, 0x1f83d9ab, 0x5be0cd19),
                Regs(0x506e3058, 0xd39a2165, 0x04d24d6c, 0xb85e2ce9,
                     0x5ef50f24, 0xfb121210, 0x948d25b6, 0x961f4894))
        == Regs(0xba7816bf, 0x8f01cfea, 0x414140de, 0x5dae2223,
                0xb00361a3, 0x96177a9c, 0xb410ff61, 0xf20015ad);
  }

  lemma AbcWords(block: seq<octet>)
    requires |block| == BLOCK && Fits(block, AbcSteps0(), 0) && Fits(block, AbcSteps1(), 8)
    ensures Fits(block, AbcSteps2(), 16) && Fits(block, AbcSteps3(), 24)
    ensures Fits(block, AbcSteps4(), 32) && Fits(block, AbcSteps5(), 40)
    ensures Fits(block, AbcSteps6(), 48) && Fits(block, AbcSteps7(), 56)
  {
    hide RoundsHold, ScheduleHolds, Behind, Fits, IsRow, RowFollows, WordsFollow;
    hide AbcSteps0, AbcSteps1, AbcSteps2, AbcSteps3;
    hide AbcSteps4, AbcSteps5, AbcSteps6, AbcSteps7;
    AbcSchedule2();
    NextWords(block, 16, AbcSteps0(), AbcSteps1(), AbcSteps2());
    AbcSchedule3();
    NextWords(block, 24, AbcSteps1(), AbcSteps2(), AbcSteps3());
    AbcSchedule4();
    NextWords(block, 32, AbcSteps2(), AbcSteps3(), AbcSteps4());
    AbcSchedule5();
    NextWords(block, 40, AbcSteps3(), AbcSteps4(), AbcSteps5());
    AbcSchedule6();
    NextWords(block, 48, AbcSteps4(), AbcSteps5(), AbcSteps6());
    AbcSchedule7();
    NextWords(block, 56, AbcSteps5(), AbcSteps6(), AbcSteps7());
  }

  lemma AbcWhole(block: seq<octet>)
    requires |block| == BLOCK && Fits(block, AbcSteps0(), 0) && Fits(block, AbcSteps1(), 8)
    ensures IsRow(AbcSteps7()) && Rounds(IV, block, 64) == Behind(AbcSteps7())
  {
    hide RowFollows, WordsFollow, IsRow, Behind, Fits, Rounds, Row, Compress, Sums, Constants;
    hide AbcSteps0, AbcSteps1, AbcSteps2, AbcSteps3;
    hide AbcSteps4, AbcSteps5, AbcSteps6, AbcSteps7;
    hide Constants0, Constants1, Constants2, Constants3, Constants4, Constants5, Constants6, Constants7;
    ConstantsAre();
    RoundsStart(IV, block);
    AbcWords(block);
    AbcRounds0();
    NextRow(block, IV, 0, IV, AbcSteps0(), Constants0());
    AbcRounds1();
    NextRow(block, IV, 1, Behind(AbcSteps0()), AbcSteps1(), Constants1());
    AbcRounds2();
    NextRow(block, IV, 2, Behind(AbcSteps1()), AbcSteps2(), Constants2());
    AbcRounds3();
    NextRow(block, IV, 3, Behind(AbcSteps2()), AbcSteps3(), Constants3());
    AbcRounds4();
    NextRow(block, IV, 4, Behind(AbcSteps3()), AbcSteps4(), Constants4());
    AbcRounds5();
    NextRow(block, IV, 5, Behind(AbcSteps4()), AbcSteps5(), Constants5());
    AbcRounds6();
    NextRow(block, IV, 6, Behind(AbcSteps5()), AbcSteps6(), Constants6());
    AbcRounds7();
    NextRow(block, IV, 7, Behind(AbcSteps6()), AbcSteps7(), Constants7());
    AbcSums();
  }

  lemma AbcCompress(block: seq<octet>)
    requires |block| == BLOCK && Fits(block, AbcSteps0(), 0) && Fits(block, AbcSteps1(), 8)
    ensures Compress(IV, block) == AbcResult()
  {
    hide Compress, Rounds, Sums, Behind, IsRow, Fits, AbcSteps7;
    AbcWhole(block);
    AbcSums();
    CompressIsSums(IV, block);
  }

  // ---- the padded key of the inner hash ----

  lemma InnerKeyRounds0()
    ensures RowFollows(IV, InnerKeySteps0(), Constants0())
  {
    assert RoundsHold(0x6a09e667, 0xbb67ae85, 0x3c6ef372, 0xa54ff53a, 0x510e527f, 0x9b05688c, 0x1f83d9ab, 0x5be0cd19,
                      InnerKeySteps0(), Constants0());
  }

  lemma InnerKeyRounds1()
    ensures IsRow(InnerKeySteps0())
    ensures RowFollows(Behind(InnerKeySteps0()), InnerKeySteps1(), Constants1())
  {
    assert RoundsHold(0x16fcd1de, 0x58778f6a, 0x34561afc, 0x53632755, 0x1f67d48a, 0xa6e3644b, 0x24389410, 0xd7477e59,
                      InnerKeySteps1(), Constants1());
  }

  lemma InnerKeyRounds2()
    ensures IsRow(InnerKeySteps1())
    ensures RowFollows(Behind(InnerKeySteps1()), InnerKeySteps2(), Constants2())
  {
    assert RoundsHold(0xd8a297b3, 0x32f91b02, 0x0aae579f, 0x07f487ee, 0x40743133, 0x22d64e87, 0x4b6881fa, 0x426da4d5,
                      InnerKeySteps2(), Constants2());
  }

  lemma InnerKeyRounds3()
    ensures IsRow(InnerKeySteps2())
    ensures RowFollows(Behind(InnerKeySteps2()), InnerKeySteps3(), Constants3())
  {
    assert RoundsHold(0xad9d4643, 0x17e2b319, 0x062e40f6, 0xc5318371, 0x27cec047, 0x513641df, 0x7e976b52, 0x6414d5ba,
                      InnerKeySteps3(), Constants3());
  }

  lemma InnerKeyRounds4()
    ensures IsRow(InnerKeySteps3())
    ensures RowFollows(Behind(InnerKeySteps3()), InnerKeySteps4(), Constants4())
  {
    assert RoundsHold(0xeaa1ecb4, 0x078f5fb6, 0xf09b0708, 0xedf2ce47, 0xc6426440, 0x905c490a, 0x67e97303, 0xf09bbf76,
                      InnerKeySteps4(), Constants4());
  }

  lemma InnerKeyRounds5()
    ensures IsRow(InnerKeySteps4())
    ensures RowFollows(Behind(InnerKeySteps4()), InnerKeySteps5(), Constants5())
  {
    assert RoundsHold(0xa79b91d0, 0x3b14694f, 0x67625ada, 0x1d8a1947, 0xfb81d2f6, 0x8b47cae7, 0xa5cf1142, 0x52c2fa60,
                      InnerKeySteps5(), Constants5());
  }

  lemma InnerKeyRounds6()
    ensures IsRow(InnerKeySteps5())
    ensures RowFollows(Behind(InnerKeySteps5()), InnerKeySteps6(), Constants6())
  {
    assert RoundsHold(0x750ed7b4, 0x6531bcdc, 0xb803f3e1, 0x5cd1d6ed, 0xe2cdce6a, 0xa1815b66, 0xa7e30631, 0x13126373,
                      InnerKeySteps6(), Constants6());
  }

  lemma InnerKeyRounds7()
    ensures IsRow(InnerKeySteps6())
    ensures RowFollows(Behind(InnerKeySteps6()), InnerKeySteps7(), Constants7())
  {
    assert RoundsHold(0xc5a25619, 0x80be9491, 0x3ac20327, 0xfc2f1aae, 0x4677efca, 0xc5fadb1d, 0x25c84e04, 0xa2ecbc67,
                      InnerKeySteps7(), Constants7());
  }

  lemma InnerKeySchedule2()
    ensures IsRow(InnerKeySteps2()) && WordsFollow(InnerKeySteps0(), InnerKeySteps1(), InnerKeySteps2())
  {
    assert ScheduleHolds(0x7c535053, 0x36363636, 0x36363636, 0x36363636,
                         0x36363636, 0x36363636, 0x36363636, 0x36363636,
                         0x36363636, 0x36363636, 0x36363636, 0x36363636,
                         0x36363636, 0x36363636, 0x36363636, 0x36363636,
                         InnerKeySteps2());
  }

  lemma InnerKeySchedule3()
    ensures IsRow(InnerKeySteps3()) && WordsFollow(InnerKeySteps1(), InnerKeySteps2(), InnerKeySteps3())
  {
    assert ScheduleHolds(0x36363636, 0x36363636, 0x36363636, 0x36363636,
                         0x36363636, 0x36363636, 0x36363636, 0x36363636,
                         0x7780fe00, 0x3163e3e3, 0xb47168a2, 0xe11539f8,
                         0xecfba47f, 0x8f8ebd79, 0xfa1ec89e, 0x1e0e70f6,
                         InnerKeySteps3());
  }

  lemma InnerKeySchedule4()
    ensures IsRow(InnerKeySteps4()) && WordsFollow(InnerKeySteps2(), InnerKeySteps3(), InnerKeySteps4())
  {
    assert ScheduleHolds(0x7780fe00, 0x3163e3e3, 0xb47168a2, 0xe11539f8,
                         0xecfba47f, 0x8f8ebd79, 0xfa1ec89e, 0x1e0e70f6,
                         0x0c23673e, 0xc8311559, 0xddee66a1, 0xb28ed337,
                         0xac9fc9a9, 0xcb4db29d, 0x59369281, 0xe32830f3,
                         InnerKeySteps4());
  }

  lemma InnerKeySchedule5()
    ensures IsRow(InnerKeySteps5()) && WordsFollow(InnerKeySteps3(), InnerKeySteps4(), InnerKeySteps5())
  {
    assert ScheduleHolds(0x0c23673e, 0xc8311559, 0xddee66a1, 0xb28ed337,
                         0xac9fc9a9, 0xcb4db29d, 0x59369281, 0xe32830f3,
                         0x136f5555, 0x377ff55a, 0x4aa3e0f1, 0x9d19ff47,
                         0x926e254f, 0x39c2254f, 0x2731f000, 0x2bd17abc,
                         InnerKeySteps5());
  }

  lemma InnerKeySchedule6()
    ensures IsRow(InnerKeySteps6()) && WordsFollow(InnerKeySteps4(), InnerKeySteps5(), InnerKeySteps6())
  {
    assert ScheduleHolds(0x136f5555, 0x377ff55a, 0x4aa3e0f1, 0x9d19ff47,
                         0x926e254f, 0x39c2254f, 0x2731f000, 0x2bd17abc,
                         0xf96d6a27, 0x6686c278, 0x616aea0c, 0xb308442a,
                         0x5d1a34ff, 0xca7159c9, 0xd99ebf95, 0xe1a34c15,
                         InnerKeySteps6());
  }

  lemma InnerKeySchedule7()
    ensures IsRow(InnerKeySteps7()) && WordsFollow(InnerKeySteps5(), InnerKeySteps6(), InnerKeySteps7())
  {
    assert ScheduleHolds(0xf96d6a27, 0x6686c278, 0x616aea0c, 0xb308442a,
                         0x5d1a34ff, 0xca7159c9, 0xd99ebf95, 0xe1a34c15,
                         0x51dbd4be, 0x7c986d13, 0x71d1a48e, 0x39a42882,
                         0x53c21066, 0x1d686bfc, 0x7682d688, 0xc08ab048,
                         InnerKeySteps7());
  }

  function InnerKeyResult(): Regs {
    Regs(0x655da7fa, 0xcc434b37, 0x5a1cd5cb, 0x0692ee0e,
         0xa47a23d3, 0x4c3af449, 0xdba21ae2, 0x78c7500c)
  }

  lemma InnerKeySums()
    ensures IsRow(InnerKeySteps7()) && Sums(IV, Behind(InnerKeySteps7())) == InnerKeyResult()
  {
    assert Sums(Regs(0x6a09e667, 0xbb67ae85, 0x3c6ef372, 0xa54ff53a,
                     0x510e527f, 0x9b05688c, 0x1f83d9ab, 0x5be0cd19),
                Regs(0xfb53c193, 0x10db9cb2, 0x1dade259, 0x6142f8d4,
                     0x536bd154, 0xb1358bbd, 0xbc1e4137, 0x1ce682f3))
        == Regs(0x655da7fa, 0xcc434b37, 0x5a1cd5cb, 0x0692ee0e,
                0xa47a23d3, 0x4c3af449, 0xdba21ae2, 0x78c7500c);
  }

  lemma InnerKeyWords(block: seq<octet>)
    requires |block| == BLOCK && Fits(block, InnerKeySteps0(), 0) && Fits(block, InnerKeySteps1(), 8)
    ensures Fits(block, InnerKeySteps2(), 16) && Fits(block, InnerKeySteps3(), 24)
    ensures Fits(block, InnerKeySteps4(), 32) && Fits(block, InnerKeySteps5(), 40)
    ensures Fits(block, InnerKeySteps6(), 48) && Fits(block, InnerKeySteps7(), 56)
  {
    hide RoundsHold, ScheduleHolds, Behind, Fits, IsRow, RowFollows, WordsFollow;
    hide InnerKeySteps0, InnerKeySteps1, InnerKeySteps2, InnerKeySteps3;
    hide InnerKeySteps4, InnerKeySteps5, InnerKeySteps6, InnerKeySteps7;
    InnerKeySchedule2();
    NextWords(block, 16, InnerKeySteps0(), InnerKeySteps1(), InnerKeySteps2());
    InnerKeySchedule3();
    NextWords(block, 24, InnerKeySteps1(), InnerKeySteps2(), InnerKeySteps3());
    InnerKeySchedule4();
    NextWords(block, 32, InnerKeySteps2(), InnerKeySteps3(), InnerKeySteps4());
    InnerKeySchedule5();
    NextWords(block, 40, InnerKeySteps3(), InnerKeySteps4(), InnerKeySteps5());
    InnerKeySchedule6();
    NextWords(block, 48, InnerKeySteps4(), InnerKeySteps5(), InnerKeySteps6());
    InnerKeySchedule7();
    NextWords(block, 56, InnerKeySteps5(), InnerKeySteps6(), InnerKeySteps7());
  }

  lemma InnerKeyWhole(block: seq<octet>)
    requires |block| == BLOCK && Fits(block, InnerKeySteps0(), 0) && Fits(block, InnerKeySteps1(), 8)
    ensures IsRow(InnerKeySteps7()) && Rounds(IV, block, 64) == Behind(InnerKeySteps7())
  {
    hide RowFollows, WordsFollow, IsRow, Behind, Fits, Rounds, Row, Compress, Sums, Constants;
    hide InnerKeySteps0, InnerKeySteps1, InnerKeySteps2, InnerKeySteps3;
    hide InnerKeySteps4, InnerKeySteps5, InnerKeySteps6, InnerKeySteps7;
    hide Constants0, Constants1, Constants2, Constants3, Constants4, Constants5, Constants6, Constants7;
    ConstantsAre();
    RoundsStart(IV, block);
    InnerKeyWords(block);
    InnerKeyRounds0();
    NextRow(block, IV, 0, IV, InnerKeySteps0(), Constants0());
    InnerKeyRounds1();
    NextRow(block, IV, 1, Behind(InnerKeySteps0()), InnerKeySteps1(), Constants1());
    InnerKeyRounds2();
    NextRow(block, IV, 2, Behind(InnerKeySteps1()), InnerKeySteps2(), Constants2());
    InnerKeyRounds3();
    NextRow(block, IV, 3, Behind(InnerKeySteps2()), InnerKeySteps3(), Constants3());
    InnerKeyRounds4();
    NextRow(block, IV, 4, Behind(InnerKeySteps3()), InnerKeySteps4(), Constants4());
    InnerKeyRounds5();
    NextRow(block, IV, 5, Behind(InnerKeySteps4()), InnerKeySteps5(), Constants5());
    InnerKeyRounds6();
    NextRow(block, IV, 6, Behind(InnerKeySteps5()), InnerKeySteps6(), Constants6());
    InnerKeyRounds7();
    NextRow(block, IV, 7, Behind(InnerKeySteps6()), InnerKeySteps7(), Constants7());
    InnerKeySums();
  }

  lemma InnerKeyCompress(block: seq<octet>)
    requires |block| == BLOCK && Fits(block, InnerKeySteps0(), 0) && Fits(block, InnerKeySteps1(), 8)
    ensures Compress(IV, block) == InnerKeyResult()
  {
    hide Compress, Rounds, Sums, Behind, IsRow, Fits, InnerKeySteps7;
    InnerKeyWhole(block);
    InnerKeySums();
    CompressIsSums(IV, block);
  }

  // ---- the text ----

  lemma InnerTextRounds0()
    ensures RowFollows(InnerKeyResult(), InnerTextSteps0(), Constants0())
  {
    assert RoundsHold(0x655da7fa, 0xcc434b37, 0x5a1cd5cb, 0x0692ee0e, 0xa47a23d3, 0x4c3af449, 0xdba21ae2, 0x78c7500c,
                      InnerTextSteps0(), Constants0());
  }

  lemma InnerTextRounds1()
    ensures IsRow(InnerTextSteps0())
    ensures RowFollows(Behind(InnerTextSteps0()), InnerTextSteps1(), Constants1())
  {
    assert RoundsHold(0x54c22a6c, 0xd609bdc3, 0x567dcdf7, 0xf5d4dabb, 0x648372d6, 0x740ccf53, 0xbf0823c8, 0x36f39d1a,
                      InnerTextSteps1(), Constants1());
  }

  lemma InnerTextRounds2()
    ensures IsRow(InnerTextSteps1())
    ensures RowFollows(Behind(InnerTextSteps1()), InnerTextSteps2(), Constants2())
  {
    assert RoundsHold(0xbf4e7f46, 0xd0e32bb8, 0xf5842695, 0x09eca57c, 0xda0d8141, 0x0000f140, 0x053ab6db, 0xb6e243b9,
                      InnerTextSteps2(), Constants2());
  }

  lemma InnerTextRounds3()
    ensures IsRow(InnerTextSteps2())
    ensures RowFollows(Behind(InnerTextSteps2()), InnerTextSteps3(), Constants3())
  {
    assert RoundsHold(0x5b9a284d, 0x79a0a5a9, 0xf06fcc32, 0xbf0b0bf2, 0x2f41410b, 0x47aee404, 0xb5b58232, 0x835ed8a5,
                      InnerTextSteps3(), Constants3());
  }

  lemma InnerTextRounds4()
    ensures IsRow(InnerTextSteps3())
    ensures RowFollows(Behind(InnerTextSteps3()), InnerTextSteps4(), Constants4())
  {
    assert RoundsHold(0x3eebaf95, 0xa80d8d52, 0x578885a2, 0xfd6b63f2, 0x76edd9cf, 0x71d96c70, 0x9f3a120e, 0xb908e6ba,
                      InnerTextSteps4(), Constants4());
  }

  lemma InnerTextRounds5()
    ensures IsRow(InnerTextSteps4())
    ensures RowFollows(Behind(InnerTextSteps4()), InnerTextSteps5(), Constants5())
  {
    assert RoundsHold(0x64336633, 0xc43e9334, 0x89b963f0, 0x44a5d2ff, 0x01eb08e5, 0x66ab4215, 0x04e91075, 0xdc9571de,
                      InnerTextSteps5(), Constants5());
  }

  lemma InnerTextRounds6()
    ensures IsRow(InnerTextSteps5())
    ensures RowFollows(Behind(InnerTextSteps5()), InnerTextSteps6(), Constants6())
  {
    assert RoundsHold(0x18eae95d, 0xc30b4900, 0xb5486ab0, 0x9f6132f2, 0x68e92552, 0x2580f283, 0x521dd93c, 0xb871c7e5,
                      InnerTextSteps6(), Constants6());
  }

  lemma InnerTextRounds7()
    ensures IsRow(InnerTextSteps6())
    ensures RowFollows(Behind(InnerTextSteps6()), InnerTextSteps7(), Constants7())
  {
    assert RoundsHold(0xe73f1bab, 0xf1b65c41, 0x71f4ebf0, 0x72ebf845, 0xdfe69826, 0x44832b00, 0xc7cca388, 0x7f423327,
                      InnerTextSteps7(), Constants7());
  }

  lemma InnerTextSchedule2()
    ensures IsRow(InnerTextSteps2()) && WordsFollow(InnerTextSteps0(), InnerTextSteps1(), InnerTextSteps2())
  {
    assert ScheduleHolds(0x77686174, 0x20646f20, 0x79612077, 0x616e7420,
                         0x666f7220, 0x6e6f7468, 0x696e673f, 0x80000000,
                         0x00000000, 0x00000000, 0x00000000, 0x00000000,
                         0x00000000, 0x00000000, 0x00000000, 0x000002e0,
                         InnerTextSteps2());
  }

  lemma InnerTextSchedule3()
    ensures IsRow(InnerTextSteps3()) && WordsFollow(InnerTextSteps1(), InnerTextSteps2(), InnerTextSteps3())
  {
    assert ScheduleHolds(0x00000000, 0x00000000, 0x00000000, 0x00000000,
                         0x00000000, 0x00000000, 0x00000000, 0x000002e0,
                         0xd6ecae97, 0xcb53a736, 0x0df4d52e, 0x99470585,
                         0x56ac588f, 0xbaf46d24, 0x21b274b4, 0x120525d6,
                         InnerTextSteps3());
  }

  lemma InnerTextSchedule4()
    ensures IsRow(InnerTextSteps4()) && WordsFollow(InnerTextSteps2(), InnerTextSteps3(), InnerTextSteps4())
  {
    assert ScheduleHolds(0xd6ecae97, 0xcb53a736, 0x0df4d52e, 0x99470585,
                         0x56ac588f, 0xbaf46d24, 0x21b274b4, 0x120525d6,
                         0x40189fa8, 0x444a1f39, 0xf57833ad, 0xa316f0ba,
                         0xda928743, 0xc8153509, 0xe63c58e9, 0x9b063401,
                         InnerTextSteps4());
  }

  lemma InnerTextSchedule5()
    ensures IsRow(InnerTextSteps5()) && WordsFollow(InnerTextSteps3(), InnerTextSteps4(), InnerTextSteps5())
  {
    assert ScheduleHolds(0x40189fa8, 0x444a1f39, 0xf57833ad, 0xa316f0ba,
                         0xda928743, 0xc8153509, 0xe63c58e9, 0x9b063401,
                         0x5fb8701b, 0x06610ac3, 0xc09ff909, 0x1a6d0e91,
                         0x67b9d8fd, 0xb9251d58, 0x7b42c482, 0x1e4fcbae,
                         InnerTextSteps5());
  }

  lemma InnerTextSchedule6()
    ensures IsRow(InnerTextSteps6()) && WordsFollow(InnerTextSteps4(), InnerTextSteps5(), InnerTextSteps6())
  {
    assert ScheduleHolds(0x5fb8701b, 0x06610ac3, 0xc09ff909, 0x1a6d0e91,
                         0x67b9d8fd, 0xb9251d58, 0x7b42c482, 0x1e4fcbae,
                         0x7f18d3ae, 0x6b3e02aa, 0x60acd3cc, 0x09230471,
                         0xcf103ae0, 0xff3e7122, 0xbc028b24, 0x31f8a0a0,
                         InnerTextSteps6());
  }

  lemma InnerTextSchedule7()
    ensures IsRow(InnerTextSteps7()) && WordsFollow(InnerTextSteps5(), InnerTextSteps6(), InnerTextSteps7())
  {
    assert ScheduleHolds(0x7f18d3ae, 0x6b3e02aa, 0x60acd3cc, 0x09230471,
                         0xcf103ae0, 0xff3e7122, 0xbc028b24, 0x31f8a0a0,
                         0xa4405ebd, 0xa126f06e, 0x5140b18d, 0x0f9727bc,
                         0x96dc649b, 0xa7105035, 0x1955553f, 0x4cbc81fd,
                         InnerTextSteps7());
  }

  function InnerTextResult(): Regs {
    Regs(0xa2e48586, 0x3d27f9d8, 0x64ac8d80, 0x2432a1ed,
         0x477d8c4c, 0x6f349d16, 0xd4e7e917, 0xc629cad7)
  }

  lemma InnerTextSums()
    ensures IsRow(InnerTextSteps7()) && Sums(InnerKeyResult(), Behind(InnerTextSteps7())) == InnerTextResult()
  {
    assert Sums(Regs(0x655da7fa, 0xcc434b37, 0x5a1cd5cb, 0x0692ee0e,
                     0xa47a23d3, 0x4c3af449, 0xdba21ae2, 0x78c7500c),
                Regs(0x3d86dd8c, 0x70e4aea1, 0x0a8fb7b5, 0x1d9fb3df,
                     0xa3036879, 0x22f9a8cd, 0xf945ce35, 0x4d627acb))
        == Regs(0xa2e48586, 0x3d27f9d8, 0x64ac8d80, 0x2432a1ed,
                0x477d8c4c, 0x6f349d16, 0xd4e7e917, 0xc629cad7);
  }

  lemma InnerTextWords(block: seq<octet>)
    requires |block| == BLOCK && Fits(block, InnerTextSteps0(), 0) && Fits(block, InnerTextSteps1(), 8)
    ensures Fits(block, InnerTextSteps2(), 16) && Fits(block, InnerTextSteps3(), 24)
    ensures Fits(block, InnerTextSteps4(), 32) && Fits(block, InnerTextSteps5(), 40)
    ensures Fits(block, InnerTextSteps6(), 48) && Fits(block, InnerTextSteps7(), 56)
  {
    hide RoundsHold, ScheduleHolds, Behind, Fits, IsRow, RowFollows, WordsFollow;
    hide InnerTextSteps0, InnerTextSteps1, InnerTextSteps2, InnerTextSteps3;
    hide InnerTextSteps4, InnerTextSteps5, InnerTextSteps6, InnerTextSteps7;
    InnerTextSchedule2();
    NextWords(block, 16, InnerTextSteps0(), InnerTextSteps1(), InnerTextSteps2());
    InnerTextSchedule3();
    NextWords(block, 24, InnerTextSteps1(), InnerTextSteps2(), InnerTextSteps3());
    InnerTextSchedule4();
    NextWords(block, 32, InnerTextSteps2(), InnerTextSteps3(), InnerTextSteps4());
    InnerTextSchedule5();
    NextWords(block, 40, InnerTextSteps3(), InnerTextSteps4(), InnerTextSteps5());
    InnerTextSchedule6();
    NextWords(block, 48, InnerTextSteps4(), InnerTextSteps5(), InnerTextSteps6());
    InnerTextSchedule7();
    NextWords(block, 56, InnerTextSteps5(), InnerTextSteps6(), InnerTextSteps7());
  }

  lemma InnerTextWhole(block: seq<octet>)
    requires |block| == BLOCK && Fits(block, InnerTextSteps0(), 0) && Fits(block, InnerTextSteps1(), 8)
    ensures IsRow(InnerTextSteps7()) && Rounds(InnerKeyResult(), block, 64) == Behind(InnerTextSteps7())
  {
    hide RowFollows, WordsFollow, IsRow, Behind, Fits, Rounds, Row, Compress, Sums, Constants;
    hide InnerTextSteps0, InnerTextSteps1, InnerTextSteps2, InnerTextSteps3;
    hide InnerTextSteps4, InnerTextSteps5, InnerTextSteps6, InnerTextSteps7;
    hide Constants0, Constants1, Constants2, Constants3, Constants4, Constants5, Constants6, Constants7;
    ConstantsAre();
    RoundsStart(InnerKeyResult(), block);
    InnerTextWords(block);
    InnerTextRounds0();
    NextRow(block, InnerKeyResult(), 0, InnerKeyResult(), InnerTextSteps0(), Constants0());
    InnerTextRounds1();
    NextRow(block, InnerKeyResult(), 1, Behind(InnerTextSteps0()), InnerTextSteps1(), Constants1());
    InnerTextRounds2();
    NextRow(block, InnerKeyResult(), 2, Behind(InnerTextSteps1()), InnerTextSteps2(), Constants2());
    InnerTextRounds3();
    NextRow(block, InnerKeyResult(), 3, Behind(InnerTextSteps2()), InnerTextSteps3(), Constants3());
    InnerTextRounds4();
    NextRow(block, InnerKeyResult(), 4, Behind(InnerTextSteps3()), InnerTextSteps4(), Constants4());
    InnerTextRounds5();
    NextRow(block, InnerKeyResult(), 5, Behind(InnerTextSteps4()), InnerTextSteps5(), Constants5());
    InnerTextRounds6();
    NextRow(block, InnerKeyResult(), 6, Behind(InnerTextSteps5()), InnerTextSteps6(), Constants6());
    InnerTextRounds7();
    NextRow(block, InnerKeyResult(), 7, Behind(InnerTextSteps6()), InnerTextSteps7(), Constants7());
    InnerTextSums();
  }

  lemma InnerTextCompress(block: seq<octet>)
    requires |block| == BLOCK && Fits(block, InnerTextSteps0(), 0) && Fits(block, InnerTextSteps1(), 8)
    ensures Compress(InnerKeyResult(), block) == InnerTextResult()
  {
    hide Compress, Rounds, Sums, Behind, IsRow, Fits, InnerTextSteps7;
    InnerTextWhole(block);
    InnerTextSums();
    CompressIsSums(InnerKeyResult(), block);
  }

  // ---- the padded key of the outer hash ----

  lemma OuterKeyRounds0()
    ensures RowFollows(IV, OuterKeySteps0(), Constants0())
  {
    assert RoundsHold(0x6a09e667, 0xbb67ae85, 0x3c6ef372, 0xa54ff53a, 0x510e527f, 0x9b05688c, 0x1f83d9ab, 0x5be0cd19,
                      OuterKeySteps0(), Constants0());
  }

  lemma OuterKeyRounds1()
    ensures IsRow(OuterKeySteps0())
    ensures RowFollows(Behind(OuterKeySteps0()), OuterKeySteps1(), Constants1())
  {
    assert RoundsHold(0x69435709, 0xe54a3493, 0xb1133397, 0xcb1304a6, 0x4facc1d6, 0xf3639443, 0x0f707dff, 0x98dc9837,
                      OuterKeySteps1(), Constants1());
  }

  lemma OuterKeyRounds2()
    ensures IsRow(OuterKeySteps1())
    ensures RowFollows(Behind(OuterKeySteps1()), OuterKeySteps2(), Constants2())
  {
    assert RoundsHold(0xe7b8b56f, 0x5e3eeba7, 0xdf63a889, 0xa1a61c47, 0x85ada43a, 0x7a1a23a6, 0x1f4a0977, 0xc247b35e,
                      OuterKeySteps2(), Constants2());
  }

  lemma OuterKeyRounds3()
    ensures IsRow(OuterKeySteps2())
    ensures RowFollows(Behind(OuterKeySteps2()), OuterKeySteps3(), Constants3())
  {
    assert RoundsHold(0x897a142a, 0xb3d8e080, 0x93238532, 0x0b37ef52, 0xe78fa9c2, 0xfba08193, 0xdde54c39, 0x194d0d3a,
                      OuterKeySteps3(), Constants3());
  }

  lemma OuterKeyRounds4()
    ensures IsRow(OuterKeySteps3())
    ensures RowFollows(Behind(OuterKeySteps3()), OuterKeySteps4(), Constants4())
  {
    assert RoundsHold(0x223781a1, 0x466a3c05, 0x33c6b89d, 0x66159104, 0x28c05066, 0x34384529, 0xe1e1a8b5, 0xb7b33477,
                      OuterKeySteps4(), Constants4());
  }

  lemma OuterKeyRounds5()
    ensures IsRow(OuterKeySteps4())
    ensures RowFollows(Behind(OuterKeySteps4()), OuterKeySteps5(), Constants5())
  {
    assert RoundsHold(0x2085ac20, 0xe332a1f9, 0x297f2869, 0xfb686937, 0x5f583973, 0xaf7ba84f, 0x78316de1, 0x1931b9a7,
                      OuterKeySteps5(), Constants5());
  }

  lemma OuterKeyRounds6()
    ensures IsRow(OuterKeySteps5())
    ensures RowFollows(Behind(OuterKeySteps5()), OuterKeySteps6(), Constants6())
  {
    assert RoundsHold(0x835aa22a, 0xe65638ea, 0x5009f43b, 0x5b5a8b27, 0x354edc49, 0xee6c6342, 0x466cefd5, 0x0fb4d10f,
                      OuterKeySteps6(), Constants6());
  }

  lemma OuterKeyRounds7()
    ensures IsRow(OuterKeySteps6())
    ensures RowFollows(Behind(OuterKeySteps6()), OuterKeySteps7(), Constants7())
  {
    assert RoundsHold(0x8a8b3fbf, 0xd3a780aa, 0xd2dbf54f, 0xf2457593, 0xa4a85ec7, 0x1946da48, 0xd532b445, 0xa9c7bd40,
                      OuterKeySteps7(), Constants7());
  }

  lemma OuterKeySchedule2()
    ensures IsRow(OuterKeySteps2()) && WordsFollow(OuterKeySteps0(), OuterKeySteps1(), OuterKeySteps2())
  {
    assert ScheduleHolds(0x16393a39, 0x5c5c5c5c, 0x5c5c5c5c, 0x5c5c5c5c,
                         0x5c5c5c5c, 0x5c5c5c5c, 0x5c5c5c5c, 0x5c5c5c5c,
                         0x5c5c5c5c, 0x5c5c5c5c, 0x5c5c5c5c, 0x5c5c5c5c,
                         0x5c5c5c5c, 0x5c5c5c5c, 0x5c5c5c5c, 0x5c5c5c5c,
                         OuterKeySteps2());
  }

  lemma OuterKeySchedule3()
    ensures IsRow(OuterKeySteps3()) && WordsFollow(OuterKeySteps1(), OuterKeySteps2(), OuterKeySteps3())
  {
    assert ScheduleHolds(0x5c5c5c5c, 0x5c5c5c5c, 0x5c5c5c5c, 0x5c5c5c5c,
                         0x5c5c5c5c, 0x5c5c5c5c, 0x5c5c5c5c, 0x5c5c5c5c,
                         0xbc6c6d6b, 0x028f8f8e, 0x18148f7c, 0x93133fd1,
                         0x33346707, 0x55131c00, 0x1c4c8fc1, 0xaa8252d7,
                         OuterKeySteps3());
  }

  lemma OuterKeySchedule4()
    ensures IsRow(OuterKeySteps4()) && WordsFollow(OuterKeySteps2(), OuterKeySteps3(), OuterKeySteps4())
  {
    assert ScheduleHolds(0xbc6c6d6b, 0x028f8f8e, 0x18148f7c, 0x93133fd1,
                         0x33346707, 0x55131c00, 0x1c4c8fc1, 0xaa8252d7,
                         0xd92fce9a, 0x7bb09081, 0xb23c3c92, 0x8e036611,
                         0xef8b1cd6, 0xfcb68659, 0x98cd1c4a, 0xa514d1ce,
                         OuterKeySteps4());
  }

  lemma OuterKeySchedule5()
    ensures IsRow(OuterKeySteps5()) && WordsFollow(OuterKeySteps3(), OuterKeySteps4(), OuterKeySteps5())
  {
    assert ScheduleHolds(0xd92fce9a, 0x7bb09081, 0xb23c3c92, 0x8e036611,
                         0xef8b1cd6, 0xfcb68659, 0x98cd1c4a, 0xa514d1ce,
                         0x655e9871, 0x80b14e30, 0xc3f7e470, 0x235e01a7,
                         0x0b79c2d8, 0x51112a82, 0xc947e091, 0x9d17222d,
                         OuterKeySteps5());
  }

  lemma OuterKeySchedule6()
    ensures IsRow(OuterKeySteps6()) && WordsFollow(OuterKeySteps4(), OuterKeySteps5(), OuterKeySteps6())
  {
    assert ScheduleHolds(0x655e9871, 0x80b14e30, 0xc3f7e470, 0x235e01a7,
                         0x0b79c2d8, 0x51112a82, 0xc947e091, 0x9d17222d,
                         0x8fead71a, 0xf1240136, 0xf2403484, 0x911ae6e0,
                         0x6b8481a7, 0xb6c12283, 0xc47d12e8, 0x32b8fe41,
                         OuterKeySteps6());
  }

  lemma OuterKeySchedule7()
    ensures IsRow(OuterKeySteps7()) && WordsFollow(OuterKeySteps5(), OuterKeySteps6(), OuterKeySteps7())
  {
    assert ScheduleHolds(0x8fead71a, 0xf1240136, 0xf2403484, 0x911ae6e0,
                         0x6b8481a7, 0xb6c12283, 0xc47d12e8, 0x32b8fe41,
                         0xa4366b12, 0xd4bab7a3, 0x18198b37, 0x5dc30ab5,
                         0xfb56e209, 0xbc47b487, 0x298fa38f, 0xff6df23c,
                         OuterKeySteps7());
  }

  function OuterKeyResult(): Regs {
    Regs(0x0eafe3d5, 0x13412e6c, 0x6a6a2feb, 0x2d375acc,
         0x51a4fd47, 0x6db095e8, 0x23bfa18a, 0x52f141d5)
  }

  lemma OuterKeySums()
    ensures IsRow(OuterKeySteps7()) && Sums(IV, Behind(OuterKeySteps7())) == OuterKeyResult()
  {
    assert Sums(Regs(0x6a09e667, 0xbb67ae85, 0x3c6ef372, 0xa54ff53a,
                     0x510e527f, 0x9b05688c, 0x1f83d9ab, 0x5be0cd19),
                Regs(0xa4a5fd6e, 0x57d97fe7, 0x2dfb3c79, 0x87e76592,
                     0x0096aac8, 0xd2ab2d5c, 0x043bc7df, 0xf71074bc))
        == Regs(0x0eafe3d5, 0x13412e6c, 0x6a6a2feb, 0x2d375acc,
                0x51a4fd47, 0x6db095e8, 0x23bfa18a, 0x52f141d5);
  }

  lemma OuterKeyWords(block: seq<octet>)
    requires |block| == BLOCK && Fits(block, OuterKeySteps0(), 0) && Fits(block, OuterKeySteps1(), 8)
    ensures Fits(block, OuterKeySteps2(), 16) && Fits(block, OuterKeySteps3(), 24)
    ensures Fits(block, OuterKeySteps4(), 32) && Fits(block, OuterKeySteps5(), 40)
    ensures Fits(block, OuterKeySteps6(), 48) && Fits(block, OuterKeySteps7(), 56)
  {
    hide RoundsHold, ScheduleHolds, Behind, Fits, IsRow, RowFollows, WordsFollow;
    hide OuterKeySteps0, OuterKeySteps1, OuterKeySteps2, OuterKeySteps3;
    hide OuterKeySteps4, OuterKeySteps5, OuterKeySteps6, OuterKeySteps7;
    OuterKeySchedule2();
    NextWords(block, 16, OuterKeySteps0(), OuterKeySteps1(), OuterKeySteps2());
    OuterKeySchedule3();
    NextWords(block, 24, OuterKeySteps1(), OuterKeySteps2(), OuterKeySteps3());
    OuterKeySchedule4();
    NextWords(block, 32, OuterKeySteps2(), OuterKeySteps3(), OuterKeySteps4());
    OuterKeySchedule5();
    NextWords(block, 40, OuterKeySteps3(), OuterKeySteps4(), OuterKeySteps5());
    OuterKeySchedule6();
    NextWords(block, 48, OuterKeySteps4(), OuterKeySteps5(), OuterKeySteps6());
    OuterKeySchedule7();
    NextWords(block, 56, OuterKeySteps5(), OuterKeySteps6(), OuterKeySteps7());
  }

  lemma OuterKeyWhole(block: seq<octet>)
    requires |block| == BLOCK && Fits(block, OuterKeySteps0(), 0) && Fits(block, OuterKeySteps1(), 8)
    ensures IsRow(OuterKeySteps7()) && Rounds(IV, block, 64) == Behind(OuterKeySteps7())
  {
    hide RowFollows, WordsFollow, IsRow, Behind, Fits, Rounds, Row, Compress, Sums, Constants;
    hide OuterKeySteps0, OuterKeySteps1, OuterKeySteps2, OuterKeySteps3;
    hide OuterKeySteps4, OuterKeySteps5, OuterKeySteps6, OuterKeySteps7;
    hide Constants0, Constants1, Constants2, Constants3, Constants4, Constants5, Constants6, Constants7;
    ConstantsAre();
    RoundsStart(IV, block);
    OuterKeyWords(block);
    OuterKeyRounds0();
    NextRow(block, IV, 0, IV, OuterKeySteps0(), Constants0());
    OuterKeyRounds1();
    NextRow(block, IV, 1, Behind(OuterKeySteps0()), OuterKeySteps1(), Constants1());
    OuterKeyRounds2();
    NextRow(block, IV, 2, Behind(OuterKeySteps1()), OuterKeySteps2(), Constants2());
    OuterKeyRounds3();
    NextRow(block, IV, 3, Behind(OuterKeySteps2()), OuterKeySteps3(), Constants3());
    OuterKeyRounds4();
    NextRow(block, IV, 4, Behind(OuterKeySteps3()), OuterKeySteps4(), Constants4());
    OuterKeyRounds5();
    NextRow(block, IV, 5, Behind(OuterKeySteps4()), OuterKeySteps5(), Constants5());
    OuterKeyRounds6();
    NextRow(block, IV, 6, Behind(OuterKeySteps5()), OuterKeySteps6(), Constants6());
    OuterKeyRounds7();
    NextRow(block, IV, 7, Behind(OuterKeySteps6()), OuterKeySteps7(), Constants7());
    OuterKeySums();
  }

  lemma OuterKeyCompress(block: seq<octet>)
    requires |block| == BLOCK && Fits(block, OuterKeySteps0(), 0) && Fits(block, OuterKeySteps1(), 8)
    ensures Compress(IV, block) == OuterKeyResult()
  {
    hide Compress, Rounds, Sums, Behind, IsRow, Fits, OuterKeySteps7;
    OuterKeyWhole(block);
    OuterKeySums();
    CompressIsSums(IV, block);
  }

  // ---- the inner digest ----

  lemma OuterDigestRounds0()
    ensures RowFollows(OuterKeyResult(), OuterDigestSteps0(), Constants0())
  {
    assert RoundsHold(0x0eafe3d5, 0x13412e6c, 0x6a6a2feb, 0x2d375acc, 0x51a4fd47, 0x6db095e8, 0x23bfa18a, 0x52f141d5,
                      OuterDigestSteps0(), Constants0());
  }

  lemma OuterDigestRounds1()
    ensures IsRow(OuterDigestSteps0())
    ensures RowFollows(Behind(OuterDigestSteps0()), OuterDigestSteps1(), Constants1())
  {
    assert RoundsHold(0x5d1582d4, 0x12acdcbb, 0xcb506feb, 0x13e61c3b, 0xf26e1dc0, 0x6939e327, 0x4790de5c, 0x2c0283b8,
                      OuterDigestSteps1(), Constants1());
  }

  lemma OuterDigestRounds2()
    ensures IsRow(OuterDigestSteps1())
    ensures RowFollows(Behind(OuterDigestSteps1()), OuterDigestSteps2(), Constants2())
  {
    assert RoundsHold(0x524a1ef8, 0x8777eeed, 0x9af3cfc9, 0xb3f53c2a, 0x2e2fafb1, 0x6a605c43, 0x661ce7b3, 0xac6ca791,
                      OuterDigestSteps2(), Constants2());
  }

  lemma OuterDigestRounds3()
    ensures IsRow(OuterDigestSteps2())
    ensures RowFollows(Behind(OuterDigestSteps2()), OuterDigestSteps3(), Constants3())
  {
    assert RoundsHold(0xca1dd9eb, 0xe78abb5d, 0x513d0d3f, 0x28d0682e, 0xf34d277d, 0x8488c299, 0x9d044671, 0x4116203c,
                      OuterDigestSteps3(), Constants3());
  }

  lemma OuterDigestRounds4()
    ensures IsRow(OuterDigestSteps3())
    ensures RowFollows(Behind(OuterDigestSteps3()), OuterDigestSteps4(), Constants4())
  {
    assert RoundsHold(0xf5637c6b, 0x6a101e8a, 0x88ff9220, 0x804e3e18, 0x36193288, 0xad346d31, 0x90550f47, 0x2b124b23,
                      OuterDigestSteps4(), Constants4());
  }

  lemma OuterDigestRounds5()
    ensures IsRow(OuterDigestSteps4())
    ensures RowFollows(Behind(OuterDigestSteps4()), OuterDigestSteps5(), Constants5())
  {
    assert RoundsHold(0x0939a676, 0x0d153365, 0x2e42d717, 0x3a8a934f, 0x0015e35d, 0x8e8430d5, 0xd54ff5d9, 0x6e0359bc,
                      OuterDigestSteps5(), Constants5());
  }

  lemma OuterDigestRounds6()
    ensures IsRow(OuterDigestSteps5())
    ensures RowFollows(Behind(OuterDigestSteps5()), OuterDigestSteps6(), Constants6())
  {
    assert RoundsHold(0x5ab28db9, 0xa4d05bd3, 0x0795c206, 0x31c61bbf, 0x4504e9e3, 0xc04b2c11, 0xb061e903, 0x9b30b56e,
                      OuterDigestSteps6(), Constants6());
  }

  lemma OuterDigestRounds7()
    ensures IsRow(OuterDigestSteps6())
    ensures RowFollows(Behind(OuterDigestSteps6()), OuterDigestSteps7(), Constants7())
  {
    assert RoundsHold(0x13793033, 0x7e24f1f8, 0x7ffaa436, 0x1eb1f18c, 0xbf9e1c90, 0xfbf6b1b0, 0xee54ab78, 0xf954931b,
                      OuterDigestSteps7(), Constants7());
  }

  lemma OuterDigestSchedule2()
    ensures IsRow(OuterDigestSteps2()) && WordsFollow(OuterDigestSteps0(), OuterDigestSteps1(), OuterDigestSteps2())
  {
    assert ScheduleHolds(0xa2e48586, 0x3d27f9d8, 0x64ac8d80, 0x2432a1ed,
                         0x477d8c4c, 0x6f349d16, 0xd4e7e917, 0xc629cad7,
                         0x80000000, 0x00000000, 0x00000000, 0x00000000,
                         0x00000000, 0x00000000, 0x00000000, 0x00000300,
                         OuterDigestSteps2());
  }

  lemma OuterDigestSchedule3()
    ensures IsRow(OuterDigestSteps3()) && WordsFollow(OuterDigestSteps1(), OuterDigestSteps2(), OuterDigestSteps3())
  {
    assert ScheduleHolds(0x80000000, 0x00000000, 0x00000000, 0x00000000,
                         0x00000000, 0x00000000, 0x00000000, 0x00000300,
                         0xec8d4507, 0x6e44cb58, 0xe57a2e78, 0x1481a913,
                         0xa0c51e3a, 0x20542d99, 0xc7d6bc99, 0x572ed109,
                         OuterDigestSteps3());
  }

  lemma OuterDigestSchedule4()
    ensures IsRow(OuterDigestSteps4()) && WordsFollow(OuterDigestSteps2(), OuterDigestSteps3(), OuterDigestSteps4())
  {
    assert ScheduleHolds(0xec8d4507, 0x6e44cb58, 0xe57a2e78, 0x1481a913,
                         0xa0c51e3a, 0x20542d99, 0xc7d6bc99, 0x572ed109,
                         0x7832fa16, 0x982a793e, 0x36d9a8b4, 0x1463b3c8,
                         0x01955976, 0x776eccea, 0x5f84771d, 0x7b31f508,
                         OuterDigestSteps4());
  }

  lemma OuterDigestSchedule5()
    ensures IsRow(OuterDigestSteps5()) && WordsFollow(OuterDigestSteps3(), OuterDigestSteps4(), OuterDigestSteps5())
  {
    assert ScheduleHolds(0x7832fa16, 0x982a793e, 0x36d9a8b4, 0x1463b3c8,
                         0x01955976, 0x776eccea, 0x5f84771d, 0x7b31f508,
                         0xc9f4aee0, 0xd055fb5c, 0x0b79d67f, 0x7fe06bb1,
                         0x27530bc7, 0x3cdd17eb, 0xd3a5276a, 0xe79ef353,
                         OuterDigestSteps5());
  }

  lemma OuterDigestSchedule6()
    ensures IsRow(OuterDigestSteps6()) && WordsFollow(OuterDigestSteps4(), OuterDigestSteps5(), OuterDigestSteps6())
  {
    assert ScheduleHolds(0xc9f4aee0, 0xd055fb5c, 0x0b79d67f, 0x7fe06bb1,
                         0x27530bc7, 0x3cdd17eb, 0xd3a5276a, 0xe79ef353,
                         0x70708e40, 0x503a442e, 0x8c04f280, 0x60a9ae13,
                         0x8edf61fe, 0x5a70bc6a, 0x06d8cf63, 0x2866cc9d,
                         OuterDigestSteps6());
  }

  lemma OuterDigestSchedule7()
    ensures IsRow(OuterDigestSteps7()) && WordsFollow(OuterDigestSteps5(), OuterDigestSteps6(), OuterDigestSteps7())
  {
    assert ScheduleHolds(0x70708e40, 0x503a442e, 0x8c04f280, 0x60a9ae13,
                         0x8edf61fe, 0x5a70bc6a, 0x06d8cf63, 0x2866cc9d,
                         0x7608691a, 0xa7182225, 0x1dc70eca, 0x6c947dd1,
                         0x7c97dcae, 0x7b09005f, 0x19d1e2a0, 0xab60d9da,
                         OuterDigestSteps7());
  }

  function OuterDigestResult(): Regs {
    Regs(0x5bdcc146, 0xbf60754e, 0x6a042426, 0x089575c7,
         0x5a003f08, 0x9d273983, 0x9dec58b9, 0x64ec3843)
  }

  lemma OuterDigestSums()
    ensures IsRow(OuterDigestSteps7()) && Sums(OuterKeyResult(), Behind(OuterDigestSteps7())) == OuterDigestResult()
  {
    assert Sums(Regs(0x0eafe3d5, 0x13412e6c, 0x6a6a2feb, 0x2d375acc,
                     0x51a4fd47, 0x6db095e8, 0x23bfa18a, 0x52f141d5),
                Regs(0x4d2cdd71, 0xac1f46e2, 0xff99f43b, 0xdb5e1afb,
                     0x085b41c1, 0x2f76a39b, 0x7a2cb72f, 0x11faf66e))
        == Regs(0x5bdcc146, 0xbf60754e, 0x6a042426, 0x089575c7,
                0x5a003f08, 0x9d273983, 0x9dec58b9, 0x64ec3843);
  }

  lemma OuterDigestWords(block: seq<octet>)
    requires |block| == BLOCK && Fits(block, OuterDigestSteps0(), 0) && Fits(block, OuterDigestSteps1(), 8)
    ensures Fits(block, OuterDigestSteps2(), 16) && Fits(block, OuterDigestSteps3(), 24)
    ensures Fits(block, OuterDigestSteps4(), 32) && Fits(block, OuterDigestSteps5(), 40)
    ensures Fits(block, OuterDigestSteps6(), 48) && Fits(block, OuterDigestSteps7(), 56)
  {
    hide RoundsHold, ScheduleHolds, Behind, Fits, IsRow, RowFollows, WordsFollow;
    hide OuterDigestSteps0, OuterDigestSteps1, OuterDigestSteps2, OuterDigestSteps3;
    hide OuterDigestSteps4, OuterDigestSteps5, OuterDigestSteps6, OuterDigestSteps7;
    OuterDigestSchedule2();
    NextWords(block, 16, OuterDigestSteps0(), OuterDigestSteps1(), OuterDigestSteps2());
    OuterDigestSchedule3();
    NextWords(block, 24, OuterDigestSteps1(), OuterDigestSteps2(), OuterDigestSteps3());
    OuterDigestSchedule4();
    NextWords(block, 32, OuterDigestSteps2(), OuterDigestSteps3(), OuterDigestSteps4());
    OuterDigestSchedule5();
    NextWords(block, 40, OuterDigestSteps3(), OuterDigestSteps4(), OuterDigestSteps5());
    OuterDigestSchedule6();
    NextWords(block, 48, OuterDigestSteps4(), OuterDigestSteps5(), OuterDigestSteps6());
    OuterDigestSchedule7();
    NextWords(block, 56, OuterDigestSteps5(), OuterDigestSteps6(), OuterDigestSteps7());
  }

  lemma OuterDigestWhole(block: seq<octet>)
    requires |block| == BLOCK && Fits(block, OuterDigestSteps0(), 0) && Fits(block, OuterDigestSteps1(), 8)
    ensures IsRow(OuterDigestSteps7()) && Rounds(OuterKeyResult(), block, 64) == Behind(OuterDigestSteps7())
  {
    hide RowFollows, WordsFollow, IsRow, Behind, Fits, Rounds, Row, Compress, Sums, Constants;
    hide OuterDigestSteps0, OuterDigestSteps1, OuterDigestSteps2, OuterDigestSteps3;
    hide OuterDigestSteps4, OuterDigestSteps5, OuterDigestSteps6, OuterDigestSteps7;
    hide Constants0, Constants1, Constants2, Constants3, Constants4, Constants5, Constants6, Constants7;
    ConstantsAre();
    RoundsStart(OuterKeyResult(), block);
    OuterDigestWords(block);
    OuterDigestRounds0();
    NextRow(block, OuterKeyResult(), 0, OuterKeyResult(), OuterDigestSteps0(), Constants0());
    OuterDigestRounds1();
    NextRow(block, OuterKeyResult(), 1, Behind(OuterDigestSteps0()), OuterDigestSteps1(), Constants1());
    OuterDigestRounds2();
    NextRow(block, OuterKeyResult(), 2, Behind(OuterDigestSteps1()), OuterDigestSteps2(), Constants2());
    OuterDigestRounds3();
    NextRow(block, OuterKeyResult(), 3, Behind(OuterDigestSteps2()), OuterDigestSteps3(), Constants3());
    OuterDigestRounds4();
    NextRow(block, OuterKeyResult(), 4, Behind(OuterDigestSteps3()), OuterDigestSteps4(), Constants4());
    OuterDigestRounds5();
    NextRow(block, OuterKeyResult(), 5, Behind(OuterDigestSteps4()), OuterDigestSteps5(), Constants5());
    OuterDigestRounds6();
    NextRow(block, OuterKeyResult(), 6, Behind(OuterDigestSteps5()), OuterDigestSteps6(), Constants6());
    OuterDigestRounds7();
    NextRow(block, OuterKeyResult(), 7, Behind(OuterDigestSteps6()), OuterDigestSteps7(), Constants7());
    OuterDigestSums();
  }

  lemma OuterDigestCompress(block: seq<octet>)
    requires |block| == BLOCK && Fits(block, OuterDigestSteps0(), 0) && Fits(block, OuterDigestSteps1(), 8)
    ensures Compress(OuterKeyResult(), block) == OuterDigestResult()
  {
    hide Compress, Rounds, Sums, Behind, IsRow, Fits, OuterDigestSteps7;
    OuterDigestWhole(block);
    OuterDigestSums();
    CompressIsSums(OuterKeyResult(), block);
  }
}
