/** A pool as the memory it is: block headers serialised in the same bytes that hold the payloads.
    The header chain is followed by size only, so what the memory means is one tiling invariant. */
module PoolMemory {
  import opened Bytes
  import opened BlockList

  const POOL_LIMIT: nat := 0x8000_0000

  function FlagsWord(b: Block): nat {
    if b.active then 1 else 0
  }

  ghost predicate HeaderAt(m: seq<byte>, o: nat, b: Block) {
    && o + HEAD + b.size <= |m|
    && Word(m, o) == b.size
    && Word(m, o + 4) == FlagsWord(b)
  }

  /** A header byte by byte: the size and the flag word, both with the lowest octet first. */
  lemma HeaderBytes(m: seq<byte>, o: nat, b: Block)
    ensures HeaderAt(m, o, b) <==>
              && o + 8 + b.size <= |m|
              && FourBytes(m[o], m[o + 1], m[o + 2], m[o + 3]) == b.size
              && FourBytes(m[o + 4], m[o + 5], m[o + 6], m[o + 7]) == if b.active then 1 else 0
  {
    hide Value;
    if o + 8 <= |m| {
      ValueOfFour(m[o..o + 4]);
      ValueOfFour(m[o + 4..o + 8]);
    }
  }

  function FourBytes(a: nat, b: nat, c: nat, d: nat): nat { a + 0x100 * b + 0x1_0000 * c + 0x100_0000 * d }

  /** The headers of `bs` are laid end to end in `m` from `o` on. */
  ghost predicate Headers(m: seq<byte>, o: nat, bs: seq<Block>) {
    forall i {:trigger Offset(bs, i)} :: 0 <= i < |bs| ==> HeaderAt(m, o + Offset(bs, i), bs[i])
  }

  /** The header walk from the start of the pool tiles the pool exactly. */
  ghost predicate Tiled(m: seq<byte>, bs: seq<Block>) {
    Headers(m, 0, bs) && Extent(bs) == |m|
  }

  lemma OffsetInTail(bs: seq<Block>, i: nat)
    requires 0 < |bs| && i < |bs|
    ensures Offset(bs, i + 1) == HEAD + bs[0].size + Offset(bs[1..], i)
  {
    assert bs == [bs[0]] + bs[1..];
    assert Extent([bs[0]]) == HEAD + bs[0].size;
    OffsetInConcat([bs[0]], bs[1..], i + 1);
  }

  /** The memory determines the list: there is one tiling at most. */
  lemma {:induction false} TilingUnique(m: seq<byte>, o: nat, a: seq<Block>, b: seq<Block>)
    requires Headers(m, o, a) && Headers(m, o, b) && Extent(a) == Extent(b)
    ensures a == b
    decreases a
  {
    if a != [] && b != [] {
      assert Offset(a, 0) == 0 && Offset(b, 0) == 0;
      assert HeaderAt(m, o, a[0]) && HeaderAt(m, o, b[0]);
      TailHeaders(m, o, a);
      TailHeaders(m, o, b);
      TilingUnique(m, o + HEAD + a[0].size, a[1..], b[1..]);
    }
  }

  lemma TailHeaders(m: seq<byte>, o: nat, bs: seq<Block>)
    requires bs != [] && Headers(m, o, bs)
    ensures Headers(m, o + HEAD + bs[0].size, bs[1..])
  {
    hide HeaderAt, Offset;
    var t := bs[1..];
    forall i | 0 <= i < |t|
      ensures HeaderAt(m, o + HEAD + bs[0].size + Offset(t, i), t[i])
    {
      OffsetInTail(bs, i);
      assert HeaderAt(m, o + Offset(bs, i + 1), bs[i + 1]);
      assert t[i] == bs[i + 1];
    }
  }

  lemma HeadersFront(m: seq<byte>, o: nat, a: seq<Block>, b: seq<Block>)
    requires Headers(m, o, a + b)
    ensures Headers(m, o, a)
  {
    forall i | 0 <= i < |a|
      ensures HeaderAt(m, o + Offset(a, i), a[i])
    {
      OffsetInConcat(a, b, i);
      assert (a + b)[i] == a[i];
    }
  }

  lemma HeadersBack(m: seq<byte>, o: nat, a: seq<Block>, b: seq<Block>)
    requires Headers(m, o, a + b)
    ensures Headers(m, o + Extent(a), b)
  {
    forall i | 0 <= i < |b|
      ensures HeaderAt(m, o + Extent(a) + Offset(b, i), b[i])
    {
      OffsetInConcat(a, b, |a| + i);
      assert (a + b)[|a| + i] == b[i];
    }
  }

  lemma HeadersJoin(m: seq<byte>, o: nat, a: seq<Block>, b: seq<Block>)
    requires Headers(m, o, a) && Headers(m, o + Extent(a), b)
    ensures Headers(m, o, a + b)
  {
    forall i | 0 <= i < |a + b|
      ensures HeaderAt(m, o + Offset(a + b, i), (a + b)[i])
    {
      OffsetInConcat(a, b, i);
      if i < |a| {
        assert (a + b)[i] == a[i];
      } else {
        assert (a + b)[i] == b[i - |a|];
      }
    }
  }

  lemma ExtentOne(b: Block)
    ensures Extent([b]) == HEAD + b.size
  {}

  lemma OneHeader(m: seq<byte>, o: nat, b: Block)
    ensures Headers(m, o, [b]) <==> HeaderAt(m, o, b)
  {
    assert Offset([b], 0) == 0;
    assert [b][0] == b;
  }

  lemma HeaderOf(m: seq<byte>, bs: seq<Block>, i: nat)
    requires Headers(m, 0, bs) && i < |bs|
    ensures HeaderAt(m, Offset(bs, i), bs[i])
    ensures Offset(bs, i + 1) == Offset(bs, i) + HEAD + bs[i].size
  {
    CutAt(bs, i, 0);
  }

  lemma WordFrame(m: seq<byte>, m': seq<byte>, o: nat)
    requires SameBetween(m, m', o, o + 4)
    ensures Word(m, o) == Word(m', o)
  {
    assert m[o..o + 4] == m'[o..o + 4];
  }

  lemma HeadersFrame(m: seq<byte>, m': seq<byte>, o: nat, bs: seq<Block>)
    requires Headers(m, o, bs) && |m| == |m'| && o + Extent(bs) <= |m|
    requires SameBetween(m, m', o, o + Extent(bs))
    ensures Headers(m', o, bs)
  {
    hide Value, Octets;
    forall i | 0 <= i < |bs|
      ensures HeaderAt(m', o + Offset(bs, i), bs[i])
    {
      OffsetsIncrease(bs, i, i + 1);
      WordFrame(m, m', o + Offset(bs, i));
      WordFrame(m, m', o + Offset(bs, i) + 4);
    }
  }

  /** Rewriting the blocks `lo..hi` in place, by headers of the same extent, leaves the rest
      laid out. */
  lemma HeadersReplace(m: seq<byte>, m': seq<byte>, bs: seq<Block>, lo: nat, hi: nat, mid: seq<Block>)
    requires Tiled(m, bs) && |m'| == |m| && lo <= hi <= |bs| && Extent(mid) == Extent(bs[lo..hi])
    requires SameBetween(m, m', 0, Offset(bs, lo))
    requires SameBetween(m, m', Offset(bs, hi), |m|)
    requires Headers(m', Offset(bs, lo), mid)
    ensures Tiled(m', bs[..lo] + mid + bs[hi..])
  {
    hide Value, Octets, Extent, Offset, Headers;
    var pre, post := bs[..lo], bs[hi..];
    OffsetIsExtent(bs, lo);
    OffsetIsExtent(bs, hi);
    assert bs[..hi] == pre + bs[lo..hi];
    ExtentConcat(pre, bs[lo..hi]);
    ExtentConcat(pre, mid);
    HeadersKept(m, m', bs, lo, hi);
    HeadersJoin(m', 0, pre, mid);
    HeadersJoin(m', 0, pre + mid, post);
    assert bs == bs[..hi] + post;
    ExtentConcat(bs[..hi], post);
    ExtentConcat(pre + mid, post);
  }

  lemma HeadersKept(m: seq<byte>, m': seq<byte>, bs: seq<Block>, lo: nat, hi: nat)
    requires Tiled(m, bs) && |m'| == |m| && lo <= hi <= |bs|
    requires SameBetween(m, m', 0, Offset(bs, lo))
    requires SameBetween(m, m', Offset(bs, hi), |m|)
    ensures Headers(m', 0, bs[..lo])
    ensures Headers(m', Offset(bs, hi), bs[hi..])
  {
    hide Value, Octets, Extent, Offset, Headers;
    assert bs == bs[..lo] + bs[lo..];
    HeadersFront(m, 0, bs[..lo], bs[lo..]);
    OffsetIsExtent(bs, lo);
    OffsetInside(bs, lo);
    HeadersFrame(m, m', 0, bs[..lo]);
    assert bs == bs[..hi] + bs[hi..];
    HeadersBack(m, 0, bs[..hi], bs[hi..]);
    OffsetIsExtent(bs, hi);
    ExtentConcat(bs[..hi], bs[hi..]);
    HeadersFrame(m, m', Offset(bs, hi), bs[hi..]);
  }

  // ---- what each operation writes ----

  /** The writes of a successful search that stops at the block `b` with its header at `o`. */
  function TakenMem(m: seq<byte>, o: nat, b: Block, s: nat): (r: seq<byte>)
    requires o + HEAD + b.size <= |m| < POOL_LIMIT && b.size >= s
    ensures |r| == |m|
  {
    var m1 := PutWord(m, o + 4, 1);
    if b.size - s > HEAD then
      var split := o + HEAD + s;
      PutWord(PutWord(PutWord(m1, split, b.size - s - HEAD), split + 4, 0), o, s)
    else m1
  }

  /** The writes of the merge step: at most the size word of the run's first header. */
  function MergedMem(m: seq<byte>, bs: seq<Block>, i: nat): (r: seq<byte>)
    requires i < |bs| && Extent(bs) == |m| < POOL_LIMIT
    ensures |r| == |m|
  {
    var lo, hi := MergeLo(bs, i), MergeHi(bs, i);
    RunFits(bs, lo, hi);
    if hi - lo > 1 then PutWord(m, Offset(bs, lo), Extent(bs[lo..hi]) - HEAD) else m
  }

  lemma RunFits(bs: seq<Block>, lo: nat, hi: nat)
    requires lo < hi <= |bs|
    ensures HEAD + bs[lo].size <= Extent(bs[lo..hi])
    ensures Offset(bs, lo) + Extent(bs[lo..hi]) == Offset(bs, hi) <= Extent(bs)
  {
    ExtentOfRun(bs, lo, hi);
    assert bs[..hi] == bs[..lo] + bs[lo..hi];
    ExtentConcat(bs[..lo], bs[lo..hi]);
    OffsetIsExtent(bs, lo);
    OffsetIsExtent(bs, hi);
    OffsetInside(bs, hi);
  }

  /** The payload wiped and the flag cleared. */
  function Wiped(m: seq<byte>, o: nat, n: nat): (r: seq<byte>)
    requires o + HEAD + n <= |m|
    ensures |r| == |m|
  {
    PutWord(Put(m, o + HEAD, Fill(0, n)), o + 4, 0)
  }

  /** The wipe, the flag and the merge of a release of block `i`. */
  function ReleasedMem(m: seq<byte>, bs: seq<Block>, i: nat): (r: seq<byte>)
    requires i < |bs| && Extent(bs) == |m| < POOL_LIMIT
    ensures |r| == |m|
  {
    var o := Offset(bs, i);
    OffsetsIncrease(bs, i, |bs|);
    var freed := bs[i := Block(bs[i].size, false)];
    SameSizesSameExtent(freed, bs);
    MergedMem(Wiped(m, o, bs[i].size), freed, i)
  }

  /** The headers that stand where block `b` stood. */
  lemma TakenHeaders(m: seq<byte>, o: nat, b: Block, s: nat)
    requires |m| < POOL_LIMIT && HeaderAt(m, o, b) && Fits(b, s)
    ensures var m' := TakenMem(m, o, b, s);
            && Headers(m', o, Pieces(b, s))
            && SameBetween(m, m', 0, o) && SameBetween(m, m', o + HEAD + b.size, |m|)
  {
    hide Value, Octets;
    var m' := TakenMem(m, o, b, s);
    var m1 := PutWord(m, o + 4, 1);
    WordOfPut(m, o + 4, 1);
    WordElsewhere(m, o + 4, WordBytes(1), o);
    if b.size - s > HEAD {
      var split := o + HEAD + s;
      var taken, rest := Block(s, true), Block(b.size - s - HEAD, false);
      SplitHeaders(m1, o, split, s, rest.size);
      assert Pieces(b, s) == [taken] + [rest];
      OneHeader(m', o, taken);
      OneHeader(m', split, rest);
      HeadersJoin(m', o, [taken], [rest]);
    } else {
      OneHeader(m', o, Block(b.size, true));
    }
  }

  lemma SplitHeaders(m: seq<byte>, o: nat, split: nat, s: nat, rest: nat)
    requires o + HEAD <= split && split + HEAD + rest <= |m| < POOL_LIMIT && s < POOL_LIMIT
    ensures var m' := PutWord(PutWord(PutWord(m, split, rest), split + 4, 0), o, s);
            && Word(m', o) == s && Word(m', o + 4) == Word(m, o + 4)
            && Word(m', split) == rest && Word(m', split + 4) == 0
            && SameBetween(m, m', 0, o) && SameBetween(m, m', split + HEAD, |m|)
  {
    var m2 := PutWord(m, split, rest);
    var m3 := PutWord(m2, split + 4, 0);
    WordOfPut(m, split, rest);
    WordElsewhere(m, split, WordBytes(rest), o + 4);
    WordOfPut(m2, split + 4, 0);
    WordElsewhere(m2, split + 4, WordBytes(0), split);
    WordElsewhere(m2, split + 4, WordBytes(0), o + 4);
    WordOfPut(m3, o, s);
    WordElsewhere(m3, o, WordBytes(s), o + 4);
    WordElsewhere(m3, o, WordBytes(s), split);
    WordElsewhere(m3, o, WordBytes(s), split + 4);
  }

  lemma TakenTiled(m: seq<byte>, bs: seq<Block>, i: nat, s: nat)
    requires Tiled(m, bs) && |m| < POOL_LIMIT && i < |bs| && Fits(bs[i], s)
    ensures Offset(bs, i) + HEAD + bs[i].size <= |m|
    ensures Tiled(TakenMem(m, Offset(bs, i), bs[i], s), Taken(bs, i, s))
  {
    hide Value, Octets, Extent, Offset, Headers, HeaderAt, TakenMem, SameBetween, PutWord;
    var o := Offset(bs, i);
    HeaderOf(m, bs, i);
    TakenHeaders(m, o, bs[i], s);
    assert Taken(bs, i, s) == bs[..i] + Pieces(bs[i], s) + bs[i + 1..];
    PiecesEffect(bs[i], s, o);
    assert bs[i..i + 1] == [bs[i]];
    HeadersReplace(m, TakenMem(m, o, bs[i], s), bs, i, i + 1, Pieces(bs[i], s));
  }

  lemma SizeWritten(m: seq<byte>, o: nat, b: Block, size: nat)
    requires HeaderAt(m, o, b) && o + HEAD + size <= |m| && size < TWO_32
    ensures HeaderAt(PutWord(m, o, size), o, Block(size, b.active))
  {
    hide Value, Octets;
    WordOfPut(m, o, size);
    WordElsewhere(m, o, WordBytes(size), o + 4);
  }

  /** The header of the merged run, written over its first header. */
  lemma MergedHeader(m: seq<byte>, bs: seq<Block>, i: nat)
    requires Tiled(m, bs) && |m| < POOL_LIMIT && i < |bs|
    ensures var lo, hi := MergeLo(bs, i), MergeHi(bs, i);
            var o := Offset(bs, lo);
            var m' := MergedMem(m, bs, i);
            && HEAD <= Extent(bs[lo..hi]) && Offset(bs, hi) == o + Extent(bs[lo..hi]) <= |m|
            && HeaderAt(m', o, Block(Extent(bs[lo..hi]) - HEAD, bs[lo].active))
  {
    hide Value, Octets, Extent, Offset, HeaderAt, Headers, MergeLo, MergeHi, PutWord;
    var lo, hi := MergeLo(bs, i), MergeHi(bs, i);
    RunFits(bs, lo, hi);
    HeaderOf(m, bs, lo);
    assert Extent(bs) == |m|;
    if hi - lo > 1 {
      SizeWritten(m, Offset(bs, lo), bs[lo], Extent(bs[lo..hi]) - HEAD);
    } else {
      assert bs[lo..hi] == [bs[lo]];
      ExtentOne(bs[lo]);
      assert Block(Extent(bs[lo..hi]) - HEAD, bs[lo].active) == bs[lo];
    }
  }

  lemma MergedWrites(m: seq<byte>, bs: seq<Block>, i: nat)
    requires Extent(bs) == |m| < POOL_LIMIT && i < |bs|
    ensures var o := Offset(bs, MergeLo(bs, i)); var m' := MergedMem(m, bs, i);
            && o + HEAD <= Offset(bs, MergeHi(bs, i)) <= |m|
            && SameBetween(m, m', 0, o) && SameBetween(m, m', o + 4, |m|)
  {
    hide Word, Offset, Extent, MergeLo, MergeHi, PutWord, SameBetween, MergedMem;
    var lo, hi := MergeLo(bs, i), MergeHi(bs, i);
    var o := Offset(bs, lo);
    RunFits(bs, lo, hi);
    MergedMemIs(m, bs, i);
    SameItself(m, 0, o);
    SameItself(m, o + 4, |m|);
    if hi - lo > 1 {
      WordWrites(m, o, Extent(bs[lo..hi]) - HEAD);
    }
  }

  lemma MergedMemIs(m: seq<byte>, bs: seq<Block>, i: nat)
    requires Extent(bs) == |m| < POOL_LIMIT && i < |bs|
    ensures var lo, hi := MergeLo(bs, i), MergeHi(bs, i);
            && HEAD + bs[lo].size <= Extent(bs[lo..hi]) && Offset(bs, lo) + Extent(bs[lo..hi]) <= |m|
            && MergedMem(m, bs, i)
               == if hi - lo > 1 then PutWord(m, Offset(bs, lo), Extent(bs[lo..hi]) - HEAD) else m
  {
    hide Offset, Extent, MergeLo, MergeHi, PutWord;
    RunFits(bs, MergeLo(bs, i), MergeHi(bs, i));
  }

  lemma SameItself(m: seq<byte>, lo: nat, hi: nat)
    requires hi <= |m|
    ensures SameBetween(m, m, lo, hi)
  {}

  lemma WordWrites(m: seq<byte>, o: nat, n: nat)
    requires o + 4 <= |m| && n < TWO_32
    ensures SameBetween(m, PutWord(m, o, n), 0, o) && SameBetween(m, PutWord(m, o, n), o + 4, |m|)
  {
    hide WordBytes;
  }

  lemma MergedTiled(m: seq<byte>, bs: seq<Block>, i: nat)
    requires Tiled(m, bs) && |m| < POOL_LIMIT && i < |bs|
    ensures Tiled(MergedMem(m, bs, i), Merged(bs, i))
  {
    hide Value, Octets, Extent, Offset, HeaderAt;
    var lo, hi := MergeLo(bs, i), MergeHi(bs, i);
    var m' := MergedMem(m, bs, i);
    MergedHeader(m, bs, i);
    MergedWrites(m, bs, i);
    var big := Block(Extent(bs[lo..hi]) - HEAD, bs[lo].active);
    OneHeader(m', Offset(bs, lo), big);
    ExtentOne(big);
    HeadersReplace(m, m', bs, lo, hi, [big]);
  }

  /** A write inside the payload of a block leaves the tiling alone. */
  lemma PayloadWriteTiled(m: seq<byte>, bs: seq<Block>, i: nat, off: nat, d: seq<byte>)
    requires Tiled(m, bs) && i < |bs|
    requires Offset(bs, i) + HEAD <= off && off + |d| <= Offset(bs, i) + HEAD + bs[i].size
    ensures off + |d| <= |m| && Tiled(Put(m, off, d), bs)
  {
    hide Value, Octets, Extent, Offset, Headers;
    HeaderOf(m, bs, i);
    var o := Offset(bs, i);
    var m' := Put(m, off, d);
    WordElsewhere(m, off, d, o);
    WordElsewhere(m, off, d, o + 4);
    OneHeader(m', o, bs[i]);
    assert bs[i..i + 1] == [bs[i]];
    assert bs == bs[..i] + [bs[i]] + bs[i + 1..];
    HeadersReplace(m, m', bs, i, i + 1, [bs[i]]);
  }

  lemma ReleasedTiled(m: seq<byte>, bs: seq<Block>, i: nat)
    requires Tiled(m, bs) && |m| < POOL_LIMIT && i < |bs| && bs[i].active
    ensures Tiled(ReleasedMem(m, bs, i), Released(bs, i))
  {
    hide Value, Octets;
    var o := Offset(bs, i);
    HeaderOf(m, bs, i);
    var m1 := Put(m, o + HEAD, Fill(0, bs[i].size));
    PayloadWriteTiled(m, bs, i, o + HEAD, Fill(0, bs[i].size));
    var freed := bs[i := Block(bs[i].size, false)];
    FlagCleared(m1, bs, i);
    MergedTiled(PutWord(m1, o + 4, 0), freed, i);
  }

  lemma FlagCleared(m: seq<byte>, bs: seq<Block>, i: nat)
    requires Tiled(m, bs) && i < |bs|
    ensures Offset(bs, i) + HEAD <= |m|
    ensures Tiled(PutWord(m, Offset(bs, i) + 4, 0), bs[i := Block(bs[i].size, false)])
  {
    hide Value, Octets, Extent, Offset;
    var o := Offset(bs, i);
    HeaderOf(m, bs, i);
    var b := Block(bs[i].size, false);
    var m' := PutWord(m, o + 4, 0);
    WordOfPut(m, o + 4, 0);
    WordElsewhere(m, o + 4, WordBytes(0), o);
    OneHeader(m', o, b);
    ExtentOne(b);
    ExtentOne(bs[i]);
    assert bs[i..i + 1] == [bs[i]];
    assert bs[i := b] == bs[..i] + [b] + bs[i + 1..];
    HeadersReplace(m, m', bs, i, i + 1, [b]);
  }

  lemma MergedRunPlace(bs: seq<Block>, i: nat)
    requires i < |bs|
    ensures var o, lo := Offset(bs, i), Offset(bs, MergeLo(bs, i));
            && o + HEAD + bs[i].size <= Extent(bs)
            && (if FreeBefore(bs, i) then i > 0 && lo == Offset(bs, i - 1) && lo + HEAD <= o else lo == o)
  {
    OffsetsIncrease(bs, i, i + 1);
    if FreeBefore(bs, i) {
      OffsetsIncrease(bs, i - 1, i);
    }
  }

  /** Which bytes a release writes: the payload becomes zero, the flag word and the size word of
      the merged run's first header change, and nothing else. */
  lemma ReleasedWrites(m: seq<byte>, bs: seq<Block>, i: nat)
    requires i < |bs| && Extent(bs) == |m| < POOL_LIMIT
    ensures var m' := ReleasedMem(m, bs, i);
            var o, lo := Offset(bs, i), Offset(bs, MergeLo(bs, i));
            && lo <= o && o + HEAD + bs[i].size <= |m|
            && (forall k :: o + HEAD <= k < o + HEAD + bs[i].size ==> m'[k] == 0)
            && SameBetween(m, m', 0, lo) && SameBetween(m, m', lo + 4, o + 4)
            && SameBetween(m, m', o + HEAD + bs[i].size, |m|)
  {
    hide Octets, MergedMem, Wiped, Offset, MergeLo, MergeHi;
    var o, lo := Offset(bs, i), Offset(bs, MergeLo(bs, i));
    MergedRunPlace(bs, i);
    var m2 := Wiped(m, o, bs[i].size);
    var freed := bs[i := Block(bs[i].size, false)];
    SameSizesSameExtent(freed, bs);
    FreedMergesWhere(bs, i);
    MergedWrites(m2, freed, i);
    WipeThenMerge(m, m2, ReleasedMem(m, bs, i), o, lo, bs[i].size);
  }

  lemma WipeThenMerge(m: seq<byte>, m2: seq<byte>, m': seq<byte>, o: nat, lo: nat, n: nat)
    requires o + HEAD + n <= |m| && |m'| == |m| && (lo == o || lo + HEAD <= o)
    requires m2 == Wiped(m, o, n)
    requires SameBetween(m2, m', 0, lo) && SameBetween(m2, m', lo + 4, |m|)
    ensures forall k :: o + HEAD <= k < o + HEAD + n ==> m'[k] == 0
    ensures SameBetween(m, m', 0, lo) && SameBetween(m, m', lo + 4, o + 4)
    ensures SameBetween(m, m', o + HEAD + n, |m|)
  {
    hide Octets;
  }

  lemma FreedMergesWhere(bs: seq<Block>, i: nat)
    requires i < |bs|
    ensures var freed := bs[i := Block(bs[i].size, false)];
            && MergeLo(freed, i) == MergeLo(bs, i)
            && Offset(freed, MergeLo(freed, i)) == Offset(bs, MergeLo(bs, i))
  {
    SameSizesSameOffset(bs[i := Block(bs[i].size, false)], bs, MergeLo(bs, i));
  }

  lemma {:induction false} SameSizesSameOffset(a: seq<Block>, b: seq<Block>, i: nat)
    requires |a| == |b| && forall k :: 0 <= k < |a| ==> a[k].size == b[k].size
    requires i <= |a|
    ensures Offset(a, i) == Offset(b, i)
  {
    if i > 0 {
      SameSizesSameOffset(a, b, i - 1);
    }
  }
}
