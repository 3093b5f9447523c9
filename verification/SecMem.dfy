/** One pool of the secure heap as the program it is: a byte buffer and counters that are updated in
    place, and header walks as loops. Every method is proved to compute the corresponding function
    of HeapModel. */
module SecMem {
  import opened Arithmetic
  import opened Bytes
  import opened BlockList
  import opened PoolMemory
  import opened HeapModel

  class Pool {
    const base: nat
    const mem: array<byte>
    var curAlloced: nat
    var curBlocks: nat
    ghost var blocks: seq<Block>

    ghost function State(): PoolState
      reads this, mem
    {
      PoolState(base, mem[..], blocks, curAlloced, curBlocks)
    }

    /** The headers in memory spell `blocks`; everything the walks need. */
    ghost predicate Laid()
      reads this, mem
    {
      mem.Length < POOL_LIMIT && Tiled(mem[..], blocks)
    }

    /** One free block spans a new pool; what else lies in the memory stays there. */
    constructor (base: nat, raw: array<byte>)
      requires HEAD < raw.Length < POOL_LIMIT && 0 < base
      modifies raw
      ensures mem == raw
      ensures State() == NewPool(Region(base, old(raw[..])))
      ensures PoolInv(State())
    {
      this.base := base;
      mem := raw;
      curAlloced, curBlocks := 0, 0;
      blocks := [Block(raw.Length - HEAD, false)];
      new;
      WriteWord(0, mem.Length - HEAD);
      WriteWord(4, 0);
      NewPoolInv(Region(base, old(raw[..])));
    }

    method ReadWord(o: nat) returns (w: nat)
      requires o + 4 <= mem.Length
      ensures w == Word(mem[..], o)
    {
      w := (mem[o] as nat) + 0x100 * (mem[o + 1] as nat) + 0x1_0000 * (mem[o + 2] as nat)
           + 0x100_0000 * (mem[o + 3] as nat);
      ValueOfFour(mem[..][o..o + 4]);
    }

    method WriteWord(o: nat, n: nat)
      requires o + 4 <= mem.Length && n < TWO_32
      modifies mem
      ensures mem[..] == PutWord(old(mem[..]), o, n)
    {
      OctetsOfWord(n);
      mem[o] := n % 256;
      mem[o + 1] := n / 0x100 % 256;
      mem[o + 2] := n / 0x1_0000 % 256;
      mem[o + 3] := n / 0x100_0000 % 256;
    }

    /** Start of the block behind the one at `o`, if the pool goes on. */
    method GetNext(o: nat, ghost i: nat) returns (next: Option<nat>)
      requires Laid() && i < |blocks| && o == Offset(blocks, i)
      ensures next == if i + 1 < |blocks| then Some(Offset(blocks, i + 1)) else None
    {
      hide Value, Extent, Headers;
      HeaderOf(mem[..], blocks, i);
      OffsetInside(blocks, i + 1);
      if i + 1 < |blocks| {
        HeaderOf(mem[..], blocks, i + 1);
      }
      var size := ReadWord(o);
      next := if o + HEAD + size < mem.Length then Some(o + HEAD + size) else None;
    }

    /** The block in front, found by walking from the start of the pool. */
    method GetPrev(o: nat, ghost i: nat) returns (prev: Option<nat>)
      requires Laid() && i < |blocks| && o == Offset(blocks, i)
      ensures prev == if i > 0 then Some(Offset(blocks, i - 1)) else None
    {
      OffsetsDistinct(blocks);
      assert Offset(blocks, 0) == 0;
      if o == 0 {
        prev := None;
      } else {
        var at := 0;
        ghost var j := 0;
        while true
          invariant j < i && at == Offset(blocks, j)
          decreases i - j
        {
          var next := GetNext(at, j);
          if next == Some(o) {
            break;
          }
          at := next.value;
          j := j + 1;
        }
        prev := Some(at);
      }
    }

    /** Merge the block at `o` with the free blocks around it. */
    method Merge(o: nat, ghost i: nat)
      requires Laid() && i < |blocks| && o == Offset(blocks, i)
      modifies this`blocks, mem
      ensures Laid()
      ensures blocks == Merged(old(blocks), i)
      ensures mem[..] == MergedMem(old(mem[..]), old(blocks), i)
    {
      hide Headers, Merged, MergedMem, MergedBack, Offset, Extent, MergeLo;
      var prev := GetPrev(o, i);
      var next := GetNext(o, i);
      ghost var bs, m := blocks, mem[..];
      var at := MergeBack(o, prev, i);
      MergeOn(at, next, m, i);
      MergedTiled(m, bs, i);
      blocks := Merged(bs, i);
    }

    /** The block in front, when it is free, takes in the block at `o`. */
    method MergeBack(o: nat, prev: Option<nat>, ghost i: nat) returns (at: nat)
      requires Laid() && i < |blocks| && o == Offset(blocks, i)
      requires prev == if i > 0 then Some(Offset(blocks, i - 1)) else None
      modifies mem
      ensures at == Offset(blocks, MergeLo(blocks, i)) && mem[..] == MergedBack(old(mem[..]), blocks, i)
    {
      hide Headers, Value, Octets, PutWord, Offset, Extent, Word;
      NeighbourWords(mem[..], blocks, i);
      at := o;
      if prev.Some? {
        var flags := ReadWord(prev.value + 4);
        if flags % 2 == 0 {
          var prevSize := ReadWord(prev.value);
          var size := ReadWord(o);
          WriteWord(prev.value, prevSize + HEAD + size);
          at := prev.value;
        }
      }
    }

    /** The block at `at` takes in the block behind it, when that is free. */
    method MergeOn(at: nat, next: Option<nat>, ghost m: seq<byte>, ghost i: nat)
      requires |m| < POOL_LIMIT && Tiled(m, blocks) && i < |blocks| && at == Offset(blocks, MergeLo(blocks, i))
      requires mem[..] == MergedBack(m, blocks, i)
      requires next == if i + 1 < |blocks| then Some(Offset(blocks, i + 1)) else None
      modifies mem
      ensures mem[..] == MergedMem(m, blocks, i)
    {
      hide Headers, Value, Octets, PutWord, Offset, Extent, Word, MergedBack, MergedMem, MergeLo, Tiled;
      NeighbourWords(m, blocks, i);
      MergedInTwoSteps(m, blocks, i);
      if next.Some? {
        var flags := ReadWord(next.value + 4);
        if flags % 2 == 0 {
          var size := ReadWord(at);
          var nextSize := ReadWord(next.value);
          WriteWord(at, size + HEAD + nextSize);
        }
      }
    }

    /** Find a free block for `size` bytes, mark it and split it. */
    method GetNew(size: nat) returns (mb: Option<nat>)
      requires Laid() && Canonical(blocks) && blocks != []
      modifies this`blocks, mem
      ensures Laid() && |mem[..]| == |old(mem[..])|
      ensures var bs := old(blocks); var i := FirstFit(bs, size);
              if i == |bs| then
                mb == None && blocks == bs && mem[..] == old(mem[..])
              else
                && mb == Some(Offset(bs, i)) && blocks == Taken(bs, i, size)
                && Offset(bs, i) + HEAD + bs[i].size <= |old(mem[..])|
                && mem[..] == TakenMem(old(mem[..]), Offset(bs, i), bs[i], size)
    {
      hide Headers, Value, Octets, PutWord, TakenMem, Taken, Offset, Extent;
      ghost var bs, m := blocks, mem[..];
      ghost var j := 0;
      OffsetZero(bs);
      mb := Some(0);
      while mb.Some?
        invariant blocks == bs && mem[..] == m && j <= |bs|
        invariant mb == if j < |bs| then Some(Offset(bs, j)) else None
        invariant forall k :: 0 <= k < j ==> !Fits(bs[k], size)
        decreases |bs| - j
      {
        HeaderOf(m, bs, j);
        var flags := ReadWord(mb.value + 4);
        var room := ReadWord(mb.value);
        if flags % 2 == 0 && room >= size {
          assert Fits(bs[j], size);
          TakenTiled(m, bs, j, size);
          TakenInSteps(m, mb.value, bs[j], size);
          WriteWord(mb.value + 4, flags + 1);
          if room - size > HEAD {
            var split := mb.value + HEAD + size;
            WriteWord(split, room - size - HEAD);
            WriteWord(split + 4, 0);
            WriteWord(mb.value, size);
            blocks := Taken(bs, j, size);
            SplitPlace(bs, j, size);
            SplitNeedsNoMerge(bs, j, size);
            Merge(split, j + 1);
            MergeWithoutEffect(mem[..], bs, j, size);
          } else {
            blocks := Taken(bs, j, size);
          }
          return;
        }
        mb := GetNext(mb.value, j);
        j := j + 1;
      }
    }

    /** The counters are 32-bit words. */
    method StatsUpdate(add: nat, sub: nat)
      requires curAlloced < TWO_32 && curBlocks < TWO_32
      modifies this`curAlloced, this`curBlocks
      ensures curAlloced == Counter(old(curAlloced) + add - sub)
      ensures curBlocks == Counter(old(curBlocks) + (if add > 0 then 1 else 0) - (if sub > 0 then 1 else 0))
    {
      hide Counter;
      CounterSmall(curAlloced);
      CounterSmall(curBlocks);
      if add > 0 {
        CounterAgain(curAlloced + add, 0 - sub);
        CounterAgain(curBlocks + 1, 0 - 1);
        curAlloced := Counter(curAlloced + add);
        curBlocks := Counter(curBlocks + 1);
        CounterSmall(curAlloced);
        CounterSmall(curBlocks);
      }
      if sub > 0 {
        curAlloced := Counter(curAlloced - sub);
        curBlocks := Counter(curBlocks - 1);
      }
    }

    /** Serve a request for `size` bytes from this pool: the payload's address, or 0. */
    method Take(size: nat) returns (a: nat)
      requires PoolInv(State()) && size > 0
      modifies this`blocks, this`curAlloced, this`curBlocks, mem
      ensures if HasRoom(old(State()), size) then
                a == TakenAt(old(State()), size) && State() == TakeFrom(old(State()), size)
              else
                a == 0 && State() == old(State())
    {
      hide Headers, Canonical, Value, Octets, PutWord, TakenMem, Taken, LiveSet, Extent, LiveBytes, LiveCount, Counter;
      ghost var p := State();
      CountersFit(p);
      NonEmptyPool(p);
      var mb := GetNew(size);
      if mb.None? {
        return 0;
      }
      ghost var i := FirstFit(p.blocks, size);
      HeaderOf(p.mem, p.blocks, i);
      TakenEffect(p.blocks, i, size, 0);
      HeaderOf(mem[..], blocks, i);
      var taken := ReadWord(mb.value);
      ghost var grown := TakeFromEffect(p, size);
      CountersFit(TakeFrom(p, size));
      CounterSmall(curAlloced + taken - 0);
      CounterSmall(curBlocks + 1 - 0);
      StatsUpdate(taken, 0);
      return base + mb.value + HEAD;
    }

    method Wipe(o: nat, n: nat, value: byte)
      requires o + n <= mem.Length
      modifies mem
      ensures mem[..] == Put(old(mem[..]), o, Fill(value, n))
    {
      var k := 0;
      while k < n
        invariant k <= n
        invariant forall j :: 0 <= j < mem.Length ==>
                    mem[j] == if o <= j < o + k then value else old(mem[j])
      {
        mem[o + k] := value;
        k := k + 1;
      }
    }

    /** Copy `d` into the buffer at `o`. */
    method Poke(o: nat, d: seq<byte>)
      requires o + |d| <= mem.Length
      modifies mem
      ensures mem[..] == Put(old(mem[..]), o, d)
    {
      var k := 0;
      while k < |d|
        invariant k <= |d|
        invariant forall j :: 0 <= j < mem.Length ==>
                    mem[j] == if o <= j < o + k then d[j - o] else old(mem[j])
      {
        mem[o + k] := d[k];
        k := k + 1;
      }
    }

    /** Free the block whose payload is at address `a`: overwrite the payload four times, the last
        time with zeros, clear the flag and merge. */
    method Release(a: nat)
      requires PoolInv(State()) && LiveIn(State(), a)
      modifies this`blocks, this`curAlloced, this`curBlocks, mem
      ensures State() == ReleaseFrom(old(State()), a)
    {
      hide Headers, Canonical, Value, Octets, PutWord, Merged, MergedMem, LiveSet, Put, Offset, Extent, Counter;
      ghost var p := State();
      ghost var i := BlockAt(p, a);
      CountersFit(p);
      var o := a - base - HEAD;
      HeaderOf(p.mem, p.blocks, i);
      var size := ReadWord(o);
      Wipe(o + HEAD, size, 0xff);
      Wipe(o + HEAD, size, 0xaa);
      Wipe(o + HEAD, size, 0x55);
      Wipe(o + HEAD, size, 0x00);
      LastWipeCounts(p.mem, o + HEAD, size);
      ReleasedEffect(p.blocks, i, 0);
      CounterSmall(curAlloced + 0 - size);
      CounterSmall(curBlocks + 0 - 1);
      StatsUpdate(0, size);
      PayloadWriteTiled(p.mem, p.blocks, i, o + HEAD, Fill(0, size));
      HeaderOf(mem[..], p.blocks, i);
      var flags := ReadWord(o + 4);
      WriteWord(o + 4, flags - flags % 2);
      FlagCleared(Put(p.mem, o + HEAD, Fill(0, size)), p.blocks, i);
      blocks := p.blocks[i := Block(size, false)];
      SameSizesSameOffset(blocks, p.blocks, i);
      assert mem[..] == Wiped(p.mem, o, size);
      Merge(o, i);
      assert blocks == Released(p.blocks, i);
      assert mem[..] == ReleasedMem(p.mem, p.blocks, i);
    }
  }

  /** 32-bit arithmetic on counters. */
  function Counter(n: int): (c: nat)
    ensures c < TWO_32
  {
    n % TWO_32
  }

  lemma CounterSmall(n: int)
    ensures 0 <= n < TWO_32 ==> Counter(n) == n
  {}

  lemma CounterAgain(m: int, n: int)
    ensures Counter(Counter(m) + n) == Counter(m + n)
  {}

  lemma LastWipeCounts(m: seq<byte>, o: nat, n: nat)
    requires o + n <= |m|
    ensures Put(Put(Put(Put(m, o, Fill(0xff, n)), o, Fill(0xaa, n)), o, Fill(0x55, n)), o, Fill(0x00, n))
         == Put(m, o, Fill(0x00, n))
  {}

  lemma CountersFit(p: PoolState)
    requires PoolInv(p)
    ensures p.alloced < POOL_LIMIT && p.used < POOL_LIMIT
    ensures forall i :: 0 <= i < |p.blocks| && p.blocks[i].active ==>
              p.used > 0 && 0 < p.blocks[i].size <= p.alloced
  {
    hide Headers, LiveSet;
    LiveFitsExtent(p.blocks);
    forall i | 0 <= i < |p.blocks| && p.blocks[i].active
      ensures p.used > 0 && 0 < p.blocks[i].size <= p.alloced
    {
      CutAt(p.blocks, i, 0);
    }
  }

  lemma {:induction false} LiveFitsExtent(bs: seq<Block>)
    ensures LiveBytes(bs) + LiveCount(bs) <= Extent(bs)
  {
    if bs != [] {
      LiveFitsExtent(bs[1..]);
    }
  }

  lemma NonEmptyPool(p: PoolState)
    requires PoolInv(p)
    ensures p.blocks != []
  {}

  lemma OffsetZero(bs: seq<Block>)
    ensures Offset(bs, 0) == 0
  {}

  /** The writes of taking a block, one after the other. */
  lemma TakenInSteps(m: seq<byte>, o: nat, b: Block, s: nat)
    requires o + HEAD + b.size <= |m| < POOL_LIMIT && b.size >= s
    ensures var m1 := PutWord(m, o + 4, 1);
            if b.size - s > HEAD then
              TakenMem(m, o, b, s)
                == PutWord(PutWord(PutWord(m1, o + HEAD + s, b.size - s - HEAD), o + HEAD + s + 4, 0), o, s)
            else TakenMem(m, o, b, s) == m1
  {}

  lemma SplitPlace(bs: seq<Block>, i: nat, s: nat)
    requires i < |bs| && Fits(bs[i], s) && bs[i].size - s > HEAD
    ensures i + 1 < |Taken(bs, i, s)| && Offset(Taken(bs, i, s), i + 1) == Offset(bs, i) + HEAD + s
  {
    var r := Taken(bs, i, s);
    assert r[i] == Block(s, true);
    SameFrontOffset(r, bs, i);
  }

  lemma {:induction false} SameFrontOffset(a: seq<Block>, b: seq<Block>, i: nat)
    requires i <= |a| && i <= |b| && forall k :: 0 <= k < i ==> a[k] == b[k]
    ensures Offset(a, i) == Offset(b, i)
  {
    if i > 0 {
      SameFrontOffset(a, b, i - 1);
    }
  }

  /** The merge step behind a split writes nothing. */
  lemma MergeWithoutEffect(m: seq<byte>, bs: seq<Block>, i: nat, s: nat)
    requires Canonical(bs) && i < |bs| && Fits(bs[i], s) && bs[i].size - s > HEAD
    requires Extent(Taken(bs, i, s)) == |m| < POOL_LIMIT
    ensures i + 1 < |Taken(bs, i, s)| && MergedMem(m, Taken(bs, i, s), i + 1) == m
  {
    var r := Taken(bs, i, s);
    assert i + 2 < |r| ==> r[i + 2] == bs[i + 1];
  }

  // ---- the merge step, write by write ----

  /** The size word after the merge with the block in front. */
  function BackSize(bs: seq<Block>, i: nat): nat
    requires i < |bs|
  {
    if FreeBefore(bs, i) then bs[i - 1].size + HEAD + bs[i].size else bs[i].size
  }

  lemma BackFits(bs: seq<Block>, i: nat)
    requires i < |bs|
    ensures Offset(bs, MergeLo(bs, i)) + HEAD + BackSize(bs, i) == Offset(bs, i + 1) <= Extent(bs)
  {
    OffsetInside(bs, i + 1);
  }

  ghost function MergedBack(m: seq<byte>, bs: seq<Block>, i: nat): seq<byte>
    requires i < |bs| && Extent(bs) == |m| < POOL_LIMIT
  {
    BackFits(bs, i);
    if FreeBefore(bs, i) then PutWord(m, Offset(bs, i - 1), BackSize(bs, i)) else m
  }

  /** What the walks and reads of the merge step find. */
  lemma NeighbourWords(m: seq<byte>, bs: seq<Block>, i: nat)
    requires Tiled(m, bs) && |m| < POOL_LIMIT && i < |bs|
    ensures Offset(bs, i) + HEAD <= |m| && Word(m, Offset(bs, i)) == bs[i].size
    ensures i > 0 ==>
              && Offset(bs, i - 1) + HEAD <= |m|
              && Word(m, Offset(bs, i - 1)) == bs[i - 1].size
              && Word(m, Offset(bs, i - 1) + 4) == FlagsWord(bs[i - 1])
    ensures Offset(bs, MergeLo(bs, i)) + HEAD <= |m|
    ensures Word(MergedBack(m, bs, i), Offset(bs, MergeLo(bs, i))) == BackSize(bs, i)
    ensures BackSize(bs, i) < POOL_LIMIT && |MergedBack(m, bs, i)| == |m|
    ensures i + 1 < |bs| ==>
              && Offset(bs, i + 1) + HEAD <= |m|
              && Word(MergedBack(m, bs, i), Offset(bs, i + 1)) == bs[i + 1].size
              && Word(MergedBack(m, bs, i), Offset(bs, i + 1) + 4) == FlagsWord(bs[i + 1])
              && BackSize(bs, i) + HEAD + bs[i + 1].size < POOL_LIMIT
  {
    hide Headers, Value, Octets, PutWord;
    HeaderOf(m, bs, i);
    BackFits(bs, i);
    if i > 0 {
      HeaderOf(m, bs, i - 1);
      if FreeBefore(bs, i) {
        WordOfPut(m, Offset(bs, i - 1), BackSize(bs, i));
      }
    }
    if i + 1 < |bs| {
      HeaderOf(m, bs, i + 1);
      OffsetInside(bs, i + 2);
      if FreeBefore(bs, i) {
        WordPutElsewhere(m, Offset(bs, i - 1), BackSize(bs, i), Offset(bs, i + 1));
        WordPutElsewhere(m, Offset(bs, i - 1), BackSize(bs, i), Offset(bs, i + 1) + 4);
      }
    }
  }

  lemma WordPutElsewhere(m: seq<byte>, o: nat, n: nat, at: nat)
    requires o + 4 <= at && at + 4 <= |m| && n < TWO_32
    ensures Word(PutWord(m, o, n), at) == Word(m, at)
  {
    WordElsewhere(m, o, WordBytes(n), at);
  }

  /** Merging backwards and then forwards writes what merging the whole run at once would. */
  lemma MergedInTwoSteps(m: seq<byte>, bs: seq<Block>, i: nat)
    requires Tiled(m, bs) && |m| < POOL_LIMIT && i < |bs|
    ensures FreeAfter(bs, i) ==>
              && Offset(bs, MergeLo(bs, i)) + HEAD <= |m|
              && BackSize(bs, i) + HEAD + bs[i + 1].size < POOL_LIMIT
              && MergedMem(m, bs, i)
                 == PutWord(MergedBack(m, bs, i), Offset(bs, MergeLo(bs, i)), BackSize(bs, i) + HEAD + bs[i + 1].size)
    ensures !FreeAfter(bs, i) ==> MergedMem(m, bs, i) == MergedBack(m, bs, i)
  {
    hide Headers, Value, Octets, PutWord, Extent;
    var lo, hi := MergeLo(bs, i), MergeHi(bs, i);
    RunFits(bs, lo, hi);
    BackFits(bs, i);
    if FreeAfter(bs, i) {
      assert Extent(bs[lo..hi]) - HEAD == BackSize(bs, i) + HEAD + bs[i + 1].size;
      if FreeBefore(bs, i) {
        PutWordTwice(m, Offset(bs, lo), BackSize(bs, i), Extent(bs[lo..hi]) - HEAD);
      }
    }
  }

  lemma PutWordTwice(m: seq<byte>, o: nat, n: nat, n': nat)
    requires o + 4 <= |m| && n < TWO_32 && n' < TWO_32
    ensures PutWord(PutWord(m, o, n), o, n') == PutWord(m, o, n')
  {
    hide Octets;
  }

  lemma OctetsOfWord(n: nat)
    requires n < TWO_32
    ensures WordBytes(n) == [n % 256, n / 0x100 % 256, n / 0x1_0000 % 256, n / 0x100_0000 % 256]
  {
    var a := n / 256;
    var b := a / 256;
    var c := b / 256;
    Quotients(n);
    assert Octets(c, 1) == [c % 256] + Octets(c / 256, 0);
    assert Octets(b, 2) == [b % 256] + Octets(c, 1);
    assert Octets(a, 3) == [a % 256] + Octets(b, 2);
    assert Octets(n, 4) == [n % 256] + Octets(a, 3);
  }
}
