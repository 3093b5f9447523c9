/** The secure heap as a value: a list of pools, and what malloc, realloc, free and the caller's own
    writes do to it. The classes in SecMem are proved to compute exactly these functions. */
module HeapModel {
  import opened Bytes
  import opened BlockList
  import opened PoolMemory

  const STANDARD_POOL_SIZE: nat := 32768
  const SIZE_MAX: nat := 0xFFFF_FFFF_FFFF_FFFF

  /** One pool: where it lies, its bytes, the list its headers spell, and its two counters. */
  datatype PoolState = PoolState(base: nat, mem: seq<byte>, blocks: seq<Block>, alloced: nat, used: nat)

  /** `pools[0]` is the main pool, the rest are the overflow pools in list order. */
  datatype HeapState = HeapState(pools: seq<PoolState>, autoExpand: nat, fips: bool, notLocked: bool)

  /** What the system allocator hands out for a new pool: an address and whatever bytes lie there. */
  datatype Region = Region(base: nat, bytes: seq<byte>)

  // ---- one pool ----

  ghost predicate PoolInv(p: PoolState) {
    && 0 < p.base && HEAD < |p.mem| < POOL_LIMIT
    && Tiled(p.mem, p.blocks) && Canonical(p.blocks)
    && p.alloced == LiveBytes(p.blocks) && p.used == LiveCount(p.blocks)
  }

  predicate InPool(p: PoolState, a: nat) {
    p.base <= a < p.base + |p.mem|
  }

  function NewPool(r: Region): (p: PoolState)
    requires HEAD < |r.bytes| < POOL_LIMIT
  {
    PoolState(r.base, PutWord(PutWord(r.bytes, 0, |r.bytes| - HEAD), 4, 0),
              [Block(|r.bytes| - HEAD, false)], 0, 0)
  }

  predicate HasRoom(p: PoolState, s: nat) {
    FirstFit(p.blocks, s) < |p.blocks|
  }

  /** Address of the payload that a request for `s` bytes gets. */
  function TakenAt(p: PoolState, s: nat): nat
    requires HasRoom(p, s)
  {
    p.base + Offset(p.blocks, FirstFit(p.blocks, s)) + HEAD
  }

  ghost function TakeFrom(p: PoolState, s: nat): PoolState
    requires PoolInv(p) && HasRoom(p, s)
  {
    var i := FirstFit(p.blocks, s);
    HeaderOf(p.mem, p.blocks, i);
    var bs := Taken(p.blocks, i, s);
    PoolState(p.base, TakenMem(p.mem, Offset(p.blocks, i), p.blocks[i], s), bs,
              p.alloced + bs[i].size, p.used + 1)
  }

  ghost predicate LiveIn(p: PoolState, a: nat) {
    exists i :: 0 <= i < |p.blocks| && p.blocks[i].active && a == p.base + Offset(p.blocks, i) + HEAD
  }

  /** The block whose payload starts at address `a`. */
  ghost function BlockAt(p: PoolState, a: nat): (i: nat)
    requires LiveIn(p, a)
    ensures i < |p.blocks| && p.blocks[i].active && a == p.base + Offset(p.blocks, i) + HEAD
    ensures forall k :: 0 <= k < |p.blocks| && a == p.base + Offset(p.blocks, k) + HEAD ==> k == i
  {
    OffsetsDistinct(p.blocks);
    var i :| 0 <= i < |p.blocks| && p.blocks[i].active && a == p.base + Offset(p.blocks, i) + HEAD;
    i
  }

  ghost function ReleaseFrom(p: PoolState, a: nat): PoolState
    requires PoolInv(p) && LiveIn(p, a)
  {
    var i := BlockAt(p, a);
    ReleasedEffect(p.blocks, i, 0);
    PoolState(p.base, ReleasedMem(p.mem, p.blocks, i), Released(p.blocks, i),
              p.alloced - p.blocks[i].size, p.used - 1)
  }

  ghost function StoreIn(p: PoolState, a: nat, d: seq<byte>): PoolState
    requires p.base <= a && a + |d| <= p.base + |p.mem|
  {
    p.(mem := Put(p.mem, a - p.base, d))
  }

  ghost function PoolLive(p: PoolState): set<(nat, nat)> {
    LiveSet(p.blocks, p.base)
  }

  lemma NewPoolInv(r: Region)
    requires HEAD < |r.bytes| < POOL_LIMIT && 0 < r.base
    ensures PoolInv(NewPool(r)) && PoolLive(NewPool(r)) == {}
  {
    hide Value, Octets;
    var b := Block(|r.bytes| - HEAD, false);
    var m1 := PutWord(r.bytes, 0, b.size);
    WordOfPut(r.bytes, 0, b.size);
    WordOfPut(m1, 4, 0);
    WordElsewhere(m1, 4, WordBytes(0), 0);
    OneHeader(NewPool(r).mem, 0, b);
    ExtentOne(b);
    LiveOfFreeRun([b], r.base);
    LiveOfFreeRun([b], 0);
  }

  /** The payload `x` lies in the pool, and its bytes are the same in `p` and `q`. */
  ghost predicate KeepsPayload(p: PoolState, q: PoolState, x: (nat, nat)) {
    && p.base + HEAD <= x.0 && x.0 + x.1 <= p.base + |p.mem|
    && SameBetween(p.mem, q.mem, x.0 - p.base, x.0 - p.base + x.1)
  }

  /** What taking a block does to the list of live payloads and the counters. */
  lemma TakeFromEffect(p: PoolState, s: nat) returns (size: nat)
    requires PoolInv(p) && HasRoom(p, s) && s > 0
    ensures s <= size <= s + HEAD
    ensures var q := TakeFrom(p, s);
            && PoolInv(q) && q.base == p.base && |q.mem| == |p.mem|
            && PoolLive(q) == PoolLive(p) + {(TakenAt(p, s), size)}
            && q.alloced == p.alloced + size && q.used == p.used + 1
    ensures p.base + HEAD <= TakenAt(p, s) && TakenAt(p, s) + size <= p.base + |p.mem|
    ensures forall x :: x in PoolLive(p) ==> x.0 != TakenAt(p, s)
  {
    hide Value, Octets, Offset, HeaderAt, Taken, TakenMem;
    var i := FirstFit(p.blocks, s);
    HeaderOf(p.mem, p.blocks, i);
    TakenTiled(p.mem, p.blocks, i, s);
    TakenEffect(p.blocks, i, s, p.base);
    size := Taken(p.blocks, i, s)[i].size;
    OffsetsIncrease(p.blocks, i, i + 1);
    forall x | x in PoolLive(p)
      ensures x.0 != TakenAt(p, s)
    {
      LiveApartFromFree(p.blocks, p.base, i, x);
    }
  }

  /** Whatever was live keeps its bytes. */
  lemma TakeFromKeeps(p: PoolState, s: nat, x: (nat, nat))
    requires PoolInv(p) && HasRoom(p, s) && x in PoolLive(p)
    ensures KeepsPayload(p, TakeFrom(p, s), x)
  {
    hide Value, Octets, HeaderAt, Taken, TakenMem;
    var i := FirstFit(p.blocks, s);
    HeaderOf(p.mem, p.blocks, i);
    TakenHeaders(p.mem, Offset(p.blocks, i), p.blocks[i], s);
    LiveRange(p.blocks, p.base);
    LiveApartFromFree(p.blocks, p.base, i, x);
  }

  /** A live payload lies wholly before or wholly behind any other block. */
  lemma LiveApart(bs: seq<Block>, off: nat, i: nat, x: (nat, nat))
    requires i < |bs| && x in LiveSet(bs, off) && x.0 != off + Offset(bs, i) + HEAD
    ensures x.0 + x.1 <= off + Offset(bs, i) || off + Offset(bs, i + 1) + HEAD <= x.0
  {
    var k := LiveIsABlock(bs, off, x);
    if k < i {
      OffsetsIncrease(bs, k, i);
    } else if i + 1 < k {
      OffsetsIncrease(bs, i + 1, k);
    }
  }

  lemma LiveApartFromFree(bs: seq<Block>, off: nat, i: nat, x: (nat, nat))
    requires i < |bs| && !bs[i].active && x in LiveSet(bs, off)
    ensures x.0 + x.1 <= off + Offset(bs, i) || off + Offset(bs, i + 1) + HEAD <= x.0
  {
    if x.0 == off + Offset(bs, i) + HEAD {
      var k := LiveIsABlock(bs, off, x);
      OffsetsDistinct(bs);
    } else {
      LiveApart(bs, off, i, x);
    }
  }

  /** What freeing a block does: one live payload less, and its bytes are zero afterwards except
      where a header of the list now stands (there is none inside it). */
  lemma ReleaseFromEffect(p: PoolState, a: nat)
    requires PoolInv(p) && LiveIn(p, a)
    ensures var q := ReleaseFrom(p, a); var size := p.blocks[BlockAt(p, a)].size;
            && PoolInv(q) && q.base == p.base && |q.mem| == |p.mem|
            && (a, size) in PoolLive(p) && PoolLive(q) == PoolLive(p) - {(a, size)}
            && q.alloced == p.alloced - size && q.used == p.used - 1
  {
    hide Value, Octets, Offset, HeaderAt, Released, ReleasedMem;
    var i := BlockAt(p, a);
    ReleasedTiled(p.mem, p.blocks, i);
    ReleasedEffect(p.blocks, i, p.base);
    BlockIsLive(p.blocks, p.base, i);
  }

  /** Every byte of a freed payload is zero. */
  lemma ReleaseFromWipes(p: PoolState, a: nat)
    requires PoolInv(p) && LiveIn(p, a)
    ensures var size := p.blocks[BlockAt(p, a)].size;
            && p.base + HEAD <= a && a + size <= p.base + |p.mem|
            && ReleaseFrom(p, a).mem[a - p.base..a - p.base + size] == Fill(0, size)
  {
    hide Value, Octets, HeaderAt;
    var i := BlockAt(p, a);
    HeaderOf(p.mem, p.blocks, i);
    ReleasedWrites(p.mem, p.blocks, i);
  }

  lemma ReleaseFromKeeps(p: PoolState, a: nat, x: (nat, nat))
    requires PoolInv(p) && LiveIn(p, a) && x in PoolLive(p) && x.0 != a
    ensures KeepsPayload(p, ReleaseFrom(p, a), x)
  {
    hide Value, Octets, HeaderAt, Released, ReleasedMem;
    var i := BlockAt(p, a);
    ReleasedWrites(p.mem, p.blocks, i);
    MergedRunPlace(p.blocks, i);
    LiveRange(p.blocks, p.base);
    LiveApart(p.blocks, p.base, i, x);
    if FreeBefore(p.blocks, i) {
      LiveApartFromFree(p.blocks, p.base, i - 1, x);
    }
  }

  /** Writing inside a live payload keeps the pool in order and every other payload as it was. */
  lemma StoreInEffect(p: PoolState, x: (nat, nat), a: nat, d: seq<byte>)
    requires PoolInv(p) && x in PoolLive(p) && x.0 <= a && a + |d| <= x.0 + x.1
    ensures p.base <= a && a + |d| <= p.base + |p.mem|
    ensures PoolInv(StoreIn(p, a, d))
    ensures forall y :: y in PoolLive(p) && y != x ==> KeepsPayload(p, StoreIn(p, a, d), y)
  {
    hide Value, Octets, HeaderAt;
    LiveRange(p.blocks, p.base);
    var i := LiveIsABlock(p.blocks, p.base, x);
    PayloadWriteTiled(p.mem, p.blocks, i, a - p.base, d);
    forall y | y in PoolLive(p) && y != x
      ensures KeepsPayload(p, StoreIn(p, a, d), y)
    {
      LivePayloadsDisjoint(p.blocks, p.base, x, y);
    }
  }

  /** First fit: no free block at a lower address would have done. */
  lemma TakesTheLowest(p: PoolState, s: nat, i: nat)
    requires HasRoom(p, s) && i < |p.blocks| && Fits(p.blocks[i], s)
    ensures TakenAt(p, s) <= p.base + Offset(p.blocks, i) + HEAD
  {
    var k := FirstFit(p.blocks, s);
    if k < i {
      OffsetsIncrease(p.blocks, k, i);
    }
  }
}
