/** malloc, realloc, free and the caller's writes as functions on the heap's value, and what every
    one of them keeps. Addresses are machine addresses; 0 is the null pointer. */
module HeapOps {
  import opened Bytes
  import opened BlockList
  import opened PoolMemory
  import opened HeapModel

  ghost predicate Apart(p: PoolState, q: PoolState) {
    p.base + |p.mem| <= q.base || q.base + |q.mem| <= p.base
  }

  ghost predicate HeapInv(h: HeapState) {
    && 0 < |h.pools|
    && (forall k :: 0 <= k < |h.pools| ==> PoolInv(h.pools[k]))
    && (forall j, k :: 0 <= j < k < |h.pools| ==> Apart(h.pools[j], h.pools[k]))
    && (h.autoExpand == 0 || HEAD < h.autoExpand < POOL_LIMIT)
  }

  /** The pool that holds address `a`, searched in list order; the list's length if none does. */
  function PoolOf(pools: seq<PoolState>, a: nat): (k: nat)
    ensures k <= |pools|
    ensures k < |pools| ==> InPool(pools[k], a)
    ensures forall j :: 0 <= j < k ==> !InPool(pools[j], a)
  {
    if pools == [] || InPool(pools[0], a) then 0 else 1 + PoolOf(pools[1..], a)
  }

  /** The first pool with a free block of at least `s` bytes. */
  function RoomyPool(pools: seq<PoolState>, s: nat): (k: nat)
    ensures k <= |pools|
    ensures k < |pools| ==> HasRoom(pools[k], s)
    ensures forall j :: 0 <= j < k ==> !HasRoom(pools[j], s)
  {
    if pools == [] || HasRoom(pools[0], s) then 0 else 1 + RoomyPool(pools[1..], s)
  }

  /** The live payloads of the whole heap, as (address, size). */
  ghost function HeapLive(h: HeapState): set<(nat, nat)> {
    set k, x | 0 <= k < |h.pools| && x in PoolLive(h.pools[k]) :: x
  }

  /** The `n` bytes at address `a`, when they lie in a pool. */
  function Load(h: HeapState, a: nat, n: nat): seq<byte> {
    var k := PoolOf(h.pools, a);
    if k < |h.pools| && a + n <= h.pools[k].base + |h.pools[k].mem| then
      h.pools[k].mem[a - h.pools[k].base..a - h.pools[k].base + n]
    else []
  }

  ghost function Store(h: HeapState, a: nat, d: seq<byte>): HeapState {
    var k := PoolOf(h.pools, a);
    if k < |h.pools| && a + |d| <= h.pools[k].base + |h.pools[k].mem| then
      h.(pools := h.pools[k := StoreIn(h.pools[k], a, d)])
    else h
  }

  /** Requests are rounded up to a multiple of 32, in size_t arithmetic. */
  function Rounded(n: nat): nat {
    (n + 31) % (SIZE_MAX + 1) / 32 * 32
  }

  lemma RoundedExact(n: nat)
    requires n <= SIZE_MAX
    ensures Rounded(n) >= n <==> n <= SIZE_MAX - 31
    ensures n <= SIZE_MAX - 31 ==> n <= Rounded(n) < n + 32 && Rounded(n) % 32 == 0
  {}

  function OverflowSize(h: HeapState): nat {
    if h.autoExpand != 0 then h.autoExpand else STANDARD_POOL_SIZE
  }

  /** What the system may hand out when an overflow pool is wanted. */
  ghost predicate GrantOk(h: HeapState, grant: Option<Region>) {
    grant.Some? ==>
      && 0 < grant.value.base && |grant.value.bytes| == OverflowSize(h)
      && forall k :: 0 <= k < |h.pools| ==>
           || grant.value.base + |grant.value.bytes| <= h.pools[k].base
           || h.pools[k].base + |h.pools[k].mem| <= grant.value.base
  }

  // The functions below are total: where a pool is not in order, or an address is not live, they
  // leave the heap alone. Under HeapInv and the callers' obligations that never happens.

  ghost function TakeAt(h: HeapState, k: nat, s: nat): (HeapState, nat) {
    if k < |h.pools| && PoolInv(h.pools[k]) && HasRoom(h.pools[k], s) then
      (h.(pools := h.pools[k := TakeFrom(h.pools[k], s)]), TakenAt(h.pools[k], s))
    else (h, 0)
  }

  /** A new overflow pool goes right behind the main pool. */
  ghost function WithPool(h: HeapState, r: Region): HeapState {
    if 0 < |h.pools| && HEAD < |r.bytes| < POOL_LIMIT then
      h.(pools := [h.pools[0], NewPool(r)] + h.pools[1..])
    else h
  }

  /** The main pool first; the overflow pools, and a new one, only for callers that may expand. */
  ghost function Malloc(h: HeapState, n: nat, xhint: bool, grant: Option<Region>): (HeapState, nat) {
    var s := Rounded(n);
    var k := RoomyPool(h.pools, s);
    if h.notLocked && h.fips then (h, 0)
    else if k == 0 then TakeAt(h, 0, s)
    else if !(xhint || h.autoExpand != 0) || h.fips then (h, 0)
    else if k < |h.pools| then TakeAt(h, k, s)
    else if grant.None? then (h, 0)
    else TakeAt(WithPool(h, grant.value), 1, s)
  }

  ghost predicate LiveAt(h: HeapState, a: nat) {
    var k := PoolOf(h.pools, a);
    k < |h.pools| && LiveIn(h.pools[k], a)
  }

  /** Size of the block whose payload is at `a`. */
  ghost function SizeAt(h: HeapState, a: nat): nat
    requires LiveAt(h, a)
  {
    var p := h.pools[PoolOf(h.pools, a)];
    p.blocks[BlockAt(p, a)].size
  }

  /** What a caller may pass to free: null, a foreign address, or a live payload. */
  ghost predicate FreeOk(h: HeapState, a: nat) {
    a == 0 || PoolOf(h.pools, a) == |h.pools| || LiveAt(h, a)
  }

  ghost function Free(h: HeapState, a: nat): (HeapState, bool) {
    var k := PoolOf(h.pools, a);
    if a == 0 then (h, true)
    else if k == |h.pools| then (h, false)
    else if PoolInv(h.pools[k]) && LiveIn(h.pools[k], a) then
      (h.(pools := h.pools[k := ReleaseFrom(h.pools[k], a)]), true)
    else (h, true)
  }

  ghost function Realloc(h: HeapState, a: nat, n: nat, xhint: bool, grant: Option<Region>): (HeapState, nat)
    requires LiveAt(h, a)
  {
    var size := SizeAt(h, a);
    if n < size then (h, a)
    else
      var (h1, b) := Malloc(h, n, xhint, grant);
      if b == 0 then (h1, 0)
      else (Free(Store(h1, b, Load(h1, a, size) + Fill(0, n - size)), a).0, b)
  }

  // ---- finding pools ----

  lemma PoolOfIs(h: HeapState, k: nat, a: nat)
    requires HeapInv(h) && k < |h.pools| && InPool(h.pools[k], a)
    ensures PoolOf(h.pools, a) == k
  {}

  lemma LivePlaces(h: HeapState, k: nat, x: (nat, nat))
    requires HeapInv(h) && k < |h.pools| && x in PoolLive(h.pools[k])
    ensures x.1 > 0 && h.pools[k].base + HEAD <= x.0 && x.0 + x.1 <= h.pools[k].base + |h.pools[k].mem|
    ensures PoolOf(h.pools, x.0) == k
    ensures LiveAt(h, x.0) && SizeAt(h, x.0) == x.1
    ensures x in HeapLive(h)
    ensures |Load(h, x.0, x.1)| == x.1
  {
    hide Headers, LiveBytes, LiveCount;
    var p := h.pools[k];
    LiveRange(p.blocks, p.base);
    var i := LiveIsABlock(p.blocks, p.base, x);
    PoolOfIs(h, k, x.0);
    assert LiveIn(p, x.0);
  }

  lemma LiveHasPool(h: HeapState, x: (nat, nat)) returns (k: nat)
    requires HeapInv(h) && x in HeapLive(h)
    ensures k < |h.pools| && x in PoolLive(h.pools[k]) && k == PoolOf(h.pools, x.0)
  {
    k :| 0 <= k < |h.pools| && x in PoolLive(h.pools[k]);
    LivePlaces(h, k, x);
  }

  lemma LiveAtIsLive(h: HeapState, a: nat)
    requires HeapInv(h) && LiveAt(h, a)
    ensures PoolOf(h.pools, a) < |h.pools|
    ensures (a, SizeAt(h, a)) in PoolLive(h.pools[PoolOf(h.pools, a)])
    ensures (a, SizeAt(h, a)) in HeapLive(h) && SizeAt(h, a) > 0
  {
    var k := PoolOf(h.pools, a);
    var p := h.pools[k];
    BlockIsLive(p.blocks, p.base, BlockAt(p, a));
    LivePlaces(h, k, (a, SizeAt(h, a)));
  }

  /** Live payloads never overlap, within a pool or across pools. */
  lemma LivePayloadsApart(h: HeapState, x: (nat, nat), y: (nat, nat))
    requires HeapInv(h) && x in HeapLive(h) && y in HeapLive(h) && x != y
    ensures x.0 + x.1 <= y.0 || y.0 + y.1 <= x.0
  {
    var j := LiveHasPool(h, x);
    var k := LiveHasPool(h, y);
    LivePlaces(h, j, x);
    LivePlaces(h, k, y);
    if j == k {
      LivePayloadsDisjoint(h.pools[k].blocks, h.pools[k].base, x, y);
    } else {
      assert Apart(h.pools[if j < k then j else k], h.pools[if j < k then k else j]);
    }
  }

  // ---- changing one pool ----

  lemma StoreIs(h: HeapState, k: nat, a: nat, d: seq<byte>)
    requires k < |h.pools| && PoolOf(h.pools, a) == k && a + |d| <= h.pools[k].base + |h.pools[k].mem|
    ensures Store(h, a, d) == h.(pools := h.pools[k := StoreIn(h.pools[k], a, d)])
  {}

  lemma LoadIs(h: HeapState, k: nat, a: nat, n: nat)
    requires k < |h.pools| && PoolOf(h.pools, a) == k && a + n <= h.pools[k].base + |h.pools[k].mem|
    ensures Load(h, a, n) == h.pools[k].mem[a - h.pools[k].base..a - h.pools[k].base + n]
  {}

  /** `h'` is `h` with pool `k` changed in place. */
  ghost predicate OnlyPool(h: HeapState, h': HeapState, k: nat) {
    && k < |h.pools| && |h'.pools| == |h.pools|
    && h' == h.(pools := h.pools[k := h'.pools[k]])
    && h'.pools[k].base == h.pools[k].base && |h'.pools[k].mem| == |h.pools[k].mem|
  }

  lemma OnlyPoolInv(h: HeapState, h': HeapState, k: nat)
    requires HeapInv(h) && OnlyPool(h, h', k) && PoolInv(h'.pools[k])
    ensures HeapInv(h')
  {}

  lemma {:induction false} SamePoolOf(ps: seq<PoolState>, qs: seq<PoolState>, a: nat)
    requires |ps| == |qs|
    requires forall j :: 0 <= j < |ps| ==> ps[j].base == qs[j].base && |ps[j].mem| == |qs[j].mem|
    ensures PoolOf(ps, a) == PoolOf(qs, a)
  {
    if ps != [] {
      SamePoolOf(ps[1..], qs[1..], a);
    }
  }

  /** What is live elsewhere stays, with its bytes; the live set changes by the pool's change. */
  lemma OnlyPoolLive(h: HeapState, h': HeapState, k: nat, gone: set<(nat, nat)>, come: set<(nat, nat)>)
    requires HeapInv(h) && OnlyPool(h, h', k)
    requires PoolLive(h'.pools[k]) == PoolLive(h.pools[k]) - gone + come
    requires forall x :: x in gone ==> x in PoolLive(h.pools[k])
    ensures HeapLive(h') == HeapLive(h) - gone + come
  {
    forall x
      ensures x in HeapLive(h') <==> x in HeapLive(h) - gone + come
    {
      if x in HeapLive(h') {
        var j :| 0 <= j < |h'.pools| && x in PoolLive(h'.pools[j]);
        if j != k {
          assert h'.pools[j] == h.pools[j];
          if x in gone {
            LivePlaces(h, j, x);
            LivePlaces(h, k, x);
          }
        }
      }
      if x in HeapLive(h) - gone + come {
        if x in come {
          assert x in PoolLive(h'.pools[k]);
        } else {
          var j :| 0 <= j < |h.pools| && x in PoolLive(h.pools[j]);
          assert x in PoolLive(h'.pools[j]);
        }
      }
    }
  }

  lemma OnlyPoolLoad(h: HeapState, h': HeapState, k: nat, x: (nat, nat))
    requires HeapInv(h) && OnlyPool(h, h', k) && x in HeapLive(h)
    requires x in PoolLive(h.pools[k]) ==> KeepsPayload(h.pools[k], h'.pools[k], x)
    ensures Load(h', x.0, x.1) == Load(h, x.0, x.1)
  {
    hide HeapInv, HeapLive, PoolInv, PoolLive, Load, LiveSet;
    var j := LiveHasPool(h, x);
    LivePlaces(h, j, x);
    SamePoolOf(h.pools, h'.pools, x.0);
    LoadIs(h, j, x.0, x.1);
    LoadIs(h', j, x.0, x.1);
    var p, q := h.pools[j], h'.pools[j];
    if j == k {
      SameSlice(p.mem, q.mem, x.0 - p.base, x.0 - p.base + x.1);
    } else {
      assert q == p;
    }
  }

  lemma SameSlice(m: seq<byte>, m': seq<byte>, lo: nat, hi: nat)
    requires lo <= hi && SameBetween(m, m', lo, hi)
    ensures m[lo..hi] == m'[lo..hi]
  {}
}
