/** What the heap's operations promise one call at a time, and that the live payloads decide all its lists. */
module HeapTheorems {
  import opened Bytes
  import opened BlockList
  import opened PoolMemory
  import opened HeapModel
  import opened HeapOps

  /** Every payload live in `h` has the same bytes in `h'`. */
  ghost predicate KeepsAll(h: HeapState, h': HeapState, live: set<(nat, nat)>) {
    forall x :: x in live ==> Load(h', x.0, x.1) == Load(h, x.0, x.1)
  }

  lemma TakeAtEffect(h: HeapState, k: nat, s: nat) returns (size: nat)
    requires HeapInv(h) && k < |h.pools| && HasRoom(h.pools[k], s) && s > 0
    ensures var (h', a) := TakeAt(h, k, s);
            && HeapInv(h') && a > 0 && s <= size <= s + HEAD
            && HeapLive(h') == HeapLive(h) + {(a, size)}
            && (forall x :: x in HeapLive(h) ==> x.0 != a)
            && KeepsAll(h, h', HeapLive(h))
            && LiveAt(h', a) && SizeAt(h', a) == size
  {
    hide HeapLive, Load, LiveSet, TakeFrom, TakenAt;
    var p := h.pools[k];
    var (h', a) := TakeAt(h, k, s);
    size := TakeFromEffect(p, s);
    assert OnlyPool(h, h', k);
    OnlyPoolInv(h, h', k);
    OnlyPoolLive(h, h', k, {}, {(a, size)});
    LivePlaces(h', k, (a, size));
    forall x | x in HeapLive(h)
      ensures x.0 != a && Load(h', x.0, x.1) == Load(h, x.0, x.1)
    {
      var j := LiveHasPool(h, x);
      LivePlaces(h, j, x);
      PoolOfIs(h, k, a);
      if x in PoolLive(p) {
        TakeFromKeeps(p, s, x);
      }
      OnlyPoolLoad(h, h', k, x);
    }
  }

  lemma WithPoolInv(h: HeapState, r: Region)
    requires HeapInv(h) && GrantOk(h, Some(r))
    ensures HeapInv(WithPool(h, r)) && |WithPool(h, r).pools| == |h.pools| + 1
    ensures PoolLive(WithPool(h, r).pools[1]) == {}
    ensures forall k :: 0 <= k < |h.pools| ==> WithPool(h, r).pools[PlaceAfter(k)] == h.pools[k]
    ensures forall k :: 0 <= k <= |h.pools| && k != 1 ==>
              WithPool(h, r).pools[k] == h.pools[if k == 0 then 0 else k - 1]
  {
    hide PoolInv, PutWord, NewPool, WithPool, PoolLive;
    NewPoolInv(r);
    WithPoolPlaces(h, r);
    var g := WithPool(h, r).pools;
    forall k | 0 <= k < |g| ensures PoolInv(g[k]) {
      assert k == 1 || g[k] == h.pools[if k == 0 then 0 else k - 1];
    }
    forall j, k | 0 <= j < k < |g| ensures Apart(g[j], g[k]) {
      WithPoolApart(h, r, j, k);
    }
  }

  lemma WithPoolPlaces(h: HeapState, r: Region)
    requires HeapInv(h) && GrantOk(h, Some(r))
    ensures var g := WithPool(h, r);
            && HEAD < |r.bytes| < POOL_LIMIT && g == h.(pools := g.pools)
            && |g.pools| == |h.pools| + 1 && g.pools[0] == h.pools[0] && g.pools[1] == NewPool(r)
    ensures forall k :: 2 <= k <= |h.pools| ==> WithPool(h, r).pools[k] == h.pools[k - 1]
  {
    hide PoolInv, NewPool;
  }

  lemma WithPoolApart(h: HeapState, r: Region, j: nat, k: nat)
    requires HeapInv(h) && GrantOk(h, Some(r)) && j < k <= |h.pools|
    ensures |WithPool(h, r).pools| == |h.pools| + 1
    ensures Apart(WithPool(h, r).pools[j], WithPool(h, r).pools[k])
  {
    hide PoolInv, NewPool, WithPool, HeapInv;
    WithPoolPlaces(h, r);
    NewPoolBounds(r);
    if j != 1 && k != 1 {
      StillApart(h, if j == 0 then 0 else j - 1, k - 1);
    }
  }

  lemma StillApart(h: HeapState, j: nat, k: nat)
    requires HeapInv(h) && j < k < |h.pools|
    ensures Apart(h.pools[j], h.pools[k])
  {}

  lemma NewPoolBounds(r: Region)
    requires HEAD < |r.bytes| < POOL_LIMIT
    ensures NewPool(r).base == r.base && |NewPool(r).mem| == |r.bytes|
  {}

  /** Where pool `k` stands once a pool has been put behind the main pool. */
  function PlaceAfter(k: nat): nat {
    if k == 0 then 0 else k + 1
  }

  lemma WithPoolEffect(h: HeapState, r: Region)
    requires HeapInv(h) && GrantOk(h, Some(r))
    ensures var h' := WithPool(h, r);
            && HeapInv(h') && |h'.pools| == |h.pools| + 1
            && HeapLive(h') == HeapLive(h) && KeepsAll(h, h', HeapLive(h))
  {
    hide HeapInv, Load, LiveSet, WithPool;
    var h' := WithPool(h, r);
    WithPoolInv(h, r);
    NonEmpty(h);
    forall x | x in HeapLive(h)
      ensures x in HeapLive(h') && Load(h', x.0, x.1) == Load(h, x.0, x.1)
    {
      var k := LiveHasPool(h, x);
      LivePlaces(h, k, x);
      LivePlaces(h', PlaceAfter(k), x);
      SameByteRange(h, h', k, PlaceAfter(k), x);
    }
    forall x | x in HeapLive(h')
      ensures x in HeapLive(h)
    {
      var k :| 0 <= k < |h'.pools| && x in PoolLive(h'.pools[k]);
      assert k != 1;
      var j := if k == 0 then 0 else k - 1;
      assert x in PoolLive(h.pools[j]);
    }
  }

  lemma SameByteRange(h: HeapState, h': HeapState, k: nat, k': nat, x: (nat, nat))
    requires k < |h.pools| && k' < |h'.pools| && h.pools[k] == h'.pools[k']
    requires PoolOf(h.pools, x.0) == k && PoolOf(h'.pools, x.0) == k'
    ensures Load(h', x.0, x.1) == Load(h, x.0, x.1)
  {}

  /** malloc: the heap stays in order; a null result changes no payload; any other result is one
      new live payload of at least the rounded request and at most a header more. */
  lemma MallocEffect(h: HeapState, n: nat, xhint: bool, grant: Option<Region>)
    requires HeapInv(h) && GrantOk(h, grant) && 0 < n <= SIZE_MAX - 31
    ensures var (h', a) := Malloc(h, n, xhint, grant);
            && HeapInv(h') && KeepsAll(h, h', HeapLive(h))
            && (a == 0 ==> HeapLive(h') == HeapLive(h))
            && (a != 0 ==>
                  && LiveAt(h', a)
                  && n <= Rounded(n) <= SizeAt(h', a) <= Rounded(n) + HEAD
                  && HeapLive(h') == HeapLive(h) + {(a, SizeAt(h', a))}
                  && forall x :: x in HeapLive(h) ==> x.0 != a)
  {
    hide HeapInv, HeapLive, Load, LiveAt, SizeAt;
    var s := Rounded(n);
    RoundedExact(n);
    var k := RoomyPool(h.pools, s);
    if h.notLocked && h.fips {
    } else if k == 0 {
      NonEmpty(h);
      var size := TakeAtEffect(h, 0, s);
    } else if !(xhint || h.autoExpand != 0) || h.fips {
    } else if k < |h.pools| {
      var size := TakeAtEffect(h, k, s);
    } else if grant.Some? {
      WithPoolEffect(h, grant.value);
      var h1 := WithPool(h, grant.value);
      NonEmpty(h);
      if HasRoom(h1.pools[1], s) {
        var size := TakeAtEffect(h1, 1, s);
      }
    }
  }

  lemma NonEmpty(h: HeapState)
    requires HeapInv(h)
    ensures 0 < |h.pools|
  {}

  /** free of a live payload: exactly that payload leaves the live set, its bytes are all zero,
      and every other payload keeps its bytes. */
  lemma FreeEffect(h: HeapState, a: nat)
    requires HeapInv(h) && LiveAt(h, a)
    ensures var (h', done) := Free(h, a);
            && done && HeapInv(h')
            && HeapLive(h') == HeapLive(h) - {(a, SizeAt(h, a))}
            && KeepsAll(h, h', HeapLive(h'))
            && Load(h', a, SizeAt(h, a)) == Fill(0, SizeAt(h, a))
  {
    hide HeapLive, Load, LiveSet, ReleaseFrom, Tiled, Canonical, LiveBytes, LiveCount;
    var k := PoolOf(h.pools, a);
    var p := h.pools[k];
    var h' := Free(h, a).0;
    LiveAtIsLive(h, a);
    ReleaseFromEffect(p, a);
    assert OnlyPool(h, h', k);
    OnlyPoolInv(h, h', k);
    var y := (a, SizeAt(h, a));
    OnlyPoolLive(h, h', k, {y}, {});
    forall x | x in HeapLive(h')
      ensures Load(h', x.0, x.1) == Load(h, x.0, x.1)
    {
      if x in PoolLive(p) {
        if x.0 == a {
          LivePlaces(h, k, x);
        }
        ReleaseFromKeeps(p, a, x);
      }
      OnlyPoolLoad(h, h', k, x);
    }
    FreedBytesAreZero(h, a);
  }

  lemma FreedBytesAreZero(h: HeapState, a: nat)
    requires HeapInv(h) && LiveAt(h, a)
    ensures Load(Free(h, a).0, a, SizeAt(h, a)) == Fill(0, SizeAt(h, a))
  {
    hide ReleaseFrom, Tiled, Canonical, LiveBytes, LiveCount, LiveSet, Load;
    var k, h' := PoolOf(h.pools, a), Free(h, a).0;
    ReleaseFromWipes(h.pools[k], a);
    ReleaseFromEffect(h.pools[k], a);
    SamePoolOf(h.pools, h'.pools, a);
    LoadIs(h', k, a, SizeAt(h, a));
  }

  /** A write inside a live payload: the heap stays in order, the live set is the same, the bytes
      are there, and every other payload keeps its bytes. */
  lemma StoreEffect(h: HeapState, x: (nat, nat), off: nat, d: seq<byte>)
    requires HeapInv(h) && x in HeapLive(h) && off + |d| <= x.1
    ensures var h' := Store(h, x.0 + off, d);
            && HeapInv(h') && HeapLive(h') == HeapLive(h)
            && KeepsAll(h, h', HeapLive(h) - {x})
            && |Load(h, x.0, x.1)| == x.1
            && Load(h', x.0, x.1) == Put(Load(h, x.0, x.1), off, d)
  {
    hide HeapLive, Load, LiveSet, HeapInv, Store;
    var k := LiveHasPool(h, x);
    LivePlaces(h, k, x);
    if d == [] {
      StoreNothing(h, x.0 + off);
      assert Put(Load(h, x.0, x.1), off, d) == Load(h, x.0, x.1);
    } else {
      StoreTouchesOnePool(h, k, x, off, d);
      StoredBytes(h, k, x, off, d);
    }
  }

  lemma StoreTouchesOnePool(h: HeapState, k: nat, x: (nat, nat), off: nat, d: seq<byte>)
    requires HeapInv(h) && k < |h.pools| && x in PoolLive(h.pools[k]) && off + |d| <= x.1 && d != []
    ensures var h' := Store(h, x.0 + off, d);
            && OnlyPool(h, h', k)
            && HeapInv(h') && HeapLive(h') == HeapLive(h)
            && KeepsAll(h, h', HeapLive(h) - {x})
  {
    hide HeapLive, Load, LiveSet, Tiled, Canonical, LiveBytes, LiveCount;
    LivePlaces(h, k, x);
    PoolOfIs(h, k, x.0 + off);
    var h' := Store(h, x.0 + off, d);
    StoreInEffect(h.pools[k], x, x.0 + off, d);
    assert OnlyPool(h, h', k);
    OnlyPoolInv(h, h', k);
    OnlyPoolLive(h, h', k, {}, {});
    forall y | y in HeapLive(h) - {x}
      ensures Load(h', y.0, y.1) == Load(h, y.0, y.1)
    {
      OnlyPoolLoad(h, h', k, y);
    }
  }

  lemma StoredBytes(h: HeapState, k: nat, x: (nat, nat), off: nat, d: seq<byte>)
    requires HeapInv(h) && k < |h.pools| && x in PoolLive(h.pools[k]) && off + |d| <= x.1 && d != []
    ensures |Load(h, x.0, x.1)| == x.1
    ensures Load(Store(h, x.0 + off, d), x.0, x.1) == Put(Load(h, x.0, x.1), off, d)
  {
    hide HeapLive, LiveSet, Tiled, Canonical, LiveBytes, LiveCount, Load, Put, Store;
    LivePlaces(h, k, x);
    PoolOfIs(h, k, x.0 + off);
    var h' := Store(h, x.0 + off, d);
    var at := x.0 - h.pools[k].base;
    StoreIs(h, k, x.0 + off, d);
    SamePoolOf(h.pools, h'.pools, x.0);
    LoadIs(h, k, x.0, x.1);
    LoadIs(h', k, x.0, x.1);
    PutInside(h.pools[k].mem, at, x.1, off, d);
  }

  lemma PutInside(m: seq<byte>, at: nat, n: nat, off: nat, d: seq<byte>)
    requires at + n <= |m| && off + |d| <= n
    ensures Put(m, at + off, d)[at..at + n] == Put(m[at..at + n], off, d)
  {}

  lemma StoreNothing(h: HeapState, a: nat)
    ensures Store(h, a, []) == h
  {
    var k := PoolOf(h.pools, a);
    if k < |h.pools| {
      assert StoreIn(h.pools[k], a, []) == h.pools[k];
      assert h.pools[k := h.pools[k]] == h.pools;
    }
  }

  /** realloc: the old bytes are at the front of the block returned, zeros follow up to the new
      size, the old block is gone and wiped when it was moved, every other payload is untouched. */
  lemma ReallocEffect(h: HeapState, a: nat, n: nat, xhint: bool, grant: Option<Region>)
    requires HeapInv(h) && GrantOk(h, grant) && LiveAt(h, a) && n <= SIZE_MAX - 31
    ensures var (h', b) := Realloc(h, a, n, xhint, grant); var size := SizeAt(h, a);
            && HeapInv(h')
            && (n < size ==> h' == h && b == a)
            && (n >= size && b == 0 ==> HeapLive(h') == HeapLive(h) && KeepsAll(h, h', HeapLive(h)))
            && (n >= size && b != 0 ==>
                  && b != a && LiveAt(h', b) && n <= SizeAt(h', b)
                  && HeapLive(h') == HeapLive(h) - {(a, size)} + {(b, SizeAt(h', b))}
                  && KeepsAll(h, h', HeapLive(h) - {(a, size)})
                  && Load(h', b, n) == Load(h, a, size) + Fill(0, n - size)
                  && Load(h', a, size) == Fill(0, size))
  {
    hide HeapLive, Load, LiveAt, SizeAt, Malloc, Free, Store, HeapInv;
    var size := SizeAt(h, a);
    LiveAtIsLive(h, a);
    if n >= size {
      MallocEffect(h, n, xhint, grant);
      var (h1, b) := Malloc(h, n, xhint, grant);
      if b != 0 {
        ReallocMoves(h, h1, a, b, n);
      }
    }
  }

  lemma ReallocMoves(h: HeapState, h1: HeapState, a: nat, b: nat, n: nat)
    requires HeapInv(h) && HeapInv(h1) && LiveAt(h, a) && LiveAt(h1, b) && a != b
    requires SizeAt(h, a) <= n <= SizeAt(h1, b)
    requires (a, SizeAt(h, a)) in HeapLive(h)
    requires KeepsAll(h, h1, HeapLive(h))
    requires HeapLive(h1) == HeapLive(h) + {(b, SizeAt(h1, b))}
    requires forall x :: x in HeapLive(h) ==> x.0 != b
    ensures var size := SizeAt(h, a);
            var h' := Free(Store(h1, b, Load(h1, a, size) + Fill(0, n - size)), a).0;
            && HeapInv(h') && LiveAt(h', b) && SizeAt(h', b) == SizeAt(h1, b)
            && HeapLive(h') == HeapLive(h) - {(a, size)} + {(b, SizeAt(h1, b))}
            && KeepsAll(h, h', HeapLive(h) - {(a, size)})
            && Load(h', b, n) == Load(h, a, size) + Fill(0, n - size)
            && Load(h', a, size) == Fill(0, size)
  {
    hide HeapLive, Load, LiveAt, SizeAt, Malloc, Free, Store, HeapInv;
    var size := SizeAt(h, a);
    var x, y := (a, size), (b, SizeAt(h1, b));
    LiveLoad(h1, x);
    var d := Load(h1, a, size) + Fill(0, n - size);
    StoreEffect(h1, y, 0, d);
    var h2 := Store(h1, b, d);
    assert y.0 + 0 == b;
    LiveLoad(h2, x);
    LiveLoad(h2, y);
    FreeEffect(h2, a);
    var h' := Free(h2, a).0;
    LiveLoad(h', y);
    LoadPrefix(h', y, n);
    assert Put(Load(h1, b, y.1), 0, d)[..n] == d;
  }

  lemma LiveLoad(h: HeapState, x: (nat, nat))
    requires HeapInv(h) && x in HeapLive(h)
    ensures |Load(h, x.0, x.1)| == x.1 && LiveAt(h, x.0) && SizeAt(h, x.0) == x.1
  {
    var k := LiveHasPool(h, x);
    LivePlaces(h, k, x);
  }

  lemma LoadPrefix(h: HeapState, x: (nat, nat), n: nat)
    requires HeapInv(h) && x in HeapLive(h) && n <= x.1
    ensures |Load(h, x.0, x.1)| == x.1
    ensures Load(h, x.0, n) == Load(h, x.0, x.1)[..n]
  {
    hide HeapInv, HeapLive, PoolLive, Load;
    var k := LiveHasPool(h, x);
    LivePlaces(h, k, x);
    LoadIs(h, k, x.0, x.1);
    LoadIs(h, k, x.0, n);
  }

  // ---- the heap is canonical ----

  ghost predicate SameRegions(h: HeapState, g: HeapState) {
    && |h.pools| == |g.pools|
    && forall k :: 0 <= k < |h.pools| ==>
         h.pools[k].base == g.pools[k].base && |h.pools[k].mem| == |g.pools[k].mem|
  }

  /** What a pool's headers and counters say. */
  ghost predicate SameLists(h: HeapState, g: HeapState) {
    && |h.pools| == |g.pools|
    && forall k :: 0 <= k < |h.pools| ==>
         && h.pools[k].blocks == g.pools[k].blocks
         && h.pools[k].alloced == g.pools[k].alloced && h.pools[k].used == g.pools[k].used
  }

  /** The block lists and the counters are a function of what is live, whatever the history. */
  lemma HeapIsCanonical(h: HeapState, g: HeapState)
    requires HeapInv(h) && HeapInv(g) && SameRegions(h, g) && HeapLive(h) == HeapLive(g)
    ensures SameLists(h, g)
  {
    forall k | 0 <= k < |h.pools|
      ensures h.pools[k].blocks == g.pools[k].blocks
    {
      LiveOfPool(h, g, k);
      LiveOfPool(g, h, k);
      CanonicalUnique(h.pools[k].blocks, g.pools[k].blocks, h.pools[k].base);
    }
  }

  lemma LiveOfPool(h: HeapState, g: HeapState, k: nat)
    requires HeapInv(h) && HeapInv(g) && SameRegions(h, g) && HeapLive(h) == HeapLive(g)
    requires k < |h.pools|
    ensures PoolLive(h.pools[k]) <= PoolLive(g.pools[k])
  {
    forall x | x in PoolLive(h.pools[k])
      ensures x in PoolLive(g.pools[k])
    {
      LivePlaces(h, k, x);
      var j := LiveHasPool(g, x);
      SamePoolOf(h.pools, g.pools, x.0);
    }
  }

  /** malloc followed by free restores every block list and every counter. When a pool was added, it
      stays behind the main pool as one free block. */
  lemma MallocThenFreeRestores(h: HeapState, n: nat, xhint: bool, grant: Option<Region>)
    requires HeapInv(h) && GrantOk(h, grant) && 0 < n <= SIZE_MAX - 31
    ensures var (h', a) := Malloc(h, n, xhint, grant); var g := Free(h', a).0;
            a != 0 ==>
              if |h'.pools| == |h.pools| then SameLists(g, h)
              else
                && |g.pools| == |h.pools| + 1
                && g.pools[1].blocks == [Block((if h.autoExpand != 0 then h.autoExpand else 32768) - 8, false)]
                && g.pools[1].alloced == 0 && g.pools[1].used == 0
                && forall k :: 0 <= k < |h.pools| ==> SamePoolLists(g.pools[PlaceAfter(k)], h.pools[k])
  {
    hide HeapInv, HeapLive, Load, LiveAt, SizeAt, Malloc, Free, WithPool, SameRegions, SameLists;
    var (h', a) := Malloc(h, n, xhint, grant);
    if a != 0 {
      MallocEffect(h, n, xhint, grant);
      FreeEffect(h', a);
      MallocKeepsRegions(h, n, xhint, grant);
      var g, was := Free(h', a).0, if |h'.pools| == |h.pools| then h else WithPool(h, grant.value);
      FreeKeepsRegions(h', a);
      SameRegionsOnward(g, h', was);
      assert HeapLive(h) + {(a, SizeAt(h', a))} - {(a, SizeAt(h', a))} == HeapLive(h);
      if |h'.pools| != |h.pools| {
        WithPoolEffect(h, grant.value);
        HeapIsCanonical(g, was);
        NewPoolIsFree(h, g, grant.value);
      } else {
        HeapIsCanonical(g, was);
      }
    }
  }

  ghost predicate SamePoolLists(p: PoolState, q: PoolState) {
    p.blocks == q.blocks && p.alloced == q.alloced && p.used == q.used
  }

  lemma NewPoolIsFree(h: HeapState, g: HeapState, r: Region)
    requires HeapInv(h) && GrantOk(h, Some(r)) && SameLists(g, WithPool(h, r))
    ensures |g.pools| == |h.pools| + 1
    ensures g.pools[1].blocks == [Block((if h.autoExpand != 0 then h.autoExpand else 32768) - 8, false)]
    ensures g.pools[1].alloced == 0 && g.pools[1].used == 0
    ensures forall k :: 0 <= k < |h.pools| ==> SamePoolLists(g.pools[PlaceAfter(k)], h.pools[k])
  {
    hide HeapInv, WithPool, PutWord;
    WithPoolPlaces(h, r);
    NonEmpty(h);
    var w := WithPool(h, r);
    assert g.pools[1].blocks == w.pools[1].blocks;
    forall k | 0 <= k < |h.pools| ensures SamePoolLists(g.pools[PlaceAfter(k)], h.pools[k]) {
      assert w.pools[PlaceAfter(k)] == h.pools[k];
    }
  }

  lemma SameRegionsOnward(a: HeapState, b: HeapState, c: HeapState)
    requires SameRegions(a, b) && SameRegions(b, c)
    ensures SameRegions(a, c)
  {}

  /** The regions stay, but for the new pool when one was added. */
  lemma MallocKeepsRegions(h: HeapState, n: nat, xhint: bool, grant: Option<Region>)
    requires HeapInv(h) && GrantOk(h, grant) && 0 < n <= SIZE_MAX - 31
    ensures var h' := Malloc(h, n, xhint, grant).0;
            if |h'.pools| == |h.pools| then SameRegions(h', h)
            else grant.Some? && SameRegions(h', WithPool(h, grant.value))
  {
    hide HeapInv, PoolInv, TakeAt, WithPool, GrantOk, Rounded, HasRoom, SameRegions;
    var s := Rounded(n);
    RoundedExact(n);
    NonEmpty(h);
    SameRegionsItself(h);
    TakeAtKeepsRegions(h, RoomyPool(h.pools, s), s);
    if grant.Some? {
      WithPoolPlaces(h, grant.value);
      TakeAtKeepsRegions(WithPool(h, grant.value), 1, s);
    }
  }

  lemma SameRegionsItself(h: HeapState)
    ensures SameRegions(h, h)
  {}

  lemma TakeAtKeepsRegions(h: HeapState, k: nat, s: nat)
    requires s > 0
    ensures |TakeAt(h, k, s).0.pools| == |h.pools| && SameRegions(TakeAt(h, k, s).0, h)
  {
    hide TakeFrom, TakenAt, PoolInv, HasRoom;
    if k < |h.pools| && PoolInv(h.pools[k]) && HasRoom(h.pools[k], s) {
      var size := TakeFromEffect(h.pools[k], s);
    }
  }

  lemma FreeKeepsRegions(h: HeapState, a: nat)
    requires HeapInv(h)
    ensures SameRegions(Free(h, a).0, h)
  {
    hide LiveSet, Tiled, Canonical, LiveBytes, LiveCount;
    var k := PoolOf(h.pools, a);
    if k < |h.pools| && LiveIn(h.pools[k], a) {
      ReleaseFromEffect(h.pools[k], a);
    }
  }

  /** Free the given addresses in the given order. */
  ghost function FreeAll(h: HeapState, order: seq<nat>): HeapState
    decreases |order|
  {
    if order == [] then h else FreeAll(Free(h, order[0]).0, order[1..])
  }

  lemma {:induction false} FreeAllEffect(h: HeapState, order: seq<nat>)
    requires HeapInv(h)
    requires forall i, j :: 0 <= i < j < |order| ==> order[i] != order[j]
    requires forall i :: 0 <= i < |order| ==> LiveAt(h, order[i])
    ensures var g := FreeAll(h, order);
            && HeapInv(g) && SameRegions(g, h)
            && HeapLive(g) == (set x | x in HeapLive(h) && x.0 !in order)
    decreases |order|
  {
    hide HeapInv, HeapLive, LiveAt, Free, SizeAt, Load;
    if order != [] {
      var a := order[0];
      var h1 := Free(h, a).0;
      FreeEffect(h, a);
      FreeKeepsRegions(h, a);
      LiveAtIsLive(h, a);
      forall i | 0 <= i < |order[1..]|
        ensures LiveAt(h1, order[1..][i])
      {
        var b := order[i + 1];
        LiveAtIsLive(h, b);
        LiveLoad(h1, (b, SizeAt(h, b)));
      }
      FreeAllEffect(h1, order[1..]);
      forall x | x in HeapLive(h) && x.0 == a
        ensures x == (a, SizeAt(h, a))
      {
        LiveLoad(h, x);
      }
      assert forall b :: b in order <==> b == a || b in order[1..];
    }
  }

  /** Any two orders of freeing the same payloads end in the same block lists and counters. */
  lemma FreeOrderIrrelevant(h: HeapState, order1: seq<nat>, order2: seq<nat>)
    requires HeapInv(h)
    requires forall i, j :: 0 <= i < j < |order1| ==> order1[i] != order1[j]
    requires forall i, j :: 0 <= i < j < |order2| ==> order2[i] != order2[j]
    requires forall a :: a in order1 <==> a in order2
    requires forall a :: a in order1 ==> LiveAt(h, a)
    ensures SameLists(FreeAll(h, order1), FreeAll(h, order2))
  {
    hide HeapInv, HeapLive, LiveAt, FreeAll;
    FreeAllEffect(h, order1);
    FreeAllEffect(h, order2);
    HeapIsCanonical(FreeAll(h, order1), FreeAll(h, order2));
  }

  /** Freeing everything leaves one free block per pool, of the pool's size less one header. */
  lemma FreeingEverything(h: HeapState, order: seq<nat>)
    requires HeapInv(h)
    requires forall i, j :: 0 <= i < j < |order| ==> order[i] != order[j]
    requires forall i :: 0 <= i < |order| ==> LiveAt(h, order[i])
    requires forall x :: x in HeapLive(h) ==> x.0 in order
    ensures var g := FreeAll(h, order);
            && SameRegions(g, h)
            && forall k :: 0 <= k < |g.pools| ==>
                 && g.pools[k].blocks == [Block(|g.pools[k].mem| - HEAD, false)]
                 && g.pools[k].alloced == 0 && g.pools[k].used == 0
  {
    hide LiveAt, FreeAll;
    FreeAllEffect(h, order);
    var g := FreeAll(h, order);
    forall k | 0 <= k < |g.pools|
      ensures g.pools[k].blocks == [Block(|g.pools[k].mem| - HEAD, false)]
      ensures g.pools[k].alloced == 0 && g.pools[k].used == 0
    {
      var p := g.pools[k];
      assert PoolLive(p) == {} by {
        forall x | x in PoolLive(p) ensures false {
          LivePlaces(g, k, x);
        }
      }
      var one := [Block(|p.mem| - HEAD, false)];
      LiveOfFreeRun(one, p.base);
      ExtentOne(one[0]);
      CanonicalUnique(p.blocks, one, p.base);
    }
  }

  // ---- when there is no room ----

  /** When a request fails, every pool the caller may use is full or fragmented: what is not live
      in it lies in gaps too small for the request, at most one more of them than live blocks. */
  lemma FailedMallocMeansFragmented(h: HeapState, n: nat, xhint: bool, grant: Option<Region>, k: nat)
    requires HeapInv(h) && GrantOk(h, grant) && 0 < n <= SIZE_MAX - 31
    requires Malloc(h, n, xhint, grant).1 == 0 && !(h.notLocked && h.fips)
    requires k < |h.pools| && (k == 0 || ((xhint || h.autoExpand != 0) && !h.fips))
    ensures var p := h.pools[k];
            |p.mem| <= p.alloced + HEAD * p.used + (p.used + 1) * (HEAD + Rounded(n) - 1)
  {
    var s := Rounded(n);
    RoundedExact(n);
    var j := RoomyPool(h.pools, s);
    if j <= k {
      var size := TakeAtEffect(h, j, s);
    }
    FragmentationBound(h.pools[k].blocks, s);
  }

  /** Whether the caller may use overflow pools. */
  predicate MayExpand(h: HeapState, xhint: bool) {
    (xhint || h.autoExpand != 0) && !h.fips
  }

  /** malloc returns null in exactly these cases: memory that must be locked is not; or the main pool
      has no room, and the caller may not expand, or no pool has room and neither has a new one. */
  lemma MallocFailsExactly(h: HeapState, n: nat, xhint: bool, grant: Option<Region>)
    requires HeapInv(h) && GrantOk(h, grant) && 0 < n <= SIZE_MAX - 31
    ensures var s := Rounded(n);
            Malloc(h, n, xhint, grant).1 == 0 <==>
              || (h.notLocked && h.fips)
              || (&& !HasRoom(h.pools[0], s)
                  && (|| !MayExpand(h, xhint)
                      || (&& (forall k :: 0 <= k < |h.pools| ==> !HasRoom(h.pools[k], s))
                          && (grant.None? || OverflowSize(h) < HEAD + s))))
  {
    hide HeapInv, PoolInv, HeapLive, LiveAt, SizeAt, HasRoom, GrantOk, TakeAt, WithPool;
    var s := Rounded(n);
    var k := RoomyPool(h.pools, s);
    NonEmpty(h);
    RoundedExact(n);
    if k < |h.pools| {
      var size := TakeAtEffect(h, k, s);
    } else if grant.Some? {
      NewPoolServes(h, grant.value, s);
    }
  }

  /** A new pool serves a request exactly when the request and a header fit, at its first payload. */
  lemma NewPoolServes(h: HeapState, r: Region, s: nat)
    requires HeapInv(h) && GrantOk(h, Some(r)) && s > 0
    ensures var (h', a) := TakeAt(WithPool(h, r), 1, s);
            && (a != 0 <==> HEAD + s <= OverflowSize(h))
            && (a != 0 ==> a == r.base + HEAD && HeapInv(h') && PoolOf(h'.pools, a) == 1 && |h'.pools| == |h.pools| + 1)
  {
    hide HeapLive, LiveSet, Tiled, Canonical, LiveAt, SizeAt;
    var g := WithPool(h, r);
    WithPoolInv(h, r);
    WithPoolPlaces(h, r);
    assert g.pools[1].blocks == [Block(|r.bytes| - HEAD, false)] && g.pools[1].base == r.base;
    assert FirstFit(g.pools[1].blocks, s) == if |r.bytes| - HEAD >= s then 0 else 1;
    if HasRoom(g.pools[1], s) {
      ServedInPool(g, 1, s);
      assert Offset(g.pools[1].blocks, 0) == 0;
    }
  }

  lemma ServedInPool(h: HeapState, k: nat, s: nat)
    requires HeapInv(h) && k < |h.pools| && HasRoom(h.pools[k], s) && s > 0
    ensures var (h', a) := TakeAt(h, k, s);
            a == TakenAt(h.pools[k], s) > 0 && HeapInv(h') && |h'.pools| == |h.pools| && PoolOf(h'.pools, a) == k
  {
    hide HeapLive, LiveSet, Tiled, Canonical, LiveAt, SizeAt, TakenAt, Load;
    var size := TakeAtEffect(h, k, s);
    var h' := TakeAt(h, k, s).0;
    size := TakeFromEffect(h.pools[k], s);
    PoolOfIs(h', k, TakenAt(h.pools[k], s));
  }

  /** The pool has a free block of at least `s` bytes. */
  ghost predicate FreeBlock(p: PoolState, s: nat) {
    exists i | 0 <= i < |p.blocks| :: !p.blocks[i].active && p.blocks[i].size >= s
  }

  lemma RoomIsFreeBlock(p: PoolState, s: nat)
    ensures HasRoom(p, s) <==> FreeBlock(p, s)
  {
    var i := FirstFit(p.blocks, s);
    if i < |p.blocks| {
      assert !p.blocks[i].active && p.blocks[i].size >= s;
    }
    forall k | 0 <= k < |p.blocks| && !p.blocks[k].active && p.blocks[k].size >= s ensures HasRoom(p, s) {
      assert Fits(p.blocks[k], s);
    }
  }

  /** Whether a request for `n` bytes is served, in plain numbers: from the main pool; or, when the caller
      may expand, from an overflow pool, or from a new one of the configured size, 32768 bytes by default,
      if the system gives one and a header of 8 bytes and the request, rounded up to 32, fit in it. */
  ghost predicate Serves(h: HeapState, n: nat, xhint: bool, given: bool)
    requires 0 < |h.pools|
  {
    var s := (n + 31) / 32 * 32;
    && !(h.notLocked && h.fips)
    && (|| FreeBlock(h.pools[0], s)
        || (&& (xhint || h.autoExpand != 0) && !h.fips
            && (|| (exists k | 0 <= k < |h.pools| :: FreeBlock(h.pools[k], s))
                || (given && 8 + s <= if h.autoExpand != 0 then h.autoExpand else 32768))))
  }

  lemma MallocServes(h: HeapState, n: nat, xhint: bool, grant: Option<Region>)
    requires HeapInv(h) && GrantOk(h, grant) && 0 < n <= SIZE_MAX - 31
    ensures 0 < |h.pools| && (Malloc(h, n, xhint, grant).1 != 0 <==> Serves(h, n, xhint, grant.Some?))
  {
    hide HeapInv, HasRoom, FreeBlock, GrantOk, Malloc;
    NonEmpty(h);
    MallocFailsExactly(h, n, xhint, grant);
    forall k | 0 <= k < |h.pools| ensures HasRoom(h.pools[k], Rounded(n)) <==> FreeBlock(h.pools[k], Rounded(n)) {
      RoomIsFreeBlock(h.pools[k], Rounded(n));
    }
  }

  /** A region that is not needed makes no difference. */
  lemma ServesGiven(h: HeapState, n: nat, xhint: bool, grant: Option<Region>, given: bool)
    requires HeapInv(h) && GrantOk(h, grant) && 0 < n <= SIZE_MAX - 31 && (grant.Some? ==> given)
    requires given && grant.None? && MayExpand(h, xhint) && !(h.notLocked && h.fips) ==>
               RoomyPool(h.pools, Rounded(n)) < |h.pools|
    ensures 0 < |h.pools| && (Malloc(h, n, xhint, grant).1 != 0 <==> Serves(h, n, xhint, given))
  {
    hide HeapInv, HasRoom, FreeBlock, GrantOk, Malloc;
    MallocServes(h, n, xhint, grant);
    var k := RoomyPool(h.pools, Rounded(n));
    if k < |h.pools| {
      RoomIsFreeBlock(h.pools[k], Rounded(n));
    }
  }

  /** A region is granted exactly when it has the configured size and overlaps no pool. */
  lemma GrantIs(h: HeapState, r: Region)
    ensures GrantOk(h, Some(r)) <==>
              && 0 < r.base && |r.bytes| == (if h.autoExpand != 0 then h.autoExpand else 32768)
              && forall k :: 0 <= k < |h.pools| ==>
                   r.base + |r.bytes| <= h.pools[k].base || h.pools[k].base + |h.pools[k].mem| <= r.base
  {}

  /** The payload a pool gives up: behind the 8 bytes of its header, and of just the size asked for when
      more than another header would be left, of the whole block otherwise. */
  lemma TakenSize(h: HeapState, k: nat, s: nat)
    requires HeapInv(h) && k < |h.pools| && HasRoom(h.pools[k], s) && s > 0
    ensures var (h', a) := TakeAt(h, k, s); var p := h.pools[k]; var i := FirstFit(p.blocks, s);
            && a == p.base + Offset(p.blocks, i) + 8
            && LiveAt(h', a)
            && SizeAt(h', a) == if p.blocks[i].size - s > 8 then s else p.blocks[i].size
  {
    hide HeapLive, LiveSet, Tiled, Canonical, LiveBytes, LiveCount, KeepsAll;
    var p := h.pools[k];
    var i := FirstFit(p.blocks, s);
    var (h', a) := TakeAt(h, k, s);
    var size := TakeAtEffect(h, k, s);
    ServedInPool(h, k, s);
    var q := h'.pools[k];
    CutAt(p.blocks, i, 0);
    SameFront(p.blocks, q.blocks, i);
    assert q.blocks[i].active && a == q.base + Offset(q.blocks, i) + HEAD;
    assert BlockAt(q, a) == i;
  }

  lemma {:induction false} SameFront(a: seq<Block>, b: seq<Block>, i: nat)
    requires i <= |a| && i <= |b| && a[..i] == b[..i]
    ensures Offset(a, i) == Offset(b, i)
  {
    if i > 0 {
      assert a[..i - 1] == a[..i][..i - 1] && b[..i - 1] == b[..i][..i - 1];
      assert a[i - 1] == a[..i][i - 1] && b[i - 1] == b[..i][i - 1];
      SameFront(a, b, i - 1);
    }
  }

  /** Where a request is served: at the lowest free block that fits, in the first pool of the list
      with room, in an overflow pool only when the caller may expand; and in a new pool, which
      stands behind the main pool, only when no pool has room. */
  lemma MallocPlace(h: HeapState, n: nat, xhint: bool, grant: Option<Region>)
    requires HeapInv(h) && GrantOk(h, grant) && 0 < n <= SIZE_MAX - 31
    requires Malloc(h, n, xhint, grant).1 != 0
    ensures var (h', a) := Malloc(h, n, xhint, grant); var s := Rounded(n); var k := PoolOf(h'.pools, a);
            && k < |h'.pools| && (k > 0 ==> MayExpand(h, xhint))
            && (if |h'.pools| == |h.pools| then
                  && (forall j :: 0 <= j < k ==> !HasRoom(h.pools[j], s))
                  && HasRoom(h.pools[k], s) && a == TakenAt(h.pools[k], s)
                else
                  && (forall j :: 0 <= j < |h.pools| ==> !HasRoom(h.pools[j], s))
                  && k == 1 && grant.Some? && a == grant.value.base + HEAD)
  {
    hide HeapInv, PoolInv, HeapLive, LiveAt, SizeAt, HasRoom, GrantOk, TakeAt, WithPool, TakenAt;
    var s := Rounded(n);
    var k := RoomyPool(h.pools, s);
    NonEmpty(h);
    RoundedExact(n);
    if k < |h.pools| {
      ServedInPool(h, k, s);
    } else {
      NewPoolServes(h, grant.value, s);
    }
  }
}
