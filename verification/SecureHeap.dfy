/** The list of pools behind malloc, realloc and free. */
module SecureHeapClass {
  import opened Bytes
  import opened BlockList
  import opened PoolMemory
  import opened HeapModel
  import opened HeapOps
  import opened HeapTheorems
  import opened SecMem

  ghost function Mems(ps: seq<Pool>): set<array<byte>> {
    set p | p in ps :: p.mem
  }

  /** No two pools share a descriptor or a buffer. */
  ghost predicate Separate(ps: seq<Pool>) {
    forall i, j :: 0 <= i < j < |ps| ==> ps[i] != ps[j] && ps[i].mem != ps[j].mem
  }

  lemma SeparateInsert(ps: seq<Pool>, p: Pool)
    requires 0 < |ps| && Separate(ps) && p !in ps && p.mem !in Mems(ps)
    ensures Separate([ps[0], p] + ps[1..])
  {
    var r := [ps[0], p] + ps[1..];
    forall i, j | 0 <= i < j < |r|
      ensures r[i] != r[j] && r[i].mem != r[j].mem
    {
      assert j > 1 ==> r[j] == ps[j - 1];
      assert i > 1 ==> r[i] == ps[i - 1];
    }
  }

  lemma InsertedMembers(ps: seq<Pool>, q: Pool)
    requires 0 < |ps|
    ensures forall p :: p in [ps[0], q] + ps[1..] ==> p == q || p in ps
  {}

  lemma SeparateFrom(ps: seq<Pool>, k: nat)
    requires Separate(ps) && k < |ps|
    ensures forall i :: 0 <= i < |ps| && i != k ==> ps[i] != ps[k] && ps[i].mem != ps[k].mem
  {}

  ghost function PoolStates(ps: seq<Pool>): (r: seq<PoolState>)
    reads ps, Mems(ps)
    ensures |r| == |ps| && forall i :: 0 <= i < |ps| ==> r[i] == ps[i].State()
  {
    seq(|ps|, i requires 0 <= i < |ps| reads ps, Mems(ps) => ps[i].State())
  }

  lemma StatesOfInsert(ps: seq<Pool>, p: Pool)
    requires 0 < |ps|
    ensures PoolStates([ps[0], p] + ps[1..]) == [PoolStates(ps)[0], p.State()] + PoolStates(ps)[1..]
  {}

  lemma OnePoolChanged(before: seq<PoolState>, ps: seq<Pool>, k: nat, after: PoolState)
    requires |before| == |ps| && k < |ps| && ps[k].State() == after
    requires forall i :: 0 <= i < |ps| && i != k ==> ps[i].State() == before[i]
    ensures PoolStates(ps) == before[k := after]
  {}

  class SecureHeap {
    /** The main pool first, then the overflow pools, the newest in front. */
    var pools: seq<Pool>
    const autoExpand: nat
    const fips: bool
    const notLocked: bool

    ghost function State(): HeapState
      reads this, pools, Mems(pools)
    {
      HeapState(PoolStates(pools), autoExpand, fips, notLocked)
    }

    ghost predicate Valid()
      reads this, pools, Mems(pools)
    {
      Separate(pools) && HeapInv(State())
    }

    constructor (main: Pool, autoExpand: nat, fips: bool, notLocked: bool)
      requires PoolInv(main.State()) && (autoExpand == 0 || HEAD < autoExpand < POOL_LIMIT)
      ensures Valid() && pools == [main]
      ensures State() == HeapState([main.State()], autoExpand, fips, notLocked)
    {
      pools := [main];
      this.autoExpand := autoExpand;
      this.fips := fips;
      this.notLocked := notLocked;
    }

    method FindPool(a: nat) returns (k: nat)
      ensures k == PoolOf(State().pools, a)
    {
      k := 0;
      while k < |pools|
        invariant k <= |pools|
        invariant forall j :: 0 <= j < k ==> !InPool(State().pools[j], a)
      {
        if pools[k].base <= a < pools[k].base + pools[k].mem.Length {
          assert InPool(State().pools[k], a);
          return;
        }
        k := k + 1;
      }
    }

    /** Whether `a` points into secure memory. */
    method IsSecure(a: nat) returns (r: bool)
      ensures r <==> exists k :: 0 <= k < |pools| && InPool(State().pools[k], a)
    {
      var k := FindPool(a);
      r := k < |pools|;
      assert r ==> InPool(State().pools[k], a);
    }

    method TakeFromPool(k: nat, size: nat) returns (a: nat)
      requires Valid() && k < |pools| && size > 0
      modifies pools[k], pools[k].mem
      ensures Valid()
      ensures (State(), a) == TakeAt(old(State()), k, size)
      ensures a != 0 <==> HasRoom(old(State()).pools[k], size)
    {
      hide HeapInv, PoolInv, TakeFrom, TakenAt, HasRoom, TakeAt, Separate, Pool.State;
      hide HeapLive, LiveAt, SizeAt, KeepsAll;
      ghost var h := State();
      PoolIsInOrder(h, k);
      SeparateFrom(pools, k);
      TakeAtIs(h, k, size);
      a := pools[k].Take(size);
      if HasRoom(h.pools[k], size) {
        ghost var grown := TakeAtEffect(h, k, size);
        OnePoolChanged(h.pools, pools, k, TakeFrom(h.pools[k], size));
      } else {
        OnePoolChanged(h.pools, pools, k, h.pools[k]);
      }
    }

    /** Try the overflow pools in list order. */
    method TakeOverflow(size: nat) returns (a: nat)
      requires Valid() && size > 0 && !HasRoom(State().pools[0], size)
      modifies pools, Mems(pools)
      ensures Valid()
      ensures (State(), a) == TakeAt(old(State()), RoomyPool(old(State()).pools, size), size)
      ensures a != 0 <==> RoomyPool(old(State()).pools, size) < |pools|
    {
      hide HeapInv, TakeAt, HasRoom, Separate;
      ghost var h := State();
      a := 0;
      var k := 1;
      NonEmpty(h);
      while k < |pools|
        invariant 1 <= k <= |pools|
        invariant Valid() && State() == h && a == 0
        invariant forall j :: 0 <= j < k ==> !HasRoom(h.pools[j], size)
      {
        a := TakeFromPool(k, size);
        if a != 0 {
          FirstRoomy(h, k, size);
          return;
        }
        TakeWithoutRoom(h, k, size);
        k := k + 1;
      }
      TakeFromNoPool(h, size);
    }

    /** Where the system may put a new pool. */
    ghost predicate MapOk(mapped: nat)
      reads this, pools, Mems(pools)
    {
      mapped == 0 || forall k :: 0 <= k < |State().pools| ==>
        || mapped + OverflowSize(State()) <= State().pools[k].base
        || State().pools[k].base + |State().pools[k].mem| <= mapped
    }

    /** A new pool at address `base`, right behind the main pool; `r` is the memory as the system
        handed it out. */
    method AddPool(base: nat) returns (ghost r: Region)
      requires Valid() && 0 < base && MapOk(base)
      modifies this`pools
      ensures r.base == base && GrantOk(old(State()), Some(r))
      ensures Valid() && State() == WithPool(old(State()), r)
      ensures |pools| > 1 && fresh(pools[1]) && fresh(pools[1].mem)
      ensures pools[1].base == base && pools[1].mem.Length == if autoExpand != 0 then autoExpand else 32768
      ensures pools == [old(pools)[0], pools[1]] + old(pools)[1..]
    {
      hide HeapInv, PutWord, PoolInv, NewPool, Separate, Pool.State, PoolStates, WithPool, GrantOk;
      ghost var h := State();
      OverflowFits(h);
      var raw := new byte[if autoExpand != 0 then autoExpand else STANDARD_POOL_SIZE];
      r := Region(base, raw[..]);
      assert State() == h;
      MapGrant(this, r);
      NonEmpty(h);
      WithPoolInv(h, r);
      WithPoolIs(h, r);
      var pool := new Pool(base, raw);
      StateOfPool(pool);
      NewPoolBounds(r);
      InsertPool(pool);
    }

    method InsertPool(pool: Pool)
      requires Separate(pools) && 0 < |pools| && pool !in pools && pool.mem !in Mems(pools)
      modifies this`pools
      ensures pools == [old(pools)[0], pool] + old(pools)[1..] && Separate(pools)
      ensures PoolStates(pools) == [old(PoolStates(pools))[0], pool.State()] + old(PoolStates(pools))[1..]
    {
      hide Separate, Pool.State, PoolStates;
      SeparateInsert(pools, pool);
      StatesOfInsert(pools, pool);
      pools := [pools[0], pool] + pools[1..];
    }

    /** The main pool has no room: the overflow pools, then a new one at `mapped`. */
    method TakeExpanding(size: nat, mapped: nat) returns (a: nat, ghost grant: Option<Region>)
      requires Valid() && size > 0 && !HasRoom(State().pools[0], size) && MapOk(mapped)
      modifies this, pools, Mems(pools)
      ensures Valid() && GrantOk(old(State()), grant)
      ensures grant == None || grant.value.base == mapped
      ensures var h, k := old(State()), RoomyPool(old(State()).pools, size);
              (State(), a) == if k < |h.pools| then TakeAt(h, k, size)
                              else if grant.None? then (h, 0)
                              else TakeAt(WithPool(h, grant.value), 1, size)
      ensures grant.Some? ==> mapped != 0
      ensures grant.None? && mapped != 0 ==> RoomyPool(old(State()).pools, size) < |old(State()).pools|
      ensures forall p :: p in pools ==> p in old(pools) || (fresh(p) && fresh(p.mem))
    {
      hide HeapInv, TakeAt, WithPool, HasRoom, RoomyPool, GrantOk, State, Valid;
      ghost var h := State();
      StateFields(this);
      grant := None;
      NoGrant(h);
      a := TakeOverflow(size);
      if a != 0 {
        return;
      }
      TakeFromNoPool(h, size);
      if mapped == 0 {
        return;
      }
      ghost var r := AddPool(mapped);
      InsertedMembers(old(pools), pools[1]);
      grant := Some(r);
      a := TakeFromPool(1, size);
    }

    /** Serve a request of `n` bytes; `mapped` is the address at which the system would put a new
        pool, 0 if it would not. The region it hands out is the witness `grant`. */
    method Malloc(n: nat, xhint: bool, mapped: nat) returns (a: nat, ghost grant: Option<Region>)
      requires Valid() && 0 < n <= SIZE_MAX - 31 && MapOk(mapped)
      modifies this, pools, Mems(pools)
      ensures Valid() && GrantOk(old(State()), grant)
      ensures grant == None || grant.value.base == mapped
      ensures (State(), a) == HeapOps.Malloc(old(State()), n, xhint, grant)
      ensures 0 < |old(State()).pools| && (a != 0 <==> Serves(old(State()), n, xhint, mapped != 0))
      ensures forall p :: p in pools ==> p in old(pools) || (fresh(p) && fresh(p.mem))
    {
      hide HeapInv, TakeAt, WithPool, HasRoom, RoomyPool, Rounded, GrantOk, State, Valid, Serves;
      ghost var h := State();
      StateFields(this);
      grant := None;
      NoGrant(h);
      if notLocked && fips {
        ServesGiven(h, n, xhint, grant, mapped != 0);
        return 0, grant;
      }
      RoundedExact(n);
      RoundedIs(n);
      var size := (n + 31) % (SIZE_MAX + 1) / 32 * 32;
      a := TakeFromPool(0, size);
      if a != 0 {
        FirstRoomy(h, 0, size);
        ServesGiven(h, n, xhint, grant, mapped != 0);
        return;
      }
      TakeWithoutRoom(h, 0, size);
      if (xhint || autoExpand != 0) && !fips {
        a, grant := TakeExpanding(size, mapped);
      }
      ServesGiven(h, n, xhint, grant, mapped != 0);
    }

    /** Free the payload at `a`; true unless `a` is an address of no pool. */
    method Free(a: nat) returns (mine: bool)
      requires Valid() && FreeOk(State(), a)
      modifies pools, Mems(pools)
      ensures Valid()
      ensures (State(), mine) == HeapOps.Free(old(State()), a)
    {
      hide HeapInv, PoolInv, ReleaseFrom, LiveIn, LiveAt, Separate, HeapOps.Free, Pool.State;
      hide HeapLive, KeepsAll, SizeAt, Load;
      ghost var h := State();
      var k := FindPool(a);
      FreeIs(h, a, k);
      if a == 0 {
        return true;
      }
      if k == |pools| {
        return false;
      }
      PoolIsInOrder(h, k);
      SeparateFrom(pools, k);
      FreeEffect(h, a);
      pools[k].Release(a);
      OnePoolChanged(h.pools, pools, k, ReleaseFrom(h.pools[k], a));
      mine := true;
    }

    /** Read `n` bytes at the live payload `a`. */
    method Peek(a: nat, n: nat) returns (d: seq<byte>)
      requires Valid() && LiveAt(State(), a) && n <= SizeAt(State(), a)
      ensures d == Load(State(), a, n) && |d| == n
    {
      hide HeapInv, PoolInv, LiveAt, SizeAt, HeapLive, PoolLive, Load;
      ghost var h := State();
      var k := FindPool(a);
      LiveAtIsLive(h, a);
      LivePlaces(h, k, (a, SizeAt(h, a)));
      LoadIs(h, k, a, n);
      assert State() == h;
      var at := a - pools[k].base;
      d := pools[k].mem[at..at + n];
      assert d == pools[k].mem[..][at..at + n];
    }

    /** Write `d` into the live payload `a`, from its byte `off` on. */
    method Poke(a: nat, off: nat, d: seq<byte>)
      requires Valid() && LiveAt(State(), a) && off + |d| <= SizeAt(State(), a)
      modifies pools, Mems(pools)
      ensures Valid()
      ensures State() == Store(old(State()), a + off, d)
    {
      hide HeapInv, LiveAt, SizeAt, HeapLive, Load, Store, Separate, KeepsAll, PoolStates, Put;
      ghost var h := State();
      LiveAtIsLive(h, a);
      StoreEffect(h, (a, SizeAt(h, a)), off, d);
      if d == [] {
        StoreNothing(h, a + off);
      } else {
        PokeInPool(a, off, d);
      }
    }

    method PokeInPool(a: nat, off: nat, d: seq<byte>)
      requires Valid() && LiveAt(State(), a) && off + |d| <= SizeAt(State(), a) && d != []
      modifies pools, Mems(pools)
      ensures Separate(pools) && State() == Store(old(State()), a + off, d)
    {
      hide HeapInv, PoolInv, LiveAt, SizeAt, Store, StoreIn, Separate, Put, Pool.State;
      ghost var h := State();
      var k := FindPool(a);
      PokePlace(h, k, a, off, d);
      SeparateFrom(pools, k);
      StateOfPool(pools[k]);
      var at := a + off - pools[k].base;
      pools[k].Poke(at, d);
      StateOfPool(pools[k]);
      OnePoolChanged(h.pools, pools, k, StoreIn(h.pools[k], a + off, d));
    }

    /** Resize the live payload `a`. A payload is never shrunk in place; growing moves it. */
    method Realloc(a: nat, n: nat, xhint: bool, mapped: nat) returns (b: nat, ghost grant: Option<Region>)
      requires Valid() && LiveAt(State(), a) && n <= SIZE_MAX - 31 && MapOk(mapped)
      modifies this, pools, Mems(pools)
      ensures Valid() && GrantOk(old(State()), grant)
      ensures grant == None || grant.value.base == mapped
      ensures (State(), b) == HeapOps.Realloc(old(State()), a, n, xhint, grant)
    {
      hide HeapInv, LiveAt, SizeAt, HeapLive, GrantOk, State, Valid;
      hide HeapOps.Malloc, HeapOps.Free, HeapOps.Realloc, Store, Load;
      ghost var h := State();
      StateFields(this);
      LiveAtIsLive(h, a);
      NoGrant(h);
      grant := None;
      var size := BlockSize(a);
      ReallocIs(h, a, n, xhint, grant);
      if n < size {
        return a, grant;
      }
      b, grant := Malloc(n, xhint, mapped);
      ReallocIs(h, a, n, xhint, grant);
      if b != 0 {
        MoveReady(h, a, n, xhint, grant);
        assert forall i :: 0 <= i < |pools| ==> pools[i] in pools && (pools[i] in old(pools) || fresh(pools[i]));
        Move(a, b, size, n);
      }
    }

    /** Copy the payload `a` to the front of the payload `b`, clear up to `n` bytes, free `a`. */
    method Move(a: nat, b: nat, size: nat, n: nat)
      requires Valid() && (a, size) in HeapLive(State()) && LiveAt(State(), b) && a != b
      requires size <= n <= SizeAt(State(), b)
      modifies pools, Mems(pools)
      ensures Valid()
      ensures State() == HeapOps.Free(Store(old(State()), b, Load(old(State()), a, size) + Fill(0, n - size)), a).0
    {
      hide HeapInv, LiveAt, SizeAt, HeapLive, KeepsAll, HeapOps.Free, Store, Load, Put, State, Valid;
      ghost var h := State();
      StateFields(this);
      LiveLoad(h, (a, size));
      LiveAtIsLive(h, b);
      var d := Peek(a, size);
      var moved := d + Fill(0, n - size);
      assert State() == h;
      Poke(b, 0, moved);
      StoreEffect(h, (b, SizeAt(h, b)), 0, moved);
      assert b + 0 == b;
      LiveLoad(State(), (a, size));
      FreeOfLive(State(), a);
      var mine := Free(a);
    }

    /** Size word of the block behind the live payload `a`. */
    method BlockSize(a: nat) returns (size: nat)
      requires Valid() && LiveAt(State(), a)
      ensures size == SizeAt(State(), a)
    {
      hide HeapInv, LiveAt, SizeAt, Word;
      ghost var h := State();
      var k := FindPool(a);
      SizeWordAt(h, a);
      assert pools[k].State() == h.pools[k];
      size := pools[k].ReadWord(a - HEAD - pools[k].base);
      assert State() == h;
    }
  }

  /** What the state says about the fields, for proofs that need no more of it. */
  lemma StateFields(s: SecureHeap)
    requires s.Valid()
    ensures HeapInv(s.State()) && 0 < |s.pools| == |s.State().pools|
    ensures s.State().autoExpand == s.autoExpand && s.State().fips == s.fips && s.State().notLocked == s.notLocked
  {
    NonEmpty(s.State());
  }

  lemma MapGrant(s: SecureHeap, r: Region)
    requires s.MapOk(r.base) && 0 < r.base && |r.bytes| == OverflowSize(s.State())
    ensures GrantOk(s.State(), Some(r))
  {}

  lemma WithPoolIs(h: HeapState, r: Region)
    requires 0 < |h.pools| && HEAD < |r.bytes| < POOL_LIMIT
    ensures WithPool(h, r) == h.(pools := [h.pools[0], NewPool(r)] + h.pools[1..])
  {}

  lemma FreeOfLive(h: HeapState, a: nat)
    requires LiveAt(h, a)
    ensures FreeOk(h, a)
  {}

  lemma TakeAtIs(h: HeapState, k: nat, s: nat)
    requires k < |h.pools| && PoolInv(h.pools[k])
    ensures TakeAt(h, k, s)
         == if HasRoom(h.pools[k], s) then (h.(pools := h.pools[k := TakeFrom(h.pools[k], s)]), TakenAt(h.pools[k], s))
            else (h, 0)
    ensures HasRoom(h.pools[k], s) ==> TakenAt(h.pools[k], s) > 0
    ensures h.pools[k := h.pools[k]] == h.pools
  {}

  lemma FreeIs(h: HeapState, a: nat, k: nat)
    requires HeapInv(h) && FreeOk(h, a) && k == PoolOf(h.pools, a)
    ensures HeapOps.Free(h, a)
         == if a == 0 then (h, true) else if k == |h.pools| then (h, false)
            else (h.(pools := h.pools[k := ReleaseFrom(h.pools[k], a)]), true)
    ensures a != 0 && k < |h.pools| ==> LiveAt(h, a) && LiveIn(h.pools[k], a)
  {
    hide ReleaseFrom, PoolInv, LiveIn;
  }

  lemma RoundedIs(n: nat)
    ensures Rounded(n) == (n + 31) % (SIZE_MAX + 1) / 32 * 32
  {}

  lemma NoGrant(h: HeapState)
    ensures GrantOk(h, None)
  {}

  lemma ReallocIs(h: HeapState, a: nat, n: nat, xhint: bool, grant: Option<Region>)
    requires LiveAt(h, a)
    ensures var size := SizeAt(h, a);
            var (h1, b) := HeapOps.Malloc(h, n, xhint, grant);
            HeapOps.Realloc(h, a, n, xhint, grant)
            == if n < size then (h, a)
               else if b == 0 then (h1, 0)
               else (HeapOps.Free(Store(h1, b, Load(h1, a, size) + Fill(0, n - size)), a).0, b)
  {
    hide LiveAt, SizeAt, HeapOps.Malloc, HeapOps.Free, Store, Load;
  }

  /** Once there is a new block, the old payload is still live, elsewhere, and fits. */
  lemma MoveReady(h: HeapState, a: nat, n: nat, xhint: bool, grant: Option<Region>)
    requires HeapInv(h) && LiveAt(h, a) && SizeAt(h, a) <= n <= SIZE_MAX - 31 && GrantOk(h, grant)
    requires HeapOps.Malloc(h, n, xhint, grant).1 != 0
    ensures var (h1, b) := HeapOps.Malloc(h, n, xhint, grant);
            && (a, SizeAt(h, a)) in HeapLive(h1) && a != b
            && LiveAt(h1, b) && n <= SizeAt(h1, b)
  {
    hide HeapInv, LiveAt, SizeAt, HeapLive, HeapOps.Malloc, Load, GrantOk;
    LiveAtIsLive(h, a);
    MallocEffect(h, n, xhint, grant);
    var x := (a, SizeAt(h, a));
    assert x in HeapLive(h);
  }

  /** A write inside a live payload stays in its pool, and is the store there. */
  lemma PokePlace(h: HeapState, k: nat, a: nat, off: nat, d: seq<byte>)
    requires HeapInv(h) && LiveAt(h, a) && off + |d| <= SizeAt(h, a) && d != [] && k == PoolOf(h.pools, a)
    ensures k < |h.pools| && h.pools[k].base <= a + off && a + off + |d| <= h.pools[k].base + |h.pools[k].mem|
    ensures Store(h, a + off, d) == h.(pools := h.pools[k := StoreIn(h.pools[k], a + off, d)])
    ensures StoreIn(h.pools[k], a + off, d)
         == h.pools[k].(mem := Put(h.pools[k].mem, a + off - h.pools[k].base, d))
  {
    hide HeapInv, PoolInv, LiveAt, SizeAt, HeapLive, PoolLive, Load, Store, StoreIn, Put;
    LiveAtIsLive(h, a);
    LivePlaces(h, k, (a, SizeAt(h, a)));
    PoolOfIs(h, k, a + off);
    StoreIs(h, k, a + off, d);
    PokeIsStore(h.pools[k], a + off, d);
  }

  /** The size of a live block stands in the word 8 bytes in front of its payload. */
  lemma SizeWordAt(h: HeapState, a: nat)
    requires HeapInv(h) && LiveAt(h, a)
    ensures var k := PoolOf(h.pools, a);
            && k < |h.pools| && h.pools[k].base + HEAD <= a <= h.pools[k].base + |h.pools[k].mem|
            && Word(h.pools[k].mem, a - HEAD - h.pools[k].base) == SizeAt(h, a)
  {
    hide Headers, LiveSet, Canonical, Word;
    var p := h.pools[PoolOf(h.pools, a)];
    HeaderOf(p.mem, p.blocks, BlockAt(p, a));
  }

  lemma StateOfPool(p: Pool)
    ensures p.State() == PoolState(p.base, p.mem[..], p.blocks, p.curAlloced, p.curBlocks)
  {}

  lemma PokeIsStore(p: PoolState, a: nat, d: seq<byte>)
    requires p.base <= a && a + |d| <= p.base + |p.mem|
    ensures StoreIn(p, a, d) == p.(mem := Put(p.mem, a - p.base, d))
  {}

  lemma PoolIsInOrder(h: HeapState, k: nat)
    requires HeapInv(h) && k < |h.pools|
    ensures PoolInv(h.pools[k])
  {}

  lemma OverflowFits(h: HeapState)
    requires HeapInv(h)
    ensures HEAD < OverflowSize(h) < POOL_LIMIT
  {}

  lemma FirstRoomy(h: HeapState, k: nat, s: nat)
    requires k < |h.pools| && HasRoom(h.pools[k], s)
    requires forall j :: 0 <= j < k ==> !HasRoom(h.pools[j], s)
    ensures RoomyPool(h.pools, s) == k
  {}

  lemma TakeWithoutRoom(h: HeapState, k: nat, s: nat)
    requires k < |h.pools| && !HasRoom(h.pools[k], s)
    ensures TakeAt(h, k, s) == (h, 0) && RoomyPool(h.pools, s) != k
  {}

  lemma TakeFromNoPool(h: HeapState, s: nat)
    ensures TakeAt(h, |h.pools|, s) == (h, 0)
    ensures (forall j :: 0 <= j < |h.pools| ==> !HasRoom(h.pools[j], s)) ==> RoomyPool(h.pools, s) == |h.pools|
  {}
}
