/** Whole runs of the heap: any sequence of malloc, realloc, free and writes by the callers. */
module HeapRuns {
  import opened Bytes
  import opened BlockList
  import opened PoolMemory
  import opened HeapModel
  import opened HeapOps
  import opened HeapTheorems

  datatype Op =
    | MallocOp(n: nat, xhint: bool, grant: Option<Region>)
    | FreeOp(a: nat)
    | ReallocOp(a: nat, n: nat, xhint: bool, grant: Option<Region>)
    | WriteOp(a: nat, off: nat, data: seq<byte>)

  /** What callers owe the heap: they free and resize live payloads only, and write inside them. */
  ghost predicate Enabled(h: HeapState, op: Op) {
    match op
    case MallocOp(n, _, grant) => n <= SIZE_MAX - 31 && GrantOk(h, grant)
    case FreeOp(a) => FreeOk(h, a)
    case ReallocOp(a, n, _, grant) => LiveAt(h, a) && n <= SIZE_MAX - 31 && GrantOk(h, grant)
    case WriteOp(a, off, data) => LiveAt(h, a) && off + |data| <= SizeAt(h, a)
  }

  /** The state after a call, and the address it returns (0 for calls that return none). A request
      for no bytes is turned away before it reaches the pools. */
  ghost function Step(h: HeapState, op: Op): (HeapState, nat)
    requires Enabled(h, op)
  {
    match op
    case MallocOp(n, xhint, grant) => if n == 0 then (h, 0) else Malloc(h, n, xhint, grant)
    case FreeOp(a) => (Free(h, a).0, 0)
    case ReallocOp(a, n, xhint, grant) => Realloc(h, a, n, xhint, grant)
    case WriteOp(a, off, data) => (Store(h, a + off, data), 0)
  }

  ghost predicate AllEnabled(h: HeapState, ops: seq<Op>)
    decreases |ops|
  {
    ops == [] || (Enabled(h, ops[0]) && AllEnabled(Step(h, ops[0]).0, ops[1..]))
  }

  ghost function Run(h: HeapState, ops: seq<Op>): HeapState
    requires AllEnabled(h, ops)
    decreases |ops|
  {
    if ops == [] then h else Run(Step(h, ops[0]).0, ops[1..])
  }

  /** The heap right after initialisation: the main pool alone. */
  ghost function Start(r: Region, autoExpand: nat, fips: bool, notLocked: bool): HeapState
    requires HEAD < |r.bytes| < POOL_LIMIT
  {
    HeapState([NewPool(r)], autoExpand, fips, notLocked)
  }

  lemma StepKeepsInv(h: HeapState, op: Op)
    requires HeapInv(h) && Enabled(h, op)
    ensures HeapInv(Step(h, op).0)
  {
    hide HeapInv, HeapLive, Load, Malloc, Free, Realloc, Store;
    match op {
      case MallocOp(n, xhint, grant) =>
        if n > 0 {
          MallocEffect(h, n, xhint, grant);
        }
      case FreeOp(a) =>
        if LiveAt(h, a) {
          FreeEffect(h, a);
        } else {
          FreeOfNothing(h, a);
        }
      case ReallocOp(a, n, xhint, grant) =>
        ReallocEffect(h, a, n, xhint, grant);
      case WriteOp(a, off, data) =>
        LiveAtIsLive(h, a);
        StoreEffect(h, (a, SizeAt(h, a)), off, data);
    }
  }

  /** The null pointer and addresses of no pool leave the heap alone; only the latter are reported
      as not ours. */
  lemma FreeOfNothing(h: HeapState, a: nat)
    requires FreeOk(h, a) && !LiveAt(h, a)
    ensures Free(h, a) == (h, a == 0)
  {}

  /** After every run: the headers of each pool tile it exactly, no two neighbouring blocks are
      free, live payloads lie in disjoint pools, and the counters are the sum and the number of the
      live blocks. */
  lemma {:induction false} RunKeepsInv(h: HeapState, ops: seq<Op>)
    requires HeapInv(h) && AllEnabled(h, ops)
    ensures HeapInv(Run(h, ops))
    decreases |ops|
  {
    if ops != [] {
      StepKeepsInv(h, ops[0]);
      RunKeepsInv(Step(h, ops[0]).0, ops[1..]);
    }
  }

  lemma RunFromStart(r: Region, autoExpand: nat, fips: bool, notLocked: bool, ops: seq<Op>)
    requires HEAD < |r.bytes| < POOL_LIMIT && 0 < r.base
    requires autoExpand == 0 || HEAD < autoExpand < POOL_LIMIT
    requires AllEnabled(Start(r, autoExpand, fips, notLocked), ops)
    ensures var h := Run(Start(r, autoExpand, fips, notLocked), ops);
            && HeapInv(h)
            && (forall k :: 0 <= k < |h.pools| ==>
                  && Tiled(h.pools[k].mem, h.pools[k].blocks) && Canonical(h.pools[k].blocks)
                  && h.pools[k].alloced == LiveBytes(h.pools[k].blocks)
                  && h.pools[k].used == LiveCount(h.pools[k].blocks))
            && (forall x, y :: x in HeapLive(h) && y in HeapLive(h) && x != y ==>
                  x.0 + x.1 <= y.0 || y.0 + y.1 <= x.0)
  {
    var h0 := Start(r, autoExpand, fips, notLocked);
    NewPoolInv(r);
    assert HeapInv(h0);
    RunKeepsInv(h0, ops);
    var h := Run(h0, ops);
    forall x, y | x in HeapLive(h) && y in HeapLive(h) && x != y
      ensures x.0 + x.1 <= y.0 || y.0 + y.1 <= x.0
    {
      LivePayloadsApart(h, x, y);
    }
  }

  // ---- no byte a caller wrote survives outside a live payload ----

  ghost predicate InPayload(p: PoolState, k: nat) {
    exists x :: x in PoolLive(p) && x.0 <= p.base + k < x.0 + x.1
  }

  /** The two pools agree in everything but the bytes inside live payloads. */
  ghost predicate PoolsAgree(p: PoolState, q: PoolState) {
    && q == p.(mem := q.mem) && |p.mem| == |q.mem|
    && forall k :: 0 <= k < |p.mem| && !InPayload(p, k) ==> p.mem[k] == q.mem[k]
  }

  ghost predicate HeapsAgree(h: HeapState, g: HeapState) {
    && g == h.(pools := g.pools) && |h.pools| == |g.pools|
    && forall k :: 0 <= k < |h.pools| ==> PoolsAgree(h.pools[k], g.pools[k])
  }

  /** The same call, except that the callers may write other data. */
  ghost predicate SameButData(op: Op, op': Op) {
    || op == op'
    || (op.WriteOp? && op'.WriteOp? && op' == op.(data := op'.data) && |op.data| == |op'.data|)
  }

  lemma TakenMemPointwise(m: seq<byte>, m': seq<byte>, o: nat, b: Block, s: nat, k: nat)
    requires o + HEAD + b.size <= |m| < POOL_LIMIT && b.size >= s && |m| == |m'| && k < |m|
    requires m[k] == m'[k]
    ensures TakenMem(m, o, b, s)[k] == TakenMem(m', o, b, s)[k]
  {
    hide Octets;
  }

  lemma MergedMemPointwise(m: seq<byte>, m': seq<byte>, bs: seq<Block>, i: nat, k: nat)
    requires i < |bs| && Extent(bs) == |m| == |m'| < POOL_LIMIT && k < |m|
    requires m[k] == m'[k]
    ensures MergedMem(m, bs, i)[k] == MergedMem(m', bs, i)[k]
  {
    hide Octets, Extent, Offset, MergeLo, MergeHi;
    RunFits(bs, MergeLo(bs, i), MergeHi(bs, i));
  }

  lemma ReleasedMemPointwise(m: seq<byte>, m': seq<byte>, bs: seq<Block>, i: nat, k: nat)
    requires i < |bs| && Extent(bs) == |m| == |m'| < POOL_LIMIT && k < |m|
    requires m[k] == m'[k]
    ensures ReleasedMem(m, bs, i)[k] == ReleasedMem(m', bs, i)[k]
  {
    hide Octets, MergedMem;
    var o := Offset(bs, i);
    OffsetsIncrease(bs, i, |bs|);
    var n, n' := Wiped(m, o, bs[i].size), Wiped(m', o, bs[i].size);
    assert n[k] == n'[k];
    var freed := bs[i := Block(bs[i].size, false)];
    SameSizesSameExtent(freed, bs);
    MergedMemPointwise(n, n', freed, i, k);
  }

  lemma TakeAgrees(p: PoolState, q: PoolState, s: nat)
    requires PoolInv(p) && PoolInv(q) && PoolsAgree(p, q) && HasRoom(p, s) && s > 0
    ensures HasRoom(q, s) && TakenAt(p, s) == TakenAt(q, s)
    ensures PoolsAgree(TakeFrom(p, s), TakeFrom(q, s))
  {
    hide Canonical, LiveSet, Taken, TakenMem, Offset, HeaderAt;
    var i := FirstFit(p.blocks, s);
    HeaderOf(p.mem, p.blocks, i);
    var size := TakeFromEffect(p, s);
    var p' := TakeFrom(p, s);
    forall k | 0 <= k < |p.mem| && !InPayload(p', k)
      ensures p'.mem[k] == TakeFrom(q, s).mem[k]
    {
      forall x | x in PoolLive(p)
        ensures !(x.0 <= p.base + k < x.0 + x.1)
      {
        assert x in PoolLive(p');
      }
      assert !InPayload(p, k);
      TakenMemPointwise(p.mem, q.mem, Offset(p.blocks, i), p.blocks[i], s, k);
    }
  }

  lemma ReleaseAgrees(p: PoolState, q: PoolState, a: nat)
    requires PoolInv(p) && PoolInv(q) && PoolsAgree(p, q) && LiveIn(p, a)
    ensures LiveIn(q, a) && PoolsAgree(ReleaseFrom(p, a), ReleaseFrom(q, a))
  {
    hide Headers, Canonical, LiveSet, Released, ReleasedMem;
    var i := BlockAt(p, a);
    assert LiveIn(q, a) && BlockAt(q, a) == i;
    ReleaseFromEffect(p, a);
    ReleasedWrites(p.mem, p.blocks, i);
    ReleasedWrites(q.mem, q.blocks, i);
    var p' := ReleaseFrom(p, a);
    var size := p.blocks[i].size;
    forall k | 0 <= k < |p.mem| && !InPayload(p', k)
      ensures p'.mem[k] == ReleaseFrom(q, a).mem[k]
    {
      if a <= p.base + k < a + size {
        var o := Offset(p.blocks, i);
        assert o + HEAD <= k < o + HEAD + size;
      } else {
        forall x | x in PoolLive(p)
          ensures !(x.0 <= p.base + k < x.0 + x.1)
        {
          if x != (a, size) {
            assert x in PoolLive(p');
          }
        }
        assert !InPayload(p, k);
        ReleasedMemPointwise(p.mem, q.mem, p.blocks, i, k);
      }
    }
  }

  lemma StoreAgrees(p: PoolState, q: PoolState, x: (nat, nat), a: nat, d: seq<byte>, e: seq<byte>)
    requires PoolInv(p) && PoolsAgree(p, q) && x in PoolLive(p) && |d| == |e|
    requires x.0 <= a && a + |d| <= x.0 + x.1
    requires p.base <= a && a + |d| <= p.base + |p.mem|
    ensures PoolsAgree(StoreIn(p, a, d), StoreIn(q, a, e))
  {
    hide Tiled, Canonical, LiveSet;
    var p' := StoreIn(p, a, d);
    assert PoolLive(p') == PoolLive(p);
    forall k | 0 <= k < |p.mem| && !InPayload(p', k)
      ensures p'.mem[k] == StoreIn(q, a, e).mem[k]
    {
      assert InPayload(p, k) == InPayload(p', k);
      assert !(x.0 <= p.base + k < x.0 + x.1);
    }
  }

  /** Heaps that agree are searched alike. */
  lemma AgreeingSearches(h: HeapState, g: HeapState, a: nat, s: nat)
    requires HeapsAgree(h, g)
    ensures PoolOf(h.pools, a) == PoolOf(g.pools, a)
    ensures RoomyPool(h.pools, s) == RoomyPool(g.pools, s)
  {
    SamePoolOf(h.pools, g.pools, a);
    SameRoomyPool(h.pools, g.pools, s);
  }

  lemma {:induction false} SameRoomyPool(ps: seq<PoolState>, qs: seq<PoolState>, s: nat)
    requires |ps| == |qs| && forall j :: 0 <= j < |ps| ==> ps[j].blocks == qs[j].blocks
    ensures RoomyPool(ps, s) == RoomyPool(qs, s)
  {
    if ps != [] {
      SameRoomyPool(ps[1..], qs[1..], s);
    }
  }

  lemma TakeAtAgrees(h: HeapState, g: HeapState, k: nat, s: nat)
    requires HeapInv(h) && HeapInv(g) && HeapsAgree(h, g)
    requires k < |h.pools| && HasRoom(h.pools[k], s) && s > 0
    ensures TakeAt(h, k, s).1 == TakeAt(g, k, s).1
    ensures HeapsAgree(TakeAt(h, k, s).0, TakeAt(g, k, s).0)
  {
    hide PoolInv, TakeFrom, TakenAt, HasRoom;
    TakeAgrees(h.pools[k], g.pools[k], s);
  }

  lemma WithPoolAgrees(h: HeapState, g: HeapState, r: Region)
    requires HeapInv(h) && HeapInv(g) && HeapsAgree(h, g) && GrantOk(h, Some(r))
    ensures GrantOk(g, Some(r)) && HeapsAgree(WithPool(h, r), WithPool(g, r))
  {
    hide PoolInv, PutWord;
  }

  lemma MallocAgrees(h: HeapState, g: HeapState, n: nat, xhint: bool, grant: Option<Region>)
    requires HeapInv(h) && HeapInv(g) && HeapsAgree(h, g) && GrantOk(h, grant) && 0 < n <= SIZE_MAX - 31
    ensures Malloc(h, n, xhint, grant).1 == Malloc(g, n, xhint, grant).1
    ensures HeapsAgree(Malloc(h, n, xhint, grant).0, Malloc(g, n, xhint, grant).0)
  {
    hide HeapInv, PoolsAgree;
    var s := Rounded(n);
    RoundedExact(n);
    AgreeingSearches(h, g, 0, s);
    NonEmpty(h);
    var k := RoomyPool(h.pools, s);
    if h.notLocked && h.fips {
    } else if k == 0 {
      TakeAtAgrees(h, g, 0, s);
    } else if !(xhint || h.autoExpand != 0) || h.fips {
    } else if k < |h.pools| {
      TakeAtAgrees(h, g, k, s);
    } else if grant.Some? {
      WithPoolAgrees(h, g, grant.value);
      WithPoolInv(h, grant.value);
      WithPoolInv(g, grant.value);
      var h', g' := WithPool(h, grant.value), WithPool(g, grant.value);
      AgreeingRoom(h', g', 1, s);
      if HasRoom(h'.pools[1], s) {
        TakeAtAgrees(h', g', 1, s);
      }
    }
  }

  lemma AgreeingRoom(h: HeapState, g: HeapState, k: nat, s: nat)
    requires HeapsAgree(h, g) && k < |h.pools|
    ensures HasRoom(h.pools[k], s) == HasRoom(g.pools[k], s)
  {}

  lemma AgreeingLive(h: HeapState, g: HeapState, a: nat)
    requires HeapInv(h) && HeapInv(g) && HeapsAgree(h, g) && LiveAt(h, a)
    ensures LiveAt(g, a) && SizeAt(g, a) == SizeAt(h, a)
  {
    AgreeingSearches(h, g, a, 0);
    var k := PoolOf(h.pools, a);
    assert PoolsAgree(h.pools[k], g.pools[k]);
    assert LiveIn(g.pools[k], a);
  }

  lemma FreeAgrees(h: HeapState, g: HeapState, a: nat)
    requires HeapInv(h) && HeapInv(g) && HeapsAgree(h, g) && FreeOk(h, a)
    ensures HeapsAgree(Free(h, a).0, Free(g, a).0)
  {
    hide PoolInv, ReleaseFrom, LiveIn;
    AgreeingSearches(h, g, a, 0);
    var k := PoolOf(h.pools, a);
    if k < |h.pools| && LiveIn(h.pools[k], a) {
      ReleaseAgrees(h.pools[k], g.pools[k], a);
    } else if k < |h.pools| && LiveIn(g.pools[k], a) {
      SymmetricAgree(h.pools[k], g.pools[k]);
      ReleaseAgrees(g.pools[k], h.pools[k], a);
    }
  }

  lemma SymmetricAgree(p: PoolState, q: PoolState)
    requires PoolsAgree(p, q)
    ensures PoolsAgree(q, p)
  {
    assert PoolLive(p) == PoolLive(q);
    forall k | 0 <= k < |q.mem| && !InPayload(q, k)
      ensures q.mem[k] == p.mem[k]
    {
      assert InPayload(p, k) == InPayload(q, k);
    }
  }

  lemma WriteAgrees(h: HeapState, g: HeapState, x: (nat, nat), off: nat, d: seq<byte>, e: seq<byte>)
    requires HeapInv(h) && HeapInv(g) && HeapsAgree(h, g)
    requires x in HeapLive(h) && off + |d| <= x.1 && |d| == |e|
    ensures HeapsAgree(Store(h, x.0 + off, d), Store(g, x.0 + off, e))
  {
    hide HeapInv, HeapLive, PoolInv, PoolLive, StoreIn, SizeAt, LiveAt, Load, Store, PoolsAgree, HeapsAgree;
    var k := LiveHasPool(h, x);
    LivePlaces(h, k, x);
    if d == [] {
      StoreNothing(h, x.0 + off);
      StoreNothing(g, x.0 + off);
      assert e == [];
    } else {
      WriteInPoolAgrees(h, g, k, x, off, d, e);
    }
  }

  lemma WriteInPoolAgrees(h: HeapState, g: HeapState, k: nat, x: (nat, nat), off: nat, d: seq<byte>, e: seq<byte>)
    requires HeapInv(h) && HeapInv(g) && HeapsAgree(h, g) && k < |h.pools| && x in PoolLive(h.pools[k])
    requires off + |d| <= x.1 && |d| == |e| > 0
    ensures HeapsAgree(Store(h, x.0 + off, d), Store(g, x.0 + off, e))
  {
    hide HeapInv, HeapLive, PoolInv, PoolLive, StoreIn, SizeAt, LiveAt, Load, Store, PoolsAgree, HeapsAgree;
    LivePlaces(h, k, x);
    PoolOfIs(h, k, x.0 + off);
    AgreeingSearches(h, g, x.0 + off, 0);
    PoolAgrees(h, g, k);
    StoreIs(h, k, x.0 + off, d);
    StoreIs(g, k, x.0 + off, e);
    PoolIsFine(h, k);
    PoolIsFine(g, k);
    StoreAgrees(h.pools[k], g.pools[k], x, x.0 + off, d, e);
    OnePoolAgrees(h, g, k, StoreIn(h.pools[k], x.0 + off, d), StoreIn(g.pools[k], x.0 + off, e));
  }

  lemma PoolAgrees(h: HeapState, g: HeapState, k: nat)
    requires HeapsAgree(h, g) && k < |h.pools|
    ensures |h.pools| == |g.pools| && PoolsAgree(h.pools[k], g.pools[k])
    ensures h.pools[k].base == g.pools[k].base && |h.pools[k].mem| == |g.pools[k].mem|
  {}

  lemma OnePoolAgrees(h: HeapState, g: HeapState, k: nat, p: PoolState, q: PoolState)
    requires HeapsAgree(h, g) && k < |h.pools| == |g.pools| && PoolsAgree(p, q)
    ensures HeapsAgree(h.(pools := h.pools[k := p]), g.(pools := g.pools[k := q]))
  {
    hide PoolsAgree;
  }

  lemma PoolIsFine(h: HeapState, k: nat)
    requires HeapInv(h) && k < |h.pools|
    ensures PoolInv(h.pools[k])
  {}

  lemma ReallocAgrees(h: HeapState, g: HeapState, a: nat, n: nat, xhint: bool, grant: Option<Region>)
    requires HeapInv(h) && HeapInv(g) && HeapsAgree(h, g)
    requires Enabled(h, ReallocOp(a, n, xhint, grant)) && Enabled(g, ReallocOp(a, n, xhint, grant))
    ensures Realloc(h, a, n, xhint, grant).1 == Realloc(g, a, n, xhint, grant).1
    ensures HeapsAgree(Realloc(h, a, n, xhint, grant).0, Realloc(g, a, n, xhint, grant).0)
  {
    hide HeapInv, HeapsAgree, HeapLive, Load, LiveAt, SizeAt, Malloc, Free, Store;
    AgreeingLive(h, g, a);
    LiveAtIsLive(h, a);
    LiveAtIsLive(g, a);
    var size := SizeAt(h, a);
    if n >= size {
      MallocAgrees(h, g, n, xhint, grant);
      MallocEffect(h, n, xhint, grant);
      MallocEffect(g, n, xhint, grant);
      var (h1, b) := Malloc(h, n, xhint, grant);
      var g1 := Malloc(g, n, xhint, grant).0;
      if b != 0 {
        LiveLoad(h1, (a, size));
        LiveLoad(g1, (a, size));
        var d, e := Load(h1, a, size) + Fill(0, n - size), Load(g1, a, size) + Fill(0, n - size);
        var y := (b, SizeAt(h1, b));
        WriteAgrees(h1, g1, y, 0, d, e);
        StoreEffect(h1, y, 0, d);
        StoreEffect(g1, (b, SizeAt(g1, b)), 0, e);
        assert y.0 + 0 == b;
        LiveLoad(Store(h1, b, d), (a, size));
        FreeAgrees(Store(h1, b, d), Store(g1, b, e), a);
      }
    }
  }

  /** What one heap allows, the other does. */
  lemma EnabledAgrees(h: HeapState, g: HeapState, op: Op, op': Op)
    requires HeapInv(h) && HeapInv(g) && HeapsAgree(h, g) && Enabled(h, op) && SameButData(op, op')
    ensures Enabled(g, op')
  {
    hide HeapInv, LiveAt, SizeAt;
    match op {
      case MallocOp(_, _, grant) =>
        GrantAgrees(h, g, grant);
      case FreeOp(a) =>
        AgreeingSearches(h, g, a, 0);
        if LiveAt(h, a) {
          AgreeingLive(h, g, a);
        }
      case ReallocOp(a, _, _, grant) =>
        GrantAgrees(h, g, grant);
        AgreeingLive(h, g, a);
      case WriteOp(a, _, _) =>
        AgreeingLive(h, g, a);
    }
  }

  lemma GrantAgrees(h: HeapState, g: HeapState, grant: Option<Region>)
    requires HeapsAgree(h, g) && GrantOk(h, grant)
    ensures GrantOk(g, grant)
  {
    hide InPayload;
    if grant.Some? {
      forall k | 0 <= k < |g.pools|
        ensures || grant.value.base + |grant.value.bytes| <= g.pools[k].base
                || g.pools[k].base + |g.pools[k].mem| <= grant.value.base
      {
        assert PoolsAgree(h.pools[k], g.pools[k]);
      }
    }
  }

  /** One call on two heaps that agree outside live payloads returns the same address and leaves
      heaps that agree outside live payloads, whatever data the callers wrote. */
  lemma StepAgrees(h: HeapState, g: HeapState, op: Op, op': Op)
    requires HeapInv(h) && HeapInv(g) && HeapsAgree(h, g)
    requires Enabled(h, op) && SameButData(op, op')
    ensures Enabled(g, op') && Step(h, op).1 == Step(g, op').1
    ensures HeapsAgree(Step(h, op).0, Step(g, op').0)
  {
    hide HeapInv, HeapsAgree, HeapLive, Malloc, Free, Realloc, Store, LiveAt, SizeAt, GrantOk;
    EnabledAgrees(h, g, op, op');
    match op {
      case MallocOp(n, xhint, grant) =>
        if n > 0 {
          MallocAgrees(h, g, n, xhint, grant);
        }
      case FreeOp(a) =>
        FreeAgrees(h, g, a);
      case ReallocOp(a, n, xhint, grant) =>
        ReallocAgrees(h, g, a, n, xhint, grant);
      case WriteOp(a, off, data) =>
        LiveAtIsLive(h, a);
        WriteAgrees(h, g, (a, SizeAt(h, a)), off, data, op'.data);
    }
  }

  /** Wipe over whole runs: two runs of the same calls that differ only in the data the callers
      wrote end in heaps that agree on every byte outside a live payload (headers, stale headers,
      wiped bytes and bytes never handed out alike). So no byte a caller wrote survives there. */
  lemma {:induction false} NothingLeaks(h: HeapState, g: HeapState, ops: seq<Op>, ops': seq<Op>)
    requires HeapInv(h) && HeapInv(g) && HeapsAgree(h, g)
    requires |ops| == |ops'| && forall i :: 0 <= i < |ops| ==> SameButData(ops[i], ops'[i])
    requires AllEnabled(h, ops)
    ensures AllEnabled(g, ops') && HeapsAgree(Run(h, ops), Run(g, ops'))
    decreases |ops|
  {
    hide HeapInv, HeapsAgree, Step, Enabled, SameButData;
    if ops != [] {
      StepAgrees(h, g, ops[0], ops'[0]);
      StepKeepsInv(h, ops[0]);
      StepKeepsInv(g, ops'[0]);
      NothingLeaks(Step(h, ops[0]).0, Step(g, ops'[0]).0, ops[1..], ops'[1..]);
    }
  }
}
