/** The block list of one pool, as a value: what the headers laid out in a pool say, without the
    bytes. First-fit allocation with splitting and freeing with coalescing are functions on the
    list; the theorems here are about the lists they produce. */
module BlockList {

  /** Offset of the payload in a block: two 4-byte words, followed by 8-byte aligned data. */
  const HEAD: nat := 8

  datatype Block = Block(size: nat, active: bool)

  /** Bytes a run of blocks takes, headers included. */
  function Extent(bs: seq<Block>): nat {
    if bs == [] then 0 else HEAD + bs[0].size + Extent(bs[1..])
  }

  /** Where block `i` starts. */
  function Offset(bs: seq<Block>, i: nat): nat
    requires i <= |bs|
  {
    if i == 0 then 0 else Offset(bs, i - 1) + HEAD + bs[i - 1].size
  }

  ghost predicate NoTwoFree(bs: seq<Block>) {
    forall i :: 0 <= i < |bs| - 1 ==> bs[i].active || bs[i + 1].active
  }

  /** The invariant of a pool's list: coalesced, and no empty block. */
  ghost predicate Canonical(bs: seq<Block>) {
    && NoTwoFree(bs)
    && forall i :: 0 <= i < |bs| ==> bs[i].size > 0
  }

  /** The live payloads as (offset of the payload, size), for a list that starts at `off`. */
  ghost function LiveSet(bs: seq<Block>, off: nat): set<(nat, nat)> {
    if bs == [] then {}
    else (if bs[0].active then {(off + HEAD, bs[0].size)} else {})
         + LiveSet(bs[1..], off + HEAD + bs[0].size)
  }

  function LiveBytes(bs: seq<Block>): nat {
    if bs == [] then 0
    else (if bs[0].active then bs[0].size else 0) + LiveBytes(bs[1..])
  }

  function LiveCount(bs: seq<Block>): nat {
    if bs == [] then 0
    else (if bs[0].active then 1 else 0) + LiveCount(bs[1..])
  }

  function Fits(b: Block, s: nat): bool {
    !b.active && b.size >= s
  }

  /** Index of the lowest-addressed free block that can hold `s` bytes, or the list's length. */
  function FirstFit(bs: seq<Block>, s: nat): (i: nat)
    ensures i <= |bs|
    ensures i < |bs| ==> Fits(bs[i], s)
    ensures forall k :: 0 <= k < i ==> !Fits(bs[k], s)
  {
    if bs == [] then 0
    else if Fits(bs[0], s) then 0
    else 1 + FirstFit(bs[1..], s)
  }

  /** Take block `i` for `s` bytes; the rest becomes a block of its own when more than a header
      would be left. */
  function Taken(bs: seq<Block>, i: nat, s: nat): seq<Block>
    requires i < |bs| && bs[i].size >= s
  {
    if bs[i].size - s > HEAD then
      bs[..i] + [Block(s, true), Block(bs[i].size - s - HEAD, false)] + bs[i + 1..]
    else
      bs[..i] + [Block(bs[i].size, true)] + bs[i + 1..]
  }

  function FreeBefore(bs: seq<Block>, i: nat): bool
    requires i < |bs|
  {
    i > 0 && !bs[i - 1].active
  }

  function FreeAfter(bs: seq<Block>, i: nat): bool
    requires i < |bs|
  {
    i + 1 < |bs| && !bs[i + 1].active
  }

  /** First index of the run that block `i` is merged into. */
  function MergeLo(bs: seq<Block>, i: nat): (lo: nat)
    requires i < |bs|
    ensures lo <= i
  {
    if FreeBefore(bs, i) then i - 1 else i
  }

  function MergeHi(bs: seq<Block>, i: nat): (hi: nat)
    requires i < |bs|
    ensures i < hi <= |bs|
  {
    if FreeAfter(bs, i) then i + 2 else i + 1
  }

  /** Merge block `i` with its free neighbours. */
  function Merged(bs: seq<Block>, i: nat): seq<Block>
    requires i < |bs|
  {
    var lo, hi := MergeLo(bs, i), MergeHi(bs, i);
    ExtentOfRun(bs, lo, hi);
    bs[..lo] + [Block(Extent(bs[lo..hi]) - HEAD, bs[lo].active)] + bs[hi..]
  }

  function Released(bs: seq<Block>, i: nat): seq<Block>
    requires i < |bs|
  {
    Merged(bs[i := Block(bs[i].size, false)], i)
  }

  // ---- arithmetic of lists ----

  lemma ExtentOfRun(bs: seq<Block>, lo: nat, hi: nat)
    requires lo < hi <= |bs|
    ensures Extent(bs[lo..hi]) >= HEAD + bs[lo].size
  {}

  lemma {:induction false} ExtentConcat(a: seq<Block>, b: seq<Block>)
    ensures Extent(a + b) == Extent(a) + Extent(b)
  {
    if a == [] {
      assert a + b == b;
    } else {
      assert (a + b)[1..] == a[1..] + b;
      ExtentConcat(a[1..], b);
    }
  }

  lemma {:induction false} LiveConcat(a: seq<Block>, b: seq<Block>, off: nat)
    ensures LiveSet(a + b, off) == LiveSet(a, off) + LiveSet(b, off + Extent(a))
    ensures LiveBytes(a + b) == LiveBytes(a) + LiveBytes(b)
    ensures LiveCount(a + b) == LiveCount(a) + LiveCount(b)
  {
    if a == [] {
      assert a + b == b;
    } else {
      assert (a + b)[1..] == a[1..] + b;
      LiveConcat(a[1..], b, off + HEAD + a[0].size);
    }
  }

  lemma {:induction false} OffsetIsExtent(bs: seq<Block>, i: nat)
    requires i <= |bs|
    ensures Offset(bs, i) == Extent(bs[..i])
  {
    if i > 0 {
      OffsetIsExtent(bs, i - 1);
      assert bs[..i] == bs[..i - 1] + [bs[i - 1]];
      ExtentConcat(bs[..i - 1], [bs[i - 1]]);
    }
  }

  lemma {:induction false} OffsetInConcat(a: seq<Block>, b: seq<Block>, i: nat)
    requires i <= |a + b|
    ensures Offset(a + b, i) == if i < |a| then Offset(a, i) else Extent(a) + Offset(b, i - |a|)
  {
    if i > 0 {
      OffsetInConcat(a, b, i - 1);
    }
    if i == |a| {
      OffsetIsExtent(a, |a|);
      assert a[..|a|] == a;
    }
  }

  /** Cut a list around block `i`: how extent, live set and counters split. */
  lemma CutAt(bs: seq<Block>, i: nat, off: nat)
    requires i < |bs|
    ensures bs == bs[..i] + [bs[i]] + bs[i + 1..]
    ensures Extent(bs) == Offset(bs, i) + HEAD + bs[i].size + Extent(bs[i + 1..])
    ensures Offset(bs, i + 1) == Offset(bs, i) + HEAD + bs[i].size
    ensures LiveSet(bs, off)
         == LiveSet(bs[..i], off) + LiveSet([bs[i]], off + Offset(bs, i))
            + LiveSet(bs[i + 1..], off + Offset(bs, i + 1))
    ensures LiveBytes(bs) == LiveBytes(bs[..i]) + LiveBytes([bs[i]]) + LiveBytes(bs[i + 1..])
    ensures LiveCount(bs) == LiveCount(bs[..i]) + LiveCount([bs[i]]) + LiveCount(bs[i + 1..])
  {
    assert bs[..i + 1] == bs[..i] + [bs[i]];
    assert bs == bs[..i + 1] + bs[i + 1..];
    ExtentConcat(bs[..i], [bs[i]]);
    ExtentConcat(bs[..i + 1], bs[i + 1..]);
    LiveConcat(bs[..i], [bs[i]], off);
    LiveConcat(bs[..i + 1], bs[i + 1..], off);
    OffsetIsExtent(bs, i);
    OffsetIsExtent(bs, i + 1);
  }

  /** Every live payload starts behind a header of its own and ends inside the list. */
  lemma {:induction false} LiveRange(bs: seq<Block>, off: nat)
    ensures forall x :: x in LiveSet(bs, off) ==> off + HEAD <= x.0 && x.0 + x.1 <= off + Extent(bs)
  {
    if bs != [] {
      LiveRange(bs[1..], off + HEAD + bs[0].size);
    }
  }

  /** The payloads of one list never overlap; a whole header lies between two of them. */
  lemma {:induction false} LivePayloadsDisjoint(bs: seq<Block>, off: nat, x: (nat, nat), y: (nat, nat))
    requires x in LiveSet(bs, off) && y in LiveSet(bs, off) && x != y
    ensures x.0 + x.1 + HEAD <= y.0 || y.0 + y.1 + HEAD <= x.0
  {
    var next := off + HEAD + bs[0].size;
    LiveRange(bs[1..], next);
    if x in LiveSet(bs[1..], next) && y in LiveSet(bs[1..], next) {
      LivePayloadsDisjoint(bs[1..], next, x, y);
    }
  }

  /** A block is live exactly when some active block of the list has that payload. */
  lemma {:induction false} LiveIsABlock(bs: seq<Block>, off: nat, x: (nat, nat)) returns (i: nat)
    requires x in LiveSet(bs, off)
    ensures i < |bs| && bs[i].active && x == (off + Offset(bs, i) + HEAD, bs[i].size)
  {
    var next := off + HEAD + bs[0].size;
    if bs[0].active && x == (off + HEAD, bs[0].size) {
      i := 0;
    } else {
      var j := LiveIsABlock(bs[1..], next, x);
      i := j + 1;
      assert bs == [bs[0]] + bs[1..];
      assert Extent([bs[0]]) == HEAD + bs[0].size;
      OffsetInConcat([bs[0]], bs[1..], i);
    }
  }

  lemma BlockIsLive(bs: seq<Block>, off: nat, i: nat)
    requires i < |bs| && bs[i].active
    ensures (off + Offset(bs, i) + HEAD, bs[i].size) in LiveSet(bs, off)
  {
    CutAt(bs, i, off);
    assert LiveSet([bs[i]], off + Offset(bs, i)) == {(off + Offset(bs, i) + HEAD, bs[i].size)};
  }

  lemma {:induction false} OffsetsIncrease(bs: seq<Block>, i: nat, j: nat)
    requires i < j <= |bs|
    ensures Offset(bs, i) + HEAD + bs[i].size <= Offset(bs, j) <= Extent(bs)
    decreases |bs| - i, j
  {
    if i + 1 < j {
      OffsetsIncrease(bs, i, j - 1);
    }
    OffsetInside(bs, j);
  }

  lemma OffsetInside(bs: seq<Block>, j: nat)
    requires j <= |bs|
    ensures Offset(bs, j) <= Extent(bs)
    ensures Offset(bs, |bs|) == Extent(bs)
  {
    OffsetIsExtent(bs, j);
    OffsetIsExtent(bs, |bs|);
    assert bs[..|bs|] == bs;
    assert bs == bs[..j] + bs[j..];
    ExtentConcat(bs[..j], bs[j..]);
  }

  // ---- the operations keep the invariant ----

  /** Replacing a run of blocks by another of the same extent changes what is live in that run
      and nothing else. */
  lemma ReplaceRun(pre: seq<Block>, mid: seq<Block>, mid': seq<Block>, post: seq<Block>, off: nat)
    requires Extent(mid) == Extent(mid')
    ensures Extent(pre + mid' + post) == Extent(pre + mid + post)
    ensures LiveSet(pre + mid' + post, off)
         == LiveSet(pre + mid + post, off) - LiveSet(mid, off + Extent(pre)) + LiveSet(mid', off + Extent(pre))
    ensures LiveBytes(pre + mid' + post) == LiveBytes(pre + mid + post) - LiveBytes(mid) + LiveBytes(mid')
    ensures LiveCount(pre + mid' + post) == LiveCount(pre + mid + post) - LiveCount(mid) + LiveCount(mid')
  {
    hide Extent, LiveSet, LiveBytes, LiveCount;
    ThreeParts(pre, mid, post, off);
    ThreeParts(pre, mid', post, off);
    var o := off + Extent(pre);
    LiveRange(pre, off);
    LiveRange(mid, o);
    LiveRange(post, o + Extent(mid));
    assert LiveSet(pre, off) !! LiveSet(mid, o);
    assert LiveSet(post, o + Extent(mid)) !! LiveSet(mid, o);
  }

  lemma ThreeParts(a: seq<Block>, b: seq<Block>, c: seq<Block>, off: nat)
    ensures Extent(a + b + c) == Extent(a) + Extent(b) + Extent(c)
    ensures LiveSet(a + b + c, off)
         == LiveSet(a, off) + LiveSet(b, off + Extent(a)) + LiveSet(c, off + Extent(a) + Extent(b))
    ensures LiveBytes(a + b + c) == LiveBytes(a) + LiveBytes(b) + LiveBytes(c)
    ensures LiveCount(a + b + c) == LiveCount(a) + LiveCount(b) + LiveCount(c)
  {
    ExtentConcat(a, b);
    ExtentConcat(a + b, c);
    LiveConcat(a, b, off);
    LiveConcat(a + b, c, off);
  }

  /** What replaces block `i` when it is taken. */
  function Pieces(b: Block, s: nat): seq<Block>
    requires b.size >= s
  {
    if b.size - s > HEAD then [Block(s, true), Block(b.size - s - HEAD, false)]
    else [Block(b.size, true)]
  }

  lemma PiecesEffect(b: Block, s: nat, off: nat)
    requires Fits(b, s)
    ensures var p := Pieces(b, s);
            && Extent(p) == Extent([b])
            && LiveSet(p, off) == {(off + HEAD, p[0].size)}
            && LiveBytes(p) == p[0].size && LiveCount(p) == 1
    ensures LiveSet([b], off) == {} && LiveBytes([b]) == 0 && LiveCount([b]) == 0
  {
    if b.size - s > HEAD {
      var taken, rest := [Block(s, true)], [Block(b.size - s - HEAD, false)];
      assert Pieces(b, s) == taken + rest;
      ExtentConcat(taken, rest);
      LiveConcat(taken, rest, off);
    }
  }

  lemma TakenEffect(bs: seq<Block>, i: nat, s: nat, off: nat)
    requires Canonical(bs) && i < |bs| && Fits(bs[i], s) && s > 0
    ensures var r := Taken(bs, i, s);
            && Canonical(r) && Extent(r) == Extent(bs)
            && i < |r| && Offset(r, i) == Offset(bs, i)
            && r[i].active && s <= r[i].size <= s + HEAD && r[i].size <= bs[i].size
            && LiveSet(r, off) == LiveSet(bs, off) + {(off + Offset(bs, i) + HEAD, r[i].size)}
            && LiveBytes(r) == LiveBytes(bs) + r[i].size
            && LiveCount(r) == LiveCount(bs) + 1
  {
    var r := Taken(bs, i, s);
    var pre, post := bs[..i], bs[i + 1..];
    assert bs == pre + [bs[i]] + post;
    assert r == pre + Pieces(bs[i], s) + post;
    PiecesEffect(bs[i], s, off + Extent(pre));
    ReplaceRun(pre, [bs[i]], Pieces(bs[i], s), post, off);
    assert r[..i] == pre;
    OffsetIsExtent(bs, i);
    OffsetIsExtent(r, i);
    TakenCanonical(bs, i, s);
  }

  lemma TakenCanonical(bs: seq<Block>, i: nat, s: nat)
    requires Canonical(bs) && i < |bs| && Fits(bs[i], s) && s > 0
    ensures Canonical(Taken(bs, i, s))
  {
    var r := Taken(bs, i, s);
    var extra := |r| - |bs|;
    assert forall k :: i + extra < k < |r| ==> r[k] == bs[k - extra];
    assert forall k :: 0 <= k < i ==> r[k] == bs[k];
  }

  /** Splitting never leaves anything to merge: the call of the merge step after a split is the
      identity on a canonical list. */
  lemma SplitNeedsNoMerge(bs: seq<Block>, i: nat, s: nat)
    requires Canonical(bs) && i < |bs| && Fits(bs[i], s) && bs[i].size - s > HEAD
    ensures var r := Taken(bs, i, s); i + 1 < |r| && Merged(r, i + 1) == r
  {
    var r := Taken(bs, i, s);
    assert i + 2 < |r| ==> r[i + 2] == bs[i + 1];
    assert r[i + 1..i + 2] == [r[i + 1]];
    assert Extent(r[i + 1..i + 2]) == HEAD + r[i + 1].size;
    assert r == r[..i + 1] + [r[i + 1]] + r[i + 2..];
  }

  lemma LiveOfFreeRun(bs: seq<Block>, off: nat)
    requires forall k :: 0 <= k < |bs| ==> !bs[k].active
    ensures LiveSet(bs, off) == {} && LiveBytes(bs) == 0 && LiveCount(bs) == 0
  {}

  lemma ReleasedShape(bs: seq<Block>, i: nat)
    requires i < |bs|
    ensures MergeLo(bs, i) <= i < MergeHi(bs, i) <= |bs|
    ensures var c := bs[i := Block(bs[i].size, false)];
            && MergeLo(c, i) == MergeLo(bs, i) && MergeHi(c, i) == MergeHi(bs, i)
            && (var lo, hi := MergeLo(bs, i), MergeHi(bs, i);
                && Extent(bs[lo..hi]) >= HEAD
                && Released(bs, i) == bs[..lo] + [Block(Extent(bs[lo..hi]) - HEAD, false)] + bs[hi..])
  {
    var c := bs[i := Block(bs[i].size, false)];
    var lo, hi := MergeLo(bs, i), MergeHi(bs, i);
    assert c[..lo] == bs[..lo] && c[hi..] == bs[hi..];
    SameSizesSameExtent(c[lo..hi], bs[lo..hi]);
    ExtentOfRun(bs, lo, hi);
  }

  lemma {:induction false} SameSizesSameExtent(a: seq<Block>, b: seq<Block>)
    requires |a| == |b| && forall k :: 0 <= k < |a| ==> a[k].size == b[k].size
    ensures Extent(a) == Extent(b)
  {
    if a != [] {
      SameSizesSameExtent(a[1..], b[1..]);
    }
  }

  lemma ReleasedEffect(bs: seq<Block>, i: nat, off: nat)
    requires Canonical(bs) && i < |bs| && bs[i].active
    ensures var r := Released(bs, i);
            && Canonical(r) && Extent(r) == Extent(bs)
            && LiveSet(r, off) == LiveSet(bs, off) - {(off + Offset(bs, i) + HEAD, bs[i].size)}
            && LiveBytes(r) == LiveBytes(bs) - bs[i].size
            && LiveCount(r) == LiveCount(bs) - 1
  {
    var lo, hi := MergeLo(bs, i), MergeHi(bs, i);
    ReleasedShape(bs, i);
    var pre, mid, post := bs[..lo], bs[lo..hi], bs[hi..];
    var big := [Block(Extent(mid) - HEAD, false)];
    assert bs == pre + mid + post;
    ReplaceRun(pre, mid, big, post, off);
    LiveOfFreeRun(big, off + Extent(pre));
    OffsetIsExtent(bs, lo);
    RunHoldsOneLive(bs, i, off);
    ReleasedCanonical(bs, i);
  }

  /** The run that is merged on a release holds one live block, the one released. */
  lemma RunHoldsOneLive(bs: seq<Block>, i: nat, off: nat)
    requires i < |bs| && bs[i].active
    ensures var lo, hi := MergeLo(bs, i), MergeHi(bs, i);
            && LiveSet(bs[lo..hi], off + Offset(bs, lo)) == {(off + Offset(bs, i) + HEAD, bs[i].size)}
            && LiveBytes(bs[lo..hi]) == bs[i].size && LiveCount(bs[lo..hi]) == 1
  {
    hide Offset, Extent, LiveSet, LiveBytes, LiveCount;
    var lo, hi := MergeLo(bs, i), MergeHi(bs, i);
    var base := off + Offset(bs, lo);
    var a, b, c := bs[lo..i], [bs[i]], bs[i + 1..hi];
    assert bs[lo..hi] == a + b + c;
    ThreeParts(a, b, c, base);
    LiveOfFreeRun(a, base);
    LiveOfFreeRun(c, base + Extent(a) + Extent(b));
    assert Offset(bs, i) == Offset(bs, lo) + Extent(a) by {
      assert bs[..i] == bs[..lo] + a;
      ExtentConcat(bs[..lo], a);
      OffsetIsExtent(bs, lo);
      OffsetIsExtent(bs, i);
    }
    OneLiveBlock(bs[i], off + Offset(bs, i));
  }

  lemma OneLiveBlock(b: Block, off: nat)
    requires b.active
    ensures LiveSet([b], off) == {(off + HEAD, b.size)} && LiveBytes([b]) == b.size && LiveCount([b]) == 1
  {}

  /** What stands beside the merged run is in use. */
  lemma MergeBounds(bs: seq<Block>, i: nat)
    requires Canonical(bs) && i < |bs| && bs[i].active
    ensures MergeLo(bs, i) > 0 ==> bs[MergeLo(bs, i) - 1].active
    ensures MergeHi(bs, i) < |bs| ==> bs[MergeHi(bs, i)].active
  {}

  lemma ReleasedCanonical(bs: seq<Block>, i: nat)
    requires Canonical(bs) && i < |bs| && bs[i].active
    ensures Canonical(Released(bs, i))
  {
    var r := Released(bs, i);
    var lo, hi := MergeLo(bs, i), MergeHi(bs, i);
    ReleasedShape(bs, i);
    ExtentOfRun(bs, lo, hi);
    MergeBounds(bs, i);
    hide Extent, Released, MergeLo, MergeHi;
    assert forall k :: lo < k < |r| ==> r[k] == bs[k - lo - 1 + hi];
    assert forall k :: 0 <= k < lo ==> r[k] == bs[k];
  }

  // ---- the heap is canonical ----

  /** A coalesced list is a function of its live payloads and its length: there is only one. */
  lemma {:induction false} CanonicalUnique(a: seq<Block>, b: seq<Block>, off: nat)
    requires Canonical(a) && Canonical(b)
    requires Extent(a) == Extent(b) && LiveSet(a, off) == LiveSet(b, off)
    ensures a == b
  {
    if a == [] || b == [] {
    } else {
      HeadsAgree(a, b, off);
      var next := off + HEAD + a[0].size;
      LiveRange(a[1..], next);
      LiveRange(b[1..], next);
      assert LiveSet(a[1..], next) == LiveSet(b[1..], next) by {
        var h: set<(nat, nat)> := if a[0].active then {(off + HEAD, a[0].size)} else {};
        assert LiveSet(a[1..], next) == LiveSet(a, off) - h;
        assert LiveSet(b[1..], next) == LiveSet(b, off) - h;
      }
      assert Canonical(a[1..]) && Canonical(b[1..]);
      CanonicalUnique(a[1..], b[1..], next);
    }
  }

  lemma HeadsAgree(a: seq<Block>, b: seq<Block>, off: nat)
    requires Canonical(a) && Canonical(b) && a != [] && b != []
    requires Extent(a) == Extent(b) && LiveSet(a, off) == LiveSet(b, off)
    ensures a[0] == b[0]
  {
    if a[0].active {
      ActiveHeadForces(a, b, off);
    } else if b[0].active {
      ActiveHeadForces(b, a, off);
    } else {
      FreeHeadForces(a, b, off);
      FreeHeadForces(b, a, off);
    }
  }

  lemma ActiveHeadForces(a: seq<Block>, b: seq<Block>, off: nat)
    requires a != [] && b != [] && a[0].active && LiveSet(a, off) == LiveSet(b, off)
    ensures a[0] == b[0]
  {
    assert (off + HEAD, a[0].size) in LiveSet(b, off);
    LiveRange(b[1..], off + HEAD + b[0].size);
  }

  lemma FreeHeadForces(a: seq<Block>, b: seq<Block>, off: nat)
    requires Canonical(a) && Canonical(b) && a != [] && b != []
    requires !a[0].active && !b[0].active
    requires Extent(a) == Extent(b) && LiveSet(a, off) == LiveSet(b, off)
    ensures a[0].size >= b[0].size
  {
    var nextA, nextB := off + HEAD + a[0].size, off + HEAD + b[0].size;
    if a[1..] != [] {
      assert a[1].active;
      assert (nextA + HEAD, a[1].size) in LiveSet(a[1..], nextA);
      LiveRange(b[1..], nextB);
    } else {
      assert Extent(a) == HEAD + a[0].size;
    }
  }

  lemma OffsetsDistinct(bs: seq<Block>)
    ensures forall i, j :: 0 <= i < |bs| && 0 <= j < |bs| && i != j ==> Offset(bs, i) != Offset(bs, j)
  {
    forall i, j | 0 <= i < |bs| && 0 <= j < |bs| && i < j
      ensures Offset(bs, i) != Offset(bs, j)
    {
      OffsetsIncrease(bs, i, j);
    }
  }

  // ---- fragmentation ----

  /** Live blocks and the headers in front of them. */
  function LiveSpan(bs: seq<Block>): nat {
    LiveBytes(bs) + HEAD * LiveCount(bs)
  }

  /** When no free block holds `s` bytes, the pool is no larger than what is live plus one gap of
      at most HEAD + s - 1 bytes around each live block. */
  lemma {:induction false} FragmentationBound(bs: seq<Block>, s: nat)
    requires Canonical(bs) && s > 0
    requires FirstFit(bs, s) == |bs|
    ensures Extent(bs) <= LiveSpan(bs) + (LiveCount(bs) + 1) * (HEAD + s - 1)
    ensures bs != [] && bs[0].active ==>
              Extent(bs) <= LiveSpan(bs) + LiveCount(bs) * (HEAD + s - 1)
  {
    if bs != [] {
      assert forall k :: 0 <= k < |bs| ==> !Fits(bs[k], s);
      var t := bs[1..];
      assert forall k :: 0 <= k < |t| ==> t[k] == bs[k + 1];
      assert Canonical(t);
      assert FirstFit(t, s) == |t|;
      FragmentationBound(t, s);
      var g := HEAD + s - 1;
      if bs[0].active {
        assert (LiveCount(t) + 2) * g == (LiveCount(t) + 1) * g + g;
      } else {
        assert (LiveCount(t) + 1) * g == LiveCount(t) * g + g;
        if t != [] {
          assert bs[1].active;
        }
      }
    }
  }
}
