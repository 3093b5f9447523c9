/** Comparing and moving octets without a branch that depends on them. */
module ConstTime {
  import opened Sha256

  type long = bv64

  function IsNotZero(a: word): (r: word)
    ensures r == if a == 0 then 0 else 1
  {
    (a | (0 - a)) >> 31
  }

  function IsZero(a: word): (r: word)
    ensures r == if a == 0 then 1 else 0
  {
    (!a & !(0 - a)) >> 31
  }

  function NotEqualByte(x: octet, y: octet): (r: word)
    ensures r == if x == y then 0 else 1
  {
    (0 - ((x as word) ^ (y as word))) >> 31
  }

  /** The sign bit of a 32-bit number. */
  function Sign(x: word): word { (x >> 31) & 1 }

  function Or(a: word, b: word): word { a | b }

  function Difference(x: octet, y: octet): word { (x as word) - (y as word) }

  /** Two octets that differ set the sign of one of the words, equal ones change neither. */
  lemma SignStep(ab: word, ba: word, x: octet, y: octet)
    ensures Sign(Or(Or(ab, Difference(x, y)), Or(ba, Difference(y, x)))) == if x == y then Sign(Or(ab, ba)) else 1
  {
    hide Sign, Or, Difference;
    if x == y {
      NoDifference(x);
      OrZero(ab);
      OrZero(ba);
    } else {
      OrRegroup(ab, ba, Difference(x, y), Difference(y, x));
      SignOfDifference(x, y);
      SignOfOr(Or(ab, ba), Or(Difference(x, y), Difference(y, x)));
    }
  }

  lemma NoDifference(x: octet)
    ensures Difference(x, x) == 0
  {}

  lemma SignOfDifference(x: octet, y: octet)
    requires x != y
    ensures Sign(Or(Difference(x, y), Difference(y, x))) == 1
  {}

  lemma SignOfOr(p: word, q: word)
    requires Sign(q) == 1
    ensures Sign(Or(p, q)) == 1
  {}

  lemma OrRegroup(a: word, b: word, c: word, d: word)
    ensures Or(Or(a, c), Or(b, d)) == Or(Or(a, b), Or(c, d))
  {
    hide Or;
    OrAssociates(a, c, Or(b, d));
    OrAssociates(c, b, d);
    OrCommutes(b, c);
    OrAssociates(b, c, d);
    OrAssociates(a, b, Or(c, d));
  }

  lemma OrAssociates(a: word, b: word, c: word)
    ensures Or(Or(a, b), c) == Or(a, Or(b, c))
  {}

  lemma OrCommutes(a: word, b: word)
    ensures Or(a, b) == Or(b, a)
  {}

  lemma OrZero(a: word)
    ensures Or(a, 0) == a
  {}

  /** 1 exactly when some octet differs. */
  method NotMemEqual(a: seq<octet>, b: seq<octet>) returns (r: word)
    requires |a| == |b|
    ensures r == if a == b then 0 else 1
  {
    hide Sign, Or, Difference;
    var ab: word, ba: word, i := 0, 0, 0;
    NoSign();
    while i < |a|
      invariant i <= |a|
      invariant Sign(Or(ab, ba)) == if a[..i] == b[..i] then 0 else 1
    {
      SignStep(ab, ba, a[i], b[i]);
      ab := Or(ab, Difference(a[i], b[i]));
      ba := Or(ba, Difference(b[i], a[i]));
      OneMoreOctet(a, b, i);
      i := i + 1;
    }
    assert a[..i] == a && b[..i] == b;
    r := Sign(Or(ab, ba));
  }

  lemma NoSign()
    ensures Sign(Or(0, 0)) == 0
  {}

  lemma OneMoreOctet(a: seq<octet>, b: seq<octet>, i: nat)
    requires i < |a| == |b|
    ensures a[..i + 1] == b[..i + 1] <==> a[..i] == b[..i] && a[i] == b[i]
  {
    assert a[..i + 1] == a[..i] + [a[i]] && b[..i + 1] == b[..i] + [b[i]];
  }

  method MemEqual(a: seq<octet>, b: seq<octet>) returns (r: word)
    requires |a| == |b|
    ensures r == if a == b then 1 else 0
  {
    r := NotMemEqual(a, b);
    r := r ^ 1;
  }

  // ---- the conditional move ----

  function GenMask(op: long): long { 0 - op }

  function GenInvMask(op: long): long { op - 1 }

  function LowOctet(m: long): octet { (m & 0xff) as octet }

  function Combined(d: octet, mask2: octet, s: octet, mask1: octet): octet { (d & mask2) | (s & mask1) }

  /** What one step leaves: an octet of the one area or the other, by the two masks. */
  function Selected(op: long, d: octet, s: octet): octet {
    Combined(d, LowOctet(GenInvMask(op)), s, LowOctet(GenMask(op)))
  }

  /** The masks keep every octet exactly when the low octet of the flag is 0, and take the other
      exactly when it is 1. */
  lemma MasksSelect(op: long)
    ensures (forall d, s :: Selected(op, d, s) == d) <==> LowOctet(op) == 0
    ensures (forall d, s :: Selected(op, d, s) == s) <==> LowOctet(op) == 1
  {
    MaskOctets(op);
    var b := LowOctet(op);
    assert Selected(op, 0, 0xff) == 0 - b by { SelectsMask(b); }
    forall d, s ensures b == 0 ==> Selected(op, d, s) == d {}
    forall d, s ensures b == 1 ==> Selected(op, d, s) == s {}
  }

  lemma MaskOctets(op: long)
    ensures LowOctet(GenMask(op)) == 0 - LowOctet(op) && LowOctet(GenInvMask(op)) == LowOctet(op) - 1
  {}

  lemma SelectsMask(b: octet)
    ensures (0 & (b - 1)) | (0xff & (0 - b)) == 0 - b
  {}

  /** The octets `m` after the first `n` steps of a copy that goes forward. */
  function Forward(m: seq<octet>, dst: nat, src: nat, n: nat): (r: seq<octet>)
    requires dst + n <= |m| && src + n <= |m|
    ensures |r| == |m|
  {
    if n == 0 then m
    else
      var p := Forward(m, dst, src, n - 1);
      p[dst + n - 1 := p[src + n - 1]]
  }

  /** The octets after the first `n` steps with any flag: each step mixes two octets by the masks. */
  function Blended(m: seq<octet>, dst: nat, src: nat, n: nat, op: long): (r: seq<octet>)
    requires dst + n <= |m| && src + n <= |m|
    ensures |r| == |m|
  {
    if n == 0 then m
    else
      var p := Blended(m, dst, src, n - 1, op);
      p[dst + n - 1 := Selected(op, p[dst + n - 1], p[src + n - 1])]
  }

  /** The mix: bits of the destination where the flag's low octet less one has them, bits of the source
      where its negation has them. */
  lemma SelectedIs(op: long, d: octet, s: octet)
    ensures Selected(op, d, s) == (d & (LowOctet(op) - 1)) | (s & (0 - LowOctet(op)))
  {
    hide LowOctet;
    MaskOctets(op);
  }

  lemma {:induction false} BlendedIs(m: seq<octet>, dst: nat, src: nat, n: nat, op: long)
    requires dst + n <= |m| && src + n <= |m|
    ensures LowOctet(op) == 0 ==> Blended(m, dst, src, n, op) == m
    ensures LowOctet(op) == 1 ==> Blended(m, dst, src, n, op) == Forward(m, dst, src, n)
  {
    hide LowOctet, Selected;
    if n > 0 {
      BlendedIs(m, dst, src, n - 1, op);
      MasksSelect(op);
    }
  }

  /** The octets with `n` of them moved from `src` to `dst`. */
  function Moved(m: seq<octet>, dst: nat, src: nat, n: nat): (r: seq<octet>)
    requires dst + n <= |m| && src + n <= |m|
    ensures |r| == |m|
  {
    m[..dst] + m[src..src + n] + m[dst + n..]
  }

  lemma MovedAt(m: seq<octet>, dst: nat, src: nat, n: nat, k: nat)
    requires dst + n <= |m| && src + n <= |m| && k < |m|
    ensures Moved(m, dst, src, n)[k] == if dst <= k < dst + n then m[src + (k - dst)] else m[k]
  {}

  /** Whatever the areas, the flag's low octet 0 changes nothing and 1 copies octet by octet; any other
      one mixes the octets. */
  method MemMovCond(mem: array<octet>, dst: nat, src: nat, len: nat, op: long)
    requires dst + len <= mem.Length && src + len <= mem.Length
    modifies mem
    ensures mem[..] == Blended(old(mem[..]), dst, src, len, op)
    ensures LowOctet(op) == 0 ==> mem[..] == old(mem[..])
    ensures LowOctet(op) == 1 ==> mem[..] == Forward(old(mem[..]), dst, src, len)
    ensures LowOctet(op) == 1 && (dst <= src || src + len <= dst) ==> mem[..] == Moved(old(mem[..]), dst, src, len)
  {
    hide LowOctet, GenMask, GenInvMask, Combined;
    var mask1, mask2 := LowOctet(GenMask(op)), LowOctet(GenInvMask(op));
    ghost var before := mem[..];
    var i := 0;
    while i < len
      invariant i <= len && mem[..] == Blended(before, dst, src, i, op)
    {
      assert Combined(mem[dst + i], mask2, mem[src + i], mask1) == Selected(op, mem[dst + i], mem[src + i]);
      mem[dst + i] := Combined(mem[dst + i], mask2, mem[src + i], mask1);
      i := i + 1;
    }
    BlendedIs(before, dst, src, len, op);
    if LowOctet(op) == 1 && (dst <= src || src + len <= dst) {
      ForwardMoves(before, dst, src, len);
    }
  }

  lemma {:induction false} ForwardMoves(m: seq<octet>, dst: nat, src: nat, n: nat)
    requires dst + n <= |m| && src + n <= |m| && (dst <= src || src + n <= dst)
    ensures Forward(m, dst, src, n) == Moved(m, dst, src, n)
  {
    hide Moved;
    if n > 0 {
      ForwardMoves(m, dst, src, n - 1);
      var p := Moved(m, dst, src, n - 1);
      var at := src + n - 1;
      MovedAt(m, dst, src, n - 1, at);
      assert Forward(m, dst, src, n) == p[dst + n - 1 := p[at]];
      OneMoreMoved(m, dst, src, n);
    } else {
      forall k | 0 <= k < |m| ensures Moved(m, dst, src, 0)[k] == m[k] {
        MovedAt(m, dst, src, 0, k);
      }
    }
  }

  lemma OneMoreMoved(m: seq<octet>, dst: nat, src: nat, n: nat)
    requires 0 < n && dst + n <= |m| && src + n <= |m|
    ensures Moved(m, dst, src, n) == Moved(m, dst, src, n - 1)[dst + n - 1 := m[src + n - 1]]
  {
    hide Moved;
    var q := Moved(m, dst, src, n - 1)[dst + n - 1 := m[src + n - 1]];
    forall k | 0 <= k < |m| ensures Moved(m, dst, src, n)[k] == q[k] {
      MovedAt(m, dst, src, n, k);
      MovedAt(m, dst, src, n - 1, k);
    }
  }

  /** An octet, once written, stays: it is what stood at its source just before. */
  lemma {:induction false} ForwardAt(m: seq<octet>, dst: nat, src: nat, n: nat, k: nat)
    requires dst + n <= |m| && src + n <= |m| && k < n
    ensures Forward(m, dst, src, n)[dst + k] == Forward(m, dst, src, k)[src + k]
    decreases n
  {
    if k < n - 1 {
      ForwardAt(m, dst, src, n - 1, k);
    }
  }

  /** The copy is a move for all contents exactly when it does not run into octets it has yet to read:
      the destination is not above the source, or the areas are apart. */
  lemma MovesIffNotAhead(size: nat, dst: nat, src: nat, n: nat)
    requires dst + n <= size && src + n <= size
    ensures (forall m: seq<octet> | |m| == size :: Forward(m, dst, src, n) == Moved(m, dst, src, n))
       <==> dst <= src || src + n <= dst
  {
    if dst <= src || src + n <= dst {
      forall m: seq<octet> | |m| == size ensures Forward(m, dst, src, n) == Moved(m, dst, src, n) {
        ForwardMoves(m, dst, src, n);
      }
    } else {
      var m := Zeros(size)[src := 1];
      var gap := dst - src;
      ForwardAt(m, dst, src, n, gap);
      ForwardAt(m, dst, src, gap, 0);
      assert m[src] == 1 && m[src + gap] == 0;
      assert Forward(m, dst, src, n)[dst + gap] == 1;
      assert Moved(m, dst, src, n)[dst + gap] == m[src + gap];
      assert |m| == size && Forward(m, dst, src, n) != Moved(m, dst, src, n);
    }
  }
}
