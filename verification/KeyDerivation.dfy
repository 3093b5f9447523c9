/** The loops of the two key derivations, writing into the caller's buffer. */
module KeyDerivation {
  import opened Arithmetic
  import opened Bytes
  import opened Sha256
  import opened OctetNumbers
  import opened Kdf

  /** One iteration of KDFa: the digest goes to `out` at `at`. */
  method KdfaHmac(c: Crypto, alg: Alg, key: Option<seq<octet>>, counter: nat, purpose: Option<seq<octet>>,
                  u: Option<seq<octet>>, v: Option<seq<octet>>, bits: nat, out: array<octet>, at: nat)
    returns (rc: Rc)
    requires Exact(c) && DigestSize(alg).Some? && at + DigestSize(alg).value <= out.Length
    modifies out
    ensures key.None? || u.None? || v.None? ==> rc == BadReference
    ensures key.Some? && u.Some? && v.Some? ==>
              var d := c.mac(alg, key.value, KdfaMessage(counter, purpose, u.value, v.value, bits));
              && rc == (if d.Some? then Success else Failure)
              && (d.Some? ==> out[..] == old(out[..at]) + d.value + old(out[at + DigestSize(alg).value..]))
    ensures rc != Success ==> out[..] == old(out[..])
  {
    hide KdfaMessage, Exact;
    if key.None? || u.None? || v.None? {
      return BadReference;
    }
    var input := KdfaInput(counter, purpose, u.value, v.value, bits);
    var d := c.mac(alg, key.value, input);
    if d.None? {
      return Failure;
    }
    MacFits(c, alg, key.value, input);
    CopyTo(out, at, d.value);
    rc := Success;
  }

  lemma MacFits(c: Crypto, alg: Alg, key: seq<octet>, m: seq<octet>)
    requires Exact(c) && c.mac(alg, key, m).Some?
    ensures DigestSize(alg) == Some(|c.mac(alg, key, m).value|)
  {}

  method KdfaInput(counter: nat, purpose: Option<seq<octet>>, u: seq<octet>, v: seq<octet>, bits: nat)
    returns (input: seq<octet>)
    ensures input == KdfaMessage(counter, purpose, u, v, bits)
  {
    hide Marshal32;
    input := Marshal32(counter);
    if purpose.Some? {
      input := input + (purpose.value + [0]);
    }
    assert input == Marshal32(counter) + LabelOctets(purpose);
    input := input + u;
    input := input + v;
    input := input + Marshal32(bits);
  }

  method CopyTo(out: array<octet>, at: nat, d: seq<octet>)
    requires at + |d| <= out.Length
    modifies out
    ensures out[..] == old(out[..at]) + d + old(out[at + |d|..])
  {
    forall i | 0 <= i < |d| {
      out[at + i] := d[i];
    }
  }

  /** What a derivation that stopped early has left: whole digests in front, the rest untouched. */
  ghost predicate Partial(f: nat -> Option<seq<octet>>, c: nat, n: nat, before: seq<octet>, after: seq<octet>) {
    exists j | 0 <= j < n :: StreamWritten(f, c, j, before, after)
  }

  ghost predicate StreamWritten(f: nat -> Option<seq<octet>>, c: nat, j: nat, before: seq<octet>, after: seq<octet>) {
    var p := Stream(f, c, j);
    p.Some? && |p.value| <= |before| && after == p.value + before[|p.value|..]
  }

  lemma StoppedShort(f: nat -> Option<seq<octet>>, c: nat, j: nat, n: nat, before: seq<octet>, after: seq<octet>)
    requires j < n && StreamWritten(f, c, j, before, after)
    ensures Partial(f, c, n, before, after)
  {}

  lemma OneMoreBlock(f: nat -> Option<seq<octet>>, h: nat, c: nat, j: nat, at: nat,
                     before: seq<octet>, mid: seq<octet>, after: seq<octet>)
    requires Sized(f, h) && StreamWritten(f, c, j, before, mid) && at == j * h && at + h <= |before| == |mid|
    requires f(Wrap(c + j + 1)).Some?
    requires after == mid[..at] + f(Wrap(c + j + 1)).value + mid[at + h..]
    ensures StreamWritten(f, c, j + 1, before, after)
  {
    StreamSize(f, h, c, j);
    var p, d := Stream(f, c, j).value, f(Wrap(c + j + 1)).value;
    assert Stream(f, c, j + 1).value == p + d;
    assert mid[..at] == p;
    assert mid[at + h..] == before[at + h..];
  }

  /** Where a loop stands: `j` of `n` digests are done, `bytes` octets remain, and there is room for
      all digests in a buffer of `size` octets. */
  ghost predicate Placed(h: nat, n: nat, j: nat, bytes: nat, at: nat, size: nat) {
    h > 0 && n == j + Blocks(bytes, h) && at == j * h && n * h <= size
  }

  lemma PlacedStart(h: nat, bytes: nat, size: nat)
    requires h > 0 && Blocks(bytes, h) * h <= size
    ensures Placed(h, Blocks(bytes, h), 0, bytes, 0, size)
  {}

  lemma PlacedRoom(h: nat, n: nat, j: nat, bytes: nat, at: nat, size: nat)
    requires Placed(h, n, j, bytes, at, size)
    ensures h > 0 && j < n && at == j * h && at + h <= size
    ensures bytes <= h ==> n == j + 1
  {
    AtLeastOne(n - j, h);
    assert (n - j) * h == n * h - j * h;
  }

  lemma PlacedNext(h: nat, n: nat, j: nat, bytes: nat, at: nat, size: nat)
    requires Placed(h, n, j, bytes, at, size) && bytes > h
    ensures Placed(h, n, j + 1, bytes - h, at + h, size)
  {
    assert (j + 1) * h == j * h + h;
  }

  /** The octets Kdfa writes, unless an iteration fails. */
  function KdfaKey(c: Crypto, alg: Alg, key: seq<octet>, purpose: Option<seq<octet>>, u: seq<octet>, v: seq<octet>,
                   bits: nat, start: nat, useDigestSize: bool)
    : Option<seq<octet>>
    requires DigestSize(alg).Some?
  {
    DigestSizes(alg);
    var h := DigestSize(alg).value;
    MaskedStream(MacAt(c, alg, key, purpose, u, v, bits), start, Blocks(Wanted(h, bits, useDigestSize), h), bits)
  }

  /** The octets Kdfe writes, unless an iteration fails. */
  function KdfeKey(c: Crypto, alg: Alg, z: Option<seq<octet>>, purpose: Option<seq<octet>>,
                   u: Option<seq<octet>>, v: Option<seq<octet>>, bits: nat)
    : Option<seq<octet>>
    requires DigestSize(alg).Some?
  {
    DigestSizes(alg);
    var h := DigestSize(alg).value;
    MaskedStream(HashAt(c, alg, z, purpose, u, v), 0, Blocks(OctetsOf(bits), h), bits)
  }

  /** A derivation succeeds exactly when there is a key; the key then stands in front of the buffer. */
  ghost predicate Written(key: Option<seq<octet>>, rc: Rc, before: seq<octet>, after: seq<octet>) {
    && rc == (if key.Some? then Success else Failure)
    && (key.Some? ==> |key.value| <= |before| && after == key.value + before[|key.value|..])
  }

  lemma MaskedIsWritten(f: nat -> Option<seq<octet>>, start: nat, n: nat, bits: nat, rc: Rc,
                        before: seq<octet>, after: seq<octet>)
    requires var s := Stream(f, start, n);
             && rc == (if s.Some? then Success else Failure)
             && (s.Some? ==>
                   0 < |s.value| <= |before| && after == Masked(s.value, bits) + before[|s.value|..])
    ensures Written(MaskedStream(f, start, n, bits), rc, before, after)
  {
    hide Stream, Masked;
  }

  function MaskedStream(f: nat -> Option<seq<octet>>, start: nat, n: nat, bits: nat): Option<seq<octet>> {
    var s := Stream(f, start, n);
    if s.Some? && |s.value| > 0 then Some(Masked(s.value, bits)) else None
  }

  /** Key derivation in counter mode. */
  method Kdfa(c: Crypto, alg: Alg, key: Option<seq<octet>>, purpose: Option<seq<octet>>, u: seq<octet>, v: seq<octet>,
              bits: nat, counterIn: Option<nat>, out: array<octet>, useDigestSize: bool)
    returns (rc: Rc, counterOut: Option<nat>)
    requires Exact(c) && bits < TWO_32 && (counterIn.Some? ==> counterIn.value < TWO_32)
    requires DigestSize(alg).Some? ==>
               var h := DigestSize(alg).value; Blocks(Wanted(h, bits, useDigestSize), h) * h <= out.Length
    modifies out
    ensures DigestSize(alg).None? ==> rc == BadValue
    ensures DigestSize(alg).Some? && key.None? ==> rc == BadReference
    ensures DigestSize(alg).Some? && key.Some? ==>
              var h := DigestSize(alg).value;
              var n := Blocks(Wanted(h, bits, useDigestSize), h);
              var start := if counterIn.Some? then counterIn.value else 0;
              var f := MacAt(c, alg, key.value, purpose, u, v, bits);
              var s := Stream(f, start, n);
              && rc == (if s.Some? then Success else Failure)
              && (s.Some? ==>
                    && |s.value| == n * h && h > 0
                    && out[..] == Masked(s.value, bits) + old(out[n * h..])
                    && counterOut == if counterIn.Some? then Some(Wrap(start + n)) else None)
              && (s.None? ==> Partial(f, start, n, old(out[..]), out[..]))
    ensures DigestSize(alg).Some? && key.Some? ==>
              var start := if counterIn.Some? then counterIn.value else 0;
              Written(KdfaKey(c, alg, key.value, purpose, u, v, bits, start, useDigestSize), rc, old(out[..]), out[..])
    ensures rc != Success ==> counterOut == counterIn
    ensures rc == BadValue || rc == BadReference ==> out[..] == old(out[..])
  {
    hide Blocks, Stream, MacAt, Partial, Masked, Exact, Wanted, DigestSize, MaskedStream, Written;
    counterOut := counterIn;
    if DigestSize(alg).None? {
      return BadValue, counterOut;
    }
    var h := DigestSize(alg).value;
    var counter := 0;
    if counterIn.Some? {
      counter := counterIn.value;
    }
    var bytes := Wanted(h, bits, useDigestSize);
    rc, counter := KdfaFill(c, alg, key, purpose, u, v, bits, counter, bytes, out);
    if rc == Success && counterIn.Some? {
      counterOut := Some(counter);
    }
  }

  /** The iterations and the mask. */
  method KdfaFill(c: Crypto, alg: Alg, key: Option<seq<octet>>, purpose: Option<seq<octet>>,
                  u: seq<octet>, v: seq<octet>, bits: nat, start: nat, wanted: nat, out: array<octet>)
    returns (rc: Rc, counter: nat)
    requires Exact(c) && start < TWO_32 && DigestSize(alg).Some?
    requires Blocks(wanted, DigestSize(alg).value) * DigestSize(alg).value <= out.Length
    modifies out
    ensures key.None? ==> rc == BadReference && out[..] == old(out[..])
    ensures key.Some? ==>
              var h := DigestSize(alg).value;
              var n := Blocks(wanted, h);
              var f := MacAt(c, alg, key.value, purpose, u, v, bits);
              var s := Stream(f, start, n);
              && rc == (if s.Some? then Success else Failure)
              && (s.Some? ==>
                    && |s.value| == n * h && h > 0 && counter == Wrap(start + n)
                    && out[..] == Masked(s.value, bits) + old(out[n * h..]))
              && (s.None? ==> Partial(f, start, n, old(out[..]), out[..]))
              && Written(MaskedStream(f, start, n, bits), rc, old(out[..]), out[..])
  {
    hide Blocks, Stream, MacAt, StreamWritten, Partial, Masked, Exact, LowMask, DigestSize, MaskedStream, Written, Wrap;
    DigestSizes(alg);
    ghost var h, n, before := DigestSize(alg).value, Blocks(wanted, DigestSize(alg).value), out[..];
    rc, counter := KdfaLoop(c, alg, key, purpose, u, v, bits, start, wanted, out);
    if key.None? {
      return;
    }
    ghost var f, mid := MacAt(c, alg, key.value, purpose, u, v, bits), out[..];
    MacAtSized(c, alg, key.value, purpose, u, v, bits);
    StreamSize(f, h, start, n);
    if rc == Success {
      AtLeastOne(n, h);
      MaskFirst(out, bits);
      MaskWritten(f, start, n, before, mid, out[..], bits);
    }
    MaskedIsWritten(f, start, n, bits, rc, before, out[..]);
  }

  method MaskFirst(out: array<octet>, bits: nat)
    requires out.Length > 0
    modifies out
    ensures out[..] == if bits % 8 == 0 then old(out[..]) else old(out[..])[0 := old(out[0]) & LowMask(bits % 8)]
  {
    if bits % 8 != 0 {
      out[0] := out[0] & (((1 as octet) << (bits % 8)) - 1);
    }
  }

  /** One iteration: one digest more of the stream, or the end of the derivation. */
  method KdfaStep(c: Crypto, alg: Alg, key: Option<seq<octet>>, purpose: Option<seq<octet>>,
                  u: seq<octet>, v: seq<octet>, bits: nat, counter: nat, out: array<octet>, at: nat,
                  ghost h: nat, ghost start: nat, ghost j: nat, ghost n: nat, ghost before: seq<octet>)
    returns (rc: Rc, next: nat)
    requires Exact(c) && DigestSize(alg) == Some(h) && h > 0 && counter == Wrap(start + j)
    requires at == j * h && at + h <= out.Length == |before| && j < n
    requires if key.Some? then StreamWritten(MacAt(c, alg, key.value, purpose, u, v, bits), start, j, before, out[..])
             else out[..] == before
    modifies out
    ensures next == Wrap(start + j + 1)
    ensures key.None? ==> rc == BadReference && out[..] == before
    ensures key.Some? ==>
              var f := MacAt(c, alg, key.value, purpose, u, v, bits);
              && rc == (if f(next).Some? then Success else Failure)
              && (rc == Success ==> StreamWritten(f, start, j + 1, before, out[..]))
              && (rc == Failure ==> Stream(f, start, n).None? && Partial(f, start, n, before, out[..]))
  {
    hide Wrap, KdfaMessage, MacAt, StreamWritten, Stream, Exact, Sized, Partial, DigestSize;
    CarryOn(start + j, 1);
    next := Wrap(counter + 1);
    ghost var mid := out[..];
    rc := KdfaHmac(c, alg, key, next, purpose, Some(u), Some(v), bits, out, at);
    if key.Some? {
      ghost var f := MacAt(c, alg, key.value, purpose, u, v, bits);
      MacAtIs(c, alg, key.value, purpose, u, v, bits, next);
      MacAtSized(c, alg, key.value, purpose, u, v, bits);
      if rc == Success {
        OneMoreBlock(f, h, start, j, at, before, mid, out[..]);
      } else {
        StreamStops(f, start, j, n);
        StoppedShort(f, start, j, n, before, out[..]);
      }
    }
  }

  /** The iterations, until no octets remain. */
  method KdfaLoop(c: Crypto, alg: Alg, key: Option<seq<octet>>, purpose: Option<seq<octet>>,
                  u: seq<octet>, v: seq<octet>, bits: nat, start: nat, wanted: nat, out: array<octet>)
    returns (rc: Rc, counter: nat)
    requires Exact(c) && start < TWO_32 && DigestSize(alg).Some?
    requires Blocks(wanted, DigestSize(alg).value) * DigestSize(alg).value <= out.Length
    modifies out
    ensures key.None? ==> rc == BadReference && out[..] == old(out[..])
    ensures key.Some? ==>
              var f := MacAt(c, alg, key.value, purpose, u, v, bits);
              var n := Blocks(wanted, DigestSize(alg).value);
              && rc == (if Stream(f, start, n).Some? then Success else Failure)
              && (rc == Success ==> StreamWritten(f, start, n, old(out[..]), out[..]) && counter == Wrap(start + n))
              && (rc == Failure ==> Partial(f, start, n, old(out[..]), out[..]))
  {
    hide Placed, Wrap, Blocks, MacAt, StreamWritten, Stream, Exact, Partial, DigestSize;
    DigestSizes(alg);
    var h := DigestSize(alg).value;
    var bytes: nat, at := wanted, 0;
    counter := start;
    ghost var n, before := Blocks(bytes, h), out[..];
    ghost var j := 0;
    if key.Some? {
      NothingWritten(MacAt(c, alg, key.value, purpose, u, v, bits), start, before);
    }
    WrapSmall(start + j);
    PlacedStart(h, wanted, out.Length);
    while true
      invariant Placed(h, n, j, bytes, at, out.Length)
      invariant counter == Wrap(start + j)
      invariant if key.Some? then
                  StreamWritten(MacAt(c, alg, key.value, purpose, u, v, bits), start, j, before, out[..])
                else out[..] == before
      decreases bytes
    {
      PlacedRoom(h, n, j, bytes, at, out.Length);
      rc, counter := KdfaStep(c, alg, key, purpose, u, v, bits, counter, out, at, h, start, j, n, before);
      if rc != Success {
        return;
      }
      if bytes <= h {
        WrittenSucceeds(MacAt(c, alg, key.value, purpose, u, v, bits), start, n, before, out[..]);
        break;
      }
      PlacedNext(h, n, j, bytes, at, out.Length);
      j := j + 1;
      at := at + h;
      bytes := bytes - h;
    }
  }

  lemma NothingWritten(f: nat -> Option<seq<octet>>, c: nat, before: seq<octet>)
    ensures StreamWritten(f, c, 0, before, before)
  {}

  lemma WrittenSucceeds(f: nat -> Option<seq<octet>>, c: nat, j: nat, before: seq<octet>, after: seq<octet>)
    requires StreamWritten(f, c, j, before, after)
    ensures Stream(f, c, j).Some?
  {}

  lemma MacAtSized(c: Crypto, alg: Alg, key: seq<octet>, purpose: Option<seq<octet>>,
                   u: seq<octet>, v: seq<octet>, bits: nat)
    requires Exact(c) && DigestSize(alg).Some?
    ensures Sized(MacAt(c, alg, key, purpose, u, v, bits), DigestSize(alg).value)
  {
    var f := MacAt(c, alg, key, purpose, u, v, bits);
    forall n | f(n).Some? ensures |f(n).value| == DigestSize(alg).value {
      assert f(n) == c.mac(alg, key, KdfaMessage(n, purpose, u, v, bits));
    }
  }

  lemma MacAtIs(c: Crypto, alg: Alg, key: seq<octet>, purpose: Option<seq<octet>>,
                u: seq<octet>, v: seq<octet>, bits: nat, n: nat)
    ensures MacAt(c, alg, key, purpose, u, v, bits)(n) == c.mac(alg, key, KdfaMessage(n, purpose, u, v, bits))
  {}

  lemma MaskWritten(f: nat -> Option<seq<octet>>, c: nat, n: nat,
                    before: seq<octet>, mid: seq<octet>, after: seq<octet>, bits: nat)
    requires StreamWritten(f, c, n, before, mid) && |Stream(f, c, n).value| > 0
    requires if bits % 8 == 0 then after == mid
             else |mid| > 0 && after == mid[0 := mid[0] & LowMask(bits % 8)]
    ensures var s := Stream(f, c, n).value; after == Masked(s, bits) + before[|s|..]
  {
    hide Stream;
  }

  lemma LastIteration(bytes: nat, h: nat)
    requires h > 0
    ensures Blocks(bytes, h) == if bytes <= h then 1 else 1 + Blocks(bytes - h, h)
  {}

  /** A failed iteration fails every longer stream. */
  lemma {:induction false} StreamStops(f: nat -> Option<seq<octet>>, c: nat, j: nat, n: nat)
    requires j < n && f(Wrap(c + j + 1)).None?
    ensures Stream(f, c, n).None?
    decreases n
  {
    if j + 1 < n {
      StreamStops(f, c, j, n - 1);
    }
  }

  /** Key derivation for ECDH: hashes with a counter from one, in the order counter, secret, label,
      parties. A missing or unsupported hash and a zero octet count are refused. */
  method Kdfe(c: Crypto, alg: Alg, z: Option<seq<octet>>, purpose: Option<seq<octet>>,
              u: Option<seq<octet>>, v: Option<seq<octet>>, bits: nat, out: array<octet>)
    returns (rc: Rc)
    requires Exact(c) && bits < TWO_32
    requires DigestSize(alg).Some? && OctetsOf(bits) > 0 ==>
               Blocks(OctetsOf(bits), DigestSize(alg).value) * DigestSize(alg).value <= out.Length
    modifies out
    ensures DigestSize(alg).None? || OctetsOf(bits) == 0 ==> rc == BadValue && out[..] == old(out[..])
    ensures DigestSize(alg).Some? && OctetsOf(bits) > 0 ==>
              var h := DigestSize(alg).value;
              var n := Blocks(OctetsOf(bits), h);
              var f := HashAt(c, alg, z, purpose, u, v);
              var s := Stream(f, 0, n);
              && rc == (if s.Some? then Success else Failure)
              && (s.Some? ==> |s.value| == n * h && h > 0 && out[..] == Masked(s.value, bits) + old(out[n * h..]))
              && (s.None? ==> Partial(f, 0, n, old(out[..]), out[..]))
    ensures DigestSize(alg).Some? && OctetsOf(bits) > 0 ==>
              Written(KdfeKey(c, alg, z, purpose, u, v, bits), rc, old(out[..]), out[..])
  {
    hide Blocks, Stream, HashAt, StreamWritten, Partial, Masked, Exact, LowMask, OctetsOf, DigestSize;
    hide MaskedStream, Written;
    if DigestSize(alg).None? {
      return BadValue;
    }
    var h := DigestSize(alg).value;
    var bytes := OctetsOf(bits);
    if alg == AlgNull || bytes == 0 {
      NullHasNoDigest();
      return BadValue;
    }
    ghost var before := out[..];
    rc := KdfeLoop(c, alg, z, purpose, u, v, bytes, out);
    if rc != Success {
      DigestSizes(alg);
      MaskedIsWritten(HashAt(c, alg, z, purpose, u, v), 0, Blocks(bytes, h), bits, rc, before, out[..]);
      return;
    }
    ghost var f, mid := HashAt(c, alg, z, purpose, u, v), out[..];
    HashAtSized(c, alg, z, purpose, u, v);
    StreamSize(f, h, 0, Blocks(bytes, h));
    AtLeastOne(Blocks(bytes, h), h);
    MaskFirst(out, bits);
    MaskWritten(f, 0, Blocks(bytes, h), old(out[..]), mid, out[..], bits);
    MaskedIsWritten(f, 0, Blocks(bytes, h), bits, rc, before, out[..]);
  }

  lemma NullHasNoDigest()
    ensures DigestSize(AlgNull).None?
  {}

  /** One iteration: one digest more of the stream, or the end of the derivation. */
  method KdfeStep(c: Crypto, alg: Alg, z: Option<seq<octet>>, purpose: Option<seq<octet>>,
                  u: Option<seq<octet>>, v: Option<seq<octet>>, counter: nat, out: array<octet>, at: nat,
                  ghost h: nat, ghost j: nat, ghost n: nat, ghost before: seq<octet>)
    returns (rc: Rc, next: nat)
    requires Exact(c) && DigestSize(alg) == Some(h) && h > 0 && counter == Wrap(0 + j)
    requires at == j * h && at + h <= out.Length == |before| && j < n
    requires StreamWritten(HashAt(c, alg, z, purpose, u, v), 0, j, before, out[..])
    modifies out
    ensures next == Wrap(0 + j + 1)
    ensures var f := HashAt(c, alg, z, purpose, u, v);
            && rc == (if f(next).Some? then Success else Failure)
            && (rc == Success ==> StreamWritten(f, 0, j + 1, before, out[..]))
            && (rc == Failure ==> Stream(f, 0, n).None? && Partial(f, 0, n, before, out[..]))
  {
    hide Wrap, KdfeMessage, HashAt, StreamWritten, Stream, Exact, Sized, Partial, DigestSize;
    CarryOn(0 + j, 1);
    next := Wrap(counter + 1);
    ghost var mid, f := out[..], HashAt(c, alg, z, purpose, u, v);
    var d := KdfeHash(c, alg, next, z, purpose, u, v);
    HashAtIs(c, alg, z, purpose, u, v, next);
    HashAtSized(c, alg, z, purpose, u, v);
    if d.None? {
      StreamStops(f, 0, j, n);
      StoppedShort(f, 0, j, n, before, out[..]);
      return Failure, next;
    }
    DigestFits(c, alg, z, purpose, u, v, next);
    CopyTo(out, at, d.value);
    OneMoreBlock(f, h, 0, j, at, before, mid, out[..]);
    rc := Success;
  }

  method KdfeLoop(c: Crypto, alg: Alg, z: Option<seq<octet>>, purpose: Option<seq<octet>>,
                  u: Option<seq<octet>>, v: Option<seq<octet>>, wanted: nat, out: array<octet>)
    returns (rc: Rc)
    requires Exact(c) && DigestSize(alg).Some?
    requires Blocks(wanted, DigestSize(alg).value) * DigestSize(alg).value <= out.Length
    modifies out
    ensures var f := HashAt(c, alg, z, purpose, u, v);
            var n := Blocks(wanted, DigestSize(alg).value);
            && rc == (if Stream(f, 0, n).Some? then Success else Failure)
            && (rc == Success ==> StreamWritten(f, 0, n, old(out[..]), out[..]))
            && (rc == Failure ==> Partial(f, 0, n, old(out[..]), out[..]))
  {
    hide Placed, Wrap, Blocks, HashAt, StreamWritten, Stream, Exact, Partial, DigestSize;
    DigestSizes(alg);
    var h := DigestSize(alg).value;
    var bytes: nat, at, counter := wanted, 0, 0;
    ghost var n, before, f := Blocks(bytes, h), out[..], HashAt(c, alg, z, purpose, u, v);
    ghost var j := 0;
    NothingWritten(f, 0, before);
    WrapSmall(0 + j);
    PlacedStart(h, wanted, out.Length);
    while true
      invariant Placed(h, n, j, bytes, at, out.Length)
      invariant counter == Wrap(0 + j)
      invariant StreamWritten(f, 0, j, before, out[..])
      decreases bytes
    {
      PlacedRoom(h, n, j, bytes, at, out.Length);
      rc, counter := KdfeStep(c, alg, z, purpose, u, v, counter, out, at, h, j, n, before);
      if rc != Success {
        return;
      }
      if bytes <= h {
        WrittenSucceeds(f, 0, n, before, out[..]);
        break;
      }
      PlacedNext(h, n, j, bytes, at, out.Length);
      j := j + 1;
      at := at + h;
      bytes := bytes - h;
    }
  }

  /** The parts that are missing add nothing to the hash. */
  method KdfeHash(c: Crypto, alg: Alg, counter: nat, z: Option<seq<octet>>, purpose: Option<seq<octet>>,
                  u: Option<seq<octet>>, v: Option<seq<octet>>)
    returns (d: Option<seq<octet>>)
    ensures d == c.hash(alg, KdfeMessage(counter, z, purpose, u, v))
  {
    hide Marshal32;
    var input := Marshal32(counter);
    if z.Some? {
      input := input + z.value;
    }
    assert input == Marshal32(counter) + OrEmpty(z);
    if purpose.Some? {
      input := input + (purpose.value + [0]);
    }
    assert input == Marshal32(counter) + OrEmpty(z) + LabelOctets(purpose);
    if u.Some? {
      input := input + u.value;
    }
    assert input == Marshal32(counter) + OrEmpty(z) + LabelOctets(purpose) + OrEmpty(u);
    if v.Some? {
      input := input + v.value;
    }
    assert input == KdfeMessage(counter, z, purpose, u, v);
    d := c.hash(alg, input);
  }

  lemma HashAtIs(c: Crypto, alg: Alg, z: Option<seq<octet>>, purpose: Option<seq<octet>>,
                 u: Option<seq<octet>>, v: Option<seq<octet>>, n: nat)
    ensures HashAt(c, alg, z, purpose, u, v)(n) == c.hash(alg, KdfeMessage(n, z, purpose, u, v))
  {}

  lemma HashAtSized(c: Crypto, alg: Alg, z: Option<seq<octet>>, purpose: Option<seq<octet>>,
                    u: Option<seq<octet>>, v: Option<seq<octet>>)
    requires Exact(c) && DigestSize(alg).Some?
    ensures Sized(HashAt(c, alg, z, purpose, u, v), DigestSize(alg).value)
  {
    var f := HashAt(c, alg, z, purpose, u, v);
    forall n | f(n).Some? ensures |f(n).value| == DigestSize(alg).value {
      assert f(n) == c.hash(alg, KdfeMessage(n, z, purpose, u, v));
    }
  }

  lemma DigestFits(c: Crypto, alg: Alg, z: Option<seq<octet>>, purpose: Option<seq<octet>>,
                   u: Option<seq<octet>>, v: Option<seq<octet>>, n: nat)
    requires Exact(c) && c.hash(alg, KdfeMessage(n, z, purpose, u, v)).Some?
    ensures DigestSize(alg) == Some(|c.hash(alg, KdfeMessage(n, z, purpose, u, v)).value|)
  {}

  // ---- the keys octet by octet ----

  /** How many octets a key has: whole digests, the fewest that hold what is wanted, but at least one. */
  ghost predicate FewestDigests(size: nat, wanted: nat, h: nat) {
    h > 0 && size % h == 0 && h <= size && wanted <= size && (size == h || size < wanted + h)
  }

  /** An octet of a key is that of its digest; the first one only has its low bits. */
  ghost predicate KeyOctet(key: seq<octet>, k: nat, digest: seq<octet>, h: nat, bits: nat)
    requires k < |key|
  {
    && h > 0 && |digest| == h
    && if k == 0 && bits % 8 != 0 then key[0] as nat == digest[0] as nat % Power2(bits % 8) else key[k] == digest[k % h]
  }

  /** The counter of iteration `i`. */
  function CounterOf(start: nat, i: nat): nat { Wrap(start + 1 + i) }

  lemma MaskedStreamIs(f: nat -> Option<seq<octet>>, h: nat, start: nat, wanted: nat, bits: nat)
    requires Sized(f, h)
    ensures var key := MaskedStream(f, start, Blocks(wanted, h), bits);
            && (key.Some? ==> FewestDigests(|key.value|, wanted, h))
            && (key.Some? <==> forall i | 0 <= i < Blocks(wanted, h) :: f(CounterOf(start, i)).Some?)
  {
    hide Blocks, Stream, Masked, CounterOf;
    var n := Blocks(wanted, h);
    BlocksIsCeiling(wanted, h);
    StreamSize(f, h, start, n);
    StreamFails(f, start, n);
    AtLeastOne(n, h);
    DivideBack(n, h, 0);
    assert n * h == (n - 1) * h + h;
  }

  lemma {:induction false} StreamFails(f: nat -> Option<seq<octet>>, start: nat, n: nat)
    ensures Stream(f, start, n).Some? <==> forall i | 0 <= i < n :: f(CounterOf(start, i)).Some?
  {
    hide Wrap;
    if n > 0 {
      StreamFails(f, start, n - 1);
      assert CounterOf(start, n - 1) == Wrap(start + n);
    }
  }

  lemma MaskedStreamOctet(f: nat -> Option<seq<octet>>, h: nat, start: nat, wanted: nat, bits: nat, k: nat)
    requires Sized(f, h)
    ensures var key := MaskedStream(f, start, Blocks(wanted, h), bits); var d := f(Wrap(start + 1 + k / h));
            key.Some? && k < |key.value| ==> d.Some? && KeyOctet(key.value, k, d.value, h, bits)
  {
    hide Blocks, Stream, Wrap, Masked, Power2;
    var n := Blocks(wanted, h);
    StreamSize(f, h, start, n);
    var s := Stream(f, start, n);
    if s.Some? && k < |s.value| {
      StreamOctet(f, h, start, n, k);
      MaskedOctet(s.value, bits, k);
      FirstOfDigest(h);
    }
  }

  lemma FirstOfDigest(h: nat)
    requires h > 0
    ensures 0 % h == 0
  {}

  lemma MaskedOctet(s: seq<octet>, bits: nat, k: nat)
    requires k < |s|
    ensures if k == 0 && bits % 8 != 0 then Masked(s, bits)[0] as nat == s[0] as nat % Power2(bits % 8)
            else Masked(s, bits)[k] == s[k]
  {
    hide LowMask, Num, Power2;
    if bits % 8 != 0 {
      MaskOctet(s[0], bits % 8);
      NumIsValue(s[0]);
      NumIsValue(s[0] & LowMask(bits % 8));
    }
  }

  lemma WantedIs(h: nat, bits: nat, useDigestSize: bool)
    ensures Wanted(h, bits, useDigestSize) == if useDigestSize then h else (bits + 7) % 0x1_0000_0000 / 8
    ensures OctetsOf(bits) == (bits + 7) % 0x1_0000_0000 / 8
  {}

  lemma KdfaParts(n: nat, purpose: Option<seq<octet>>, u: seq<octet>, v: seq<octet>, bits: nat)
    ensures KdfaMessage(n, purpose, u, v, bits)
         == Marshal32(n) + (if purpose.Some? then purpose.value + [0] else []) + u + v + Marshal32(bits)
  {
    hide Marshal32;
  }

  lemma KdfeParts(n: nat, z: Option<seq<octet>>, purpose: Option<seq<octet>>,
                  u: Option<seq<octet>>, v: Option<seq<octet>>)
    ensures KdfeMessage(n, z, purpose, u, v)
         == Marshal32(n) + (if z.Some? then z.value else []) + (if purpose.Some? then purpose.value + [0] else [])
            + (if u.Some? then u.value else []) + (if v.Some? then v.value else [])
  {
    hide Marshal32;
  }

  /** KDFa is counter mode of section 5.1 of NIST SP 800-108, from any counter and for any bit length:
      octet `k` of the key comes from the HMAC of counter `start + 1 + k / h`, label with its zero octet,
      both contexts and bit length. */
  lemma KdfaIsCounterMode(c: Crypto, alg: Alg, key: seq<octet>, purpose: Option<seq<octet>>, u: seq<octet>,
                          v: seq<octet>, bits: nat, start: nat, useDigestSize: bool, h: nat, k: nat)
    requires Exact(c) && DigestSize(alg) == Some(h)
    ensures var d := KdfaKey(c, alg, key, purpose, u, v, bits, start, useDigestSize);
            d.Some? ==>
              && FewestDigests(|d.value|, if useDigestSize then h else (bits + 7) % 0x1_0000_0000 / 8, h)
              && (k < |d.value| ==>
                    var e := c.mac(alg, key, Marshal32((start + 1 + k / h) % 0x1_0000_0000)
                                             + (if purpose.Some? then purpose.value + [0] else [])
                                             + u + v + Marshal32(bits));
                    e.Some? && KeyOctet(d.value, k, e.value, h, bits))
  {
    hide Stream, Blocks, DigestSize, MacAt, MaskedStream, KeyOctet, FewestDigests, KdfaMessage, Wanted, Sized;
    hide KdfaKey, Marshal32;
    DigestSizes(alg);
    WantedIs(h, bits, useDigestSize);
    var n := Wrap(start + 1 + k / h);
    KdfaParts(n, purpose, u, v, bits);
    var f := MacAt(c, alg, key, purpose, u, v, bits);
    KdfaKeyIs(c, alg, key, purpose, u, v, bits, start, useDigestSize, h);
    MacAtSized(c, alg, key, purpose, u, v, bits);
    MaskedStreamIs(f, h, start, Wanted(h, bits, useDigestSize), bits);
    MaskedStreamOctet(f, h, start, Wanted(h, bits, useDigestSize), bits, k);
    MacAtIs(c, alg, key, purpose, u, v, bits, n);
  }

  lemma KdfaKeyIs(c: Crypto, alg: Alg, key: seq<octet>, purpose: Option<seq<octet>>, u: seq<octet>,
                  v: seq<octet>, bits: nat, start: nat, useDigestSize: bool, h: nat)
    requires DigestSize(alg) == Some(h) && h > 0
    ensures KdfaKey(c, alg, key, purpose, u, v, bits, start, useDigestSize)
         == MaskedStream(MacAt(c, alg, key, purpose, u, v, bits), start, Blocks(Wanted(h, bits, useDigestSize), h),
                         bits)
  {
    hide MaskedStream, MacAt, Blocks, Wanted;
  }

  /** It fails exactly when the HMAC fails for one of the counters it takes. */
  lemma KdfaFailsExactly(c: Crypto, alg: Alg, key: seq<octet>, purpose: Option<seq<octet>>, u: seq<octet>,
                         v: seq<octet>, bits: nat, start: nat, useDigestSize: bool, h: nat)
    requires Exact(c) && DigestSize(alg) == Some(h) && h > 0
    ensures KdfaKey(c, alg, key, purpose, u, v, bits, start, useDigestSize).Some?
       <==> forall i | 0 <= i < Blocks(Wanted(h, bits, useDigestSize), h) ::
              c.mac(alg, key, KdfaMessage(CounterOf(start, i), purpose, u, v, bits)).Some?
  {
    hide Stream, Blocks, DigestSize, MacAt, KdfaMessage, MaskedStream, CounterOf;
    var f := MacAt(c, alg, key, purpose, u, v, bits);
    MacAtSized(c, alg, key, purpose, u, v, bits);
    MaskedStreamIs(f, h, start, Wanted(h, bits, useDigestSize), bits);
    forall i: nat
      ensures f(CounterOf(start, i)) == c.mac(alg, key, KdfaMessage(CounterOf(start, i), purpose, u, v, bits))
    {
      MacAtIs(c, alg, key, purpose, u, v, bits, CounterOf(start, i));
    }
  }

  /** And KDFe when the hash does. */
  lemma KdfeFailsExactly(c: Crypto, alg: Alg, z: Option<seq<octet>>, purpose: Option<seq<octet>>,
                         u: Option<seq<octet>>, v: Option<seq<octet>>, bits: nat, h: nat)
    requires Exact(c) && DigestSize(alg) == Some(h) && h > 0
    ensures KdfeKey(c, alg, z, purpose, u, v, bits).Some?
       <==> forall i | 0 <= i < Blocks(OctetsOf(bits), h) ::
              c.hash(alg, KdfeMessage(CounterOf(0, i), z, purpose, u, v)).Some?
  {
    hide Stream, Blocks, DigestSize, HashAt, KdfeMessage, MaskedStream, CounterOf;
    var f := HashAt(c, alg, z, purpose, u, v);
    HashAtSized(c, alg, z, purpose, u, v);
    MaskedStreamIs(f, h, 0, OctetsOf(bits), bits);
    forall i: nat
      ensures f(CounterOf(0, i)) == c.hash(alg, KdfeMessage(CounterOf(0, i), z, purpose, u, v))
    {
      HashAtIs(c, alg, z, purpose, u, v, CounterOf(0, i));
    }
  }

  /** KDFe from counter 1: octet `k` of the key comes from the hash of counter `1 + k / h`, secret, label
      with its zero octet and both parties; a part that is missing adds nothing. */
  lemma KdfeIsCounterMode(c: Crypto, alg: Alg, z: Option<seq<octet>>, purpose: Option<seq<octet>>,
                          u: Option<seq<octet>>, v: Option<seq<octet>>, bits: nat, h: nat, k: nat)
    requires Exact(c) && DigestSize(alg) == Some(h)
    ensures var d := KdfeKey(c, alg, z, purpose, u, v, bits);
            d.Some? ==>
              && FewestDigests(|d.value|, (bits + 7) % 0x1_0000_0000 / 8, h)
              && (k < |d.value| ==>
                    var e := c.hash(alg, Marshal32((1 + k / h) % 0x1_0000_0000)
                                         + (if z.Some? then z.value else [])
                                         + (if purpose.Some? then purpose.value + [0] else [])
                                         + (if u.Some? then u.value else [])
                                         + (if v.Some? then v.value else []));
                    e.Some? && KeyOctet(d.value, k, e.value, h, bits))
  {
    hide Stream, Blocks, DigestSize, HashAt, MaskedStream, KeyOctet, FewestDigests, KdfeMessage, OctetsOf, Sized;
    hide KdfeKey, Marshal32;
    DigestSizes(alg);
    WantedIs(h, bits, false);
    var n := Wrap(0 + 1 + k / h);
    KdfeParts(n, z, purpose, u, v);
    var f := HashAt(c, alg, z, purpose, u, v);
    KdfeKeyIs(c, alg, z, purpose, u, v, bits, h);
    HashAtSized(c, alg, z, purpose, u, v);
    MaskedStreamIs(f, h, 0, OctetsOf(bits), bits);
    MaskedStreamOctet(f, h, 0, OctetsOf(bits), bits, k);
    HashAtIs(c, alg, z, purpose, u, v, n);
  }

  lemma KdfeKeyIs(c: Crypto, alg: Alg, z: Option<seq<octet>>, purpose: Option<seq<octet>>,
                  u: Option<seq<octet>>, v: Option<seq<octet>>, bits: nat, h: nat)
    requires DigestSize(alg) == Some(h) && h > 0
    ensures KdfeKey(c, alg, z, purpose, u, v, bits)
         == MaskedStream(HashAt(c, alg, z, purpose, u, v), 0, Blocks(OctetsOf(bits), h), bits)
  {
    hide MaskedStream, HashAt, Blocks, OctetsOf;
  }

  /** With nothing missing, digest `i` is that of the parts one behind the other. */
  lemma KdfeDigest(c: Crypto, alg: Alg, z: seq<octet>, purpose: seq<octet>, u: seq<octet>, v: seq<octet>,
                   bits: nat, h: nat, i: nat, at: nat, r: nat)
    requires Exact(c) && DigestSize(alg) == Some(h) && bits % 8 == 0
    requires at == i * h && r < h && i + 1 < 0x1_0000_0000
    ensures var d := KdfeKey(c, alg, Some(z), Some(purpose), Some(u), Some(v), bits);
            d.Some? && at + r < |d.value| ==>
              var e := c.hash(alg, Marshal32(i + 1) + z + purpose + [0] + u + v);
              e.Some? && |e.value| == h && d.value[at + r] == e.value[r]
  {
    hide Marshal32, KdfeKey, FewestDigests, DigestSize;
    KdfeIsCounterMode(c, alg, Some(z), Some(purpose), Some(u), Some(v), bits, h, at + r);
    DivideBack(i, h, r);
    assert Marshal32(i + 1) + z + (purpose + [0]) + u + v == Marshal32(i + 1) + z + purpose + [0] + u + v;
  }
}
