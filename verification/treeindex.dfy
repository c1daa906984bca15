/** Octree coordinates of the layout generator (gentree/TreeIndex.cpp and
    `deinterleave` in gentree/WriteBlock.cpp). A point's coordinate is the
    Morton interleave of its three 20-bit grid coordinates: bit `3k + a` of
    the coordinate is bit `k` of axis `a`. Shifts and masks on unsigned
    integers are written as multiplication, division and remainder by powers
    of two. */
module TreeIndex {
  /** `NBITS`: bits per lookup-table index. */
  const NBits: nat := 10
  /** `NSIZE`: entries of the lookup table. */
  const NSize: nat := 1024
  /** Grid cells per axis, `NSIZE * NSIZE`. */
  const GridSize: nat := 1048576

  function Pow2(n: nat): (r: nat)
    ensures r > 0
  {
    if n == 0 then 1 else 2 * Pow2(n - 1)
  }

  function Pow8(n: nat): (r: nat)
    ensures r > 0
  {
    if n == 0 then 1 else 8 * Pow8(n - 1)
  }

  lemma MulAtLeast(k: int, d: int)
    requires k >= 1 && d > 0
    ensures k * d >= d
  {
  }

  /** Quotient and remainder are determined by `x == q * d + r`, `0 <= r < d`. */
  lemma DivModUnique(x: int, d: int, q: int, r: int)
    requires d > 0 && x == q * d + r && 0 <= r < d
    ensures x / d == q && x % d == r
  {
    var q0, r0 := x / d, x % d;
    assert (q - q0) * d == r0 - r;
    if q > q0 {
      MulAtLeast(q - q0, d);
    } else if q < q0 {
      MulAtLeast(q0 - q, d);
    }
  }

  lemma ModSplit2(x: nat, p: nat)
    requires p > 0
    ensures x % (2 * p) == x % 2 + 2 * ((x / 2) % p)
  {
    var q := (x / 2) / p;
    var r := (x / 2) % p;
    assert x == q * (2 * p) + (2 * r + x % 2);
    DivModUnique(x, 2 * p, q, 2 * r + x % 2);
  }

  /** Bit `k` of `x`. */
  function Bit(x: nat, k: nat): (b: nat)
    ensures b < 2
  {
    if k == 0 then x % 2 else Bit(x / 2, k - 1)
  }

  lemma BitDiv8(v: nat, k: nat)
    ensures Bit(v, k + 3) == Bit(v / 8, k)
  {
    assert Bit(v, k + 3) == Bit(v / 2, k + 2) == Bit(v / 2 / 2, k + 1) == Bit(v / 2 / 2 / 2, k);
    assert v / 2 / 2 / 2 == v / 8;
  }

  lemma {:induction false} BitOfZero(k: nat)
    ensures Bit(0, k) == 0
  {
    if k > 0 {
      BitOfZero(k - 1);
    }
  }

  /** The binary digits of `x` spread three apart: bit `b` of `x` becomes
      bit `3b` of the result, all other bits are clear (1101 -> 1001000001). */
  function Spread(x: nat): nat
    decreases x
  {
    if x == 0 then 0 else x % 2 + 8 * Spread(x / 2)
  }

  lemma SpreadStep(x: nat)
    ensures Spread(x) == x % 2 + 8 * Spread(x / 2)
  {
  }

  /** The inverse direction: the `n` bits at positions `0, 3, 6, ...` of `x`
      packed together. */
  function CompactN(x: nat, n: nat): nat {
    if n == 0 then 0 else x % 2 + 2 * CompactN(x / 8, n - 1)
  }

  /** Three coordinates interleaved: `x` on bits `3k`, `y` on `3k + 1`, `z` on
      `3k + 2`. */
  function Interleave3(x: nat, y: nat, z: nat): nat {
    Spread(x) + 2 * Spread(y) + 4 * Spread(z)
  }

  /** The three low binary digits of `b0 + 2 b1 + 4 b2 + 8 j`. */
  lemma LowDigits(i: nat, j: nat, b0: nat, b1: nat, b2: nat)
    requires b0 < 2 && b1 < 2 && b2 < 2 && i == b0 + 2 * b1 + 4 * b2 + 8 * j
    ensures i % 2 == b0 && (i / 2) % 2 == b1 && (i / 2 / 2) % 2 == b2
    ensures i / 8 == j && (i / 2) / 8 == j / 2 && (i / 4) / 8 == j / 4
  {
    assert i / 2 == b1 + 2 * b2 + 4 * j;
    assert i / 2 / 2 == b2 + 2 * j;
  }

  lemma InterleaveStep(x: nat, y: nat, z: nat)
    ensures Interleave3(x, y, z) == (x % 2 + 2 * (y % 2) + 4 * (z % 2)) + 8 * Interleave3(x / 2, y / 2, z / 2)
    ensures Interleave3(x, y, z) / 8 == Interleave3(x / 2, y / 2, z / 2)
    ensures Interleave3(x, y, z) / 2 / 8 == Interleave3(x / 2, y / 2, z / 2) / 2
    ensures Interleave3(x, y, z) / 4 / 8 == Interleave3(x / 2, y / 2, z / 2) / 4
    ensures Interleave3(x, y, z) % 2 == x % 2
    ensures (Interleave3(x, y, z) / 2) % 2 == y % 2
    ensures (Interleave3(x, y, z) / 2 / 2) % 2 == z % 2
  {
    SpreadStep(x);
    SpreadStep(y);
    SpreadStep(z);
    LowDigits(Interleave3(x, y, z), Interleave3(x / 2, y / 2, z / 2), x % 2, y % 2, z % 2);
  }

  /** The axis `a` of a coordinate triple. */
  function Axis(x: nat, y: nat, z: nat, a: nat): nat
    requires a < 3
  {
    if a == 0 then x else if a == 1 then y else z
  }

  /** The three lowest bits of an interleave are the axes' lowest bits. */
  lemma InterleaveLowBits(x: nat, y: nat, z: nat, a: nat)
    requires a < 3
    ensures Bit(Interleave3(x, y, z), a) == Axis(x, y, z, a) % 2
  {
    var i := Interleave3(x, y, z);
    InterleaveStep(x, y, z);
    assert Bit(i, 1) == (i / 2) % 2;
    assert Bit(i, 2) == Bit(i / 2, 1) == (i / 2 / 2) % 2;
  }

  /** Bit `3k + a` of the interleave is bit `k` of axis `a`. */
  lemma {:induction false} InterleaveBit(x: nat, y: nat, z: nat, k: nat, a: nat)
    requires a < 3
    ensures Bit(Interleave3(x, y, z), 3 * k + a) == Bit(Axis(x, y, z, a), k)
  {
    if k == 0 {
      InterleaveLowBits(x, y, z, a);
    } else {
      var i := Interleave3(x, y, z);
      InterleaveStep(x, y, z);
      BitDiv8(i, 3 * (k - 1) + a);
      assert 3 * (k - 1) + a + 3 == 3 * k + a;
      InterleaveBit(x / 2, y / 2, z / 2, k - 1, a);
      assert Axis(x / 2, y / 2, z / 2, a) == Axis(x, y, z, a) / 2;
    }
  }

  /** Spreading keeps bit `b` at bit `3b` and leaves the bits in between clear. */
  lemma SpreadBits(x: nat, b: nat)
    ensures Bit(Spread(x), 3 * b) == Bit(x, b)
    ensures Bit(Spread(x), 3 * b + 1) == 0 && Bit(Spread(x), 3 * b + 2) == 0
  {
    assert Interleave3(x, 0, 0) == Spread(x);
    InterleaveBit(x, 0, 0, b, 0);
    InterleaveBit(x, 0, 0, b, 1);
    InterleaveBit(x, 0, 0, b, 2);
    BitOfZero(b);
  }

  /** The interleave seen from axis `a`: shifted down by `a` bits. */
  function Shifted(i: nat, a: nat): nat
    requires a < 3
  {
    if a == 0 then i else if a == 1 then i / 2 else i / 4
  }

  /** Packing the every-third bits of an interleave, seen from axis `a`,
      recovers that axis's low `n` bits. */
  lemma {:induction false} CompactInterleave(x: nat, y: nat, z: nat, n: nat, a: nat)
    requires a < 3
    ensures CompactN(Shifted(Interleave3(x, y, z), a), n) == Axis(x, y, z, a) % Pow2(n)
  {
    if n > 0 {
      ShiftedStep(x, y, z, a);
      CompactInterleave(x / 2, y / 2, z / 2, n - 1, a);
      CompactStep(Shifted(Interleave3(x, y, z), a), Shifted(Interleave3(x / 2, y / 2, z / 2), a), Axis(x, y, z, a), n);
    }
  }

  /** The interleave seen from axis `a` carries that axis's low bit at the
      bottom, and the rest of it three bits up. */
  lemma ShiftedStep(x: nat, y: nat, z: nat, a: nat)
    requires a < 3
    ensures Shifted(Interleave3(x, y, z), a) % 2 == Axis(x, y, z, a) % 2
    ensures Shifted(Interleave3(x, y, z), a) / 8 == Shifted(Interleave3(x / 2, y / 2, z / 2), a)
    ensures Axis(x / 2, y / 2, z / 2, a) == Axis(x, y, z, a) / 2
  {
    InterleaveStep(x, y, z);
    var v := Interleave3(x, y, z);
    assert v / 2 / 2 == v / 4;
  }

  /** One digit of `CompactN`: a low bit and the packed rest make the low
      `n` bits of `c`. */
  lemma CompactStep(v: nat, w: nat, c: nat, n: nat)
    requires n > 0 && v % 2 == c % 2 && v / 8 == w
    requires CompactN(w, n - 1) == (c / 2) % Pow2(n - 1)
    ensures CompactN(v, n) == c % Pow2(n)
  {
    ModSplit2(c, Pow2(n - 1));
  }

  /** Spreading is injective. */
  lemma SpreadInjective(i: nat, j: nat, n: nat)
    requires i < Pow2(n) && j < Pow2(n) && Spread(i) == Spread(j)
    ensures i == j
  {
    assert Interleave3(i, 0, 0) == Spread(i) && Interleave3(j, 0, 0) == Spread(j);
    CompactInterleave(i, 0, 0, n, 0);
    CompactInterleave(j, 0, 0, n, 0);
    DivModUnique(i, Pow2(n), 0, i);
    DivModUnique(j, Pow2(n), 0, j);
  }

  /** The new half of the table: setting bit `n` of the index adds `8^n`,
      that is `1 << (3 * n)`. */
  lemma {:induction false} SpreadHigh(i: nat, n: nat)
    requires i < Pow2(n)
    ensures Spread(i + Pow2(n)) == Spread(i) + Pow8(n)
  {
    SpreadStep(i + Pow2(n));
    if n > 0 {
      assert (i + Pow2(n)) / 2 == i / 2 + Pow2(n - 1);
      SpreadHigh(i / 2, n - 1);
    }
  }

  /** A spread `n`-bit number is below `8^n`, with room for the other two
      axes: `7 * Spread(x) <= 8^n - 1`. */
  lemma {:induction false} SpreadBound(x: nat, n: nat)
    requires x < Pow2(n)
    ensures 7 * Spread(x) < Pow8(n)
  {
    SpreadStep(x);
    if n > 0 {
      SpreadBound(x / 2, n - 1);
    }
  }

  lemma MulAssoc8(a: nat, b: nat)
    ensures 8 * (a * b) == a * (8 * b)
  {
  }

  /** Spreading the high and low parts of a number separately: for
      `x == q * 2^n + r` with `r < 2^n`, the spread of `x` is the spread of
      `q` shifted up by `3n` bits plus the spread of `r`. */
  lemma {:induction false} SpreadSplit(x: nat, n: nat, q: nat, r: nat)
    requires r < Pow2(n) && x == q * Pow2(n) + r
    ensures Spread(x) == Spread(q) * Pow8(n) + Spread(r)
  {
    if n == 0 {
      assert r == 0 && x == q;
    } else {
      var p, e := Pow2(n - 1), Pow8(n - 1);
      var t := q * p;
      assert x == 2 * t + r;
      assert x / 2 == t + r / 2 && x % 2 == r % 2;
      SpreadSplit(x / 2, n - 1, q, r / 2);
      var sq := Spread(q);
      assert Spread(x / 2) == sq * e + Spread(r / 2);
      SpreadStep(x);
      SpreadStep(r);
      assert Spread(x) == Spread(r) + 8 * (sq * e);
      MulAssoc8(sq, e);
    }
  }

  lemma Pow2Ten()
    ensures Pow2(10) == NSize
  {
    assert Pow2(5) == 32;
  }

  lemma Pow2Sixteen()
    ensures Pow2(16) == 65536
  {
    Pow2Ten();
    assert Pow2(16) == 64 * Pow2(10);
  }

  lemma Pow2Values()
    ensures Pow2(10) == NSize && Pow2(16) == 65536 && Pow2(20) == GridSize && Pow2(30) == 1073741824 && Pow2(60) == 1152921504606846976
  {
    assert Pow2(10) == 1024 by {
      assert Pow2(5) == 32;
    }
    assert Pow2(20) == Pow2(10) * Pow2(10) by {
      Pow2Add(10, 10);
    }
    assert Pow2(16) == 65536 by {
      Pow2Add(10, 6);
      assert Pow2(6) == 64;
    }
    Pow2Add(20, 10);
    Pow2Add(30, 30);
  }

  lemma {:induction false} Pow2Add(a: nat, b: nat)
    ensures Pow2(a + b) == Pow2(a) * Pow2(b)
  {
    if b > 0 {
      Pow2Add(a, b - 1);
    }
  }

  lemma {:induction false} Pow8IsPow2(n: nat)
    ensures Pow8(n) == Pow2(3 * n)
  {
    if n > 0 {
      Pow8IsPow2(n - 1);
      var m := 3 * (n - 1);
      assert 3 * n == m + 3;
      assert Pow2(m + 3) == 2 * Pow2(m + 2) == 4 * Pow2(m + 1) == 8 * Pow2(m);
    }
  }

  /** The lookup table `BuildTreeLookup` fills: entry `i` is `i` spread. */
  predicate IsTreeLookup(lookup: seq<nat>) {
    |lookup| == NSize && forall i | 0 <= i < NSize :: lookup[i] == Spread(i)
  }

  /** Every entry of `s` plus `step`. */
  function Raised(s: seq<nat>, step: nat): (r: seq<nat>)
    ensures |r| == |s|
  {
    seq(|s|, j requires 0 <= j < |s| => s[j] + step)
  }

  /** One doubling step of `BuildTreeLookup`: the table of the `2^n`
      spreads, followed by each entry plus `8^n`, is the table of the
      `2^(n+1)` spreads. */
  lemma DoubleTable(lookup: seq<nat>, n: nat, next: seq<nat>)
    requires |lookup| == Pow2(n) && forall i | 0 <= i < |lookup| :: lookup[i] == Spread(i)
    requires next == lookup + Raised(lookup, Pow8(n))
    ensures |next| == Pow2(n + 1) && forall i | 0 <= i < |next| :: next[i] == Spread(i)
  {
    var cur := |lookup|;
    forall j | 0 <= j < 2 * cur
      ensures next[j] == Spread(j)
    {
      if j < cur {
        assert next[j] == lookup[j];
      } else {
        var k := j - cur;
        assert next[j] == Raised(lookup, Pow8(n))[k] == lookup[k] + Pow8(n);
        SpreadHigh(k, n);
      }
    }
  }

  /** `BuildTreeLookup`: starts from `lookup[0] = 0` and doubles the filled
      prefix `NBITS` times, the upper half being the lower half plus
      `1 << (3 * n)`. */
  method BuildTreeLookup() returns (lookup: seq<nat>)
    ensures IsTreeLookup(lookup)
  {
    var cur: nat := 1;
    lookup := [0];
    var n: nat := 0;
    while n < NBits
      invariant n <= NBits
      invariant cur == Pow2(n) && |lookup| == cur
      invariant forall i | 0 <= i < cur :: lookup[i] == Spread(i)
    {
      var next := lookup + Raised(lookup, Pow8(n));
      DoubleTable(lookup, n, next);
      lookup := next;
      cur := cur * 2;
      n := n + 1;
    }
    Pow2Ten();
  }

  /** What the table promises: entry 0 is 0, entries are below `2^30`,
      distinct, and entry `i` has bit `3b` set exactly when bit `b` of `i`
      is set, with the bits in between clear. */
  lemma TreeLookupFacts(lookup: seq<nat>, i: nat, j: nat, b: nat)
    requires IsTreeLookup(lookup) && i < NSize && j < NSize
    ensures lookup[0] == 0
    ensures lookup[i] < Pow2(30)
    ensures lookup[i] == lookup[j] ==> i == j
    ensures Bit(lookup[i], 3 * b) == Bit(i, b)
    ensures Bit(lookup[i], 3 * b + 1) == 0 && Bit(lookup[i], 3 * b + 2) == 0
  {
    Pow2Values();
    SpreadBound(i, 10);
    Pow8IsPow2(10);
    if lookup[i] == lookup[j] {
      SpreadInjective(i, j, 10);
    }
    SpreadBits(i, b);
  }

  /** One axis of `GetCoord` after scaling: clamped to `[0, NSIZE² - 1]` and
      truncated to an integer grid cell. */
  function GridOf(v: real): (g: nat)
    ensures g < GridSize
    ensures v < 0.0 ==> g == 0
    ensures v >= GridSize as real ==> g == GridSize - 1
    ensures 0.0 <= v < GridSize as real ==> g as real <= v < g as real + 1.0
  {
    if v < 0.0 then 0
    else if v >= GridSize as real then GridSize - 1
    else v.Floor
  }

  /** `GetCoord` on coordinates already scaled by `NSIZE²`: each axis is
      clamped and truncated, its high and low ten bits are looked up, the
      high parts are combined and shifted up by thirty bits (`NBITS * 3`),
      and the low parts added below; 1024 is `NSIZE`. */
  function GetCoord(lookup: seq<nat>, x: real, y: real, z: real): (c: nat)
    requires IsTreeLookup(lookup)
  {
    var gx, gy, gz := GridOf(x), GridOf(y), GridOf(z);
    var hi := lookup[gx / 1024] + 2 * lookup[gy / 1024] + 4 * lookup[gz / 1024];
    hi * 1073741824 + lookup[gx % 1024] + 2 * lookup[gy % 1024] + 4 * lookup[gz % 1024]
  }

  /** The two table lookups per axis compute the full 20-bit interleave of
      the grid cells, so the coordinate fits in 60 bits and bit `3k + a` is
      bit `k` of axis `a`. */
  lemma GetCoordInterleaves(lookup: seq<nat>, x: real, y: real, z: real, k: nat, a: nat)
    requires IsTreeLookup(lookup) && a < 3
    ensures GetCoord(lookup, x, y, z) == Interleave3(GridOf(x), GridOf(y), GridOf(z))
    ensures GetCoord(lookup, x, y, z) < Pow2(60)
    ensures Bit(GetCoord(lookup, x, y, z), 3 * k + a) == Bit(Axis(GridOf(x), GridOf(y), GridOf(z), a), k)
  {
    var gx, gy, gz := GridOf(x), GridOf(y), GridOf(z);
    assert GetCoord(lookup, x, y, z) == Interleave3(gx, gy, gz) by {
      LookupAxis(lookup, gx);
      LookupAxis(lookup, gy);
      LookupAxis(lookup, gz);
    }
    InterleaveBelow(gx, gy, gz);
    InterleaveBit(gx, gy, gz, k, a);
  }

  /** The two lookups of one axis, recombined, give the axis's spread. */
  lemma LookupAxis(lookup: seq<nat>, g: nat)
    requires IsTreeLookup(lookup) && g < GridSize
    ensures g / 1024 < NSize && g % 1024 < NSize
    ensures lookup[g / 1024] * 1073741824 + lookup[g % 1024] == Spread(g)
  {
    SplitAxis(g);
  }

  /** A grid cell's spread is its high ten bits' spread shifted up by
      thirty bits plus its low ten bits' spread. */
  lemma SplitAxis(g: nat)
    requires g < GridSize
    ensures Spread(g) == Spread(g / 1024) * 1073741824 + Spread(g % 1024)
  {
    Pow2Values();
    Pow8IsPow2(10);
    SpreadSplit(g, 10, g / 1024, g % 1024);
  }

  /** The interleave of three grid cells fits in sixty bits. */
  lemma InterleaveBelow(x: nat, y: nat, z: nat)
    requires x < GridSize && y < GridSize && z < GridSize
    ensures Interleave3(x, y, z) < Pow2(60)
  {
    Pow2Values();
    SpreadBound(x, 20);
    SpreadBound(y, 20);
    SpreadBound(z, 20);
    Pow8IsPow2(20);
  }

  /** What `deinterleave(block, pos)` leaves in `pos`: the twelve low bits
      dropped, then every third bit packed into each axis, sixteen bits
      each. */
  function Deinterleaved(block: nat): (pos: seq<nat>)
    ensures |pos| == 3 && forall a | 0 <= a < 3 :: pos[a] < 65536
  {
    var b := block / 4096;
    CompactBound(b, 16);
    CompactBound(b / 2, 16);
    CompactBound(b / 4, 16);
    Pow2Sixteen();
    [CompactN(b, 16), CompactN(b / 2, 16), CompactN(b / 4, 16)]
  }

  /** Packing `n` digits gives an `n`-bit value. */
  lemma {:induction false} CompactBound(x: nat, n: nat)
    ensures CompactN(x, n) < Pow2(n)
  {
    if n > 0 {
      CompactBound(x / 8, n - 1);
    }
  }

  /** `deinterleave`: drops twelve bits, then sixteen times takes one bit
      for each axis in turn, setting bit `i` of that axis. The bit is clear
      before it is or-ed in, so the or is an addition. */
  method Deinterleave(block: nat) returns (pos: seq<nat>)
    ensures pos == Deinterleaved(block)
    ensures forall a | 0 <= a < 3 :: pos[a] < 65536
  {
    var p0: nat, p1: nat, p2: nat := 0, 0, 0;
    var b: nat := block / 4096;
    ghost var top := b;
    var i := 0;
    var bit: nat := 1;
    while i < 16
      invariant i <= 16 && bit == Pow2(i)
      invariant p0 < bit && p1 < bit && p2 < bit
      invariant p0 + bit * CompactN(b, 16 - i) == CompactN(top, 16)
      invariant p1 + bit * CompactN(b / 2, 16 - i) == CompactN(top / 2, 16)
      invariant p2 + bit * CompactN(b / 4, 16 - i) == CompactN(top / 4, 16)
    {
      TakeBits(p0, p1, p2, bit, b, 16 - i, CompactN(top, 16), CompactN(top / 2, 16), CompactN(top / 4, 16));
      p0, p1, p2 := OrBit(p0, bit, b), OrBit(p1, bit, b / 2), OrBit(p2, bit, b / 4);
      b := b / 8;
      assert 2 * bit == Pow2(i + 1);
      i := i + 1;
      bit := 2 * bit;
    }
    PackedDone(p0, bit, b, CompactN(top, 16));
    PackedDone(p1, bit, b / 2, CompactN(top / 2, 16));
    PackedDone(p2, bit, b / 4, CompactN(top / 4, 16));
    Pow2Sixteen();
    pos := [p0, p1, p2];
  }

  /** One round of `deinterleave` for all three axes. */
  lemma TakeBits(p0: nat, p1: nat, p2: nat, bit: nat, b: nat, m: nat, t0: nat, t1: nat, t2: nat)
    requires m > 0 && p0 < bit && p1 < bit && p2 < bit
    requires p0 + bit * CompactN(b, m) == t0
    requires p1 + bit * CompactN(b / 2, m) == t1
    requires p2 + bit * CompactN(b / 4, m) == t2
    ensures OrBit(p0, bit, b) < 2 * bit && OrBit(p1, bit, b / 2) < 2 * bit && OrBit(p2, bit, b / 4) < 2 * bit
    ensures OrBit(p0, bit, b) + (2 * bit) * CompactN(b / 8, m - 1) == t0
    ensures OrBit(p1, bit, b / 2) + (2 * bit) * CompactN(b / 8 / 2, m - 1) == t1
    ensures OrBit(p2, bit, b / 4) + (2 * bit) * CompactN(b / 8 / 4, m - 1) == t2
  {
    TakeBit(p0, bit, b, m, t0);
    TakeBit(p1, bit, b / 2, m, t1);
    TakeBit(p2, bit, b / 4, m, t2);
    ShiftCommutes(b);
  }

  /** Once no digits are left to move, the output is the target. */
  lemma PackedDone(p: nat, bit: nat, c: nat, t: nat)
    requires p + bit * CompactN(c, 0) == t
    ensures p == t
  {
  }

  /** Shifting by one or two and then by three is shifting by three first. */
  lemma ShiftCommutes(c: nat)
    ensures (c / 2) / 8 == (c / 8) / 2 && (c / 4) / 8 == (c / 8) / 4
  {
    DivModUnique(c / 8, 2, (c / 2) / 8, (c / 8) % 2);
    DivModUnique(c / 8, 4, (c / 4) / 8, (c / 8) % 4);
  }

  /** `p | bit` when the low digit of `c` is set, else `p`; `bit` is clear
      in `p`, so the or is an addition. */
  function OrBit(p: nat, bit: nat, c: nat): nat {
    if c % 2 == 1 then p + bit else p
  }

  /** One round of `deinterleave` for one axis: or-ing in bit `c % 2` at
      position `bit` moves one packed digit from the input to the output. */
  lemma TakeBit(p: nat, bit: nat, c: nat, m: nat, target: nat)
    requires m > 0 && p < bit && p + bit * CompactN(c, m) == target
    ensures OrBit(p, bit, c) < 2 * bit
    ensures OrBit(p, bit, c) + (2 * bit) * CompactN(c / 8, m - 1) == target
  {
    var rest := CompactN(c / 8, m - 1);
    assert CompactN(c, m) == c % 2 + 2 * rest;
    if c % 2 == 1 {
      assert bit * (1 + 2 * rest) == bit + (2 * bit) * rest;
    } else {
      assert bit * (2 * rest) == (2 * bit) * rest;
    }
  }

  /** Dropping the twelve low bits of an interleave drops four bits of
      every axis. */
  lemma DropFourDigits(x: nat, y: nat, z: nat)
    ensures Interleave3(x, y, z) / 4096 == Interleave3(x / 16, y / 16, z / 16)
  {
    var v := Interleave3(x, y, z);
    var x1, y1, z1 := x / 2, y / 2, z / 2;
    var x2, y2, z2 := x1 / 2, y1 / 2, z1 / 2;
    var x3, y3, z3 := x2 / 2, y2 / 2, z2 / 2;
    InterleaveStep(x, y, z);
    InterleaveStep(x1, y1, z1);
    InterleaveStep(x2, y2, z2);
    InterleaveStep(x3, y3, z3);
    assert v / 4096 == v / 8 / 8 / 8 / 8 by {
      DivNest(v, 8, 8);
      DivNest(v, 64, 8);
      DivNest(v, 512, 8);
    }
    HalveFourTimes(x);
    HalveFourTimes(y);
    HalveFourTimes(z);
  }

  lemma HalveFourTimes(x: nat)
    ensures x / 2 / 2 / 2 / 2 == x / 16
  {
    DivNest(x, 2, 2);
    DivNest(x, 4, 2);
    DivNest(x, 8, 2);
  }

  /** Dividing by `d` and then by `e` is dividing by `d * e`. */
  lemma DivNest(x: nat, d: nat, e: nat)
    requires d > 0 && e > 0
    ensures x / d / e == x / (d * e)
  {
    var q, r := x / d / e, x / d % e;
    assert x / d == q * e + r;
    assert x == (q * e + r) * d + x % d;
    assert x == q * (d * e) + (r * d + x % d);
    assert r * d + x % d < d * e by {
      assert r <= e - 1;
      assert r * d <= (e - 1) * d;
    }
    DivModUnique(x, d * e, q, r * d + x % d);
  }

  /** Deinterleaving an unshifted coordinate of 20-bit grid cells gives each
      axis's cell divided by 16: the top sixteen of its twenty bits. */
  lemma DeinterleaveCoord(x: nat, y: nat, z: nat)
    requires x < GridSize && y < GridSize && z < GridSize
    ensures Deinterleaved(Interleave3(x, y, z)) == [x / 16, y / 16, z / 16]
  {
    DropFourDigits(x, y, z);
    CompactInterleave(x / 16, y / 16, z / 16, 16, 0);
    CompactInterleave(x / 16, y / 16, z / 16, 16, 1);
    CompactInterleave(x / 16, y / 16, z / 16, 16, 2);
    Pow2Sixteen();
    DivModUnique(x / 16, 65536, 0, x / 16);
    DivModUnique(y / 16, 65536, 0, y / 16);
    DivModUnique(z / 16, 65536, 0, z / 16);
  }

}
