/** Snapshot descriptors and the viewer's lookups over them (BlockManager.h
    `SnapInfo`, BlockManager.cpp `LoadSnapshots`, `GetSnapAt`,
    `GetBlockCoords`). Doubles are modelled as reals. */
module Snapshots {
  import opened Wrappers
  import opened Blocks
  import opened Formats

  /** Three reals, one per axis. */
  type Vec3 = v: seq<real> | |v| == 3 witness [0.0, 0.0, 0.0]

  /** A snapshot's info record: where its root block lives, its time (as
      log(a)) and its bounding box. */
  datatype SnapInfo = SnapInfo(
    snapnum: int,
    firstFile: int,
    firstLocation: nat,
    firstLength: nat,
    time: real,
    pos: Vec3,
    scale: Vec3)

  /** One field of a packed record: a 32-bit integer, a 64-bit unsigned
      integer or a double. */
  datatype Field = Int32(i: int) | UInt64(u: nat) | Double(d: real)

  /** The fields `BlockFile::Save` writes, in declaration order. */
  function BlockFileFields(bf: BlockFile): (r: seq<Field>)
    requires |bf.pos| == 3 && |bf.scale| == 3
    ensures |r| == 11
  {
    [Int32(bf.snapnum), Int32(bf.firstFile), UInt64(bf.firstLocation), UInt64(bf.firstLength),
     Double(bf.time), Double(bf.pos[0]), Double(bf.pos[1]), Double(bf.pos[2]),
     Double(bf.scale[0]), Double(bf.scale[1]), Double(bf.scale[2])]
  }

  /** The field kinds of a packed `SnapInfo`, in declaration order. */
  predicate SnapInfoShape(fs: seq<Field>) {
    && |fs| == 11
    && fs[0].Int32? && fs[1].Int32? && fs[2].UInt64? && fs[3].UInt64?
    && forall k | 4 <= k < 11 :: fs[k].Double?
  }

  /** `loadSnapHeader` reading a record into a `SnapInfo`: the fields are
      taken in `SnapInfo`'s declaration order; a record of another shape is
      not a `SnapInfo`. */
  function ReadSnapInfo(fs: seq<Field>): (r: Option<SnapInfo>)
    ensures r.Some? <==> SnapInfoShape(fs)
  {
    if SnapInfoShape(fs) then
      Some(SnapInfo(fs[0].i, fs[1].i, fs[2].u, fs[3].u, fs[4].d,
        [fs[5].d, fs[6].d, fs[7].d], [fs[8].d, fs[9].d, fs[10].d]))
    else None
  }

  /** A saved `BlockFile` reads back as a `SnapInfo` field for field: the two
      packed layouts agree. */
  lemma BlockFileReadsAsSnapInfo(bf: BlockFile)
    requires |bf.pos| == 3 && |bf.scale| == 3
    ensures ReadSnapInfo(BlockFileFields(bf))
      == Some(SnapInfo(bf.snapnum, bf.firstFile, bf.firstLocation, bf.firstLength, bf.time, bf.pos, bf.scale))
  {
    assert bf.pos == [bf.pos[0], bf.pos[1], bf.pos[2]];
    assert bf.scale == [bf.scale[0], bf.scale[1], bf.scale[2]];
  }

  /** C's `/` on ints, which truncates toward zero: the quotient of the
      magnitudes, negated when the signs differ. Its meaning for every sign:
      the remainder `a - r * b` is smaller than `b` in magnitude and is zero
      or has the sign of `a`. */
  function CDiv(a: int, b: int): (r: int)
    requires b != 0
    ensures var m := a - r * b;
      && Mag(m) < Mag(b)
      && (m == 0 || (m < 0) == (a < 0))
  {
    var q := Mag(a) / Mag(b);
    MagDivides(a, b, q);
    if (a < 0) == (b < 0) then q else -q
  }

  /** Absolute value. */
  function Mag(x: int): nat {
    if x < 0 then -x else x
  }

  lemma MagDivides(a: int, b: int, q: int)
    requires b != 0 && q == Mag(a) / Mag(b)
    ensures (a < 0) == (b < 0) ==> Mag(a - q * b) < Mag(b) && (a - q * b == 0 || (a - q * b < 0) == (a < 0))
    ensures (a < 0) != (b < 0) ==> Mag(a + q * b) < Mag(b) && (a + q * b == 0 || (a + q * b < 0) == (a < 0))
  {
    var A, B := Mag(a), Mag(b);
    var rem := A % B;
    assert A == q * B + rem && 0 <= rem < B;
    var qb := q * B;
    if b < 0 {
      assert q * b == -qb;
    } else {
      assert q * b == qb;
    }
    if a < 0 {
      assert a == -qb - rem;
    } else {
      assert a == qb + rem;
    }
  }

  /** Truncation pins the quotient down: any `q` whose remainder has the
      properties `CDiv` promises is `CDiv`'s result. */
  lemma {:induction false} CDivUnique(a: int, b: int, q: int)
    requires b != 0
    requires Mag(a - q * b) < Mag(b) && (a - q * b == 0 || (a - q * b < 0) == (a < 0))
    ensures q == CDiv(a, b)
  {
    var r := CDiv(a, b);
    var m, n := a - r * b, a - q * b;
    assert n - m == (r - q) * b;
    if r != q {
      assert Mag((r - q) * b) >= Mag(b) by {
        if r - q >= 1 || r - q <= -1 {
          MulMagAtLeast(r - q, b);
        }
      }
    }
  }

  lemma MulMagAtLeast(k: int, b: int)
    requires k != 0
    ensures Mag(k * b) >= Mag(b)
  {
    if k > 0 && b >= 0 { assert k * b >= 1 * b; }
    else if k > 0 { assert k * b <= 1 * b; }
    else if b >= 0 { assert k * b <= -1 * b; }
    else { assert k * b >= -1 * b; }
  }

  /** C truncates where Dafny's Euclidean division rounds down. */
  lemma CDivExamples()
    ensures CDiv(-6, -2) == 3 && CDiv(-6, 2) == -3 && CDiv(-5, -2) == 2
    ensures CDiv(-5, 2) == -2 && CDiv(5, -2) == -2 && CDiv(7, 2) == 3
  {
    CDivUnique(-6, -2, 3);
    CDivUnique(-6, 2, -3);
    CDivUnique(-5, -2, 2);
    CDivUnique(-5, 2, -2);
    CDivUnique(5, -2, -2);
    CDivUnique(7, 2, 3);
  }

  /** The number of snapshots the configuration selects:
      `(lastSnap - firstSnap) / interval + 1`, truncating. */
  function SnapCount(firstSnap: int, lastSnap: int, interval: int): (n: int)
    requires interval != 0
    ensures var m := (lastSnap - firstSnap) - (n - 1) * interval;
      Mag(m) < Mag(interval) && (m == 0 || (m < 0) == (lastSnap < firstSnap))
  {
    CDiv(lastSnap - firstSnap, interval) + 1
  }

  /** Path of snapshot `snap`'s info file under `dir`. */
  function InfoPath(dir: string, snap: int): string {
    dir + "/blocks_" + IntToString(snap) + "_info"
  }

  /** What `LoadSnapshots` leaves behind: the descriptors and one empty root
      slot per snapshot. */
  datatype Loaded = Loaded(snaps: seq<SnapInfo>, roots: seq<Option<NodeId>>)

  /** The numbers of the `n` selected snapshots: `first`, `first + interval`, ... */
  function SnapNums(first: int, interval: int, n: nat): (r: seq<int>)
    ensures |r| == n
    decreases n
  {
    if n == 0 then [] else [first] + SnapNums(first + interval, interval, n - 1)
  }

  lemma {:induction false} SnapNumsAreSteps(first: int, interval: int, n: nat)
    decreases n
    ensures forall i | 0 <= i < n :: SnapNums(first, interval, n)[i] == first + i * interval
  {
    if n > 0 {
      SnapNumsAreSteps(first + interval, interval, n - 1);
      forall i | 1 <= i < n
        ensures SnapNums(first, interval, n)[i] == first + i * interval
      {
        assert SnapNums(first, interval, n)[i] == SnapNums(first + interval, interval, n - 1)[i - 1];
        assert (first + interval) + (i - 1) * interval == first + i * interval by {
          assert (i - 1) * interval == i * interval - interval;
        }
      }
    }
  }

  /** Reads the info file of every snapshot in `nums` from `dir` (`files`
      maps a path to the record stored there, if any). Each record's
      `snapnum` is overwritten with the number it was loaded for. A missing
      file aborts the whole load. */
  function LoadInfos(files: string -> Option<SnapInfo>, dir: string, nums: seq<int>): (r: Option<seq<SnapInfo>>)
    ensures r.Some? <==> forall i | 0 <= i < |nums| :: files(InfoPath(dir, nums[i])).Some?
    ensures r.Some? ==> |r.value| == |nums| && forall i | 0 <= i < |nums| ::
      r.value[i] == files(InfoPath(dir, nums[i])).value.(snapnum := nums[i])
  {
    if nums == [] then Some([])
    else
      match files(InfoPath(dir, nums[0]))
      case None => None
      case Some(info) =>
        var rest := LoadInfos(files, dir, nums[1..]);
        if rest.None? then
          assert !forall i | 0 <= i < |nums| :: files(InfoPath(dir, nums[i])).Some? by {
            var j :| 0 <= j < |nums| - 1 && files(InfoPath(dir, nums[1..][j])).None?;
            assert nums[1..][j] == nums[j + 1];
          }
          None
        else
          Some([info.(snapnum := nums[0])] + rest.value)
  }

  /** `LoadSnapshots`: the snapshot count from the configuration, every info
      file loaded from the first directory, all roots unloaded. A negative
      count (an array of negative size) or a missing file is a failure. */
  function LoadSnapshots(files: string -> Option<SnapInfo>, dir0: string, firstSnap: int, lastSnap: int, interval: int): (r: Result<Loaded>)
    requires interval != 0
    ensures SnapCount(firstSnap, lastSnap, interval) < 0 ==> r.Failure?
    ensures SnapCount(firstSnap, lastSnap, interval) >= 0 ==>
      Loads(files, dir0, SnapNums(firstSnap, interval, SnapCount(firstSnap, lastSnap, interval)), r)
  {
    var n := SnapCount(firstSnap, lastSnap, interval);
    if n < 0 then Failure("negative snapshot count")
    else
      var nums := SnapNums(firstSnap, interval, n);
      match LoadInfos(files, dir0, nums)
      case None => Failure("snapshot info not found")
      case Some(snaps) => Success(Loaded(snaps, seq(n, _ => None)))
  }

  /** A descending range with a negative interval selects every step down
      to the last snapshot; the same range with a positive interval gives a
      negative count, and the load fails. */
  lemma DescendingRange(files: string -> Option<SnapInfo>, dir0: string)
    ensures SnapCount(10, 4, -2) == 4 && SnapNums(10, -2, 4) == [10, 8, 6, 4]
    ensures LoadSnapshots(files, dir0, 10, 4, 2).Failure?
  {
    CDivExamples();
    assert CDiv(-6, 2) == -3;
  }

  /** `r` is the outcome of loading the info files of snapshots `nums`: it
      succeeds exactly when every file is present, and then holds each file's
      record renumbered, and an empty root slot per snapshot. */
  predicate Loads(files: string -> Option<SnapInfo>, dir0: string, nums: seq<int>, r: Result<Loaded>) {
    && (r.Success? <==> forall i | 0 <= i < |nums| :: files(InfoPath(dir0, nums[i])).Some?)
    && (r.Success? ==>
        && |r.value.snaps| == |r.value.roots| == |nums|
        && (forall i | 0 <= i < |nums| :: r.value.roots[i] == None)
        && (forall i | 0 <= i < |nums| ::
              r.value.snaps[i] == files(InfoPath(dir0, nums[i])).value.(snapnum := nums[i])))
  }

  /** Snapshot times are ascending. */
  predicate Ascending(snaps: seq<SnapInfo>) {
    forall i, j | 0 <= i < j < |snaps| :: snaps[i].time <= snaps[j].time
  }

  /** `GetSnapAt(time)`: 0 before the first snapshot, otherwise one before the
      first later snapshot whose time exceeds `t`, or the last snapshot. */
  method GetSnapAt(snaps: seq<SnapInfo>, t: real) returns (r: nat)
    requires |snaps| >= 1
    ensures r < |snaps|
    ensures t < snaps[0].time ==> r == 0
    ensures t >= snaps[0].time ==> snaps[r].time <= t
    ensures t >= snaps[0].time ==> forall j | 1 <= j <= r :: snaps[j].time <= t
    ensures t >= snaps[0].time && r + 1 < |snaps| ==> t < snaps[r + 1].time
  {
    if t < snaps[0].time {
      return 0;
    }
    var i := 1;
    while i < |snaps|
      invariant 1 <= i <= |snaps|
      invariant forall j | 1 <= j < i :: snaps[j].time <= t
    {
      if t < snaps[i].time {
        return i - 1;
      }
      i := i + 1;
    }
    return |snaps| - 1;
  }

  /** With ascending times, the snapshot `GetSnapAt` reports is the last one
      whose time is not after `t`. */
  lemma SnapAtIsLastNotAfter(snaps: seq<SnapInfo>, t: real, r: nat)
    requires |snaps| >= 1 && Ascending(snaps) && r < |snaps|
    requires t >= snaps[0].time && snaps[r].time <= t
    requires r + 1 < |snaps| ==> t < snaps[r + 1].time
    ensures forall j | 0 <= j < |snaps| :: snaps[j].time <= t <==> j <= r
  {
  }

  function Pow2(n: nat): (r: nat)
    ensures r >= 1
  {
    if n == 0 then 1 else 2 * Pow2(n - 1)
  }

  /** A block's box: its minimum corner and its edge length per axis. */
  datatype Box = Box(mins: Vec3, scales: Vec3)

  /** `GetBlockCoords(snap, block)`: a null block stands for the whole
      snapshot box; a block at `pos` (in 1/65536ths of the snapshot box) and
      `depth` has edge `scale / 2^depth`. `1 << depth` is an `int` shift,
      defined only for depths below 31. */
  function GetBlockCoords(s: SnapInfo, block: Option<Header>): (r: Box)
    requires block.Some? ==> block.value.depth < 31
  {
    match block
    case None => Box(s.pos, s.scale)
    case Some(b) =>
      var d := Pow2(b.depth) as real;
      Box(seq(3, a requires 0 <= a < 3 => s.pos[a] + (b.pos[a] as real) * s.scale[a] / 65536.0),
          seq(3, a requires 0 <= a < 3 => s.scale[a] / d))
  }

  lemma MulMono(x: real, y: real, k: real)
    requires x <= y && k >= 0.0
    ensures x * k <= y * k
  {
  }

  /** Dividing by `d` is taking `65536 / d` units of 1/65536th. */
  lemma DivByUnits(S: real, d: real)
    requires d > 0.0
    ensures S / d == (65536.0 / d) * (S / 65536.0)
  {
    var w := 65536.0 / d;
    assert w * d == 65536.0;
    calc {
      (w * (S / 65536.0)) * d;
      (w * d) * (S / 65536.0);
      S;
    }
  }

  /** The real-number core of `ChildBoxInsideParent`, per axis: `P` is the
      snapshot's minimum, `S` its edge, `pp`, `cp` the positions in 1/65536ths,
      `dp` and `dc` the parent's and the child's divisors. */
  lemma NestedInterval(P: real, S: real, pp: real, cp: real, dp: real, dc: real)
    requires S >= 0.0 && dp > 0.0 && dc == 2.0 * dp && pp <= cp
    requires cp + 65536.0 / dc <= pp + 65536.0 / dp
    ensures (S / dc) * 2.0 == S / dp
    ensures P + pp * S / 65536.0 <= P + cp * S / 65536.0
    ensures P + cp * S / 65536.0 + S / dc <= P + pp * S / 65536.0 + S / dp
  {
    var u := S / 65536.0;
    var w := 65536.0 / dc;
    assert 65536.0 / dp == 2.0 * w;
    DivByUnits(S, dc);
    DivByUnits(S, dp);
    assert pp * S / 65536.0 == pp * u;
    assert cp * S / 65536.0 == cp * u;
    MulMono(pp, cp, u);
    MulMono(cp + w, pp + 2.0 * w, u);
  }

  lemma NestedBoxes(pm: real, ps: real, cm: real, cs: real, P: real, S: real, pp: real, cp: real, dp: real, dc: real)
    requires S >= 0.0 && dp > 0.0 && dc == 2.0 * dp && pp <= cp
    requires cp + 65536.0 / dc <= pp + 65536.0 / dp
    requires ps == S / dp && cs == S / dc
    requires pm == P + pp * S / 65536.0 && cm == P + cp * S / 65536.0
    ensures cs * 2.0 == ps && pm <= cm && cm + cs <= pm + ps
  {
    NestedInterval(P, S, pp, cp, dp, dc);
  }

  /** One axis of a block's box, as a quotient. */
  lemma BlockAxis(s: SnapInfo, b: Header, a: nat)
    requires b.depth < 31 && a < 3
    ensures var r := GetBlockCoords(s, Some(b));
      && r.mins[a] == s.pos[a] + (b.pos[a] as real) * s.scale[a] / 65536.0
      && r.scales[a] == s.scale[a] / (Pow2(b.depth) as real)
  {
  }

  /** A child one level deeper whose position lies in its parent's box has a
      box half as wide that lies inside the parent's box. */
  lemma ChildBoxInsideParent(s: SnapInfo, p: Header, c: Header, a: nat)
    requires p.depth < 30 && c.depth == p.depth + 1 && a < 3
    requires s.scale[a] >= 0.0
    requires p.pos[a] <= c.pos[a]
    requires (c.pos[a] as real) + 65536.0 / (Pow2(c.depth) as real) <= (p.pos[a] as real) + 65536.0 / (Pow2(p.depth) as real)
    ensures var bp := GetBlockCoords(s, Some(p));
      var bc := GetBlockCoords(s, Some(c));
      && bc.scales[a] * 2.0 == bp.scales[a]
      && bp.mins[a] <= bc.mins[a]
      && bc.mins[a] + bc.scales[a] <= bp.mins[a] + bp.scales[a]
  {
    var P, S := s.pos[a], s.scale[a];
    var pp, cp := p.pos[a] as real, c.pos[a] as real;
    var dp := Pow2(p.depth) as real;
    var dc := Pow2(c.depth) as real;
    assert dc == 2.0 * dp by {
      assert Pow2(c.depth) == 2 * Pow2(p.depth);
    }
    var bp := GetBlockCoords(s, Some(p));
    var bc := GetBlockCoords(s, Some(c));
    assert bp.mins[a] == P + pp * S / 65536.0 && bp.scales[a] == S / dp by {
      BlockAxis(s, p, a);
    }
    assert bc.mins[a] == P + cp * S / 65536.0 && bc.scales[a] == S / dc by {
      BlockAxis(s, c, a);
    }
    NestedBoxes(bp.mins[a], bp.scales[a], bc.mins[a], bc.scales[a], P, S, pp, cp, dp, dc);
  }
}
