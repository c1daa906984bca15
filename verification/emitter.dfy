/** The tree generator's layout emitter (gentree/CreateBlocks.cpp,
    gentree/WriteBlock.cpp): a depth-first walk over the octree of a stream of
    points sorted by interleaved coordinate. A node whose points fit in one
    block becomes a leaf; otherwise its eight children are built first, then
    the children that hold points are written back to back, in ascending octant
    order, to the current output file, and the node records where. Output
    files are append-only byte logs whose length is the write location. */
module Emitter {
  import opened Wrappers
  import opened Blocks
  import opened Layout
  import Formats
  import TreeIndex

  /** `MAX_DEPTH`: the per-depth tables have this many rows. */
  const MaxDepth: nat := 20

  /** `BUFFER_FAC`: the read buffer holds this many blocks' worth of points. */
  const BufferFac: nat := 3

  /** Shift of the root node: every coordinate bit is below it. */
  const RootShift: nat := 3 * MaxDepth

  /** One cell of the per-depth tables: `PendingCount` and the four
      `BlockChild*` entries of a node. */
  datatype Slot = Slot(count: nat, childLocation: nat, childLength: nat, childFlags: bv16, childFile: int)

  /** The tables are zero-initialised globals. */
  const ZeroSlot: Slot := Slot(0, 0, 0, 0, 0)

  /** What a leaf records about its (absent) children. */
  function LeafSlot(count: nat): Slot {
    Slot(count, 0, 0, 0, -1)
  }

  /** The generator's state: the read buffer (`CurrentBlock`), the rest of the
      sorted input, the pending leaf points, the per-depth tables indexed by
      (depth, octant), one byte log per output file and the current writer. */
  datatype Gen = Gen(
    maxCount: nat,
    buffer: seq<Formats.VertexB>,
    input: seq<Formats.VertexB>,
    pending: map<(nat, nat), seq<Formats.VertexB>>,
    table: map<(nat, nat), Slot>,
    logs: seq<seq<Cell>>,
    cur: nat)

  /** The current writer is one of the output files. */
  predicate Valid(g: Gen) {
    g.cur < |g.logs|
  }

  function SlotAt(g: Gen, depth: nat, num: nat): Slot {
    TableSlot(g.table, depth, num)
  }

  function TableSlot(table: map<(nat, nat), Slot>, depth: nat, num: nat): Slot {
    if (depth, num) in table then table[(depth, num)] else ZeroSlot
  }

  /** The points not yet placed in a leaf, in input order. */
  function Stream(g: Gen): seq<Formats.VertexB> {
    g.buffer + g.input
  }

  /** `b` is what is left of `a` after dropping some of its first elements. */
  predicate SuffixOf(b: seq<Formats.VertexB>, a: seq<Formats.VertexB>) {
    |b| <= |a| && b == a[|a| - |b|..]
  }

  lemma SuffixTrans(c: seq<Formats.VertexB>, b: seq<Formats.VertexB>, a: seq<Formats.VertexB>)
    requires SuffixOf(c, b) && SuffixOf(b, a)
    ensures SuffixOf(c, a)
  {
    assert a[|a| - |b|..][|b| - |c|..] == a[|a| - |c|..];
  }

  /** Every file of `b` starts with the corresponding file of `a`. */
  predicate Extends(a: seq<seq<Cell>>, b: seq<seq<Cell>>) {
    |a| == |b| && forall f | 0 <= f < |a| :: a[f] <= b[f]
  }

  lemma ExtendsTrans(a: seq<seq<Cell>>, b: seq<seq<Cell>>, c: seq<seq<Cell>>)
    requires Extends(a, b) && Extends(b, c)
    ensures Extends(a, c)
  {
    forall f | 0 <= f < |a|
      ensures a[f] <= c[f]
    {
      assert c[f][..|b[f]|][..|a[f]|] == c[f][..|a[f]|];
    }
  }

  /** Appending to one file extends the logs. */
  lemma AppendExtends(logs: seq<seq<Cell>>, f: nat, x: seq<Cell>)
    requires f < |logs|
    ensures Extends(logs, logs[f := logs[f] + x])
  {
    assert (logs[f] + x)[..|logs[f]|] == logs[f];
  }

  // ---------------------------------------------------------------------
  // The point buffer
  // ---------------------------------------------------------------------

  /** `x >> s` on unsigned values: `s` halvings. */
  function Shr(x: nat, s: nat): (r: nat)
    ensures r <= x
  {
    if s == 0 then x else Shr(x / 2, s - 1)
  }

  /** `x << s` on a 64-bit unsigned value: `s` doublings, then the
      wrap-around of the 64-bit register. */
  function Shl64(x: nat, s: nat): (r: nat)
    ensures r < 0x1_0000_0000_0000_0000
    decreases s
  {
    if s == 0 then x % 0x1_0000_0000_0000_0000 else Shl64(2 * x, s - 1)
  }

  /** A point lies in `block` at this level: `coord >> shift == block`. */
  predicate Matches(v: Formats.VertexB, block: nat, shift: nat) {
    Shr(v.coord, shift) == block
  }

  /** The scan of `GetMatchingCount` from index `i`: it stops at the first
      point outside the block, or at the first index past `maxCount` (the
      block test comes first), or at the end of the buffer. */
  function MatchingFrom(buf: seq<Formats.VertexB>, block: nat, shift: nat, maxCount: nat, i: nat): (r: nat)
    requires i <= |buf|
    ensures i <= r <= |buf|
    ensures forall k | i <= k < r :: Matches(buf[k], block, shift)
    ensures r == i || r <= maxCount + 1
    ensures r == |buf| || !Matches(buf[r], block, shift) || r > maxCount
    decreases |buf| - i
  {
    if i == |buf| then |buf|
    else if !Matches(buf[i], block, shift) then i
    else if i > maxCount then i
    else
      var r := MatchingFrom(buf, block, shift, maxCount, i + 1);
      RunExtends(buf, block, shift, i, r);
      r
  }

  /** A matching point at `i` extends a matching run starting at `i + 1`. */
  lemma RunExtends(buf: seq<Formats.VertexB>, block: nat, shift: nat, i: nat, r: nat)
    requires i < r <= |buf| && Matches(buf[i], block, shift)
    requires forall k | i + 1 <= k < r :: Matches(buf[k], block, shift)
    ensures forall k | i <= k < r :: Matches(buf[k], block, shift)
  {
    forall k | i <= k < r
      ensures Matches(buf[k], block, shift)
    {
      if k > i {
        assert i + 1 <= k < r;
      }
    }
  }

  /** `GetMatchingCount`: the length of the run of buffered points inside
      `block`, cut off once it exceeds `maxCount`, so it is at most
      `maxCount + 1` and it is `maxCount + 1` only when that many points
      match. */
  function GetMatchingCount(buf: seq<Formats.VertexB>, block: nat, shift: nat, maxCount: nat): (r: nat)
    ensures r <= |buf| && r <= maxCount + 1
    ensures forall k | 0 <= k < r :: Matches(buf[k], block, shift)
    ensures r < |buf| && r <= maxCount ==> !Matches(buf[r], block, shift)
  {
    var r := MatchingFrom(buf, block, shift, maxCount, 0);
    assert r > 0 ==> Matches(buf[r - 1], block, shift) && r - 1 <= maxCount;
    r
  }

  /** `CreateLeaf`: the first `count` buffered points become the pending
      points of octant `num` at `depth`, and the buffer keeps the rest. */
  function CreateLeaf(g: Gen, depth: nat, num: nat, count: nat): (r: Gen)
    requires count <= |g.buffer|
    ensures r.buffer == g.buffer[count..]
    ensures (depth, num) in r.pending && r.pending[(depth, num)] + r.buffer == g.buffer
    ensures SlotAt(r, depth, num).count == count
    ensures Stream(r) == Stream(g)[count..]
    ensures r.logs == g.logs && r.cur == g.cur && r.input == g.input && r.maxCount == g.maxCount
  {
    var slot := SlotAt(g, depth, num);
    g.(buffer := g.buffer[count..],
       pending := g.pending[(depth, num) := g.buffer[..count]],
       table := g.table[(depth, num) := slot.(count := count)])
  }

  /** `ReadNextBlock`: moves points from the input to the buffer until it
      holds `maxCount * BUFFER_FAC` points or the input runs out. */
  function ReadNextBlock(g: Gen): (r: Gen)
    ensures Stream(r) == Stream(g)
    ensures |g.buffer| <= |r.buffer| && r.buffer[..|g.buffer|] == g.buffer
    ensures |r.buffer| <= g.maxCount * BufferFac || r.buffer == g.buffer
    ensures r.input == [] || |r.buffer| >= g.maxCount * BufferFac
    ensures r.logs == g.logs && r.cur == g.cur && r.table == g.table && r.maxCount == g.maxCount
  {
    var room := if g.maxCount * BufferFac > |g.buffer| then g.maxCount * BufferFac - |g.buffer| else 0;
    var n := if room < |g.input| then room else |g.input|;
    assert g.buffer + g.input == (g.buffer + g.input[..n]) + g.input[n..];
    g.(buffer := g.buffer + g.input[..n], input := g.input[n..])
  }

  // ---------------------------------------------------------------------
  // Writers
  // ---------------------------------------------------------------------

  /** `NextWriter`: round robin over the output files. */
  function NextWriter(g: Gen): (r: Gen)
    requires Valid(g)
    ensures Valid(r) && r.logs == g.logs
    ensures r.cur == 0 <==> g.cur == |g.logs| - 1
    ensures r.cur != 0 ==> r.cur == g.cur + 1
    ensures r == g.(cur := r.cur)
  {
    g.(cur := (g.cur + 1) % |g.logs|)
  }

  /** The header `WritePendingBlock` writes for node `block` at `depth`:
      count and child fields from the tables, every child pointer zero, and
      the position from `deinterleave(block << shift)` on 64 bits. */
  function PendingHeader(g: Gen, block: nat, shift: nat, depth: nat): (h: Header)
    requires depth < 0x1_0000
    ensures var s := SlotAt(g, depth, block % 8);
      && h.count == s.count && h.childLocation == s.childLocation && h.childLength == s.childLength
      && h.childFlags == s.childFlags && h.childFile == s.childFile && h.depth == depth
  {
    var s := SlotAt(g, depth, block % 8);
    var pos := TreeIndex.Deinterleaved(Shl64(block, shift));
    Header(pos, depth, s.count, s.childLocation, s.childLength, s.childFile, s.childFlags)
  }

  /** `WritePendingBlock`: appends the node's record (header, then `count`
      vertices) to the current file, frees its pending points, and returns
      the number of bytes appended. */
  function WritePending(g: Gen, block: nat, shift: nat, depth: nat): (r: (Gen, nat))
    requires Valid(g) && depth < 0x1_0000
    ensures var h := PendingHeader(g, block, shift, depth);
      && r.0.logs == g.logs[g.cur := g.logs[g.cur] + Record(h, OutBlockSize, OutVertexSize)]
      && r.1 == |r.0.logs[g.cur]| - |g.logs[g.cur]|
      && r.1 == BlockBytes(OutBlockSize, OutVertexSize, h.count)
    ensures Valid(r.0) && Extends(g.logs, r.0.logs)
    ensures r.0.cur == g.cur && r.0.table == g.table && r.0.buffer == g.buffer && r.0.input == g.input
    ensures r.0.maxCount == g.maxCount
    ensures (depth, block % 8) !in r.0.pending
    ensures forall k | k in g.pending && k != (depth, block % 8) :: k in r.0.pending && r.0.pending[k] == g.pending[k]
    ensures forall k | k in r.0.pending :: k in g.pending
  {
    var h := PendingHeader(g, block, shift, depth);
    var rec := Record(h, OutBlockSize, OutVertexSize);
    AppendExtends(g.logs, g.cur, rec);
    (g.(logs := g.logs[g.cur := g.logs[g.cur] + rec], pending := g.pending - {(depth, block % 8)}), |rec|)
  }

  /** Result of writing a node's children: the state after, the flags and
      byte length accumulated, and the headers written, in order. */
  datatype Written = Written(g: Gen, flags: bv16, length: nat, hdrs: seq<Header>)

  /** Setting octant bit `i` adds octant `i` and keeps the others. */
  lemma SetOctant(flags: bv16, i: nat, j: nat)
    requires i < Octants && j < Octants
    ensures HasOctant(flags | OctantBit(i), j) <==> HasOctant(flags, j) || i == j
  {
    if i == j {
      SetOctantSame(flags, i);
    } else {
      SetOctantOther(flags, i, j);
    }
  }

  lemma SetOctantSame(flags: bv16, i: nat)
    requires i < Octants
    ensures HasOctant(flags | OctantBit(i), i)
  {
    HasOctantIsBit(flags | OctantBit(i), i);
    OctantBitValue(i);
    OrKeepsMask(flags, OctantBit(i));
  }

  lemma SetOctantOther(flags: bv16, i: nat, j: nat)
    requires i < Octants && j < Octants && i != j
    ensures HasOctant(flags | OctantBit(i), j) <==> HasOctant(flags, j)
  {
    var m := OctantBit(j);
    assert (flags | OctantBit(i)) & m == flags & m by {
      BitsDisjoint(i, j);
      OrMissesMask(flags, OctantBit(i), m);
    }
    HasOctantIsBit(flags | OctantBit(i), j);
    HasOctantIsBit(flags, j);
  }

  lemma OrKeepsMask(f: bv16, m: bv16)
    ensures (f | m) & m == m
  {
  }

  lemma OrMissesMask(f: bv16, a: bv16, m: bv16)
    requires a & m == 0
    ensures (f | a) & m == f & m
  {
  }

  /** Distinct octants have disjoint bits. */
  lemma BitsDisjoint(i: nat, j: nat)
    requires i < Octants && j < Octants && i != j
    ensures OctantBit(i) & OctantBit(j) == 0
  {
    OctantBitValue(i);
    OctantBitValue(j);
  }

  /** The octant bits are the powers of two below 256. */
  lemma OctantBitValue(i: nat)
    requires i < Octants
    ensures OctantBit(i) == [1 as bv16, 2, 4, 8, 16, 32, 64, 128][i]
  {
    if i == 0 {
      assert OctantBit(0) == 1;
    } else if i == 1 {
      assert OctantBit(1) == 2;
    } else if i == 2 {
      assert OctantBit(2) == 4;
    } else if i == 3 {
      assert OctantBit(3) == 8;
    } else if i == 4 {
      assert OctantBit(4) == 16;
    } else if i == 5 {
      assert OctantBit(5) == 32;
    } else if i == 6 {
      assert OctantBit(6) == 64;
    } else {
      assert OctantBit(7) == 128;
    }
  }


  /** Whether child `j` of a node at `depth` holds points. */
  predicate Present(g: Gen, depth: nat, j: nat) {
    SlotAt(g, depth + 1, j).count != 0
  }

  /** The flags the children loop accumulates from octant `i` on. */
  function AccFlags(g: Gen, depth: nat, i: nat, flags: bv16): bv16
    requires i <= Octants
    decreases Octants - i
  {
    if i == Octants then flags
    else AccFlags(g, depth, i + 1, if Present(g, depth, i) then flags | OctantBit(i) else flags)
  }

  /** Number of children from octant `i` on that hold points. */
  function NumPresent(g: Gen, depth: nat, i: nat): nat
    requires i <= Octants
    decreases Octants - i
  {
    if i == Octants then 0
    else (if Present(g, depth, i) then 1 else 0) + NumPresent(g, depth, i + 1)
  }

  /** The children loop of `CreateBlocks`, from octant `i`: every child with
      a nonzero pending count gets its flag bit and is written to the current
      file; the byte counts are summed. */
  function WriteChildren(g: Gen, block: nat, shift: nat, depth: nat, i: nat, flags: bv16, length: nat): (w: Written)
    requires Valid(g) && depth + 1 < 0x1_0000 && i <= Octants && shift >= 3
    ensures Valid(w.g) && |w.g.logs| == |g.logs| && w.g.cur == g.cur
    ensures w.g.logs[g.cur] == g.logs[g.cur] + Records(w.hdrs, OutBlockSize, OutVertexSize)
    ensures forall f | 0 <= f < |g.logs| && f != g.cur :: w.g.logs[f] == g.logs[f]
    ensures w.g.table == g.table && w.g.buffer == g.buffer && w.g.input == g.input && w.g.maxCount == g.maxCount
    ensures w.length == length + RecordsBytes(w.hdrs, OutBlockSize, OutVertexSize)
    ensures w.flags == AccFlags(g, depth, i, flags) && |w.hdrs| == NumPresent(g, depth, i)
    ensures forall k | 0 <= k < |w.hdrs| :: FromTable(g.table, depth + 1, w.hdrs[k])
    decreases Octants - i
  {
    if i == Octants then Written(g, flags, length, [])
    else if !Present(g, depth, i) then
      WriteChildren(g, block, shift, depth, i + 1, flags, length)
    else
      var child := block * 8 + i;
      var h := PendingHeader(g, child, shift - 3, depth + 1);
      var r := WritePending(g, child, shift - 3, depth + 1);
      var w := WriteChildren(r.0, block, shift, depth, i + 1, flags | OctantBit(i), length + r.1);
      var hs := [h] + w.hdrs;
      assert hs[0] == h && hs[1..] == w.hdrs;
      assert FromSlot(h, TableSlot(g.table, depth + 1, child % 8));
      assert Records(hs, OutBlockSize, OutVertexSize)
          == Record(h, OutBlockSize, OutVertexSize) + Records(w.hdrs, OutBlockSize, OutVertexSize);
      assert r.0.logs[g.cur] == g.logs[g.cur] + Record(h, OutBlockSize, OutVertexSize);
      assert w.g.logs[g.cur] == g.logs[g.cur] + Records(hs, OutBlockSize, OutVertexSize) by {
        ConcatAssoc(g.logs[g.cur], Record(h, OutBlockSize, OutVertexSize), Records(w.hdrs, OutBlockSize, OutVertexSize));
      }
      assert AccFlags(r.0, depth, i + 1, flags | OctantBit(i)) == AccFlags(g, depth, i + 1, flags | OctantBit(i)) by {
        AccFlagsOfTable(r.0, g, depth, i + 1, flags | OctantBit(i));
      }
      assert NumPresent(r.0, depth, i + 1) == NumPresent(g, depth, i + 1) by {
        NumPresentOfTable(r.0, g, depth, i + 1);
      }
      Written(w.g, w.flags, w.length, hs)
  }

  /** A header carries the count and child fields of a table slot. */
  predicate FromSlot(h: Header, s: Slot) {
    && h.count == s.count && h.childLocation == s.childLocation && h.childLength == s.childLength
    && h.childFlags == s.childFlags && h.childFile == s.childFile
  }

  /** A header carries the fields of one of the eight slots of a level. */
  ghost predicate FromTable(table: map<(nat, nat), Slot>, depth: nat, h: Header) {
    exists j: nat :: j < Octants && FromSlot(h, TableSlot(table, depth, j))
  }

  /** The accumulated flags depend only on the tables. */
  lemma {:induction false} AccFlagsOfTable(a: Gen, b: Gen, depth: nat, i: nat, flags: bv16)
    requires i <= Octants && a.table == b.table
    ensures AccFlags(a, depth, i, flags) == AccFlags(b, depth, i, flags)
    decreases Octants - i
  {
    if i < Octants {
      assert Present(a, depth, i) == Present(b, depth, i);
      AccFlagsOfTable(a, b, depth, i + 1, if Present(a, depth, i) then flags | OctantBit(i) else flags);
    }
  }

  lemma {:induction false} NumPresentOfTable(a: Gen, b: Gen, depth: nat, i: nat)
    requires i <= Octants && a.table == b.table
    ensures NumPresent(a, depth, i) == NumPresent(b, depth, i)
    decreases Octants - i
  {
    if i < Octants {
      assert Present(a, depth, i) == Present(b, depth, i);
      NumPresentOfTable(a, b, depth, i + 1);
    }
  }

  /** The flags the children loop leaves: starting from flags with no octant
      at or above `i`, bit `j` ends up set exactly when child `j` holds
      points, the bits below `i` are untouched, and the number of set bits
      from `i` on is the number of children written. */
  lemma {:induction false} AccFlagsBits(g: Gen, depth: nat, i: nat, flags: bv16)
    requires i <= Octants
    requires forall j | i <= j < Octants :: !HasOctant(flags, j)
    ensures var f := AccFlags(g, depth, i, flags);
      && (forall j | i <= j < Octants :: HasOctant(f, j) <==> Present(g, depth, j))
      && (forall j | 0 <= j < i :: HasOctant(f, j) <==> HasOctant(flags, j))
      && OctantsFrom(f, i) == NumPresent(g, depth, i)
    decreases Octants - i
  {
    if i < Octants {
      var flags1 := if Present(g, depth, i) then flags | OctantBit(i) else flags;
      forall j | 0 <= j < Octants
        ensures HasOctant(flags1, j) <==> HasOctant(flags, j) || (i == j && Present(g, depth, i))
      {
        SetOctant(flags, i, j);
      }
      AccFlagsBits(g, depth, i + 1, flags1);
    }
  }

  lemma ConcatAssoc(a: seq<Cell>, b: seq<Cell>, c: seq<Cell>)
    ensures (a + b) + c == a + (b + c)
  {
  }

  // ---------------------------------------------------------------------
  // The recursive walk
  // ---------------------------------------------------------------------

  /** `CreateBlocks(block, shift, depth)`. A node whose matching run fits in
      `maxCount` is a leaf; otherwise it is an internal node. A node at depth
      `MAX_DEPTH` would index past the tables, which is a failure here. */
  function CreateBlocks(g: Gen, block: nat, shift: nat, depth: nat): (r: Result<Gen>)
    requires Valid(g) && depth <= MaxDepth && shift == 3 * (MaxDepth - depth)
    ensures depth == MaxDepth ==> r.Failure?
    ensures r.Success? ==> Valid(r.value) && Extends(g.logs, r.value.logs) && r.value.maxCount == g.maxCount
    ensures r.Success? ==> SuffixOf(Stream(r.value), Stream(g))
    ensures var n := GetMatchingCount(g.buffer, block, shift, g.maxCount);
      depth < MaxDepth && n <= g.maxCount ==>
        && r.Success?
        && SlotAt(r.value, depth, block % 8) == LeafSlot(n)
        && (depth, block % 8) in r.value.pending && r.value.pending[(depth, block % 8)] == g.buffer[..n]
    ensures var n := GetMatchingCount(g.buffer, block, shift, g.maxCount);
      r.Success? && n > g.maxCount ==>
        var s := SlotAt(r.value, depth, block % 8);
        && s.count == g.maxCount
        && 0 <= s.childFile < |r.value.logs|
        && s.childLocation + s.childLength <= |r.value.logs[s.childFile]|
    ensures r.Success? && Inv(g) ==> Inv(r.value)
    decreases MaxDepth - depth, 10
  {
    if depth == MaxDepth then Failure("node below MAX_DEPTH")
    else
      var n := GetMatchingCount(g.buffer, block, shift, g.maxCount);
      if n <= g.maxCount then Success(LeafNode(g, depth, block % 8, n))
      else InternalNode(g, block, shift, depth)
  }

  /** The leaf branch of `CreateBlocks`: the `n` matching points become
      pending, the slot says "no children", and the buffer is refilled. */
  function LeafNode(g: Gen, depth: nat, num: nat, n: nat): (r: Gen)
    requires Valid(g) && n <= |g.buffer|
    ensures Valid(r) && r.logs == g.logs && r.cur == g.cur && r.maxCount == g.maxCount
    ensures SlotAt(r, depth, num) == LeafSlot(n)
    ensures (depth, num) in r.pending && r.pending[(depth, num)] == g.buffer[..n]
    ensures Stream(r) == Stream(g)[n..]
    ensures Inv(g) ==> Inv(r)
  {
    var g1 := CreateLeaf(g, depth, num, n);
    var g2 := g1.(table := g1.table[(depth, num) := LeafSlot(n)]);
    assert g2.table == g.table[(depth, num) := LeafSlot(n)];
    SetSlotOk(g.table, g.logs, (depth, num), LeafSlot(n));
    ReadNextBlock(g2)
  }

  /** The internal branch of `CreateBlocks`: the eight children are built
      in order, the node gets `maxCount` merged points (`MergeBlock`, whose
      point data is not modelled), its present children are written to the
      current file at the current location, and the writer advances. */
  function InternalNode(g: Gen, block: nat, shift: nat, depth: nat): (r: Result<Gen>)
    requires Valid(g) && depth < MaxDepth && shift == 3 * (MaxDepth - depth)
    ensures r.Success? ==> Valid(r.value) && Extends(g.logs, r.value.logs) && r.value.maxCount == g.maxCount
    ensures r.Success? ==> SuffixOf(Stream(r.value), Stream(g))
    ensures r.Success? ==>
        var s := SlotAt(r.value, depth, block % 8);
        && s.count == g.maxCount
        && 0 <= s.childFile < |r.value.logs|
        && s.childLocation + s.childLength <= |r.value.logs[s.childFile]|
    ensures r.Success? && Inv(g) ==> Inv(r.value)
    decreases MaxDepth - depth, 9
  {
    var c :- CreateChildren(g, block, shift, depth, 0);
    var loc := |c.logs[c.cur]|;
    var w := WriteChildren(c, block, shift, depth, 0, 0, 0);
    var g3 := w.g.(table := w.g.table[(depth, block % 8) := Slot(c.maxCount, loc, w.length, w.flags, c.cur)]);
    AppendExtends(c.logs, c.cur, Records(w.hdrs, OutBlockSize, OutVertexSize));
    assert w.g.logs == c.logs[c.cur := c.logs[c.cur] + Records(w.hdrs, OutBlockSize, OutVertexSize)];
    ExtendsTrans(g.logs, c.logs, w.g.logs);
    ChildrenFlagsCount(c, depth);
    FinishNodeOk(c, depth, block % 8, w);
    Success(NextWriter(g3))
  }

  /** The loop `for i in i..7: CreateBlocks((block << 3) + i, shift - 3,
      depth + 1)`. */
  function CreateChildren(g: Gen, block: nat, shift: nat, depth: nat, i: nat): (r: Result<Gen>)
    requires Valid(g) && depth < MaxDepth && shift == 3 * (MaxDepth - depth) && i <= Octants
    ensures r.Success? ==> Valid(r.value) && Extends(g.logs, r.value.logs) && r.value.maxCount == g.maxCount
    ensures r.Success? ==> SuffixOf(Stream(r.value), Stream(g))
    ensures r.Success? && Inv(g) ==> Inv(r.value)
    decreases MaxDepth - depth, 8 - i
  {
    if i == Octants then
      Success(g)
    else
      var g1 :- CreateBlocks(g, block * 8 + i, shift - 3, depth + 1);
      var r := CreateChildren(g1, block, shift, depth, i + 1);
      if r.Success? then
        ExtendsTrans(g.logs, g1.logs, r.value.logs);
        SuffixTrans(Stream(r.value), Stream(g1), Stream(g));
        r
      else r
  }

  // ---------------------------------------------------------------------
  // What the files hold
  // ---------------------------------------------------------------------

  /** A children region as the reader expects it: when there are children,
      `len` bytes at `loc` in file `file` are the records of one header per
      set octant bit, back to back. */
  ghost predicate RegionOk(logs: seq<seq<Cell>>, flags: bv16, file: int, loc: nat, len: nat) {
    flags == 0 ||
    (&& 0 <= file < |logs|
     && loc + len <= |logs[file]|
     && exists hdrs: seq<Header> ::
          |hdrs| == OctantCount(flags) && logs[file][loc..loc + len] == Records(hdrs, OutBlockSize, OutVertexSize))
  }

  ghost predicate HeaderOk(logs: seq<seq<Cell>>, h: Header) {
    RegionOk(logs, h.childFlags, h.childFile, h.childLocation, h.childLength)
  }

  ghost predicate SlotOk(logs: seq<seq<Cell>>, s: Slot) {
    RegionOk(logs, s.childFlags, s.childFile, s.childLocation, s.childLength)
  }

  /** Every table entry describes a region already in the files. */
  ghost predicate TableOk(table: map<(nat, nat), Slot>, logs: seq<seq<Cell>>) {
    forall key | key in table :: SlotOk(logs, table[key])
  }

  /** Byte `p` of file `f`. */
  function CellAt(logs: seq<seq<Cell>>, f: nat, p: nat): Cell
    requires f < |logs| && p < |logs[f]|
  {
    logs[f][p]
  }

  /** Every header written so far describes a region already in the files. */
  ghost predicate LogsOk(logs: seq<seq<Cell>>) {
    forall f: nat, p: nat | f < |logs| && p < |logs[f]| && CellAt(logs, f, p).Head? :: HeaderOk(logs, CellAt(logs, f, p).h)
  }

  ghost predicate Inv(g: Gen) {
    TableOk(g.table, g.logs) && LogsOk(g.logs)
  }

  /** Appending to files never spoils a region. */
  lemma RegionMono(a: seq<seq<Cell>>, b: seq<seq<Cell>>, flags: bv16, file: int, loc: nat, len: nat)
    requires Extends(a, b) && RegionOk(a, flags, file, loc, len)
    ensures RegionOk(b, flags, file, loc, len)
  {
    if flags != 0 {
      var hdrs: seq<Header> :| |hdrs| == OctantCount(flags) && a[file][loc..loc + len] == Records(hdrs, OutBlockSize, OutVertexSize);
      assert b[file][..|a[file]|] == a[file];
      assert b[file][loc..loc + len] == a[file][loc..loc + len];
    }
  }

  lemma TableMono(table: map<(nat, nat), Slot>, a: seq<seq<Cell>>, b: seq<seq<Cell>>)
    requires Extends(a, b) && TableOk(table, a)
    ensures TableOk(table, b)
  {
    forall key | key in table
      ensures SlotOk(b, table[key])
    {
      var s := table[key];
      RegionMono(a, b, s.childFlags, s.childFile, s.childLocation, s.childLength);
    }
  }

  /** Appending one record whose header is sound keeps every header sound. */
  lemma AppendRecordOk(logs: seq<seq<Cell>>, f: nat, h: Header)
    requires f < |logs| && LogsOk(logs)
    requires HeaderOk(logs[f := logs[f] + Record(h, OutBlockSize, OutVertexSize)], h)
    ensures LogsOk(logs[f := logs[f] + Record(h, OutBlockSize, OutVertexSize)])
  {
    var rec := Record(h, OutBlockSize, OutVertexSize);
    var logs': seq<seq<Cell>> := logs[f := logs[f] + rec];
    AppendExtends(logs, f, rec);
    forall f': nat, p: nat | f' < |logs'| && p < |logs'[f']| && CellAt(logs', f', p).Head?
      ensures HeaderOk(logs', CellAt(logs', f', p).h)
    {
      if f' == f && p >= |logs[f]| {
        assert logs'[f'][p] == rec[p - |logs[f]|];
      } else {
        assert logs'[f'][p] == CellAt(logs, f', p);
        var h' := CellAt(logs, f', p).h;
        RegionMono(logs, logs', h'.childFlags, h'.childFile, h'.childLocation, h'.childLength);
      }
    }
  }

  /** Writing a pending block keeps the files and tables sound. */
  lemma WritePendingOk(g: Gen, block: nat, shift: nat, depth: nat)
    requires Valid(g) && depth < 0x1_0000
    ensures Inv(g) ==> Inv(WritePending(g, block, shift, depth).0)
  {
    if !Inv(g) { return; }
    var r := WritePending(g, block, shift, depth);
    var h := PendingHeader(g, block, shift, depth);
    var key := (depth, block % 8);
    if key in g.table {
      assert SlotOk(g.logs, g.table[key]);
    }
    assert HeaderOk(g.logs, h);
    RegionMono(g.logs, r.0.logs, h.childFlags, h.childFile, h.childLocation, h.childLength);
    AppendRecordOk(g.logs, g.cur, h);
    TableMono(g.table, g.logs, r.0.logs);
  }

  /** Appending records whose headers are sound keeps every header sound. */
  lemma {:induction false} AppendRecordsOk(logs: seq<seq<Cell>>, f: nat, hs: seq<Header>)
    requires f < |logs| && LogsOk(logs)
    requires forall k | 0 <= k < |hs| :: HeaderOk(logs, hs[k])
    ensures LogsOk(logs[f := logs[f] + Records(hs, OutBlockSize, OutVertexSize)])
    decreases |hs|
  {
    if hs == [] {
      assert logs[f] + Records(hs, OutBlockSize, OutVertexSize) == logs[f];
      assert logs[f := logs[f]] == logs;
    } else {
      var h := hs[0];
      var rec := Record(h, OutBlockSize, OutVertexSize);
      var logs1: seq<seq<Cell>> := logs[f := logs[f] + rec];
      AppendExtends(logs, f, rec);
      RegionMono(logs, logs1, h.childFlags, h.childFile, h.childLocation, h.childLength);
      AppendRecordOk(logs, f, h);
      forall k | 0 <= k < |hs[1..]|
        ensures HeaderOk(logs1, hs[1..][k])
      {
        var h' := hs[1..][k];
        assert HeaderOk(logs, hs[k + 1]);
        RegionMono(logs, logs1, h'.childFlags, h'.childFile, h'.childLocation, h'.childLength);
      }
      AppendRecordsOk(logs1, f, hs[1..]);
      ConcatAssoc(logs[f], rec, Records(hs[1..], OutBlockSize, OutVertexSize));
      assert logs1[f := logs1[f] + Records(hs[1..], OutBlockSize, OutVertexSize)]
          == logs[f := logs[f] + Records(hs, OutBlockSize, OutVertexSize)];
    }
  }

  /** Records appended at the end of a file form a sound region for flags
      with one bit per record. */
  lemma AppendRegionOk(logs: seq<seq<Cell>>, f: nat, hdrs: seq<Header>, flags: bv16)
    requires f < |logs| && |hdrs| == OctantCount(flags)
    ensures var recs := Records(hdrs, OutBlockSize, OutVertexSize);
      RegionOk(logs[f := logs[f] + recs], flags, f, |logs[f]|, |recs|)
  {
    var recs := Records(hdrs, OutBlockSize, OutVertexSize);
    var logs': seq<seq<Cell>> := logs[f := logs[f] + recs];
    var file := logs[f] + recs;
    assert logs'[f] == file;
    assert file[|logs[f]|..|logs[f]| + |recs|] == recs;
    assert exists hs: seq<Header> :: |hs| == OctantCount(flags) && file[|logs[f]|..|logs[f]| + |recs|] == Records(hs, OutBlockSize, OutVertexSize);
  }

  /** A header copied from a sound table is sound. */
  lemma FromTableOk(table: map<(nat, nat), Slot>, logs: seq<seq<Cell>>, depth: nat, h: Header)
    requires TableOk(table, logs) && FromTable(table, depth, h)
    ensures HeaderOk(logs, h)
  {
    var j: nat :| j < Octants && FromSlot(h, TableSlot(table, depth, j));
    if (depth, j) in table {
      assert SlotOk(logs, table[(depth, j)]);
    }
  }

  /** Setting a slot that is sound keeps a sound table sound. */
  lemma SetSlotOk(table: map<(nat, nat), Slot>, logs: seq<seq<Cell>>, key: (nat, nat), s: Slot)
    ensures TableOk(table, logs) && SlotOk(logs, s) ==> TableOk(table[key := s], logs)
  {
    if TableOk(table, logs) && SlotOk(logs, s) {
      var t := table[key := s];
      forall k | k in t
        ensures SlotOk(logs, t[k])
      {
        if k != key {
          assert SlotOk(logs, table[k]);
        }
      }
    }
  }

  /** Finishing an internal node keeps the files and tables sound: the
      records of its children, copied from sound slots, are appended, and
      its slot points at them with one flag bit per record. */
  lemma FinishNodeOk(c: Gen, depth: nat, num: nat, w: Written)
    requires Valid(c)
    requires w.g.logs == c.logs[c.cur := c.logs[c.cur] + Records(w.hdrs, OutBlockSize, OutVertexSize)]
    requires w.g.table == c.table
    requires |w.hdrs| == OctantCount(w.flags) && w.length == RecordsBytes(w.hdrs, OutBlockSize, OutVertexSize)
    requires forall k | 0 <= k < |w.hdrs| :: FromTable(c.table, depth + 1, w.hdrs[k])
    ensures var s := Slot(c.maxCount, |c.logs[c.cur]|, w.length, w.flags, c.cur);
      Inv(c) ==> Inv(w.g.(table := w.g.table[(depth, num) := s]))
  {
    if Inv(c) {
      var recs := Records(w.hdrs, OutBlockSize, OutVertexSize);
      forall k | 0 <= k < |w.hdrs|
        ensures HeaderOk(c.logs, w.hdrs[k])
      {
        FromTableOk(c.table, c.logs, depth + 1, w.hdrs[k]);
      }
      AppendRecordsOk(c.logs, c.cur, w.hdrs);
      AppendExtends(c.logs, c.cur, recs);
      TableMono(c.table, c.logs, w.g.logs);
      AppendRegionOk(c.logs, c.cur, w.hdrs, w.flags);
      var s := Slot(c.maxCount, |c.logs[c.cur]|, w.length, w.flags, c.cur);
      assert SlotOk(w.g.logs, s);
      SetSlotOk(w.g.table, w.g.logs, (depth, num), s);
    }
  }

  /** The children loop starts from no flags, so the flags it leaves have
      one bit per child it writes. */
  lemma ChildrenFlagsCount(c: Gen, depth: nat)
    ensures OctantCount(AccFlags(c, depth, 0, 0)) == NumPresent(c, depth, 0)
  {
    forall j | 0 <= j < Octants
      ensures !HasOctant(0, j)
    {
    }
    AccFlagsBits(c, depth, 0, 0);
  }
  // ---------------------------------------------------------------------
  // The whole run
  // ---------------------------------------------------------------------

  /** Where the root record is: `BlockFile`'s `firstFile`, `firstLocation`
      and `firstLength`. */
  datatype RootInfo = RootInfo(firstFile: nat, firstLocation: nat, firstLength: nat)

  /** The result of a run: the root's location and the output files. */
  datatype Output = Output(root: RootInfo, logs: seq<seq<Cell>>)

  /** The state `ProcessBlocks` starts from: empty buffer, empty tables,
      `numFiles` empty outputs, writer 0. */
  function Start(points: seq<Formats.VertexB>, maxCount: nat, numFiles: nat): (g: Gen)
    requires numFiles > 0
    ensures Valid(g) && Inv(g) && |g.logs| == numFiles && Stream(g) == points
    ensures forall f | 0 <= f < numFiles :: g.logs[f] == []
  {
    Gen(maxCount, [], points, map[], map[], seq(numFiles, _ => []), 0)
  }

  /** `ProcessBlocks`: fill the buffer, build the tree from the root (block
      0 at the top shift, depth 0), then note the current writer's location
      and write the root's record there. */
  function ProcessBlocks(points: seq<Formats.VertexB>, maxCount: nat, numFiles: nat): (r: Result<Output>)
    requires numFiles > 0
    ensures r.Success? ==> |r.value.logs| == numFiles && LogsOk(r.value.logs)
    ensures r.Success? ==>
      var root := r.value.root;
      && root.firstFile < numFiles
      && root.firstLocation + root.firstLength == |r.value.logs[root.firstFile]|
      && root.firstLocation < |r.value.logs[root.firstFile]|
      && CellAt(r.value.logs, root.firstFile, root.firstLocation).Head?
      && root.firstLength == BlockBytes(OutBlockSize, OutVertexSize, CellAt(r.value.logs, root.firstFile, root.firstLocation).h.count)
  {
    var g0 := Start(points, maxCount, numFiles);
    var g1 := ReadNextBlock(g0);
    assert Inv(g1) by {
      assert g1.logs == g0.logs && g1.table == g0.table;
    }
    var g2 :- CreateBlocks(g1, 0, RootShift, 0);
    var loc := |g2.logs[g2.cur]|;
    var w := WritePending(g2, 0, RootShift, 0);
    WritePendingOk(g2, 0, RootShift, 0);
    var h := PendingHeader(g2, 0, RootShift, 0);
    assert w.0.logs[g2.cur][loc] == Record(h, OutBlockSize, OutVertexSize)[0];
    Success(Output(RootInfo(g2.cur, loc, w.1), w.0.logs))
  }

  lemma RecordsBytesAppend(a: seq<Header>, b: seq<Header>)
    ensures RecordsBytes(a + b, OutBlockSize, OutVertexSize)
         == RecordsBytes(a, OutBlockSize, OutVertexSize) + RecordsBytes(b, OutBlockSize, OutVertexSize)
    decreases |a|
  {
    if a != [] {
      assert (a + b)[0] == a[0] && (a + b)[1..] == a[1..] + b;
      RecordsBytesAppend(a[1..], b);
    } else {
      assert a + b == b;
    }
  }

  /** The bytes of some records are those of all but the last, plus the
      last one's. */
  lemma RecordsBytesLast(hdrs: seq<Header>)
    requires |hdrs| > 0
    ensures var n := |hdrs|;
      RecordsBytes(hdrs, OutBlockSize, OutVertexSize)
        == RecordsBytes(hdrs[..n - 1], OutBlockSize, OutVertexSize) + BlockBytes(OutBlockSize, OutVertexSize, hdrs[n - 1].count)
  {
    var n := |hdrs|;
    assert hdrs == hdrs[..n - 1] + [hdrs[n - 1]];
    RecordsBytesAppend(hdrs[..n - 1], [hdrs[n - 1]]);
    assert [hdrs[n - 1]][1..] == [];
  }

  /** The scan of a region holding the records of `hdrs`, one per set flag
      bit: it finds them all, the first at offset 0 and each next one where
      the previous record ended. */
  lemma ScanRecordsSteps(flags: bv16, hdrs: seq<Header>)
    requires |hdrs| == OctantCount(flags)
    ensures var slab := Records(hdrs, OutBlockSize, OutVertexSize);
      var r := ScanOnDisk(flags, slab);
      && r.Success?
      && |r.value| == |hdrs|
      && (forall k | 0 <= k < |r.value| :: r.value[k].offset < |slab| && slab[r.value[k].offset] == Head(r.value[k].hdr))
      && (|r.value| > 0 ==> r.value[0].offset == 0)
      && (forall k | 0 <= k < |r.value| - 1 ::
            r.value[k + 1].offset == r.value[k].offset + BlockBytes(OutBlockSize, OutVertexSize, r.value[k].hdr.count))
  {
    var slab := Records(hdrs, OutBlockSize, OutVertexSize);
    ScanOnDiskReadsBack(flags, hdrs);
    ScanOffsets(flags, slab, OutBlockSize, OutVertexSize, 0, 0);
  }

  /** ... and the last record it finds ends at the region's end. */
  lemma ScanRecordsEnd(flags: bv16, hdrs: seq<Header>)
    requires |hdrs| == OctantCount(flags) && |hdrs| > 0
    ensures var slab := Records(hdrs, OutBlockSize, OutVertexSize);
      var r := ScanOnDisk(flags, slab);
      && r.Success? && |r.value| == |hdrs|
      && r.value[|hdrs| - 1].offset + BlockBytes(OutBlockSize, OutVertexSize, r.value[|hdrs| - 1].hdr.count) == |slab|
  {
    ScanOnDiskReadsBack(flags, hdrs);
    RecordsBytesLast(hdrs);
  }

  /** A header found inside a region of a sound set of files is sound. */
  lemma FoundHeaderOk(logs: seq<seq<Cell>>, file: nat, loc: nat, len: nat, off: nat)
    requires LogsOk(logs) && file < |logs| && loc + len <= |logs[file]| && off < len
    requires logs[file][loc..loc + len][off].Head?
    ensures HeaderOk(logs, logs[file][loc..loc + len][off].h)
  {
    assert logs[file][loc..loc + len][off] == CellAt(logs, file, loc + off);
  }

  /** The viewer reads back any children region of a sound set of files:
      `findBlocks` (with the on-disk header size) finds one record per set
      flag bit, the first at the start of the region and each next one
      where the previous `WritePendingBlock` record ended, the last ending at
      the region's end. */
  lemma ChildrenReadBack(logs: seq<seq<Cell>>, h: Header)
    requires HeaderOk(logs, h) && h.childFlags != 0
    ensures 0 <= h.childFile < |logs| && h.childLocation + h.childLength <= |logs[h.childFile]|
    ensures var slab := logs[h.childFile][h.childLocation..h.childLocation + h.childLength];
      var r := ScanOnDisk(h.childFlags, slab);
      && r.Success?
      && |r.value| == OctantCount(h.childFlags)
      && (|r.value| > 0 ==> r.value[0].offset == 0)
      && (forall k | 0 <= k < |r.value| - 1 ::
            r.value[k + 1].offset == r.value[k].offset + BlockBytes(OutBlockSize, OutVertexSize, r.value[k].hdr.count))
      && (|r.value| > 0 ==>
            r.value[|r.value| - 1].offset + BlockBytes(OutBlockSize, OutVertexSize, r.value[|r.value| - 1].hdr.count) == |slab|)
  {
    var hdrs := RegionRecords(logs, h);
    SlabReadBack(h.childFlags, logs[h.childFile][h.childLocation..h.childLocation + h.childLength], hdrs);
  }

  /** ... and every header it finds there is itself sound, so the reader can
      descend. */
  lemma ChildrenSound(logs: seq<seq<Cell>>, h: Header)
    requires LogsOk(logs) && HeaderOk(logs, h) && h.childFlags != 0
    ensures 0 <= h.childFile < |logs| && h.childLocation + h.childLength <= |logs[h.childFile]|
    ensures var r := ScanOnDisk(h.childFlags, logs[h.childFile][h.childLocation..h.childLocation + h.childLength]);
      r.Success? ==> forall k | 0 <= k < |r.value| :: HeaderOk(logs, r.value[k].hdr)
  {
    FoundSound(logs, h.childFile, h.childLocation, h.childLength, h.childFlags);
  }

  /** Every header the on-disk scan finds in a slice of a sound set of
      files is sound. */
  lemma FoundSound(logs: seq<seq<Cell>>, file: nat, loc: nat, len: nat, flags: bv16)
    requires LogsOk(logs) && file < |logs| && loc + len <= |logs[file]|
    ensures var r := ScanOnDisk(flags, logs[file][loc..loc + len]);
      r.Success? ==> forall k | 0 <= k < |r.value| :: HeaderOk(logs, r.value[k].hdr)
  {
    var slab := logs[file][loc..loc + len];
    var r := ScanOnDisk(flags, slab);
    if r.Success? {
      ScanOffsets(flags, slab, OutBlockSize, OutVertexSize, 0, 0);
      FoundAllOk(logs, file, loc, len, slab, r.value);
    }
  }

  /** Every header found at a header cell of a region of a sound set of
      files is sound. */
  lemma FoundAllOk(logs: seq<seq<Cell>>, file: nat, loc: nat, len: nat, slab: seq<Cell>, found: seq<Found>)
    requires LogsOk(logs) && file < |logs| && loc + len <= |logs[file]|
    requires slab == logs[file][loc..loc + len]
    requires OffsetsOk(slab, OutBlockSize, OutVertexSize, 0, found)
    ensures forall k | 0 <= k < |found| :: HeaderOk(logs, found[k].hdr)
  {
    forall k | 0 <= k < |found|
      ensures HeaderOk(logs, found[k].hdr)
    {
      FoundHeaderOk(logs, file, loc, len, found[k].offset);
    }
  }

  /** The headers whose records make up a sound header's children region. */
  lemma RegionRecords(logs: seq<seq<Cell>>, h: Header) returns (hdrs: seq<Header>)
    requires HeaderOk(logs, h) && h.childFlags != 0
    ensures 0 <= h.childFile < |logs| && h.childLocation + h.childLength <= |logs[h.childFile]|
    ensures |hdrs| == OctantCount(h.childFlags)
    ensures logs[h.childFile][h.childLocation..h.childLocation + h.childLength] == Records(hdrs, OutBlockSize, OutVertexSize)
  {
    hdrs :| |hdrs| == OctantCount(h.childFlags)
      && logs[h.childFile][h.childLocation..h.childLocation + h.childLength] == Records(hdrs, OutBlockSize, OutVertexSize);
  }

  /** Scanning a region that holds the records of `hdrs` finds them one
      after another from offset 0, the last ending at the region's end. */
  lemma SlabReadBack(flags: bv16, slab: seq<Cell>, hdrs: seq<Header>)
    requires |hdrs| == OctantCount(flags) && slab == Records(hdrs, OutBlockSize, OutVertexSize)
    ensures var r := ScanOnDisk(flags, slab);
      && r.Success?
      && |r.value| == OctantCount(flags)
      && OffsetsOk(slab, OutBlockSize, OutVertexSize, 0, r.value)
      && (|r.value| > 0 ==>
            r.value[|r.value| - 1].offset + BlockBytes(OutBlockSize, OutVertexSize, r.value[|r.value| - 1].hdr.count) == |slab|)
  {
    ScanRecordsSteps(flags, hdrs);
    if |hdrs| > 0 {
      ScanRecordsEnd(flags, hdrs);
    }
  }
}
