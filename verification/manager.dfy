/** The block manager (BlockManager.cpp): loading root blocks, the loader's
    claim step (pick the best split candidate of a sub-file, make room by
    merging, account for the bytes, flag the parent), the completion step
    that links the children read from disk, removal of a block's children
    and the deferred free. Memory is the arena of `Forest`: a block's id is
    its address, so a children region allocated at `base` puts the child
    found at byte `offset` at id `base + offset`. */
module Manager {
  import opened Wrappers
  import opened Blocks
  import opened Forest
  import opened Priority
  import opened Schedule
  import opened Layout
  import opened Snapshots

  /** The manager's state: resident blocks, the root of each snapshot, the
      byte and block counters, the children regions still to be freed
      (`deadBlocks`), and which blocks each allocated region holds. */
  datatype State = State(
    arena: Arena,
    roots: seq<Option<NodeId>>,
    totalBytes: int,
    totalBlocks: int,
    dead: seq<Option<NodeId>>,
    slabs: map<NodeId, set<NodeId>>)

  /** The block with a runtime flag set in its flags. */
  function WithFlag(b: Block, f: bv16): Block {
    b.(hdr := b.hdr.(childFlags := b.hdr.childFlags | f))
  }

  /** `b` has the same persisted shape as `a`: the same addresses, and each
      block keeps its depth, its children's location, length and file, its
      octant bits and its vertex count. Only runtime flags and child slots
      may differ. */
  predicate SameShape(a: Arena, b: Arena) {
    && a.Keys == b.Keys
    && forall x | x in a :: SameHeaderShape(a[x].hdr, b[x].hdr)
  }

  lemma SameShapeTrans(a: Arena, b: Arena, c: Arena)
    requires SameShape(a, b) && SameShape(b, c)
    ensures SameShape(a, c)
  {
  }

  /** Setting a runtime flag keeps the octant bits. */
  lemma RuntimeFlagKeepsOctants(flags: bv16, f: bv16)
    requires f == LoadFlag || f == DeleteFlag
    ensures OctantBits(flags | f) == OctantBits(flags)
    ensures OctantBits(flags & !f) == OctantBits(flags)
  {
    ManagerFlagsAreHighBits(flags);
    HighBitsKeepOctants(flags, f);
  }

  /** The first loop of `removeBlocks`: every block named by a non-null slot
      of `cs` gets the delete flag. */
  function MarkDeleted(a: Arena, cs: seq<Option<NodeId>>): (r: Arena)
    ensures r.Keys == a.Keys
    ensures forall x | x in a :: r[x] == if Some(x) in cs then WithFlag(a[x], DeleteFlag) else a[x]
  {
    if cs == [] then a
    else
      var r := MarkDeleted(a, cs[1..]);
      assert forall x :: Some(x) in cs <==> Some(x) == cs[0] || Some(x) in cs[1..];
      if cs[0].Some? && cs[0].value in r then
        var x := cs[0].value;
        assert WithFlag(WithFlag(a[x], DeleteFlag), DeleteFlag) == WithFlag(a[x], DeleteFlag);
        r[x := WithFlag(a[x], DeleteFlag)]
      else r
  }

  /** `removeBlocks(parent)`: flags every resident child of `p` for deletion,
      nulls all of `p`'s slots, lowers the block count by the number of
      resident children and the byte count by `p`'s children length, and
      queues the first resident child (the start of the children region; a
      null pointer when none is resident) for freeing. */
  function RemoveBlocks(s: State, p: NodeId): (r: State)
    requires p in s.arena
    ensures r.arena.Keys == s.arena.Keys
    ensures r.arena[p].childPtr == NoChildren
    ensures r.totalBlocks == s.totalBlocks - Resident(s.arena, p)
    ensures r.totalBytes == s.totalBytes - s.arena[p].hdr.childLength
    ensures r.dead == s.dead + [FirstResident(s.arena[p].childPtr)]
    ensures r.roots == s.roots && r.slabs == s.slabs
  {
    var cs := s.arena[p].childPtr;
    var a1 := MarkDeleted(s.arena, cs);
    s.(arena := a1[p := a1[p].(childPtr := NoChildren)],
       totalBlocks := s.totalBlocks - ResidentIn(cs),
       dead := s.dead + [FirstResident(cs)],
       totalBytes := s.totalBytes - s.arena[p].hdr.childLength)
  }

  /** What removal does to the blocks: only `p`'s slots change, and exactly
      `p`'s resident children gain the delete flag. */
  lemma RemoveBlocksEffect(s: State, p: NodeId)
    requires p in s.arena
    ensures var b := RemoveBlocks(s, p).arena;
      && (forall x | x in s.arena && x != p :: b[x].childPtr == s.arena[x].childPtr)
      && (forall x | x in s.arena ::
            b[x].hdr == if ChildOf(s.arena, p, x) then WithFlag(s.arena[x], DeleteFlag).hdr else s.arena[x].hdr)
  {
    var a := s.arena;
    var a1 := MarkDeleted(a, a[p].childPtr);
    var b := RemoveBlocks(s, p).arena;
    assert b == a1[p := a1[p].(childPtr := NoChildren)];
    forall x | x in a
      ensures b[x].hdr == if ChildOf(a, p, x) then WithFlag(a[x], DeleteFlag).hdr else a[x].hdr
      ensures x != p ==> b[x].childPtr == a[x].childPtr
    {
      assert b[x].hdr == a1[x].hdr;
    }
  }

  /** Removal keeps depths, counts, lengths, files and octant bits. */
  lemma RemoveBlocksShape(s: State, p: NodeId)
    requires p in s.arena
    ensures SameShape(s.arena, RemoveBlocks(s, p).arena)
  {
    var a := s.arena;
    var b := RemoveBlocks(s, p).arena;
    RemoveBlocksEffect(s, p);
    forall x | x in a
      ensures SameHeaderShape(a[x].hdr, b[x].hdr)
    {
      DeleteFlagKeepsShape(a[x].hdr, b[x].hdr);
    }
  }

  /** The persisted fields of a header and its octant bits agree. */
  predicate SameHeaderShape(h: Header, g: Header) {
    && g.depth == h.depth
    && g.count == h.count
    && g.childLength == h.childLength
    && g.childFile == h.childFile
    && OctantBits(g.childFlags) == OctantBits(h.childFlags)
  }

  lemma DeleteFlagKeepsShape(h: Header, g: Header)
    requires g == h || g == h.(childFlags := h.childFlags | DeleteFlag)
    ensures SameHeaderShape(h, g)
  {
    RuntimeFlagKeepsOctants(h.childFlags, DeleteFlag);
  }

  /** Removing a block's children keeps the forest linked: `p` ends with no
      children, every other block keeps its slots, and the flagged children
      keep their depth and octant bits. */
  lemma RemoveKeepsLinked(s: State, p: NodeId)
    requires p in s.arena && Linked(s.arena)
    ensures Linked(RemoveBlocks(s, p).arena)
  {
    var a := s.arena;
    var b := RemoveBlocks(s, p).arena;
    RemoveBlocksEffect(s, p);
    RemoveBlocksShape(s, p);
    forall id, i | id in b && 0 <= i < Octants
      ensures LinkOk(b, id, i)
    {
      if id == p {
        LinkOkLeaf(b, id, i);
      } else {
        LinkOkKept(a, b, id, i);
      }
    }
  }

  /** A block whose slots are unchanged keeps its link when the shape is. */
  lemma LinkOkKept(a: Arena, b: Arena, id: NodeId, i: nat)
    requires SameShape(a, b) && id in a && i < Octants && LinkOk(a, id, i)
    requires b[id].childPtr == a[id].childPtr
    ensures LinkOk(b, id, i)
  {
  }

  /** After removal every former child of `p` is busy, so no later walk
      schedules it: it is pending delete. */
  lemma RemovedChildrenAreBusy(s: State, p: NodeId, c: NodeId)
    requires p in s.arena && c in s.arena && ChildOf(s.arena, p, c)
    ensures Busy(RemoveBlocks(s, p).arena[c].hdr.childFlags)
    ensures !ChildOf(RemoveBlocks(s, p).arena, p, c)
  {
    RemoveBlocksEffect(s, p);
  }

  /** Resident children of the blocks `bs`, each block counted at its first
      occurrence: removing a block again finds its slots already null. */
  function RemovedCount(a: Arena, bs: seq<NodeId>): nat
    requires forall x | x in bs :: x in a
  {
    if bs == [] then 0
    else
      var init := bs[..|bs| - 1];
      var last := bs[|bs| - 1];
      assert forall x | x in init :: x in bs;
      RemovedCount(a, init) + (if last in init then 0 else Resident(a, last))
  }

  /** The region starts `removeBlocks` queues for freeing, one per block of
      `bs`: the first resident child, or a null pointer for a block already
      removed. */
  function RemovedRegions(a: Arena, bs: seq<NodeId>): (r: seq<Option<NodeId>>)
    requires forall x | x in bs :: x in a
    ensures |r| == |bs|
  {
    if bs == [] then []
    else
      var init := bs[..|bs| - 1];
      var last := bs[|bs| - 1];
      assert forall x | x in init :: x in bs;
      RemovedRegions(a, init) + [if last in init then None else FirstResident(a[last].childPtr)]
  }

  /** The removal loop of `LoadingLoop`: `removeBlocks` on each merged block
      in order. */
  function RemoveAll(s: State, bs: seq<NodeId>): (r: State)
    requires forall x | x in bs :: x in s.arena
    ensures SameShape(s.arena, r.arena)
    ensures r.totalBytes == s.totalBytes - MergedBytes(s.arena, bs)
    ensures |r.dead| == |s.dead| + |bs|
    ensures r.roots == s.roots && r.slabs == s.slabs
  {
    if bs == [] then s
    else
      var prev := RemoveAll(s, bs[..|bs| - 1]);
      var last := bs[|bs| - 1];
      var r := RemoveBlocks(prev, last);
      RemoveBlocksShape(prev, last);
      SameShapeTrans(s.arena, prev.arena, r.arena);
      assert forall x | x in bs :: x in bs[..|bs| - 1] || x == last;
      r
  }

  /** Removal touches only the slots of the removed block. */
  lemma RemoveBlocksSlots(s: State, p: NodeId)
    requires p in s.arena
    ensures forall x | x in s.arena ::
      RemoveBlocks(s, p).arena[x].childPtr == if x == p then NoChildren else s.arena[x].childPtr
  {
    RemoveBlocksEffect(s, p);
  }

  lemma InitIn(bs: seq<NodeId>)
    requires bs != []
    ensures forall x | x in bs[..|bs| - 1] :: x in bs
  {
  }

  /** Removal flags exactly the removed block's resident children. */
  lemma RemoveBlocksHeaders(s: State, p: NodeId)
    requires p in s.arena
    ensures forall x | x in s.arena ::
      RemoveBlocks(s, p).arena[x].hdr == (if ChildOf(s.arena, p, x) then WithFlag(s.arena[x], DeleteFlag).hdr else s.arena[x].hdr)
  {
    RemoveBlocksEffect(s, p);
  }

  /** An element of a non-empty sequence is its last one or in the rest. */
  lemma InitOrLast(bs: seq<NodeId>, x: NodeId)
    requires bs != []
    ensures x in bs <==> x in bs[..|bs| - 1] || x == bs[|bs| - 1]
  {
    assert bs == bs[..|bs| - 1] + [bs[|bs| - 1]];
  }

  /** Every merged block ends with null slots; every other block keeps its
      slots. */
  lemma {:induction false} RemoveAllSlots(s: State, bs: seq<NodeId>)
    requires forall x | x in bs :: x in s.arena
    ensures forall x | x in s.arena ::
      RemoveAll(s, bs).arena[x].childPtr == if x in bs then NoChildren else s.arena[x].childPtr
  {
    if bs != [] {
      var init := bs[..|bs| - 1];
      var last := bs[|bs| - 1];
      assert forall x | x in init :: x in bs;
      var prev := RemoveAll(s, init);
      RemoveAllSlots(s, init);
      RemoveBlocksSlots(prev, last);
      var r := RemoveBlocks(prev, last);
      forall x | x in s.arena
        ensures r.arena[x].childPtr == if x in bs then NoChildren else s.arena[x].childPtr
      {
        InitOrLast(bs, x);
      }
    }
  }

  /** The block count drops by the merged blocks' resident children, and
      each merged block queues its first resident child for freeing. */
  lemma {:induction false} RemoveAllCounts(s: State, bs: seq<NodeId>)
    requires forall x | x in bs :: x in s.arena
    ensures RemoveAll(s, bs).totalBlocks == s.totalBlocks - RemovedCount(s.arena, bs)
    ensures RemoveAll(s, bs).dead == s.dead + RemovedRegions(s.arena, bs)
  {
    if bs != [] {
      var init := bs[..|bs| - 1];
      var last := bs[|bs| - 1];
      InitIn(bs);
      var prev := RemoveAll(s, init);
      RemoveAllCounts(s, init);
      RemoveAllSlots(s, init);
      assert prev.arena[last].childPtr == if last in init then NoChildren else s.arena[last].childPtr;
      var gone := if last in init then None else FirstResident(s.arena[last].childPtr);
      if last in init {
        NoChildrenEmpty();
      }
      assert RemovedRegions(s.arena, bs) == RemovedRegions(s.arena, init) + [gone];
      AppendAssoc(s.dead, RemovedRegions(s.arena, init), [gone]);
    }
  }

  lemma AppendAssoc<T>(a: seq<T>, b: seq<T>, c: seq<T>)
    ensures (a + b) + c == a + (b + c)
  {
  }

  lemma NoChildrenEmpty()
    ensures ResidentIn(NoChildren) == 0 && FirstResident(NoChildren) == None
  {
    ResidentMeansSomeSlot(NoChildren);
  }

  /** Exactly the resident children of the merged blocks gain the delete
      flag; every other header is unchanged. */
  lemma {:induction false} RemoveAllFlags(s: State, bs: seq<NodeId>)
    requires forall x | x in bs :: x in s.arena
    ensures forall x | x in s.arena ::
      RemoveAll(s, bs).arena[x].hdr ==
        (if exists y | y in bs :: ChildOf(s.arena, y, x) then WithFlag(s.arena[x], DeleteFlag).hdr else s.arena[x].hdr)
  {
    if bs != [] {
      var init := bs[..|bs| - 1];
      var last := bs[|bs| - 1];
      InitIn(bs);
      var prev := RemoveAll(s, init);
      RemoveAllFlags(s, init);
      RemoveAllSlots(s, init);
      RemoveBlocksHeaders(prev, last);
      FlagsStep(s.arena, prev.arena, RemoveBlocks(prev, last).arena, bs);
    }
  }

  lemma FlagsStep(a: Arena, prev: Arena, r: Arena, bs: seq<NodeId>)
    requires bs != [] && (forall y | y in bs :: y in a) && a.Keys == prev.Keys && a.Keys == r.Keys
    requires prev[bs[|bs| - 1]].childPtr ==
      if bs[|bs| - 1] in bs[..|bs| - 1] then NoChildren else a[bs[|bs| - 1]].childPtr
    requires forall x | x in a ::
      prev[x].hdr == (if exists y | y in bs[..|bs| - 1] :: ChildOf(a, y, x) then WithFlag(a[x], DeleteFlag).hdr else a[x].hdr)
    requires forall x | x in prev ::
      r[x].hdr == (if ChildOf(prev, bs[|bs| - 1], x) then WithFlag(prev[x], DeleteFlag).hdr else prev[x].hdr)
    ensures forall x | x in a ::
      r[x].hdr == (if exists y | y in bs :: ChildOf(a, y, x) then WithFlag(a[x], DeleteFlag).hdr else a[x].hdr)
  {
    forall x | x in a
      ensures r[x].hdr ==
        (if exists y | y in bs :: ChildOf(a, y, x) then WithFlag(a[x], DeleteFlag).hdr else a[x].hdr)
    {
      FlagsStepAt(a, prev, r, bs, x);
    }
  }

  /** One turn of the removal loop, seen from block `x`'s header. */
  lemma FlagsStepAt(a: Arena, prev: Arena, r: Arena, bs: seq<NodeId>, x: NodeId)
    requires bs != [] && (forall y | y in bs :: y in a) && x in a && x in prev
    requires bs[|bs| - 1] in prev
    requires prev[bs[|bs| - 1]].childPtr ==
      if bs[|bs| - 1] in bs[..|bs| - 1] then NoChildren else a[bs[|bs| - 1]].childPtr
    requires prev[x].hdr ==
      (if exists y | y in bs[..|bs| - 1] :: ChildOf(a, y, x) then WithFlag(a[x], DeleteFlag).hdr else a[x].hdr)
    requires x in r && r[x].hdr ==
      (if ChildOf(prev, bs[|bs| - 1], x) then WithFlag(prev[x], DeleteFlag).hdr else prev[x].hdr)
    ensures r[x].hdr ==
      (if exists y | y in bs :: ChildOf(a, y, x) then WithFlag(a[x], DeleteFlag).hdr else a[x].hdr)
  {
    var init := bs[..|bs| - 1];
    var last := bs[|bs| - 1];
    var before := exists y | y in init :: ChildOf(a, y, x);
    var now := ChildOf(prev, last, x);
    assert now == (last !in init && ChildOf(a, last, x)) by {
      if last in init {
        ClearedHasNoChild(prev, last, x);
      }
    }
    SomeParentSplit(a, bs, x);
    FlagStep(a[x], prev[x], r[x].hdr, before, now);
  }

  /** A block is a child of one of `bs` exactly when it is a child of one
      of the rest or of the last. */
  lemma SomeParentSplit(a: Arena, bs: seq<NodeId>, x: NodeId)
    requires bs != [] && forall y | y in bs :: y in a
    ensures (exists y | y in bs :: ChildOf(a, y, x)) <==>
      (exists y | y in bs[..|bs| - 1] :: ChildOf(a, y, x)) || ChildOf(a, bs[|bs| - 1], x)
  {
    forall y ensures y in bs <==> y in bs[..|bs| - 1] || y == bs[|bs| - 1] {
      InitOrLast(bs, y);
    }
  }

  lemma ClearedHasNoChild(a: Arena, p: NodeId, c: NodeId)
    requires p in a && a[p].childPtr == NoChildren
    ensures !ChildOf(a, p, c)
  {
  }

  /** Setting the delete flag once or twice is the same. */
  lemma FlagStep(b0: Block, bp: Block, hr: Header, before: bool, now: bool)
    requires bp.hdr == if before then WithFlag(b0, DeleteFlag).hdr else b0.hdr
    requires hr == if now then WithFlag(bp, DeleteFlag).hdr else bp.hdr
    ensures hr == if before || now then WithFlag(b0, DeleteFlag).hdr else b0.hdr
  {
    if before && now {
      FlagTwice(b0, bp, hr);
    } else if now {
      FlagOnce(b0, bp, hr);
    }
  }

  lemma FlagTwice(b0: Block, bp: Block, hr: Header)
    requires bp.hdr == WithFlag(b0, DeleteFlag).hdr
    requires hr == WithFlag(bp, DeleteFlag).hdr
    ensures hr == WithFlag(b0, DeleteFlag).hdr
  {
    FlagIdempotent(b0.hdr, bp.hdr);
  }

  lemma FlagIdempotent(h: Header, g: Header)
    requires g == h.(childFlags := h.childFlags | DeleteFlag)
    ensures g.(childFlags := g.childFlags | DeleteFlag) == g
  {
    OrTwice(h.childFlags);
  }

  lemma OrTwice(f: bv16)
    ensures (f | DeleteFlag) | DeleteFlag == f | DeleteFlag
  {
  }

  lemma FlagOnce(b0: Block, bp: Block, hr: Header)
    requires bp.hdr == b0.hdr
    requires hr == WithFlag(bp, DeleteFlag).hdr
    ensures hr == WithFlag(b0, DeleteFlag).hdr
  {
  }




  lemma {:induction false} RemoveAllKeepsLinked(s: State, bs: seq<NodeId>)
    requires forall x | x in bs :: x in s.arena
    requires Linked(s.arena)
    ensures Linked(RemoveAll(s, bs).arena)
  {
    if bs != [] {
      RemoveAllKeepsLinked(s, bs[..|bs| - 1]);
      RemoveKeepsLinked(RemoveAll(s, bs[..|bs| - 1]), bs[|bs| - 1]);
    }
  }

  /** Found children's octants are below eight and strictly ascending, and
      their offsets strictly ascending. */
  predicate WellScanned(found: seq<Found>) {
    && (forall k | 0 <= k < |found| :: found[k].octant < Octants)
    && (forall k, l | 0 <= k < l < |found| :: found[k].octant < found[l].octant)
    && (forall k, l | 0 <= k < l < |found| :: found[k].offset < found[l].offset)
  }

  /** Offsets that step by a positive record size are strictly ascending. */
  lemma {:induction false} StepsAscend(found: seq<Found>, hs: nat, vs: nat)
    requires hs >= 1
    requires forall k | 0 <= k < |found| - 1 ::
      found[k + 1].offset == found[k].offset + BlockBytes(hs, vs, found[k].hdr.count)
    ensures forall k, l | 0 <= k < l < |found| :: found[k].offset < found[l].offset
  {
    if |found| > 1 {
      StepsAscend(found[1..], hs, vs);
      assert found[0].offset < found[1].offset;
      forall l | 1 <= l < |found|
        ensures found[0].offset < found[l].offset
      {
        if l > 1 {
          assert found[1..][0] == found[1] && found[1..][l - 1] == found[l];
        }
      }
      forall k, l | 0 <= k < l < |found|
        ensures found[k].offset < found[l].offset
      {
        if k > 0 {
          assert found[1..][k - 1] == found[k] && found[1..][l - 1] == found[l];
        }
      }
    }
  }

  /** What a successful scan with a positive header size reports is well
      formed. */
  lemma ScanWellFormed(flags: bv16, slab: seq<Cell>, hs: nat, vs: nat)
    requires hs >= 1
    requires Scan(flags, slab, hs, vs, 0, 0).Success?
    ensures WellScanned(Scan(flags, slab, hs, vs, 0, 0).value)
  {
    ScanOffsets(flags, slab, hs, vs, 0, 0);
    ScanOctantsPresent(flags, slab, hs, vs, 0, 0);
    StepsAscend(Scan(flags, slab, hs, vs, 0, 0).value, hs, vs);
  }

  /** The addresses of the found children in a region at `base`. */
  function ChildIds(base: NodeId, found: seq<Found>): (r: set<NodeId>)
    ensures forall x :: x in r <==> exists k | 0 <= k < |found| :: x == base + found[k].offset
  {
    set k | 0 <= k < |found| :: base + found[k].offset
  }

  /** Points each found child's octant slot at its address. */
  function LinkSlots(slots: Slots, base: NodeId, found: seq<Found>): (r: Slots)
    requires forall k | 0 <= k < |found| :: found[k].octant < Octants
    decreases |found|
  {
    if found == [] then slots
    else LinkSlots(slots[found[0].octant := Some(base + found[0].offset)], base, found[1..])
  }

  /** Each found child's slot points at it; every other slot is untouched. */
  lemma {:induction false} LinkSlotsEffect(slots: Slots, base: NodeId, found: seq<Found>)
    requires WellScanned(found)
    ensures forall k | 0 <= k < |found| :: LinkSlots(slots, base, found)[found[k].octant] == Some(base + found[k].offset)
    ensures forall i | 0 <= i < Octants && (forall k | 0 <= k < |found| :: found[k].octant != i) ::
      LinkSlots(slots, base, found)[i] == slots[i]
    decreases |found|
  {
    if found != [] {
      var s1 := slots[found[0].octant := Some(base + found[0].offset)];
      assert WellScanned(found[1..]);
      LinkSlotsEffect(s1, base, found[1..]);
      forall k | 1 <= k < |found|
        ensures found[1..][k - 1] == found[k] && found[k].octant != found[0].octant
      {
      }
    }
  }

  /** Places a fresh block with null slots at each found child's address. */
  function AddChildren(a: Arena, base: NodeId, found: seq<Found>): (r: Arena)
    ensures forall x | x in a :: x in r
    ensures forall k | 0 <= k < |found| :: base + found[k].offset in r
    decreases |found|
  {
    if found == [] then a
    else AddChildren(a, base, found[1..])[base + found[0].offset := Block(found[0].hdr, NoChildren)]
  }

  predicate OffsetsAscend(found: seq<Found>) {
    forall k, l | 0 <= k < l < |found| :: found[k].offset < found[l].offset
  }

  /** Each found child sits at its address with null slots. */
  lemma {:induction false} AddChildrenNew(a: Arena, base: NodeId, found: seq<Found>, k: nat)
    requires OffsetsAscend(found) && k < |found|
    ensures AddChildren(a, base, found)[base + found[k].offset] == Block(found[k].hdr, NoChildren)
    decreases |found|
  {
    if k > 0 {
      var rest := AddChildren(a, base, found[1..]);
      assert OffsetsAscend(found[1..]) by {
        forall i, j | 0 <= i < j < |found[1..]|
          ensures found[1..][i].offset < found[1..][j].offset
        {
          assert found[1..][i] == found[i + 1] && found[1..][j] == found[j + 1];
        }
      }
      AddChildrenNew(a, base, found[1..], k - 1);
      assert found[1..][k - 1] == found[k];
      assert found[0].offset < found[k].offset;
    }
  }

  /** Blocks at other addresses are untouched. */
  lemma {:induction false} AddChildrenOld(a: Arena, base: NodeId, found: seq<Found>, x: NodeId)
    requires x in a && x !in ChildIds(base, found)
    ensures AddChildren(a, base, found)[x] == a[x]
    decreases |found|
  {
    if found != [] {
      AddChildrenOld(a, base, found[1..], x);
    }
  }

  /** The addresses a region at `base` adds are exactly the found ones. */
  lemma {:induction false} AddChildrenKeys(a: Arena, base: NodeId, found: seq<Found>, x: NodeId)
    requires x in AddChildren(a, base, found)
    ensures x in a || x in ChildIds(base, found)
    decreases |found|
  {
    if found != [] && x != base + found[0].offset {
      AddChildrenKeys(a, base, found[1..], x);
      if x in ChildIds(base, found[1..]) {
        var k :| 0 <= k < |found[1..]| && x == base + found[1..][k].offset;
        assert found[1..][k] == found[k + 1];
      }
    }
  }

  /** Links the found children of a region at `base` below `p`: each is
      placed at its address with null slots and hung in its octant slot, and
      the parent's load flag is cleared. */
  function Install(a: Arena, p: NodeId, base: NodeId, found: seq<Found>): (r: Arena)
    requires p in a && WellScanned(found)
  {
    var b := a[p];
    AddChildren(a, base, found)[p := Block(b.hdr.(childFlags := b.hdr.childFlags & !LoadFlag), LinkSlots(b.childPtr, base, found))]
  }

  /** The children a scan finds lie in the region, in octants whose bit is
      set, at header cells holding their headers; every set octant is found. */
  predicate FoundIn(found: seq<Found>, flags: bv16, slab: seq<Cell>) {
    && WellScanned(found)
    && (forall k | 0 <= k < |found| ::
          && found[k].offset < |slab|
          && HasOctant(flags, found[k].octant)
          && slab[found[k].offset] == Head(found[k].hdr))
    && (forall i | 0 <= i < Octants && HasOctant(flags, i) :: exists k | 0 <= k < |found| :: found[k].octant == i)
  }

  lemma ScanFoundIn(flags: bv16, slab: seq<Cell>, vertexSize: nat)
    requires Scan(flags, slab, OutBlockSize, vertexSize, 0, 0).Success?
    ensures FoundIn(Scan(flags, slab, OutBlockSize, vertexSize, 0, 0).value, flags, slab)
  {
    ScanWellFormed(flags, slab, OutBlockSize, vertexSize);
    ScanOffsets(flags, slab, OutBlockSize, vertexSize, 0, 0);
    ScanOctantsPresent(flags, slab, OutBlockSize, vertexSize, 0, 0);
    ScanOctantsCovered(flags, slab, OutBlockSize, vertexSize, 0, 0);
  }

  /** Region addresses are fresh: nothing resident lies in `[base, base + len)`. */
  predicate FreshRegion(a: Arena, base: NodeId, len: nat) {
    forall x | x in a :: x < base || base + len <= x
  }

  lemma InstallChildren(a: Arena, p: NodeId, base: NodeId, found: seq<Found>, flags: bv16, slab: seq<Cell>)
    requires p in a && FoundIn(found, flags, slab) && FreshRegion(a, base, |slab|)
    ensures forall k | 0 <= k < |found| ::
      && base + found[k].offset in Install(a, p, base, found)
      && Install(a, p, base, found)[base + found[k].offset] == Block(found[k].hdr, NoChildren)
      && Install(a, p, base, found)[p].childPtr[found[k].octant] == Some(base + found[k].offset)
  {
    LinkSlotsEffect(a[p].childPtr, base, found);
    forall k | 0 <= k < |found|
      ensures Install(a, p, base, found)[base + found[k].offset] == Block(found[k].hdr, NoChildren)
    {
      AddChildrenNew(a, base, found, k);
    }
  }

  lemma InstallParent(a: Arena, p: NodeId, base: NodeId, found: seq<Found>, flags: bv16, slab: seq<Cell>)
    requires p in a && FoundIn(found, flags, slab) && flags == a[p].hdr.childFlags
    ensures var r := Install(a, p, base, found);
      && (forall i | 0 <= i < Octants && !HasOctant(flags, i) :: r[p].childPtr[i] == a[p].childPtr[i])
      && r[p].hdr == a[p].hdr.(childFlags := flags & !LoadFlag)
  {
    var r := Install(a, p, base, found);
    var ls := LinkSlots(a[p].childPtr, base, found);
    assert r[p] == Block(a[p].hdr.(childFlags := flags & !LoadFlag), ls);
    LinkSlotsEffect(a[p].childPtr, base, found);
    forall i | 0 <= i < Octants && !HasOctant(flags, i)
      ensures ls[i] == a[p].childPtr[i]
    {
      assert forall k | 0 <= k < |found| :: found[k].octant != i;
    }
  }

  lemma InstallOthers(a: Arena, p: NodeId, base: NodeId, found: seq<Found>, flags: bv16, slab: seq<Cell>)
    requires p in a && FoundIn(found, flags, slab) && FreshRegion(a, base, |slab|)
    ensures var r := Install(a, p, base, found);
      && (forall x | x in a && x != p :: x in r && r[x] == a[x])
      && (forall x | x in r :: x in a || x in ChildIds(base, found))
  {
    var r := Install(a, p, base, found);
    forall x | x in a && x != p
      ensures x in r && r[x] == a[x]
    {
      AddChildrenOld(a, base, found, x);
    }
    forall x | x in r
      ensures x in a || x in ChildIds(base, found)
    {
      if x != p {
        AddChildrenKeys(a, base, found, x);
      }
    }
  }

  /** `findBlocks(parent, child)` after the region has been read into memory
      at `base`: the parent's flags say which octants are present; each is
      found at the running offset (stepping by the on-disk header size plus
      `count` vertices of `vertexSize` bytes), linked into the parent's slot
      and given null slots of its own; the block count grows by the number
      found. The loader then clears the parent's load flag. A region whose
      computed offsets do not land on headers is a failure. */
  function Complete(s: State, p: NodeId, base: NodeId, slab: seq<Cell>, vertexSize: nat): (r: Result<State>)
    requires p in s.arena
    requires FreshRegion(s.arena, base, |slab|)
    ensures r.Success? <==> Scan(s.arena[p].hdr.childFlags, slab, OutBlockSize, vertexSize, 0, 0).Success?
    ensures r.Success? ==>
      var found := Scan(s.arena[p].hdr.childFlags, slab, OutBlockSize, vertexSize, 0, 0).value;
      && FoundIn(found, s.arena[p].hdr.childFlags, slab)
      && r.value.arena == Install(s.arena, p, base, found)
      && r.value.totalBlocks == s.totalBlocks + OctantCount(s.arena[p].hdr.childFlags)
      && r.value.totalBytes == s.totalBytes
      && r.value.roots == s.roots && r.value.dead == s.dead
      && r.value.slabs == s.slabs[base := ChildIds(base, found)]
  {
    var flags := s.arena[p].hdr.childFlags;
    match Scan(flags, slab, OutBlockSize, vertexSize, 0, 0)
    case Failure(e) => Failure(e)
    case Success(found) =>
      ScanFoundIn(flags, slab, vertexSize);
      Success(s.(arena := Install(s.arena, p, base, found),
                 totalBlocks := s.totalBlocks + |found|,
                 slabs := s.slabs[base := ChildIds(base, found)]))
  }

  /** The found children of a successful completion. */
  function FoundOf(s: State, p: NodeId, slab: seq<Cell>, vertexSize: nat): seq<Found>
    requires p in s.arena
    requires Scan(s.arena[p].hdr.childFlags, slab, OutBlockSize, vertexSize, 0, 0).Success?
  {
    Scan(s.arena[p].hdr.childFlags, slab, OutBlockSize, vertexSize, 0, 0).value
  }

  /** The found children hang one level below `p`. */
  predicate OneLevelBelow(a: Arena, p: NodeId, found: seq<Found>)
    requires p in a
  {
    forall k | 0 <= k < |found| :: found[k].hdr.depth == a[p].hdr.depth + 1
  }

  lemma InstallLinkOkParent(a: Arena, p: NodeId, base: NodeId, found: seq<Found>, flags: bv16, slab: seq<Cell>, i: nat)
    requires p in a && flags == a[p].hdr.childFlags && i < Octants && LinkOk(a, p, i)
    requires FoundIn(found, flags, slab) && FreshRegion(a, base, |slab|) && OneLevelBelow(a, p, found)
    ensures p in Install(a, p, base, found) && LinkOk(Install(a, p, base, found), p, i)
  {
    if HasOctant(flags, i) {
      InstallLinkPresent(a, p, base, found, flags, slab, i);
    } else {
      InstallLinkAbsent(a, p, base, found, flags, slab, i);
    }
  }

  /** The parent's slot for a present octant points at the found child. */
  lemma InstallLinkPresent(a: Arena, p: NodeId, base: NodeId, found: seq<Found>, flags: bv16, slab: seq<Cell>, i: nat)
    requires p in a && flags == a[p].hdr.childFlags && i < Octants && HasOctant(flags, i)
    requires FoundIn(found, flags, slab) && FreshRegion(a, base, |slab|) && OneLevelBelow(a, p, found)
    ensures p in Install(a, p, base, found) && LinkOk(Install(a, p, base, found), p, i)
  {
    var r := Install(a, p, base, found);
    InstallParent(a, p, base, found, flags, slab);
    RuntimeFlagKeepsOctants(flags, LoadFlag);
    InstallChildren(a, p, base, found, flags, slab);
    var k :| 0 <= k < |found| && found[k].octant == i;
    var c := base + found[k].offset;
    assert r[c].hdr == found[k].hdr && found[k].hdr.depth == a[p].hdr.depth + 1;
    LinkOkChild(r, p, i, c);
  }

  /** The parent's slot for an absent octant stays null. */
  lemma InstallLinkAbsent(a: Arena, p: NodeId, base: NodeId, found: seq<Found>, flags: bv16, slab: seq<Cell>, i: nat)
    requires p in a && flags == a[p].hdr.childFlags && i < Octants && !HasOctant(flags, i) && LinkOk(a, p, i)
    requires FoundIn(found, flags, slab)
    ensures p in Install(a, p, base, found) && LinkOk(Install(a, p, base, found), p, i)
  {
    InstallParent(a, p, base, found, flags, slab);
    LinkOkNull(Install(a, p, base, found), p, i);
  }

  /** A slot naming a block one level down, in an octant whose bit is set,
      is a good link. */
  lemma LinkOkChild(r: Arena, p: NodeId, i: nat, c: NodeId)
    requires p in r && i < Octants && r[p].childPtr[i] == Some(c)
    requires c in r && r[c].hdr.depth == r[p].hdr.depth + 1 && HasOctant(r[p].hdr.childFlags, i)
    ensures LinkOk(r, p, i)
  {
  }

  /** A null slot is a good link. */
  lemma LinkOkNull(r: Arena, p: NodeId, i: nat)
    requires p in r && i < Octants && r[p].childPtr[i].None?
    ensures LinkOk(r, p, i)
  {
  }

  lemma InstallLinkOkOther(a: Arena, p: NodeId, base: NodeId, found: seq<Found>, flags: bv16, slab: seq<Cell>, id: NodeId, i: nat)
    requires p in a && flags == a[p].hdr.childFlags && i < Octants && (id in a ==> LinkOk(a, id, i))
    requires FoundIn(found, flags, slab) && FreshRegion(a, base, |slab|)
    requires id in Install(a, p, base, found) && id != p
    ensures LinkOk(Install(a, p, base, found), id, i)
  {
    var r := Install(a, p, base, found);
    InstallOthers(a, p, base, found, flags, slab);
    if id in a {
      InstallParent(a, p, base, found, flags, slab);
      LinkOkCarried(a, r, id, i);
    } else {
      InstallChildren(a, p, base, found, flags, slab);
      var k :| 0 <= k < |found| && id == base + found[k].offset;
      LinkOkLeaf(r, id, i);
    }
  }

  /** A block whose slots and children's depths are unchanged keeps its link. */
  lemma LinkOkCarried(a: Arena, r: Arena, id: NodeId, i: nat)
    requires id in a && id in r && i < Octants && LinkOk(a, id, i)
    requires r[id] == a[id]
    requires forall x | x in a :: x in r && r[x].hdr.depth == a[x].hdr.depth
    ensures LinkOk(r, id, i)
  {
  }

  /** A block with null slots links nothing. */
  lemma LinkOkLeaf(r: Arena, id: NodeId, i: nat)
    requires id in r && i < Octants && r[id].childPtr == NoChildren
    ensures LinkOk(r, id, i)
  {
  }

  lemma InstallKeepsLinked(a: Arena, p: NodeId, base: NodeId, found: seq<Found>, flags: bv16, slab: seq<Cell>)
    requires p in a && flags == a[p].hdr.childFlags && Linked(a)
    requires FoundIn(found, flags, slab) && FreshRegion(a, base, |slab|) && OneLevelBelow(a, p, found)
    ensures Linked(Install(a, p, base, found))
  {
    var r := Install(a, p, base, found);
    forall id, i | id in r && 0 <= i < Octants
      ensures LinkOk(r, id, i)
    {
      if id == p {
        InstallLinkOkParent(a, p, base, found, flags, slab, i);
      } else {
        InstallLinkOkOther(a, p, base, found, flags, slab, id, i);
      }
    }
  }

  /** Completion keeps the forest linked when every header in the region is
      one level below the parent, as the generator writes them. */
  lemma CompleteKeepsLinked(s: State, p: NodeId, base: NodeId, slab: seq<Cell>, vertexSize: nat)
    requires p in s.arena && FreshRegion(s.arena, base, |slab|) && Linked(s.arena)
    requires Complete(s, p, base, slab, vertexSize).Success?
    requires forall j | 0 <= j < |slab| && slab[j].Head? :: slab[j].h.depth == s.arena[p].hdr.depth + 1
    ensures Linked(Complete(s, p, base, slab, vertexSize).value.arena)
  {
    var flags := s.arena[p].hdr.childFlags;
    var found := FoundOf(s, p, slab, vertexSize);
    assert FoundIn(found, flags, slab);
    assert OneLevelBelow(s.arena, p, found) by {
      forall k | 0 <= k < |found|
        ensures found[k].hdr.depth == s.arena[p].hdr.depth + 1
      {
        assert slab[found[k].offset] == Head(found[k].hdr);
      }
    }
    InstallKeepsLinked(s.arena, p, base, found, flags, slab);
  }

  /** Octant slot `octant` of `p` points at `at`, which holds a fresh block
      with header `h`. */
  predicate LinkedAt(r: Arena, p: NodeId, octant: nat, at: NodeId, h: Header) {
    && p in r && octant < Octants
    && r[p].childPtr[octant] == Some(at)
    && at in r && r[at] == Block(h, NoChildren)
  }

  /** The read-back round trip of the children region: when the region holds
      the records the generator wrote for `hdrs`, one per octant present in
      the parent's flags, completion succeeds and finds `hdrs[k]` for the
      `k`-th present octant, at the total size of the records before it;
      `InstallLinksFound` then hangs each at the region's base plus that
      offset. */
  lemma CompleteReadsBack(s: State, p: NodeId, base: NodeId, hdrs: seq<Header>)
    requires p in s.arena
    requires |hdrs| == OctantCount(s.arena[p].hdr.childFlags)
    requires FreshRegion(s.arena, base, |Records(hdrs, OutBlockSize, OutVertexSize)|)
    ensures Complete(s, p, base, Records(hdrs, OutBlockSize, OutVertexSize), OutVertexSize).Success?
    ensures var found := FoundOf(s, p, Records(hdrs, OutBlockSize, OutVertexSize), OutVertexSize);
      && |found| == |hdrs|
      && forall k | 0 <= k < |hdrs| ::
           found[k].hdr == hdrs[k] && found[k].offset == RecordsBytes(hdrs[..k], OutBlockSize, OutVertexSize)
  {
    var slab := Records(hdrs, OutBlockSize, OutVertexSize);
    var flags := s.arena[p].hdr.childFlags;
    ScanOnDiskReadsBack(flags, hdrs);
    assert ScanOnDisk(flags, slab) == Scan(flags, slab, OutBlockSize, OutVertexSize, 0, 0);
  }

  /** Every found child is linked below `p` at its address. */
  lemma InstallLinksFound(a: Arena, p: NodeId, base: NodeId, found: seq<Found>, flags: bv16, slab: seq<Cell>)
    requires p in a && FoundIn(found, flags, slab) && FreshRegion(a, base, |slab|)
    ensures forall k | 0 <= k < |found| ::
      LinkedAt(Install(a, p, base, found), p, found[k].octant, base + found[k].offset, found[k].hdr)
  {
    InstallChildren(a, p, base, found, flags, slab);
  }

  /** The first non-null slot of `s` is the one at `j` when all before it
      are null. */
  lemma {:induction false} FirstResidentAt(s: seq<Option<NodeId>>, j: nat)
    requires j < |s| && s[j].Some?
    requires forall i | 0 <= i < j :: s[i].None?
    ensures FirstResident(s) == s[j]
  {
    if j > 0 {
      FirstResidentAt(s[1..], j - 1);
    }
  }

  lemma InstallFirstChild(a: Arena, p: NodeId, base: NodeId, found: seq<Found>, flags: bv16, slab: seq<Cell>)
    requires p in a && flags == a[p].hdr.childFlags
    requires FoundIn(found, flags, slab) && FreshRegion(a, base, |slab|)
    requires |found| > 0 && found[0].offset == 0
    requires forall i | 0 <= i < Octants :: a[p].childPtr[i].None?
    ensures FirstResident(Install(a, p, base, found)[p].childPtr) == Some(base)
  {
    var r := Install(a, p, base, found);
    InstallChildren(a, p, base, found, flags, slab);
    InstallParent(a, p, base, found, flags, slab);
    var o := found[0].octant;
    assert forall i | 0 <= i < o :: r[p].childPtr[i].None?;
    FirstResidentAt(r[p].childPtr, o);
  }

  /** When a block with no resident children is completed, its first
      resident child is the start of the region, which is what `removeBlocks`
      later queues for freeing. */
  lemma CompleteFirstChildIsBase(s: State, p: NodeId, base: NodeId, slab: seq<Cell>, vertexSize: nat)
    requires p in s.arena && FreshRegion(s.arena, base, |slab|)
    requires Resident(s.arena, p) == 0 && OctantCount(s.arena[p].hdr.childFlags) > 0
    requires Complete(s, p, base, slab, vertexSize).Success?
    ensures FirstResident(Complete(s, p, base, slab, vertexSize).value.arena[p].childPtr) == Some(base)
  {
    var flags := s.arena[p].hdr.childFlags;
    var found := FoundOf(s, p, slab, vertexSize);
    ScanOffsets(flags, slab, OutBlockSize, vertexSize, 0, 0);
    ResidentMeansSomeSlot(s.arena[p].childPtr);
    InstallFirstChild(s.arena, p, base, found, flags, slab);
  }

  /** Changing only flags (keeping the octant bits) and no slot keeps the
      forest linked. */
  lemma ShapeKeepsLinked(a: Arena, b: Arena)
    requires Linked(a) && SameShape(a, b)
    requires forall x | x in a :: b[x].childPtr == a[x].childPtr
    ensures Linked(b)
  {
    forall id, i | id in b && 0 <= i < Octants
      ensures LinkOk(b, id, i)
    {
      LinkOkKept(a, b, id, i);
    }
  }

  /** The block with the load flag set, as the claim leaves it. */
  lemma LoadFlagKeepsShape(a: Arena, p: NodeId)
    requires p in a
    ensures SameShape(a, a[p := WithFlag(a[p], LoadFlag)])
  {
    RuntimeFlagKeepsOctants(a[p].hdr.childFlags, LoadFlag);
  }

  /** The cost `GetMergeCost(over, parent)` reports for the merge queue. */
  function MergeCost(a: Arena, q: Queues, n: nat, excl: Option<NodeId>): real
    requires LiveIn(a, q.merge)
  {
    if EligibleBytes(a, q.merge, excl, |q.merge|) > n then SelectedScore(a, q.merge, excl, n, |q.merge|) else 0.0
  }

  /** Bytes the claim frees by merging when it is `over` bytes over budget:
      those of the blocks `DoMerge(over, excl)` takes, nothing when it is not
      over. */
  function Freed(a: Arena, q: Queues, over: int, excl: Option<NodeId>): nat
    requires LiveIn(a, q.merge)
  {
    if over > 0 then MergedBytes(a, SelectedBlocks(a, q.merge, excl, over, |q.merge|)) else 0
  }

  /** The queues after `DoMerge(over, excl)` when the claim is `over` bytes
      over budget: the merge entries it takes are tombstoned, and so is every
      split entry whose parent it takes. Not over budget, nothing changes. */
  function AfterMerge(a: Arena, q: Queues, excl: Option<NodeId>, over: int): (r: Queues)
    requires LiveIn(a, q.split) && LiveIn(a, q.merge)
    ensures Nulled(q.split, r.split) && Nulled(q.merge, r.merge)
    ensures LiveIn(a, r.split) && LiveIn(a, r.merge)
  {
    if over <= 0 then q
    else
      var taken := SelectedBlocks(a, q.merge, excl, over, |q.merge|);
      Queues(DropChildrenOf(q.split, taken),
             seq(|q.merge|, k requires 0 <= k < |q.merge| =>
               if Selected(a, q.merge, excl, over, k) then Tombstone(q.merge[k]) else q.merge[k]))
  }

  /** The blocks whose children the claim for split entry `e` removes: those
      `DoMerge` takes when `e`'s children do not fit under `maxBytes`, none
      when they do. */
  function Evicted(s: State, q: Queues, e: Entry, maxBytes: nat): (r: seq<NodeId>)
    requires LiveIn(s.arena, q.merge) && e.block.Some? && e.block.value in s.arena
    ensures forall x | x in r :: x in s.arena && Some(x) != e.parent
    ensures MergedBytes(s.arena, r) == Freed(s.arena, q, s.arena[e.block.value].hdr.childLength + s.totalBytes - maxBytes, e.parent)
  {
    var over := s.arena[e.block.value].hdr.childLength + s.totalBytes - maxBytes;
    if over > 0 then SelectedBlocks(s.arena, q.merge, e.parent, over, |q.merge|) else []
  }

  /** The merge branch of the claim: `DoMerge(over, e.parent)` for the
      chosen split entry `e`, then `removeBlocks` on every merged block. It
      frees more than `over` bytes unless the whole queue cannot, and leaves
      `e` the split `GetSplit` returns. */
  method MakeRoom(s: State, q: Queues, subfile: int, over: nat) returns (r: State, rq: Queues)
    requires over > 0
    requires Linked(s.arena) && LiveIn(s.arena, q.split) && LiveIn(s.arena, q.merge)
    requires GetSplit(s.arena, q, subfile).Some?
    ensures var e := GetSplit(s.arena, q, subfile).value;
      && r.totalBytes == s.totalBytes - Freed(s.arena, q, over, e.parent)
      && (Freed(s.arena, q, over, e.parent) > over || Freed(s.arena, q, over, e.parent) == EligibleBytes(s.arena, q.merge, e.parent, |q.merge|))
    ensures SameShape(s.arena, r.arena) && Linked(r.arena)
    ensures r.roots == s.roots && r.slabs == s.slabs
    ensures LiveIn(s.arena, rq.split) && LiveIn(s.arena, rq.merge)
    ensures GetSplit(s.arena, rq, subfile) == GetSplit(s.arena, q, subfile)
    ensures Nulled(q.split, rq.split)
    ensures var e := GetSplit(s.arena, q, subfile).value;
      var taken := SelectedBlocks(s.arena, q.merge, e.parent, over, |q.merge|);
      && r == RemoveAll(s, taken)
      && rq == AfterMerge(s.arena, q, e.parent, over)
      && (forall x | x in s.arena :: r.arena[x].childPtr == if x in taken then NoChildren else s.arena[x].childPtr)
      && r.totalBlocks == s.totalBlocks - RemovedCount(s.arena, taken)
      && r.dead == s.dead + RemovedRegions(s.arena, taken)
  {
    var e := GetSplit(s.arena, q, subfile).value;
    var blocks;
    rq, blocks := DoMerge(s.arena, q, over, e.parent);
    r := RemoveAll(s, blocks);
    RemoveAllKeepsLinked(s, blocks);
    RemoveAllSlots(s, blocks);
    RemoveAllCounts(s, blocks);
    MergeKeepsChosenSplit(s.arena, q, subfile, blocks);
    MergedQueues(s.arena, q, e.parent, over, rq);
  }

  /** `DoMerge`'s queues are those `AfterMerge` describes. */
  lemma MergedQueues(a: Arena, q: Queues, excl: Option<NodeId>, over: nat, rq: Queues)
    requires over > 0 && LiveIn(a, q.split) && LiveIn(a, q.merge)
    requires rq.split == DropChildrenOf(q.split, SelectedBlocks(a, q.merge, excl, over, |q.merge|))
    requires |rq.merge| == |q.merge|
    requires forall k | 0 <= k < |q.merge| ::
      rq.merge[k] == if Selected(a, q.merge, excl, over, k) then Tombstone(q.merge[k]) else q.merge[k]
    ensures rq == AfterMerge(a, q, excl, over)
  {
  }

  /** `DoSplit` only nulls entries, so the queues stay live. */
  lemma DoSplitKeepsLive(a: Arena, q: Queues, subfile: int)
    requires LiveIn(a, q.split) && LiveIn(a, q.merge)
    ensures LiveIn(a, DoSplit(a, q, subfile).split) && LiveIn(a, DoSplit(a, q, subfile).merge)
  {
  }

  /** Liveness only depends on the arena's addresses. */
  lemma LiveInSameKeys(a: Arena, b: Arena, s: seq<Entry>)
    requires LiveIn(a, s) && a.Keys == b.Keys
    ensures LiveIn(b, s)
  {
  }

  /** A read the loader has committed to: the children of `parent`, of
      snapshot `snap`, go to the region allocated at `base`. */
  datatype Claimed = Claimed(parent: NodeId, snap: int, base: NodeId)

  /** How one pass of the loading loop ends: no candidate on this sub-file,
      the candidate is not worth the merges, the allocation failed, or a read
      is claimed. */
  datatype Outcome = NoCandidate | Declined | OutOfMemory | Admitted(claim: Claimed)

  /** Whether the claim goes ahead for split entry `e`: its children fit
      under `maxBytes`, or its score is at least the cost of merging the
      excess. */
  predicate WorthLoading(s: State, q: Queues, e: Entry, maxBytes: nat)
    requires LiveIn(s.arena, q.merge) && e.block.Some? && e.block.value in s.arena
  {
    var over := s.arena[e.block.value].hdr.childLength + s.totalBytes - maxBytes;
    !(over > 0 && e.score < MergeCost(s.arena, q, over, e.parent))
  }

  /** The budget step of the claim for the chosen split entry: when its
      children do not fit under `maxBytes`, compare its score with the merge
      cost and decline, or merge (removing the merged blocks' children). */
  method Budget(s: State, q: Queues, subfile: int, maxBytes: nat) returns (r: State, rq: Queues, go: bool)
    requires Linked(s.arena) && LiveIn(s.arena, q.split) && LiveIn(s.arena, q.merge)
    requires GetSplit(s.arena, q, subfile).Some?
    ensures SameShape(s.arena, r.arena) && Linked(r.arena)
    ensures LiveIn(s.arena, rq.split) && LiveIn(s.arena, rq.merge)
    ensures r.roots == s.roots && r.slabs == s.slabs
    ensures !go ==> r == s && rq == q
    ensures GetSplit(s.arena, rq, subfile) == GetSplit(s.arena, q, subfile)
    ensures Nulled(q.split, rq.split)
    ensures var e := GetSplit(s.arena, q, subfile).value;
      var len := s.arena[e.block.value].hdr.childLength;
      var freed := Freed(s.arena, q, len + s.totalBytes - maxBytes, e.parent);
      && (go <==> WorthLoading(s, q, e, maxBytes))
      && (go ==> r.totalBytes == s.totalBytes - freed)
      && (go ==> s.totalBytes - freed + len <= maxBytes || freed == EligibleBytes(s.arena, q.merge, e.parent, |q.merge|))
    ensures go ==> var e := GetSplit(s.arena, q, subfile).value;
      var over := s.arena[e.block.value].hdr.childLength + s.totalBytes - maxBytes;
      && r == RemoveAll(s, Evicted(s, q, e, maxBytes))
      && rq == AfterMerge(s.arena, q, e.parent, over)
  {
    var e := GetSplit(s.arena, q, subfile).value;
    var len := s.arena[e.block.value].hdr.childLength;
    r, rq, go := s, q, true;
    if len + s.totalBytes > maxBytes {
      var over := len + s.totalBytes - maxBytes;
      var cost := GetMergeCost(s.arena, q, over, e.parent);
      if e.score < cost {
        return s, q, false;
      }
      r, rq := MakeRoom(s, q, subfile, over);
      EvictedWhenOver(s, q, e, maxBytes);
    } else {
      NothingEvicted(s, q, e, maxBytes);
    }
  }

  lemma EvictedWhenOver(s: State, q: Queues, e: Entry, maxBytes: nat)
    requires LiveIn(s.arena, q.merge) && e.block.Some? && e.block.value in s.arena
    requires s.arena[e.block.value].hdr.childLength + s.totalBytes > maxBytes
    ensures Evicted(s, q, e, maxBytes) ==
      SelectedBlocks(s.arena, q.merge, e.parent, s.arena[e.block.value].hdr.childLength + s.totalBytes - maxBytes, |q.merge|)
  {
  }

  /** When the children fit, the claim removes nothing. */
  lemma NothingEvicted(s: State, q: Queues, e: Entry, maxBytes: nat)
    requires LiveIn(s.arena, q.split) && LiveIn(s.arena, q.merge) && e.block.Some? && e.block.value in s.arena
    requires s.arena[e.block.value].hdr.childLength + s.totalBytes <= maxBytes
    ensures RemoveAll(s, Evicted(s, q, e, maxBytes)) == s
    ensures AfterMerge(s.arena, q, e.parent, s.arena[e.block.value].hdr.childLength + s.totalBytes - maxBytes) == q
  {
    assert Evicted(s, q, e, maxBytes) == [];
  }

  /** The locked part of one `LoadingLoop` pass up to the allocation: take
      the best split of `subfile`; settle its budget (`Budget`); then count
      the children's bytes and consume the split entry. */
  method Reserve(s: State, q: Queues, subfile: int, maxBytes: nat) returns (r: State, rq: Queues, go: bool)
    requires Linked(s.arena) && LiveIn(s.arena, q.split) && LiveIn(s.arena, q.merge)
    ensures SameShape(s.arena, r.arena) && Linked(r.arena)
    ensures LiveIn(r.arena, rq.split) && LiveIn(r.arena, rq.merge)
    ensures r.roots == s.roots && r.slabs == s.slabs
    ensures Nulled(q.split, rq.split)
    ensures !go ==> r == s && rq == q
    ensures GetSplit(s.arena, q, subfile).None? ==> !go
    ensures GetSplit(s.arena, q, subfile).Some? ==>
      var e := GetSplit(s.arena, q, subfile).value;
      var len := s.arena[e.block.value].hdr.childLength;
      var freed := Freed(s.arena, q, len + s.totalBytes - maxBytes, e.parent);
      && (go <==> WorthLoading(s, q, e, maxBytes))
      && (go ==> r.totalBytes == s.totalBytes - freed + len)
      && (go ==> r.totalBytes <= maxBytes || freed == EligibleBytes(s.arena, q.merge, e.parent, |q.merge|))
      && (go ==> exists i | 0 <= i < |q.split| :: q.split[i] == e && rq.split[i] == Tombstone(e))
    ensures go ==> var e := GetSplit(s.arena, q, subfile).value;
      var over := s.arena[e.block.value].hdr.childLength + s.totalBytes - maxBytes;
      && r == RemoveAll(s, Evicted(s, q, e, maxBytes)).(totalBytes := r.totalBytes)
      && rq == DoSplit(s.arena, AfterMerge(s.arena, q, e.parent, over), subfile)
  {
    var g := GetSplit(s.arena, q, subfile);
    if g.None? {
      return s, q, false;
    }
    var e := g.value;
    var len := s.arena[e.block.value].hdr.childLength;
    r, rq, go := Budget(s, q, subfile, maxBytes);
    if !go {
      return;
    }
    var rq1 := rq;
    rq := DoSplit(s.arena, rq1, subfile);
    var i := DoSplitAt(s.arena, rq1, subfile);
    assert q.split[i] == e;
    NulledTombstone(q.split, rq1.split, i);
    DoSplitKeepsLive(s.arena, rq1, subfile);
    LiveInSameKeys(s.arena, r.arena, rq.split);
    LiveInSameKeys(s.arena, r.arena, rq.merge);
    r := r.(totalBytes := r.totalBytes + len);
  }

  /** One locked pass of `LoadingLoop`: `Reserve`, then allocate the
      children region. `alloc` is the allocator's answer; a failed
      allocation gives the bytes back but keeps the merges and the consumed
      split entry. An admitted parent is flagged as loading, so no merge
      takes it while its children are read. */
  method Claim(s: State, q: Queues, subfile: int, maxBytes: nat, alloc: Option<NodeId>)
    returns (r: State, rq: Queues, out: Outcome)
    requires Linked(s.arena) && LiveIn(s.arena, q.split) && LiveIn(s.arena, q.merge)
    ensures SameShape(s.arena, r.arena) && Linked(r.arena)
    ensures LiveIn(r.arena, rq.split) && LiveIn(r.arena, rq.merge)
    ensures r.roots == s.roots && r.slabs == s.slabs
    ensures |rq.split| == |q.split|
    ensures GetSplit(s.arena, q, subfile).None? ==> out == NoCandidate && r == s && rq == q
    ensures out.Declined? ==> r == s && rq == q
    ensures GetSplit(s.arena, q, subfile).Some? ==>
      var e := GetSplit(s.arena, q, subfile).value;
      && (out.Declined? <==> !WorthLoading(s, q, e, maxBytes))
      && (out.OutOfMemory? <==> WorthLoading(s, q, e, maxBytes) && alloc.None?)
      && (out.Admitted? ==> out.claim == Claimed(e.block.value, e.snap, alloc.value))
      && (out.Admitted? ==> r.arena[e.block.value].hdr.childFlags & LoadFlag != 0)
    ensures GetSplit(s.arena, q, subfile).Some? && !out.Declined? ==>
      var e := GetSplit(s.arena, q, subfile).value;
      var len := s.arena[e.block.value].hdr.childLength;
      var freed := Freed(s.arena, q, len + s.totalBytes - maxBytes, e.parent);
      && r.totalBytes == s.totalBytes - freed + (if alloc.Some? then len else 0)
      && (exists i | 0 <= i < |q.split| :: q.split[i] == e && rq.split[i] == Tombstone(e))
      && (alloc.Some? ==> r.totalBytes <= maxBytes || freed == EligibleBytes(s.arena, q.merge, e.parent, |q.merge|))
    ensures GetSplit(s.arena, q, subfile).Some? && !out.Declined? ==>
      var e := GetSplit(s.arena, q, subfile).value;
      var over := s.arena[e.block.value].hdr.childLength + s.totalBytes - maxBytes;
      var removed := RemoveAll(s, Evicted(s, q, e, maxBytes));
      && rq == DoSplit(s.arena, AfterMerge(s.arena, q, e.parent, over), subfile)
      && (out.OutOfMemory? ==> r == removed.(totalBytes := r.totalBytes))
      && (out.Admitted? ==> r == removed.(totalBytes := r.totalBytes,
            arena := removed.arena[e.block.value := WithFlag(removed.arena[e.block.value], LoadFlag)]))
    ensures DistinctBlocks(q.split) && out.Admitted? ==>
      forall sf :: GetSplit(r.arena, rq, sf).Some? ==> GetSplit(r.arena, rq, sf).value.block != Some(out.claim.parent)
  {
    var go;
    r, rq, go := Reserve(s, q, subfile, maxBytes);
    if !go {
      out := if GetSplit(s.arena, q, subfile).None? then NoCandidate else Declined;
      return;
    }
    var p := GetSplit(s.arena, q, subfile).value.block.value;
    if alloc.None? {
      r := r.(totalBytes := r.totalBytes - s.arena[p].hdr.childLength);
      return r, rq, OutOfMemory;
    }
    FlagLoading(s.arena, r.arena, p, rq);
    r := r.(arena := r.arena[p := WithFlag(r.arena[p], LoadFlag)]);
    out := Admitted(Claimed(p, GetSplit(s.arena, q, subfile).value.snap, alloc.value));
    if DistinctBlocks(q.split) {
      SplitConsumed(r.arena, q.split, rq, GetSplit(s.arena, q, subfile).value);
    }
  }

  /** A block flagged as loading is queued by no recomputation, frozen or
      not, until its load completes and clears the flag. */
  lemma LoadingNotQueued(a: Arena, roots: seq<Option<NodeId>>, frozen: bool, score: ScoreFn, p: NodeId)
    requires Linked(a) && RootsIn(a, roots) && p in a
    requires a[p].hdr.childFlags & LoadFlag != 0
    ensures var r := Recompute(a, roots, frozen, score);
      p !in BlockSet(r.split) && p !in BlockSet(r.merge)
  {
    assert Busy(a[p].hdr.childFlags);
  }

  /** Flagging a resident block as loading keeps the forest linked, its
      shape, and the queues' entries resident. */
  lemma FlagLoading(s0: Arena, a0: Arena, p: NodeId, q: Queues)
    requires p in a0 && Linked(a0) && SameShape(s0, a0)
    requires LiveIn(a0, q.split) && LiveIn(a0, q.merge)
    ensures var a := a0[p := WithFlag(a0[p], LoadFlag)];
      && SameShape(s0, a) && Linked(a)
      && LiveIn(a, q.split) && LiveIn(a, q.merge)
      && a[p].hdr.childFlags & LoadFlag != 0
  {
    var a := a0[p := WithFlag(a0[p], LoadFlag)];
    LoadFlagKeepsShape(a0, p);
    ShapeKeepsLinked(a0, a);
    SameShapeTrans(s0, a0, a);
    LiveInSameKeys(a0, a, q.split);
    LiveInSameKeys(a0, a, q.merge);
  }

  /** A snapshot whose root block lives on sub-file `id`. */
  predicate OwnRoot(snaps: seq<SnapInfo>, id: int, i: nat)
    requires i < |snaps|
  {
    snaps[i].firstFile == id
  }

  /** Bytes of the roots on sub-file `id` among the first `n` snapshots. */
  function OwnBytes(snaps: seq<SnapInfo>, id: int, n: nat): nat
    requires n <= |snaps|
  {
    if n == 0 then 0
    else OwnBytes(snaps, id, n - 1) + (if OwnRoot(snaps, id, n - 1) then snaps[n - 1].firstLength else 0)
  }

  /** Number of roots on sub-file `id` among the first `n` snapshots. */
  function OwnCount(snaps: seq<SnapInfo>, id: int, n: nat): nat
    requires n <= |snaps|
  {
    if n == 0 then 0
    else OwnCount(snaps, id, n - 1) + (if OwnRoot(snaps, id, n - 1) then 1 else 0)
  }

  /** Root addresses are fresh and pairwise distinct. */
  predicate FreshRoots(a: Arena, bases: seq<NodeId>) {
    && (forall i | 0 <= i < |bases| :: bases[i] !in a)
    && (forall i, j | 0 <= i < j < |bases| :: bases[i] != bases[j])
  }

  /** The start of `LoadingLoop(id)`: for each of the first `n` snapshots
      whose root is on sub-file `id`, the root block read from disk (`disk`,
      its stored header; the stored child slots are null) is placed at its
      freshly allocated address `bases[i]` and becomes the snapshot's root;
      each adds its length to the byte count and one to the block count.
      Other snapshots' roots are left to their own sub-file's loader. */
  function LoadRoots(s: State, snaps: seq<SnapInfo>, id: int, disk: seq<Header>, bases: seq<NodeId>, n: nat): (r: State)
    requires |snaps| == |disk| == |bases| == |s.roots| && n <= |snaps|
    requires FreshRoots(s.arena, bases)
    ensures |r.roots| == |s.roots|
    ensures forall i | 0 <= i < |s.roots| ::
      r.roots[i] == if i < n && OwnRoot(snaps, id, i) then Some(bases[i]) else s.roots[i]
    ensures forall i | 0 <= i < n && OwnRoot(snaps, id, i) :: bases[i] in r.arena && r.arena[bases[i]] == Block(disk[i], NoChildren)
    ensures forall x | x in s.arena :: x in r.arena && r.arena[x] == s.arena[x]
    ensures r.totalBytes == s.totalBytes + OwnBytes(snaps, id, n)
    ensures r.totalBlocks == s.totalBlocks + OwnCount(snaps, id, n)
    ensures r.dead == s.dead && r.slabs == s.slabs
  {
    if n == 0 then s
    else
      var prev := LoadRoots(s, snaps, id, disk, bases, n - 1);
      var i := n - 1;
      if !OwnRoot(snaps, id, i) then prev
      else
        prev.(arena := prev.arena[bases[i] := Block(disk[i], NoChildren)],
              roots := prev.roots[i := Some(bases[i])],
              totalBytes := prev.totalBytes + snaps[i].firstLength,
              totalBlocks := prev.totalBlocks + 1)
  }

  /** Every address `LoadRoots` adds is the root of an own snapshot. */
  lemma {:induction false} LoadRootsAddsOnlyRoots(s: State, snaps: seq<SnapInfo>, id: int, disk: seq<Header>, bases: seq<NodeId>, n: nat, x: NodeId)
    requires |snaps| == |disk| == |bases| == |s.roots| && n <= |snaps|
    requires FreshRoots(s.arena, bases)
    requires x in LoadRoots(s, snaps, id, disk, bases, n).arena && x !in s.arena
    ensures exists i | 0 <= i < n && OwnRoot(snaps, id, i) :: x == bases[i]
  {
    if n > 0 {
      var i := n - 1;
      if x in LoadRoots(s, snaps, id, disk, bases, n - 1).arena {
        LoadRootsAddsOnlyRoots(s, snaps, id, disk, bases, n - 1, x);
      } else {
        assert OwnRoot(snaps, id, i) && x == bases[i];
      }
    }
  }

  /** Loading roots keeps the forest linked and every loaded root resident:
      the new blocks have no children and no old block changes. */
  lemma LoadRootsKeepsLinked(s: State, snaps: seq<SnapInfo>, id: int, disk: seq<Header>, bases: seq<NodeId>, n: nat)
    requires |snaps| == |disk| == |bases| == |s.roots| && n <= |snaps|
    requires FreshRoots(s.arena, bases)
    requires Linked(s.arena) && RootsIn(s.arena, s.roots)
    ensures Linked(LoadRoots(s, snaps, id, disk, bases, n).arena)
    ensures RootsIn(LoadRoots(s, snaps, id, disk, bases, n).arena, LoadRoots(s, snaps, id, disk, bases, n).roots)
  {
    var r := LoadRoots(s, snaps, id, disk, bases, n);
    forall x, o | x in r.arena && 0 <= o < Octants
      ensures LinkOk(r.arena, x, o)
    {
      if x in s.arena {
        assert LinkOk(s.arena, x, o);
      } else {
        LoadRootsAddsOnlyRoots(s, snaps, id, disk, bases, n, x);
      }
    }
  }

  /** Addresses in the regions queued for freeing. */
  function DeadIds(dead: seq<Option<NodeId>>, slabs: map<NodeId, set<NodeId>>): set<NodeId> {
    if dead == [] then {}
    else
      DeadIds(dead[..|dead| - 1], slabs)
        + (match dead[|dead| - 1] case Some(d) => if d in slabs then slabs[d] else {} case None => {})
  }

  lemma {:induction false} DeadIdsMembers(dead: seq<Option<NodeId>>, slabs: map<NodeId, set<NodeId>>, x: NodeId)
    ensures x in DeadIds(dead, slabs) <==> exists i | 0 <= i < |dead| :: dead[i].Some? && dead[i].value in slabs && x in slabs[dead[i].value]
  {
    if dead != [] {
      DeadIdsMembers(dead[..|dead| - 1], slabs, x);
      if x in DeadIds(dead[..|dead| - 1], slabs) {
        var i :| 0 <= i < |dead| - 1 && dead[..|dead| - 1][i].Some? && dead[..|dead| - 1][i].value in slabs && x in slabs[dead[..|dead| - 1][i].value];
        assert dead[i] == dead[..|dead| - 1][i];
      }
      if exists i | 0 <= i < |dead| :: dead[i].Some? && dead[i].value in slabs && x in slabs[dead[i].value] {
        var i :| 0 <= i < |dead| && dead[i].Some? && dead[i].value in slabs && x in slabs[dead[i].value];
        if i < |dead| - 1 {
          assert dead[..|dead| - 1][i] == dead[i];
        }
      }
    }
  }

  /** `FreeDeadBlocks`: every queued region is released (a null entry frees
      nothing) and the queue is cleared. The byte count was already lowered
      by `removeBlocks`, so no counter changes. */
  function FreeDeadBlocks(s: State): (r: State)
    ensures r.dead == []
    ensures r.totalBytes == s.totalBytes && r.totalBlocks == s.totalBlocks && r.roots == s.roots
    ensures forall x :: x in r.arena <==>
      x in s.arena && !exists i | 0 <= i < |s.dead| :: s.dead[i].Some? && s.dead[i].value in s.slabs && x in s.slabs[s.dead[i].value]
    ensures forall x | x in r.arena :: r.arena[x] == s.arena[x]
    ensures forall i | 0 <= i < |s.dead| && s.dead[i].Some? :: s.dead[i].value !in r.slabs
    ensures forall d | d in r.slabs :: d in s.slabs && r.slabs[d] == s.slabs[d]
  {
    var gone := DeadIds(s.dead, s.slabs);
    var starts := set i | 0 <= i < |s.dead| && s.dead[i].Some? :: s.dead[i].value;
    forall x ensures x in gone <==> exists i | 0 <= i < |s.dead| :: s.dead[i].Some? && s.dead[i].value in s.slabs && x in s.slabs[s.dead[i].value] {
      DeadIdsMembers(s.dead, s.slabs, x);
    }
    s.(arena := map x | x in s.arena && x !in gone :: s.arena[x],
       dead := [],
       slabs := map d | d in s.slabs && d !in starts :: s.slabs[d])
  }

  /** Freeing keeps the forest linked as long as no surviving block points
      into a freed region, which holds once every freed region's parent has
      been through `removeBlocks`. */
  lemma FreeKeepsLinked(s: State)
    requires Linked(s.arena)
    requires forall x, o | x in s.arena && 0 <= o < Octants && s.arena[x].childPtr[o].Some? ::
      s.arena[x].childPtr[o].value !in DeadIds(s.dead, s.slabs)
    ensures Linked(FreeDeadBlocks(s).arena)
  {
    var r := FreeDeadBlocks(s);
    forall x, o | x in r.arena && 0 <= o < Octants
      ensures LinkOk(r.arena, x, o)
    {
      assert LinkOk(s.arena, x, o);
      if s.arena[x].childPtr[o].Some? {
        DeadIdsMembers(s.dead, s.slabs, s.arena[x].childPtr[o].value);
      }
    }
  }
}
