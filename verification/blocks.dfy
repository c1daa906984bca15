/** The block header, the in-memory block with its eight child slots, and the
    scheduler's queue entry (Blocks.h), together with the runtime flag bits the
    block manager borrows from `childFlags` (BlockManager.h). */
module Blocks {
  import opened Wrappers

  /** A block is identified by the address of its header in memory. */
  type NodeId = nat

  /** An unsigned 16-bit value. */
  type U16 = x: int | 0 <= x < 0x1_0000

  /** Fixed-point position within the snapshot box, one 16-bit value per axis. */
  type Pos = p: seq<U16> | |p| == 3 witness [0, 0, 0]

  /** Number of octants below a node. */
  const Octants: nat := 8

  /** Eight child slots, one per octant; `None` is a null pointer. */
  type Slots = s: seq<Option<NodeId>> | |s| == 8
    witness [None, None, None, None, None, None, None, None]

  const NoChildren: Slots := [None, None, None, None, None, None, None, None]

  /** Runtime-only flag: a loader has claimed this block's children. */
  const LoadFlag: bv16 := 0x200
  /** Runtime-only flag: this block has been unlinked and awaits its free. */
  const DeleteFlag: bv16 := 0x400
  /** Both runtime flags. */
  const ManagerFlags: bv16 := LoadFlag | DeleteFlag

  /** The persisted header fields of a block (the payload min/scale arrays are
      opaque to this model). */
  datatype Header = Header(
    pos: Pos,
    depth: U16,
    count: nat,
    childLocation: nat,
    childLength: nat,
    childFile: int,
    childFlags: bv16)

  /** A resident block: its header and the child slots. */
  datatype Block = Block(hdr: Header, childPtr: Slots)

  /** A scheduler queue entry; `block == None` marks a tombstoned entry and
      `parent == None` a root. */
  datatype Entry = Entry(block: Option<NodeId>, parent: Option<NodeId>, snap: int, score: real)

  function OctantBit(i: nat): bv16
    requires i < Octants
  {
    (1 as bv16) << i
  }

  /** The eight octant bits of the flags, lowest first. */
  function OctantBits(flags: bv16): (r: seq<bool>)
    ensures |r| == Octants
  {
    [flags & 0x01 != 0, flags & 0x02 != 0, flags & 0x04 != 0, flags & 0x08 != 0,
     flags & 0x10 != 0, flags & 0x20 != 0, flags & 0x40 != 0, flags & 0x80 != 0]
  }

  /** Bit `i` of the flags: octant `i` exists on disk. */
  predicate HasOctant(flags: bv16, i: nat)
    requires i < Octants
  {
    OctantBits(flags)[i]
  }

  /** `HasOctant` is bit `i` of the flags. */
  lemma HasOctantIsBit(flags: bv16, i: nat)
    requires i < Octants
    ensures HasOctant(flags, i) <==> flags & OctantBit(i) != 0
  {
  }

  /** Loading or pending delete. */
  predicate Busy(flags: bv16) {
    flags & ManagerFlags != 0
  }

  /** Number of octant bits set among positions `i..7`. */
  function OctantsFrom(flags: bv16, i: nat): (n: nat)
    requires i <= Octants
    ensures n <= Octants - i
    decreases Octants - i
  {
    if i == Octants then 0
    else (if HasOctant(flags, i) then 1 else 0) + OctantsFrom(flags, i + 1)
  }

  /** Population count of the low eight flag bits. */
  function OctantCount(flags: bv16): nat {
    OctantsFrom(flags, 0)
  }

  /** Number of non-null slots among `s`. */
  function ResidentIn(s: seq<Option<NodeId>>): (n: nat)
    ensures n <= |s|
  {
    if s == [] then 0 else (if s[0].Some? then 1 else 0) + ResidentIn(s[1..])
  }

  /** First non-null slot of `s`, or `None`. */
  function FirstResident(s: seq<Option<NodeId>>): (r: Option<NodeId>)
    ensures r.Some? <==> ResidentIn(s) > 0
    ensures r.Some? ==> r in s
  {
    if s == [] then None
    else if s[0].Some? then s[0]
    else FirstResident(s[1..])
  }

  /** Bytes a block occupies: its header immediately followed by `count`
      vertex records. */
  function BlockBytes(headerSize: nat, vertexSize: nat, count: nat): nat {
    headerSize + count * vertexSize
  }

  function Tombstone(e: Entry): Entry {
    e.(block := None)
  }

  /** Flag bits above the low eight leave the octant bits alone, whether
      set or cleared. */
  lemma HighBitsKeepOctants(flags: bv16, extra: bv16)
    requires extra & 0xFF == 0
    ensures OctantBits(flags | extra) == OctantBits(flags)
    ensures OctantBits(flags & !extra) == OctantBits(flags)
  {
  }

  /** The two runtime flags are bits 9 and 10: neither touches the octant
      bits, so setting or clearing them never changes which octants exist,
      and either one makes a block busy. */
  lemma ManagerFlagsAreHighBits(flags: bv16)
    ensures LoadFlag == (1 as bv16) << 9 && DeleteFlag == (1 as bv16) << 10
    ensures LoadFlag & 0xFF == 0 && DeleteFlag & 0xFF == 0
    ensures Busy(flags | LoadFlag) && Busy(flags | DeleteFlag)
  {
  }

  /** Setting or clearing a runtime flag leaves the octant count unchanged. */
  lemma OctantsIgnoreRuntimeFlags(flags: bv16, extra: bv16, i: nat)
    requires extra & 0xFF == 0
    requires i <= Octants
    ensures OctantsFrom(flags | extra, i) == OctantsFrom(flags, i)
    ensures OctantsFrom(flags & !extra, i) == OctantsFrom(flags, i)
  {
    HighBitsKeepOctants(flags, extra);
    SameBitsSameCount(flags | extra, flags, i);
    SameBitsSameCount(flags & !extra, flags, i);
  }

  /** The octant count depends on the octant bits alone. */
  lemma {:induction false} SameBitsSameCount(f: bv16, g: bv16, i: nat)
    requires OctantBits(f) == OctantBits(g) && i <= Octants
    ensures OctantsFrom(f, i) == OctantsFrom(g, i)
    decreases Octants - i
  {
    if i < Octants {
      SameBitsSameCount(f, g, i + 1);
    }
  }
}
