/** The on-disk block layout shared by the tree generator and the viewer: a
    children region is the present children's records back to back in
    ascending octant order, each record a packed header followed by `count`
    vertex records (gentree/Formats.h `OutBlock`/`OutVertex`, Blocks.h
    `Block`). Files are modelled as sequences of byte cells: the first byte of a
    record carries its decoded header and the remaining bytes are opaque. */
module Layout {
  import opened Wrappers
  import opened Blocks

  /** One byte of a file: the first byte of a record's header (standing for
      the whole decoded header), or any other byte. */
  datatype Cell = Head(h: Header) | Body

  /** Packed size of a block header whose eight child-pointer slots are
      `ptrBytes` wide: pos[3], depth, count, childLocation, childLength,
      childFile, childFlags, mins[9], scales[9], childPtr[8]. */
  function HeaderBytes(ptrBytes: nat): nat {
    3 * 2 + 2 + 4 + 8 + 8 + 2 + 2 + 9 * 4 + 9 * 4 + 8 * ptrBytes
  }

  /** `sizeof(OutBlock)`: the generator stores 4-byte pointer slots. */
  const OutBlockSize: nat := HeaderBytes(4)

  /** `sizeof(Block)` in a build with 8-byte pointers. */
  const NativeBlockSize: nat := HeaderBytes(8)

  /** `sizeof(OutVertex)`: pid, pos[3], vel[3], acc[3], hsml, nhsml, densq,
      vdisp, ndensq, nvdisp. */
  const OutVertexSize: nat := 4 + 3 * 2 + 3 * 2 + 3 * 2 + 1 + 1 + 2 + 2 + 2 + 2

  /** The packed sizes, and the fact that the viewer's in-memory header has
      the generator's on-disk size exactly when pointers are 4 bytes wide. */
  lemma HeaderSizes(ptrBytes: nat)
    ensures OutBlockSize == 136 && OutVertexSize == 32 && NativeBlockSize == 168
    ensures HeaderBytes(ptrBytes) == OutBlockSize <==> ptrBytes == 4
  {
  }

  function Fill(n: nat): (r: seq<Cell>)
    ensures |r| == n
    ensures forall k | 0 <= k < n :: r[k] == Body
  {
    seq(n, _ => Body)
  }

  /** One record as `WritePendingBlock` emits it: the header, then `count`
      vertices. */
  function Record(h: Header, hs: nat, vs: nat): (r: seq<Cell>)
    requires hs >= 1
    ensures |r| == BlockBytes(hs, vs, h.count)
    ensures r[0] == Head(h)
    ensures forall k | 1 <= k < |r| :: r[k] == Body
  {
    [Head(h)] + Fill(hs - 1 + h.count * vs)
  }

  /** Total bytes of records with the given headers. */
  function RecordsBytes(hdrs: seq<Header>, hs: nat, vs: nat): nat {
    if hdrs == [] then 0 else BlockBytes(hs, vs, hdrs[0].count) + RecordsBytes(hdrs[1..], hs, vs)
  }

  /** The records of `hdrs`, back to back. */
  function Records(hdrs: seq<Header>, hs: nat, vs: nat): (r: seq<Cell>)
    requires hs >= 1
    ensures |r| == RecordsBytes(hdrs, hs, vs)
  {
    if hdrs == [] then [] else Record(hdrs[0], hs, vs) + Records(hdrs[1..], hs, vs)
  }

  /** A child the reader found: its octant, its byte offset within the
      children region, and the header stored there. */
  datatype Found = Found(octant: nat, offset: nat, hdr: Header)

  /** The offset scan of `findBlocks`, from octant `i` at offset `cur`: every
      octant whose flag bit is set, in ascending order, is expected at the
      running offset, which then steps by header size plus `count` vertex
      sizes. A running offset that does not land on a record header is a
      misparse in the viewer; here it is a failure. */
  function Scan(flags: bv16, slab: seq<Cell>, hs: nat, vs: nat, i: nat, cur: nat): (r: Result<seq<Found>>)
    requires i <= Octants
    ensures r.Success? ==> |r.value| == OctantsFrom(flags, i)
    decreases Octants - i
  {
    if i == Octants then Success([])
    else if !HasOctant(flags, i) then Scan(flags, slab, hs, vs, i + 1, cur)
    else if cur >= |slab| || !slab[cur].Head? then Failure("no block header at the computed offset")
    else
      var h := slab[cur].h;
      match Scan(flags, slab, hs, vs, i + 1, cur + BlockBytes(hs, vs, h.count))
      case Failure(e) => Failure(e)
      case Success(rest) => Success([Found(i, cur, h)] + rest)
  }

  /** Each reported child sits at a header cell of the region; the first is
      at offset `cur` and each next one starts where the previous record
      (header plus `count` vertices) ends. */
  predicate OffsetsOk(slab: seq<Cell>, hs: nat, vs: nat, cur: nat, fs: seq<Found>) {
    && (forall k | 0 <= k < |fs| :: fs[k].offset < |slab| && slab[fs[k].offset] == Head(fs[k].hdr))
    && (|fs| > 0 ==> fs[0].offset == cur)
    && (forall k | 0 <= k < |fs| - 1 :: fs[k + 1].offset == fs[k].offset + BlockBytes(hs, vs, fs[k].hdr.count))
  }

  /** Only octants from `i` on whose flag bit is set are reported, in
      strictly ascending order. */
  predicate OctantsOk(flags: bv16, i: nat, fs: seq<Found>) {
    && (forall k | 0 <= k < |fs| :: i <= fs[k].octant < Octants && HasOctant(flags, fs[k].octant))
    && (forall k, l | 0 <= k < l < |fs| :: fs[k].octant < fs[l].octant)
  }

  /** Every octant from `i` on whose flag bit is set is reported. */
  predicate CoversFrom(flags: bv16, i: nat, fs: seq<Found>) {
    forall o | i <= o < Octants && HasOctant(flags, o) :: exists k | 0 <= k < |fs| :: fs[k].octant == o
  }

  /** The scan skips an absent octant. */
  lemma ScanSkip(flags: bv16, slab: seq<Cell>, hs: nat, vs: nat, i: nat, cur: nat)
    requires i < Octants && !HasOctant(flags, i)
    ensures Scan(flags, slab, hs, vs, i, cur) == Scan(flags, slab, hs, vs, i + 1, cur)
  {
  }

  /** One step of the scan at a present octant whose offset holds header `h`:
      the next octant is expected at `next`, just past `h`'s record. */
  lemma ScanStep(flags: bv16, slab: seq<Cell>, hs: nat, vs: nat, i: nat, cur: nat, h: Header, next: nat)
    requires i < Octants && HasOctant(flags, i) && cur < |slab| && slab[cur] == Head(h)
    requires next == cur + BlockBytes(hs, vs, h.count)
    ensures var rest := Scan(flags, slab, hs, vs, i + 1, next);
      Scan(flags, slab, hs, vs, i, cur) ==
        if rest.Success? then Success([Found(i, cur, h)] + rest.value) else rest
  {
  }

  lemma OffsetsCons(slab: seq<Cell>, hs: nat, vs: nat, cur: nat, f: Found, rest: seq<Found>)
    requires f.offset == cur && cur < |slab| && slab[cur] == Head(f.hdr)
    requires OffsetsOk(slab, hs, vs, cur + BlockBytes(hs, vs, f.hdr.count), rest)
    ensures OffsetsOk(slab, hs, vs, cur, [f] + rest)
  {
    var r := [f] + rest;
    assert forall k | 1 <= k < |r| :: r[k] == rest[k - 1];
  }

  lemma OctantsCons(flags: bv16, i: nat, f: Found, rest: seq<Found>)
    requires i < Octants && f.octant == i && HasOctant(flags, i)
    requires OctantsOk(flags, i + 1, rest)
    ensures OctantsOk(flags, i, [f] + rest)
  {
    var r := [f] + rest;
    assert forall k | 1 <= k < |r| :: r[k] == rest[k - 1];
  }

  lemma CoversCons(flags: bv16, i: nat, f: Found, rest: seq<Found>)
    requires i < Octants && f.octant == i
    requires CoversFrom(flags, i + 1, rest)
    ensures CoversFrom(flags, i, [f] + rest)
  {
    var r := [f] + rest;
    forall o | i <= o < Octants && HasOctant(flags, o)
      ensures exists k | 0 <= k < |r| :: r[k].octant == o
    {
      if o == i {
        assert r[0].octant == o;
      } else {
        var k :| 0 <= k < |rest| && rest[k].octant == o;
        assert r[k + 1].octant == o;
      }
    }
  }

  /** Where the scan's children sit in the region. */
  lemma {:induction false} ScanOffsets(flags: bv16, slab: seq<Cell>, hs: nat, vs: nat, i: nat, cur: nat)
    requires i <= Octants
    ensures var r := Scan(flags, slab, hs, vs, i, cur);
      r.Success? ==> OffsetsOk(slab, hs, vs, cur, r.value)
    decreases Octants - i
  {
    if i < Octants {
      if !HasOctant(flags, i) {
        ScanOffsets(flags, slab, hs, vs, i + 1, cur);
        ScanSkip(flags, slab, hs, vs, i, cur);
      } else if cur < |slab| && slab[cur].Head? {
        var h := slab[cur].h;
        var next := cur + BlockBytes(hs, vs, h.count);
        ScanOffsets(flags, slab, hs, vs, i + 1, next);
        ScanStep(flags, slab, hs, vs, i, cur, h, next);
        var rest := Scan(flags, slab, hs, vs, i + 1, next);
        if rest.Success? {
          OffsetsCons(slab, hs, vs, cur, Found(i, cur, h), rest.value);
        }
      }
    }
  }

  /** The scan reports only octants whose flag bit is set, in strictly
      ascending order. */
  lemma {:induction false} ScanOctantsPresent(flags: bv16, slab: seq<Cell>, hs: nat, vs: nat, i: nat, cur: nat)
    requires i <= Octants
    ensures var r := Scan(flags, slab, hs, vs, i, cur);
      r.Success? ==> OctantsOk(flags, i, r.value)
    decreases Octants - i
  {
    if i < Octants {
      if !HasOctant(flags, i) {
        ScanOctantsPresent(flags, slab, hs, vs, i + 1, cur);
        ScanSkip(flags, slab, hs, vs, i, cur);
      } else if cur < |slab| && slab[cur].Head? {
        var h := slab[cur].h;
        var next := cur + BlockBytes(hs, vs, h.count);
        ScanOctantsPresent(flags, slab, hs, vs, i + 1, next);
        ScanStep(flags, slab, hs, vs, i, cur, h, next);
        var rest := Scan(flags, slab, hs, vs, i + 1, next);
        if rest.Success? {
          OctantsCons(flags, i, Found(i, cur, h), rest.value);
        }
      }
    }
  }

  /** Every octant whose flag bit is set is reported by the scan. */
  lemma {:induction false} ScanOctantsCovered(flags: bv16, slab: seq<Cell>, hs: nat, vs: nat, i: nat, cur: nat)
    requires i <= Octants
    ensures var r := Scan(flags, slab, hs, vs, i, cur);
      r.Success? ==> CoversFrom(flags, i, r.value)
    decreases Octants - i
  {
    if i < Octants {
      if !HasOctant(flags, i) {
        ScanOctantsCovered(flags, slab, hs, vs, i + 1, cur);
        ScanSkip(flags, slab, hs, vs, i, cur);
      } else if cur < |slab| && slab[cur].Head? {
        var h := slab[cur].h;
        var next := cur + BlockBytes(hs, vs, h.count);
        ScanOctantsCovered(flags, slab, hs, vs, i + 1, next);
        ScanStep(flags, slab, hs, vs, i, cur, h, next);
        var rest := Scan(flags, slab, hs, vs, i + 1, next);
        if rest.Success? {
          CoversCons(flags, i, Found(i, cur, h), rest.value);
        }
      }
    }
  }

  /** `fs` reports exactly `hdrs`, in order, each at `base` plus the sizes of
      the records before it. */
  predicate ReadsAt(fs: seq<Found>, hdrs: seq<Header>, base: nat, hs: nat, vs: nat) {
    && |fs| == |hdrs|
    && forall k | 0 <= k < |hdrs| :: fs[k].hdr == hdrs[k] && fs[k].offset == base + RecordsBytes(hdrs[..k], hs, vs)
  }

  lemma ReadsCons(i: nat, base: nat, hdrs: seq<Header>, rest: seq<Found>, hs: nat, vs: nat)
    requires |hdrs| > 0
    requires ReadsAt(rest, hdrs[1..], base + BlockBytes(hs, vs, hdrs[0].count), hs, vs)
    ensures ReadsAt([Found(i, base, hdrs[0])] + rest, hdrs, base, hs, vs)
  {
    var r := [Found(i, base, hdrs[0])] + rest;
    forall k | 0 <= k < |hdrs|
      ensures r[k].hdr == hdrs[k] && r[k].offset == base + RecordsBytes(hdrs[..k], hs, vs)
    {
      if k == 0 {
        assert hdrs[..0] == [];
      } else {
        assert r[k] == rest[k - 1];
        assert hdrs[1..][..k - 1] == hdrs[1..k];
        assert hdrs[..k][1..] == hdrs[1..k];
      }
    }
  }

  /** Reading back what the generator wrote: when a children region holds the
      records of `hdrs`, one per present octant, and the reader uses the
      writer's header and vertex sizes, the scan finds exactly `hdrs`, in
      order, each at the prefix sum of the sizes of the records before it. */
  lemma {:induction false} ScanRecords(flags: bv16, pre: seq<Cell>, hdrs: seq<Header>, post: seq<Cell>, hs: nat, vs: nat, i: nat)
    requires hs >= 1 && i <= Octants
    requires |hdrs| == OctantsFrom(flags, i)
    ensures var r := Scan(flags, pre + Records(hdrs, hs, vs) + post, hs, vs, i, |pre|);
      r.Success? && ReadsAt(r.value, hdrs, |pre|, hs, vs)
    decreases Octants - i
  {
    var slab := pre + Records(hdrs, hs, vs) + post;
    if i < Octants {
      if !HasOctant(flags, i) {
        ScanRecords(flags, pre, hdrs, post, hs, vs, i + 1);
        ScanSkip(flags, slab, hs, vs, i, |pre|);
      } else {
        var h := hdrs[0];
        var pre' := pre + Record(h, hs, vs);
        assert slab == pre' + Records(hdrs[1..], hs, vs) + post;
        assert slab[|pre|] == Head(h);
        ScanRecords(flags, pre', hdrs[1..], post, hs, vs, i + 1);
        ScanStep(flags, slab, hs, vs, i, |pre|, h, |pre'|);
        var rest := Scan(flags, slab, hs, vs, i + 1, |pre'|);
        ReadsCons(i, |pre|, hdrs, rest.value, hs, vs);
      }
    }
  }

  /** The scan as the viewer runs it on a build with 8-byte pointers: the
      header size is `sizeof(Block)`, not the on-disk `sizeof(OutBlock)`. */
  function ScanNative(flags: bv16, slab: seq<Cell>, vertexSize: nat): (r: Result<seq<Found>>)
    ensures r.Success? ==> |r.value| == OctantCount(flags)
  {
    Scan(flags, slab, NativeBlockSize, vertexSize, 0, 0)
  }

  /** The scan with the on-disk header size, which is what the offsets must
      step by for every generated file to read back. */
  function ScanOnDisk(flags: bv16, slab: seq<Cell>): (r: Result<seq<Found>>)
    ensures r.Success? ==> |r.value| == OctantCount(flags)
  {
    Scan(flags, slab, OutBlockSize, OutVertexSize, 0, 0)
  }

  /** The corrected scan reads back any generated children region. */
  lemma ScanOnDiskReadsBack(flags: bv16, hdrs: seq<Header>)
    requires |hdrs| == OctantCount(flags)
    ensures var r := ScanOnDisk(flags, Records(hdrs, OutBlockSize, OutVertexSize));
      && r.Success?
      && forall k | 0 <= k < |hdrs| ::
           r.value[k].hdr == hdrs[k] && r.value[k].offset == RecordsBytes(hdrs[..k], OutBlockSize, OutVertexSize)
  {
    var slab := Records(hdrs, OutBlockSize, OutVertexSize);
    assert [] + slab + [] == slab;
    ScanRecords(flags, [], hdrs, [], OutBlockSize, OutVertexSize, 0);
  }

  /** A header with no vertices and no children, at depth one. */
  const EmptyChild: Header := Header([0, 0, 0], 1, 0, 0, 0, -1, 0)

  /** With 8-byte pointers the viewer looks for the second child 32 bytes
      past where the generator put it: two empty children in octants 0 and 1
      are written at offsets 0 and 136, and the scan looks at offset 168.
      That is byte 32 of the second 136-byte header, a `Body` cell, so the
      parse finds no header there. */
  lemma NativeScanMissesSecondChild()
    ensures var slab := Records([EmptyChild, EmptyChild], OutBlockSize, OutVertexSize);
      && |slab| == 272
      && ScanNative(3, slab, OutVertexSize).Failure?
      && ScanOnDisk(3, slab).Success?
  {
    var slab := Records([EmptyChild, EmptyChild], OutBlockSize, OutVertexSize);
    assert OctantCount(3) == 2 by {
      assert HasOctant(3, 0) && HasOctant(3, 1);
      assert forall o | 2 <= o < Octants :: !HasOctant(3, o);
    }
    ScanOnDiskReadsBack(3, [EmptyChild, EmptyChild]);
    assert slab[168] == Body;
  }
}
