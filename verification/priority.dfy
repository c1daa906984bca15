/** The priority scheduler's walk of the resident forest (BlockPriority.cpp
    `buildQueue` and `Recompute`): every block with on-disk octants but no
    resident children becomes a split candidate, every block whose resident
    children are all leaves of the resident tree becomes a merge candidate, and
    blocks that are loading or pending delete are skipped and shield their
    parent from merging. */
module Priority {
  import opened Wrappers
  import opened Blocks
  import opened Forest
  import opened ScoreSort

  /** The externally supplied importance of a block of a snapshot. */
  type ScoreFn = (int, NodeId) -> real

  datatype Queues = Queues(split: seq<Entry>, merge: seq<Entry>)

  /** What visiting one block reports to its caller, and the queues after it. */
  datatype Visit = Visit(ret: bool, q: Queues)

  /** Visiting the slots of one block: whether any child reported, how many
      slots were loaded, and the queues after them. */
  datatype SlotsVisit = SlotsVisit(any: bool, loaded: nat, q: Queues)

  /** The scheduler state: the two queues and the freeze switch. */
  datatype Scheduler = Scheduler(q: Queues, frozen: bool)

  /** What a block reports to its parent: it has a resident child, or it is
      loading or pending delete. Either way its parent must not be merged. */
  predicate Reports(a: Arena, id: NodeId)
    requires id in a
  {
    var f := a[id].hdr.childFlags;
    f != 0 && (Busy(f) || Resident(a, id) > 0)
  }

  /** On-disk octants, none resident, not claimed and not being deleted. */
  predicate IsSplitCandidate(a: Arena, id: NodeId) {
    && id in a
    && a[id].hdr.childFlags != 0
    && !Busy(a[id].hdr.childFlags)
    && Resident(a, id) == 0
  }

  predicate ChildReports(a: Arena, id: NodeId, i: nat)
    requires id in a && i < Octants
  {
    a[id].childPtr[i].Some? && a[id].childPtr[i].value in a && Reports(a, a[id].childPtr[i].value)
  }

  /** Some child resident, and no resident child reports a grandchild. */
  predicate IsMergeCandidate(a: Arena, id: NodeId) {
    && id in a
    && a[id].hdr.childFlags != 0
    && !Busy(a[id].hdr.childFlags)
    && Resident(a, id) > 0
    && forall i | 0 <= i < Octants :: !ChildReports(a, id, i)
  }

  predicate SplitEntry(a: Arena, e: Entry, snap: int, score: ScoreFn) {
    e.block.Some? && IsSplitCandidate(a, e.block.value) && e.snap == snap && e.score == score(snap, e.block.value)
  }

  predicate MergeEntry(a: Arena, e: Entry, snap: int, score: ScoreFn) {
    e.block.Some? && IsMergeCandidate(a, e.block.value) && e.snap == snap && e.score == -score(snap, e.block.value)
  }

  /** The entry's parent field names the block that holds it in a slot. */
  predicate ParentLinked(a: Arena, e: Entry) {
    e.block.Some? && e.parent.Some? && e.parent.value in a && ChildOf(a, e.parent.value, e.block.value)
  }

  /** Entry for the visited block itself, or for one below it. */
  predicate ParentOk(a: Arena, e: Entry, id: NodeId, parent: Option<NodeId>) {
    (e.block == Some(id) && e.parent == parent) || ParentLinked(a, e)
  }

  /** The entry's parent field is honest: it names the block holding the
      entry's block in a slot, or it is empty and the block is the root of the
      entry's snapshot. */
  predicate ParentRecorded(a: Arena, roots: seq<Option<NodeId>>, e: Entry) {
    ParentLinked(a, e) || (e.parent.None? && 0 <= e.snap < |roots| && roots[e.snap] == e.block)
  }

  /** No block is named by two entries of `s`. */
  predicate DistinctBlocks(s: seq<Entry>) {
    forall i, j | 0 <= i < j < |s| :: s[i].block.Some? ==> s[i].block != s[j].block
  }

  /** `r` only appends to both queues of `q`. */
  predicate Extends(q: Queues, r: Queues) {
    q.split <= r.split && q.merge <= r.merge
  }

  /** Entries appended between `q` and `r` are well-formed for a visit of `id`. */
  predicate AppendedOk(a: Arena, q: Queues, r: Queues, snap: int, score: ScoreFn, id: NodeId, parent: Option<NodeId>) {
    && Extends(q, r)
    && (forall k | |q.split| <= k < |r.split| ::
          SplitEntry(a, r.split[k], snap, score) && ParentOk(a, r.split[k], id, parent))
    && (forall k | |q.merge| <= k < |r.merge| ::
          MergeEntry(a, r.merge[k], snap, score) && ParentOk(a, r.merge[k], id, parent))
  }

  /** Entries appended by visiting the children of a block all hang below it. */
  predicate AppendedBelow(a: Arena, q: Queues, r: Queues, snap: int, score: ScoreFn) {
    && Extends(q, r)
    && (forall k | |q.split| <= k < |r.split| :: SplitEntry(a, r.split[k], snap, score) && ParentLinked(a, r.split[k]))
    && (forall k | |q.merge| <= k < |r.merge| :: MergeEntry(a, r.merge[k], snap, score) && ParentLinked(a, r.merge[k]))
  }

  /** `buildQueue(block, parent)`: classifies `id`, recursing into resident
      children unless `id` is a true leaf or busy. */
  function BuildQueue(a: Arena, id: NodeId, parent: Option<NodeId>, snap: int, score: ScoreFn, q: Queues): (r: Visit)
    requires Linked(a) && id in a
    ensures r.ret == Reports(a, id)
    ensures AppendedOk(a, q, r.q, snap, score, id, parent)
    decreases 0x1_0000 - a[id].hdr.depth, 1
  {
    var flags := a[id].hdr.childFlags;
    if flags == 0 then Visit(false, q)
    else if Busy(flags) then Visit(true, q)
    else
      var s := BuildSlots(a, id, snap, score, 0, q);
      assert a[id].childPtr[0..] == a[id].childPtr;
      if s.loaded == 0 then
        var e := Entry(Some(id), parent, snap, score(snap, id));
        Visit(false, Queues(s.q.split + [e], s.q.merge))
      else if !s.any then
        var e := Entry(Some(id), parent, snap, -score(snap, id));
        assert forall i | 0 <= i < Octants :: !ChildReports(a, id, i);
        Visit(true, Queues(s.q.split, s.q.merge + [e]))
      else
        Visit(true, s.q)
  }

  /** The loop over the eight child slots of `id`, from slot `i`. */
  function BuildSlots(a: Arena, id: NodeId, snap: int, score: ScoreFn, i: nat, q: Queues): (r: SlotsVisit)
    requires Linked(a) && id in a && i <= Octants
    ensures r.loaded == ResidentIn(a[id].childPtr[i..])
    ensures r.any <==> exists j | i <= j < Octants :: ChildReports(a, id, j)
    ensures AppendedBelow(a, q, r.q, snap, score)
    decreases 0x1_0000 - a[id].hdr.depth, 0, Octants - i
  {
    if i == Octants then SlotsVisit(false, 0, q)
    else
      assert a[id].childPtr[i..] == [a[id].childPtr[i]] + a[id].childPtr[i + 1..];
      match a[id].childPtr[i]
      case None =>
        assert !ChildReports(a, id, i);
        BuildSlots(a, id, snap, score, i + 1, q)
      case Some(c) =>
        assert LinkOk(a, id, i);
        var v := BuildQueue(a, c, Some(id), snap, score, q);
        var rest := BuildSlots(a, id, snap, score, i + 1, v.q);
        assert ChildOf(a, id, c);
        assert ChildReports(a, id, i) == v.ret;
        SlotsVisit(v.ret || rest.any, 1 + rest.loaded, rest.q)
  }

  /** Blocks the walk from `id` visits: `id` itself and, unless it is a true
      leaf or busy, everything reached through its resident children. */
  function Reach(a: Arena, id: NodeId): set<NodeId>
    requires Linked(a) && id in a
    decreases 0x1_0000 - a[id].hdr.depth, 1
  {
    var flags := a[id].hdr.childFlags;
    {id} + (if flags == 0 || Busy(flags) then {} else ReachSlots(a, id, 0))
  }

  function ReachSlots(a: Arena, id: NodeId, i: nat): set<NodeId>
    requires Linked(a) && id in a && i <= Octants
    decreases 0x1_0000 - a[id].hdr.depth, 0, Octants - i
  {
    if i == Octants then {}
    else
      match a[id].childPtr[i]
      case None => ReachSlots(a, id, i + 1)
      case Some(c) =>
        assert LinkOk(a, id, i);
        Reach(a, c) + ReachSlots(a, id, i + 1)
  }

  /** Blocks named by the live entries of a queue. */
  function BlockSet(s: seq<Entry>): set<NodeId> {
    set e | e in s && e.block.Some? :: e.block.value
  }

  lemma BlockSetConcat(s: seq<Entry>, t: seq<Entry>)
    ensures BlockSet(s + t) == BlockSet(s) + BlockSet(t)
  {
    assert forall e :: e in s + t <==> e in s || e in t;
  }

  /** Splitting a queue that extends `q` at `q`'s length. */
  lemma SuffixSplit(q: seq<Entry>, v: seq<Entry>, r: seq<Entry>)
    requires q <= v <= r
    ensures r[|q|..] == v[|q|..] + r[|v|..]
    ensures BlockSet(r[|q|..]) == BlockSet(v[|q|..]) + BlockSet(r[|v|..])
  {
    assert r[|q|..] == v[|q|..] + r[|v|..];
    BlockSetConcat(v[|q|..], r[|v|..]);
  }

  /** Filtering a union of reached sets by either candidate predicate. */
  lemma FilterUnion(a: Arena, A: set<NodeId>, B: set<NodeId>)
    ensures (set x | x in A + B && IsSplitCandidate(a, x))
         == (set x | x in A && IsSplitCandidate(a, x)) + (set x | x in B && IsSplitCandidate(a, x))
    ensures (set x | x in A + B && IsMergeCandidate(a, x))
         == (set x | x in A && IsMergeCandidate(a, x)) + (set x | x in B && IsMergeCandidate(a, x))
  {
  }

  /** With no resident slot from `i` on, the slot loop reaches nothing. */
  lemma {:induction false} EmptySlotsReachNothing(a: Arena, id: NodeId, i: nat)
    requires Linked(a) && id in a && i <= Octants
    requires ResidentIn(a[id].childPtr[i..]) == 0
    ensures ReachSlots(a, id, i) == {}
    decreases Octants - i
  {
    if i < Octants {
      assert a[id].childPtr[i..] == [a[id].childPtr[i]] + a[id].childPtr[i + 1..];
      EmptySlotsReachNothing(a, id, i + 1);
    }
  }

  /** The walk from `id` queues exactly the split and merge candidates it
      reaches: queue/forest agreement for one subtree. */
  lemma {:induction false} BuildQueueCovers(a: Arena, id: NodeId, parent: Option<NodeId>, snap: int, score: ScoreFn, q: Queues)
    requires Linked(a) && id in a
    ensures var r := BuildQueue(a, id, parent, snap, score, q);
      && BlockSet(r.q.split[|q.split|..]) == (set x | x in Reach(a, id) && IsSplitCandidate(a, x))
      && BlockSet(r.q.merge[|q.merge|..]) == (set x | x in Reach(a, id) && IsMergeCandidate(a, x))
    decreases 0x1_0000 - a[id].hdr.depth, 1
  {
    var flags := a[id].hdr.childFlags;
    if flags == 0 || Busy(flags) {
      CoversIdle(a, id, parent, snap, score, q);
    } else {
      BuildSlotsCovers(a, id, snap, score, 0, q);
      var s := BuildSlots(a, id, snap, score, 0, q);
      if s.loaded == 0 {
        CoversNewLeaf(a, id, parent, snap, score, q);
      } else if !s.any {
        CoversMergeable(a, id, parent, snap, score, q);
      } else {
        CoversInner(a, id, parent, snap, score, q);
      }
    }
  }

  /** A true leaf or a busy block queues nothing and reaches only itself,
      which is no candidate. */
  lemma CoversIdle(a: Arena, id: NodeId, parent: Option<NodeId>, snap: int, score: ScoreFn, q: Queues)
    requires Linked(a) && id in a
    requires a[id].hdr.childFlags == 0 || Busy(a[id].hdr.childFlags)
    ensures var r := BuildQueue(a, id, parent, snap, score, q);
      && BlockSet(r.q.split[|q.split|..]) == (set x | x in Reach(a, id) && IsSplitCandidate(a, x))
      && BlockSet(r.q.merge[|q.merge|..]) == (set x | x in Reach(a, id) && IsMergeCandidate(a, x))
  {
    var r := BuildQueue(a, id, parent, snap, score, q);
    assert r.q == q;
    assert Reach(a, id) == {id};
    assert r.q.split[|q.split|..] == [] && r.q.merge[|q.merge|..] == [];
  }

  /** A block with on-disk octants and no resident child is queued for
      splitting, and reaches nothing below it. */
  lemma CoversNewLeaf(a: Arena, id: NodeId, parent: Option<NodeId>, snap: int, score: ScoreFn, q: Queues)
    requires Linked(a) && id in a
    requires a[id].hdr.childFlags != 0 && !Busy(a[id].hdr.childFlags)
    requires var s := BuildSlots(a, id, snap, score, 0, q);
      && s.loaded == 0
      && BlockSet(s.q.split[|q.split|..]) == (set x | x in ReachSlots(a, id, 0) && IsSplitCandidate(a, x))
      && BlockSet(s.q.merge[|q.merge|..]) == (set x | x in ReachSlots(a, id, 0) && IsMergeCandidate(a, x))
    ensures var r := BuildQueue(a, id, parent, snap, score, q);
      && BlockSet(r.q.split[|q.split|..]) == (set x | x in Reach(a, id) && IsSplitCandidate(a, x))
      && BlockSet(r.q.merge[|q.merge|..]) == (set x | x in Reach(a, id) && IsMergeCandidate(a, x))
  {
    var r := BuildQueue(a, id, parent, snap, score, q);
    var s := BuildSlots(a, id, snap, score, 0, q);
    assert a[id].childPtr[0..] == a[id].childPtr;
    EmptySlotsReachNothing(a, id, 0);
    assert Reach(a, id) == {id};
    var e := Entry(Some(id), parent, snap, score(snap, id));
    assert r.q.split[|q.split|..] == s.q.split[|q.split|..] + [e];
    BlockSetConcat(s.q.split[|q.split|..], [e]);
    assert BlockSet([e]) == {id};
    assert r.q.merge == s.q.merge;
  }

  /** A block whose resident children all stay quiet is queued for merging;
      everything below it is accounted for by its slots. */
  lemma CoversMergeable(a: Arena, id: NodeId, parent: Option<NodeId>, snap: int, score: ScoreFn, q: Queues)
    requires Linked(a) && id in a
    requires a[id].hdr.childFlags != 0 && !Busy(a[id].hdr.childFlags)
    requires var s := BuildSlots(a, id, snap, score, 0, q);
      && s.loaded != 0 && !s.any
      && BlockSet(s.q.split[|q.split|..]) == (set x | x in ReachSlots(a, id, 0) && IsSplitCandidate(a, x))
      && BlockSet(s.q.merge[|q.merge|..]) == (set x | x in ReachSlots(a, id, 0) && IsMergeCandidate(a, x))
    ensures var r := BuildQueue(a, id, parent, snap, score, q);
      && BlockSet(r.q.split[|q.split|..]) == (set x | x in Reach(a, id) && IsSplitCandidate(a, x))
      && BlockSet(r.q.merge[|q.merge|..]) == (set x | x in Reach(a, id) && IsMergeCandidate(a, x))
  {
    var r := BuildQueue(a, id, parent, snap, score, q);
    var s := BuildSlots(a, id, snap, score, 0, q);
    assert a[id].childPtr[0..] == a[id].childPtr;
    assert Reach(a, id) == {id} + ReachSlots(a, id, 0);
    var e := Entry(Some(id), parent, snap, -score(snap, id));
    assert IsMergeCandidate(a, id);
    assert r.q.merge[|q.merge|..] == s.q.merge[|q.merge|..] + [e];
    BlockSetConcat(s.q.merge[|q.merge|..], [e]);
    assert BlockSet([e]) == {id};
    assert r.q.split == s.q.split;
  }

  /** A block with a reporting child queues nothing for itself. */
  lemma CoversInner(a: Arena, id: NodeId, parent: Option<NodeId>, snap: int, score: ScoreFn, q: Queues)
    requires Linked(a) && id in a
    requires a[id].hdr.childFlags != 0 && !Busy(a[id].hdr.childFlags)
    requires var s := BuildSlots(a, id, snap, score, 0, q);
      && s.loaded != 0 && s.any
      && BlockSet(s.q.split[|q.split|..]) == (set x | x in ReachSlots(a, id, 0) && IsSplitCandidate(a, x))
      && BlockSet(s.q.merge[|q.merge|..]) == (set x | x in ReachSlots(a, id, 0) && IsMergeCandidate(a, x))
    ensures var r := BuildQueue(a, id, parent, snap, score, q);
      && BlockSet(r.q.split[|q.split|..]) == (set x | x in Reach(a, id) && IsSplitCandidate(a, x))
      && BlockSet(r.q.merge[|q.merge|..]) == (set x | x in Reach(a, id) && IsMergeCandidate(a, x))
  {
    var r := BuildQueue(a, id, parent, snap, score, q);
    var s := BuildSlots(a, id, snap, score, 0, q);
    assert a[id].childPtr[0..] == a[id].childPtr;
    assert Reach(a, id) == {id} + ReachSlots(a, id, 0);
    assert !IsMergeCandidate(a, id);
    assert r.q == s.q;
  }

  lemma {:induction false} BuildSlotsCovers(a: Arena, id: NodeId, snap: int, score: ScoreFn, i: nat, q: Queues)
    requires Linked(a) && id in a && i <= Octants
    ensures var r := BuildSlots(a, id, snap, score, i, q);
      && BlockSet(r.q.split[|q.split|..]) == (set x | x in ReachSlots(a, id, i) && IsSplitCandidate(a, x))
      && BlockSet(r.q.merge[|q.merge|..]) == (set x | x in ReachSlots(a, id, i) && IsMergeCandidate(a, x))
    decreases 0x1_0000 - a[id].hdr.depth, 0, Octants - i
  {
    if i == Octants {
      assert q.split[|q.split|..] == [] && q.merge[|q.merge|..] == [];
    } else {
      match a[id].childPtr[i]
      case None =>
        BuildSlotsCovers(a, id, snap, score, i + 1, q);
      case Some(c) =>
        assert LinkOk(a, id, i);
        var v := BuildQueue(a, c, Some(id), snap, score, q);
        var rest := BuildSlots(a, id, snap, score, i + 1, v.q);
        BuildQueueCovers(a, c, Some(id), snap, score, q);
        BuildSlotsCovers(a, id, snap, score, i + 1, v.q);
        SuffixSplit(q.split, v.q.split, rest.q.split);
        SuffixSplit(q.merge, v.q.merge, rest.q.merge);
        assert ReachSlots(a, id, i) == Reach(a, c) + ReachSlots(a, id, i + 1);
        FilterUnion(a, Reach(a, c), ReachSlots(a, id, i + 1));
    }
  }

  /** A merge candidate's resident children have no resident children: the
      only ancestor of a split candidate that can be a merge candidate is its
      direct parent. */
  lemma MergeCandidateChildrenAreLeaves(a: Arena, p: NodeId, i: nat)
    requires Linked(a) && IsMergeCandidate(a, p)
    requires 0 <= i < Octants && a[p].childPtr[i].Some?
    ensures a[p].childPtr[i].value in a
    ensures Resident(a, a[p].childPtr[i].value) == 0
  {
    assert LinkOk(a, p, i);
    var c := a[p].childPtr[i].value;
    assert !ChildReports(a, p, i);
    if Resident(a, c) > 0 {
      ResidentNeedsFlags(a, c);
    }
  }

  /** No block is both a split and a merge candidate. */
  lemma CandidatesDisjoint(a: Arena, id: NodeId)
    ensures !(IsSplitCandidate(a, id) && IsMergeCandidate(a, id))
  {
  }

  /** The walk over all snapshots from index `s` on (the loop of `Recompute`). */
  function BuildRoots(a: Arena, roots: seq<Option<NodeId>>, s: nat, score: ScoreFn, q: Queues): (r: Queues)
    requires Linked(a) && RootsIn(a, roots) && s <= |roots|
    ensures Extends(q, r)
    ensures forall k | |q.split| <= k < |r.split| ::
      && s <= r.split[k].snap < |roots|
      && SplitEntry(a, r.split[k], r.split[k].snap, score)
      && ParentRecorded(a, roots, r.split[k])
    ensures forall k | |q.merge| <= k < |r.merge| ::
      && s <= r.merge[k].snap < |roots|
      && MergeEntry(a, r.merge[k], r.merge[k].snap, score)
      && ParentRecorded(a, roots, r.merge[k])
    decreases |roots| - s
  {
    if s == |roots| then q
    else
      match roots[s]
      case None => BuildRoots(a, roots, s + 1, score, q)
      case Some(root) =>
        var v := BuildQueue(a, root, None, s, score, q);
        BuildRoots(a, roots, s + 1, score, v.q)
  }

  /** Every block reachable from a loaded root of snapshot `s..`. */
  function ReachRoots(a: Arena, roots: seq<Option<NodeId>>, s: nat): set<NodeId>
    requires Linked(a) && RootsIn(a, roots) && s <= |roots|
    decreases |roots| - s
  {
    if s == |roots| then {}
    else (if roots[s].Some? then Reach(a, roots[s].value) else {}) + ReachRoots(a, roots, s + 1)
  }

  lemma {:induction false} BuildRootsCovers(a: Arena, roots: seq<Option<NodeId>>, s: nat, score: ScoreFn, q: Queues)
    requires Linked(a) && RootsIn(a, roots) && s <= |roots|
    ensures var r := BuildRoots(a, roots, s, score, q);
      && BlockSet(r.split[|q.split|..]) == (set x | x in ReachRoots(a, roots, s) && IsSplitCandidate(a, x))
      && BlockSet(r.merge[|q.merge|..]) == (set x | x in ReachRoots(a, roots, s) && IsMergeCandidate(a, x))
    decreases |roots| - s
  {
    if s == |roots| {
      assert q.split[|q.split|..] == [] && q.merge[|q.merge|..] == [];
    } else {
      match roots[s]
      case None =>
        BuildRootsCovers(a, roots, s + 1, score, q);
      case Some(root) =>
        var v := BuildQueue(a, root, None, s, score, q);
        var r := BuildRoots(a, roots, s + 1, score, v.q);
        BuildQueueCovers(a, root, None, s, score, q);
        BuildRootsCovers(a, roots, s + 1, score, v.q);
        SuffixSplit(q.split, v.q.split, r.split);
        SuffixSplit(q.merge, v.q.merge, r.merge);
        assert ReachRoots(a, roots, s) == Reach(a, root) + ReachRoots(a, roots, s + 1);
        FilterUnion(a, Reach(a, root), ReachRoots(a, roots, s + 1));
    }
  }

  /** A block reached through the slots of `id` from slot `i` on is reached
      from the resident child of one slot `j >= i`. */
  lemma {:induction false} ReachSlotsStep(a: Arena, id: NodeId, i: nat, x: NodeId) returns (j: nat)
    requires Linked(a) && id in a && i <= Octants && x in ReachSlots(a, id, i)
    ensures i <= j < Octants && a[id].childPtr[j].Some? && a[id].childPtr[j].value in a
    ensures x in Reach(a, a[id].childPtr[j].value)
    decreases Octants - i
  {
    match a[id].childPtr[i]
    case None =>
      j := ReachSlotsStep(a, id, i + 1, x);
    case Some(c) =>
      assert LinkOk(a, id, i);
      if x in Reach(a, c) {
        j := i;
      } else {
        j := ReachSlotsStep(a, id, i + 1, x);
      }
  }

  /** Everything the slot loop from `i` reaches includes what the child of
      each later slot reaches. */
  lemma {:induction false} ReachSlotsHas(a: Arena, id: NodeId, i: nat, j: nat)
    requires Linked(a) && id in a && i <= j < Octants && a[id].childPtr[j].Some?
    ensures a[id].childPtr[j].value in a
    ensures Reach(a, a[id].childPtr[j].value) <= ReachSlots(a, id, i)
    decreases j - i
  {
    assert LinkOk(a, id, j);
    if i < j {
      ReachSlotsHas(a, id, i + 1, j);
    }
  }

  /** The walk from `c` reaches only blocks of the arena, `c` itself and
      blocks strictly deeper. */
  lemma {:induction false} ReachDepth(a: Arena, c: NodeId, x: NodeId)
    requires Linked(a) && c in a && x in Reach(a, c)
    ensures x in a && a[x].hdr.depth >= a[c].hdr.depth
    ensures x != c ==> a[x].hdr.depth > a[c].hdr.depth
    decreases 0x1_0000 - a[c].hdr.depth
  {
    if x != c {
      var j := ReachSlotsStep(a, c, 0, x);
      assert LinkOk(a, c, j);
      ReachDepth(a, a[c].childPtr[j].value, x);
    }
  }

  /** A block reached from `c`, other than `c`, sits in a child slot. */
  lemma {:induction false} ReachHasParent(a: Arena, c: NodeId, y: NodeId) returns (p: NodeId, i: nat)
    requires Linked(a) && c in a && y in Reach(a, c) && y != c
    ensures p in a && i < Octants && a[p].childPtr[i] == Some(y)
    decreases 0x1_0000 - a[c].hdr.depth
  {
    var j := ReachSlotsStep(a, c, 0, y);
    var d := a[c].childPtr[j].value;
    assert LinkOk(a, c, j);
    if y == d {
      p, i := c, j;
    } else {
      p, i := ReachHasParent(a, d, y);
    }
  }

  /** In a tree, the parent of a block reached from `c` (other than `c`) is
      reached from `c` too. */
  lemma {:induction false} ReachParent(a: Arena, c: NodeId, y: NodeId, p: NodeId, i: nat)
    requires Linked(a) && SingleParent(a) && c in a && y in Reach(a, c) && y != c
    requires p in a && i < Octants && a[p].childPtr[i] == Some(y)
    ensures p in Reach(a, c)
    decreases 0x1_0000 - a[c].hdr.depth
  {
    var j := ReachSlotsStep(a, c, 0, y);
    var d := a[c].childPtr[j].value;
    assert LinkOk(a, c, j);
    ReachSlotsHas(a, c, 0, j);
    if y != d {
      ReachParent(a, d, y, p, i);
    }
  }

  /** In a tree, two walks that meet start on one path: the deeper start is
      reached from the shallower one. */
  lemma {:induction false} CommonReach(a: Arena, c1: NodeId, c2: NodeId, x: NodeId)
    requires Linked(a) && SingleParent(a) && c1 in a && c2 in a
    requires a[c1].hdr.depth <= a[c2].hdr.depth
    requires x in Reach(a, c1) && x in Reach(a, c2)
    ensures c2 in Reach(a, c1)
    decreases 0x1_0000 - a[c2].hdr.depth
  {
    if x != c2 {
      var j := ReachSlotsStep(a, c2, 0, x);
      var d := a[c2].childPtr[j].value;
      assert LinkOk(a, c2, j);
      CommonReach(a, c1, d, x);
      ReachParent(a, c1, d, c2, j);
    }
  }

  /** In a tree, the walks from two different slots of one block are disjoint. */
  lemma SiblingsApart(a: Arena, id: NodeId, i: nat, j: nat)
    requires Linked(a) && SingleParent(a) && id in a
    requires i < Octants && j < Octants && i != j
    requires a[id].childPtr[i].Some? && a[id].childPtr[j].Some?
    ensures a[id].childPtr[i].value in a && a[id].childPtr[j].value in a
    ensures Reach(a, a[id].childPtr[i].value) !! Reach(a, a[id].childPtr[j].value)
  {
    assert LinkOk(a, id, i) && LinkOk(a, id, j);
    var ci, cj := a[id].childPtr[i].value, a[id].childPtr[j].value;
    if x :| x in Reach(a, ci) && x in Reach(a, cj) {
      CommonReach(a, ci, cj, x);
      ReachDepth(a, ci, cj);
      assert false;
    }
  }

  /** In a tree, the walk from slot `i` and the walk over the later slots are
      disjoint. */
  lemma SlotApart(a: Arena, id: NodeId, i: nat)
    requires Linked(a) && SingleParent(a) && id in a && i < Octants && a[id].childPtr[i].Some?
    ensures a[id].childPtr[i].value in a
    ensures Reach(a, a[id].childPtr[i].value) !! ReachSlots(a, id, i + 1)
  {
    assert LinkOk(a, id, i);
    if x :| x in Reach(a, a[id].childPtr[i].value) && x in ReachSlots(a, id, i + 1) {
      var j := ReachSlotsStep(a, id, i + 1, x);
      SiblingsApart(a, id, i, j);
      assert false;
    }
  }

  /** A block is not reached through its own slots. */
  lemma SelfApart(a: Arena, id: NodeId)
    requires Linked(a) && id in a
    ensures id !in ReachSlots(a, id, 0)
  {
    if id in ReachSlots(a, id, 0) {
      var j := ReachSlotsStep(a, id, 0, id);
      assert LinkOk(a, id, j);
      ReachDepth(a, a[id].childPtr[j].value, id);
      assert false;
    }
  }

  /** A block reached from the roots of snapshots `s..` is reached from one of
      them. */
  lemma {:induction false} ReachRootsStep(a: Arena, roots: seq<Option<NodeId>>, s: nat, x: NodeId) returns (t: nat)
    requires Linked(a) && RootsIn(a, roots) && s <= |roots| && x in ReachRoots(a, roots, s)
    ensures s <= t < |roots| && roots[t].Some? && x in Reach(a, roots[t].value)
    decreases |roots| - s
  {
    if roots[s].Some? && x in Reach(a, roots[s].value) {
      t := s;
    } else {
      t := ReachRootsStep(a, roots, s + 1, x);
    }
  }

  /** With distinct roots that sit in no slot, the walk from the root of
      snapshot `s` and the walks from later roots are disjoint. */
  lemma RootsReachApart(a: Arena, roots: seq<Option<NodeId>>, s: nat)
    requires Linked(a) && SingleParent(a) && RootsIn(a, roots) && RootsApart(a, roots)
    requires s < |roots| && roots[s].Some?
    ensures Reach(a, roots[s].value) !! ReachRoots(a, roots, s + 1)
  {
    var r := roots[s].value;
    if x :| x in Reach(a, r) && x in ReachRoots(a, roots, s + 1) {
      var t := ReachRootsStep(a, roots, s + 1, x);
      var u := roots[t].value;
      assert roots[s] != roots[t];
      if a[r].hdr.depth <= a[u].hdr.depth {
        CommonReach(a, r, u, x);
        var p, i := ReachHasParent(a, r, u);
      } else {
        CommonReach(a, u, r, x);
        var p, i := ReachHasParent(a, u, r);
      }
      assert false;
    }
  }

  /** Entries over disjoint block sets can be concatenated. */
  lemma DistinctConcat(s: seq<Entry>, t: seq<Entry>)
    requires DistinctBlocks(s) && DistinctBlocks(t) && BlockSet(s) !! BlockSet(t)
    ensures DistinctBlocks(s + t)
  {
    var u := s + t;
    forall i, j | 0 <= i < j < |u| && u[i].block.Some?
      ensures u[i].block != u[j].block
    {
      if j < |s| {
        assert u[i] == s[i] && u[j] == s[j];
      } else if i >= |s| {
        assert u[i] == t[i - |s|] && u[j] == t[j - |s|];
      } else {
        assert u[i] == s[i] && u[j] == t[j - |s|];
        assert s[i] in s && t[j - |s|] in t;
        assert u[i].block.value in BlockSet(s);
        assert u[j].block.Some? ==> u[j].block.value in BlockSet(t);
      }
    }
  }

  /** The head of a queue with distinct blocks is not named again in its tail. */
  lemma DistinctTail(q: seq<Entry>)
    requires DistinctBlocks(q) && q != []
    ensures DistinctBlocks(q[1..])
    ensures q[0].block.Some? ==> q[0].block.value !in BlockSet(q[1..])
  {
    forall i, j | 0 <= i < j < |q[1..]| && q[1..][i].block.Some?
      ensures q[1..][i].block != q[1..][j].block
    {
      assert q[1..][i] == q[i + 1] && q[1..][j] == q[j + 1];
    }
  }

  /** In a tree, one walk from `id` queues each block at most once. */
  lemma {:induction false} BuildQueueDistinct(a: Arena, id: NodeId, parent: Option<NodeId>, snap: int, score: ScoreFn, q: Queues)
    requires Linked(a) && SingleParent(a) && id in a
    ensures var r := BuildQueue(a, id, parent, snap, score, q);
      DistinctBlocks(r.q.split[|q.split|..]) && DistinctBlocks(r.q.merge[|q.merge|..])
    decreases 0x1_0000 - a[id].hdr.depth, 1
  {
    var flags := a[id].hdr.childFlags;
    if flags == 0 || Busy(flags) {
      assert q.split[|q.split|..] == [] && q.merge[|q.merge|..] == [];
    } else {
      var s := BuildSlots(a, id, snap, score, 0, q);
      BuildSlotsDistinct(a, id, snap, score, 0, q);
      BuildSlotsCovers(a, id, snap, score, 0, q);
      SelfApart(a, id);
      assert a[id].childPtr[0..] == a[id].childPtr;
      if s.loaded == 0 {
        var e := Entry(Some(id), parent, snap, score(snap, id));
        AppendedDistinct(s.q.split, q.split, e);
      } else if !s.any {
        var e := Entry(Some(id), parent, snap, -score(snap, id));
        AppendedDistinct(s.q.merge, q.merge, e);
      }
    }
  }

  /** Appending an entry for a block the segment after `q` does not name. */
  lemma AppendedDistinct(v: seq<Entry>, q: seq<Entry>, e: Entry)
    requires |q| <= |v| && DistinctBlocks(v[|q|..])
    requires e.block.Some? && e.block.value !in BlockSet(v[|q|..])
    ensures DistinctBlocks((v + [e])[|q|..])
  {
    assert (v + [e])[|q|..] == v[|q|..] + [e];
    assert BlockSet([e]) == {e.block.value};
    DistinctConcat(v[|q|..], [e]);
  }

  lemma {:induction false} BuildSlotsDistinct(a: Arena, id: NodeId, snap: int, score: ScoreFn, i: nat, q: Queues)
    requires Linked(a) && SingleParent(a) && id in a && i <= Octants
    ensures var r := BuildSlots(a, id, snap, score, i, q);
      DistinctBlocks(r.q.split[|q.split|..]) && DistinctBlocks(r.q.merge[|q.merge|..])
    decreases 0x1_0000 - a[id].hdr.depth, 0, Octants - i
  {
    if i == Octants {
      assert q.split[|q.split|..] == [] && q.merge[|q.merge|..] == [];
    } else {
      match a[id].childPtr[i]
      case None =>
        BuildSlotsDistinct(a, id, snap, score, i + 1, q);
      case Some(c) =>
        assert LinkOk(a, id, i);
        var v := BuildQueue(a, c, Some(id), snap, score, q);
        var rest := BuildSlots(a, id, snap, score, i + 1, v.q);
        BuildQueueDistinct(a, c, Some(id), snap, score, q);
        BuildSlotsDistinct(a, id, snap, score, i + 1, v.q);
        BuildQueueCovers(a, c, Some(id), snap, score, q);
        BuildSlotsCovers(a, id, snap, score, i + 1, v.q);
        SlotApart(a, id, i);
        SegmentsDistinct(q.split, v.q.split, rest.q.split);
        SegmentsDistinct(q.merge, v.q.merge, rest.q.merge);
    }
  }

  /** Two consecutive segments with distinct blocks and disjoint block sets. */
  lemma SegmentsDistinct(q: seq<Entry>, v: seq<Entry>, r: seq<Entry>)
    requires q <= v <= r
    requires DistinctBlocks(v[|q|..]) && DistinctBlocks(r[|v|..])
    requires BlockSet(v[|q|..]) !! BlockSet(r[|v|..])
    ensures DistinctBlocks(r[|q|..])
  {
    SuffixSplit(q, v, r);
    DistinctConcat(v[|q|..], r[|v|..]);
  }

  /** With a tree and roots apart, the walk over snapshots `s..` queues each
      block at most once. */
  lemma {:induction false} BuildRootsDistinct(a: Arena, roots: seq<Option<NodeId>>, s: nat, score: ScoreFn, q: Queues)
    requires Linked(a) && SingleParent(a) && RootsIn(a, roots) && RootsApart(a, roots) && s <= |roots|
    ensures var r := BuildRoots(a, roots, s, score, q);
      DistinctBlocks(r.split[|q.split|..]) && DistinctBlocks(r.merge[|q.merge|..])
    decreases |roots| - s
  {
    if s == |roots| {
      assert q.split[|q.split|..] == [] && q.merge[|q.merge|..] == [];
    } else {
      match roots[s]
      case None =>
        BuildRootsDistinct(a, roots, s + 1, score, q);
      case Some(root) =>
        var v := BuildQueue(a, root, None, s, score, q);
        var r := BuildRoots(a, roots, s + 1, score, v.q);
        BuildQueueDistinct(a, root, None, s, score, q);
        BuildRootsDistinct(a, roots, s + 1, score, v.q);
        BuildQueueCovers(a, root, None, s, score, q);
        BuildRootsCovers(a, roots, s + 1, score, v.q);
        RootsReachApart(a, roots, s);
        SegmentsDistinct(q.split, v.q.split, r.split);
        SegmentsDistinct(q.merge, v.q.merge, r.merge);
    }
  }

  /** Inserting an entry whose block is not yet queued keeps blocks distinct. */
  lemma {:induction false} InsertKeepsDistinct(e: Entry, q: seq<Entry>)
    requires SortedDesc(q) && DistinctBlocks(q)
    requires e.block.Some? ==> e.block.value !in BlockSet(q)
    ensures DistinctBlocks(Insert(e, q))
    decreases |q|
  {
    if q == [] {
    } else if q[0].score >= e.score {
      assert q == [q[0]] + q[1..];
      var rest := Insert(e, q[1..]);
      DistinctTail(q);
      BlockSetConcat([q[0]], q[1..]);
      InsertKeepsDistinct(e, q[1..]);
      assert multiset(rest) == multiset(q[1..] + [e]);
      BlockSetOfPermutation(rest, q[1..] + [e]);
      BlockSetConcat(q[1..], [e]);
      DistinctConcat([q[0]], rest);
    } else {
      DistinctConcat([e], q);
    }
  }

  /** Sorting keeps blocks distinct. */
  lemma {:induction false} SortKeepsDistinct(q: seq<Entry>)
    requires DistinctBlocks(q)
    ensures DistinctBlocks(SortDesc(q))
    decreases |q|
  {
    if q != [] {
      assert q == [q[0]] + q[1..];
      DistinctTail(q);
      SortKeepsDistinct(q[1..]);
      BlockSetOfPermutation(SortDesc(q[1..]), q[1..]);
      InsertKeepsDistinct(q[0], SortDesc(q[1..]));
    }
  }

  lemma BlockSetOfPermutation(s: seq<Entry>, t: seq<Entry>)
    requires multiset(s) == multiset(t)
    ensures BlockSet(s) == BlockSet(t)
  {
    assert forall e :: e in s <==> e in multiset(s);
    assert forall e :: e in t <==> e in multiset(t);
  }

  /** Every entry of a permutation `t` of `s` is an entry of `s`. */
  lemma PermutationMembers(s: seq<Entry>, t: seq<Entry>)
    requires multiset(s) == multiset(t)
    ensures forall k | 0 <= k < |t| :: t[k] in s
  {
    forall k | 0 <= k < |t|
      ensures t[k] in s
    {
      assert t[k] in multiset(t);
    }
  }

  /** The queues produced by one walk of all roots, before sorting. */
  lemma WalkFacts(a: Arena, roots: seq<Option<NodeId>>, score: ScoreFn)
    requires Linked(a) && RootsIn(a, roots)
    ensures var w := BuildRoots(a, roots, 0, score, Queues([], []));
      && BlockSet(w.split) == (set x | x in ReachRoots(a, roots, 0) && IsSplitCandidate(a, x))
      && BlockSet(w.merge) == (set x | x in ReachRoots(a, roots, 0) && IsMergeCandidate(a, x))
      && (forall e | e in w.split :: 0 <= e.snap < |roots| && SplitEntry(a, e, e.snap, score))
      && (forall e | e in w.merge :: 0 <= e.snap < |roots| && MergeEntry(a, e, e.snap, score))
      && (forall e | e in w.split + w.merge :: ParentRecorded(a, roots, e))
      && (SingleParent(a) && RootsApart(a, roots) ==> DistinctBlocks(w.split) && DistinctBlocks(w.merge))
  {
    var empty := Queues([], []);
    var w := BuildRoots(a, roots, 0, score, empty);
    BuildRootsCovers(a, roots, 0, score, empty);
    assert w.split[0..] == w.split && w.merge[0..] == w.merge;
    if SingleParent(a) && RootsApart(a, roots) {
      BuildRootsDistinct(a, roots, 0, score, empty);
    }
  }

  /** `Recompute`: both queues are cleared first; unless frozen, every loaded
      root is walked and each queue is sorted by descending score. */
  function Recompute(a: Arena, roots: seq<Option<NodeId>>, frozen: bool, score: ScoreFn): (r: Queues)
    requires Linked(a) && RootsIn(a, roots)
    ensures frozen ==> r.split == [] && r.merge == []
    ensures SortedDesc(r.split) && SortedDesc(r.merge)
    ensures forall k | 0 <= k < |r.split| ::
      && 0 <= r.split[k].snap < |roots|
      && SplitEntry(a, r.split[k], r.split[k].snap, score)
      && ParentRecorded(a, roots, r.split[k])
    ensures forall k | 0 <= k < |r.merge| ::
      && 0 <= r.merge[k].snap < |roots|
      && MergeEntry(a, r.merge[k], r.merge[k].snap, score)
      && ParentRecorded(a, roots, r.merge[k])
    ensures SingleParent(a) && RootsApart(a, roots) ==> DistinctBlocks(r.split) && DistinctBlocks(r.merge)
    ensures !frozen ==>
      && BlockSet(r.split) == (set x | x in ReachRoots(a, roots, 0) && IsSplitCandidate(a, x))
      && BlockSet(r.merge) == (set x | x in ReachRoots(a, roots, 0) && IsMergeCandidate(a, x))
    ensures BlockSet(r.split) !! BlockSet(r.merge)
  {
    if frozen then Queues([], [])
    else
      var w := BuildRoots(a, roots, 0, score, Queues([], []));
      SortedWalk(a, roots, score);
      Queues(SortDesc(w.split), SortDesc(w.merge))
  }

  /** The walk's queues after sorting keep every fact of the walk. */
  lemma SortedWalk(a: Arena, roots: seq<Option<NodeId>>, score: ScoreFn)
    requires Linked(a) && RootsIn(a, roots)
    ensures var w := BuildRoots(a, roots, 0, score, Queues([], []));
      var r := Queues(SortDesc(w.split), SortDesc(w.merge));
      && (forall k | 0 <= k < |r.split| ::
            && 0 <= r.split[k].snap < |roots|
            && SplitEntry(a, r.split[k], r.split[k].snap, score)
            && ParentRecorded(a, roots, r.split[k]))
      && (forall k | 0 <= k < |r.merge| ::
            && 0 <= r.merge[k].snap < |roots|
            && MergeEntry(a, r.merge[k], r.merge[k].snap, score)
            && ParentRecorded(a, roots, r.merge[k]))
      && (SingleParent(a) && RootsApart(a, roots) ==> DistinctBlocks(r.split) && DistinctBlocks(r.merge))
      && BlockSet(r.split) == (set x | x in ReachRoots(a, roots, 0) && IsSplitCandidate(a, x))
      && BlockSet(r.merge) == (set x | x in ReachRoots(a, roots, 0) && IsMergeCandidate(a, x))
  {
    var w := BuildRoots(a, roots, 0, score, Queues([], []));
    WalkFacts(a, roots, score);
    var r := Queues(SortDesc(w.split), SortDesc(w.merge));
    BlockSetOfPermutation(r.split, w.split);
    BlockSetOfPermutation(r.merge, w.merge);
    PermutationMembers(w.split, r.split);
    PermutationMembers(w.merge, r.merge);
    if SingleParent(a) && RootsApart(a, roots) {
      SortKeepsDistinct(w.split);
      SortKeepsDistinct(w.merge);
    }
  }

  /** `ToggleFreeze`: flips the freeze switch and nothing else. */
  function ToggleFreeze(s: Scheduler): (r: Scheduler)
    ensures r.frozen != s.frozen && r.q == s.q
  {
    s.(frozen := !s.frozen)
  }

  lemma ToggleFreezeTwice(s: Scheduler)
    ensures ToggleFreeze(ToggleFreeze(s)) == s
  {
  }
}
