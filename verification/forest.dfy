/** The resident forest as an arena of blocks keyed by address, and its
    well-formedness: every non-null child slot names a block in the arena, one
    level deeper, whose octant bit is set in the parent's persisted flags. */
module Forest {
  import opened Wrappers
  import opened Blocks

  type Arena = map<NodeId, Block>

  /** Slot `i` of `id` is null, or points at a resident block one level deeper
      whose octant exists on disk. */
  predicate LinkOk(a: Arena, id: NodeId, i: nat)
    requires id in a && i < Octants
  {
    a[id].childPtr[i].Some? ==>
      var c := a[id].childPtr[i].value;
      && c in a
      && a[c].hdr.depth == a[id].hdr.depth + 1
      && HasOctant(a[id].hdr.childFlags, i)
  }

  predicate Linked(a: Arena) {
    forall id, i | id in a && 0 <= i < Octants :: LinkOk(a, id, i)
  }

  /** Every loaded root names a block of the arena. */
  predicate RootsIn(a: Arena, roots: seq<Option<NodeId>>) {
    forall s | 0 <= s < |roots| :: roots[s].Some? ==> roots[s].value in a
  }

  /** The resident forest is a tree: a block sits in at most one slot of at
      most one parent (each slab belongs to the one block that loaded it). */
  predicate SingleParent(a: Arena) {
    forall p, q, i, j | p in a && q in a && 0 <= i < Octants && 0 <= j < Octants ::
      a[p].childPtr[i].Some? && a[p].childPtr[i] == a[q].childPtr[j] ==> p == q && i == j
  }

  /** Loaded roots of different snapshots are different blocks, and no root
      sits in a child slot. */
  predicate RootsApart(a: Arena, roots: seq<Option<NodeId>>) {
    && (forall s, t | 0 <= s < t < |roots| :: roots[s].Some? ==> roots[s] != roots[t])
    && (forall s, p, i | 0 <= s < |roots| && p in a && 0 <= i < Octants ::
          roots[s].Some? ==> a[p].childPtr[i] != roots[s])
  }

  /** Number of resident children of `id`. */
  function Resident(a: Arena, id: NodeId): nat
    requires id in a
  {
    ResidentIn(a[id].childPtr)
  }

  /** `c` is a resident child of `p`. */
  predicate ChildOf(a: Arena, p: NodeId, c: NodeId)
    requires p in a
  {
    Some(c) in a[p].childPtr
  }

  lemma {:induction false} ResidentMeansSomeSlot(s: seq<Option<NodeId>>)
    ensures ResidentIn(s) > 0 <==> exists i :: 0 <= i < |s| && s[i].Some?
  {
    if s != [] {
      ResidentMeansSomeSlot(s[1..]);
      if ResidentIn(s[1..]) > 0 {
        var i :| 0 <= i < |s[1..]| && s[1..][i].Some?;
        assert s[i + 1].Some?;
      }
      if !s[0].Some? && (exists i :: 0 <= i < |s| && s[i].Some?) {
        var i :| 0 <= i < |s| && s[i].Some?;
        assert s[1..][i - 1].Some?;
      }
    }
  }

  /** In a linked arena a block with a resident child has nonzero flags: a
      resident child always sits in an octant that exists on disk. */
  lemma ResidentNeedsFlags(a: Arena, id: NodeId)
    requires Linked(a) && id in a
    requires Resident(a, id) > 0
    ensures a[id].hdr.childFlags & 0xFF != 0
  {
    ResidentMeansSomeSlot(a[id].childPtr);
    var i :| 0 <= i < |a[id].childPtr| && a[id].childPtr[i].Some?;
    assert LinkOk(a, id, i);
  }
}
