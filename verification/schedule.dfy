/** The scheduler's queue operations (BlockPriority.cpp `GetSplit`, `DoSplit`,
    `DoMerge`, `GetMergeCost`). Entries are never removed from a queue: a
    consumed entry has its block pointer nulled (a tombstone) and later scans
    skip it. */
module Schedule {
  import opened Wrappers
  import opened Blocks
  import opened Forest
  import opened ScoreSort
  import opened Priority

  /** Every live entry of `s` names a block of the arena: the queues hold raw
      pointers, which the operations dereference. */
  predicate LiveIn(a: Arena, s: seq<Entry>) {
    forall k | 0 <= k < |s| :: s[k].block.Some? ==> s[k].block.value in a
  }

  /** A live entry whose children are stored in sub-file `subfile`. */
  predicate InSubfile(a: Arena, e: Entry, subfile: int) {
    e.block.Some? && e.block.value in a && a[e.block.value].hdr.childFile == subfile
  }

  /** Index of the first entry of `s` at or after `i` that is live and reads
      from `subfile`. */
  function FindSplit(a: Arena, s: seq<Entry>, subfile: int, i: nat): (r: Option<nat>)
    requires i <= |s|
    ensures r.Some? ==> i <= r.value < |s| && InSubfile(a, s[r.value], subfile)
    ensures forall k | i <= k < |s| && (r.None? || k < r.value) :: !InSubfile(a, s[k], subfile)
    decreases |s| - i
  {
    if i == |s| then None
    else if InSubfile(a, s[i], subfile) then Some(i)
    else FindSplit(a, s, subfile, i + 1)
  }

  /** `GetSplit(subfile)`: the first live split entry reading from `subfile`,
      or nothing when there is none. */
  function GetSplit(a: Arena, q: Queues, subfile: int): (r: Option<Entry>)
    requires LiveIn(a, q.split)
    ensures r.Some? <==> exists k | 0 <= k < |q.split| :: InSubfile(a, q.split[k], subfile)
    ensures r.Some? ==> r.value in q.split && InSubfile(a, r.value, subfile)
  {
    match FindSplit(a, q.split, subfile, 0)
    case None => None
    case Some(i) => Some(q.split[i])
  }

  /** On a queue sorted by descending score, the entry `GetSplit` returns
      scores at least as high as every other candidate of its sub-file. */
  lemma GetSplitIsBest(a: Arena, q: Queues, subfile: int)
    requires LiveIn(a, q.split) && SortedDesc(q.split)
    ensures var r := GetSplit(a, q, subfile);
      r.Some? ==> forall k | 0 <= k < |q.split| && InSubfile(a, q.split[k], subfile) ::
        q.split[k].score <= r.value.score
  {
    var f := FindSplit(a, q.split, subfile, 0);
    if f.Some? {
      forall k | 0 <= k < |q.split| && InSubfile(a, q.split[k], subfile)
        ensures q.split[k].score <= q.split[f.value].score
      {
        if k != f.value {
          assert f.value < k;
        }
      }
    }
  }

  /** The entry is live and hangs below one of `bs`. */
  predicate ChildOfAny(e: Entry, bs: seq<NodeId>) {
    e.block.Some? && e.parent.Some? && e.parent.value in bs
  }

  /** Tombstones every live entry whose block is `b` (nothing when `b` is a
      null pointer). */
  function DropBlock(s: seq<Entry>, b: Option<NodeId>): (r: seq<Entry>)
    ensures |r| == |s|
    ensures forall k | 0 <= k < |s| :: r[k] == s[k].(block := r[k].block)
    ensures forall k | 0 <= k < |s| :: r[k].block == s[k].block || r[k].block.None?
    ensures BlockSet(r) == BlockSet(s) - (if b.Some? then {b.value} else {})
  {
    var r := seq(|s|, k requires 0 <= k < |s| =>
      if b.Some? && s[k].block == b then Tombstone(s[k]) else s[k]);
    assert forall x | x in BlockSet(r) :: x in BlockSet(s) && Some(x) != b by {
      forall x | x in BlockSet(r) ensures x in BlockSet(s) && Some(x) != b {
        var e :| e in r && e.block.Some? && e.block.value == x;
        var k :| 0 <= k < |r| && r[k] == e;
        assert s[k] in s;
      }
    }
    assert forall x | x in BlockSet(s) && Some(x) != b :: x in BlockSet(r) by {
      forall x | x in BlockSet(s) && Some(x) != b ensures x in BlockSet(r) {
        var e :| e in s && e.block.Some? && e.block.value == x;
        var k :| 0 <= k < |s| && s[k] == e;
        assert r[k] in r;
      }
    }
    r
  }

  /** Tombstones every live entry whose parent is one of `bs`. */
  function DropChildrenOf(s: seq<Entry>, bs: seq<NodeId>): (r: seq<Entry>)
    ensures |r| == |s|
    ensures forall k | 0 <= k < |s| :: r[k] == s[k].(block := r[k].block)
    ensures forall k | 0 <= k < |s| :: r[k].block == s[k].block || r[k].block.None?
    ensures forall k | 0 <= k < |s| :: !ChildOfAny(r[k], bs)
    ensures forall k | 0 <= k < |s| :: !ChildOfAny(s[k], bs) ==> r[k] == s[k]
  {
    seq(|s|, k requires 0 <= k < |s| => if ChildOfAny(s[k], bs) then Tombstone(s[k]) else s[k])
  }

  /** `r` is `s` with some entries tombstoned. */
  predicate Nulled(s: seq<Entry>, r: seq<Entry>) {
    |r| == |s| && forall k | 0 <= k < |s| :: r[k] == s[k] || r[k] == Tombstone(s[k])
  }

  /** `DoSplit(subfile)`: tombstones the entry `GetSplit` returns, the first
      live one on the sub-file even when the queue holds the same entry
      twice, and removes that entry's parent from the merge queue, so a block
      is never split while its parent is being merged. */
  function DoSplit(a: Arena, q: Queues, subfile: int): (r: Queues)
    requires LiveIn(a, q.split)
    ensures GetSplit(a, q, subfile).None? ==> r == q
    ensures GetSplit(a, q, subfile).Some? ==>
      var e := GetSplit(a, q, subfile).value;
      && |r.split| == |q.split|
      && (exists i | 0 <= i < |q.split| ::
            && q.split[i] == e
            && (forall k | 0 <= k < i :: !InSubfile(a, q.split[k], subfile))
            && r.split == q.split[i := Tombstone(e)])
      && r.merge == DropBlock(q.merge, e.parent)
      && (e.parent.Some? ==> e.parent.value !in BlockSet(r.merge))
  {
    match FindSplit(a, q.split, subfile, 0)
    case None => q
    case Some(i) =>
      var e := q.split[i];
      Queues(q.split[i := Tombstone(e)], DropBlock(q.merge, e.parent))
  }

  /** The index of the entry `DoSplit` tombstones. */
  lemma DoSplitAt(a: Arena, q: Queues, subfile: int) returns (i: nat)
    requires LiveIn(a, q.split) && GetSplit(a, q, subfile).Some?
    ensures i < |q.split| && q.split[i] == GetSplit(a, q, subfile).value
    ensures DoSplit(a, q, subfile).split == q.split[i := Tombstone(q.split[i])]
  {
    i := FindSplit(a, q.split, subfile, 0).value;
  }

  /** Tombstoning one more live entry of a nulled queue keeps it nulled. */
  lemma NulledTombstone(s: seq<Entry>, s1: seq<Entry>, i: nat)
    requires Nulled(s, s1) && i < |s1| && s1[i] == s[i]
    ensures Nulled(s, s1[i := Tombstone(s1[i])])
  {
  }

  /** On a split queue that names each block at most once, an entry that
      was tombstoned in place was the only one for its block: no `GetSplit`,
      for any sub-file, returns that block afterwards. */
  lemma SplitConsumed(a: Arena, s: seq<Entry>, r: Queues, e: Entry)
    requires DistinctBlocks(s) && Nulled(s, r.split) && LiveIn(a, r.split) && e.block.Some?
    requires exists i | 0 <= i < |s| :: s[i] == e && r.split[i] == Tombstone(e)
    ensures forall sf :: GetSplit(a, r, sf).Some? ==> GetSplit(a, r, sf).value.block != e.block
  {
    var i :| 0 <= i < |s| && s[i] == e && r.split[i] == Tombstone(e);
    forall k | 0 <= k < |r.split|
      ensures r.split[k].block != e.block
    {
      if k != i && r.split[k] == s[k] {
        assert i < k || k < i;
        assert s[k].block != s[i].block;
      }
    }
  }

  /** A merge entry `DoMerge` may take: live and not the excluded parent. */
  predicate Eligible(e: Entry, excl: Option<NodeId>) {
    e.block.Some? && e.block != excl
  }

  /** Bytes of resident children under the block of a live entry. */
  function ChildBytes(a: Arena, e: Entry): nat
    requires e.block.Some? && e.block.value in a
  {
    a[e.block.value].hdr.childLength
  }

  /** Child bytes of the eligible entries among the first `k`. */
  function EligibleBytes(a: Arena, s: seq<Entry>, excl: Option<NodeId>, k: nat): nat
    requires LiveIn(a, s) && k <= |s|
  {
    if k == 0 then 0
    else EligibleBytes(a, s, excl, k - 1) + (if Eligible(s[k - 1], excl) then ChildBytes(a, s[k - 1]) else 0)
  }

  /** Entry `k` is taken: eligible, and the eligible entries before it have
      not yet freed more than `n` bytes. */
  predicate Selected(a: Arena, s: seq<Entry>, excl: Option<NodeId>, n: nat, k: nat)
    requires LiveIn(a, s) && k < |s|
  {
    Eligible(s[k], excl) && EligibleBytes(a, s, excl, k) <= n
  }

  /** Blocks of the entries taken among the first `k`, in queue order. */
  function SelectedBlocks(a: Arena, s: seq<Entry>, excl: Option<NodeId>, n: nat, k: nat): (r: seq<NodeId>)
    requires LiveIn(a, s) && k <= |s|
    ensures forall x | x in r :: x in a && Some(x) != excl
  {
    if k == 0 then []
    else
      var prev := SelectedBlocks(a, s, excl, n, k - 1);
      if Selected(a, s, excl, n, k - 1) then prev + [s[k - 1].block.value] else prev
  }

  /** A block is among the selected ones exactly when an entry naming it is
      taken. */
  lemma {:induction false} SelectedBlocksMembers(a: Arena, s: seq<Entry>, excl: Option<NodeId>, n: nat, k: nat, x: NodeId)
    requires LiveIn(a, s) && k <= |s|
    ensures x in SelectedBlocks(a, s, excl, n, k) <==> exists j | 0 <= j < k :: Selected(a, s, excl, n, j) && s[j].block == Some(x)
  {
    if k > 0 {
      SelectedBlocksMembers(a, s, excl, n, k - 1, x);
    }
  }

  /** Sum of the negated (so, real) scores of the entries taken among the first `k`. */
  function SelectedScore(a: Arena, s: seq<Entry>, excl: Option<NodeId>, n: nat, k: nat): real
    requires LiveIn(a, s) && k <= |s|
  {
    if k == 0 then 0.0
    else SelectedScore(a, s, excl, n, k - 1) + (if Selected(a, s, excl, n, k - 1) then -s[k - 1].score else 0.0)
  }

  /** Total child bytes under a list of resident blocks. */
  function MergedBytes(a: Arena, bs: seq<NodeId>): nat
    requires forall x | x in bs :: x in a
  {
    if bs == [] then 0 else MergedBytes(a, bs[..|bs| - 1]) + a[bs[|bs| - 1]].hdr.childLength
  }

  lemma {:induction false} EligibleBytesGrow(a: Arena, s: seq<Entry>, excl: Option<NodeId>, j: nat, k: nat)
    requires LiveIn(a, s) && j <= k <= |s|
    ensures EligibleBytes(a, s, excl, j) <= EligibleBytes(a, s, excl, k)
    decreases k - j
  {
    if j < k {
      EligibleBytesGrow(a, s, excl, j, k - 1);
    }
  }

  /** Once the eligible bytes before `j` exceed `n`, nothing from `j` on is taken. */
  lemma NothingAfterBudget(a: Arena, s: seq<Entry>, excl: Option<NodeId>, n: nat, j: nat)
    requires LiveIn(a, s) && j <= |s| && EligibleBytes(a, s, excl, j) > n
    ensures forall k | j <= k < |s| :: !Selected(a, s, excl, n, k)
  {
    forall k | j <= k < |s| ensures !Selected(a, s, excl, n, k) {
      EligibleBytesGrow(a, s, excl, j, k);
    }
  }

  /** The taken entries free more than `n` bytes, or every eligible entry is taken. */
  lemma {:induction false} SelectedFreesEnough(a: Arena, s: seq<Entry>, excl: Option<NodeId>, n: nat, k: nat)
    requires LiveIn(a, s) && k <= |s|
    ensures var bs := SelectedBlocks(a, s, excl, n, k);
      && MergedBytes(a, bs) <= EligibleBytes(a, s, excl, k)
      && (MergedBytes(a, bs) > n || MergedBytes(a, bs) == EligibleBytes(a, s, excl, k))
  {
    if k > 0 {
      SelectedFreesEnough(a, s, excl, n, k - 1);
      var prev := SelectedBlocks(a, s, excl, n, k - 1);
      if Selected(a, s, excl, n, k - 1) {
        var bs := prev + [s[k - 1].block.value];
        assert bs[..|bs| - 1] == prev;
      }
    }
  }

  /** The first loop of `DoMerge`: walks the merge queue in order, skipping
      tombstones and `excl`, taking and tombstoning entries until more than
      `n` bytes have been freed. */
  method TakeMerges(a: Arena, s: seq<Entry>, n: nat, excl: Option<NodeId>) returns (m: seq<Entry>, blocks: seq<NodeId>)
    requires LiveIn(a, s)
    ensures blocks == SelectedBlocks(a, s, excl, n, |s|)
    ensures |m| == |s|
    ensures forall k | 0 <= k < |s| ::
      m[k] == if Selected(a, s, excl, n, k) then Tombstone(s[k]) else s[k]
  {
    m := s;
    var bytes := 0;
    blocks := [];
    var i := 0;
    while i < |s| && bytes <= n
      invariant 0 <= i <= |s| && |m| == |s|
      invariant bytes == EligibleBytes(a, s, excl, i)
      invariant blocks == SelectedBlocks(a, s, excl, n, i)
      invariant forall k | 0 <= k < |s| ::
        m[k] == if k < i && Selected(a, s, excl, n, k) then Tombstone(s[k]) else s[k]
    {
      if m[i].block.Some? && m[i].block != excl {
        bytes := bytes + a[m[i].block.value].hdr.childLength;
        blocks := blocks + [m[i].block.value];
        m := m[i := Tombstone(m[i])];
      }
      i := i + 1;
    }
    if i < |s| {
      NothingAfterBudget(a, s, excl, n, i);
      SelectedPrefixIsAll(a, s, excl, n, i, |s|);
    }
  }

  /** The second loop of `DoMerge`: for each taken block, tombstones every
      live split entry whose parent it is. */
  method DropSplitChildren(s: seq<Entry>, blocks: seq<NodeId>) returns (sp: seq<Entry>)
    ensures sp == DropChildrenOf(s, blocks)
  {
    sp := s;
    var b := 0;
    while b < |blocks|
      invariant 0 <= b <= |blocks|
      invariant sp == DropChildrenOf(s, blocks[..b])
    {
      var j := 0;
      ghost var before := sp;
      assert blocks[..b + 1] == blocks[..b] + [blocks[b]];
      while j < |sp|
        invariant 0 <= j <= |sp| == |s|
        invariant forall k | 0 <= k < |sp| ::
          sp[k] == if k < j then DropChildrenOf(s, blocks[..b + 1])[k] else before[k]
      {
        if sp[j].block.Some? && sp[j].parent == Some(blocks[b]) {
          sp := sp[j := Tombstone(sp[j])];
        }
        j := j + 1;
      }
      b := b + 1;
    }
    assert blocks[..|blocks|] == blocks;
  }

  /** `DoMerge(numBytes, parent)`: takes merge entries in queue order, never
      `excl`, until more than `n` bytes are freed or the queue runs out, and
      drops the split entries below the taken blocks. */
  method DoMerge(a: Arena, q: Queues, n: nat, excl: Option<NodeId>) returns (r: Queues, blocks: seq<NodeId>)
    requires LiveIn(a, q.merge)
    ensures blocks == SelectedBlocks(a, q.merge, excl, n, |q.merge|)
    ensures |r.merge| == |q.merge|
    ensures forall k | 0 <= k < |q.merge| ::
      r.merge[k] == if Selected(a, q.merge, excl, n, k) then Tombstone(q.merge[k]) else q.merge[k]
    ensures r.split == DropChildrenOf(q.split, blocks)
    ensures excl.Some? ==> excl.value !in blocks
    ensures MergedBytes(a, blocks) > n || MergedBytes(a, blocks) == EligibleBytes(a, q.merge, excl, |q.merge|)
    ensures LiveIn(a, r.merge)
  {
    var m;
    m, blocks := TakeMerges(a, q.merge, n, excl);
    SelectedFreesEnough(a, q.merge, excl, n, |q.merge|);
    var sp := DropSplitChildren(q.split, blocks);
    r := Queues(sp, m);
    forall k | 0 <= k < |m| && m[k].block.Some?
      ensures m[k].block.value in a
    {
      assert m[k] == q.merge[k];
    }
  }

  /** Taking stops for good: the taken blocks of a longer prefix are those of
      `j` when nothing from `j` on is taken. */
  lemma {:induction false} SelectedPrefixIsAll(a: Arena, s: seq<Entry>, excl: Option<NodeId>, n: nat, j: nat, k: nat)
    requires LiveIn(a, s) && j <= k <= |s|
    requires forall i | j <= i < |s| :: !Selected(a, s, excl, n, i)
    ensures SelectedBlocks(a, s, excl, n, k) == SelectedBlocks(a, s, excl, n, j)
    ensures SelectedScore(a, s, excl, n, k) == SelectedScore(a, s, excl, n, j)
    decreases k - j
  {
    if j < k {
      SelectedPrefixIsAll(a, s, excl, n, j, k - 1);
    }
  }

  /** `GetMergeCost(numBytes, parent)`: the summed (positive) score of the
      merge entries `DoMerge` would take, provided they free more than `n`
      bytes; zero when the whole queue cannot free that much. */
  method GetMergeCost(a: Arena, q: Queues, n: nat, excl: Option<NodeId>) returns (cost: real)
    requires LiveIn(a, q.merge)
    ensures EligibleBytes(a, q.merge, excl, |q.merge|) > n ==> cost == SelectedScore(a, q.merge, excl, n, |q.merge|)
    ensures EligibleBytes(a, q.merge, excl, |q.merge|) <= n ==> cost == 0.0
  {
    var s := q.merge;
    var bytes := 0;
    var score := 0.0;
    var i := 0;
    while i < |s|
      invariant 0 <= i <= |s|
      invariant bytes == EligibleBytes(a, s, excl, i) <= n
      invariant score == SelectedScore(a, s, excl, n, i)
    {
      if s[i].block.Some? && s[i].block != excl {
        bytes := bytes + a[s[i].block.value].hdr.childLength;
        score := score + (-s[i].score);
        if bytes > n {
          NothingAfterBudget(a, s, excl, n, i + 1);
          SelectedPrefixIsAll(a, s, excl, n, i + 1, |s|);
          EligibleBytesGrow(a, s, excl, i + 1, |s|);
          return score;
        }
      }
      i := i + 1;
    }
    return 0.0;
  }

  /** Merging around the parent of the split candidate `GetSplit` chose keeps
      that candidate: after `DoMerge(_, e.parent)` the same entry is still the
      first of its sub-file, so the following `DoSplit` consumes it. */
  lemma MergeKeepsChosenSplit(a: Arena, q: Queues, subfile: int, bs: seq<NodeId>)
    requires LiveIn(a, q.split)
    requires GetSplit(a, q, subfile).Some?
    requires var e := GetSplit(a, q, subfile).value; e.parent.Some? ==> e.parent.value !in bs
    ensures LiveIn(a, DropChildrenOf(q.split, bs))
    ensures GetSplit(a, q.(split := DropChildrenOf(q.split, bs)), subfile) == GetSplit(a, q, subfile)
  {
    var s := q.split;
    var d := DropChildrenOf(s, bs);
    var i := FindSplit(a, s, subfile, 0).value;
    assert !ChildOfAny(s[i], bs);
    assert d[i] == s[i];
    FindSplitOnDropped(a, s, d, subfile, 0, i);
  }

  lemma {:induction false} FindSplitOnDropped(a: Arena, s: seq<Entry>, d: seq<Entry>, subfile: int, j: nat, i: nat)
    requires |d| == |s| && j <= i < |s|
    requires forall k | 0 <= k < |s| :: d[k].block == s[k].block || d[k].block.None?
    requires d[i] == s[i] && InSubfile(a, s[i], subfile)
    requires forall k | j <= k < i :: !InSubfile(a, s[k], subfile)
    ensures FindSplit(a, d, subfile, j) == Some(i)
    decreases i - j
  {
    if j < i {
      assert !InSubfile(a, d[j], subfile);
      FindSplitOnDropped(a, s, d, subfile, j + 1, i);
    }
  }
}
