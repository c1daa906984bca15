/** The tree generator's external merge sort (gentree/MergeFiles.h): a set
    of individually sorted files is merged bottom-up, two runs at a time,
    alternating between a location and its temporary twin. Every record
    type the generator sorts compares by one integer key (`pid`, `coord`,
    or the rank of `GroupVertexB`), so a record is modelled as its key and
    the rest of its bytes, which the merge only carries along. A run is the concatenation, in order, of the files it
    spans: the readers walk consecutive sub-files and the writer fills
    consecutive sub-files, so how a run is cut into files is not modelled. */
module MergeFiles {
  import opened Formats
  import TreeIndex

  /** A sorted record: its ordering key and the payload it carries. */
  datatype Item = Item(key: int, payload: nat)

  /** Ascending by key; equal keys allowed. */
  predicate SortedBy(s: seq<Item>) {
    forall i, j | 0 <= i < j < |s| :: s[i].key <= s[j].key
  }

  /** The records of `s` with key `k`, in order. */
  function KeyRun(s: seq<Item>, k: int): (r: seq<Item>)
    ensures |r| <= |s|
  {
    if s == [] then []
    else (if s[0].key == k then [s[0]] else []) + KeyRun(s[1..], k)
  }

  // ---------------------------------------------------------------------
  // MergeFiles: the two-way merge
  // ---------------------------------------------------------------------

  /** The output of `MergeFiles`: while both readers have records, the
      head of the first run is written when it is strictly smaller,
      otherwise the head of the second; then the leftovers of the first
      run, then those of the second. */
  function Merge(a: seq<Item>, b: seq<Item>): (r: seq<Item>)
    ensures |r| == |a| + |b|
    decreases |a| + |b|
  {
    if a == [] then b
    else if b == [] then a
    else if a[0].key < b[0].key then [a[0]] + Merge(a[1..], b)
    else [b[0]] + Merge(a, b[1..])
  }

  /** The merge writes every record of both runs exactly once. */
  lemma {:induction false} MergePermutes(a: seq<Item>, b: seq<Item>)
    ensures multiset(Merge(a, b)) == multiset(a) + multiset(b)
    decreases |a| + |b|
  {
    if a != [] && b != [] {
      if a[0].key < b[0].key {
        MergePermutes(a[1..], b);
        ConsPermutes(a[0], a[1..], Merge(a[1..], b), b);
        assert Merge(a, b) == [a[0]] + Merge(a[1..], b);
        assert a == [a[0]] + a[1..];
      } else {
        MergePermutes(a, b[1..]);
        ConsPermutes(b[0], b[1..], Merge(a, b[1..]), a);
        assert Merge(a, b) == [b[0]] + Merge(a, b[1..]);
        assert b == [b[0]] + b[1..];
      }
    }
  }

  /** Writing one record ahead of a permutation of the rest. */
  lemma ConsPermutes(x: Item, s: seq<Item>, m: seq<Item>, t: seq<Item>)
    requires multiset(m) == multiset(s) + multiset(t)
    ensures multiset([x] + m) == multiset([x] + s) + multiset(t)
  {
  }

  /** Prepending a record no larger than any of a sorted run keeps it
      sorted. */
  lemma ConsSorted(x: Item, s: seq<Item>)
    requires SortedBy(s)
    requires forall y: Item | y in multiset(s) :: x.key <= y.key
    ensures SortedBy([x] + s)
  {
    forall i, j | 0 <= i < j < |[x] + s|
      ensures ([x] + s)[i].key <= ([x] + s)[j].key
    {
      if i == 0 {
        assert s[j - 1] in multiset(s);
      }
    }
  }

  /** Merging two sorted runs gives a sorted run. */
  lemma {:induction false} MergeSortedRuns(a: seq<Item>, b: seq<Item>)
    requires SortedBy(a) && SortedBy(b)
    ensures SortedBy(Merge(a, b))
    decreases |a| + |b|
  {
    if a != [] && b != [] {
      if a[0].key < b[0].key {
        var rest := Merge(a[1..], b);
        MergeSortedRuns(a[1..], b);
        MergePermutes(a[1..], b);
        forall y: Item | y in multiset(rest)
          ensures a[0].key <= y.key
        {
          if y in multiset(a[1..]) {
            var k :| 0 <= k < |a[1..]| && a[1..][k] == y;
            assert a[k + 1] == y;
          } else {
            var k :| 0 <= k < |b| && b[k] == y;
          }
        }
        ConsSorted(a[0], rest);
      } else {
        var rest := Merge(a, b[1..]);
        MergeSortedRuns(a, b[1..]);
        MergePermutes(a, b[1..]);
        forall y: Item | y in multiset(rest)
          ensures b[0].key <= y.key
        {
          if y in multiset(b[1..]) {
            var k :| 0 <= k < |b[1..]| && b[1..][k] == y;
            assert b[k + 1] == y;
          } else {
            var k :| 0 <= k < |a| && a[k] == y;
          }
        }
        ConsSorted(b[0], rest);
      }
    }
  }

  /** No record of a sorted run whose first key exceeds `k` has key `k`. */
  lemma {:induction false} KeyRunAbove(s: seq<Item>, k: int)
    requires SortedBy(s) && s != [] && s[0].key > k
    ensures KeyRun(s, k) == []
    decreases |s|
  {
    if |s| > 1 {
      KeyRunAbove(s[1..], k);
    }
  }

  lemma KeyRunCons(x: Item, s: seq<Item>, k: int)
    ensures KeyRun([x] + s, k) == (if x.key == k then [x] else []) + KeyRun(s, k)
  {
    assert ([x] + s)[0] == x && ([x] + s)[1..] == s;
  }

  /** Ties go to the second run: among records with equal keys, the merge
      writes all those of the second run, in their order, before all those
      of the first run, in theirs. */
  lemma {:induction false} MergeTies(a: seq<Item>, b: seq<Item>, k: int)
    requires SortedBy(a) && SortedBy(b)
    ensures KeyRun(Merge(a, b), k) == KeyRun(b, k) + KeyRun(a, k)
    decreases |a| + |b|
  {
    if a == [] {
      assert KeyRun(a, k) == [];
    } else if b == [] {
      assert KeyRun(b, k) == [];
    } else if a[0].key < b[0].key {
      MergeTies(a[1..], b, k);
      if a[0].key == k {
        KeyRunAbove(b, k);
      }
      TiesFirst(a[0], Merge(a[1..], b), a[1..], b, k);
      assert a == [a[0]] + a[1..];
    } else {
      MergeTies(a, b[1..], k);
      TiesSecond(b[0], Merge(a, b[1..]), a, b[1..], k);
      assert b == [b[0]] + b[1..];
    }
  }

  /** The step of `MergeTies` where the first run's head `x` is written
      ahead of the merge `rest` of its tail `xs` with the second run `ys`,
      none of whose records has the key of `x`. */
  lemma TiesFirst(x: Item, rest: seq<Item>, xs: seq<Item>, ys: seq<Item>, k: int)
    requires KeyRun(rest, k) == KeyRun(ys, k) + KeyRun(xs, k)
    requires x.key == k ==> KeyRun(ys, k) == []
    ensures KeyRun([x] + rest, k) == KeyRun(ys, k) + KeyRun([x] + xs, k)
  {
    KeyRunCons(x, rest, k);
    KeyRunCons(x, xs, k);
  }

  /** The step of `MergeTies` where the second run's head `y` is written
      ahead of the merge `rest` of the first run `xs` with its tail `ys`. */
  lemma TiesSecond(y: Item, rest: seq<Item>, xs: seq<Item>, ys: seq<Item>, k: int)
    requires KeyRun(rest, k) == KeyRun(ys, k) + KeyRun(xs, k)
    ensures KeyRun([y] + rest, k) == KeyRun([y] + ys, k) + KeyRun(xs, k)
  {
    var head: seq<Item> := if y.key == k then [y] else [];
    var run := KeyRun(ys, k);
    calc {
      KeyRun([y] + rest, k);
      == { KeyRunCons(y, rest, k); }
      head + (run + KeyRun(xs, k));
      == { assert head + (run + KeyRun(xs, k)) == (head + run) + KeyRun(xs, k); }
      (head + run) + KeyRun(xs, k);
      == { KeyRunCons(y, ys, k); }
      KeyRun([y] + ys, k) + KeyRun(xs, k);
    }
  }

  /** A merge with an empty second range copies the first run. */
  lemma MergeEmpty(a: seq<Item>)
    ensures Merge(a, []) == a
  {
  }

  /** One step of the merge from cursors `i` and `j`. */
  lemma MergeStep(a: seq<Item>, b: seq<Item>, i: nat, j: nat)
    requires i < |a| || j < |b|
    requires i <= |a| && j <= |b|
    ensures var m := Merge(a[i..], b[j..]);
      if i < |a| && (j == |b| || a[i].key < b[j].key) then m == [a[i]] + Merge(a[i + 1..], b[j..])
      else m == [b[j]] + Merge(a[i..], b[j + 1..])
  {
    if i < |a| {
      assert a[i..][0] == a[i] && a[i..][1..] == a[i + 1..];
    }
    if j < |b| {
      assert b[j..][0] == b[j] && b[j..][1..] == b[j + 1..];
    }
    if i < |a| && j == |b| {
      MergeEmpty(a[i..]);
      MergeEmpty(a[i + 1..]);
    }
  }

  lemma SnocAssoc<T>(x: seq<T>, e: T, y: seq<T>)
    ensures (x + [e]) + y == x + ([e] + y)
  {
  }

  /** `MergeFiles` with its two cursors: the loop over both runs, then the
      two leftover loops. */
  method MergeRuns(a: seq<Item>, b: seq<Item>) returns (out: seq<Item>)
    ensures out == Merge(a, b)
  {
    var i, j := 0, 0;
    out := [];
    while i < |a| && j < |b|
      invariant 0 <= i <= |a| && 0 <= j <= |b|
      invariant out + Merge(a[i..], b[j..]) == Merge(a, b)
      decreases |a| - i + |b| - j
    {
      MergeStep(a, b, i, j);
      if a[i].key < b[j].key {
        SnocAssoc(out, a[i], Merge(a[i + 1..], b[j..]));
        out := out + [a[i]];
        i := i + 1;
      } else {
        SnocAssoc(out, b[j], Merge(a[i..], b[j + 1..]));
        out := out + [b[j]];
        j := j + 1;
      }
    }
    if i < |a| {
      MergeEmpty(a[i..]);
      assert b[j..] == [];
    }
    assert Merge(a[i..], b[j..]) == a[i..] + b[j..];
    ghost var done := out;
    out := CopyRest(out, a[i..]);
    out := CopyRest(out, b[j..]);
    assert out == done + (a[i..] + b[j..]);
  }

  /** A leftover loop of `MergeFiles`: the remaining records of one reader
      are written in order. */
  method CopyRest(out0: seq<Item>, rest: seq<Item>) returns (out: seq<Item>)
    ensures out == out0 + rest
  {
    out := out0;
    var i := 0;
    while i < |rest|
      invariant 0 <= i <= |rest|
      invariant out == out0 + rest[..i]
    {
      assert rest[..i + 1] == rest[..i] + [rest[i]];
      out := out + [rest[i]];
      i := i + 1;
    }
    assert rest[..i] == rest;
  }

  // ---------------------------------------------------------------------
  // MergeSorted: the pass schedule
  // ---------------------------------------------------------------------

  /** `ceil(n / d)`, by repeated subtraction. */
  function CeilDiv(n: nat, d: nat): nat
    requires d > 0
    decreases n
  {
    if n == 0 then 0 else if n <= d then 1 else 1 + CeilDiv(n - d, d)
  }

  lemma {:induction false} CeilDivByOne(n: nat)
    ensures CeilDiv(n, 1) == n
  {
    if n > 1 {
      CeilDivByOne(n - 1);
    }
  }

  /** One block of `d` files holds everything exactly when `n <= d`. */
  lemma CeilDivOne(n: nat, d: nat)
    requires d > 0
    ensures CeilDiv(n, d) <= 1 <==> n <= d
  {
  }

  /** Halving the number of blocks (rounding up) is counting blocks twice
      as long. */
  lemma {:induction false} CeilDivTwice(n: nat, d: nat)
    requires d > 0
    ensures CeilDiv(CeilDiv(n, d), 2) == CeilDiv(n, 2 * d)
    decreases n
  {
    if n > 2 * d {
      CeilDivTwice(n - 2 * d, d);
      assert CeilDiv(n, d) == 2 + CeilDiv(n - 2 * d, d);
    } else if n > d {
      assert CeilDiv(n - d, d) == 1;
    }
  }

  /** A count `q` with `2q` equal to `m` or `m + 1` is `ceil(m / 2)`. */
  lemma {:induction false} CeilHalf(m: nat, q: nat)
    requires 2 * q == m || 2 * q == m + 1
    ensures CeilDiv(m, 2) == q
    decreases m
  {
    if m > 2 {
      CeilHalf(m - 2, q - 1);
    }
  }

  /** The concatenation of runs, in order. */
  function Flatten(runs: seq<seq<Item>>): (r: seq<Item>)
  {
    if runs == [] then [] else runs[0] + Flatten(runs[1..])
  }

  /** What one pass of `MergeSorted` writes: runs `2b` and `2b + 1` merged
      into run `b`, and a lone last run merged with an empty range. */
  function Pass(runs: seq<seq<Item>>): (r: seq<seq<Item>>)
    ensures |r| == CeilDiv(|runs|, 2)
  {
    if runs == [] then []
    else if |runs| == 1 then [Merge(runs[0], [])]
    else [Merge(runs[0], runs[1])] + Pass(runs[2..])
  }

  /** Run `b` of a pass is the merge of input runs `2b` and `2b + 1`, or a
      copy of run `2b` when it is the lone last one. */
  lemma {:induction false} PassAt(runs: seq<seq<Item>>, b: nat)
    requires b < |Pass(runs)|
    ensures 2 * b + 1 < |runs| ==> Pass(runs)[b] == Merge(runs[2 * b], runs[2 * b + 1])
    ensures 2 * b + 1 == |runs| ==> Pass(runs)[b] == runs[2 * b]
    decreases b
  {
    if |runs| == 1 {
      MergeEmpty(runs[0]);
    } else if b > 0 {
      PassAt(runs[2..], b - 1);
    }
  }

  /** A pass writes every record it reads exactly once. */
  lemma {:induction false} PassPermutes(runs: seq<seq<Item>>)
    ensures multiset(Flatten(Pass(runs))) == multiset(Flatten(runs))
    decreases |runs|
  {
    if |runs| == 1 {
      MergeEmpty(runs[0]);
      assert Flatten(Pass(runs)) == runs[0] + Flatten([]);
    } else if |runs| >= 2 {
      PassPermutes(runs[2..]);
      MergePermutes(runs[0], runs[1]);
      var p := Pass(runs);
      assert p[0] == Merge(runs[0], runs[1]) && p[1..] == Pass(runs[2..]);
      assert runs[1..][0] == runs[1] && runs[1..][1..] == runs[2..];
    }
  }

  /** A pass over sorted runs gives sorted runs. */
  lemma PassSorted(runs: seq<seq<Item>>)
    requires forall b | 0 <= b < |runs| :: SortedBy(runs[b])
    ensures forall b | 0 <= b < |Pass(runs)| :: SortedBy(Pass(runs)[b])
  {
    forall b | 0 <= b < |Pass(runs)|
      ensures SortedBy(Pass(runs)[b])
    {
      PassAt(runs, b);
      if 2 * b + 1 < |runs| {
        MergeSortedRuns(runs[2 * b], runs[2 * b + 1]);
      }
    }
  }

  /** The file ranges of one `MergeFiles` call: the first reader starts at
      sub-file `start1` and stops after `end1`, the second likewise. */
  datatype Call = Call(start1: int, end1: int, start2: int, end2: int)

  /** How many sub-files a reader opened at `first` with last file `last`
      reads when sub-files `0 .. numFiles - 1` exist: it stops past `last`
      and at the first missing file. */
  function FilesRead(first: int, last: int, numFiles: nat): (r: nat)
    ensures r <= numFiles
  {
    if first < 0 || first > last || first >= numFiles then 0
    else (if last < numFiles then last else numFiles - 1) - first + 1
  }

  function Min(x: int, y: int): int {
    if x <= y then x else y
  }

  /** The call `MergeSorted` makes for the pair of blocks at `start`: a
      full pair, a short final pair, or a lone final block whose second
      range names the first missing file and so reads nothing. Between
      them the two ranges read the `2 * blockLen` files from `start` on, or
      as many as remain. */
  function CallAt(numFiles: nat, blockLen: nat, start: nat): (c: Call)
    requires blockLen > 0 && start < numFiles
    ensures c.start1 == start && c.start2 == c.end1 + 1
    ensures FilesRead(c.start1, c.end1, numFiles) == Min(blockLen, numFiles - start)
    ensures FilesRead(c.start2, c.end2, numFiles) == 0 <==> numFiles - start <= blockLen
    ensures FilesRead(c.start1, c.end1, numFiles) + FilesRead(c.start2, c.end2, numFiles)
      == Min(2 * blockLen, numFiles - start)
  {
    if numFiles - start <= blockLen then Call(start, numFiles - 1, numFiles, numFiles)
    else if numFiles - start < 2 * blockLen then
      Call(start, start + blockLen - 1, start + blockLen, numFiles - 1)
    else Call(start, start + blockLen - 1, start + blockLen, start + 2 * blockLen - 1)
  }

  /** How many blocks of `d` files the last `m` files make, one or two
      blocks at a time. */
  lemma {:induction false} CeilDivSteps(m: nat, d: nat)
    requires d > 0 && m > 0
    ensures m <= d ==> CeilDiv(m, d) == 1
    ensures d < m <= 2 * d ==> CeilDiv(m, d) == 2
    ensures 2 * d < m ==> CeilDiv(m, d) == 2 + CeilDiv(m - 2 * d, d)
  {
    if m > d {
      assert CeilDiv(m, d) == 1 + CeilDiv(m - d, d);
    }
  }

  /** A pass from run `k` on: a pair of runs merged ahead of the rest. */
  lemma PassPair(runs: seq<seq<Item>>, k: nat)
    requires k + 1 < |runs|
    ensures Pass(runs[k..]) == [Merge(runs[k], runs[k + 1])] + Pass(runs[k + 2..])
  {
    assert runs[k..][0] == runs[k] && runs[k..][1] == runs[k + 1] && runs[k..][2..] == runs[k + 2..];
  }

  /** A pass from the last run on: the run merged with an empty range. */
  lemma PassLone(runs: seq<seq<Item>>, k: nat)
    requires k + 1 == |runs|
    ensures Pass(runs[k..]) == [Merge(runs[k], [])]
  {
    assert runs[k..] == [runs[k]];
  }

  /** One pass of `MergeSorted` over blocks of `blockLen` files, the
      for-loop over `start`: a full pair or a final short pair of blocks is
      merged and counted off; a lone trailing block is copied through a
      merge with an empty second range and not counted. */
  method MergePass(runs: seq<seq<Item>>, numFiles: nat, blockLen: nat, numBlocks: nat)
      returns (out: seq<seq<Item>>, blocksLeft: nat)
    requires blockLen > 0 && |runs| == CeilDiv(numFiles, blockLen) && numBlocks == |runs|
    ensures out == Pass(runs)
    ensures blocksLeft == numBlocks - |runs| / 2 && blocksLeft == |out|
  {
    out := [];
    blocksLeft := numBlocks;
    var start := 0;
    ghost var consumed := 0;
    while start < numFiles
      invariant consumed <= |runs|
      invariant consumed == 2 * |out| || (consumed == 2 * |out| - 1 && consumed == |runs|)
      invariant start < numFiles ==> consumed + CeilDiv(numFiles - start, blockLen) == |runs|
      invariant start >= numFiles ==> consumed == |runs|
      invariant blocksLeft + consumed - |out| == numBlocks
      invariant out + Pass(runs[consumed..]) == Pass(runs)
      decreases numFiles - start
    {
      var k := 2 * |out|;
      CeilDivSteps(numFiles - start, blockLen);
      if numFiles - start <= blockLen {
        // a lone trailing block: a merge with an empty second range
        out := MergeLone(runs, out);
        consumed := consumed + 1;
      } else {
        out := MergePair(runs, out);
        consumed := consumed + 2;
        blocksLeft := blocksLeft - 1;
      }
      start := start + 2 * blockLen;
    }
    assert runs[consumed..] == [];
  }

  /** The last, unpaired run of a pass, copied through a merge with an
      empty run. */
  method MergeLone(runs: seq<seq<Item>>, out0: seq<seq<Item>>) returns (out: seq<seq<Item>>)
    requires 2 * |out0| + 1 == |runs| && out0 + Pass(runs[2 * |out0|..]) == Pass(runs)
    ensures out == Pass(runs) && |out| == |out0| + 1
  {
    var k := 2 * |out0|;
    PassLone(runs, k);
    var m := MergeRuns(runs[k], []);
    out := out0 + [m];
  }

  /** The next pair of runs of a pass, merged. */
  method MergePair(runs: seq<seq<Item>>, out0: seq<seq<Item>>) returns (out: seq<seq<Item>>)
    requires 2 * |out0| + 1 < |runs| && out0 + Pass(runs[2 * |out0|..]) == Pass(runs)
    ensures |out| == |out0| + 1 && out + Pass(runs[2 * |out|..]) == Pass(runs)
  {
    var k := 2 * |out0|;
    PassPair(runs, k);
    var m := MergeRuns(runs[k], runs[k + 1]);
    SnocAssoc(out0, m, Pass(runs[k + 2..]));
    out := out0 + [m];
  }

  /** The paths after `n` swaps. */
  function SwapN(p: PathPair, n: nat): PathPair {
    if n == 0 then p else Swap(SwapN(p, n - 1))
  }

  /** After an even number of passes the data is back at the original
      location; after an odd number it is at the temporary one. */
  lemma {:induction false} SwapNParity(p: PathPair, n: nat)
    ensures SwapN(p, n) == if n % 2 == 0 then p else Swap(p)
  {
    if n > 0 {
      SwapNParity(p, n - 1);
      SwapTwice(p);
    }
  }

  /** The runs `MergeSorted` leaves and where it leaves them. */
  datatype Sorted = Sorted(runs: seq<seq<Item>>, paths: PathPair, passes: nat)

  /** A pass over the blocks of `blockLen` files keeps every run sorted and
      every record, and leaves the blocks of twice that length; there was a
      pass to make only if one block did not hold every file. */
  lemma PassOk(runs: seq<seq<Item>>, files: seq<seq<Item>>, numFiles: nat, blockLen: nat)
    requires blockLen > 0 && |runs| == CeilDiv(numFiles, blockLen) && |runs| > 1
    requires forall b | 0 <= b < |runs| :: SortedBy(runs[b])
    requires multiset(Flatten(runs)) == multiset(Flatten(files))
    ensures |Pass(runs)| == CeilDiv(numFiles, 2 * blockLen)
    ensures forall b | 0 <= b < |Pass(runs)| :: SortedBy(Pass(runs)[b])
    ensures multiset(Flatten(Pass(runs))) == multiset(Flatten(files))
    ensures blockLen < numFiles
  {
    PassSorted(runs);
    PassPermutes(runs);
    CeilDivTwice(numFiles, blockLen);
    CeilDivOne(numFiles, blockLen);
  }

  /** `MergeSorted`: while more than one block of sorted files remains,
      make a pass over the blocks two at a time; then blocks double in
      length and the read and write locations trade places. One file is
      returned as is. The result's location is where the last pass wrote. */
  method MergeSorted(files: seq<seq<Item>>, paths: PathPair) returns (res: Sorted)
    requires forall f | 0 <= f < |files| :: SortedBy(files[f])
    ensures |files| <= 1 ==> res.paths == paths && res.runs == files
    ensures |files| >= 1 ==> |res.runs| == 1 && SortedBy(res.runs[0])
    ensures multiset(Flatten(res.runs)) == multiset(Flatten(files))
    ensures res.paths == SwapN(paths, res.passes)
    ensures |files| >= 1 ==> |files| <= TreeIndex.Pow2(res.passes)
    ensures res.passes > 0 ==> TreeIndex.Pow2(res.passes - 1) < |files|
  {
    var numFiles := |files|;
    if numFiles == 1 {
      return Sorted(files, paths, 0);
    }
    var numBlocks := numFiles;
    var blockLen := 1;
    CeilDivByOne(numFiles);
    var runs := files;
    var p := paths;
    var passes := 0;
    while numBlocks > 1
      invariant blockLen == TreeIndex.Pow2(passes) && blockLen > 0
      invariant numBlocks == |runs| == CeilDiv(numFiles, blockLen)
      invariant forall b | 0 <= b < |runs| :: SortedBy(runs[b])
      invariant multiset(Flatten(runs)) == multiset(Flatten(files))
      invariant p == SwapN(paths, passes)
      invariant passes > 0 ==> TreeIndex.Pow2(passes - 1) < numFiles
      invariant numFiles == 0 ==> runs == files && passes == 0
      decreases numBlocks
    {
      var out, left := MergePass(runs, numFiles, blockLen, numBlocks);
      PassOk(runs, files, numFiles, blockLen);
      numBlocks := left;
      blockLen := 2 * blockLen;
      p := Swap(p);
      runs := out;
      passes := passes + 1;
    }
    CeilDivOne(numFiles, blockLen);
    res := Sorted(runs, p, passes);
  }
}
