/** Sorting a queue by score, highest first. `BlockInfo`'s `operator<` is
    `a.score > b.score`, so an ascending sort by it orders entries by
    descending score. The sort here is one insertion order among those a
    (non-stable) sort may produce. */
module ScoreSort {
  import opened Blocks

  /** `operator<` on queue entries: inverted so that sorting is descending. */
  predicate Before(a: Entry, b: Entry) {
    a.score > b.score
  }

  /** No entry is `Before` an earlier one: scores never increase along `q`. */
  predicate SortedDesc(q: seq<Entry>) {
    forall i, j | 0 <= i < j < |q| :: q[i].score >= q[j].score
  }

  /** A sequence headed by `x` is sorted when its tail is and `x` scores at
      least as high as every tail entry. */
  lemma SortedCons(x: Entry, s: seq<Entry>)
    requires SortedDesc(s)
    requires forall y | y in s :: x.score >= y.score
    ensures SortedDesc([x] + s)
  {
    var t := [x] + s;
    forall i, j | 0 <= i < j < |t|
      ensures t[i].score >= t[j].score
    {
      if i > 0 {
        assert t[i] == s[i - 1] && t[j] == s[j - 1];
      } else {
        assert t[j] == s[j - 1];
      }
    }
  }

  function Insert(e: Entry, q: seq<Entry>): (r: seq<Entry>)
    requires SortedDesc(q)
    ensures SortedDesc(r)
    ensures multiset(r) == multiset(q) + multiset{e}
    ensures |r| == |q| + 1
  {
    if q == [] then [e]
    else if q[0].score >= e.score then
      assert q == [q[0]] + q[1..];
      var rest := Insert(e, q[1..]);
      HeadBoundsTail(q);
      BoundKept(q[0], e, q[1..], rest);
      SortedCons(q[0], rest);
      [q[0]] + rest
    else
      SortedCons(e, q);
      [e] + q
  }

  /** The head of a sorted sequence scores at least as high as its tail. */
  lemma HeadBoundsTail(q: seq<Entry>)
    requires SortedDesc(q) && q != []
    ensures forall y | y in q[1..] :: q[0].score >= y.score
  {
    forall y | y in q[1..]
      ensures q[0].score >= y.score
    {
      var j :| 0 <= j < |q[1..]| && q[1..][j] == y;
      assert q[j + 1] == y;
    }
  }

  /** An upper bound on `tail` and `e` bounds any rearrangement of the two. */
  lemma BoundKept(x: Entry, e: Entry, tail: seq<Entry>, rest: seq<Entry>)
    requires forall y | y in tail :: x.score >= y.score
    requires x.score >= e.score
    requires multiset(rest) == multiset(tail) + multiset{e}
    ensures forall y | y in rest :: x.score >= y.score
  {
    forall y | y in rest
      ensures x.score >= y.score
    {
      assert y in multiset(rest);
      if y != e {
        assert y in multiset(tail);
      }
    }
  }

  /** Sorts `q` by descending score. */
  function SortDesc(q: seq<Entry>): (r: seq<Entry>)
    ensures SortedDesc(r)
    ensures multiset(r) == multiset(q)
    ensures |r| == |q|
  {
    if q == [] then []
    else
      assert q == [q[0]] + q[1..];
      Insert(q[0], SortDesc(q[1..]))
  }
}
