/** Polling rounds of the scan loops: which blocks a run visits for a sequence of reported heads. A
    failed head request reports 0, and heads may go backwards. */
module Rounds {
  import opened Pagination

  /** currentBlock after the heads. */
  function Current(start: int, heads: seq<int>): int {
    if heads == [] then start
    else
      var current, head := Current(start, heads[..|heads| - 1]), heads[|heads| - 1];
      if head > current then head else current
  }

  /** The blocks visited: every head above currentBlock is followed by one pass from currentBlock up
      to it. */
  function Visits(start: int, heads: seq<int>): seq<int> {
    if heads == [] then []
    else
      var current, head := Current(start, heads[..|heads| - 1]), heads[|heads| - 1];
      Visits(start, heads[..|heads| - 1]) + (if current < head then Range(current, head) else [])
  }

  /** currentBlock is the maximum of the start and all heads seen. */
  lemma {:induction false} CurrentIsMaximum(start: int, heads: seq<int>)
    ensures Current(start, heads) >= start && forall i :: 0 <= i < |heads| ==> Current(start, heads) >= heads[i]
    ensures Current(start, heads) == start || Current(start, heads) in heads
  {
    if heads != [] {
      CurrentIsMaximum(start, heads[..|heads| - 1]);
      assert heads == heads[..|heads| - 1] + [heads[|heads| - 1]];
    }
  }

  ghost predicate Nondecreasing(s: seq<int>) {
    forall i, j :: 0 <= i < j < |s| ==> s[i] <= s[j]
  }

  /** Blocks are visited in nondecreasing order, the last one being currentBlock. */
  lemma {:induction false} VisitsAscend(start: int, heads: seq<int>)
    ensures Nondecreasing(Visits(start, heads))
    ensures var vs := Visits(start, heads);
            if vs == [] then Current(start, heads) == start else vs[|vs| - 1] == Current(start, heads) > start
  {
    if heads != [] {
      var front, head := heads[..|heads| - 1], heads[|heads| - 1];
      VisitsAscend(start, front);
      CurrentIsMaximum(start, front);
      if Current(start, front) < head {
        AscendAppends(Visits(start, front), Current(start, front), head);
      }
    }
  }

  lemma AscendAppends(s: seq<int>, lo: int, hi: int)
    requires Nondecreasing(s) && (s != [] ==> s[|s| - 1] == lo) && lo <= hi
    ensures Nondecreasing(s + Range(lo, hi)) && (s + Range(lo, hi))[|s| + hi - lo] == hi
  {
  }

  /** b was currentBlock between two rounds that advanced it. */
  ghost predicate WasHead(start: int, heads: seq<int>, b: int) {
    start < b < Current(start, heads) && exists k :: 0 <= k <= |heads| && Current(start, heads[..k]) == b
  }

  lemma RangeCounts(lo: int, hi: int, b: int)
    ensures multiset(Range(lo, hi))[b] == if lo <= b <= hi then 1 else 0
    decreases hi - lo + 1
  {
    if lo <= hi {
      RangeCounts(lo, hi - 1, b);
    }
  }

  lemma {:induction false} CurrentGrows(start: int, heads: seq<int>, k: nat)
    requires k <= |heads|
    ensures start <= Current(start, heads[..k]) <= Current(start, heads)
    decreases |heads|
  {
    if k == |heads| {
      assert heads[..k] == heads;
      CurrentIsMaximum(start, heads);
    } else {
      var front := heads[..|heads| - 1];
      assert front[..k] == heads[..k];
      CurrentGrows(start, front, k);
    }
  }

  lemma HeadsOfPrefix(start: int, heads: seq<int>, b: int)
    requires heads != []
    ensures var front := heads[..|heads| - 1];
            WasHead(start, heads, b) <==>
              WasHead(start, front, b) || (b == Current(start, front) && start < b < Current(start, heads))
  {
    var front := heads[..|heads| - 1];
    CurrentGrows(start, heads, |heads| - 1);
    assert forall k :: 0 <= k <= |front| ==> front[..k] == heads[..k];
    assert front[..|front|] == front && heads[..|heads|] == heads;
    if WasHead(start, heads, b) {
      var k :| 0 <= k <= |heads| && Current(start, heads[..k]) == b;
      assert k <= |front|;
      CurrentGrows(start, front, k);
      assert Current(start, front[..k]) == b;
    }
    if b == Current(start, front) {
      assert Current(start, heads[..|front|]) == b;
    }
  }

  /** Exact multiplicities: when the current block advanced, every block from the start to it is
      visited once, and a block that was the head of an earlier round once more, by the round after
      it. Nothing else is visited. */
  lemma {:induction false} VisitCounts(start: int, heads: seq<int>, b: int)
    ensures multiset(Visits(start, heads))[b] ==
            (if start <= b <= Current(start, heads) && start < Current(start, heads) then 1 else 0) +
            (if WasHead(start, heads, b) then 1 else 0)
  {
    if heads != [] {
      var front, head := heads[..|heads| - 1], heads[|heads| - 1];
      var current := Current(start, front);
      VisitCounts(start, front, b);
      HeadsOfPrefix(start, heads, b);
      CurrentIsMaximum(start, front);
      RangeCounts(current, head, b);
    } else {
      assert forall k :: 0 <= k <= |heads| ==> heads[..k] == heads;
    }
  }
}
