/** Splitting a block range into pages in 64-bit arithmetic (contract-watcher/watcher/pagination.go),
    and the block loop over one page. */
module Pagination {
  import opened Numerals
  import opened Text

  function Wrap(n: int): uint64 {
    n % UINT64_BOUND
  }

  function GetTotalBlocks(lastBlock: uint64, currentBlock: uint64, pageSize: uint64): uint64
    requires pageSize > 0
  {
    Wrap(Wrap(lastBlock - currentBlock) / pageSize + 1)
  }

  function GetPage(currentBlock: uint64, index: uint64, pageSize: uint64, lastBlock: uint64): (uint64, uint64) {
    PageAt(Wrap(currentBlock + Wrap(index * pageSize)), pageSize, lastBlock)
  }

  /** The page that starts at a block. */
  function PageAt(fromBlock: uint64, pageSize: uint64, lastBlock: uint64): (uint64, uint64) {
    var toBlock := Wrap(Wrap(fromBlock + pageSize) - 1);
    (fromBlock, if toBlock > lastBlock then lastBlock else toBlock)
  }

  /** The blocks lo..hi in order; none when lo > hi. */
  function Range(lo: int, hi: int): (r: seq<int>)
    ensures |r| == if lo <= hi then hi - lo + 1 else 0
    ensures forall i :: 0 <= i < |r| ==> r[i] == lo + i
    decreases hi - lo + 1
  {
    if lo > hi then [] else Range(lo, hi - 1) + [hi]
  }

  lemma RangeAppends(lo: int, mid: int, hi: int)
    requires lo <= mid + 1 && mid <= hi
    ensures Range(lo, mid) + Range(mid + 1, hi) == Range(lo, hi)
  {
  }

  // ---------------------------------------------------------------- the block loop of a page

  /** The loop variable of `for block := from; block <= to; block++` after n iterations. */
  function BlockAfter(fromBlock: uint64, n: nat): uint64 {
    if n == 0 then fromBlock else Wrap(BlockAfter(fromBlock, n - 1) + 1)
  }

  /** The loop's guard fails after some number of iterations. */
  ghost predicate LoopExits(fromBlock: uint64, toBlock: uint64) {
    exists n: nat :: BlockAfter(fromBlock, n) > toBlock
  }

  lemma WrapNext(n: nat)
    ensures Wrap(Wrap(n) + 1) == Wrap(n + 1)
  {
    if Wrap(n) == UINT64_BOUND - 1 {
      assert (n + 1) % UINT64_BOUND == 0;
    }
  }

  lemma {:induction false} BlockAfterIs(fromBlock: uint64, n: nat)
    ensures BlockAfter(fromBlock, n) == Wrap(fromBlock + n)
  {
    if n == 0 {
      WrapSmall(fromBlock);
    } else {
      BlockAfterIs(fromBlock, n - 1);
      WrapNext(fromBlock + n - 1);
      hide Wrap;
    }
  }

  /** The block loop ends exactly unless its bound is the largest 64-bit number, which no block
      exceeds. */
  lemma LoopExitsIff(fromBlock: uint64, toBlock: uint64)
    ensures LoopExits(fromBlock, toBlock) <==> toBlock < UINT64_BOUND - 1
  {
    if toBlock < UINT64_BOUND - 1 {
      if fromBlock > toBlock {
        assert BlockAfter(fromBlock, 0) > toBlock;
      } else {
        BlockAfterIs(fromBlock, toBlock - fromBlock + 1);
        assert BlockAfter(fromBlock, toBlock - fromBlock + 1) > toBlock;
      }
    }
  }

  // ---------------------------------------------------------------- the page loop

  /** The blocks of the first n pages, in order. */
  function Pages(currentBlock: uint64, lastBlock: uint64, pageSize: uint64, n: nat): seq<int>
    requires n <= UINT64_BOUND
  {
    if n == 0 then [] else
      var (lo, hi) := GetPage(currentBlock, n - 1, pageSize, lastBlock);
      Pages(currentBlock, lastBlock, pageSize, n - 1) + Range(lo, hi)
  }

  /** Every block loop of the page loop ends, and together they visit exactly the range. */
  ghost predicate CoversExactly(currentBlock: uint64, lastBlock: uint64, pageSize: uint64)
    requires pageSize > 0
  {
    var total := GetTotalBlocks(lastBlock, currentBlock, pageSize);
    && (forall i: uint64 :: i < total ==> LoopExits(GetPage(currentBlock, i, pageSize, lastBlock).0, GetPage(currentBlock, i, pageSize, lastBlock).1))
    && Pages(currentBlock, lastBlock, pageSize, total) == Range(currentBlock, lastBlock)
  }

  /** Start of the last page. */
  function LastPageStart(currentBlock: uint64, lastBlock: uint64, pageSize: uint64): nat
    requires pageSize > 0 && currentBlock <= lastBlock
  {
    currentBlock + (lastBlock - currentBlock) / pageSize * pageSize
  }

  lemma WrapSmall(n: int)
    requires 0 <= n < UINT64_BOUND
    ensures Wrap(n) == n
  {
  }

  lemma PageStart(cur: uint64, last: uint64, p: uint64, i: uint64)
    requires p > 0 && cur <= last && i <= (last - cur) / p
    ensures cur + i * p <= last && GetPage(cur, i, p, last) == PageAt(cur + i * p, p, last)
  {
    PageIndexBound(last - cur, p, i);
    StartsAt(cur, i, p, last, i * p);
  }

  lemma StartsAt(cur: uint64, i: uint64, p: uint64, last: uint64, offset: nat)
    requires offset == i * p && cur + offset <= last
    ensures GetPage(cur, i, p, last) == PageAt(cur + offset, p, last)
  {
    WrapSmall(offset);
    WrapSmall(cur + offset);
    hide Wrap, PageAt;
  }

  /** A page whose nominal end fits 64 bits ends there or at the last block; otherwise its end wraps
      below its start. */
  lemma PageAtIs(start: uint64, p: uint64, last: uint64)
    requires p > 0 && start <= last
    ensures start + p - 1 < UINT64_BOUND ==>
              PageAt(start, p, last) == (start, if start + p - 1 > last then last else start + p - 1)
    ensures start + p - 1 >= UINT64_BOUND ==> PageAt(start, p, last).0 == start > PageAt(start, p, last).1
  {
  }

  lemma PageIndexBound(d: nat, p: nat, i: nat)
    requires p > 0 && i <= d / p
    ensures i * p <= d / p * p <= d < (d / p + 1) * p
    ensures i < d / p ==> i * p + p <= d / p * p
  {
    MulMono(i, d / p, p, p);
    DivModIdentity(p, d);
    assert (d / p + 1) * p == d / p * p + p;
    if i < d / p {
      MulMono(i + 1, d / p, p, p);
      assert (i + 1) * p == i * p + p;
    }
  }

  /** Page i without overflow. */
  lemma PageIs(cur: uint64, last: uint64, p: uint64, i: uint64)
    requires p > 0 && cur <= last && i <= (last - cur) / p
    requires i < (last - cur) / p || LastPageStart(cur, last, p) + p - 1 < UINT64_BOUND
    ensures GetPage(cur, i, p, last) ==
            (cur + i * p, if i < (last - cur) / p then cur + i * p + p - 1 else last)
  {
    hide GetPage, PageAt;
    PageStart(cur, last, p, i);
    PageIndexBound(last - cur, p, i);
    PageAtIs(cur + i * p, p, last);
    NextPageStart(p, (last - cur) / p);
  }

  lemma NextPageStart(p: nat, q: nat)
    ensures (q + 1) * p == q * p + p
  {
  }

  /** The last page when its nominal end does not fit 64 bits: the end wraps below its start, so the
      page is empty. */
  lemma OverflowingPageIsEmpty(cur: uint64, last: uint64, p: uint64)
    requires p > 0 && cur <= last && LastPageStart(cur, last, p) + p - 1 >= UINT64_BOUND
    requires (last - cur) / p < UINT64_BOUND
    ensures var (lo, hi) := GetPage(cur, (last - cur) / p, p, last); lo == LastPageStart(cur, last, p) > hi
  {
    PageStart(cur, last, p, (last - cur) / p);
    PageAtIs(LastPageStart(cur, last, p), p, last);
  }

  lemma PagesExtend(cur: uint64, last: uint64, p: uint64, n: nat, lo: uint64, hi: uint64)
    requires n < UINT64_BOUND && cur <= lo <= hi + 1
    requires Pages(cur, last, p, n) == Range(cur, lo - 1) && GetPage(cur, n, p, last) == (lo, hi)
    ensures Pages(cur, last, p, n + 1) == Range(cur, hi)
  {
    RangeAppends(cur, lo - 1, hi);
  }

  /** A page that ends below the last block, offset x into the range. */
  lemma FullPage(cur: uint64, last: uint64, p: uint64, i: uint64, x: nat)
    requires p > 0 && x == i * p && cur + x + p <= last
    ensures GetPage(cur, i, p, last) == (cur + x, cur + x + p - 1)
  {
    hide PageAt;
    WrapSmall(x);
    WrapSmall(cur + x);
    PageAtIs(cur + x, p, last);
  }

  lemma NoPages(cur: uint64, last: uint64, p: uint64)
    ensures Pages(cur, last, p, 0) == Range(cur, cur - 1)
  {
  }

  /** How far page n begins from the first block. */
  function PageOffset(p: nat, n: nat): nat {
    n * p
  }

  lemma NextOffset(p: nat, n: nat)
    ensures PageOffset(p, 0) == 0 && PageOffset(p, n + 1) == PageOffset(p, n) + p
  {
    NextPageStart(p, n);
  }

  lemma OneMorePage(cur: uint64, last: uint64, p: uint64, n: nat)
    requires p > 0 && cur + PageOffset(p, n) + p <= last && n < UINT64_BOUND - 1
    requires Pages(cur, last, p, n) == Range(cur, cur + PageOffset(p, n) - 1)
    ensures Pages(cur, last, p, n + 1) == Range(cur, cur + PageOffset(p, n) + p - 1)
  {
    hide GetPage, Pages, Range;
    var x := PageOffset(p, n);
    FullPage(cur, last, p, n, x);
    PagesExtend(cur, last, p, n, cur + x, cur + x + p - 1);
  }

  lemma {:induction false} FullPagesAre(cur: uint64, last: uint64, p: uint64, n: nat)
    requires p > 0 && cur + PageOffset(p, n) <= last && n < UINT64_BOUND
    ensures Pages(cur, last, p, n) == Range(cur, cur + PageOffset(p, n) - 1)
    decreases n
  {
    hide PageOffset, GetPage, Pages, Range;
    if n == 0 {
      NextOffset(p, 0);
      NoPages(cur, last, p);
    } else {
      NextOffset(p, n - 1);
      FullPagesAre(cur, last, p, n - 1);
      OneMorePage(cur, last, p, n - 1);
    }
  }

  lemma FirstPagesAre(cur: uint64, last: uint64, p: uint64, n: nat)
    requires p > 0 && cur <= last && n <= (last - cur) / p
    ensures cur + n * p <= last && n < UINT64_BOUND
    ensures Pages(cur, last, p, n) == Range(cur, cur + n * p - 1)
  {
    hide Pages, Range;
    PageIndexBound(last - cur, p, n);
    QuotientBound(last - cur, p);
    FullPagesAre(cur, last, p, n);
  }

  lemma QuotientBound(d: nat, p: nat)
    requires p > 0
    ensures d / p <= d
  {
    DivModIdentity(p, d);
    MulMono(d / p, d / p, 1, p);
  }

  lemma TotalIs(cur: uint64, last: uint64, p: uint64)
    requires p > 0 && cur <= last < UINT64_BOUND - 1
    ensures GetTotalBlocks(last, cur, p) == (last - cur) / p + 1
  {
    hide Wrap;
    QuotientBound(last - cur, p);
    WrapSmall(last - cur);
    WrapSmall((last - cur) / p + 1);
  }

  /** With room above the last page, the pages are exactly the range, block by block in order. */
  lemma PagesCover(cur: uint64, last: uint64, p: uint64)
    requires p > 0 && cur <= last < UINT64_BOUND - 1 && LastPageStart(cur, last, p) + p - 1 < UINT64_BOUND
    ensures CoversExactly(cur, last, p)
  {
    hide GetPage, GetTotalBlocks, Pages, Range;
    var n := (last - cur) / p;
    TotalIs(cur, last, p);
    FirstPagesAre(cur, last, p, n);
    PageIs(cur, last, p, n);
    PagesExtend(cur, last, p, n, cur + n * p, last);
    forall i: uint64 | i <= n
      ensures LoopExits(GetPage(cur, i, p, last).0, GetPage(cur, i, p, last).1)
    {
      PageIs(cur, last, p, i);
      PageIndexBound(last - cur, p, i);
      LoopExitsIff(GetPage(cur, i, p, last).0, GetPage(cur, i, p, last).1);
    }
  }

  lemma OverflowLosesLastPage(cur: uint64, last: uint64, p: uint64)
    requires p > 0 && cur <= last < UINT64_BOUND - 1 && LastPageStart(cur, last, p) + p - 1 >= UINT64_BOUND
    ensures Pages(cur, last, p, GetTotalBlocks(last, cur, p)) == Range(cur, LastPageStart(cur, last, p) - 1)
    ensures !CoversExactly(cur, last, p)
  {
    hide GetPage, GetTotalBlocks;
    var n := (last - cur) / p;
    TotalIs(cur, last, p);
    FirstPagesAre(cur, last, p, n);
    OverflowingPageIsEmpty(cur, last, p);
    PageIndexBound(last - cur, p, n);
    assert |Range(cur, LastPageStart(cur, last, p) - 1)| < |Range(cur, last)|;
  }

  /** When the range ends at the largest 64-bit number the last page is empty or its loop never
      ends. */
  lemma TopBlockNeverCovered(cur: uint64, p: uint64)
    requires p > 0
    ensures !CoversExactly(cur, UINT64_BOUND - 1, p)
  {
    var last: uint64 := UINT64_BOUND - 1;
    var n := (last - cur) / p;
    QuotientBound(last - cur, p);
    PageIndexBound(last - cur, p, n);
    if n + 1 == UINT64_BOUND {
      assert GetTotalBlocks(last, cur, p) == 0;
      assert |Range(cur, last)| > 0;
    } else {
      assert GetTotalBlocks(last, cur, p) == n + 1;
      if LastPageStart(cur, last, p) + p - 1 >= UINT64_BOUND {
        FirstPagesAre(cur, last, p, n);
        OverflowingPageIsEmpty(cur, last, p);
        assert |Pages(cur, last, p, n + 1)| < |Range(cur, last)|;
      } else {
        PageIs(cur, last, p, n);
        LoopExitsIff(GetPage(cur, n, p, last).0, GetPage(cur, n, p, last).1);
      }
    }
  }

  // ---------------------------------------------------------------- ranges given backwards

  /** Distance from a block forward to an earlier one, around the 64-bit circle. */
  function Around(cur: uint64, last: uint64): uint64
    requires last < cur
  {
    UINT64_BOUND - (cur - last)
  }

  /** Start of the last page of such a range, not wrapped. */
  function BackwardPageStart(cur: uint64, last: uint64, p: uint64): int
    requires p > 0 && last < cur
  {
    cur + Around(cur, last) / p * p
  }

  predicate EmptyPage(cur: uint64, last: uint64, p: uint64, i: uint64) {
    GetPage(cur, i, p, last).0 > GetPage(cur, i, p, last).1
  }

  /** A page that starts x blocks on is empty unless its start wraps and its nominal end does not. */
  lemma BackwardPage(cur: uint64, last: uint64, p: uint64, i: uint64, x: nat)
    requires p > 0 && last < cur && x == i * p && x <= Around(cur, last)
    ensures EmptyPage(cur, last, p, i) <==> cur + x < UINT64_BOUND || cur + x - UINT64_BOUND + p - 1 >= UINT64_BOUND
    ensures GetPage(cur, i, p, last).1 <= last
  {
    hide PageAt;
    WrapSmall(x);
    if cur + x < UINT64_BOUND {
      WrapSmall(cur + x);
      PageAtMost(cur + x, p, last);
    } else {
      WrapOnce(cur + x);
      PageAtMost(cur + x - UINT64_BOUND, p, last);
      PageAtIs(cur + x - UINT64_BOUND, p, last);
    }
  }

  lemma WrapOnce(n: int)
    requires UINT64_BOUND <= n < 2 * UINT64_BOUND
    ensures Wrap(n) == n - UINT64_BOUND
  {
  }

  lemma PageAtMost(start: uint64, p: uint64, last: uint64)
    ensures PageAt(start, p, last).0 == start && PageAt(start, p, last).1 <= last
  {
  }

  lemma {:induction false} EmptyPages(cur: uint64, last: uint64, p: uint64, n: nat)
    requires n <= UINT64_BOUND
    ensures Pages(cur, last, p, n) == [] <==> forall i: uint64 :: i < n ==> EmptyPage(cur, last, p, i)
  {
    hide GetPage;
    if n > 0 {
      EmptyPages(cur, last, p, n - 1);
      var (lo, hi) := GetPage(cur, n - 1, p, last);
      assert Range(lo, hi) == [] <==> EmptyPage(cur, last, p, n - 1);
    }
  }

  /** Only the last page of a backward range can have a wrapped start without an earlier page being
      visited. */
  lemma BackwardPagesEmpty(cur: uint64, last: uint64, p: uint64)
    requires p > 0 && last < cur && Around(cur, last) / p < UINT64_BOUND
    ensures var w := BackwardPageStart(cur, last, p);
            (forall i: uint64 :: i <= Around(cur, last) / p ==> EmptyPage(cur, last, p, i)) <==>
            w < UINT64_BOUND || (w - UINT64_BOUND < p && w - UINT64_BOUND + p > UINT64_BOUND)
  {
    hide EmptyPage;
    var d, w := Around(cur, last), BackwardPageStart(cur, last, p);
    var q: uint64 := d / p;
    PageIndexBound(d, p, q);
    BackwardPage(cur, last, p, q, q * p);
    if w >= UINT64_BOUND && w - UINT64_BOUND >= p {
      assert q > 0;
      NextPageStart(p, q - 1);
      BackwardPage(cur, last, p, q - 1, q * p - p);
    } else {
      forall i: uint64 | i < q
        ensures EmptyPage(cur, last, p, i)
      {
        PageIndexBound(d, p, i);
        BackwardPage(cur, last, p, i, i * p);
      }
    }
  }

  lemma BackwardTotal(cur: uint64, last: uint64, p: uint64)
    requires p > 0 && last < cur
    ensures Around(cur, last) / p < UINT64_BOUND
    ensures GetTotalBlocks(last, cur, p) == if p == 1 && cur == last + 1 then 0 else Around(cur, last) / p + 1
  {
    var d := Around(cur, last);
    QuotientBound(d, p);
    assert Wrap(last - cur) == d;
    if d / p == UINT64_BOUND - 1 {
      PageIndexBound(d, p, 0);
      if p > 1 {
        MulMono(UINT64_BOUND - 1, d / p, 2, p);
      }
    } else {
      hide Wrap;
      WrapSmall(d / p + 1);
      if p == 1 {
        PageIndexBound(d, 1, 0);
      }
    }
  }

  /** A range given backwards is covered, that is, nothing is visited, if and only if no page start
      wraps, or only the last one does and its nominal end wraps too, or the page count wraps to 0. */
  lemma BackwardCoversIff(cur: uint64, last: uint64, p: uint64)
    requires p > 0 && last < cur
    ensures var w := BackwardPageStart(cur, last, p);
            CoversExactly(cur, last, p) <==>
              || (p == 1 && cur == last + 1)
              || w < UINT64_BOUND
              || (w - UINT64_BOUND < p && w - UINT64_BOUND + p > UINT64_BOUND)
  {
    hide GetPage, GetTotalBlocks, Around, BackwardPageStart;
    var total := GetTotalBlocks(last, cur, p);
    BackwardTotal(cur, last, p);
    BackwardPagesEmpty(cur, last, p);
    EmptyPages(cur, last, p, total);
    forall i: uint64 | i < total
      ensures LoopExits(GetPage(cur, i, p, last).0, GetPage(cur, i, p, last).1)
    {
      PageEndsAtMost(cur, last, p, i);
      LoopExitsIff(GetPage(cur, i, p, last).0, GetPage(cur, i, p, last).1);
    }
  }

  lemma PageEndsAtMost(cur: uint64, last: uint64, p: uint64, i: uint64)
    ensures GetPage(cur, i, p, last).1 <= last
  {
    hide Wrap;
  }

  /** Paging visits exactly from..to, each block once and in order, if and only if the range ends
      below the largest 64-bit number and the nominal end of its last page fits 64 bits. */
  lemma ForwardCoversIff(cur: uint64, last: uint64, p: uint64)
    requires p > 0 && cur <= last
    ensures CoversExactly(cur, last, p) <==>
              last < UINT64_BOUND - 1 && LastPageStart(cur, last, p) + p - 1 < UINT64_BOUND
  {
    hide GetPage, GetTotalBlocks, LastPageStart, CoversExactly;
    if last == UINT64_BOUND - 1 {
      TopBlockNeverCovered(cur, p);
    } else if LastPageStart(cur, last, p) + p - 1 < UINT64_BOUND {
      PagesCover(cur, last, p);
    } else {
      OverflowLosesLastPage(cur, last, p);
    }
  }

  /** The pages visit exactly from..to, which is nothing for a range given backwards, for exactly these
      64-bit arguments. */
  lemma CoversExactlyIff(cur: uint64, last: uint64, p: uint64)
    requires p > 0
    ensures CoversExactly(cur, last, p) <==>
              if cur <= last then last < UINT64_BOUND - 1 && LastPageStart(cur, last, p) + p - 1 < UINT64_BOUND
              else
                var w := BackwardPageStart(cur, last, p);
                || (p == 1 && cur == last + 1)
                || w < UINT64_BOUND
                || (w - UINT64_BOUND < p && w - UINT64_BOUND + p > UINT64_BOUND)
  {
    hide CoversExactly, LastPageStart, BackwardPageStart;
    if cur <= last {
      ForwardCoversIff(cur, last, p);
    } else {
      BackwardCoversIff(cur, last, p);
    }
  }

  /** Every page of a covered range is nonempty and no longer than the page size. */
  lemma PageSizes(cur: uint64, last: uint64, p: uint64, i: uint64)
    requires p > 0 && cur <= last && CoversExactly(cur, last, p) && i < GetTotalBlocks(last, cur, p)
    ensures var (lo, hi) := GetPage(cur, i, p, last); 1 <= |Range(lo, hi)| <= p
  {
    hide GetPage, GetTotalBlocks;
    ForwardCoversIff(cur, last, p);
    TotalIs(cur, last, p);
    PageIs(cur, last, p, i);
    PageIndexBound(last - cur, p, i);
  }
}
