/** The page-number list and the previous/next guards of the pagination
    control (src/components/ui/PaginationControls/PaginationControls.tsx).
    The list holds page numbers and `Ellipsis` markers; rendering is not
    modelled. */
module PaginationControls {
  import opened Prelude
  import Store

  /** `maxPagesToShow`. */
  const MaxPagesToShow: int := 5

  /** The `-1` entry that is rendered as "...". */
  const Ellipsis: int := -1

  /** The consecutive pages `lo, lo + 1, ..., hi` (none when `lo > hi`). */
  function Range(lo: int, hi: int): (r: seq<int>)
    decreases hi - lo
    ensures |r| == if lo <= hi then hi - lo + 1 else 0
    ensures forall k :: 0 <= k < |r| ==> r[k] == lo + k
  {
    if lo > hi then [] else [lo] + Range(lo + 1, hi)
  }

  lemma RangeSnoc(lo: int, hi: int)
    requires lo <= hi + 1
    ensures Range(lo, hi) + [hi + 1] == Range(lo, hi + 1)
  {
    var a, b := Range(lo, hi) + [hi + 1], Range(lo, hi + 1);
    assert |a| == |b|;
    forall k | 0 <= k < |a| ensures a[k] == b[k] {
      if k < |a| - 1 { assert a[k] == Range(lo, hi)[k]; }
    }
  }

  /** Pushing page `i` after `prefix` and the pages `lo..i-1`. */
  lemma PushNext(prefix: seq<int>, lo: int, i: int)
    requires lo <= i
    ensures prefix + Range(lo, i - 1) + [i] == prefix + Range(lo, i)
  {
    RangeSnoc(lo, i - 1);
    assert prefix + Range(lo, i - 1) + [i] == prefix + (Range(lo, i - 1) + [i]);
  }

  /** Line 43: the window first starts `floor(5 / 2)` pages before the current one. */
  function FirstStart(currentPage: int): int
  {
    Max(1, currentPage - MaxPagesToShow / 2)
  }

  /** Line 44: the last page of the window. */
  function EndPage(currentPage: int, totalPages: int): int
  {
    Min(totalPages, FirstStart(currentPage) + MaxPagesToShow - 1)
  }

  /** Lines 46-48: the first page of the window, moved back when the window
      hit the last page early. */
  function StartPage(currentPage: int, totalPages: int): int
  {
    var start, end := FirstStart(currentPage), EndPage(currentPage, totalPages);
    if end - start + 1 < MaxPagesToShow then Max(1, end - MaxPagesToShow + 1) else start
  }

  /** Lines 50-55: page 1, and an ellipsis when pages are skipped after it. */
  function Leading(start: int): seq<int>
  {
    if start > 1 then [1] + (if start > 2 then [Ellipsis] else []) else []
  }

  /** Lines 61-66: an ellipsis when pages are skipped, then the last page. */
  function Trailing(end: int, totalPages: int): seq<int>
  {
    if end < totalPages then (if end < totalPages - 1 then [Ellipsis] else []) + [totalPages] else []
  }

  /** The list for the window `[start, end]`: page 1 and an ellipsis as
      needed, the window, then an ellipsis as needed and the last page. */
  function WindowList(start: int, end: int, totalPages: int): seq<int>
  {
    Leading(start) + Range(start, end) + Trailing(end, totalPages)
  }

  /** The list the control renders; `None` when it renders nothing (lines 19-21). */
  function PageList(currentPage: int, totalPages: int): Option<seq<int>>
  {
    if totalPages <= 1 then None
    else if totalPages <= MaxPagesToShow then Some(Range(1, totalPages))
    else
      var start, end := StartPage(currentPage, totalPages), EndPage(currentPage, totalPages);
      Some(WindowList(start, end, totalPages))
  }

  /** Lines 43-48 as written: the window's first and last page. */
  method Window(currentPage: int, totalPages: int) returns (startPage: int, endPage: int)
    ensures startPage == StartPage(currentPage, totalPages) && endPage == EndPage(currentPage, totalPages)
  {
    startPage := Max(1, currentPage - MaxPagesToShow / 2);
    endPage := Min(totalPages, startPage + MaxPagesToShow - 1);
    if endPage - startPage + 1 < MaxPagesToShow {
      startPage := Max(1, endPage - MaxPagesToShow + 1);
    }
  }

  /** `for (let i = lo; i <= hi; i++) pageNumbers.push(i)` on the list
      `prefix` (lines 39-41 and 57-59). */
  method PushRange(prefix: seq<int>, lo: int, hi: int) returns (r: seq<int>)
    ensures r == prefix + Range(lo, hi)
  {
    r := prefix;
    assert r == prefix + Range(lo, lo - 1) by {
      assert Range(lo, lo - 1) == [];
    }
    var i := lo;
    while i <= hi
      invariant lo <= i <= Max(lo, hi + 1)
      invariant r == prefix + Range(lo, i - 1)
    {
      PushNext(prefix, lo, i);
      r := r + [i];
      i := i + 1;
    }
    if lo > hi {
      assert Range(lo, hi) == [];
    }
  }

  /** Lines 19-67 as written: the list is built by pushing in `for` loops. */
  method PageNumbers(currentPage: int, totalPages: int) returns (pages: Option<seq<int>>)
    ensures pages == PageList(currentPage, totalPages)
  {
    if totalPages <= 1 {
      return None;
    }
    var pageNumbers: seq<int> := [];
    if totalPages <= MaxPagesToShow {
      pageNumbers := PushRange(pageNumbers, 1, totalPages);
      assert pageNumbers == Range(1, totalPages);
    } else {
      var startPage, endPage := Window(currentPage, totalPages);
      if startPage > 1 {
        pageNumbers := pageNumbers + [1];
        if startPage > 2 {
          pageNumbers := pageNumbers + [Ellipsis];
        }
      }
      assert pageNumbers == Leading(startPage);
      pageNumbers := PushRange(pageNumbers, startPage, endPage);
      ghost var shown := pageNumbers;
      if endPage < totalPages {
        if endPage < totalPages - 1 {
          pageNumbers := pageNumbers + [Ellipsis];
        }
        pageNumbers := pageNumbers + [totalPages];
      }
      assert pageNumbers == shown + Trailing(endPage, totalPages) by {
        if endPage < totalPages - 1 {
          assert shown + [Ellipsis] + [totalPages] == shown + [Ellipsis, totalPages];
        }
      }
    }
    return Some(pageNumbers);
  }

  /** With more than five pages the window always spans exactly five pages
      inside `[1, totalPages]`, and it contains the current page whenever
      that page exists. */
  lemma WindowOfFive(currentPage: int, totalPages: int)
    requires totalPages > MaxPagesToShow
    ensures var start, end := StartPage(currentPage, totalPages), EndPage(currentPage, totalPages);
      && end - start + 1 == MaxPagesToShow
      && 1 <= start && end <= totalPages
      && (1 <= currentPage <= totalPages ==> start <= currentPage <= end)
  {
  }

  /** Up to five pages: every page, in order. */
  lemma ShortListShowsEveryPage(currentPage: int, totalPages: int)
    requires 1 < totalPages <= MaxPagesToShow
    ensures var r := PageList(currentPage, totalPages);
      && r.Some? && |r.value| == totalPages
      && forall k :: 0 <= k < totalPages ==> r.value[k] == k + 1
  {
  }

  /** Whenever a list is rendered it starts with page 1 and ends with the
      last page. */
  lemma ListEndsAtFirstAndLastPage(currentPage: int, totalPages: int)
    requires totalPages > 1
    ensures var r := PageList(currentPage, totalPages);
      && r.Some? && |r.value| >= 2
      && r.value[0] == 1 && r.value[|r.value| - 1] == totalPages
  {
    if totalPages > MaxPagesToShow {
      WindowOfFive(currentPage, totalPages);
      var start, end := StartPage(currentPage, totalPages), EndPage(currentPage, totalPages);
      var r := Leading(start) + Range(start, end) + Trailing(end, totalPages);
      assert r[0] == 1 by {
        if start == 1 { assert r[0] == Range(start, end)[0]; }
      }
      assert r[|r| - 1] == totalPages by {
        if end == totalPages { assert r[|r| - 1] == Range(start, end)[end - start]; }
      }
    }
  }

  /** An ellipsis follows page 1 exactly when the window starts after page 2,
      and one precedes the last page exactly when the window ends before the
      page before it. */
  lemma EllipsisExactlyAtGaps(currentPage: int, totalPages: int)
    requires totalPages > MaxPagesToShow
    ensures var r := PageList(currentPage, totalPages).value;
      var start, end := StartPage(currentPage, totalPages), EndPage(currentPage, totalPages);
      && |r| >= 6
      && (r[1] == Ellipsis <==> start > 2)
      && (r[|r| - 2] == Ellipsis <==> end < totalPages - 1)
  {
    WindowOfFive(currentPage, totalPages);
    var start, end := StartPage(currentPage, totalPages), EndPage(currentPage, totalPages);
    var lead, mid, trail := Leading(start), Range(start, end), Trailing(end, totalPages);
    var r := lead + mid + trail;
    assert |r| >= 6;
    if start <= 2 {
      assert r[1] == if start == 2 then mid[0] else mid[1];
    }
    if end >= totalPages - 1 {
      assert r[|r| - 2] == if end == totalPages - 1 then mid[|mid| - 1] else mid[|mid| - 2];
    }
  }

  /** Every entry is a page in `[1, totalPages]` or an ellipsis; the pages
      strictly increase (so none repeats); two neighbouring pages are
      consecutive, and an ellipsis sits between two pages that are not. */
  predicate MarksEveryGap(r: seq<int>, totalPages: int)
  {
    && (forall k :: 0 <= k < |r| ==> r[k] == Ellipsis || 1 <= r[k] <= totalPages)
    && (forall i, j :: 0 <= i < j < |r| && r[i] != Ellipsis && r[j] != Ellipsis ==> r[i] < r[j])
    && (forall k :: 0 <= k < |r| - 1 && r[k] != Ellipsis && r[k + 1] != Ellipsis ==> r[k + 1] == r[k] + 1)
    && (forall k :: 0 <= k < |r| && r[k] == Ellipsis ==> 0 < k < |r| - 1 && r[k - 1] + 1 < r[k + 1])
  }

  /** What sits at position `k` of the list for the window `[start, end]`. */
  lemma WindowListEntry(start: int, end: int, totalPages: int, k: int)
    requires 1 <= start <= end <= totalPages
    requires 0 <= k < |WindowList(start, end, totalPages)|
    ensures var r := WindowList(start, end, totalPages);
      var a := if start > 2 then 2 else if start > 1 then 1 else 0;
      var b := a + (end - start + 1);
      && |r| == b + (if end < totalPages - 1 then 2 else if end < totalPages then 1 else 0)
      && (k < a ==> r[k] == if k == 0 then 1 else Ellipsis)
      && (a <= k < b ==> r[k] == start + (k - a))
      && (b <= k ==> r[k] == if k == |r| - 1 then totalPages else Ellipsis)
  {
    var lead, mid, trail := Leading(start), Range(start, end), Trailing(end, totalPages);
    var r := lead + mid + trail;
    if |lead| <= k < |lead| + |mid| {
      assert r[k] == mid[k - |lead|];
    }
  }

  lemma WindowListMarksEveryGap(start: int, end: int, totalPages: int)
    requires 1 <= start <= end <= totalPages
    ensures MarksEveryGap(WindowList(start, end, totalPages), totalPages)
  {
    WindowListPagesInRange(start, end, totalPages);
    WindowListPagesIncrease(start, end, totalPages);
    WindowListNeighboursConsecutive(start, end, totalPages);
    WindowListEllipsisBridgesGap(start, end, totalPages);
  }

  lemma WindowListPagesInRange(start: int, end: int, totalPages: int)
    requires 1 <= start <= end <= totalPages
    ensures var r := WindowList(start, end, totalPages);
      forall k :: 0 <= k < |r| ==> r[k] == Ellipsis || 1 <= r[k] <= totalPages
  {
    var r := WindowList(start, end, totalPages);
    forall k | 0 <= k < |r| ensures r[k] == Ellipsis || 1 <= r[k] <= totalPages {
      WindowListEntry(start, end, totalPages, k);
    }
  }

  lemma WindowListPagesIncrease(start: int, end: int, totalPages: int)
    requires 1 <= start <= end <= totalPages
    ensures var r := WindowList(start, end, totalPages);
      forall i, j :: 0 <= i < j < |r| && r[i] != Ellipsis && r[j] != Ellipsis ==> r[i] < r[j]
  {
    var r := WindowList(start, end, totalPages);
    forall i, j | 0 <= i < j < |r| && r[i] != Ellipsis && r[j] != Ellipsis ensures r[i] < r[j] {
      WindowListEntry(start, end, totalPages, i);
      WindowListEntry(start, end, totalPages, j);
    }
  }

  lemma WindowListNeighboursConsecutive(start: int, end: int, totalPages: int)
    requires 1 <= start <= end <= totalPages
    ensures var r := WindowList(start, end, totalPages);
      forall k :: 0 <= k < |r| - 1 && r[k] != Ellipsis && r[k + 1] != Ellipsis ==> r[k + 1] == r[k] + 1
  {
    var r := WindowList(start, end, totalPages);
    forall k | 0 <= k < |r| - 1 && r[k] != Ellipsis && r[k + 1] != Ellipsis ensures r[k + 1] == r[k] + 1 {
      WindowListEntry(start, end, totalPages, k);
      WindowListEntry(start, end, totalPages, k + 1);
    }
  }

  lemma WindowListEllipsisBridgesGap(start: int, end: int, totalPages: int)
    requires 1 <= start <= end <= totalPages
    ensures var r := WindowList(start, end, totalPages);
      forall k :: 0 <= k < |r| && r[k] == Ellipsis ==> 0 < k < |r| - 1 && r[k - 1] + 1 < r[k + 1]
  {
    var r := WindowList(start, end, totalPages);
    forall k | 0 <= k < |r| && r[k] == Ellipsis ensures 0 < k < |r| - 1 && r[k - 1] + 1 < r[k + 1] {
      WindowListEntry(start, end, totalPages, k);
      assert 0 < k < |r| - 1;
      WindowListEntry(start, end, totalPages, k - 1);
      WindowListEntry(start, end, totalPages, k + 1);
    }
  }

  lemma ListIsOrderedWithGapsMarked(currentPage: int, totalPages: int)
    requires totalPages > 1
    ensures MarksEveryGap(PageList(currentPage, totalPages).value, totalPages)
  {
    if totalPages > MaxPagesToShow {
      WindowOfFive(currentPage, totalPages);
      WindowListMarksEveryGap(StartPage(currentPage, totalPages), EndPage(currentPage, totalPages), totalPages);
    } else {
      assert PageList(currentPage, totalPages).value == WindowList(1, totalPages, totalPages);
      WindowListMarksEveryGap(1, totalPages, totalPages);
    }
  }

  /** The current page is always among the rendered pages. */
  lemma ListShowsCurrentPage(currentPage: int, totalPages: int)
    requires 1 <= currentPage <= totalPages && totalPages > 1
    ensures currentPage in PageList(currentPage, totalPages).value
  {
    if totalPages > MaxPagesToShow {
      WindowOfFive(currentPage, totalPages);
      var start, end := StartPage(currentPage, totalPages), EndPage(currentPage, totalPages);
      var lead, mid := Leading(start), Range(start, end);
      assert mid[currentPage - start] == currentPage;
      assert (lead + mid + Trailing(end, totalPages))[|lead| + currentPage - start] == currentPage;
    } else {
      assert PageList(currentPage, totalPages).value[currentPage - 1] == currentPage;
    }
  }

  /** `handlePrevious` (lines 23-27): the page it asks for, if any. */
  function PreviousRequest(currentPage: int): Option<int>
  {
    if currentPage > 1 then Some(currentPage - 1) else None
  }

  /** `handleNext` (lines 29-33): the page it asks for, if any. */
  function NextRequest(currentPage: int, totalPages: int): Option<int>
  {
    if currentPage < totalPages then Some(currentPage + 1) else None
  }

  /** From a page inside `[1, totalPages]` the arrows only ask for pages
      inside it: "previous" whenever a previous page exists, "next" whenever
      a next page exists, each one page away. */
  lemma NavigationStaysInRange(currentPage: int, totalPages: int)
    requires 1 <= currentPage <= totalPages
    ensures var prev, next := PreviousRequest(currentPage), NextRequest(currentPage, totalPages);
      && (prev.Some? <==> currentPage > 1)
      && (next.Some? <==> currentPage < totalPages)
      && (prev.Some? ==> 1 <= prev.value <= totalPages && prev.value == currentPage - 1)
      && (next.Some? ==> 1 <= next.value <= totalPages && next.value == currentPage + 1)
  {
  }

  /** Every page the control can ask for from a page that exists (an arrow
      or a numbered button) is one `goToPage` keeps as it is. */
  lemma RequestsAreKeptByGoToPage(currentPage: int, totalPages: nat)
    requires 1 <= currentPage <= totalPages
    ensures var prev, next := PreviousRequest(currentPage), NextRequest(currentPage, totalPages);
      && (prev.Some? ==> Store.ClampPage(prev.value, totalPages) == prev.value)
      && (next.Some? ==> Store.ClampPage(next.value, totalPages) == next.value)
      && (totalPages > 1 ==> forall p :: p in PageList(currentPage, totalPages).value && p != Ellipsis ==>
            Store.ClampPage(p, totalPages) == p)
  {
    NavigationStaysInRange(currentPage, totalPages);
    if totalPages > 1 {
      ListIsOrderedWithGapsMarked(currentPage, totalPages);
      var r := PageList(currentPage, totalPages).value;
      forall p | p in r && p != Ellipsis ensures Store.ClampPage(p, totalPages) == p {
        var k :| 0 <= k < |r| && r[k] == p;
      }
    }
  }
}
