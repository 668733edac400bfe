/** The page arithmetic of `fetchTasks` (src/services/taskService.ts:34-62):
    sort the whole collection, count it, and cut out one 1-indexed page. */
module Paging {
  import opened Prelude
  import opened TaskModel
  import opened DueOrder

  /** `Math.ceil(n / limit)` for a positive `limit`. */
  function CeilDiv(n: nat, limit: nat): nat
    requires limit > 0
  {
    (n + limit - 1) / limit
  }

  /** `pages = CeilDiv(n, limit)` is the least number of `limit`-sized pages
      that hold `n` items. */
  lemma CeilDivBounds(pages: nat, n: nat, limit: int)
    requires limit > 0 && pages == CeilDiv(n, limit)
    ensures pages * limit >= n
    ensures n > 0 ==> (pages - 1) * limit < n
    ensures n == 0 ==> pages == 0
  {
    assert n + limit - 1 == pages * limit + (n + limit - 1) % limit;
    assert (pages - 1) * limit == pages * limit - limit;
  }

  /** How `Array.prototype.slice` reads a start or end argument: a negative
      index counts from the end, and the result is clamped into `[0, len]`. */
  function RelativeIndex(i: int, len: nat): (k: nat)
    ensures k <= len
    ensures 0 <= i ==> k == Min(i, len)
  {
    if i < 0 then (if len + i < 0 then 0 else len + i)
    else if i > len then len
    else i
  }

  /** `s.slice(start, end)`. */
  function JsSlice<T>(s: seq<T>, start: int, end: int): (r: seq<T>)
    ensures start <= end ==> |r| <= end - start
    ensures 0 <= start <= end ==> r == s[Min(start, |s|)..Min(end, |s|)]
  {
    var from := RelativeIndex(start, |s|);
    var to := RelativeIndex(end, |s|);
    if from < to then s[from..to] else []
  }

  /** `PaginatedTasksResponse`. */
  datatype PaginatedTasksResponse = PaginatedTasksResponse(
    tasks: seq<Task>,
    totalCount: nat,
    currentPage: int,
    totalPages: nat)

  /** The `page`-th run of `limit` items of `sorted`, cut out the way
      `fetchTasks` does it: `sorted.slice(startIndex, startIndex + limit)`
      with `startIndex = (page - 1) * limit`. */
  function PageOf(sorted: seq<Task>, page: int, limit: int): seq<Task>
  {
    var startIndex := (page - 1) * limit;
    JsSlice(sorted, startIndex, startIndex + limit)
  }

  /** What `fetchTasks(page, limit)` resolves with for the stored collection `all`. */
  function FetchPage(all: seq<Task>, page: int, limit: int): PaginatedTasksResponse
    requires limit > 0
  {
    PaginatedTasksResponse(PageOf(SortByDue(all), page, limit), |all|, page, CeilDiv(|all|, limit))
  }

  /** For a page number `page >= 1`, its first index and one past its last. */
  lemma PageBounds(page: int, limit: nat)
    requires page >= 1
    ensures 0 <= (page - 1) * limit <= page * limit
    ensures (page - 1) * limit + limit == page * limit
  {
  }

  /** Whatever page is asked for, the response carries the collection's
      size, `ceil(size / limit)` pages, and echoes the page number. */
  lemma FetchPageTotals(all: seq<Task>, page: int, limit: int)
    requires limit > 0
    ensures var r := FetchPage(all, page, limit);
      && r.totalCount == |all|
      && r.currentPage == page
      && r.totalPages * limit >= |all|
      && (|all| > 0 ==> (r.totalPages - 1) * limit < |all|)
      && (|all| == 0 ==> r.totalPages == 0)
  {
    var r := FetchPage(all, page, limit);
    CeilDivBounds(r.totalPages, |all|, limit);
  }


  /** Page `page >= 1` of a list is its `page`-th run of `limit` items
      (fewer for the last run, none beyond it). */
  lemma PageOfSlice(sorted: seq<Task>, page: int, limit: int)
    requires limit > 0 && page >= 1
    ensures 0 <= (page - 1) * limit <= page * limit
    ensures PageOf(sorted, page, limit) == sorted[Min((page - 1) * limit, |sorted|)..Min(page * limit, |sorted|)]
  {
    PageBounds(page, limit);
    SliceWindow(sorted, PageOf(sorted, page, limit), (page - 1) * limit, page * limit, limit, |sorted|);
  }

  /** For a page number `page >= 1` the response holds exactly the `page`-th
      run of `limit` sorted tasks (fewer on the last page, none beyond it). */
  lemma FetchPageSlice(all: seq<Task>, page: int, limit: int)
    requires limit > 0 && page >= 1
    ensures 0 <= (page - 1) * limit <= page * limit
    ensures FetchPage(all, page, limit).tasks
         == SortByDue(all)[Min((page - 1) * limit, |all|)..Min(page * limit, |all|)]
  {
    var sorted := SortByDue(all);
    PageOfSlice(sorted, page, limit);
    SortByDueLength(all);
  }

  lemma SortByDueLength(all: seq<Task>)
    ensures |SortByDue(all)| == |all|
  {
  }

  /** `s.slice(lo, lo + limit)` for `lo >= 0`, with `hi` standing for
      `lo + limit` and `n` for the length of `s`. */
  lemma SliceWindow(s: seq<Task>, r: seq<Task>, lo: int, hi: int, limit: int, n: int)
    requires 0 <= lo && hi == lo + limit && limit > 0 && n == |s|
    requires r == JsSlice(s, lo, lo + limit)
    ensures 0 <= Min(lo, n) <= Min(hi, n) <= |s|
    ensures r == s[Min(lo, n)..Min(hi, n)]
  {
  }

  /** Every page, whatever its number, holds at most `limit` tasks, in
      due-date order, all of them stored tasks. */
  lemma FetchPageShape(all: seq<Task>, page: int, limit: int)
    requires limit > 0
    ensures var r := FetchPage(all, page, limit);
      && |r.tasks| <= limit
      && Sorted(r.tasks)
      && multiset(r.tasks) <= multiset(all)
  {
    SortByDueSorted(all);
    PageOfShape(SortByDue(all), page, limit);
  }

  /** Any page of a list is at most `limit` long, drawn from the list, and
      sorted when the list is. */
  lemma PageOfShape(sorted: seq<Task>, page: int, limit: int)
    requires limit > 0
    ensures |PageOf(sorted, page, limit)| <= limit
    ensures multiset(PageOf(sorted, page, limit)) <= multiset(sorted)
    ensures Sorted(sorted) ==> Sorted(PageOf(sorted, page, limit))
  {
    var lo := (page - 1) * limit;
    var from, to := RelativeIndex(lo, |sorted|), RelativeIndex(lo + limit, |sorted|);
    if from < to {
      SliceOfSorted(sorted, from, to);
    }
  }

  /** A window `[lo, hi)` of a sorted list is sorted and drawn from it. */
  lemma SliceOfSorted(sorted: seq<Task>, lo: int, hi: int)
    requires 0 <= lo <= hi <= |sorted|
    ensures multiset(sorted[lo..hi]) <= multiset(sorted)
    ensures Sorted(sorted) ==> Sorted(sorted[lo..hi])
  {
    assert sorted == sorted[..lo] + sorted[lo..hi] + sorted[hi..];
    assert multiset(sorted) == multiset(sorted[..lo]) + multiset(sorted[lo..hi]) + multiset(sorted[hi..]);
  }

  /** Paging never clamps: a page past the last one (and page 0) comes back
      empty, with the same totals as any other page. */
  lemma FetchPageOutOfRange(all: seq<Task>, page: int, limit: int)
    requires limit > 0
    requires page == 0 || page > CeilDiv(|all|, limit)
    ensures FetchPage(all, page, limit).tasks == []
    ensures FetchPage(all, page, limit).totalCount == |all|
    ensures FetchPage(all, page, limit).currentPage == page
  {
    if page > 0 {
      FetchPageSlice(all, page, limit);
      PastLastPageStartsAtEnd(|all|, page, limit);
    } else {
      PageZeroEmpty(SortByDue(all), limit);
    }
  }

  /** A page past the last one starts at or after the end of the list. */
  lemma PastLastPageStartsAtEnd(n: nat, page: int, limit: int)
    requires limit > 0 && page > CeilDiv(n, limit)
    ensures (page - 1) * limit >= n
  {
    CeilDivBounds(CeilDiv(n, limit), n, limit);
    MulMonotone(CeilDiv(n, limit), page - 1, limit);
  }

  /** Page 0 is `s.slice(-limit, 0)`, which is empty. */
  lemma PageZeroEmpty(s: seq<Task>, limit: int)
    requires limit > 0
    ensures PageOf(s, 0, limit) == []
  {
    assert (0 - 1) * limit + limit == 0;
  }

  lemma MulMonotone(a: int, b: int, c: nat)
    requires a <= b
    ensures a * c <= b * c
  {
  }

  /** A negative page is not out of range for `slice`: it counts from the
      end. With twelve tasks and five per page, page -1 is the 3rd to 7th
      sorted task. The store never asks for a negative page. */
  lemma NegativePageCountsFromEnd(all: seq<Task>)
    requires |all| == 12
    ensures FetchPage(all, -1, 5).tasks == SortByDue(all)[2..7]
  {
  }

  /** Every negative page reads `slice`'s start and end from the end of the
      list: page `page <= -1` of `n` items holds the items from
      `n + (page - 1) * limit` up to `n + page * limit`, each clamped at 0. */
  lemma NegativePageBounds(sorted: seq<Task>, page: int, limit: int)
    requires limit > 0 && page <= -1
    ensures var n := |sorted|;
      0 <= Max(n + (page - 1) * limit, 0) <= Max(n + page * limit, 0) <= n
    ensures var n := |sorted|;
      PageOf(sorted, page, limit) == sorted[Max(n + (page - 1) * limit, 0)..Max(n + page * limit, 0)]
  {
    var n, start := |sorted|, (page - 1) * limit;
    assert start + limit == page * limit < 0 by {
      MulMonotone(page, -1, limit);
    }
    assert RelativeIndex(start, n) == Max(n + start, 0);
    assert RelativeIndex(start + limit, n) == Max(n + start + limit, 0);
  }

  /** Pages 1 to `k` of `sorted`, one after the other. With `sorted =
      SortByDue(all)` this is what the responses of `fetchTasks(1, limit)`
      to `fetchTasks(k, limit)` hold, concatenated (see `FetchPage`). */
  function PagesThrough(sorted: seq<Task>, limit: int, k: nat): seq<Task>
  {
    if k == 0 then [] else PagesThrough(sorted, limit, k - 1) + PageOf(sorted, k, limit)
  }

  lemma {:induction false} PagesThroughPrefix(sorted: seq<Task>, limit: int, k: nat)
    requires limit > 0
    ensures 0 <= Min(k * limit, |sorted|)
    ensures PagesThrough(sorted, limit, k) == sorted[..Min(k * limit, |sorted|)]
  {
    if k > 0 {
      var a, b := Min((k - 1) * limit, |sorted|), Min(k * limit, |sorted|);
      assert PagesThrough(sorted, limit, k - 1) == sorted[..a] by {
        PagesThroughPrefix(sorted, limit, k - 1);
      }
      assert 0 <= a <= b && PageOf(sorted, k, limit) == sorted[a..b] by {
        PageOfSlice(sorted, k, limit);
      }
      PrefixSplit(sorted, a, b);
    } else {
      assert k * limit == 0;
    }
  }

  lemma PrefixSplit<T>(s: seq<T>, a: int, b: int)
    requires 0 <= a <= b <= |s|
    ensures s[..a] + s[a..b] == s[..b]
  {
  }

  /** Fetching pages 1 to `totalPages` with one `limit` and concatenating them
      gives back the whole sorted collection: every stored task exactly once. */
  lemma AllPagesRebuildSortedList(all: seq<Task>, limit: int)
    requires limit > 0
    ensures PagesThrough(SortByDue(all), limit, CeilDiv(|all|, limit)) == SortByDue(all)
    ensures multiset(PagesThrough(SortByDue(all), limit, CeilDiv(|all|, limit))) == multiset(all)
  {
    var sorted := SortByDue(all);
    CeilDivBounds(CeilDiv(|all|, limit), |all|, limit);
    PagesThroughPrefix(sorted, limit, CeilDiv(|all|, limit));
    assert sorted[..|all|] == sorted;
  }

  /** The last page holds the remainder: `totalCount - (totalPages - 1) * limit`
      items. With `sorted = SortByDue(all)` this is the last page `fetchTasks`
      serves (see `FetchPage`). */
  lemma LastPageLength(sorted: seq<Task>, limit: int)
    requires limit > 0 && |sorted| > 0
    ensures var last := CeilDiv(|sorted|, limit);
      |PageOf(sorted, last, limit)| == |sorted| - (last - 1) * limit
  {
    var last := CeilDiv(|sorted|, limit);
    CeilDivBounds(last, |sorted|, limit);
    PageOfSlice(sorted, last, limit);
    var lo, hi := (last - 1) * limit, last * limit;
    assert lo < |sorted| <= hi;
  }
}
