/**
 * `TagPager`: the page arithmetic of one tag, namely how many pages its
 * documents fill, which documents page `page` shows, and the neighbouring
 * page numbers.
 */
module TagPagers {
  import opened Results

  /** `per_page.to_i`, where `per_page` is nil or an integer. */
  function PerPageValue(perPage: Option<int>): int {
    match perPage
    case None => 0
    case Some(v) => v
  }

  /** `TagPager.calculate_pages`: one page without pagination, otherwise enough pages of `per_page` for every document. */
  function CalculatePages(size: nat, perPage: Option<int>): (pages: nat)
    ensures PerPageValue(perPage) <= 0 ==> pages == 1
    ensures PerPageValue(perPage) > 0 ==>
              (pages - 1) * PerPageValue(perPage) < size <= pages * PerPageValue(perPage) || (size == 0 && pages == 0)
  {
    var n := PerPageValue(perPage);
    if n <= 0 then 1 else (size + n - 1) / n
  }

  /** `Array#slice(start, length)` for a positive `length`: nil when `start` is out of range, a negative `start` counting from the end. */
  function RubySlice<T>(xs: seq<T>, start: int, length: nat): (r: Option<seq<T>>)
    ensures r.Some? <==> -|xs| <= start <= |xs|
    ensures r.Some? ==>
              var from := if start < 0 then start + |xs| else start;
              r.value == xs[from..if from + length < |xs| then from + length else |xs|]
  {
    var from := if start < 0 then start + |xs| else start;
    if from < 0 || from > |xs| then None
    else Some(xs[from..if from + length < |xs| then from + length else |xs|])
  }

  /** The values a `TagPager` exposes, which is also what `to_liquid` maps its keys to. */
  datatype TagPager<T> = TagPager(
    page: int,
    perPage: nat,
    posts: seq<T>,
    totalPosts: nat,
    totalPages: nat,
    previousPage: Option<int>,
    nextPage: Option<int>)

  /** `slice_posts`: every document without pagination, otherwise the window of page `page`, or nothing. */
  function SlicePosts<T>(page: int, perPage: nat, all: seq<T>): seq<T> {
    if perPage == 0 then all
    else
      match RubySlice(all, (page - 1) * perPage, perPage)
      case Some(window) => window
      case None => []
  }

  /** `TagPager.new(page_num, per_page, all_posts)`. */
  function NewTagPager<T>(page: int, perPage: Option<int>, all: seq<T>): (p: TagPager<T>)
    ensures p.page == page && p.totalPosts == |all|
    ensures p.perPage == if PerPageValue(perPage) > 0 then PerPageValue(perPage) else 0
    ensures p.totalPages == CalculatePages(|all|, perPage)
    ensures p.posts == SlicePosts(page, p.perPage, all)
  {
    var n: nat := if PerPageValue(perPage) > 0 then PerPageValue(perPage) else 0;
    var total := CalculatePages(|all|, Some(n));
    TagPager(page, n, SlicePosts(page, n, all), |all|, total,
             if page > 1 then Some(page - 1) else None,
             if page < total then Some(page + 1) else None)
  }

  /** Without pagination there is one page and it shows every document. */
  lemma NoPaginationOnePage<T>(page: int, perPage: Option<int>, all: seq<T>)
    requires PerPageValue(perPage) <= 0
    ensures NewTagPager(page, perPage, all).totalPages == 1
    ensures NewTagPager(page, perPage, all).posts == all
  {
  }

  /** An empty list fills no page at all once pagination is on. */
  lemma EmptyListNoPages(perPage: Option<int>)
    requires PerPageValue(perPage) > 0
    ensures CalculatePages(0, perPage) == 0
  {
  }

  /**
   * Page `page` (from 1) of a paginated list shows the documents from
   * `(page - 1) * per_page` up to `page * per_page`, cut at the end of the
   * list, and nothing once it starts past the end.
   */
  lemma PageWindow<T>(page: int, perPage: Option<int>, all: seq<T>)
    requires page >= 1 && PerPageValue(perPage) > 0
    ensures var n := PerPageValue(perPage); var start := (page - 1) * n;
      var posts := NewTagPager(page, perPage, all).posts;
      && start >= 0
      && (start >= |all| ==> posts == [])
      && (start < |all| ==> posts == all[start..if start + n < |all| then start + n else |all|])
      && |posts| <= n
  {
    PageStartNonNegative(page, PerPageValue(perPage));
  }

  /** Pages start at a non-negative multiple of `per_page`. */
  lemma PageStartNonNegative(page: int, n: int)
    requires page >= 1 && n > 0
    ensures (page - 1) * n >= 0 && (page - 1) * n + n == page * n
  {
  }

  /** The pager's navigation points at existing neighbouring pages, and is nil exactly at the edges. */
  lemma NavigationInRange<T>(page: int, perPage: Option<int>, all: seq<T>)
    ensures var p := NewTagPager(page, perPage, all);
      && (p.previousPage.None? <==> page <= 1)
      && (p.previousPage.Some? ==> p.previousPage.value == page - 1 && 1 <= p.previousPage.value)
      && (p.nextPage.None? <==> page >= p.totalPages)
      && (p.nextPage.Some? ==> p.nextPage.value == page + 1 && p.nextPage.value <= p.totalPages)
  {
  }

  /** Pages 1 up to `m` show the first `m * per_page` documents, cut at the end of the list. */
  lemma {:induction false} PagesPrefix<T>(m: nat, perPage: Option<int>, all: seq<T>)
    requires PerPageValue(perPage) > 0
    ensures var n := PerPageValue(perPage);
      PagesUpTo(m, perPage, all) == all[..if m * n < |all| then m * n else |all|]
    decreases m
  {
    var n := PerPageValue(perPage);
    if m > 0 {
      PagesPrefix(m - 1, perPage, all);
      PageWindow(m, perPage, all);
      PageStartNonNegative(m, n);
      var lo := if (m - 1) * n < |all| then (m - 1) * n else |all|;
      var hi := if m * n < |all| then m * n else |all|;
      assert all[..lo] + all[lo..hi] == all[..hi];
    }
  }

  /** The documents of pages 1 up to `m`, in order. */
  function PagesUpTo<T>(m: nat, perPage: Option<int>, all: seq<T>): seq<T>
    decreases m
  {
    if m == 0 then [] else PagesUpTo(m - 1, perPage, all) + NewTagPager(m, perPage, all).posts
  }

  /** Concatenating the documents of pages 1 up to `total_pages` gives back the whole list, in order. */
  lemma PagesCoverAll<T>(perPage: Option<int>, all: seq<T>)
    ensures PagesUpTo(CalculatePages(|all|, perPage), perPage, all) == all
  {
    if PerPageValue(perPage) > 0 {
      var n := PerPageValue(perPage);
      var total := CalculatePages(|all|, perPage);
      PagesPrefix(total, perPage, all);
      assert total * n >= |all|;
    } else {
      assert PagesUpTo(1, perPage, all) == PagesUpTo(0, perPage, all) + all;
    }
  }
}
