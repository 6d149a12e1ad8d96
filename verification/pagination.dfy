/** The pagination bar of the document list (`renderPagination` in
    src/pages/DocsList.tsx): a window of at most five page numbers around the
    current page, clamped to the existing pages, with shortcuts to the first
    and last page, ellipses, and previous/next buttons. */
module Pagination {
  import opened Wrappers

  /** Documents per page. */
  const PageSize: nat := 12

  /** Width of the window of page numbers. */
  const ShowPages: nat := 5

  function Min(a: int, b: int): int {
    if a < b then a else b
  }

  function Max(a: int, b: int): int {
    if a < b then b else a
  }

  /** `Math.ceil(total / PAGE_SIZE)` for a non-negative total. */
  function TotalPages(total: nat): (n: nat)
    ensures n * PageSize >= total
    ensures n == 0 || (n - 1) * PageSize < total
  {
    (total + PageSize - 1) / PageSize
  }

  /** The contiguous ascending run `a, a+1, …, b` (empty when `b < a`). */
  function Range(a: int, b: int): (r: seq<int>)
    ensures |r| == if b < a then 0 else b - a + 1
    ensures forall k :: 0 <= k < |r| ==> r[k] == a + k
  {
    if b < a then [] else seq(b - a + 1, k => a + k)
  }

  datatype Window = Window(start: int, end: int)

  /** The first and last page number shown, for any current page (the page
      may come from the URL and lie outside `[1, totalPages]`). */
  function PageWindow(page: int, totalPages: nat): (w: Window)
    ensures totalPages >= 1 ==> 1 <= w.start <= w.end <= totalPages
    ensures totalPages >= 1 ==> w.end - w.start + 1 == Min(ShowPages, totalPages)
    ensures 1 <= page <= totalPages ==> w.start <= page <= w.end
  {
    var start := Max(1, page - ShowPages / 2);
    var end := Min(totalPages, start + ShowPages - 1);
    if end - start < ShowPages - 1 then Window(Max(1, end - ShowPages + 1), end)
    else Window(start, end)
  }

  /** When the current page has two pages on either side, the window is
      centred on it. */
  lemma WindowCentred(page: int, totalPages: nat)
    requires 3 <= page && page + 2 <= totalPages
    ensures PageWindow(page, totalPages) == Window(page - 2, page + 2)
  {
  }

  /** Near the first page the window starts at 1, near the last it ends at
      the last page. */
  lemma WindowAtEdges(page: int, totalPages: nat)
    requires 1 <= page <= totalPages
    ensures page <= 3 ==> PageWindow(page, totalPages).start == 1
    ensures page + 2 >= totalPages ==> PageWindow(page, totalPages).end == totalPages
  {
  }

  /** What the bar shows. `pages` are the numbered buttons; `lastPage` is
      the number on the last-page shortcut. */
  datatype Bar = Bar(
    prevDisabled: bool,
    firstShortcut: bool,
    leadingEllipsis: bool,
    pages: seq<int>,
    active: int,
    trailingEllipsis: bool,
    lastShortcut: bool,
    lastPage: nat,
    nextDisabled: bool)

  /** `renderPagination`: nothing when there is at most one page. */
  function RenderPagination(page: int, total: nat): (r: Option<Bar>)
    ensures r.None? <==> TotalPages(total) <= 1
    ensures r.Some? ==> r.value.lastPage == TotalPages(total)
    ensures r.Some? ==> |r.value.pages| == Min(ShowPages, TotalPages(total))
    ensures r.Some? ==> (r.value.prevDisabled <==> page == 1)
    ensures r.Some? ==> (r.value.nextDisabled <==> page == TotalPages(total))
  {
    var n := TotalPages(total);
    if n <= 1 then None
    else
      var w := PageWindow(page, n);
      Some(Bar(
        prevDisabled := page == 1,
        firstShortcut := w.start > 1,
        leadingEllipsis := w.start > 1 && w.start > 2,
        pages := Range(w.start, w.end),
        active := page,
        trailingEllipsis := w.end < n && w.end < n - 1,
        lastShortcut := w.end < n,
        lastPage := n,
        nextDisabled := page == n))
  }

  /** The numbered buttons are the ascending run between 1 and the last
      page, and include the current page whenever it exists. */
  lemma PagesAreWindow(page: int, total: nat)
    requires TotalPages(total) > 1
    ensures var b := RenderPagination(page, total).value;
            && |b.pages| > 0
            && 1 <= b.pages[0] && b.pages[|b.pages| - 1] <= TotalPages(total)
            && (forall k :: 0 < k < |b.pages| ==> b.pages[k] == b.pages[k - 1] + 1)
            && (1 <= page <= TotalPages(total) ==> page in b.pages)
  {
    var n := TotalPages(total);
    var w := PageWindow(page, n);
    var b := RenderPagination(page, total).value;
    assert b.pages == Range(w.start, w.end);
    if 1 <= page <= n {
      assert b.pages[page - w.start] == page;
    }
  }

  /** The shortcuts and ellipses: the first-page shortcut exactly when the
      window misses page 1, its ellipsis exactly when it also misses page 2;
      symmetrically at the end. A shortcut never repeats a numbered button. */
  lemma ShortcutRules(page: int, total: nat)
    requires TotalPages(total) > 1
    ensures var b := RenderPagination(page, total).value;
            && (b.firstShortcut <==> 1 !in b.pages)
            && (b.leadingEllipsis <==> 1 !in b.pages && 2 !in b.pages)
            && (b.lastShortcut <==> b.lastPage !in b.pages)
            && (b.trailingEllipsis <==> b.lastPage !in b.pages && b.lastPage - 1 !in b.pages)
  {
    var n := TotalPages(total);
    var w := PageWindow(page, n);
    var b := RenderPagination(page, total).value;
    assert b.pages == Range(w.start, w.end);
    assert b.pages[0] == w.start;
    assert b.pages[|b.pages| - 1] == w.end;
    if w.start <= 1 {
      assert b.pages[1 - w.start] == 1;
    }
    if w.start <= 2 {
      assert b.pages[2 - w.start] == 2;
    }
    if w.end >= n {
      assert b.pages[n - w.start] == n;
    }
    if w.end >= n - 1 {
      assert b.pages[n - 1 - w.start] == n - 1;
    }
  }

  /** Example: 100 documents, page 5 of 9 shows 3..7 with both shortcuts. */
  lemma ExampleNinePages()
    ensures var b := RenderPagination(5, 100).value;
            && b.pages == [3, 4, 5, 6, 7]
            && b.firstShortcut && b.leadingEllipsis
            && b.lastShortcut && b.trailingEllipsis && b.lastPage == 9
  {
    assert TotalPages(100) == 9;
    assert PageWindow(5, 9) == Window(3, 7);
  }

  /** A button of the bar. */
  datatype Button = Prev | Next | First | Last | Number(p: int)

  /** The page a click leads to, or `None` when the button is disabled or
      not shown: the arrows step by one page unless disabled, the shortcuts
      jump to the first and last page when they are shown, and a numbered
      button goes to its own page. */
  function Click(bar: Bar, page: int, b: Button): (r: Option<int>)
    ensures b.Prev? ==> (r.None? <==> bar.prevDisabled) && (r.Some? ==> r.value == page - 1)
    ensures b.Next? ==> (r.None? <==> bar.nextDisabled) && (r.Some? ==> r.value == page + 1)
    ensures b.First? ==> (r.Some? <==> bar.firstShortcut) && (r.Some? ==> r.value == 1)
    ensures b.Last? ==> (r.Some? <==> bar.lastShortcut) && (r.Some? ==> r.value == bar.lastPage)
    ensures b.Number? ==> (r.Some? <==> b.p in bar.pages) && (r.Some? ==> r.value == b.p)
  {
    match b
    case Prev => if bar.prevDisabled then None else Some(page - 1)
    case Next => if bar.nextDisabled then None else Some(page + 1)
    case First => if bar.firstShortcut then Some(1) else None
    case Last => if bar.lastShortcut then Some(bar.lastPage) else None
    case Number(p) => if p in bar.pages then Some(p) else None
  }

  /** From a page that exists, every click lands on a page that exists. */
  lemma ClickStaysInRange(page: int, total: nat, b: Button)
    requires TotalPages(total) > 1 && 1 <= page <= TotalPages(total)
    ensures var bar := RenderPagination(page, total).value;
            Click(bar, page, b).Some? ==> 1 <= Click(bar, page, b).value <= TotalPages(total)
  {
    PagesAreWindow(page, total);
    var bar := RenderPagination(page, total).value;
    if b.Number? && b.p in bar.pages {
      var k :| 0 <= k < |bar.pages| && bar.pages[k] == b.p;
      var w := PageWindow(page, TotalPages(total));
      assert bar.pages == Range(w.start, w.end);
    }
  }
}
