/** The client-side table controller of `DynamicTable`: filtering by the
    committed search text, the page count and the clamped page, the slice of
    rows on the shown page, the five-button page strip, the debounced search
    commit, page changes, and the page/search pair written to the URL. */
module DynamicTable {
  import opened Wrappers
  import opened Text
  import opened Js
  import UrlQuery

  /** A column descriptor: a field of the row, or the `actions` column, which
      renders the whole row and is never searched. */
  datatype Column = Data(key: string) | Actions

  type Row = Record

  /** Page sizes are positive (the component's default is 5). */
  type PageSize = n: int | n > 0 witness 5

  const MaxVisiblePages: int := 5

  function Min(a: int, b: int): int { if a < b then a else b }
  function Max(a: int, b: int): int { if a < b then b else a }

  /** `String(row[column.accessor])`; a missing field reads "undefined". */
  function CellText(row: Row, key: string): string {
    ToString(Get(row, key))
  }

  /** Some non-actions column's text, lower-cased, contains the lower-cased
      search text. */
  predicate Matches(row: Row, columns: seq<Column>, search: string) {
    exists i | 0 <= i < |columns| ::
      columns[i].Data? && Contains(Lower(CellText(row, columns[i].key)), Lower(search))
  }

  /** `data.filter(row => columns.some(...))`. */
  function FilterRows(data: seq<Row>, columns: seq<Column>, search: string): (r: seq<Row>)
    ensures |r| <= |data|
    ensures forall x :: x in r ==> x in data && Matches(x, columns, search)
  {
    if data == [] then []
    else (if Matches(data[0], columns, search) then [data[0]] else []) + FilterRows(data[1..], columns, search)
  }

  /** Filtering a concatenation filters each part: the kept rows stay in
      their original order. */
  lemma {:induction false} FilterAppend(a: seq<Row>, b: seq<Row>, columns: seq<Column>, search: string)
    ensures FilterRows(a + b, columns, search) == FilterRows(a, columns, search) + FilterRows(b, columns, search)
  {
    if a == [] {
      assert a + b == b;
    } else {
      assert (a + b)[0] == a[0];
      assert (a + b)[1..] == a[1..] + b;
      FilterAppend(a[1..], b, columns, search);
    }
  }

  /** A row of the data is kept exactly when it matches. */
  lemma {:induction false} FilterKeeps(data: seq<Row>, columns: seq<Column>, search: string, x: Row)
    ensures x in FilterRows(data, columns, search) <==> x in data && Matches(x, columns, search)
  {
    if data != [] {
      FilterKeeps(data[1..], columns, search, x);
      if x != data[0] { assert x in data ==> x in data[1..]; }
    }
  }

  lemma FilterKeepsAll(data: seq<Row>, columns: seq<Column>, search: string)
    ensures forall x :: x in FilterRows(data, columns, search) <==> x in data && Matches(x, columns, search)
  {
    forall x { FilterKeeps(data, columns, search, x); }
  }

  /** With an empty search every row is kept, provided the table has a
      searchable column (here column `c`). */
  lemma {:induction false} EmptySearchKeepsAll(data: seq<Row>, columns: seq<Column>, c: nat)
    requires c < |columns| && columns[c].Data?
    ensures FilterRows(data, columns, "") == data
  {
    if data != [] {
      EmptySearchKeepsAll(data[1..], columns, c);
      assert OccursAt(Lower(CellText(data[0], columns[c].key)), Lower(""), 0);
      assert Matches(data[0], columns, "");
      assert data == [data[0]] + data[1..];
    }
  }

  /** A table whose only columns are `actions` shows no rows in client mode,
      whatever the search. */
  lemma {:induction false} NoSearchableColumn(data: seq<Row>, columns: seq<Column>, search: string)
    requires forall i :: 0 <= i < |columns| ==> columns[i].Actions?
    ensures FilterRows(data, columns, search) == []
  {
    if data != [] {
      NoSearchableColumn(data[1..], columns, search);
    }
  }

  /** In server mode the data is already filtered and paginated by the
      server, so it passes through. */
  function Filtered(data: seq<Row>, columns: seq<Column>, search: string, serverSide: bool): seq<Row> {
    if serverSide then data else FilterRows(data, columns, search)
  }

  /** `Math.ceil(n / size)`. */
  function PageCount(n: int, size: PageSize): (r: int)
    ensures n <= r * size < n + size
    ensures n >= 0 ==> r >= 0
    ensures n == 0 ==> r == 0
    ensures n > 0 ==> r >= 1
  {
    var q := (-n) / size;
    assert -n == q * size + (-n) % size;
    -q
  }

  /** The page actually shown: `Math.min(currentPage, pageCount - 1)`. */
  function Adjusted(currentPage: int, pageCount: int): int {
    Min(currentPage, pageCount - 1)
  }

  /** How `Array.prototype.slice` reads an index: negative indexes count
      from the end, and both ends are clamped to the array. */
  function SliceIndex(i: int, len: nat): (r: nat)
    ensures r <= len
  {
    if i < 0 then Max(len + i, 0) else Min(i, len)
  }

  /** `s.slice(start, end)`. */
  function JsSlice<T>(s: seq<T>, start: int, end: int): seq<T> {
    var a := SliceIndex(start, |s|);
    var b := SliceIndex(end, |s|);
    if a < b then s[a..b] else []
  }

  /** The rows of one page: `rows.slice(page * size, (page + 1) * size)`. */
  function PageRows(rows: seq<Row>, page: int, size: PageSize): seq<Row> {
    JsSlice(rows, page * size, (page + 1) * size)
  }

  /** A page never holds more than `size` rows, for any page number. */
  lemma PageAtMostSize(rows: seq<Row>, page: int, size: PageSize)
    ensures |PageRows(rows, page, size)| <= size
  {
    var lo := page * size;
    assert (page + 1) * size == lo + size;
  }

  /** Page `p` (for `p >= 0`) holds rows `p * size` up to `(p + 1) * size` of
      the filtered list, cut at its end. */
  lemma PageShape(rows: seq<Row>, page: int, size: PageSize)
    requires page >= 0
    ensures PageRows(rows, page, size) ==
              rows[Min(page * size, |rows|)..Min((page + 1) * size, |rows|)]
  {
    assert 0 <= page * size <= (page + 1) * size;
  }

  /** Distinct pages take distinct rows: page `p` ends where any later page
      `q` can begin at the earliest. */
  lemma PagesDisjoint(n: nat, size: PageSize, p: int, q: int)
    requires 0 <= p < q
    ensures Min((p + 1) * size, n) <= Min(q * size, n)
  {
    assert (p + 1) * size <= q * size;
  }

  /** The rows of pages `0 .. k - 1`, one after the other. */
  function PagesBefore(rows: seq<Row>, size: PageSize, k: nat): seq<Row> {
    if k == 0 then [] else PagesBefore(rows, size, k - 1) + PageRows(rows, k - 1, size)
  }

  lemma {:induction false} PagesBeforeIsPrefix(rows: seq<Row>, size: PageSize, k: nat)
    ensures PagesBefore(rows, size, k) == rows[..Min(k * size, |rows|)]
  {
    if k > 0 {
      PagesBeforeIsPrefix(rows, size, k - 1);
      var lo, hi := (k - 1) * size, k * size;
      PageStep(k - 1, size);
      PageShape(rows, k - 1, size);
      var a := Min(lo, |rows|);
      var b := Min(hi, |rows|);
      assert PageRows(rows, k - 1, size) == rows[a..b];
      assert rows[..a] + rows[a..b] == rows[..b];
    }
  }

  /** Page `p` ends where page `p + 1` begins. */
  lemma PageStep(p: nat, size: PageSize)
    ensures 0 <= p * size <= (p + 1) * size == p * size + size
  {
  }

  /** The pages `0 .. pageCount - 1` split the filtered rows: concatenated in
      order they give back exactly the filtered list, each row once. */
  lemma PagesCoverRows(rows: seq<Row>, size: PageSize)
    ensures PagesBefore(rows, size, PageCount(|rows|, size)) == rows
  {
    var k := PageCount(|rows|, size);
    PagesBeforeIsPrefix(rows, size, k);
    assert Min(k * size, |rows|) == |rows|;
  }

  /** Page `-1` (what `Math.min(currentPage, pageCount - 1)` gives when
      nothing matches) is `rows.slice(-size, 0)`, which is always empty. */
  lemma PageMinusOneEmpty(rows: seq<Row>, size: PageSize)
    ensures PageRows(rows, -1, size) == []
  {
  }

  // ---------------------------------------------------------------------
  // The page strip

  /** The first page button of the window: two before the shown page, kept
      inside `[0, pageCount - 5]` and never below 0. */
  function WindowStart(page: int, pageCount: int): int {
    Max(0, Min(page - MaxVisiblePages / 2, pageCount - MaxVisiblePages))
  }

  /** One past the last page button of the window. */
  function WindowEnd(page: int, pageCount: int): int {
    Min(pageCount, WindowStart(page, pageCount) + MaxVisiblePages)
  }

  /** The window lies in `[0, pageCount)`, holds `min(5, pageCount)` pages,
      and holds the shown page whenever that page exists. */
  lemma WindowBounds(page: int, pageCount: int)
    requires pageCount >= 0
    ensures 0 <= WindowStart(page, pageCount) && WindowEnd(page, pageCount) <= pageCount
    ensures WindowEnd(page, pageCount) - WindowStart(page, pageCount) == Min(MaxVisiblePages, pageCount)
    ensures 0 <= page < pageCount ==>
              WindowStart(page, pageCount) <= page < WindowEnd(page, pageCount)
  {
  }

  datatype PageItem = PageButton(index: int) | Ellipsis

  /** The buttons for pages `lo .. hi - 1`. */
  function Buttons(lo: int, hi: int): (r: seq<PageItem>)
    ensures |r| == Max(hi - lo, 0)
    ensures forall i :: 0 <= i < |r| ==> r[i] == PageButton(lo + i)
  {
    if lo >= hi then [] else seq(hi - lo, i requires 0 <= i < hi - lo => PageButton(lo + i))
  }

  /** The first-page button and its ellipsis, shown before the window. */
  function StripHead(lo: int): seq<PageItem> {
    if lo > 0 then [PageButton(0)] + (if lo > 1 then [Ellipsis] else []) else []
  }

  /** The last-page button and its ellipsis, shown after the window. */
  function StripTail(hi: int, pageCount: int): seq<PageItem> {
    if hi < pageCount then (if hi < pageCount - 1 then [Ellipsis] else []) + [PageButton(pageCount - 1)]
    else []
  }

  /** What the pagination strip renders for the shown page. */
  function Strip(page: int, pageCount: int): seq<PageItem> {
    var lo := WindowStart(page, pageCount);
    var hi := WindowEnd(page, pageCount);
    StripHead(lo) + Buttons(lo, hi) + StripTail(hi, pageCount)
  }

  /** Page buttons stay in range and appear in strictly increasing order,
      so no page number is rendered twice. */
  ghost predicate Increasing(r: seq<PageItem>, pageCount: int) {
    (forall i :: 0 <= i < |r| && r[i].PageButton? ==> 0 <= r[i].index < pageCount) &&
    (forall i, j :: 0 <= i < j < |r| && r[i].PageButton? && r[j].PageButton? ==> r[i].index < r[j].index)
  }

  /** Adjacent buttons are consecutive pages, and an ellipsis stands exactly
      where pages are skipped: between two buttons more than one page apart. */
  ghost predicate GapsMarked(r: seq<PageItem>) {
    (forall i :: 0 <= i < |r| - 1 && r[i].PageButton? && r[i + 1].PageButton? ==>
       r[i + 1].index == r[i].index + 1) &&
    (forall i :: 0 <= i < |r| && r[i].Ellipsis? ==>
       0 < i < |r| - 1 && r[i - 1].PageButton? && r[i + 1].PageButton? &&
       r[i + 1].index > r[i - 1].index + 1)
  }

  /** Where each item of the strip comes from: the head, the window, or
      the tail. */
  lemma StripAt(page: int, pageCount: int, k: int)
    requires 0 <= k < |Strip(page, pageCount)|
    ensures var lo := WindowStart(page, pageCount);
            var hi := WindowEnd(page, pageCount);
            var h := StripHead(lo);
            var n := Max(hi - lo, 0);
            var r := Strip(page, pageCount);
            (k < |h| ==> r[k] == h[k]) &&
            (|h| <= k < |h| + n ==> r[k] == PageButton(lo + (k - |h|))) &&
            (|h| + n <= k ==> r[k] == StripTail(hi, pageCount)[k - |h| - n])
  {
    var lo := WindowStart(page, pageCount);
    var hi := WindowEnd(page, pageCount);
    var h := StripHead(lo);
    var b := Buttons(lo, hi);
    var t := StripTail(hi, pageCount);
    assert Strip(page, pageCount) == h + b + t;
    if |h| <= k < |h| + |b| {
      assert (h + b + t)[k] == b[k - |h|];
    }
  }

  /** The strip's page buttons are in range and strictly increasing. */
  lemma StripIncreasing(page: int, pageCount: int)
    requires pageCount >= 0
    ensures Increasing(Strip(page, pageCount), pageCount)
  {
    var r := Strip(page, pageCount);
    WindowBounds(page, pageCount);
    forall i | 0 <= i < |r| && r[i].PageButton?
      ensures 0 <= r[i].index < pageCount
    {
      StripAt(page, pageCount, i);
    }
    forall i, j | 0 <= i < j < |r| && r[i].PageButton? && r[j].PageButton?
      ensures r[i].index < r[j].index
    {
      StripAt(page, pageCount, i);
      StripAt(page, pageCount, j);
    }
  }

  /** Adjacent buttons are consecutive and every ellipsis marks a gap. */
  lemma StripGapsMarked(page: int, pageCount: int)
    requires pageCount >= 0
    ensures GapsMarked(Strip(page, pageCount))
  {
    ButtonsConsecutive(page, pageCount);
    EllipsesMarkGaps(page, pageCount);
  }

  lemma ButtonsConsecutive(page: int, pageCount: int)
    requires pageCount >= 0
    ensures var r := Strip(page, pageCount);
            forall i :: 0 <= i < |r| - 1 && r[i].PageButton? && r[i + 1].PageButton? ==>
              r[i + 1].index == r[i].index + 1
  {
    var r := Strip(page, pageCount);
    forall i | 0 <= i < |r| - 1 && r[i].PageButton? && r[i + 1].PageButton?
      ensures r[i + 1].index == r[i].index + 1
    {
      ButtonsConsecutiveAt(page, pageCount, i);
    }
  }

  lemma EllipsesMarkGaps(page: int, pageCount: int)
    requires pageCount >= 0
    ensures var r := Strip(page, pageCount);
            forall i :: 0 <= i < |r| && r[i].Ellipsis? ==>
              0 < i < |r| - 1 && r[i - 1].PageButton? && r[i + 1].PageButton? &&
              r[i + 1].index > r[i - 1].index + 1
  {
    var r := Strip(page, pageCount);
    forall i | 0 <= i < |r| && r[i].Ellipsis?
      ensures 0 < i < |r| - 1 && r[i - 1].PageButton? && r[i + 1].PageButton? &&
              r[i + 1].index > r[i - 1].index + 1
    {
      EllipsisGapAt(page, pageCount, i);
    }
  }

  lemma ButtonsConsecutiveAt(page: int, pageCount: int, i: int)
    requires pageCount >= 0
    requires 0 <= i < |Strip(page, pageCount)| - 1
    requires Strip(page, pageCount)[i].PageButton? && Strip(page, pageCount)[i + 1].PageButton?
    ensures Strip(page, pageCount)[i + 1].index == Strip(page, pageCount)[i].index + 1
  {
    WindowBounds(page, pageCount);
    StripAt(page, pageCount, i);
    StripAt(page, pageCount, i + 1);
  }

  lemma EllipsisGapAt(page: int, pageCount: int, i: int)
    requires pageCount >= 0
    requires 0 <= i < |Strip(page, pageCount)| && Strip(page, pageCount)[i].Ellipsis?
    ensures var r := Strip(page, pageCount);
            0 < i < |r| - 1 && r[i - 1].PageButton? && r[i + 1].PageButton? &&
            r[i + 1].index > r[i - 1].index + 1
  {
    var r := Strip(page, pageCount);
    WindowBounds(page, pageCount);
    StripAt(page, pageCount, i);
    if 0 < i { StripAt(page, pageCount, i - 1); }
    if i < |r| - 1 { StripAt(page, pageCount, i + 1); }
  }

  /** The first and the last page are always reachable from the strip, and
      so is the shown page; an empty table gets no buttons at all. */
  lemma StripEnds(page: int, pageCount: int)
    requires pageCount >= 0
    ensures pageCount == 0 ==> Strip(page, pageCount) == []
    ensures pageCount > 0 ==> Strip(page, pageCount)[0] == PageButton(0)
    ensures pageCount > 0 ==>
              Strip(page, pageCount)[|Strip(page, pageCount)| - 1] == PageButton(pageCount - 1)
    ensures 0 <= page < pageCount ==> PageButton(page) in Strip(page, pageCount)
  {
    var lo := WindowStart(page, pageCount);
    WindowBounds(page, pageCount);
    var r := Strip(page, pageCount);
    if pageCount > 0 {
      StripAt(page, pageCount, 0);
      StripAt(page, pageCount, |r| - 1);
    }
    if 0 <= page < pageCount {
      var k := |StripHead(lo)| + (page - lo);
      StripAt(page, pageCount, k);
    }
  }

  /** The loop at the heart of the pagination strip: the first-page button
      and ellipsis, the window's buttons pushed one by one, then the
      ellipsis and last-page button. */
  method BuildStrip(page: int, pageCount: int) returns (pages: seq<PageItem>)
    ensures pages == Strip(page, pageCount)
  {
    var lo := WindowStart(page, pageCount);
    var hi := WindowEnd(page, pageCount);
    pages := [];
    if lo > 0 {
      pages := pages + [PageButton(0)];
      if lo > 1 {
        pages := pages + [Ellipsis];
      }
    }
    assert pages == StripHead(lo) + Buttons(lo, lo);
    var i := lo;
    while i < hi
      invariant lo <= i <= Max(lo, hi)
      invariant pages == StripHead(lo) + Buttons(lo, i)
    {
      ButtonsSnoc(lo, i);
      pages := pages + [PageButton(i)];
      i := i + 1;
    }
    assert Buttons(lo, i) == Buttons(lo, hi);
    ghost var body := pages;
    if hi < pageCount {
      if hi < pageCount - 1 {
        pages := pages + [Ellipsis];
      }
      pages := pages + [PageButton(pageCount - 1)];
    }
    assert pages == body + StripTail(hi, pageCount);
  }

  /** The window's buttons grow by one button at a time. */
  lemma ButtonsSnoc(lo: int, i: int)
    requires lo <= i
    ensures Buttons(lo, i + 1) == Buttons(lo, i) + [PageButton(i)]
  {
  }

  // ---------------------------------------------------------------------
  // Previous / Next

  /** The Previous button's target: `Math.max(adjustedCurrentPage - 1, 0)`. */
  function PrevTarget(shown: int): int { Max(shown - 1, 0) }

  /** The Next button's target: `Math.min(adjustedCurrentPage + 1, pageCount - 1)`. */
  function NextTarget(shown: int, pageCount: int): int { Min(shown + 1, pageCount - 1) }

  /** The disabled checks compare the stored page, not the shown one. */
  predicate PrevDisabled(currentPage: int) { currentPage == 0 }
  predicate NextDisabled(currentPage: int, pageCount: int) { currentPage == pageCount - 1 }

  /** On a page that exists, Previous and Next move by exactly one page and
      stay in range, and each is disabled exactly where it would not move. */
  lemma NavigationInRange(currentPage: int, pageCount: int)
    requires 0 <= currentPage < pageCount
    ensures Adjusted(currentPage, pageCount) == currentPage
    ensures 0 <= PrevTarget(currentPage) < pageCount && 0 <= NextTarget(currentPage, pageCount) < pageCount
    ensures PrevDisabled(currentPage) <==> PrevTarget(currentPage) == currentPage
    ensures !PrevDisabled(currentPage) ==> PrevTarget(currentPage) == currentPage - 1
    ensures NextDisabled(currentPage, pageCount) <==> NextTarget(currentPage, pageCount) == currentPage
    ensures !NextDisabled(currentPage, pageCount) ==> NextTarget(currentPage, pageCount) == currentPage + 1
  {
  }

  /** When the stored page lies past the last page (the data shrank), the
      last page is shown, yet Next stays enabled; pressing it stores the
      shown page, which changes nothing on screen. */
  lemma NextPastLastPage(currentPage: int, pageCount: int)
    requires 0 < pageCount <= currentPage
    ensures Adjusted(currentPage, pageCount) == pageCount - 1
    ensures !NextDisabled(currentPage, pageCount)
    ensures NextTarget(Adjusted(currentPage, pageCount), pageCount) == pageCount - 1
  {
  }

  /** As written, Next on a table with no matching row is enabled and stores
      page -1; once rows arrive the table then shows page -1, which is
      always empty. */
  lemma NextOnEmptyTable(rows: seq<Row>, size: PageSize)
    ensures !NextDisabled(0, 0) && NextTarget(Adjusted(0, 0), 0) == -1
    ensures Adjusted(-1, PageCount(|rows|, size)) == -1
    ensures PageRows(rows, Adjusted(-1, PageCount(|rows|, size)), size) == []
  {
    PageMinusOneEmpty(rows, size);
  }

  /** Next's target kept at page 0 or above, as the strip's clamping intends. */
  function NextTargetClamped(shown: int, pageCount: int): (r: int)
    ensures r >= 0
    ensures shown >= 0 && pageCount > 0 ==> r == NextTarget(shown, pageCount)
    ensures pageCount > 0 && shown < pageCount ==> r < pageCount
  {
    Max(0, Min(shown + 1, pageCount - 1))
  }

  // ---------------------------------------------------------------------
  // Initial state from the URL or the props

  /** `searchParams.get('page') || '1'`. */
  function PageParam(query: UrlQuery.Params): string {
    var raw := UrlQuery.Get(query, "page");
    if raw.Some? && raw.value != "" then raw.value else "1"
  }

  /** `Math.max(0, parseInt(page, 10) - 1)`; `None` stands for `NaN`. */
  function UrlInitialPage(query: UrlQuery.Params): Option<int> {
    match ParseInt(PageParam(query))
    case None => None
    case Some(n) => Some(Max(0, n - 1))
  }

  /** The starting page: in server mode a non-zero `currentPage` prop, made
      zero-based, wins; otherwise the page from the URL. */
  function InitialPage(query: UrlQuery.Params, serverSide: bool, serverCurrentPage: Option<int>): Option<int> {
    if serverSide && serverCurrentPage.Some? && serverCurrentPage.value != 0 then
      Some(serverCurrentPage.value - 1)
    else UrlInitialPage(query)
  }

  /** `searchParams.get('search') || ''`. */
  function InitialSearch(query: UrlQuery.Params): string {
    UrlQuery.Get(query, "search").GetOr("")
  }

  /** A URL without `page` starts on page 0; a URL whose `page` is the
      integer `n` starts on page `max(0, n - 1)`; a non-zero server prop `n`
      gives page `n - 1`. */
  lemma InitialPageCases(query: UrlQuery.Params, n: int, serverCurrentPage: Option<int>)
    ensures UrlQuery.Get(query, "page").None? ==> InitialPage(query, false, serverCurrentPage) == Some(0)
    ensures UrlQuery.Get(query, "page") == Some(IntToString(n)) ==>
              InitialPage(query, false, serverCurrentPage) == Some(Max(0, n - 1))
    ensures serverCurrentPage == Some(n) && n != 0 ==> InitialPage(query, true, serverCurrentPage) == Some(n - 1)
  {
    ParseIntOfIntToString(1);
    ParseIntOfIntToString(n);
    assert IntToString(1) == "1";
  }

  // ---------------------------------------------------------------------
  // The controller state

  class TableState {
    const isServerSide: bool
    const pageSize: PageSize
    const hasOnSearch: bool
    const hasOnPageChange: bool

    var currentPage: int
    /** The committed search text, which drives filtering. */
    var search: string
    /** The text in the search box, updated on every keystroke. */
    var localSearch: string
    /** The value a scheduled debounce commit will apply, if one is pending. */
    var pending: Option<string>

    /** The state the component starts with; `Mount` computes the starting
        page and search from the URL and the props. */
    constructor (serverSide: bool, startPage: int, startSearch: string,
                 pageSize: PageSize, hasOnSearch: bool, hasOnPageChange: bool)
      ensures isServerSide == serverSide && this.pageSize == pageSize
      ensures this.hasOnSearch == hasOnSearch && this.hasOnPageChange == hasOnPageChange
      ensures currentPage == startPage
      ensures search == startSearch && localSearch == search && pending == None
    {
      isServerSide := serverSide;
      this.pageSize := pageSize;
      this.hasOnSearch := hasOnSearch;
      this.hasOnPageChange := hasOnPageChange;
      currentPage := startPage;
      search := startSearch;
      localSearch := startSearch;
      pending := None;
    }

    /** `handleSearchChange`: echo the text at once and replace any pending
        commit with one for this text. */
    method Keystroke(value: string)
      modifies this
      ensures localSearch == value && pending == Some(value)
      ensures search == old(search) && currentPage == old(currentPage)
    {
      localSearch := value;
      pending := Some(value);
    }

    /** The debounce timer fires: commit the pending text, go back to the
        first page and report the text to `onSearch` when it is supplied. */
    method Commit() returns (searched: Option<string>)
      modifies this
      ensures old(pending).Some? ==>
                search == old(pending).value && currentPage == 0 && pending == None &&
                searched == (if hasOnSearch then Some(search) else None)
      ensures old(pending).None? ==>
                search == old(search) && currentPage == old(currentPage) &&
                pending == None && searched == None
      ensures localSearch == old(localSearch)
    {
      searched := None;
      if pending.Some? {
        search := pending.value;
        currentPage := 0;
        if hasOnSearch {
          searched := Some(pending.value);
        }
        pending := None;
      }
    }

    /** Unmount clears the pending timer, so no commit fires afterwards. */
    method Unmount()
      modifies this
      ensures pending == None
      ensures search == old(search) && currentPage == old(currentPage) && localSearch == old(localSearch)
    {
      pending := None;
    }

    /** `handlePageChange`: always store the page; tell `onPageChange` only in
        server mode and only when it is supplied. */
    method PageChange(page: int) returns (notified: Option<int>)
      modifies this
      ensures currentPage == page
      ensures notified == (if isServerSide && hasOnPageChange then Some(page) else None)
      ensures search == old(search) && localSearch == old(localSearch) && pending == old(pending)
    {
      currentPage := page;
      notified := None;
      if isServerSide && hasOnPageChange {
        notified := Some(page);
      }
    }

    /** The effect that follows the `currentPage` prop in server mode. */
    method ServerSync(serverCurrentPage: Option<int>)
      modifies this
      ensures currentPage == (if isServerSide && serverCurrentPage.Some?
                              then serverCurrentPage.value - 1 else old(currentPage))
      ensures search == old(search) && localSearch == old(localSearch) && pending == old(pending)
    {
      if isServerSide && serverCurrentPage.Some? {
        currentPage := serverCurrentPage.value - 1;
      }
    }

    /** A press on Previous: ignored while the button is disabled (the
        stored page is 0), otherwise a page change to the page before the
        one shown, never below page 0. */
    method PrevPressed(data: seq<Row>, columns: seq<Column>, totalCount: Option<int>) returns (notified: Option<int>)
      modifies this
      ensures PrevDisabled(old(currentPage)) ==> currentPage == old(currentPage) && notified == None
      ensures !PrevDisabled(old(currentPage)) ==>
                currentPage == PrevTarget(Adjusted(old(currentPage), old(Pages(data, columns, totalCount)))) &&
                notified == (if isServerSide && hasOnPageChange then Some(currentPage) else None)
      ensures currentPage >= 0 || currentPage == old(currentPage)
      ensures search == old(search) && localSearch == old(localSearch) && pending == old(pending)
    {
      notified := None;
      if !PrevDisabled(currentPage) {
        var pc := Pages(data, columns, totalCount);
        notified := PageChange(PrevTarget(Adjusted(currentPage, pc)));
      }
    }

    /** A press on Next: ignored while the button is disabled (the stored
        page is the last one), otherwise a page change to the page after the
        one shown, kept on an existing page and never below page 0. The
        target is the corrected one (see `NextOnEmptyTable`). */
    method NextPressed(data: seq<Row>, columns: seq<Column>, totalCount: Option<int>) returns (notified: Option<int>)
      modifies this
      ensures var pc := old(Pages(data, columns, totalCount));
              NextDisabled(old(currentPage), pc) ==> currentPage == old(currentPage) && notified == None
      ensures var pc := old(Pages(data, columns, totalCount));
              !NextDisabled(old(currentPage), pc) ==>
                currentPage == NextTargetClamped(Adjusted(old(currentPage), pc), pc) && currentPage >= 0 &&
                (pc > 0 ==> currentPage < pc) &&
                notified == (if isServerSide && hasOnPageChange then Some(currentPage) else None)
      ensures search == old(search) && localSearch == old(localSearch) && pending == old(pending)
    {
      notified := None;
      var pc := Pages(data, columns, totalCount);
      if !NextDisabled(currentPage, pc) {
        notified := PageChange(NextTargetClamped(Adjusted(currentPage, pc), pc));
      }
    }

    /** The rows left after filtering (all of `data` in server mode). */
    function Rows(data: seq<Row>, columns: seq<Column>): (r: seq<Row>)
      reads this
      ensures isServerSide ==> r == data
      ensures !isServerSide ==> forall x :: x in r <==> x in data && Matches(x, columns, search)
    {
      FilterKeepsAll(data, columns, search);
      Filtered(data, columns, search, isServerSide)
    }

    /** The page count: from the filtered rows, or from `totalCount || 0`. */
    function Pages(data: seq<Row>, columns: seq<Column>, totalCount: Option<int>): (r: int)
      reads this
      ensures !isServerSide ==> r >= 0 && |Rows(data, columns)| <= r * pageSize < |Rows(data, columns)| + pageSize
      ensures isServerSide ==> totalCount.GetOr(0) <= r * pageSize < totalCount.GetOr(0) + pageSize
      ensures isServerSide && totalCount.GetOr(0) >= 0 ==> r >= 0
    {
      if isServerSide then PageCount(totalCount.GetOr(0), pageSize)
      else PageCount(|Rows(data, columns)|, pageSize)
    }

    /** The rows on screen: in client mode the slice of the filtered rows
        for the shown page. */
    function Visible(data: seq<Row>, columns: seq<Column>, totalCount: Option<int>): (r: seq<Row>)
      reads this
      ensures isServerSide ==> r == data
      ensures !isServerSide ==> ShownRows(Rows(data, columns), currentPage, pageSize, r)
    {
      if isServerSide then data
      else
        var rows := Rows(data, columns);
        ShownPageShape(rows, currentPage, pageSize);
        PageRows(rows, Adjusted(currentPage, Pages(data, columns, totalCount)), pageSize)
    }

    /** The query the URL-sync effect builds from the current one: `page` is
        `currentPage + 1`, `search` is present exactly when the committed
        search is non-empty, and every other parameter is kept. It is pushed
        only outside server mode. */
    function UrlSync(query: UrlQuery.Params): (r: Option<UrlQuery.Params>)
      reads this
      ensures r.Some? <==> !isServerSide
      ensures r.Some? ==> UrlQuery.Get(r.value, "page") == Some(IntToString(currentPage + 1))
      ensures r.Some? ==> UrlQuery.Get(r.value, "search") == (if search == "" then None else Some(search))
      ensures r.Some? ==> forall k :: k != "page" && k != "search" ==>
                UrlQuery.Only(r.value, k) == UrlQuery.Only(query, k)
    {
      SyncedGets(query, IntToString(currentPage + 1), search);
      SyncedKeepsOthers(query, IntToString(currentPage + 1), search);
      if isServerSide then None else Some(SyncedQuery(query, IntToString(currentPage + 1), search))
    }

    /** Reloading the URL the sync wrote brings back the committed search and
        the page (page 0 if the stored page had gone below 0). */
    lemma SyncThenReload(query: UrlQuery.Params, serverCurrentPage: Option<int>)
      requires !isServerSide
      ensures UrlSync(query).Some?
      ensures InitialPage(UrlSync(query).value, false, serverCurrentPage) == Some(Max(0, currentPage))
      ensures InitialSearch(UrlSync(query).value) == search
    {
      var q := UrlSync(query).value;
      InitialPageCases(q, currentPage + 1, serverCurrentPage);
      NatToStringNonEmpty(currentPage + 1);
    }
  }

  /** The query the URL-sync effect builds: `set('page', pageText)`, then
      `set('search', search)` or `delete('search')`. */
  function SyncedQuery(query: UrlQuery.Params, pageText: string, search: string): UrlQuery.Params {
    var withPage := UrlQuery.Set(query, "page", pageText);
    if search != "" then UrlQuery.Set(withPage, "search", search)
    else UrlQuery.Delete(withPage, "search")
  }

  /** The synced query reads back the page text, and the search exactly
      when it is non-empty. */
  lemma SyncedGets(query: UrlQuery.Params, pageText: string, search: string)
    ensures UrlQuery.Get(SyncedQuery(query, pageText, search), "page") == Some(pageText)
    ensures UrlQuery.Get(SyncedQuery(query, pageText, search), "search") == (if search == "" then None else Some(search))
  {
    var withPage := UrlQuery.Set(query, "page", pageText);
    UrlQuery.GetAfterUpdate(withPage, "search", search, "page");
    UrlQuery.GetAfterUpdate(query, "page", pageText, "search");
  }

  /** Every parameter other than `page` and `search` keeps its pairs, in
      order. */
  lemma SyncedKeepsOthers(query: UrlQuery.Params, pageText: string, search: string)
    ensures forall k :: k != "page" && k != "search" ==>
              UrlQuery.Only(SyncedQuery(query, pageText, search), k) == UrlQuery.Only(query, k)
  {
    var withPage := UrlQuery.Set(query, "page", pageText);
    forall k | k != "page" && k != "search"
      ensures UrlQuery.Only(SyncedQuery(query, pageText, search), k) == UrlQuery.Only(query, k)
    {
      UrlQuery.SetSpec(query, "page", pageText, k);
      if search != "" {
        UrlQuery.SetSpec(withPage, "search", search, k);
      } else {
        UrlQuery.DeleteSpec(withPage, "search", k);
      }
    }
  }

  /** Mounting the table: the `useState` initialisers read the starting page
      and the search text from the URL (or the server's page prop). */
  method Mount(query: UrlQuery.Params, serverSide: bool, serverCurrentPage: Option<int>,
               pageSize: PageSize, hasOnSearch: bool, hasOnPageChange: bool) returns (t: TableState)
    requires InitialPage(query, serverSide, serverCurrentPage).Some?
    ensures fresh(t)
    ensures t.isServerSide == serverSide && t.pageSize == pageSize
    ensures t.hasOnSearch == hasOnSearch && t.hasOnPageChange == hasOnPageChange
    ensures t.currentPage == InitialPage(query, serverSide, serverCurrentPage).value
    ensures t.search == InitialSearch(query) && t.localSearch == t.search && t.pending == None
  {
    var start := InitialPage(query, serverSide, serverCurrentPage);
    t := new TableState(serverSide, start.value, InitialSearch(query), pageSize, hasOnSearch, hasOnPageChange);
  }

  /** `shown` is what a client-mode table shows of `rows` when its stored
      page is `currentPage`: at most one page of rows; nothing when no row
      is left; and, for a non-negative stored page, the rows of the page
      shown after clamping to the last page. */
  ghost predicate ShownRows(rows: seq<Row>, currentPage: int, size: PageSize, shown: seq<Row>) {
    var p := Adjusted(currentPage, PageCount(|rows|, size));
    |shown| <= size &&
    (rows == [] ==> shown == []) &&
    (0 <= currentPage && rows != [] ==>
       0 <= p && shown == rows[Min(p * size, |rows|)..Min((p + 1) * size, |rows|)])
  }

  lemma ShownPageShape(rows: seq<Row>, currentPage: int, size: PageSize)
    ensures ShownRows(rows, currentPage, size,
                      PageRows(rows, Adjusted(currentPage, PageCount(|rows|, size)), size))
  {
    var p := Adjusted(currentPage, PageCount(|rows|, size));
    PageAtMostSize(rows, p, size);
    if p >= 0 { PageShape(rows, p, size); }
  }

  lemma NatToStringNonEmpty(n: int)
    ensures IntToString(n) != ""
  {
  }

  /** Several keystrokes before the timer fires commit only the last text,
      once, and the table goes back to its first page. */
  method LastKeystrokeWins(query: UrlQuery.Params, first: string, last: string)
    returns (searched: Option<string>, page: int, committed: string)
    requires UrlInitialPage(query).Some?
    ensures searched == Some(last) && page == 0 && committed == last
  {
    var t := Mount(query, false, None, 5, true, false);
    t.Keystroke(first);
    t.Keystroke(last);
    searched := t.Commit();
    var again := t.Commit();
    assert again == None;
    page := t.currentPage;
    committed := t.search;
  }
}
