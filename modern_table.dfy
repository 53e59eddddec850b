/** The generic table primitives of `ModernTable.jsx`: the status badge
    classifier, the loading/empty/populated table shell, and the pagination
    control (page window, item range, button guards). */
module ModernTable {
  import opened Wrappers
  import opened JsStrings

  // =====================================================================
  // StatusBadge: getBadgeVariant
  // =====================================================================

  /** The badge classes a status can be shown with. */
  datatype Variant = Success | Warning | Error | Info | Secondary

  /** The class suffix of a variant, as the badge writes `badge-<variant>`. */
  function VariantName(v: Variant): string
  {
    match v
    case Success => "success"
    case Warning => "warning"
    case Error => "error"
    case Info => "info"
    case Secondary => "secondary"
  }

  /** The `switch` of `getBadgeVariant`, applied to an already lowered status. */
  function VariantOfKey(key: string): Variant
  {
    if key in {"active", "approved", "success", "đã duyệt"} then Success
    else if key in {"pending", "waiting", "chưa được thử", "chưa duyệt"} then Warning
    else if key in {"inactive", "rejected", "error", "đã từ chối"} then Error
    else if key in {"info", "draft"} then Info
    else Secondary
  }

  /** `getBadgeVariant(status)`. `None` stands for `undefined` or `null`:
      `status?.toLowerCase()` is then `undefined`, which only the default
      case matches. */
  function BadgeVariant(status: Option<string>): Variant
  {
    match status
    case None => Secondary
    case Some(s) => VariantOfKey(ToLower(s))
  }

  /** The statuses the badge knows, as a lookup table. */
  const BadgeTable: map<string, Variant> := map[
    "active" := Success, "approved" := Success, "success" := Success, "đã duyệt" := Success,
    "pending" := Warning, "waiting" := Warning, "chưa được thử" := Warning, "chưa duyệt" := Warning,
    "inactive" := Error, "rejected" := Error, "error" := Error, "đã từ chối" := Error,
    "info" := Info, "draft" := Info]

  /** The classifier is the table lookup of the lowered status, with
      `Secondary` for everything the table does not list (including a
      missing status): it is total and never fails. */
  lemma BadgeVariantIsTableLookup(status: Option<string>)
    ensures BadgeVariant(status) ==
      if status.Some? && ToLower(status.value) in BadgeTable
      then BadgeTable[ToLower(status.value)] else Secondary
  {
  }

  /** The classifier ignores case: a status and its lowered form, and hence
      any two statuses that lower alike, get the same badge. */
  lemma BadgeVariantCaseInsensitive(s: string, t: string)
    requires ToLower(s) == ToLower(t)
    ensures BadgeVariant(Some(s)) == BadgeVariant(Some(t))
    ensures BadgeVariant(Some(s)) == BadgeVariant(Some(ToLower(s)))
  {
    ToLowerIdempotent(s);
  }

  /** A string with no upper-case letter is its own lowered form. */
  lemma LowerOfLowered(s: string)
    requires forall i :: 0 <= i < |s| ==> !IsUpper(s[i])
    ensures ToLower(s) == s
  {
  }

  /** Every key of the table is already lower case, so each listed status,
      written as listed, reaches its class. */
  lemma BadgeKeysReachable(key: string)
    requires key in BadgeTable
    ensures BadgeVariant(Some(key)) == BadgeTable[key]
  {
    forall i | 0 <= i < |key| ensures !IsUpper(key[i]) {
      assert key in {"active", "approved", "success", "đã duyệt", "pending", "waiting",
                     "chưa được thử", "chưa duyệt", "inactive", "rejected", "error",
                     "đã từ chối", "info", "draft"};
    }
    LowerOfLowered(key);
  }

  /** The class names a component passes back in as a status: `success`,
      `error`, `info` and `secondary` are recognised, but `warning` is not a
      key, so it is shown as `secondary`. */
  lemma BadgeOfVariantName(v: Variant)
    ensures BadgeVariant(Some(VariantName(v))) == if v == Warning then Secondary else v
  {
    LowerOfLowered(VariantName(v));
  }

  /** The variant-name fix-point the classifier was evidently meant to have:
      `warning` added to the warning group. */
  function BadgeVariantIntended(status: Option<string>): Variant
  {
    if status.Some? && ToLower(status.value) == "warning" then Warning
    else BadgeVariant(status)
  }

  /** With `warning` recognised, every class name maps back to its class, and
      every other status is classified as before. */
  lemma BadgeVariantIntendedRoundTrip(v: Variant, status: Option<string>)
    ensures BadgeVariantIntended(Some(VariantName(v))) == v
    ensures (status.None? || ToLower(status.value) != "warning") ==>
      BadgeVariantIntended(status) == BadgeVariant(status)
  {
    LowerOfLowered(VariantName(v));
  }

  // =====================================================================
  // ModernTable: the table shell
  // =====================================================================

  /** The default of the `emptyMessage` prop. */
  const DefaultEmptyMessage: string := "Không có dữ liệu"
  /** The loading skeleton is a grid of 5 rows of 6 cells. */
  const SkeletonRows: nat := 5
  const SkeletonCells: nat := 6

  /** The header region: a title (shown only when non-empty) and actions. */
  datatype Header<A> = Header(title: Option<string>, actions: Option<A>)

  /** What the shell renders. `A` is the caller's actions content and `C`
      the caller's children, both opaque to the shell. */
  datatype Shell<A, C> =
    | SkeletonShell(grid: seq<nat>)
    | EmptyShell(header: Option<Header<A>>, message: string)
    | PopulatedShell(header: Option<Header<A>>, content: C)

  datatype ShellMode = LoadingMode | EmptyMode | PopulatedMode

  function ModeOf<A, C>(shell: Shell<A, C>): ShellMode
  {
    match shell
    case SkeletonShell(_) => LoadingMode
    case EmptyShell(_, _) => EmptyMode
    case PopulatedShell(_, _) => PopulatedMode
  }

  /** `(title || actions) && <header>`: the header region exists only when a
      non-empty title or some actions are supplied. */
  function ShellHeader<A>(title: Option<string>, actions: Option<A>): (h: Option<Header<A>>)
    ensures h.None? <==> (title.None? || title.value == "") && actions.None?
    ensures h.Some? ==> h.value.actions == actions
    ensures h.Some? ==> h.value.title == (if title.Some? && title.value != "" then title else None)
  {
    var shownTitle := if title.Some? && title.value != "" then title else None;
    if shownTitle.None? && actions.None? then None else Some(Header(shownTitle, actions))
  }

  /** The `ModernTable` component: `loading` is tested first, then `empty`;
      `emptyMessage` is `None` when the prop is not passed. */
  function RenderShell<A, C>(loading: bool, empty: bool, emptyMessage: Option<string>,
                             title: Option<string>, actions: Option<A>, children: C): (r: Shell<A, C>)
    ensures ModeOf(r) == LoadingMode <==> loading
    ensures ModeOf(r) == EmptyMode <==> !loading && empty
    ensures ModeOf(r) == PopulatedMode <==> !loading && !empty
    ensures r.SkeletonShell? ==>
      (|r.grid| == SkeletonRows && forall k :: 0 <= k < |r.grid| ==> r.grid[k] == SkeletonCells)
    ensures r.EmptyShell? ==>
      r.message == (if emptyMessage.Some? then emptyMessage.value else DefaultEmptyMessage)
    ensures r.PopulatedShell? ==> r.content == children
    ensures r.EmptyShell? || r.PopulatedShell? ==> r.header == ShellHeader(title, actions)
  {
    if loading then SkeletonShell(seq(SkeletonRows, _ => SkeletonCells))
    else if empty then
      EmptyShell(ShellHeader(title, actions),
                 if emptyMessage.Some? then emptyMessage.value else DefaultEmptyMessage)
    else PopulatedShell(ShellHeader(title, actions), children)
  }

  /** While loading, the shell shows the same skeleton whatever else it is
      given: children, title, actions, the empty flag and its message are
      all ignored. */
  lemma LoadingIgnoresContent<A, C>(e1: bool, m1: Option<string>, t1: Option<string>, a1: Option<A>, c1: C,
                                    e2: bool, m2: Option<string>, t2: Option<string>, a2: Option<A>, c2: C)
    ensures RenderShell(true, e1, m1, t1, a1, c1) == RenderShell(true, e2, m2, t2, a2, c2)
  {
  }

  // =====================================================================
  // ModernPagination: the page window
  // =====================================================================

  /** One button of the page list: a page number or the `'...'` marker. */
  datatype PageItem = Page(number: int) | Ellipsis

  const MaxVisiblePages: int := 5

  function Max(a: int, b: int): int { if a >= b then a else b }
  function Min(a: int, b: int): int { if a <= b then a else b }

  /** `startPage` and `endPage` of `generatePageNumbers`: a window of
      `MaxVisiblePages` centred on the current page, clipped at the last
      page and shifted back when clipping made it short. */
  function Window(currentPage: int, totalPages: int): (int, int)
  {
    var halfVisible := MaxVisiblePages / 2;
    var startPage := Max(1, currentPage - halfVisible);
    var endPage := Min(totalPages, startPage + MaxVisiblePages - 1);
    if endPage - startPage < MaxVisiblePages - 1
    then (Max(1, endPage - MaxVisiblePages + 1), endPage)
    else (startPage, endPage)
  }

  /** The pages `lo..hi`, empty when `hi < lo`. */
  function Run(lo: int, hi: int): (r: seq<PageItem>)
    ensures |r| == if hi >= lo then hi - lo + 1 else 0
    ensures forall k :: 0 <= k < |r| ==> r[k] == Page(lo + k)
  {
    seq(if hi >= lo then hi - lo + 1 else 0, k => Page(lo + k))
  }

  /** Page 1, and a marker when page 2 is skipped, before a window that does
      not start at page 1. */
  function Leading(startPage: int): seq<PageItem>
  {
    if startPage > 1 then [Page(1)] + (if startPage > 2 then [Ellipsis] else []) else []
  }

  /** A marker when the page before the last is skipped, and the last page,
      after a window that does not reach the last page. */
  function Trailing(endPage: int, totalPages: int): seq<PageItem>
  {
    if endPage < totalPages
    then (if endPage < totalPages - 1 then [Ellipsis] else []) + [Page(totalPages)]
    else []
  }

  /** The list `generatePageNumbers` returns. */
  function PageNumbers(currentPage: int, totalPages: int): seq<PageItem>
  {
    var (startPage, endPage) := Window(currentPage, totalPages);
    Leading(startPage) + Run(startPage, endPage) + Trailing(endPage, totalPages)
  }

  /** A run one page longer ends with that page. */
  lemma RunSnoc(lo: int, hi: int)
    requires lo <= hi
    ensures Run(lo, hi) == Run(lo, hi - 1) + [Page(hi)]
  {
    assert |Run(lo, hi)| == |Run(lo, hi - 1) + [Page(hi)]|;
  }

  /** `generatePageNumbers`, step by step as the component builds its array. */
  method GeneratePageNumbers(currentPage: int, totalPages: int) returns (pages: seq<PageItem>)
    ensures pages == PageNumbers(currentPage, totalPages)
  {
    pages := [];
    var halfVisible := MaxVisiblePages / 2;
    var startPage := Max(1, currentPage - halfVisible);
    var endPage := Min(totalPages, startPage + MaxVisiblePages - 1);
    if endPage - startPage < MaxVisiblePages - 1 {
      startPage := Max(1, endPage - MaxVisiblePages + 1);
    }
    assert (startPage, endPage) == Window(currentPage, totalPages);
    if startPage > 1 {
      pages := pages + [Page(1)];
      if startPage > 2 {
        pages := pages + [Ellipsis];
      }
    }
    assert pages == Leading(startPage);
    var i := startPage;
    while i <= endPage
      invariant startPage <= i <= Max(startPage, endPage + 1)
      invariant pages == Leading(startPage) + Run(startPage, i - 1)
    {
      RunSnoc(startPage, i);
      pages := pages + [Page(i)];
      i := i + 1;
    }
    assert Run(startPage, i - 1) == Run(startPage, endPage);
    ghost var body := pages;
    if endPage < totalPages {
      if endPage < totalPages - 1 {
        pages := pages + [Ellipsis];
      }
      pages := pages + [Page(totalPages)];
    }
    assert pages == body + Trailing(endPage, totalPages);
  }

  /** With at least one page, the window lies inside `1..totalPages`, holds
      `min(5, totalPages)` pages, and contains the current page whenever
      that page exists. */
  lemma WindowFacts(currentPage: int, totalPages: int)
    requires totalPages >= 1
    ensures var (startPage, endPage) := Window(currentPage, totalPages);
      && 1 <= startPage <= endPage <= totalPages
      && endPage - startPage + 1 == Min(MaxVisiblePages, totalPages)
      && (1 <= currentPage <= totalPages ==> startPage <= currentPage <= endPage)
  {
  }

  /** Without pages there are no page buttons. */
  lemma NoPagesNoButtons(currentPage: int, totalPages: int)
    requires totalPages <= 0
    ensures PageNumbers(currentPage, totalPages) == []
  {
  }

  /** Up to five pages are all shown, in order, with no marker. */
  lemma FewPagesAllShown(currentPage: int, totalPages: int)
    requires 1 <= totalPages <= MaxVisiblePages
    ensures PageNumbers(currentPage, totalPages) == Run(1, totalPages)
    ensures Ellipsis !in PageNumbers(currentPage, totalPages)
  {
    var (startPage, endPage) := Window(currentPage, totalPages);
    assert startPage == 1 && endPage == totalPages;
    assert Leading(startPage) == [] && Trailing(endPage, totalPages) == [];
    assert PageNumbers(currentPage, totalPages) == Run(1, totalPages);
  }

  /** Every page number shown lies in `1..totalPages`. */
  ghost predicate NumbersInRange(p: seq<PageItem>, totalPages: int)
  {
    forall k :: 0 <= k < |p| && p[k].Page? ==> 1 <= p[k].number <= totalPages
  }

  /** Page numbers strictly increase from left to right. */
  ghost predicate NumbersAscending(p: seq<PageItem>)
  {
    forall i, j :: 0 <= i < j < |p| && p[i].Page? && p[j].Page? ==> p[i].number < p[j].number
  }

  /** A marker is never first or last; it sits between two page numbers and
      stands for at least one hidden page. */
  ghost predicate MarkersBetweenGaps(p: seq<PageItem>)
  {
    forall k :: 0 <= k < |p| && p[k].Ellipsis? ==>
      0 < k < |p| - 1 && p[k - 1].Page? && p[k + 1].Page? && p[k + 1].number - p[k - 1].number >= 2
  }

  /** Two page numbers side by side are consecutive: no page is skipped
      without a marker. */
  ghost predicate NoUnmarkedGap(p: seq<PageItem>)
  {
    forall k :: 0 <= k < |p| - 1 && p[k].Page? && p[k + 1].Page? ==> p[k + 1].number == p[k].number + 1
  }

  /** The page number at each position, by the part of the list it is in. */
  lemma PageNumbersAt(currentPage: int, totalPages: int, k: int)
    requires totalPages >= 1
    requires 0 <= k < |PageNumbers(currentPage, totalPages)|
    ensures var (startPage, endPage) := Window(currentPage, totalPages);
      var p := PageNumbers(currentPage, totalPages);
      var lead := |Leading(startPage)|;
      var window := endPage - startPage + 1;
      && |p| == lead + window + |Trailing(endPage, totalPages)|
      && (k < lead ==> (p[k] == if k == 0 then Page(1) else Ellipsis) && startPage > k + 1)
      && (lead <= k < lead + window ==> p[k] == Page(startPage + k - lead))
      && (lead + window <= k ==>
            (p[k] == if k == |p| - 1 then Page(totalPages) else Ellipsis)
            && endPage < totalPages - (|p| - 1 - k))
  {
    WindowFacts(currentPage, totalPages);
  }

  /** Every page number shown lies in `1..totalPages`. */
  lemma PageNumbersInRange(currentPage: int, totalPages: int)
    ensures NumbersInRange(PageNumbers(currentPage, totalPages), totalPages)
  {
    var p := PageNumbers(currentPage, totalPages);
    if totalPages >= 1 {
      forall k | 0 <= k < |p| && p[k].Page? ensures 1 <= p[k].number <= totalPages {
        PageNumbersAt(currentPage, totalPages, k);
        WindowFacts(currentPage, totalPages);
      }
    }
  }

  /** Page numbers strictly increase from left to right. */
  lemma PageNumbersAscending(currentPage: int, totalPages: int)
    ensures NumbersAscending(PageNumbers(currentPage, totalPages))
  {
    var p := PageNumbers(currentPage, totalPages);
    if totalPages >= 1 {
      forall i, j | 0 <= i < j < |p| && p[i].Page? && p[j].Page? ensures p[i].number < p[j].number {
        WindowFacts(currentPage, totalPages);
        PageNumbersAt(currentPage, totalPages, i);
        PageNumbersAt(currentPage, totalPages, j);
      }
    }
  }

  /** Markers sit only between two numbers that leave at least one page out. */
  lemma PageNumbersMarkGaps(currentPage: int, totalPages: int)
    ensures MarkersBetweenGaps(PageNumbers(currentPage, totalPages))
  {
    var p := PageNumbers(currentPage, totalPages);
    if totalPages >= 1 {
      forall k | 0 <= k < |p| && p[k].Ellipsis?
        ensures 0 < k < |p| - 1 && p[k - 1].Page? && p[k + 1].Page? && p[k + 1].number - p[k - 1].number >= 2
      {
        WindowFacts(currentPage, totalPages);
        PageNumbersAt(currentPage, totalPages, k);
        PageNumbersAt(currentPage, totalPages, k - 1);
        PageNumbersAt(currentPage, totalPages, k + 1);
      }
    }
  }

  /** Two numbers side by side are consecutive pages. */
  lemma PageNumbersNoUnmarkedGap(currentPage: int, totalPages: int)
    ensures NoUnmarkedGap(PageNumbers(currentPage, totalPages))
  {
    var p := PageNumbers(currentPage, totalPages);
    if totalPages >= 1 {
      forall k | 0 <= k < |p| - 1 && p[k].Page? && p[k + 1].Page? ensures p[k + 1].number == p[k].number + 1 {
        WindowFacts(currentPage, totalPages);
        PageNumbersAt(currentPage, totalPages, k);
        PageNumbersAt(currentPage, totalPages, k + 1);
      }
    }
  }

  /** With at least one page, page 1 comes first and the last page last, and
      the current page, when it exists, is among the buttons. */
  lemma PageNumbersPinned(currentPage: int, totalPages: int)
    requires totalPages >= 1
    ensures var p := PageNumbers(currentPage, totalPages);
      && |p| > 0 && p[0] == Page(1) && p[|p| - 1] == Page(totalPages)
      && (1 <= currentPage <= totalPages ==> Page(currentPage) in p)
  {
    var p := PageNumbers(currentPage, totalPages);
    WindowFacts(currentPage, totalPages);
    var (startPage, endPage) := Window(currentPage, totalPages);
    var lead := |Leading(startPage)|;
    PageNumbersAt(currentPage, totalPages, 0);
    PageNumbersAt(currentPage, totalPages, |p| - 1);
    if 1 <= currentPage <= totalPages {
      PageNumbersAt(currentPage, totalPages, lead + currentPage - startPage);
    }
  }

  /** A leading marker appears exactly when the window starts after page 2,
      and a trailing one exactly when it ends before the page before last. */
  lemma MarkerPlacement(currentPage: int, totalPages: int)
    requires totalPages >= 1
    ensures var (startPage, endPage) := Window(currentPage, totalPages);
      var p := PageNumbers(currentPage, totalPages);
      && ((|p| > 1 && p[1] == Ellipsis) <==> startPage > 2)
      && ((|p| > 1 && p[|p| - 2] == Ellipsis) <==> endPage < totalPages - 1)
  {
    var p := PageNumbers(currentPage, totalPages);
    WindowFacts(currentPage, totalPages);
    if |p| > 1 {
      PageNumbersAt(currentPage, totalPages, 1);
      PageNumbersAt(currentPage, totalPages, |p| - 2);
    }
  }

  /** Twenty pages with page 10 current: `1 … 8 9 10 11 12 … 20`. */
  lemma TwentyPagesAtTen()
    ensures PageNumbers(10, 20) ==
      [Page(1), Ellipsis, Page(8), Page(9), Page(10), Page(11), Page(12), Ellipsis, Page(20)]
  {
    assert Run(8, 12) == [Page(8), Page(9), Page(10), Page(11), Page(12)];
  }

  // =====================================================================
  // ModernPagination: item range and buttons
  // =====================================================================

  /** The first item number of the "showing X - Y of N" line. */
  function StartItem(currentPage: int, itemsPerPage: int): int
  {
    (currentPage - 1) * itemsPerPage + 1
  }

  /** The last item number of the "showing X - Y of N" line. */
  function EndItem(currentPage: int, itemsPerPage: int, totalItems: int): int
  {
    Min(currentPage * itemsPerPage, totalItems)
  }

  /** The range never passes the total and never spans more than a page. */
  lemma ItemRangeBounds(currentPage: int, itemsPerPage: int, totalItems: int)
    ensures EndItem(currentPage, itemsPerPage, totalItems) <= totalItems
    ensures EndItem(currentPage, itemsPerPage, totalItems) - StartItem(currentPage, itemsPerPage) + 1 <= itemsPerPage
  {
    assert (currentPage - 1) * itemsPerPage == currentPage * itemsPerPage - itemsPerPage;
  }

  /** With no items the range reads backwards: it starts past where it ends
      (on the first page, "1 - 0"). */
  lemma EmptyItemRange(currentPage: int, itemsPerPage: int)
    requires currentPage >= 1 && itemsPerPage >= 1
    ensures StartItem(currentPage, itemsPerPage) >= 1 > 0 == EndItem(currentPage, itemsPerPage, 0)
    ensures currentPage == 1 ==> StartItem(currentPage, itemsPerPage) == 1
  {
    assert (currentPage - 1) * itemsPerPage >= 0;
    assert currentPage * itemsPerPage >= 0;
  }

  /** On a page that holds items, the range counts exactly the items on it:
      a full page, or what is left of the total on the last page. */
  lemma ItemRangeCount(currentPage: int, itemsPerPage: int, totalItems: int)
    requires currentPage >= 1 && itemsPerPage >= 1
    requires (currentPage - 1) * itemsPerPage < totalItems
    ensures EndItem(currentPage, itemsPerPage, totalItems) - StartItem(currentPage, itemsPerPage) + 1
      == Min(itemsPerPage, totalItems - (currentPage - 1) * itemsPerPage)
  {
    assert (currentPage - 1) * itemsPerPage == currentPage * itemsPerPage - itemsPerPage;
  }

  /** The page the "previous" button asks for, if its click does anything. */
  function PrevRequest(currentPage: int): Option<int>
  {
    if currentPage > 1 then Some(currentPage - 1) else None
  }

  /** The `disabled` attribute of the "previous" button. */
  predicate PrevDisabled(currentPage: int)
  {
    currentPage == 1
  }

  /** The page the "next" button asks for, if its click does anything. */
  function NextRequest(currentPage: int, totalPages: int): Option<int>
  {
    if currentPage < totalPages then Some(currentPage + 1) else None
  }

  /** The `disabled` attribute of the "next" button. */
  predicate NextDisabled(currentPage: int, totalPages: int)
  {
    currentPage == totalPages
  }

  /** The page a page-list button asks for: only numbers fire. */
  function ItemRequest(item: PageItem): Option<int>
  {
    match item
    case Page(n) => Some(n)
    case Ellipsis => None
  }

  /** The `disabled` attribute of a page-list button. */
  predicate ItemDisabled(item: PageItem)
  {
    item == Ellipsis
  }

  /** A disabled button never requests a page. While the current page lies
      in `1..totalPages`, a button is disabled exactly when it would request
      nothing, and every request stays in `1..totalPages`. */
  lemma BoundaryGuards(currentPage: int, totalPages: int)
    ensures PrevDisabled(currentPage) ==> PrevRequest(currentPage).None?
    ensures NextDisabled(currentPage, totalPages) ==> NextRequest(currentPage, totalPages).None?
    ensures 1 <= currentPage <= totalPages ==>
      && (PrevDisabled(currentPage) <==> PrevRequest(currentPage).None?)
      && (NextDisabled(currentPage, totalPages) <==> NextRequest(currentPage, totalPages).None?)
      && (PrevRequest(currentPage).Some? ==> 1 <= PrevRequest(currentPage).value <= totalPages)
      && (NextRequest(currentPage, totalPages).Some? ==> 1 <= NextRequest(currentPage, totalPages).value <= totalPages)
  {
  }

  /** Every button of the generated page list is disabled exactly when it is
      a marker, and the enabled ones request a page in `1..totalPages`. */
  lemma PageButtonsRequestExistingPages(currentPage: int, totalPages: int, k: int)
    requires 0 <= k < |PageNumbers(currentPage, totalPages)|
    ensures var item := PageNumbers(currentPage, totalPages)[k];
      && (ItemDisabled(item) <==> ItemRequest(item).None?)
      && (ItemRequest(item).Some? ==> 1 <= ItemRequest(item).value <= totalPages)
  {
    PageNumbersInRange(currentPage, totalPages);
  }
}
