/** The post table of `ModernPostTable.jsx`: the filter fields and the
    queries that search and reset send, the `isApply` flag that enables the
    two buttons, the per-row "show more" map, description truncation and
    the CSV export. The component's state variables become the fields of
    class `ModernPostTable`; REST calls become the queries they would send
    and the outcomes they deliver. */
module PostTable {
  import opened Wrappers
  import opened JsStrings
  import opened CsvFields
  import opened ModernTable

  /** A post row as the post API returns it; missing fields are `None`. */
  datatype Post = Post(
    id: int, title: Option<string>, phone: Option<string>, description: Option<string>,
    address: Option<string>, area: Option<int>, categorylist: Option<seq<string>>,
    formattedDatecreated: Option<string>, formattedDateapprove: Option<string>,
    price: Option<int>, status: Option<string>, isHire: Option<string>, authorname: Option<string>)

  /** The arguments of one `loadData` / `getPostData` call, in their order. */
  datatype PostQuery = PostQuery(
    hireState: Option<string>, statusState: string,
    minPrice: Option<int>, maxPrice: Option<int>, minArea: Option<int>, maxArea: Option<int>,
    category: Option<string>, isVip: Option<bool>,
    phoneNumb: Option<string>, address: Option<string>,
    sortby: string, isAscending: Option<bool>, page: int, pageSize: int)

  const ByAddress: string := "Theo Địa Chỉ"
  const ByPhone: string := "Theo Số Điện Thoại"
  /** The default status filter: posts waiting for approval. */
  const PendingStatus: string := "Đang Chờ Duyệt"

  // =====================================================================
  // Search and reset
  // =====================================================================

  /** The phone and address filters `handleSearch` sends: the search text
      goes to the address for an address search, to the phone for a phone
      search, and nowhere for any other search type. */
  function SearchTextFilters(typeSearch: Option<string>, searchValue: string): (Option<string>, Option<string>)
  {
    if typeSearch == Some(ByAddress) then (None, Some(searchValue))
    else if typeSearch == Some(ByPhone) then (Some(searchValue), None)
    else (None, None)
  }

  /** The query `handleSearch` sends, from the query the current state
      describes: page 1 and the search text filters, all else unchanged. */
  function SearchQuery(current: PostQuery, typeSearch: Option<string>, searchValue: string): PostQuery
  {
    var (phone, address) := SearchTextFilters(typeSearch, searchValue);
    current.(phoneNumb := phone, address := address, page := 1)
  }

  /** The query `handleReset` sends: the default filters at page 1, keeping
      price, area, category, VIP and sort parameters. */
  function ResetQuery(current: PostQuery): PostQuery
  {
    current.(hireState := None, statusState := PendingStatus, phoneNumb := None, address := None, page := 1)
  }

  /** A search sends at most one of phone and address, carrying the search
      text, chosen by the search type; it asks for page 1 and keeps every
      other filter of the state. */
  lemma SearchQuerySpec(current: PostQuery, typeSearch: Option<string>, searchValue: string)
    ensures var q := SearchQuery(current, typeSearch, searchValue);
      && q.page == 1
      && (q.address.Some? <==> typeSearch == Some(ByAddress))
      && (q.phoneNumb.Some? <==> typeSearch == Some(ByPhone))
      && (q.address.Some? ==> q.address.value == searchValue)
      && (q.phoneNumb.Some? ==> q.phoneNumb.value == searchValue)
      && !(q.address.Some? && q.phoneNumb.Some?)
      && q.(phoneNumb := current.phoneNumb, address := current.address, page := current.page) == current
  {
    assert ByAddress != ByPhone by { assert ByAddress[5] != ByPhone[5]; }
  }

  /** A reset sends the documented defaults whatever the filters were, keeps
      the filters it does not reset, and resetting again sends the same. */
  lemma ResetQuerySpec(current: PostQuery, other: PostQuery)
    ensures var q := ResetQuery(current);
      && q.hireState.None? && q.statusState == PendingStatus
      && q.phoneNumb.None? && q.address.None? && q.page == 1
      && q.minPrice == current.minPrice && q.maxPrice == current.maxPrice
      && q.minArea == current.minArea && q.maxArea == current.maxArea
      && q.category == current.category && q.isVip == current.isVip
      && q.sortby == current.sortby && q.isAscending == current.isAscending
      && q.pageSize == current.pageSize
      && ResetQuery(q) == q
    ensures ResetQuery(current).(minPrice := other.minPrice, maxPrice := other.maxPrice,
                                 minArea := other.minArea, maxArea := other.maxArea,
                                 category := other.category, isVip := other.isVip,
                                 sortby := other.sortby, isAscending := other.isAscending,
                                 pageSize := other.pageSize) == ResetQuery(other)
  {
  }

  /** The query the state describes after `handleSearch`: page 1, and an
      address search clears the stored phone filter, a phone search the
      stored address filter. The search text itself is not stored. */
  function StateAfterSearch(current: PostQuery, typeSearch: Option<string>, searchValue: string): PostQuery
  {
    if typeSearch == Some(ByAddress) then current.(phoneNumb := None, page := 1)
    else if typeSearch == Some(ByPhone) then current.(address := None, page := 1)
    else current.(page := 1)
  }

  /** The state after a search describes the query the search sent only when
      the stored filter already held the search text: any later reload from
      the state (the page effect, a page change, closing a dialog) drops a
      new search text. */
  lemma SearchTextNotStored(current: PostQuery, typeSearch: Option<string>, searchValue: string)
    ensures var after := StateAfterSearch(current, typeSearch, searchValue);
      var sent := SearchQuery(current, typeSearch, searchValue);
      && (typeSearch == Some(ByAddress) ==> (after == sent <==> current.address == Some(searchValue)))
      && (typeSearch == Some(ByPhone) ==> (after == sent <==> current.phoneNumb == Some(searchValue)))
      && (typeSearch != Some(ByAddress) && typeSearch != Some(ByPhone) ==>
            (after == sent <==> current.phoneNumb.None? && current.address.None?))
    ensures StateAfterSearch(current, typeSearch, searchValue).page == 1
  {
    assert ByAddress != ByPhone by { assert ByAddress[5] != ByPhone[5]; }
  }

  /** An approved post is shown with the success badge. */
  lemma ApprovedPostBadge()
    ensures BadgeVariant(Some("Đã Duyệt")) == Success
  {
    assert ToLower("Đã Duyệt") == "đã duyệt";
  }

  /** A post waiting for approval, the default filter, is not listed by the
      classifier and gets the default badge. */
  lemma PendingPostBadge()
    ensures BadgeVariant(Some(PendingStatus)) == Secondary
  {
    assert ToLower(PendingStatus) == "đang chờ duyệt";
  }

  // =====================================================================
  // Show more / description
  // =====================================================================

  /** `showMoreStates[rowId]` as a condition: an absent key is `undefined`,
      which is falsy. */
  predicate Expanded(states: map<int, bool>, rowId: int)
  {
    rowId in states && states[rowId]
  }

  /** The updater of `toggleShowMore`: `{...prev, [rowId]: !prev[rowId]}`. */
  function ToggleEntry(states: map<int, bool>, rowId: int): map<int, bool>
  {
    states[rowId := !Expanded(states, rowId)]
  }

  /** Toggling flips the row's expansion and leaves every other entry as it
      was; toggling twice restores every row's expansion. */
  lemma ToggleEntrySpec(states: map<int, bool>, rowId: int)
    ensures Expanded(ToggleEntry(states, rowId), rowId) <==> !Expanded(states, rowId)
    ensures ToggleEntry(states, rowId).Keys == states.Keys + {rowId}
    ensures forall k :: k in states && k != rowId ==> ToggleEntry(states, rowId)[k] == states[k]
    ensures forall k :: Expanded(ToggleEntry(ToggleEntry(states, rowId), rowId), k) <==> Expanded(states, k)
  {
  }

  const CharacterLimit: nat := 100

  /** What `renderDescription` shows: nothing, the text as it is, or a text
      with a "show more"/"show less" button. */
  datatype DescriptionView = NoDescription | Plain(text: string) | Collapsible(text: string, buttonLabel: string)

  /** `renderDescription(content, rowId)`, with `expanded` the truthiness of
      the row's `showMoreStates` entry. */
  function RenderDescription(content: Option<string>, expanded: bool): DescriptionView
  {
    if content.None? || content.value == "" then NoDescription
    else if |content.value| > CharacterLimit then
      Collapsible(if expanded then content.value else content.value[..CharacterLimit] + "...",
                  if expanded then "Thu gọn" else "Xem thêm")
    else Plain(content.value)
  }

  /** The text a description view shows. */
  function ShownText(view: DescriptionView): string
  {
    match view
    case NoDescription => ""
    case Plain(text) => text
    case Collapsible(text, _) => text
  }

  /** A description is shown in full unless it is longer than the limit and
      not expanded; then its first 100 characters and "..." are shown, so
      the shown text is 103 characters long and loses only the tail. The
      button appears exactly for long descriptions, offering to collapse
      an expanded one and to expand a collapsed one. */
  lemma RenderDescriptionSpec(content: Option<string>, expanded: bool)
    ensures var v := RenderDescription(content, expanded);
      && (content.None? ==> ShownText(v) == "")
      && (content.Some? && (expanded || |content.value| <= CharacterLimit) ==> ShownText(v) == content.value)
      && (content.Some? && !expanded && |content.value| > CharacterLimit ==>
            && |ShownText(v)| == CharacterLimit + 3
            && ShownText(v) == content.value[..CharacterLimit] + "..."
            && ShownText(v)[..CharacterLimit] <= content.value
            && content.value == ShownText(v)[..CharacterLimit] + content.value[CharacterLimit..])
      && (v.Collapsible? <==> content.Some? && |content.value| > CharacterLimit)
      && (v.Collapsible? ==> v.buttonLabel == (if expanded then "Thu gọn" else "Xem thêm"))
  {
  }

  // =====================================================================
  // CSV export
  // =====================================================================

  /** The exception a call can throw. */
  datatype JsError = TypeError

  /** Calling a string method by name, with the `(/"/g, '""')` arguments:
      `replace` doubles the quotes; any other name (the export only ever
      passes `place` or `replace`) throws a `TypeError`. */
  function CallStringMethod(name: string, receiver: string): Result<string, JsError>
  {
    if name == "replace" then Ok(DoubleQuotes(receiver))
    else Err(TypeError)
  }

  const PostCsvHeaderFields: seq<string> := [
    "ID", "Tiêu Đề", "SĐT", "Mô Tả", "Địa Chỉ", "Diện Tích",
    "Danh Mục", "Ngày Tạo", "Ngày Duyệt", "Giá", "Trạng Thái Duyệt",
    "Trạng Thái Thuê", "Chủ Trọ"]

  /** One exported row; `titleMethod` is the method the title field calls
      (`place` as written, `replace` as intended). */
  function PostRowLine(row: Post, titleMethod: string): Result<string, JsError>
  {
    match CallStringMethod(titleMethod, "\"" + OrEmpty(row.title) + "\"")
    case Err(e) => Err(e)
    case Ok(title) =>
      Ok(Join([NumberToString(row.id),
               title,
               OrEmpty(row.phone),
               DoubleQuotes("\"" + OrEmpty(row.description) + "\""),
               DoubleQuotes("\"" + OrEmpty(row.address) + "\""),
               NumberOrEmpty(row.area),
               "\"" + (if row.categorylist.Some? then Join(row.categorylist.value, ", ") else "") + "\"",
               OrEmpty(row.formattedDatecreated),
               OrDefault(row.formattedDateapprove, "Chưa có ngày duyệt"),
               NumberOrEmpty(row.price),
               OrEmpty(row.status),
               OrEmpty(row.isHire),
               OrEmpty(row.authorname)], ","))
  }

  /** `data.forEach` pushing one line per element, left to right: the first
      element whose line throws ends the loop with its error. */
  function CollectLines<T>(rows: seq<T>, line: T -> Result<string, JsError>): Result<seq<string>, JsError>
  {
    if rows == [] then Ok([])
    else
      match line(rows[0])
      case Err(e) => Err(e)
      case Ok(first) =>
        match CollectLines(rows[1..], line)
        case Err(e) => Err(e)
        case Ok(rest) => Ok([first] + rest)
  }

  lemma {:induction false} CollectLinesSnoc<T>(rows: seq<T>, row: T, line: T -> Result<string, JsError>)
    ensures CollectLines(rows + [row], line) ==
      match CollectLines(rows, line)
      case Err(e) => Err(e)
      case Ok(lines) =>
        match line(row)
        case Err(e) => Err(e)
        case Ok(last) => Ok(lines + [last])
  {
    if rows == [] {
      assert rows + [row] == [row];
      assert [row][1..] == [];
      match line(row) {
        case Err(e) =>
        case Ok(last) =>
          assert [last] + [] == [] + [last];
      }
    } else {
      assert (rows + [row])[1..] == rows[1..] + [row];
      CollectLinesSnoc(rows[1..], row, line);
      assert (rows + [row])[0] == rows[0];
      match line(rows[0]) {
        case Err(e) =>
        case Ok(first) =>
          match CollectLines(rows[1..], line) {
            case Err(e) =>
            case Ok(rest) =>
              match line(row) {
                case Err(e) =>
                case Ok(last) =>
                  assert [first] + (rest + [last]) == ([first] + rest) + [last];
              }
          }
      }
    }
  }

  lemma {:induction false} CollectLinesErrSticks<T>(rows: seq<T>, more: seq<T>, line: T -> Result<string, JsError>)
    requires CollectLines(rows, line).Err?
    ensures CollectLines(rows + more, line) == CollectLines(rows, line)
  {
    assert rows != [];
    assert (rows + more)[0] == rows[0];
    if line(rows[0]).Ok? {
      assert (rows + more)[1..] == rows[1..] + more;
      CollectLinesErrSticks(rows[1..], more, line);
    }
  }

  /** The title method fixed, as the `forEach` callback sees it. */
  function RowLineWith(titleMethod: string): Post -> Result<string, JsError>
  {
    row => PostRowLine(row, titleMethod)
  }

  /** The row lines of `data.forEach`, left to right; the first row that
      throws ends the export with its error. */
  function PostCsvRows(rows: seq<Post>, titleMethod: string): Result<seq<string>, JsError>
  {
    CollectLines(rows, RowLineWith(titleMethod))
  }

  /** The exported text: the header and the row lines, joined by newlines. */
  function PostCsvWith(rows: seq<Post>, titleMethod: string): Result<string, JsError>
  {
    match PostCsvRows(rows, titleMethod)
    case Err(e) => Err(e)
    case Ok(lines) => Ok(Join([Join(PostCsvHeaderFields, ",")] + lines, "\n"))
  }

  /** `exportToCsv` as written: the title field calls `.place`. */
  function PostCsv(rows: seq<Post>): Result<string, JsError>
  {
    PostCsvWith(rows, "place")
  }

  /** `exportToCsv` with the title field calling `.replace` as the other
      text fields do. */
  function PostCsvIntended(rows: seq<Post>): Result<string, JsError>
  {
    PostCsvWith(rows, "replace")
  }

  lemma PostCsvRowsSnoc(rows: seq<Post>, row: Post, titleMethod: string)
    ensures PostCsvRows(rows + [row], titleMethod) ==
      match PostCsvRows(rows, titleMethod)
      case Err(e) => Err(e)
      case Ok(lines) =>
        match PostRowLine(row, titleMethod)
        case Err(e) => Err(e)
        case Ok(line) => Ok(lines + [line])
  {
    CollectLinesSnoc(rows, row, RowLineWith(titleMethod));
  }

  lemma PostCsvRowsErrSticks(rows: seq<Post>, more: seq<Post>, titleMethod: string)
    requires PostCsvRows(rows, titleMethod).Err?
    ensures PostCsvRows(rows + more, titleMethod) == PostCsvRows(rows, titleMethod)
  {
    CollectLinesErrSticks(rows, more, RowLineWith(titleMethod));
  }

  /** One step of the export loop: after the rows before `i` succeeded, a
      failing row `i` is the error of the whole export, and a succeeding
      one extends the lines by its own. */
  lemma PostCsvRowsStep(rows: seq<Post>, i: nat, titleMethod: string)
    requires i < |rows| && PostCsvRows(rows[..i], titleMethod).Ok?
    ensures PostRowLine(rows[i], titleMethod).Err? ==>
      PostCsvRows(rows, titleMethod) == Err(PostRowLine(rows[i], titleMethod).error)
    ensures PostRowLine(rows[i], titleMethod).Ok? ==>
      PostCsvRows(rows[..i + 1], titleMethod) ==
        Ok(PostCsvRows(rows[..i], titleMethod).value + [PostRowLine(rows[i], titleMethod).value])
  {
    PostCsvRowsSnoc(rows[..i], rows[i], titleMethod);
    assert rows[..i + 1] == rows[..i] + [rows[i]];
    if PostRowLine(rows[i], titleMethod).Err? {
      PostCsvRowsErrSticks(rows[..i + 1], rows[i + 1..], titleMethod);
      assert rows[..i + 1] + rows[i + 1..] == rows;
    }
  }

  /** With no posts the export is the 13-column header alone. */
  lemma PostCsvNoRows()
    ensures PostCsv([]) == Ok(Join(PostCsvHeaderFields, ","))
    ensures |PostCsvHeaderFields| == 13
  {
  }

  /** As written, the export throws at the title of the first post, whatever
      the posts are: strings have no `place` method. */
  lemma PostCsvThrowsOnAnyRow(rows: seq<Post>)
    requires |rows| > 0
    ensures PostCsv(rows) == Err(TypeError)
  {
    assert "place" != "replace";
  }

  /** With `.replace`, the export succeeds on every list of posts and holds
      the header followed by one line per post, in order. */
  lemma {:induction false} PostCsvIntendedRows(rows: seq<Post>)
    ensures PostCsvRows(rows, "replace").Ok?
    ensures |PostCsvRows(rows, "replace").value| == |rows|
    ensures forall k :: 0 <= k < |rows| ==>
      PostRowLine(rows[k], "replace").Ok? &&
      PostCsvRows(rows, "replace").value[k] == PostRowLine(rows[k], "replace").value
  {
    if rows != [] {
      PostCsvIntendedRows(rows[1..]);
      var rest := PostCsvRows(rows[1..], "replace").value;
      forall k | 0 <= k < |rows|
        ensures PostRowLine(rows[k], "replace").Ok? &&
          PostCsvRows(rows, "replace").value[k] == PostRowLine(rows[k], "replace").value
      {
        if k > 0 {
          assert rows[k] == rows[1..][k - 1];
        }
      }
    }
  }

  /** The corrected export gives the header and one line per post. */
  lemma PostCsvIntendedSucceeds(rows: seq<Post>)
    ensures PostCsvIntended(rows).Ok?
    ensures PostCsvIntended(rows) ==
      Ok(Join([Join(PostCsvHeaderFields, ",")] + PostCsvRows(rows, "replace").value, "\n"))
    ensures |PostCsvRows(rows, "replace").value| == |rows|
  {
    PostCsvIntendedRows(rows);
  }

  // =====================================================================
  // The component
  // =====================================================================

  const PostTitle: string := "Quản lý bài đăng"
  const PostEmptyMessage: string := "Không có bài đăng nào được tìm thấy"

  /** The body of a successful `getPostData` response. */
  datatype PostsPage = PostsPage(post: Option<seq<Post>>, total: Option<int>, totalPages: Option<int>)

  /** The toolbar passed as the table's actions: CSV button, search box,
      the three selects and the search and reset buttons. */
  datatype Toolbar = Toolbar(searchEnabled: bool, resetEnabled: bool)

  class ModernPostTable {
    var page: int
    var pageSize: int
    var data: seq<Post>
    var totalCount: int
    var totalPage: int
    var loading: bool
    var showMoreStates: map<int, bool>
    var sortby: string
    var isAscending: Option<bool>
    var hireState: Option<string>
    var statusState: string
    var minPrice: Option<int>
    var maxPrice: Option<int>
    var minArea: Option<int>
    var maxArea: Option<int>
    var category: Option<string>
    var isVip: Option<bool>
    var phoneNumb: Option<string>
    var address: Option<string>
    var typeSearch: Option<string>
    var searchValue: string
    var isApply: bool

    /** The initial state of the component. */
    constructor ()
      ensures page == 1 && pageSize == 10 && data == [] && totalCount == 0 && totalPage == 0 && loading
      ensures showMoreStates == map[] && sortby == "dateCreated" && isAscending.None?
      ensures hireState.None? && statusState == PendingStatus
      ensures minPrice.None? && maxPrice.None? && minArea.None? && maxArea.None?
      ensures category.None? && isVip.None? && phoneNumb.None? && address.None?
      ensures typeSearch.None? && searchValue == "" && !isApply
    {
      page := 1;
      pageSize := 10;
      data := [];
      totalCount := 0;
      totalPage := 0;
      loading := true;
      showMoreStates := map[];
      sortby := "dateCreated";
      isAscending := None;
      hireState := None;
      statusState := PendingStatus;
      minPrice := None;
      maxPrice := None;
      minArea := None;
      maxArea := None;
      category := None;
      isVip := None;
      phoneNumb := None;
      address := None;
      typeSearch := None;
      searchValue := "";
      isApply := false;
    }

    /** The query built from the state as it stands: what the page effect,
        a reload after a delete and the closing of a dialog send. */
    function CurrentQuery(): PostQuery
      reads this
    {
      PostQuery(hireState, statusState, minPrice, maxPrice, minArea, maxArea,
                category, isVip, phoneNumb, address, sortby, isAscending, page, pageSize)
    }

    /** `loadData` has started. */
    method StartLoading()
      modifies this`loading
      ensures loading
    {
      loading := true;
    }

    /** `loadData` has finished: on success the posts and counts are stored
        (missing parts default to empty and zero), on failure they stay as
        they were; loading ends either way. */
    method LoadFinished(response: Option<PostsPage>)
      modifies this`data, this`totalCount, this`totalPage, this`loading
      ensures !loading
      ensures response.None? ==>
        data == old(data) && totalCount == old(totalCount) && totalPage == old(totalPage)
      ensures response.Some? ==>
        && data == (if response.value.post.Some? then response.value.post.value else [])
        && totalCount == CountOrZero(response.value.total)
        && totalPage == CountOrZero(response.value.totalPages)
    {
      if response.Some? {
        data := if response.value.post.Some? then response.value.post.value else [];
        totalCount := CountOrZero(response.value.total);
        totalPage := CountOrZero(response.value.totalPages);
      }
      loading := false;
    }

    /** `handlePageChange`; the page effect then reloads from the state when
        the page actually changed. */
    method HandlePageChange(newPage: int) returns (reload: Option<PostQuery>)
      modifies this`page
      ensures page == newPage
      ensures reload == if newPage != old(page) then Some(CurrentQuery()) else None
    {
      var changed := newPage != page;
      page := newPage;
      reload := if changed then Some(CurrentQuery()) else None;
    }

    /** `toggleShowMore(rowId)`. */
    method ToggleShowMore(rowId: int)
      modifies this`showMoreStates
      ensures showMoreStates == ToggleEntry(old(showMoreStates), rowId)
    {
      showMoreStates := showMoreStates[rowId := !(rowId in showMoreStates && showMoreStates[rowId])];
    }

    /** The description cell of a row. */
    function Description(content: Option<string>, rowId: int): DescriptionView
      reads this
    {
      RenderDescription(content, Expanded(showMoreStates, rowId))
    }

    /** Typing in the search box marks the filters as edited. */
    method SetSearchValue(value: string)
      modifies this`searchValue, this`isApply
      ensures searchValue == value && isApply
    {
      searchValue := value;
      isApply := true;
    }

    /** Choosing a search type (the empty value is the "all" option). */
    method SetTypeSearch(value: string)
      modifies this`typeSearch, this`isApply
      ensures typeSearch == Some(value) && isApply
    {
      typeSearch := Some(value);
      isApply := true;
    }

    /** Choosing an approval status. */
    method SetStatusState(value: string)
      modifies this`statusState, this`isApply
      ensures statusState == value && isApply
    {
      statusState := value;
      isApply := true;
    }

    /** Choosing a hire state (the empty value is the "all" option). */
    method SetHireState(value: string)
      modifies this`hireState, this`isApply
      ensures hireState == Some(value) && isApply
    {
      hireState := Some(value);
      isApply := true;
    }

    /** `handleSearch`: send the search query and go to page 1; when the
        page was not 1, the page effect also reloads, from the state. The
        search text is not stored, and `isApply` stays as it was. */
    method HandleSearch() returns (q: PostQuery, effect: Option<PostQuery>)
      modifies this`phoneNumb, this`address, this`page
      ensures q == SearchQuery(old(CurrentQuery()), typeSearch, searchValue)
      ensures CurrentQuery() == StateAfterSearch(old(CurrentQuery()), typeSearch, searchValue)
      ensures effect == if old(page) != 1 then Some(CurrentQuery()) else None
    {
      var pageChanged := page != 1;
      if typeSearch == Some(ByAddress) {
        phoneNumb := None;
        q := PostQuery(hireState, statusState, minPrice, maxPrice, minArea, maxArea,
                       category, isVip, None, Some(searchValue), sortby, isAscending, 1, pageSize);
      } else if typeSearch == Some(ByPhone) {
        address := None;
        q := PostQuery(hireState, statusState, minPrice, maxPrice, minArea, maxArea,
                       category, isVip, Some(searchValue), None, sortby, isAscending, 1, pageSize);
      } else {
        q := PostQuery(hireState, statusState, minPrice, maxPrice, minArea, maxArea,
                       category, isVip, None, None, sortby, isAscending, 1, pageSize);
      }
      page := 1;
      effect := if pageChanged then Some(CurrentQuery()) else None;
    }

    /** `handleReset`: restore the default filters, clear the search, go to
        page 1 and send the reset query, which is the query the new state
        describes; when the page was not 1, the page effect sends it again. */
    method HandleReset() returns (q: PostQuery, effect: Option<PostQuery>)
      modifies this`address, this`phoneNumb, this`typeSearch, this`hireState, this`statusState,
               this`searchValue, this`isApply, this`page
      ensures q == ResetQuery(old(CurrentQuery()))
      ensures typeSearch.None? && searchValue == "" && !isApply
      ensures CurrentQuery() == q
      ensures effect == if old(page) != 1 then Some(q) else None
    {
      var pageChanged := page != 1;
      address := None;
      phoneNumb := None;
      typeSearch := None;
      hireState := None;
      statusState := PendingStatus;
      searchValue := "";
      isApply := false;
      page := 1;
      q := PostQuery(None, PendingStatus, minPrice, maxPrice, minArea, maxArea,
                     category, isVip, None, None, sortby, isAscending, 1, pageSize);
      effect := if pageChanged then Some(q) else None;
    }

    /** The search button: disabled, and so inert, until a filter is edited;
        enabled, it runs `handleSearch`. */
    method ClickSearch() returns (q: Option<PostQuery>, effect: Option<PostQuery>)
      modifies this`phoneNumb, this`address, this`page
      ensures !old(isApply) ==> q.None? && effect.None? && unchanged(this)
      ensures old(isApply) ==>
        && q == Some(SearchQuery(old(CurrentQuery()), typeSearch, searchValue))
        && CurrentQuery() == StateAfterSearch(old(CurrentQuery()), typeSearch, searchValue)
        && effect == (if old(page) != 1 then Some(CurrentQuery()) else None)
        && isApply
    {
      if isApply {
        var sent;
        sent, effect := HandleSearch();
        q := Some(sent);
      } else {
        q, effect := None, None;
      }
    }

    /** The reset button: disabled, and so inert, until a filter is edited;
        enabled, it runs `handleReset`, after which it is disabled again. */
    method ClickReset() returns (q: Option<PostQuery>, effect: Option<PostQuery>)
      modifies this`address, this`phoneNumb, this`typeSearch, this`hireState, this`statusState,
               this`searchValue, this`isApply, this`page
      ensures !old(isApply) ==> q.None? && effect.None? && unchanged(this)
      ensures old(isApply) ==>
        && q == Some(ResetQuery(old(CurrentQuery())))
        && CurrentQuery() == q.value
        && typeSearch.None? && searchValue == "" && !isApply
        && effect == (if old(page) != 1 then q else None)
    {
      if isApply {
        var sent;
        sent, effect := HandleReset();
        q := Some(sent);
      } else {
        q, effect := None, None;
      }
    }

    /** The export loop of `exportToCsv` up to the download, with the title
        field calling the string method `titleMethod`: rows are written left
        to right and the first row that throws ends the export. */
    method ExportRowsWith(titleMethod: string) returns (r: Result<string, JsError>)
      ensures r == PostCsvWith(data, titleMethod)
    {
      var lines: seq<string> := [];
      var i := 0;
      assert data[..0] == [];
      while i < |data|
        invariant 0 <= i <= |data|
        invariant PostCsvRows(data[..i], titleMethod) == Ok(lines)
      {
        var line := PostRowLine(data[i], titleMethod);
        PostCsvRowsStep(data, i, titleMethod);
        if line.Err? {
          return Err(line.error);
        }
        lines := lines + [line.value];
        i := i + 1;
      }
      assert data[..i] == data;
      r := Ok(Join([Join(PostCsvHeaderFields, ",")] + lines, "\n"));
    }

    /** `exportToCsv` as written (the title calls `.place`). */
    method ExportToCsv() returns (r: Result<string, JsError>)
      ensures r == PostCsv(data)
    {
      r := ExportRowsWith("place");
    }

    /** `exportToCsv` with the title calling `.replace`. */
    method ExportToCsvIntended() returns (r: Result<string, JsError>)
      ensures r == PostCsvIntended(data)
    {
      r := ExportRowsWith("replace");
    }

    /** The table the component renders: the loading shell while loading, the
        empty shell (with the toolbar) when no post was loaded, otherwise
        the posts. */
    function View(): (r: Shell<Toolbar, seq<Post>>)
      reads this
      ensures ModeOf(r) == (if loading then LoadingMode else if |data| == 0 then EmptyMode else PopulatedMode)
      ensures r.EmptyShell? ==>
        (r.message == PostEmptyMessage && r.header.Some? &&
         r.header.value.actions == Some(Toolbar(isApply, isApply)))
      ensures r.PopulatedShell? ==> r.content == data
    {
      if loading then RenderShell(true, false, None, Some(PostTitle), None, [])
      else if |data| == 0 then
        RenderShell(false, true, Some(PostEmptyMessage), Some(PostTitle), Some(Toolbar(isApply, isApply)), [])
      else RenderShell(false, false, None, Some(PostTitle), Some(Toolbar(isApply, isApply)), data)
    }
  }
}
