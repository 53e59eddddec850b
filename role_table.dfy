/** The user-role table of `ModernRoleTable.jsx`: the search filter over the
    loaded users, the checkbox selection, the guarded bulk role update, the
    role badge and the CSV export. The component's state variables become
    the fields of class `ModernRoleTable`; REST calls and notifications are
    replaced by the outcomes they deliver. */
module RoleTable {
  import opened Wrappers
  import opened JsStrings
  import opened CsvFields
  import opened ModernTable

  /** A user row as the user-role API returns it; missing fields are `None`. */
  datatype User = User(id: int, fullname: Option<string>, phone: Option<string>, rolename: Option<string>)

  // =====================================================================
  // Search filter
  // =====================================================================

  /** `field?.toLowerCase().includes(needle)`: a missing field never matches. */
  predicate FieldMatches(field: Option<string>, needle: string)
  {
    field.Some? && Includes(ToLower(field.value), needle)
  }

  /** The predicate passed to `data.filter`: full name, phone or role name
      contains the (lowered) search text. */
  predicate UserMatches(u: User, needle: string)
  {
    FieldMatches(u.fullname, needle) || FieldMatches(u.phone, needle) || FieldMatches(u.rolename, needle)
  }

  /** `a` is `b` with some elements left out, the rest in their order. */
  ghost predicate IsSubsequence<T>(a: seq<T>, b: seq<T>)
    decreases |b|
  {
    a == [] || (b != [] && ((a[0] == b[0] && IsSubsequence(a[1..], b[1..])) || IsSubsequence(a, b[1..])))
  }

  /** `users.filter(user => UserMatches(user, needle))`. */
  function FilterUsers(users: seq<User>, needle: string): (r: seq<User>)
    ensures |r| <= |users|
    ensures forall u :: u in r <==> u in users && UserMatches(u, needle)
    ensures IsSubsequence(r, users)
  {
    if users == [] then []
    else
      var rest := FilterUsers(users[1..], needle);
      if UserMatches(users[0], needle) then
        assert ([users[0]] + rest)[1..] == rest;
        [users[0]] + rest
      else rest
  }

  /** Filtering is done row by row: filtering two lists one after the other
      is filtering their concatenation. With the one-row case this fixes
      the result completely. */
  lemma {:induction false} FilterUsersAppend(a: seq<User>, b: seq<User>, needle: string)
    ensures FilterUsers(a + b, needle) == FilterUsers(a, needle) + FilterUsers(b, needle)
  {
    if a == [] {
      assert a + b == b;
    } else {
      assert (a + b)[1..] == a[1..] + b;
      FilterUsersAppend(a[1..], b, needle);
    }
  }

  /** The search effect: blank search text (only whitespace) shows every
      loaded user; otherwise the users matching the lowered search text,
      which is not trimmed. */
  function SearchFilter(data: seq<User>, searchValue: string): seq<User>
  {
    if Trim(searchValue) == "" then data else FilterUsers(data, ToLower(searchValue))
  }

  /** Blank search text leaves the data as it is; any other text keeps, in
      order, exactly the rows that match it. */
  lemma SearchFilterSpec(data: seq<User>, searchValue: string)
    ensures AllWhitespace(searchValue) ==> SearchFilter(data, searchValue) == data
    ensures !AllWhitespace(searchValue) ==>
      && IsSubsequence(SearchFilter(data, searchValue), data)
      && forall u :: u in SearchFilter(data, searchValue) <==> u in data && UserMatches(u, ToLower(searchValue))
  {
    TrimEmptyIff(searchValue);
  }

  /** Lowering never turns whitespace into text or text into whitespace. */
  lemma LowerKeepsWhitespace(s: string)
    ensures AllWhitespace(ToLower(s)) <==> AllWhitespace(s)
  {
    forall i | 0 <= i < |s| ensures IsWhitespace(ToLower(s)[i]) <==> IsWhitespace(s[i]) {
      var c := s[i];
      assert ToLower(s)[i] == LowerChar(c);
    }
  }

  /** The search ignores the case of the search text. */
  lemma SearchIsCaseInsensitive(data: seq<User>, searchValue: string)
    ensures SearchFilter(data, searchValue) == SearchFilter(data, ToLower(searchValue))
  {
    TrimEmptyIff(searchValue);
    TrimEmptyIff(ToLower(searchValue));
    LowerKeepsWhitespace(searchValue);
    ToLowerIdempotent(searchValue);
  }

  /** The search text is used untrimmed: "an " finds no "An", while "an"
      does. */
  lemma SearchTextIsNotTrimmed()
    ensures SearchFilter([User(1, Some("An"), None, None)], "an ") == []
    ensures SearchFilter([User(1, Some("An"), None, None)], "an") == [User(1, Some("An"), None, None)]
  {
    var u := User(1, Some("An"), None, None);
    assert ToLower("An") == "an";
    assert ToLower("an ") == "an ";
    assert ToLower("an") == "an";
    assert !Includes("an", "an ") by {
      assert !Includes("n", "an ") by { assert !Includes("", "an "); }
    }
    assert UserMatches(u, "an");
    TrimEmptyIff("an ");
    TrimEmptyIff("an");
    assert !IsWhitespace("an "[0]);
    assert !IsWhitespace("an"[0]);
  }

  // =====================================================================
  // Selection
  // =====================================================================

  /** `ids.filter(id => id !== x)`. */
  function Without(ids: seq<int>, x: int): (r: seq<int>)
    ensures forall y :: y in r <==> y in ids && y != x
  {
    if ids == [] then [] else (if ids[0] == x then [] else [ids[0]]) + Without(ids[1..], x)
  }

  /** The state updater of `handleSelectRow`: drop the id if it is selected,
      append it otherwise. */
  function ToggleId(ids: seq<int>, id: int): seq<int>
  {
    if id in ids then Without(ids, id) else ids + [id]
  }

  ghost predicate NoDuplicates(ids: seq<int>)
  {
    forall i, j :: 0 <= i < j < |ids| ==> ids[i] != ids[j]
  }

  lemma {:induction false} WithoutKeepsNoDuplicates(ids: seq<int>, x: int)
    requires NoDuplicates(ids)
    ensures NoDuplicates(Without(ids, x))
  {
    if ids != [] {
      WithoutKeepsNoDuplicates(ids[1..], x);
      assert ids[0] !in ids[1..];
    }
  }

  lemma {:induction false} WithoutAbsent(ids: seq<int>, x: int)
    requires x !in ids
    ensures Without(ids, x) == ids
  {
    if ids != [] {
      WithoutAbsent(ids[1..], x);
    }
  }

  lemma {:induction false} WithoutAppend(a: seq<int>, b: seq<int>, x: int)
    ensures Without(a + b, x) == Without(a, x) + Without(b, x)
  {
    if a == [] {
      assert a + b == b;
    } else {
      assert (a + b)[1..] == a[1..] + b;
      WithoutAppend(a[1..], b, x);
    }
  }

  /** Toggling flips the membership of exactly one id. */
  lemma ToggleFlipsOne(ids: seq<int>, id: int, y: int)
    ensures y in ToggleId(ids, id) <==> (if y == id then id !in ids else y in ids)
  {
  }

  /** Toggling keeps the selection free of duplicates. */
  lemma ToggleKeepsNoDuplicates(ids: seq<int>, id: int)
    requires NoDuplicates(ids)
    ensures NoDuplicates(ToggleId(ids, id))
  {
    if id in ids {
      WithoutKeepsNoDuplicates(ids, id);
    }
  }

  /** Toggling twice restores the selected set, and restores the list itself
      when the id was not selected. */
  lemma ToggleTwice(ids: seq<int>, id: int)
    ensures forall y :: y in ToggleId(ToggleId(ids, id), id) <==> y in ids
    ensures id !in ids ==> ToggleId(ToggleId(ids, id), id) == ids
  {
    if id !in ids {
      WithoutAppend(ids, [id], id);
      WithoutAbsent(ids, id);
      assert Without([id], id) == [];
    }
  }

  /** `filteredData.map(user => user.id)`. */
  function UserIds(users: seq<User>): (r: seq<int>)
    ensures |r| == |users|
    ensures forall k :: 0 <= k < |users| ==> r[k] == users[k].id
  {
    seq(|users|, k requires 0 <= k < |users| => users[k].id)
  }

  /** `handleSelectAll`: clear when as many ids are selected as rows are
      shown, otherwise select the ids of the shown rows. */
  function SelectAllNext(selected: seq<int>, filtered: seq<User>): seq<int>
  {
    if |selected| == |filtered| then [] else UserIds(filtered)
  }

  /** The header checkbox: checked when as many ids are selected as rows are
      shown, and some row is shown. */
  predicate HeaderChecked(selected: seq<int>, filtered: seq<User>)
  {
    |selected| == |filtered| && |filtered| > 0
  }

  /** A row checkbox. */
  predicate RowChecked(selected: seq<int>, u: User)
  {
    u.id in selected
  }

  /** Clicking the header checkbox flips it, and when it becomes checked every
      shown row is checked; when it is cleared no row is. */
  lemma SelectAllFlipsHeader(selected: seq<int>, filtered: seq<User>)
    requires |filtered| > 0
    ensures HeaderChecked(SelectAllNext(selected, filtered), filtered) <==> !HeaderChecked(selected, filtered)
    ensures HeaderChecked(SelectAllNext(selected, filtered), filtered) ==>
      forall k :: 0 <= k < |filtered| ==> RowChecked(SelectAllNext(selected, filtered), filtered[k])
    ensures !HeaderChecked(SelectAllNext(selected, filtered), filtered) ==>
      forall u :: !RowChecked(SelectAllNext(selected, filtered), u)
  {
  }

  /** Selecting all and then clicking again clears the selection. */
  lemma SelectAllTwiceClears(selected: seq<int>, filtered: seq<User>)
    requires |selected| != |filtered|
    ensures SelectAllNext(SelectAllNext(selected, filtered), filtered) == []
  {
  }

  /** Only lengths are compared: with id 7 selected and only user 8 shown,
      the header shows checked although row 8 is not, and clicking it clears
      the selection instead of selecting user 8. */
  lemma SelectAllComparesLengthsOnly()
    ensures var shown := [User(8, None, None, None)];
      && HeaderChecked([7], shown)
      && !RowChecked([7], shown[0])
      && SelectAllNext([7], shown) == []
  {
  }

  // =====================================================================
  // Bulk role update
  // =====================================================================

  /** `selectedRoleId`: `null`, `NaN` (what `parseInt('')` gives when the
      placeholder option is chosen) or a role id. */
  datatype RoleChoice = NoRole | NotANumber | RoleId(id: int)

  /** JavaScript truthiness of `selectedRoleId`: `null`, `NaN` and `0` are falsy. */
  predicate RoleChosen(c: RoleChoice)
  {
    c.RoleId? && c.id != 0
  }

  /** What `handleUpdateRole` does: a warning for a missing role (checked
      first), a warning for an empty selection, or the confirmation prompt.
      The prompt's confirm callback is the `handleUpdateConfirmed` of the
      render that opened it, closing over that render's selection, role,
      page and page size, so the prompt carries all four. */
  datatype UpdatePrompt =
    | MissingRole
    | MissingUsers
    | Confirm(ids: seq<int>, roleId: int, page: int, pageSize: int)

  function UpdateRoleCheck(roleId: RoleChoice, ids: seq<int>, page: int, pageSize: int): UpdatePrompt
  {
    if !RoleChosen(roleId) then MissingRole
    else if |ids| == 0 then MissingUsers
    else Confirm(ids, roleId.id, page, pageSize)
  }

  /** The update button is enabled when some user is selected and a role is
      chosen. */
  predicate UpdateButtonEnabled(roleId: RoleChoice, ids: seq<int>)
  {
    !(|ids| == 0 || !RoleChosen(roleId))
  }

  /** The handler's guards agree with the button: it prompts exactly when the
      button is enabled, and the prompt names the current selection, a
      non-zero role id and the current page. A missing role is reported
      before an empty selection. */
  lemma UpdateRoleGuards(roleId: RoleChoice, ids: seq<int>, page: int, pageSize: int)
    ensures UpdateRoleCheck(roleId, ids, page, pageSize).Confirm? <==> UpdateButtonEnabled(roleId, ids)
    ensures UpdateRoleCheck(roleId, ids, page, pageSize).Confirm? ==>
      && UpdateRoleCheck(roleId, ids, page, pageSize) == Confirm(ids, roleId.id, page, pageSize)
      && roleId.id != 0 && |ids| > 0
    ensures UpdateRoleCheck(roleId, ids, page, pageSize) == MissingRole <==> !RoleChosen(roleId)
    ensures UpdateRoleCheck(roleId, ids, page, pageSize) == MissingUsers <==> RoleChosen(roleId) && |ids| == 0
  {
  }

  /** The `putUserRole(ids, roleId)` request. */
  datatype RoleUpdateRequest = RoleUpdateRequest(ids: seq<int>, roleId: int)

  /** A `loadData(page, pageSize)` request. */
  datatype PageRequest = PageRequest(page: int, pageSize: int)

  // =====================================================================
  // Role badge
  // =====================================================================

  /** `getRoleBadgeColor(roleName)`. */
  function RoleBadgeColor(roleName: Option<string>): string
  {
    match roleName
    case None => "secondary"
    case Some(r) =>
      var key := ToLower(r);
      if key == "admin" then "error"
      else if key == "user" then "info"
      else if key == "moderator" then "warning"
      else "secondary"
  }

  /** The badge class each role is meant to get. */
  function RoleVariant(roleName: Option<string>): Variant
  {
    if roleName.None? then Secondary
    else if ToLower(roleName.value) == "admin" then Error
    else if ToLower(roleName.value) == "user" then Info
    else if ToLower(roleName.value) == "moderator" then Warning
    else Secondary
  }

  /** `getRoleBadgeColor` names the intended class of every role: admin,
      user and moderator in any case, everything else and a missing role
      name secondary. */
  lemma RoleBadgeColorNamesVariant(roleName: Option<string>)
    ensures RoleBadgeColor(roleName) == VariantName(RoleVariant(roleName))
    ensures roleName.Some? ==> RoleBadgeColor(roleName) == RoleBadgeColor(Some(ToLower(roleName.value)))
  {
    if roleName.Some? {
      ToLowerIdempotent(roleName.value);
    }
  }

  /** The badge actually shown: the color name is handed to `StatusBadge` as
      a status and classified again. */
  function RoleBadgeShown(roleName: Option<string>): Variant
  {
    BadgeVariant(Some(RoleBadgeColor(roleName)))
  }

  /** As written, every role keeps its class except moderator, whose
      `warning` is not a status key and is shown as secondary. */
  lemma RoleBadgeShownAsWritten(roleName: Option<string>)
    ensures RoleBadgeShown(roleName) ==
      if RoleVariant(roleName) == Warning then Secondary else RoleVariant(roleName)
    ensures RoleBadgeShown(Some("moderator")) == Secondary
  {
    RoleBadgeColorNamesVariant(roleName);
    BadgeOfVariantName(RoleVariant(roleName));
    RoleBadgeColorNamesVariant(Some("moderator"));
    assert ToLower("moderator") == "moderator";
    BadgeOfVariantName(Warning);
  }

  /** The badge shown once the classifier recognises `warning`. */
  function RoleBadgeShownIntended(roleName: Option<string>): Variant
  {
    BadgeVariantIntended(Some(RoleBadgeColor(roleName)))
  }

  /** With the corrected classifier every role, moderator included, is shown
      with its intended class. */
  lemma RoleBadgeShownIntendedIsRoleVariant(roleName: Option<string>)
    ensures RoleBadgeShownIntended(roleName) == RoleVariant(roleName)
  {
    RoleBadgeColorNamesVariant(roleName);
    BadgeVariantIntendedRoundTrip(RoleVariant(roleName), None);
  }

  // =====================================================================
  // CSV export
  // =====================================================================

  const RoleCsvHeaderFields: seq<string> := ["ID", "Họ Tên", "Vai Trò", "Số Điện Thoại"]

  /** `` `"${value || ''}"`.replace(/"/g, '""') ``: the quotes are added
      before the doubling, so they are doubled too. */
  function RoleCsvField(value: Option<string>): string
  {
    DoubleQuotes("\"" + OrEmpty(value) + "\"")
  }

  /** One exported row: id, full name, role name, phone. */
  function RoleCsvRow(u: User): string
  {
    Join([NumberToString(u.id), RoleCsvField(u.fullname), RoleCsvField(u.rolename), OrEmpty(u.phone)], ",")
  }

  /** The lines of the export: the header, then one line per shown row. */
  function RoleCsvLines(rows: seq<User>): seq<string>
  {
    [Join(RoleCsvHeaderFields, ",")] + seq(|rows|, k requires 0 <= k < |rows| => RoleCsvRow(rows[k]))
  }

  /** Exporting one more row appends its line. */
  lemma RoleCsvLinesSnoc(rows: seq<User>, u: User)
    ensures RoleCsvLines(rows + [u]) == RoleCsvLines(rows) + [RoleCsvRow(u)]
  {
  }

  /** The header line is the four column names joined by commas. */
  lemma RoleCsvHeaderText()
    ensures Join(RoleCsvHeaderFields, ",") == "ID,Họ Tên,Vai Trò,Số Điện Thoại"
  {
    var f := RoleCsvHeaderFields;
    var last := Join(f[3..], ",");
    assert last == "Số Điện Thoại";
    var two := Join(f[2..], ",");
    assert two == "Vai Trò" + "," + last;
    var three := Join(f[1..], ",");
    assert three == "Họ Tên" + "," + two;
    assert Join(f, ",") == "ID" + "," + three;
  }

  /** One line per row after the fixed four-field header, in row order. */
  lemma RoleCsvLinesShape(rows: seq<User>)
    ensures |RoleCsvLines(rows)| == 1 + |rows|
    ensures RoleCsvLines(rows)[0] == "ID,Họ Tên,Vai Trò,Số Điện Thoại"
    ensures forall k :: 0 <= k < |rows| ==> RoleCsvLines(rows)[k + 1] == RoleCsvRow(rows[k])
  {
    RoleCsvHeaderText();
  }

  /** As written, a text field is the RFC 4180 quoted value wrapped in one
      more pair of quotes. */
  lemma RoleCsvFieldWrapsQuoted(v: string)
    ensures RoleCsvField(Some(v)) == "\"" + QuoteField(v) + "\""
  {
    DoubleQuotesConcat("\"", v + "\"");
    DoubleQuotesConcat(v, "\"");
    assert "\"" + v + "\"" == "\"" + (v + "\"");
  }

  /** For the value `a"b` the exporter writes `""a""b""`, which a CSV reader
      rejects instead of reading back `a"b`. */
  lemma RoleCsvFieldNotReadable()
    ensures RoleCsvField(Some("a\"b")) == "\"\"a\"\"b\"\""
    ensures ParseQuotedField(RoleCsvField(Some("a\"b"))) == None
  {
    RoleCsvFieldWrapsQuoted("a\"b");
    assert DoubleQuotes("a\"b") == "a\"\"b";
    var f := "\"\"a\"\"b\"\"";
    assert f[1..|f| - 1] == "\"a\"\"b\"";
  }

  /** The corrected text field, quoted as RFC 4180 asks. */
  function RoleCsvFieldIntended(value: Option<string>): string
  {
    QuoteField(OrEmpty(value))
  }

  /** The corrected field reads back as the exported value. */
  lemma RoleCsvFieldIntendedReadable(value: Option<string>)
    ensures ParseQuotedField(RoleCsvFieldIntended(value)) == Some(OrEmpty(value))
  {
    QuoteFieldRoundTrip(OrEmpty(value));
  }

  // =====================================================================
  // The component
  // =====================================================================

  const RoleTitle: string := "Quản lý vai trò người dùng"
  const RoleEmptyMessage: string := "Không có người dùng nào trong hệ thống"

  /** The body of a successful `getUserRole` response. */
  datatype UsersPage = UsersPage(users: Option<seq<User>>, total: Option<int>, totalPages: Option<int>)

  /** The toolbar passed as the table's actions: the CSV button, enabled only
      while some row is shown, and the search box. */
  datatype Toolbar = Toolbar(exportEnabled: bool)

  class ModernRoleTable {
    var page: int
    var pageSize: int
    var totalCount: int
    var totalPage: int
    var data: seq<User>
    var selectedRoleId: RoleChoice
    var selectedIds: seq<int>
    var loading: bool
    var searchValue: string
    var filteredData: seq<User>

    /** The search effect has run on the current data and search text. */
    ghost predicate Valid()
      reads this
    {
      filteredData == SearchFilter(data, searchValue)
    }

    /** The initial state of the component. */
    constructor ()
      ensures Valid()
      ensures page == 1 && pageSize == 10 && totalCount == 0 && totalPage == 0
      ensures data == [] && filteredData == [] && selectedIds == [] && searchValue == ""
      ensures selectedRoleId == NoRole && loading
    {
      page := 1;
      pageSize := 10;
      totalCount := 0;
      totalPage := 0;
      data := [];
      selectedRoleId := NoRole;
      selectedIds := [];
      loading := true;
      searchValue := "";
      filteredData := [];
    }

    /** `loadData` has started: the loading shell is shown. */
    method StartLoading()
      modifies this`loading
      ensures loading
    {
      loading := true;
    }

    /** `loadData` has finished: on success the users and counts are stored
        (missing parts default to empty and zero) and the search effect
        re-runs; on failure everything stays as it was. Loading ends either
        way. */
    method LoadFinished(response: Option<UsersPage>)
      requires Valid()
      modifies this`data, this`totalCount, this`totalPage, this`loading, this`filteredData
      ensures Valid() && !loading
      ensures response.None? ==>
        data == old(data) && totalCount == old(totalCount) && totalPage == old(totalPage)
      ensures response.Some? ==>
        && data == (if response.value.users.Some? then response.value.users.value else [])
        && totalCount == CountOrZero(response.value.total)
        && totalPage == CountOrZero(response.value.totalPages)
    {
      if response.Some? {
        data := if response.value.users.Some? then response.value.users.value else [];
        totalCount := CountOrZero(response.value.total);
        totalPage := CountOrZero(response.value.totalPages);
        filteredData := SearchFilter(data, searchValue);
      }
      loading := false;
    }

    /** Typing in the search box; the search effect re-runs. */
    method SetSearchValue(value: string)
      requires Valid()
      modifies this`searchValue, this`filteredData
      ensures Valid() && searchValue == value
      ensures filteredData == SearchFilter(data, value)
    {
      searchValue := value;
      filteredData := SearchFilter(data, value);
    }

    /** `handlePageChange`: move to the page and drop the selection; the
        page effect then reloads the page when it actually changed. */
    method HandlePageChange(newPage: int) returns (reload: Option<PageRequest>)
      requires Valid()
      modifies this`page, this`selectedIds
      ensures Valid() && page == newPage && selectedIds == []
      ensures reload == if newPage != old(page) then Some(PageRequest(newPage, pageSize)) else None
    {
      reload := if newPage != page then Some(PageRequest(newPage, pageSize)) else None;
      page := newPage;
      selectedIds := [];
    }

    /** `handleSelectRow`: toggle one user's checkbox. */
    method HandleSelectRow(userId: int)
      requires Valid()
      modifies this`selectedIds
      ensures Valid() && selectedIds == ToggleId(old(selectedIds), userId)
    {
      selectedIds := ToggleId(selectedIds, userId);
    }

    /** `handleSelectAll`: the header checkbox. */
    method HandleSelectAll()
      requires Valid()
      modifies this`selectedIds
      ensures Valid() && selectedIds == SelectAllNext(old(selectedIds), filteredData)
    {
      if |selectedIds| == |filteredData| {
        selectedIds := [];
      } else {
        selectedIds := UserIds(filteredData);
      }
    }

    /** The "clear selection" button. */
    method ClearSelection()
      requires Valid()
      modifies this`selectedIds
      ensures Valid() && selectedIds == []
    {
      selectedIds := [];
    }

    /** Choosing an entry of the role select (`parseInt` of its value). */
    method SelectRole(choice: RoleChoice)
      requires Valid()
      modifies this`selectedRoleId
      ensures Valid() && selectedRoleId == choice
    {
      selectedRoleId := choice;
    }

    /** `handleUpdateRole`: warn or open the confirmation; no state changes. */
    method HandleUpdateRole() returns (prompt: UpdatePrompt)
      ensures prompt == UpdateRoleCheck(selectedRoleId, selectedIds, page, pageSize)
    {
      if !RoleChosen(selectedRoleId) {
        prompt := MissingRole;
        return;
      }
      if |selectedIds| == 0 {
        prompt := MissingUsers;
        return;
      }
      prompt := Confirm(selectedIds, selectedRoleId.id, page, pageSize);
    }

    /** `handleUpdateConfirmed`, run from a confirmation prompt with the
        outcome of `putUserRole`: the request carries the selection and role
        captured by the prompt; on success the page captured by the prompt
        is reloaded (which is the current page only if no page change came
        in between) and the selection and chosen role are cleared; on
        failure nothing changes. */
    method HandleUpdateConfirmed(prompt: UpdatePrompt, succeeded: bool)
      returns (request: RoleUpdateRequest, reload: Option<PageRequest>)
      requires Valid() && prompt.Confirm?
      modifies this`selectedIds, this`selectedRoleId
      ensures Valid()
      ensures request == RoleUpdateRequest(prompt.ids, prompt.roleId)
      ensures succeeded ==>
        selectedIds == [] && selectedRoleId == NoRole && reload == Some(PageRequest(prompt.page, prompt.pageSize))
      ensures !succeeded ==> selectedIds == old(selectedIds) && selectedRoleId == old(selectedRoleId) && reload.None?
    {
      request := RoleUpdateRequest(prompt.ids, prompt.roleId);
      if succeeded {
        reload := Some(PageRequest(prompt.page, prompt.pageSize));
        selectedIds := [];
        selectedRoleId := NoRole;
      } else {
        reload := None;
      }
    }

    /** `exportToCsv` up to the download: the header, then one line per shown
        row, joined by newlines. */
    method ExportToCsv() returns (csv: string)
      ensures csv == Join(RoleCsvLines(filteredData), "\n")
    {
      var rows := filteredData;
      var lines := [Join(RoleCsvHeaderFields, ",")];
      var i := 0;
      while i < |rows|
        invariant 0 <= i <= |rows|
        invariant lines == RoleCsvLines(rows[..i])
      {
        assert rows[..i + 1] == rows[..i] + [rows[i]];
        RoleCsvLinesSnoc(rows[..i], rows[i]);
        lines := lines + [RoleCsvRow(rows[i])];
        i := i + 1;
      }
      assert rows[..i] == rows;
      csv := Join(lines, "\n");
    }

    /** The table the component renders: the loading shell while loading, the
        empty shell when no user was loaded at all, otherwise the shown rows.
        Emptiness is judged on the loaded data, not on the search result. */
    function View(): (r: Shell<Toolbar, seq<User>>)
      requires Valid()
      reads this
      ensures ModeOf(r) == (if loading then LoadingMode else if |data| == 0 then EmptyMode else PopulatedMode)
      ensures r.EmptyShell? ==>
        (r.message == RoleEmptyMessage && r.header == Some(Header(Some(RoleTitle), Some(Toolbar(false)))))
      ensures r.PopulatedShell? ==>
        (r.content == filteredData && r.header == Some(Header(Some(RoleTitle), Some(Toolbar(|filteredData| > 0)))))
    {
      var toolbar := Toolbar(|filteredData| > 0);
      if loading then RenderShell(true, false, None, Some(RoleTitle), None, [])
      else if |data| == 0 then RenderShell(false, true, Some(RoleEmptyMessage), Some(RoleTitle), Some(toolbar), [])
      else RenderShell(false, false, None, Some(RoleTitle), Some(toolbar), filteredData)
    }
  }

  /** The confirmation prompt stays open while the table moves on: with a
      prompt opened on page 1 and a click on page 2 before confirming, the
      update goes out for the users selected on page 1 and the reload asks
      for page 1 while the table's page is 2. */
  method StaleReloadExample() returns (request: RoleUpdateRequest, reload: Option<PageRequest>, shownPage: int)
    ensures request == RoleUpdateRequest([7], 3)
    ensures reload == Some(PageRequest(1, 10)) && shownPage == 2
  {
    var t := new ModernRoleTable();
    t.SelectRole(RoleId(3));
    t.HandleSelectRow(7);
    assert t.selectedIds == [7] by { WithoutAbsent([], 7); }
    var prompt := t.HandleUpdateRole();
    var _ := t.HandlePageChange(2);
    request, reload := t.HandleUpdateConfirmed(prompt, true);
    shownPage := t.page;
  }
}
