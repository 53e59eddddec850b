# MotelDB admin tables in Dafny

This project models the table layer of the MotelDB admin dashboard, a React
single-page application in which administrators manage posts, users and
their roles. It covers three components:

- `src/components/common/ModernTable.jsx`: the shared table primitives.
  - The `StatusBadge` classifier turns a free-text status into a badge class.
  - The `ModernTable` shell shows a loading skeleton, an empty state or the caller's table.
  - `ModernPagination` computes the page-button list, the "showing X - Y of N" range and the previous/next guards.
- `src/components/Role/ModernRoleTable.jsx`: the user-role table.
  - Client-side search over the loaded page.
  - Checkbox selection.
  - The guarded bulk role update and its confirmation.
  - The role badge colour.
  - The CSV export.
- `src/components/Post/ModernPostTable.jsx`: the post-moderation table.
  - Filter state and the queries sent by search and reset.
  - The `isApply` flag that enables the search and reset buttons.
  - The per-row "show more" toggle and description truncation.
  - The CSV export.

The files are organised as follows:

- `wrappers.dfy` holds `Option`/`Result`.
- `js_strings.dfy` holds the JavaScript string operations the components use:
  - `toLowerCase`;
  - `trim`, with the exact ECMAScript whitespace set;
  - `includes`;
  - `join`;
  - `replace(/"/g, '""')`;
  - number formatting;
  - the `x || ''` idiom.
- `csv_fields.dfy` holds the RFC 4180 section 2 quoted-field form and a reader for it.
- `modern_table.dfy`, `role_table.dfy` and `post_table.dfy` hold one module per component.

Each component's `useState` variables become the fields of a class. Each handler becomes a method with a `modifies` clause. Each method's `ensures` states the new state and what it sends.

A REST call is replaced by the request the handler would send and by the outcome delivered to it: `Option<UsersPage>` or `Option<PostsPage>`, with `None` for a failed call. React's `[page, pageSize]` effect becomes the reload a page change returns.

Pure computations are functions. Lemmas state what they guarantee. The loops of the source are methods proved against specification functions: `generatePageNumbers` and each `exportToCsv`'s `forEach`.

The model follows the code as written, including the places where it misbehaves. Each such place has a corrected definition beside it (see Findings). A confirmation toast keeps what its handler captured: the selection, the role and the page it was raised on.

## Model

| member | source | states |
|---|---|---|
| JsStrings.LowerChar | src/components/Role/ModernRoleTable.jsx:37-40 | The lowered character has no upper-case letter left. An upper-case letter becomes its lower-case partner, which `UpperChar` maps back to it; anything else is unchanged. |
| JsStrings.ToLowerIdempotent | src/components/common/ModernTable.jsx:154 | Lowering twice is lowering once. |
| JsStrings.ToLowerConcat | src/components/Role/ModernRoleTable.jsx:37-40 | Lowering distributes over concatenation. |
| JsStrings.TrimStartFacts | src/components/Role/ModernRoleTable.jsx:33 | Trimming the start gives "" exactly for all-whitespace text; otherwise the result starts with a non-whitespace character. |
| JsStrings.TrimEndKeepsHead | src/components/Role/ModernRoleTable.jsx:33 | Trimming the end of text that starts with a non-whitespace character leaves something. |
| JsStrings.TrimEmptyIff | src/components/Role/ModernRoleTable.jsx:33 | `!s.trim()` holds exactly when every character of `s` is ECMAScript whitespace or a line terminator. |
| JsStrings.IncludesIff | src/components/Role/ModernRoleTable.jsx:38-40 | `includes` holds exactly when the needle occurs at some offset. |
| JsStrings.JoinSnoc | src/components/Role/ModernRoleTable.jsx:163 | Joining one more element appends the separator and that element. |
| JsStrings.DoubleQuotesConcat | src/components/Role/ModernRoleTable.jsx:169-170 | `replace(/"/g,'""')` distributes over concatenation. |
| JsStrings.Digits | src/components/Role/ModernRoleTable.jsx:168 | The decimal form of a natural number is non-empty, made of digits, has no leading zero except for 0 itself, and reads back as the number. |
| JsStrings.NumberToString | src/components/Role/ModernRoleTable.jsx:168 | `String(n)` of an exact integer: `-` exactly for a negative number, then only decimal digits with no leading zero except for 0 itself, reading back as the magnitude. |
| JsStrings.OrDefault | src/components/Post/ModernPostTable.jsx:210 | `s || d` gives the value when it is a non-empty string, and `d` when it is missing or empty. |
| CsvFields.UnescapeDoubled | src/components/Role/ModernRoleTable.jsx:169-170 | Reading back a quote-doubled text gives the text. |
| CsvFields.QuoteFieldRoundTrip | src/components/Role/ModernRoleTable.jsx:169-170 | An RFC 4180 quoted field reads back as exactly the original value. |
| ModernTable.BadgeVariant | src/components/common/ModernTable.jsx:153-176 | `getBadgeVariant`: the lower-cased status looked up among the listed statuses, `secondary` when missing or unlisted. Stated by `BadgeVariantIsTableLookup`, `BadgeVariantCaseInsensitive` and `BadgeKeysReachable`. |
| ModernTable.BadgeVariantIsTableLookup | src/components/common/ModernTable.jsx:153-176 | The badge class is the table entry of the lowered status, and secondary for any status not listed, a missing one included. |
| ModernTable.BadgeVariantCaseInsensitive | src/components/common/ModernTable.jsx:154 | Statuses that lower alike get the same badge. |
| ModernTable.LowerOfLowered | src/components/common/ModernTable.jsx:154 | Text without an upper-case letter lowers to itself. |
| ModernTable.BadgeKeysReachable | src/components/common/ModernTable.jsx:155-172 | Every listed status, written as listed, reaches its class. |
| ModernTable.BadgeOfVariantName | src/components/common/ModernTable.jsx:153-176 | Class names passed back as statuses map to themselves, except `warning`, which falls to secondary. |
| ModernTable.BadgeVariantIntendedRoundTrip | src/components/common/ModernTable.jsx:160-164 | With `warning` in the warning group every class name maps back to its class, and every other status is classified as before. |
| ModernTable.ShellHeader | src/components/common/ModernTable.jsx:40-45 | The header exists exactly when a non-empty title or some actions are given; it shows the given actions, and the title exactly when that is non-empty. |
| ModernTable.RenderShell | src/components/common/ModernTable.jsx:4-77 | Loading wins over empty, and empty over content. The skeleton is 5 rows of 6 cells. The empty state shows the given message or `Không có dữ liệu`. Otherwise the children are shown. The empty and populated states carry the title and actions header. |
| ModernTable.LoadingIgnoresContent | src/components/common/ModernTable.jsx:14-35 | While loading, the rendering does not depend on any other prop. |
| ModernTable.Window | src/components/common/ModernTable.jsx:199-209 | The window of at most five pages around the current one, slid left near the end. Stated by `WindowFacts`. |
| ModernTable.PageNumbers | src/components/common/ModernTable.jsx:197-232 | The page list: page 1 and a leading ellipsis when the window starts late, the window, then an ellipsis and the last page when it ends early. Stated by `PageNumbersInRange`, `PageNumbersAscending`, `PageNumbersMarkGaps`, `PageNumbersNoUnmarkedGap`, `PageNumbersPinned` and `MarkerPlacement`. |
| ModernTable.GeneratePageNumbers | src/components/common/ModernTable.jsx:197-232 | The array built step by step equals the page list `PageNumbers`, whose properties the lemmas below state. |
| ModernTable.WindowFacts | src/components/common/ModernTable.jsx:202-208 | With at least one page, the window lies in `1..totalPages`, holds `min(5, totalPages)` pages and contains the current page when that page exists. |
| ModernTable.NoPagesNoButtons | src/components/common/ModernTable.jsx:197-232 | With no pages the list is empty. |
| ModernTable.FewPagesAllShown | src/components/common/ModernTable.jsx:197-232 | Up to five pages are all listed in order, without a marker. |
| ModernTable.PageNumbersAt | src/components/common/ModernTable.jsx:210-229 | Characterises the item at each position, by the leading part, the window or the trailing part it belongs to. |
| ModernTable.PageNumbersInRange | src/components/common/ModernTable.jsx:197-232 | Every listed page number lies in `1..totalPages`. |
| ModernTable.PageNumbersAscending | src/components/common/ModernTable.jsx:197-232 | Page numbers strictly increase from left to right. |
| ModernTable.PageNumbersMarkGaps | src/components/common/ModernTable.jsx:210-229 | A `...` marker is never first or last, and stands between two numbers that skip at least one page. |
| ModernTable.PageNumbersNoUnmarkedGap | src/components/common/ModernTable.jsx:210-229 | Neighbouring numbers are consecutive pages. |
| ModernTable.PageNumbersPinned | src/components/common/ModernTable.jsx:210-229 | With at least one page, page 1 is first, the last page is last, and the current page is listed when it exists. |
| ModernTable.MarkerPlacement | src/components/common/ModernTable.jsx:212-214 | A leading marker appears exactly when the window starts after page 2, and a trailing one exactly when it ends before the page before the last. |
| ModernTable.TwentyPagesAtTen | src/components/common/ModernTable.jsx:197-232 | Twenty pages with page 10 current list `1 … 8 9 10 11 12 … 20`. |
| ModernTable.StartItem | src/components/common/ModernTable.jsx:235 | The number of the first item shown. Stated with `EndItem` by `ItemRangeBounds`, `EmptyItemRange` and `ItemRangeCount`. |
| ModernTable.EndItem | src/components/common/ModernTable.jsx:236 | The number of the last item shown, capped at the total. Stated by the same three lemmas. |
| ModernTable.ItemRangeBounds | src/components/common/ModernTable.jsx:235-236 | The range end never passes the total, and the range never spans more than one page. |
| ModernTable.EmptyItemRange | src/components/common/ModernTable.jsx:235-236 | With no items the range reads backwards: `1 - 0` on page 1. |
| ModernTable.ItemRangeCount | src/components/common/ModernTable.jsx:235-236 | On a page that holds items, the range counts exactly that page's items. |
| ModernTable.PrevRequest | src/components/common/ModernTable.jsx:251 | The previous button asks for the page before, and only from a page after the first. Stated by `BoundaryGuards`. |
| ModernTable.NextRequest | src/components/common/ModernTable.jsx:277 | The next button asks for the page after, and only before the last page. Stated by `BoundaryGuards`. |
| ModernTable.ItemRequest | src/components/common/ModernTable.jsx:268 | A page button asks for its own page; an ellipsis asks for nothing. Stated by `PageButtonsRequestExistingPages`. |
| ModernTable.BoundaryGuards | src/components/common/ModernTable.jsx:249-279 | A disabled previous/next button requests nothing. Within `1..totalPages`, a button is disabled exactly when it would request nothing, and every request stays in range. |
| ModernTable.PageButtonsRequestExistingPages | src/components/common/ModernTable.jsx:261-272 | A page-list button is disabled exactly when it is a marker; the others request a page in `1..totalPages`. |
| RoleTable.FilterUsers | src/components/Role/ModernRoleTable.jsx:36-41 | The filtered rows are exactly the matching loaded rows, kept in their order. |
| RoleTable.FilterUsersAppend | src/components/Role/ModernRoleTable.jsx:36-41 | Filtering works row by row: filtering a concatenation is concatenating the filtered parts. |
| RoleTable.SearchFilter | src/components/Role/ModernRoleTable.jsx:31-43 | Blank search text shows every loaded row; otherwise, in order, the rows whose lowered name, phone or role contains the lowered text. Stated by `SearchFilterSpec`, `SearchIsCaseInsensitive` and `SearchTextIsNotTrimmed`. |
| RoleTable.SearchFilterSpec | src/components/Role/ModernRoleTable.jsx:31-43 | Blank search text shows all loaded rows. Other text shows, in order, exactly the rows whose name, phone or role name contains it. |
| RoleTable.LowerKeepsWhitespace | src/components/Role/ModernRoleTable.jsx:33-40 | Lowering never changes whether text is blank. |
| RoleTable.SearchIsCaseInsensitive | src/components/Role/ModernRoleTable.jsx:37-40 | The search result ignores the case of the search text. |
| RoleTable.SearchTextIsNotTrimmed | src/components/Role/ModernRoleTable.jsx:33-40 | The search text is matched untrimmed: `an ` finds no `An`, while `an` does. |
| RoleTable.Without | src/components/Role/ModernRoleTable.jsx:86 | Filtering an id out keeps exactly the other ids. |
| RoleTable.WithoutKeepsNoDuplicates | src/components/Role/ModernRoleTable.jsx:86 | Filtering out an id keeps a duplicate-free selection duplicate-free. |
| RoleTable.WithoutAbsent | src/components/Role/ModernRoleTable.jsx:86 | Filtering out an absent id changes nothing. |
| RoleTable.WithoutAppend | src/components/Role/ModernRoleTable.jsx:86 | Filtering out distributes over concatenation. |
| RoleTable.ToggleId | src/components/Role/ModernRoleTable.jsx:82-90 | The row checkbox step: remove a selected id, append an unselected one. Stated by `ToggleFlipsOne`, `ToggleKeepsNoDuplicates` and `ToggleTwice`. |
| RoleTable.ToggleFlipsOne | src/components/Role/ModernRoleTable.jsx:82-90 | Clicking a row checkbox flips the selection of that id only. |
| RoleTable.ToggleKeepsNoDuplicates | src/components/Role/ModernRoleTable.jsx:82-90 | Row toggling never puts an id in the selection twice. |
| RoleTable.ToggleTwice | src/components/Role/ModernRoleTable.jsx:82-90 | Toggling twice restores the selected set, and the list itself when the id was not selected. |
| RoleTable.UserIds | src/components/Role/ModernRoleTable.jsx:96 | Gives one id per shown row, in row order. |
| RoleTable.SelectAllNext | src/components/Role/ModernRoleTable.jsx:92-98 | The header checkbox step: clear when the lengths match, otherwise select every shown row. Stated by `SelectAllFlipsHeader`, `SelectAllTwiceClears` and `SelectAllComparesLengthsOnly`. |
| RoleTable.SelectAllFlipsHeader | src/components/Role/ModernRoleTable.jsx:92-98 | With rows shown, the header checkbox flips. Once checked every row is checked; once cleared none is. |
| RoleTable.SelectAllTwiceClears | src/components/Role/ModernRoleTable.jsx:92-98 | Selecting all and clicking again clears the selection. |
| RoleTable.SelectAllComparesLengthsOnly | src/components/Role/ModernRoleTable.jsx:92-98 | Only lengths are compared. With id 7 selected and only user 8 shown, the header shows checked and a click clears the selection. |
| RoleTable.UpdateRoleCheck | src/components/Role/ModernRoleTable.jsx:100-123 | The update guards and the prompt they lead to. Stated by `UpdateRoleGuards`. |
| RoleTable.UpdateRoleGuards | src/components/Role/ModernRoleTable.jsx:100-116 | The handler prompts exactly when the update button is enabled. A missing role is reported before an empty selection. The prompt carries the selection, a non-zero role id and the page and page size it was raised on. |
| RoleTable.RoleBadgeColor | src/components/Role/ModernRoleTable.jsx:185-196 | `getRoleBadgeColor`: the colour name of a role, compared lower-cased. Stated by `RoleBadgeColorNamesVariant`. |
| RoleTable.RoleBadgeColorNamesVariant | src/components/Role/ModernRoleTable.jsx:185-196 | Admin, user and moderator, in any case, get error, info and warning; any other or missing role gets secondary. |
| RoleTable.RoleBadgeShownAsWritten | src/components/Role/ModernRoleTable.jsx:381-386 | Re-classified by the badge, every role keeps its colour except moderator, which is shown as secondary. |
| RoleTable.RoleBadgeShownIntendedIsRoleVariant | src/components/Role/ModernRoleTable.jsx:185-196 | With `warning` recognised, every role is shown with its intended colour. |
| RoleTable.RoleCsvRow | src/components/Role/ModernRoleTable.jsx:166-174 | One exported line: id, quoted name, quoted role and phone, joined by commas. Stated by `RoleCsvFieldWrapsQuoted` and `RoleCsvFieldNotReadable`. |
| RoleTable.RoleCsvLines | src/components/Role/ModernRoleTable.jsx:162-175 | The header line followed by one line per shown row. Stated by `RoleCsvHeaderText` and `RoleCsvLinesShape`. |
| RoleTable.RoleCsvHeaderText | src/components/Role/ModernRoleTable.jsx:163 | The header line is `ID,Họ Tên,Vai Trò,Số Điện Thoại`. |
| RoleTable.RoleCsvLinesShape | src/components/Role/ModernRoleTable.jsx:162-177 | The export is the header followed by one line per shown row, in row order. |
| RoleTable.RoleCsvFieldWrapsQuoted | src/components/Role/ModernRoleTable.jsx:169-170 | A text field as written is the RFC 4180 quoted value inside one more pair of quotes. |
| RoleTable.RoleCsvFieldNotReadable | src/components/Role/ModernRoleTable.jsx:169-170 | For `a"b` the export writes `""a""b""`, which a CSV reader rejects. |
| RoleTable.RoleCsvFieldIntendedReadable | src/components/Role/ModernRoleTable.jsx:169-170 | The corrected field reads back as the exported value, with a missing value read as empty. |
| RoleTable.ModernRoleTable.constructor | src/components/Role/ModernRoleTable.jsx:15-25 | The initial state: page 1 of size 10, no data, no selection, no role, empty search, loading. |
| RoleTable.ModernRoleTable.StartLoading | src/components/Role/ModernRoleTable.jsx:46-47 | Loading starts. |
| RoleTable.ModernRoleTable.LoadFinished | src/components/Role/ModernRoleTable.jsx:48-62 | On success the users and counts are stored, missing ones as empty and 0, and the search re-runs. On failure they stay. Loading ends either way. |
| RoleTable.ModernRoleTable.SetSearchValue | src/components/Role/ModernRoleTable.jsx:222 | Stores the text and keeps the shown rows equal to the search over the loaded rows. |
| RoleTable.ModernRoleTable.HandlePageChange | src/components/Role/ModernRoleTable.jsx:77-80 | Moves to the page and clears the selection; the effect reloads exactly when the page changed. |
| RoleTable.ModernRoleTable.HandleSelectRow | src/components/Role/ModernRoleTable.jsx:82-90 | The selection becomes the row toggle of the old one. |
| RoleTable.ModernRoleTable.HandleSelectAll | src/components/Role/ModernRoleTable.jsx:92-98 | The selection becomes the select-all step on the shown rows. |
| RoleTable.ModernRoleTable.ClearSelection | src/components/Role/ModernRoleTable.jsx:268 | The selection becomes empty. |
| RoleTable.ModernRoleTable.SelectRole | src/components/Role/ModernRoleTable.jsx:241 | Stores the parsed role choice, which is `NaN` for the placeholder. |
| RoleTable.ModernRoleTable.HandleUpdateRole | src/components/Role/ModernRoleTable.jsx:100-135 | Gives the guard outcome for the current role, selection, page and page size, and changes nothing. |
| RoleTable.ModernRoleTable.HandleUpdateConfirmed | src/components/Role/ModernRoleTable.jsx:137-156 | Sends the ids and role captured by the prompt. On success it reloads the page and page size captured by the prompt (line 146 runs in the closure made at line 123) and clears the selection and role; on failure nothing changes. |
| RoleTable.StaleReloadExample | src/components/Role/ModernRoleTable.jsx:123-146 | Prompting on page 1, moving to page 2 before confirming, then confirming: the update still sends the captured selection and role, and the reload asks for page 1 while the table is on page 2. |
| RoleTable.ModernRoleTable.ExportToCsv | src/components/Role/ModernRoleTable.jsx:162-177 | The loop's text is the header and one line per shown row, joined by newlines. |
| RoleTable.ModernRoleTable.View | src/components/Role/ModernRoleTable.jsx:293-330 | Loading comes first. The empty state is decided by the loaded rows, not the search result. The table shows the shown rows, and the CSV button is enabled exactly while some row is shown. |
| PostTable.SearchQuery | src/components/Post/ModernPostTable.jsx:154-174 | The query a search sends. Stated by `SearchQuerySpec`. |
| PostTable.StateAfterSearch | src/components/Post/ModernPostTable.jsx:154-174 | The filter state a search leaves: the other search field is cleared and the search text is not stored. Stated by `SearchTextNotStored`. |
| PostTable.ResetQuery | src/components/Post/ModernPostTable.jsx:176-189 | The query a reset sends and leaves as state. Stated by `ResetQuerySpec`. |
| PostTable.SearchQuerySpec | src/components/Post/ModernPostTable.jsx:154-174 | A search asks for page 1 and keeps every other filter. The search text goes to the address for an address search, to the phone for a phone search, and nowhere otherwise. |
| PostTable.ResetQuerySpec | src/components/Post/ModernPostTable.jsx:176-189 | A reset sends no hire state, the pending status, no phone or address and page 1. It keeps price, area, category, VIP, sort and page size. Resetting again sends the same. |
| PostTable.SearchTextNotStored | src/components/Post/ModernPostTable.jsx:154-174 | After a search, the state describes the sent query only if the stored filter already held the search text. |
| PostTable.ApprovedPostBadge | src/components/Post/ModernPostTable.jsx:442-444 | An approved post (`Đã Duyệt`) gets the success badge. |
| PostTable.PendingPostBadge | src/components/Post/ModernPostTable.jsx:442-444 | A pending post (`Đang Chờ Duyệt`) is not listed by the classifier and gets the default badge. |
| PostTable.ToggleEntry | src/components/Post/ModernPostTable.jsx:48-53 | The show-more step on the expansion map. Stated by `ToggleEntrySpec`. |
| PostTable.ToggleEntrySpec | src/components/Post/ModernPostTable.jsx:48-53 | Toggling flips that row's expansion, where a missing entry counts as collapsed, and leaves every other row's entry as it was. Toggling twice restores every row. |
| PostTable.RenderDescription | src/components/Post/ModernPostTable.jsx:229-251 | What a description cell shows. Stated by `RenderDescriptionSpec`. |
| PostTable.RenderDescriptionSpec | src/components/Post/ModernPostTable.jsx:229-251 | A missing description shows nothing. A short or expanded one shows in full. A collapsed long one shows its first 100 characters and `...`, losing only the tail. The toggle button appears exactly for long ones, labelled `Thu gọn` when expanded and `Xem thêm` when collapsed. |
| PostTable.PostRowLine | src/components/Post/ModernPostTable.jsx:200-217 | One exported post line, or the error thrown while building it. Stated by `PostCsvThrowsOnAnyRow` and `PostCsvIntendedRows`. |
| PostTable.PostCsvRows | src/components/Post/ModernPostTable.jsx:200-219 | The `forEach` over the posts: their lines in order, or the first error. Stated by `PostCsvRowsSnoc`, `PostCsvRowsErrSticks` and `PostCsvRowsStep`. |
| PostTable.PostCsvRowsSnoc | src/components/Post/ModernPostTable.jsx:200-219 | The row lines of one more post are the earlier lines plus its line, and the first error wins. |
| PostTable.PostCsvRowsErrSticks | src/components/Post/ModernPostTable.jsx:200-219 | Once a row throws, no later row changes the outcome. |
| PostTable.PostCsvRowsStep | src/components/Post/ModernPostTable.jsx:200-219 | One loop step: a throwing row is the export's error, and a succeeding row extends the lines. |
| PostTable.PostCsvNoRows | src/components/Post/ModernPostTable.jsx:192-198 | With no posts the export is the 13-column header alone. |
| PostTable.PostCsvThrowsOnAnyRow | src/components/Post/ModernPostTable.jsx:203-204 | As written, any non-empty export throws `TypeError` at the first post's title, whatever the posts hold. |
| PostTable.PostCsvIntendedRows | src/components/Post/ModernPostTable.jsx:200-219 | With `.replace` every post gives a line, in order. |
| PostTable.PostCsvIntendedSucceeds | src/components/Post/ModernPostTable.jsx:191-221 | With `.replace` the export succeeds and is the header followed by one line per post. |
| PostTable.ModernPostTable.constructor | src/components/Post/ModernPostTable.jsx:17-46 | The initial state: page 1 of size 10, sorted by creation date, pending status, no other filter, buttons disabled, loading. |
| PostTable.ModernPostTable.StartLoading | src/components/Post/ModernPostTable.jsx:58 | Loading starts. |
| PostTable.ModernPostTable.LoadFinished | src/components/Post/ModernPostTable.jsx:59-75 | On success the posts and counts are stored, missing ones as empty and 0; on failure they stay. Loading ends either way. |
| PostTable.ModernPostTable.HandlePageChange | src/components/Post/ModernPostTable.jsx:150-152 | Moves to the page; the effect reloads from the state exactly when the page changed. |
| PostTable.ModernPostTable.ToggleShowMore | src/components/Post/ModernPostTable.jsx:48-53 | The map becomes the toggle of the old one at that row. |
| PostTable.ModernPostTable.SetSearchValue | src/components/Post/ModernPostTable.jsx:276-279 | Stores the text and enables the buttons. |
| PostTable.ModernPostTable.SetTypeSearch | src/components/Post/ModernPostTable.jsx:286-289 | Stores the search type and enables the buttons. |
| PostTable.ModernPostTable.SetStatusState | src/components/Post/ModernPostTable.jsx:300-303 | Stores the status filter and enables the buttons. |
| PostTable.ModernPostTable.SetHireState | src/components/Post/ModernPostTable.jsx:315-318 | Stores the hire filter and enables the buttons. |
| PostTable.ModernPostTable.HandleSearch | src/components/Post/ModernPostTable.jsx:154-174 | Sends the search query built from the old state. The new state is the after-search state. From a page other than 1 the effect also reloads, with that state. |
| PostTable.ModernPostTable.HandleReset | src/components/Post/ModernPostTable.jsx:176-189 | Sends the reset query, which is the query the new state describes. The buttons are disabled and the search is cleared. From a page other than 1 the effect sends the reset query again. |
| PostTable.ModernPostTable.ClickSearch | src/components/Post/ModernPostTable.jsx:325-330 | While the button is disabled a click sends nothing and changes nothing. Otherwise it sends the search query, the state becomes the after-search state, the buttons stay enabled, and from a page other than 1 the effect reloads with that state. |
| PostTable.ModernPostTable.ClickReset | src/components/Post/ModernPostTable.jsx:332-338 | While the button is disabled a click sends nothing and changes nothing. Otherwise it sends the reset query, the state becomes that query, the search is cleared and the buttons disabled, and from a page other than 1 the effect sends the reset query again. |
| PostTable.ModernPostTable.ExportRowsWith | src/components/Post/ModernPostTable.jsx:198-220 | The loop writes the header and the rows left to right, ending with the first row's error. |
| PostTable.ModernPostTable.ExportToCsv | src/components/Post/ModernPostTable.jsx:191-221 | The export as written equals `PostCsv` of the loaded posts, so by the lemmas above it throws on the first post. |
| PostTable.ModernPostTable.ExportToCsvIntended | src/components/Post/ModernPostTable.jsx:191-221 | The corrected export equals `PostCsvIntended`. |
| PostTable.ModernPostTable.View | src/components/Post/ModernPostTable.jsx:344-362 | Loading comes first. With no posts the empty message is shown with the toolbar, whose buttons are enabled exactly when `isApply` holds. Otherwise the posts are shown. |

## Left out

- REST calls, toasts, `console.error` and the download: they cannot be modelled here. The calls are `getUserRole`, `getRoles`, `putUserRole` and `getPostData`; the download is `encodeURI` plus a synthetic link click. A call becomes the request the handler sends and the outcome delivered to it, and the export stops at the text it would encode.
- Asynchrony: the model does not interleave a pending `loadData` with later state changes. Each load is its start (`StartLoading`) and its completion (`LoadFinished`), applied in order.
- `loadRoles` and the role list: the role options feed only the select's entries and the role name in the confirmation text, which the model does not carry. The role page effect's `loadRoles` call is not modelled.
- The edit, approve and delete dialogs of the post table (`handleEditDialog`, `handleApproveDialog`, `handleDelete`, `handleDeleteConfirmed`, `handleCloseDialog`): they open other components, and their reloads use the state query `CurrentQuery`.
- JSX markup, CSS classes, icons, `toLocaleString` price formatting and the user `isActive` badge: these are presentation only.
- JsStrings.LowerChar: lowers only ASCII, Latin-1 and the Vietnamese letters (Ă Đ Ĩ Ũ Ơ Ư and U+1EA0–U+1EF9), not all of Unicode. Every literal in these components is within that set.
- PostTable.RenderDescription: counts characters, while `content.length` and `slice` count UTF-16 code units. The two agree for the Vietnamese text in question, which lies in the Basic Multilingual Plane.
- Post and user numbers (`id`, `area`, `price`) are integers: the source's JavaScript numbers are doubles, so they may be fractional, lose precision above 2^53, and print in exponent form from 1e21; none of this is modelled, so `JsStrings.NumberToString` is the decimal form of an exact integer.
- The pagination props are taken as given integers. The components pass `totalPage` and `page`, and the defaults `currentPage = 1` and `totalPages = 1` are not modelled separately.
- `src/components/Tier/TierList.js` and `src/pages/Post/index.jsx` are not part of this model.

## Findings

| source | as written | input that shows it | evidently intended | confidence | as-written member | corrected member |
|---|---|---|---|---|---|---|
| src/components/Post/ModernPostTable.jsx:203-204 | the title field calls `.place(/"/g, '""')` on the quoted title; strings have no `place` method | any non-empty post list, e.g. one post with id 1 | `.replace(/"/g, '""')` as on the description and address fields | high, not executed | PostTable.PostCsvThrowsOnAnyRow | PostTable.PostCsvIntendedSucceeds |
| src/components/Role/ModernRoleTable.jsx:169-170 | the quotes are added before `replace(/"/g,'""')`, so they are doubled too (the post export's description and address fields, lines 206-207, do the same) | full name `a"b` is written as `""a""b""`, which a CSV reader rejects | the RFC 4180 quoted form `"a""b"`, which reads back as `a"b` | high, not executed | RoleTable.RoleCsvFieldNotReadable | RoleTable.RoleCsvFieldIntendedReadable |
| src/components/Role/ModernRoleTable.jsx:185-196 | `getRoleBadgeColor` returns the class name `warning` for moderators, and this is passed to `StatusBadge` as a status; `warning` is not one of the statuses `getBadgeVariant` lists | role name `moderator` | a warning-coloured badge for moderators | medium, not executed | RoleTable.RoleBadgeShownAsWritten | RoleTable.RoleBadgeShownIntendedIsRoleVariant |
