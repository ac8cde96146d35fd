# Consultant portal front end: a verified model of its logic

The portal is a Next.js front end for a customer and consultant service:
- a generic data table with client- or server-side paging and a debounced search box;
- typed wrappers over the REST API for users, consultants and customers;
- an HTTP client that attaches the bearer token;
- a profile page and profile card;
- an image uploader;
- a consultant search hook with an offline fallback;
- two country pickers.

This project models the logic of those pieces in Dafny and proves what each promises. Rendering is not part of the model.

Each source component becomes one module:

- `Wrappers`: `Option` and `Result`.
- `Text`: ASCII `toLowerCase`/`toUpperCase`, `includes`, `startsWith`, `trim`, `split`/`join`, `String(n)` and `parseInt(s, 10)`.
- `Js`: JavaScript values, truthiness, `||` and `String(v)`.
- `UrlQuery`: `URLSearchParams` `get`, `set` and `delete` on an ordered list of pairs.
- `DynamicTable` (`components/common/DynamicTable.tsx`):
  - filtering, page count, clamping and slicing;
  - the numbered page strip, built by a loop;
  - the Previous and Next targets;
  - the initial state taken from the URL;
  - the URL-sync effect;
  - the class `TableState`, holding the component state (`currentPage`, `search`, `localSearch`, the pending debounce commit) and its handlers.
- `UserApi` (`services/apis/user.api.ts`):
  - `normalizeUser`;
  - the request parameters and reply mapping of `getUsers`;
  - the two consultant wrappers.
- `CustomerApi` (`services/apis/customer.api.ts`):
  - the query string of `getCustomers`, built by appends;
  - the reply defaults of `getCustomers`, `deleteCustomer` and `sendRenewSubscriptionAlert`.
- `HttpAuth` (`services/http.ts`):
  - the token choice (stored token, else the auth cookie);
  - the `Authorization` header;
  - the pass-through interceptors.
- `ProfilePage` (`components/profile/ProfilePage.tsx`):
  - form defaults and the unsaved-changes check;
  - edit toggle, profile update and password update;
  - the render branch;
  - all held in the class `ProfileState`.
- `ImageUpload` (`components/common/ImageUpload.tsx`): the class `ImageUploadState`, covering the upload start and settle, removal and picker gating.
- `ConsultantSearch` (`hooks/useConsultantSearch.ts`): the class `ConsultantSearchState`, covering the search transitions and the offline fallback over the five built-in records.
- `ProfileCard` (`components/profile/ProfileCard.tsx`): initials, role colour and role label, the status badge and the photo hand-off.
- `CountrySelect` (`components/common/CountrySelect.tsx`): the option list, the case-insensitive lookup and selection.
- `CountryCodeSelect` (`components/common/CountryCodeSelect.tsx`): the calling-code expansion, the exact lookup and selection.

Asynchronous handlers are split where the intermediate state matters:
- the part before the `await` is one method;
- what happens once the promise settles is another method, which takes the outcome as an input.

## Model

| member | source | states |
|---|---|---|
| Text.Lower | components/common/DynamicTable.tsx:169-171 | `toLowerCase` keeps the length and maps every character through the ASCII lower-case mapping |
| Text.Upper | components/profile/ProfileCard.tsx:38 | `toUpperCase` keeps the length and maps every character through the ASCII upper-case mapping |
| Text.TrimStart | services/apis/user.api.ts:84 | the result is a suffix of the input, everything removed is white space, and it does not start with white space |
| Text.TrimEnd | services/apis/user.api.ts:84 | the result is a prefix of the input, everything removed is white space, and it does not end with white space |
| Text.TrimBlank | services/apis/user.api.ts:129 | `s.trim()` is empty exactly when `s` is all white space |
| Text.TrimIsSlice | services/apis/user.api.ts:84 | `trim` returns a contiguous slice of its input |
| Text.TrimEnds | services/apis/user.api.ts:84 | a non-empty trimmed text starts and ends with a non-space character |
| Text.IndexOf | services/http.ts:22-25 | the result is the first position at which the separator occurs, and `None` means it occurs nowhere |
| Text.NoSepBeforeFirst | services/http.ts:25 | the text before the first separator holds no separator |
| Text.SplitJoin | services/http.ts:22-25 | joining the pieces of `split(sep)` with `sep` gives back the input, and no piece holds the separator |
| Text.JoinCons | components/profile/ProfileCard.tsx:37 | joining a first piece onto a non-empty rest inserts exactly one separator |
| Text.NatToString | components/common/DynamicTable.tsx:139 | the decimal text of a natural number is non-empty and all digits |
| Text.DigitPrefix | components/common/DynamicTable.tsx:63 | the digit run `parseInt` reads is the longest all-digit prefix |
| Text.DigitRunValue | components/common/DynamicTable.tsx:63 | parsing fails (NaN) exactly when no digit follows |
| Text.DigitsOfNat | components/common/DynamicTable.tsx:63 | reading back the digits of `String(n)` gives `n` |
| Text.ParseIntOfIntToString | components/common/DynamicTable.tsx:61-64 | `parseInt(String(n), 10) == n` for every integer, negative ones included |
| Text.NegSigned | components/common/DynamicTable.tsx:61-64 | a leading minus sign before a run of digits reads as the negated value of the digits |
| Js.OrChain | services/apis/user.api.ts:80-85 | `a \|\| b \|\| c` is the first truthy operand, else the last one |
| UrlQuery.Only | components/common/DynamicTable.tsx:138 | the pairs kept all carry the requested name |
| UrlQuery.Delete | components/common/DynamicTable.tsx:145 | deleting never lengthens the query |
| UrlQuery.OnlyAppend | components/common/DynamicTable.tsx:138 | selecting one name's pairs distributes over concatenation |
| UrlQuery.GetOnly | components/common/DynamicTable.tsx:138 | `get(name)` is the value of the first pair with that name, or null when there is none |
| UrlQuery.DeleteSpec | components/common/DynamicTable.tsx:145 | after `delete(name)` no pair has that name, and every other name's pairs are unchanged and in order |
| UrlQuery.SetSpec | components/common/DynamicTable.tsx:139-143 | after `set(name, v)` exactly one pair `(name, v)` has that name, and every other name's pairs are unchanged and in order |
| UrlQuery.GetAfterUpdate | components/common/DynamicTable.tsx:138-146 | `get` after `set` returns the value set, `get` after `delete` returns null, and other names read as before |
| DynamicTable.FilterRows | components/common/DynamicTable.tsx:165-173 | the filtered rows are no more than the data, and every kept row is a data row that matches |
| DynamicTable.FilterAppend | components/common/DynamicTable.tsx:165-173 | filtering a concatenation filters each part, so kept rows stay in their original order |
| DynamicTable.FilterKeeps | components/common/DynamicTable.tsx:165-173 | a row is kept iff it is in the data and some non-`actions` column's text, lower-cased, contains the lower-cased search |
| DynamicTable.FilterKeepsAll | components/common/DynamicTable.tsx:165-173 | the same membership equivalence, for every row at once |
| DynamicTable.EmptySearchKeepsAll | components/common/DynamicTable.tsx:165-173 | with at least one data column, an empty search keeps every row in order |
| DynamicTable.NoSearchableColumn | components/common/DynamicTable.tsx:166-168 | with only `actions` columns nothing matches, even an empty search |
| DynamicTable.PageCount | components/common/DynamicTable.tsx:175-177 | the page count is `ceil(n / size)`: `n <= r*size < n + size`; it is 0 for no rows and at least 1 otherwise |
| DynamicTable.SliceIndex | components/common/DynamicTable.tsx:184-187 | `Array.slice` turns a negative index into an offset from the end, and the result stays within the list |
| DynamicTable.PageAtMostSize | components/common/DynamicTable.tsx:182-187 | a page never holds more than `pageSize` rows, for any page index, negative ones included |
| DynamicTable.PageShape | components/common/DynamicTable.tsx:184-187 | page `p >= 0` is rows `p*size` to `(p+1)*size` of the filtered list, cut at its end |
| DynamicTable.PagesDisjoint | components/common/DynamicTable.tsx:184-187 | an earlier page ends no later than a later page starts, so pages do not overlap |
| DynamicTable.PagesBeforeIsPrefix | components/common/DynamicTable.tsx:184-187 | the first `k` pages, concatenated, are the first `min(k*size, n)` rows |
| DynamicTable.PagesCoverRows | components/common/DynamicTable.tsx:175-187 | pages `0 .. pageCount-1`, concatenated, are exactly the filtered rows |
| DynamicTable.PageMinusOneEmpty | components/common/DynamicTable.tsx:180-187 | page -1 (what the clamp gives on an empty table) is always empty |
| DynamicTable.WindowBounds | components/common/DynamicTable.tsx:396-406 | the window of numbered pages lies within `0 .. pageCount`, holds `min(5, pageCount)` pages and contains the shown page |
| DynamicTable.Buttons | components/common/DynamicTable.tsx:441-460 | the window's buttons are the consecutive page indexes from its start |
| DynamicTable.StripAt | components/common/DynamicTable.tsx:410-485 | each strip item comes from the first-page part, the window or the last-page part, in that order |
| DynamicTable.StripIncreasing | components/common/DynamicTable.tsx:410-485 | every page button in the strip is in range, and the buttons strictly increase |
| DynamicTable.StripGapsMarked | components/common/DynamicTable.tsx:428-471 | two adjacent buttons are consecutive pages; an ellipsis sits between two buttons that skip at least one page |
| DynamicTable.ButtonsConsecutive | components/common/DynamicTable.tsx:441-460 | two adjacent buttons in the strip show consecutive pages |
| DynamicTable.EllipsesMarkGaps | components/common/DynamicTable.tsx:428-437 | every ellipsis is flanked by two buttons that skip at least one page |
| DynamicTable.StripEnds | components/common/DynamicTable.tsx:410-485 | a non-empty table's strip starts at page 0, ends at the last page and contains the shown page; an empty table has no strip |
| DynamicTable.BuildStrip | components/common/DynamicTable.tsx:394-491 | the loop that pushes the buttons builds exactly the strip |
| DynamicTable.ButtonsSnoc | components/common/DynamicTable.tsx:441-460 | each loop round appends exactly the button for the next page of the window |
| DynamicTable.NavigationInRange | components/common/DynamicTable.tsx:341-364 | on an existing page Previous and Next stay in range and move by one page, and each is disabled exactly when its target is the current page |
| DynamicTable.NextPastLastPage | components/common/DynamicTable.tsx:499-505 | a stored page past the end shows the last page, leaves Next enabled, and Next targets the last page |
| DynamicTable.NextOnEmptyTable | components/common/DynamicTable.tsx:499-505 | as written, Next on an empty table is enabled and targets page -1, which shows no row even once rows exist |
| DynamicTable.NextTargetClamped | components/common/DynamicTable.tsx:499-505 | the corrected Next target is never negative, agrees with the source's on a valid page, and stays on an existing page |
| DynamicTable.InitialPageCases | components/common/DynamicTable.tsx:61-74 | without `page` the table starts on page 0; `page=n` starts on `max(0, n-1)`; a non-zero server `currentPage` of `n` starts on page `n-1` |
| DynamicTable.TableState.constructor | components/common/DynamicTable.tsx:67-75 | the state starts on the given page and search, with the box echoing the search and no commit pending |
| DynamicTable.TableState.Keystroke | components/common/DynamicTable.tsx:78-125 | a keystroke shows the text at once and replaces any pending commit with one for this text; search and page are untouched |
| DynamicTable.TableState.Commit | components/common/DynamicTable.tsx:84-88 | the timer commits the pending text, returns to page 0 and reports to `onSearch` if one is supplied; with nothing pending nothing changes |
| DynamicTable.TableState.Unmount | components/common/DynamicTable.tsx:128-134 | unmounting cancels the pending commit and changes nothing else |
| DynamicTable.TableState.PageChange | components/common/DynamicTable.tsx:155-160 | the page is always stored, and `onPageChange` hears of it only in server mode when it is supplied |
| DynamicTable.TableState.ServerSync | components/common/DynamicTable.tsx:190-194 | in server mode a defined `currentPage` prop sets page `prop - 1`; otherwise nothing changes |
| DynamicTable.TableState.PrevPressed | components/common/DynamicTable.tsx:341-345 | a press is ignored on stored page 0; otherwise it changes to the page before the shown one, never below 0 |
| DynamicTable.TableState.NextPressed | components/common/DynamicTable.tsx:499-505 | a press is ignored on the last stored page; otherwise it moves to the corrected next target, which is non-negative and an existing page |
| DynamicTable.TableState.Rows | components/common/DynamicTable.tsx:163-173 | in server mode the rows are the data untouched; otherwise a row is kept iff it matches the committed search |
| DynamicTable.TableState.Pages | components/common/DynamicTable.tsx:175-177 | in client mode the count is the ceiling of the filtered rows over the page size; in server mode it is the ceiling of `totalCount || 0` over the page size |
| DynamicTable.TableState.Visible | components/common/DynamicTable.tsx:180-187 | server mode shows the data unsliced; client mode shows at most `pageSize` rows, the clamped page's slice, and nothing when no row matches |
| DynamicTable.ShownPageShape | components/common/DynamicTable.tsx:180-187 | the slice for the clamped page has the shape the visible-rows property describes |
| DynamicTable.TableState.UrlSync | components/common/DynamicTable.tsx:136-152 | outside server mode the pushed query has `page = currentPage + 1`, has `search` iff the search is non-empty, and keeps every other parameter in order; in server mode nothing is pushed |
| DynamicTable.SyncedGets | components/common/DynamicTable.tsx:138-146 | the synced query reads back `page` as the given text, and `search` as the search text exactly when it is non-empty |
| DynamicTable.SyncedKeepsOthers | components/common/DynamicTable.tsx:138-146 | every parameter other than `page` and `search` keeps its entries, in order, in the synced query |
| DynamicTable.TableState.SyncThenReload | components/common/DynamicTable.tsx:136-152 | reloading from the pushed URL restores the page (clamped at 0) and the committed search |
| DynamicTable.Mount | components/common/DynamicTable.tsx:60-75 | mounting starts on the page and search read from the URL and the props, with nothing pending |
| DynamicTable.NatToStringNonEmpty | components/common/DynamicTable.tsx:139 | the page number written to the URL is never empty |
| DynamicTable.LastKeystrokeWins | components/common/DynamicTable.tsx:78-125 | several keystrokes before the timer fires commit only the last text, once, and return to page 0 |
| UserApi.PhotoOf | services/apis/user.api.ts:88-95 | the photo is the first of `photo`, `profilePhoto`, `avatar` that is a string (even an empty one), else undefined |
| UserApi.Normalized | services/apis/user.api.ts:79-105 | the normalised literal has exactly the eleven keys, each with its fallback value |
| UserApi.NormalizeUser | services/apis/user.api.ts:108 | the result has the normalised keys plus the raw keys; every raw key keeps its raw value, and the others take the normalised value |
| UserApi.IdEmailPhone | services/apis/user.api.ts:80-87 | `_id`, `email` and `phone` take the first truthy source, so an empty string falls through |
| UserApi.NameFallback | services/apis/user.api.ts:81-85 | the name is always truthy: `name`, else `fullName`, else the trimmed joined parts, else `'Unknown'` |
| UserApi.NameFromParts | services/apis/user.api.ts:84 | two parts are joined with one space when they have no outer white space |
| UserApi.TrimUnchanged | services/apis/user.api.ts:84 | a text with non-space ends is its own trim |
| UserApi.PartsJoined | services/apis/user.api.ts:84 | string first and last names enter the fallback unchanged, joined by one space |
| UserApi.NameOfJoined | services/apis/user.api.ts:84 | with no usable `name` or `fullName`, a non-empty joined name is the name |
| UserApi.NameUnknown | services/apis/user.api.ts:85 | a record with no name fields is called `'Unknown'` |
| UserApi.EmptyPhotoKept | services/apis/user.api.ts:89-90 | an empty-string `photo` wins over a later `avatar`, because the test is on the type |
| UserApi.StatusAndActive | services/apis/user.api.ts:100-104 | `status` defaults to `'active'`, while `active` is the raw boolean or whether the raw status is `'active'` (false when it is absent) |
| UserApi.RawKeyWins | services/apis/user.api.ts:108 | an empty raw `name` overrides the normalised name, because the raw record is spread last |
| UserApi.UserParams | services/apis/user.api.ts:119-132 | the parameters hold `role=consultant`, the page and limit (defaults 1 and 10), and `searchFields` with the trimmed `search` only when the search is non-blank |
| UserApi.BlankSearchSendsNone | services/apis/user.api.ts:129 | a search is sent exactly when the text is not all white space |
| UserApi.NormalizeAll | services/apis/user.api.ts:140 | every row is normalised, in order, one result per row |
| UserApi.MapUsersResponse | services/apis/user.api.ts:139-148 | the call fails exactly when no row list can be read; otherwise the users are the normalised rows, the total is `meta.totalCount || meta.results || 0`, the page is `meta.currentPage || page` and the limit `meta.limit || limit` |
| UserApi.GetUsers | services/apis/user.api.ts:113-153 | it sends `role = consultant`, the page and limit with their defaults, and `searchFields = name,email` with the trimmed search exactly when the search is not blank; it rethrows a failed request and otherwise returns the mapped reply |
| UserApi.WithConsultants | services/apis/user.api.ts:242-246 | the consultant view adds `consultants` equal to `users` and passes errors on |
| UserApi.SearchConsultants | services/apis/user.api.ts:240-243 | it calls `getUsers` with the query as search (page 1 and limit 10 by default, role `consultant`, the search fields iff the query is not blank) and adds `consultants` |
| UserApi.GetAllConsultants | services/apis/user.api.ts:244-247 | it calls `getUsers` without a search, with role `consultant` and limit 50 by default, and adds `consultants` |
| CustomerApi.Fragment | services/apis/customer.api.ts:124-129 | the search and consultant fragments are empty exactly when their text is absent or blank, and otherwise are the fixed key followed by the encoded, trimmed text |
| CustomerApi.CustomerQuery | services/apis/customer.api.ts:123-129 | the query is the page/limit prefix (defaults 1 and 10), then the search fragment, then the consultant fragment; with neither it is the prefix alone |
| CustomerApi.PrefixOfAppend | services/apis/customer.api.ts:123-129 | appending keeps the query's prefix |
| CustomerApi.SearchPartTrims | services/apis/customer.api.ts:124-125 | a blank search adds nothing, and a search is trimmed before encoding, so pre-trimming changes nothing |
| CustomerApi.TrimIdempotent | services/apis/customer.api.ts:124-125 | trimming twice is trimming once |
| CustomerApi.MapCustomers | services/apis/customer.api.ts:135-143 | the mapping fails exactly when the total must come from `data.data.length` and that cannot be read; otherwise status and message are truthy with their defaults, the total is `meta.totalCount || data.data.length`, the page `meta?.currentPage || page` and the limit `meta?.limit || limit` |
| CustomerApi.GetCustomers | services/apis/customer.api.ts:107-149 | it sends the query above, rethrows a failed request, and otherwise returns the mapped reply |
| CustomerApi.DeleteCustomerResult | services/apis/customer.api.ts:184-187 | status defaults to 200 and the message to the fixed success text, so both are always truthy |
| CustomerApi.RenewAlertResult | services/apis/customer.api.ts:206-213 | the message is the server's `data.message` if truthy, else the fixed text, and the status defaults to 200 |
| HttpAuth.FirstMatch | services/http.ts:24 | the index found is the first entry that starts with the cookie name; `None` means no entry does |
| HttpAuth.ValueOf | services/http.ts:25 | `split('=')[1]` is undefined exactly when the entry has no `=` |
| HttpAuth.ValueBetweenEquals | services/http.ts:25 | the value read is the text between the entry's first `=` and the next `=` (or its end) |
| HttpAuth.ValueParts | services/http.ts:25 | an entry with a value is name, `=`, value and a rest that is empty or starts with `=` |
| HttpAuth.SplitAtFirst | services/http.ts:25 | splitting on a separator cuts at its first occurrence: the first piece holds no separator and the text after it is split again |
| HttpAuth.FirstPiece | services/http.ts:25 | the first split piece is the text before the first separator and holds none |
| HttpAuth.SplitCount | services/http.ts:25 | a text splits into more than one piece exactly when it contains the separator |
| HttpAuth.CookieTokenSource | services/http.ts:22-25 | no matching entry gives no token; otherwise there is a token exactly when the first matching entry holds `=`, and it is the text between that entry's first `=` and the next `=` (or its end) |
| HttpAuth.LongerNameMatches | services/http.ts:24 | the prefix test also accepts an earlier cookie whose name merely begins with the auth cookie's name |
| HttpAuth.ValueCutAtEquals | services/http.ts:25 | a cookie value containing `=` is cut at it |
| HttpAuth.SplitWhole | services/http.ts:23 | a text without the separator's first character does not split |
| HttpAuth.SplitAround | services/http.ts:23 | splitting `a + sep + b` cuts right after `a` when `a` cannot start a separator |
| HttpAuth.TokenPriority | services/http.ts:17-26 | a stored token wins and the cookie is then irrelevant; the cookie is read only without a stored token and in a browser |
| HttpAuth.RequestConfig.constructor | services/http.ts:16 | the configuration starts with the given headers |
| HttpAuth.RequestConfig.Intercept | services/http.ts:16-33 | the same configuration is returned, with `Authorization: Bearer <token>` set iff a token was found, and the headers otherwise unchanged |
| HttpAuth.PassThrough | services/http.ts:34-55 | a response or error leaves the interceptors exactly as it came, a 401 included |
| ProfilePage.DefaultField | components/profile/ProfilePage.tsx:71-80 | each default is the user's field, or `''` when there is no user or no field |
| ProfilePage.HasChangesIsInequality | components/profile/ProfilePage.tsx:101-105 | the field-by-field comparison finds changes exactly when the form differs from the defaults |
| ProfilePage.PasswordErrorMessage | components/profile/ProfilePage.tsx:147-155 | the toast text is never empty: the server's message, else the error's own, else the fixed text |
| ProfilePage.RenderView | components/profile/ProfilePage.tsx:192-223 | the skeleton shows iff loading with no user; the error view iff not loading, with an error and no user; the not-found alert iff neither; the main view iff a user is loaded |
| ProfilePage.ProfileState.constructor | components/profile/ProfilePage.tsx:65-94 | the page starts out of edit mode, with nothing unsaved, the form on the user's defaults and the password form empty |
| ProfilePage.ProfileState.Type | components/profile/ProfilePage.tsx:97 | typing changes only the form's values |
| ProfilePage.ProfileState.WatchEffect | components/profile/ProfilePage.tsx:99-108 | while editing, the unsaved flag becomes whether the form differs from the defaults; otherwise it is left alone; unsaved changes are only flagged while editing |
| ProfilePage.ProfileState.EditToggle | components/profile/ProfilePage.tsx:164-176 | leaving edit mode with unsaved changes and no confirmation changes nothing; otherwise leaving resets the form and the flag, and the mode flips |
| ProfilePage.ProfileState.ProfileUpdate | components/profile/ProfilePage.tsx:123-132 | a successful update leaves edit mode with nothing unsaved; a failed one changes nothing |
| ProfilePage.ProfileState.PasswordUpdateStart | components/profile/ProfilePage.tsx:137 | the password update marks itself busy and nothing else changes |
| ProfilePage.ProfileState.PasswordUpdateSettle | components/profile/ProfilePage.tsx:138-159 | success shows the success toast and empties the password form; failure shows the chosen error and keeps the form; busy is cleared either way |
| ProfilePage.ProfileState.UserChanged | components/profile/ProfilePage.tsx:184-189 | a newly loaded user resets the form to its defaults and clears the unsaved flag; a missing user leaves the form alone |
| ProfilePage.EnterAndCancel | components/profile/ProfilePage.tsx:164-176 | entering and at once leaving edit mode asks nothing and restores the defaults |
| ImageUpload.FirstFile | components/common/ImageUpload.tsx:35-40 | a file is chosen iff the list exists and is non-empty, and it is the first one (the drop handler picks the same way) |
| ImageUpload.ImageUploadState.constructor | components/common/ImageUpload.tsx:31-33 | the preview starts as `value \|\| ''`, not uploading, with an empty input |
| ImageUpload.ImageUploadState.UploadStart | components/common/ImageUpload.tsx:42-55 | an invalid file changes nothing; a valid one marks busy and shows its local preview |
| ImageUpload.ImageUploadState.UploadSettle | components/common/ImageUpload.tsx:59-76 | on a 200 reply with a url the preview is revoked, the url shown and reported; otherwise the preview is cleared; busy drops either way |
| ImageUpload.ImageUploadState.FileUpload | components/common/ImageUpload.tsx:42-77 | the whole upload; with the reply the component awaits today a valid file ends with no preview and no `onChange` |
| ImageUpload.ImageUploadState.Choose | components/common/ImageUpload.tsx:35-40 | only the first file is uploaded, and nothing happens without one |
| ImageUpload.ImageUploadState.Remove | components/common/ImageUpload.tsx:79-86 | removal clears the preview, reports `''`, calls `onRemove` iff supplied and clears a mounted input |
| ImageUpload.ImageUploadState.KeyOpensPicker | components/common/ImageUpload.tsx:129-139 | Enter or Space opens the picker exactly when a click would: not disabled, not uploading, input mounted |
| ImageUpload.StubbedUpload | components/common/ImageUpload.tsx:59-73 | with the stubbed reply a valid upload always ends with no preview, no `onChange` and not busy |
| ConsultantSearch.FilterMatching | hooks/useConsultantSearch.ts:73-77 | a record is kept iff its name or e-mail, lower-cased, contains the lower-cased query |
| ConsultantSearch.FilterKeepsOrder | hooks/useConsultantSearch.ts:73-77 | filtering a concatenation filters each part, so the kept records keep their order |
| ConsultantSearch.MockResults | hooks/useConsultantSearch.ts:36-77 | the fallback is at most the five built-in records, exactly those that match |
| ConsultantSearch.ConsultantSearchState.constructor | hooks/useConsultantSearch.ts:14-16 | the hook starts with no consultants, not loading and no error |
| ConsultantSearch.ConsultantSearchState.BeginSearch | hooks/useConsultantSearch.ts:19-25 | a blank query only empties the list and makes no call; any other query sets loading and clears the error |
| ConsultantSearch.ConsultantSearchState.SettleSearch | hooks/useConsultantSearch.ts:27-91 | a reply sets its consultants (or none); a failure falls back to the matching built-in records and sets the offline error only for an `Error` whose message mentions neither `404` nor `Network`; loading ends |
| ConsultantSearch.ConsultantSearchState.Search | hooks/useConsultantSearch.ts:18-92 | a whole non-blank search ends not loading, with the reply's list and no error, or with the fallback list and the classified error |
| ConsultantSearch.ConsultantSearchState.ClearResults | hooks/useConsultantSearch.ts:94-97 | clearing empties the list and the error and leaves loading alone |
| ProfileCard.Head | components/profile/ProfileCard.tsx:36-37 | a word contributes its first character, and an empty word contributes nothing |
| ProfileCard.Heads | components/profile/ProfileCard.tsx:36 | one head per word, in order |
| ProfileCard.GetInitials | components/profile/ProfileCard.tsx:33-40 | the initials are at most two characters |
| ProfileCard.WordStarts | components/profile/ProfileCard.tsx:33-40 | the reference scan yields only non-space characters, at most one per input character |
| ProfileCard.NoSpaceRun | components/profile/ProfileCard.tsx:35-37 | a space-free run contributes its first character exactly when a word starts there |
| ProfileCard.HeadsAreWordStarts | components/profile/ProfileCard.tsx:35-37 | splitting on single spaces and joining the first characters gives exactly the word starts; empty pieces from repeated spaces add nothing |
| ProfileCard.InitialsAreWordStarts | components/profile/ProfileCard.tsx:33-40 | the initials are the first two word starts, upper-cased |
| ProfileCard.TwoWordInitials | components/profile/ProfileCard.tsx:33-40 | `first last` gives the two first letters, upper-cased |
| ProfileCard.NoWordNoInitials | components/profile/ProfileCard.tsx:33-40 | an empty or all-space name has no initials |
| ProfileCard.AllSpacesNoStarts | components/profile/ProfileCard.tsx:35-37 | a text of spaces has no word start |
| ProfileCard.RoleColor | components/profile/ProfileCard.tsx:42-51 | the classes are red iff the lower-cased role is `admin`, blue iff it is `consultant`, and gray for every other role |
| ProfileCard.RoleColorIgnoresCase | components/profile/ProfileCard.tsx:43 | roles that differ only in letter case get the same classes |
| ProfileCard.RoleLabel | components/profile/ProfileCard.tsx:97 | the label has the role's length, its first character upper-cased and the rest unchanged |
| ProfileCard.RoleLabelKeepsRole | components/profile/ProfileCard.tsx:97 | the label is the same role up to case, so it gets the same colour, and capitalising twice changes nothing |
| ProfileCard.StatusBadge | components/profile/ProfileCard.tsx:99-105 | a badge is shown iff the status is truthy, with the `default` variant iff it is `'active'` |
| ProfileCard.HandlePhotoUpload | components/profile/ProfileCard.tsx:26-31 | `onPhotoUpload` is called iff a file was chosen, with the first file |
| CountrySelect.CountryOptions | components/common/CountrySelect.tsx:47-55 | one option per country, with its common name, `cca2` code and flag |
| CountrySelect.FirstMatching | components/common/CountrySelect.tsx:60-64 | the index found is the first option whose name or code matches case-insensitively; `None` means none does |
| CountrySelect.SelectedCountry | components/common/CountrySelect.tsx:58-65 | null iff the value is absent or empty; otherwise the first option whose name or code equals it case-insensitively, or undefined iff none does |
| CountrySelect.SelectionIgnoresCase | components/common/CountrySelect.tsx:60-64 | values that differ only in letter case select the same option |
| CountrySelect.SelectionOrderFree | components/common/CountrySelect.tsx:54-64 | whether some option is selected does not depend on the list's order, so sorting cannot change it |
| CountrySelect.FirstNamed | components/common/CountrySelect.tsx:69 | the index found has exactly the selected name; `None` means no option has it |
| CountrySelect.CountrySelectState.constructor | components/common/CountrySelect.tsx:44 | the popover starts closed |
| CountrySelect.CountrySelectState.OpenChange | components/common/CountrySelect.tsx:79 | the popover follows the requested open state |
| CountrySelect.CountrySelectState.HandleSelect | components/common/CountrySelect.tsx:67-76 | the popover always closes; `onValueChange` is called iff an option has exactly that name and the callback exists, and then with that name |
| CountrySelect.SelectedNameIsShown | components/common/CountrySelect.tsx:58-76 | a name reported by selection makes the picker show an option |
| CountryCodeSelect.Qualifying | components/common/CountryCodeSelect.tsx:25 | a country is kept iff it has a truthy root and at least one suffix |
| CountryCodeSelect.Expand | components/common/CountryCodeSelect.tsx:27-32 | one option per suffix, in order, each with code root + suffix and its country's name, flag and `cca2` |
| CountryCodeSelect.CodeOptions | components/common/CountryCodeSelect.tsx:24-33 | the number of options is the sum of the suffix counts of the qualifying countries |
| CountryCodeSelect.ExpandCount | components/common/CountryCodeSelect.tsx:26-33 | the flat map yields exactly the summed suffix count |
| CountryCodeSelect.QualifyingTotal | components/common/CountryCodeSelect.tsx:25 | dropping non-qualifying countries removes no suffix from the count |
| CountryCodeSelect.SuffixTotalAppend | components/common/CountryCodeSelect.tsx:26 | the suffix count of two lists is the sum of their counts |
| CountryCodeSelect.OptionsAreSuffixes | components/common/CountryCodeSelect.tsx:24-33 | an option is in the list iff it belongs to some suffix of some qualifying country, with code root + suffix and that country's own name, flag and `cca2` |
| CountryCodeSelect.FlatExpandMembers | components/common/CountryCodeSelect.tsx:26-33 | the flat map's options are exactly the per-suffix options of its countries |
| CountryCodeSelect.SelectedCode | components/common/CountryCodeSelect.tsx:51-53 | the option found is the first whose code equals the value exactly; an absent value or no equal code gives undefined |
| CountryCodeSelect.CodeSelectState.constructor | components/common/CountryCodeSelect.tsx:49 | the popover starts closed |
| CountryCodeSelect.CodeSelectState.OpenChange | components/common/CountryCodeSelect.tsx:49-56 | the popover follows the requested open state |
| CountryCodeSelect.CodeSelectState.Select | components/common/CountryCodeSelect.tsx:91-94 | selecting reports the option's code and closes the popover |
| CountryCodeSelect.SelectedCodeIsShown | components/common/CountryCodeSelect.tsx:51-53 | a reported code makes the picker show an option carrying that code |

## Left out

- Rendering: JSX, Tailwind classes, the loading overlay, the duplicated mobile/desktop layout and date formatting.
- Network I/O: the axios instance and the registration of its interceptors. The replies and thrown errors of every call are inputs.
- The `generateApis`, `auth`, `upload` and `dashboard` API wrappers. They only concatenate routes.
- Timers: the 300 ms debounce is a pending-commit slot. The timer firing is the `Commit` call.
- Router: `router.push` is not modelled. `UrlSync` returns the query that would be pushed, and `pathname` is not part of it.
- The sorts (`localeCompare`, including numeric collation): the option lists are modelled before sorting. The lookups are stated for any order, and `SelectionOrderFree` shows that sorting cannot change whether an option is found.
- `encodeURIComponent` is a function parameter (`enc`).
- Browser and library functions whose code is not part of this model are inputs:
  - `validateImageFile`, `generatePreviewUrl` and `revokePreviewUrl` (the revoked url is returned);
  - `getLocalStorage`;
  - `window.confirm`;
  - `useProfile`;
  - react-hook-form;
  - the zod schemas;
  - toasts (returned as values).
- Console logging and `handleApiError`/`handleApiSuccess` notifications.
- Numbers are integers throughout. Floating point, `NaN` arithmetic and `Infinity` are not modelled. `Math.ceil` is integer ceiling division.
- `Obj` stands for every array and object value. Its contents are not modelled.
- Case mapping covers ASCII only: `toLowerCase` and `toUpperCase` leave other characters unchanged.
- DynamicTable.Mount: requires the starting page to be an integer. A `page` parameter that `parseInt` turns into `NaN` is not modelled.
- ImageUpload.ImageUploadState.FileUpload: takes the validation verdict and the reply as inputs. A throw from `generatePreviewUrl` is not modelled.
- ProfilePage: the `activeTab` state and `handleRetry` (a page reload) are not modelled.
- ProfilePage.DefaultField: a user is a map of text fields. Non-string field values are not modelled.
- DynamicTable.TableState.NextPressed: uses the corrected target from the finding below, not the source's.
- UserApi.NormalizeUser: raw keys win even when falsy. This follows the spread order, so it is modelled as written, not as a finding.

## Findings

| source | as written | input that shows it | evidently intended | confidence | as-written member | corrected member |
|---|---|---|---|---|---|---|
| components/common/DynamicTable.tsx:499-505 | Next is disabled only when `currentPage === pageCount - 1`, and it targets `Math.min(adjustedCurrentPage + 1, pageCount - 1)` | a search that matches no row: `pageCount` is 0 and `currentPage` is 0, so Next is enabled and stores page -1, which shows no row even after rows match again | Next disabled or clamped to page 0 when there are no pages | medium (not executed) | DynamicTable.NextOnEmptyTable | DynamicTable.NextTargetClamped |
