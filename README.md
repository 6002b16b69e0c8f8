# Theme toggle and search assistant, modelled in Dafny

This project models the page script `static/script.js`. The script has two
independent features that it attaches when the document loads.

- **Theme controller.** On load it reads the `theme` cookie with
  `getCookie`, a regular-expression lookup. It falls back to `"dark"` and puts
  the result in the root element's `data-theme` attribute. The toggle button
  flips `"dark"` to `"light"` and any other value to `"dark"`, then writes the
  new value to the attribute and to the cookie.
- **Search assistant.** The search box keeps a most-recent-first history of up
  to ten trimmed queries in `localStorage`. Focusing or clicking a blank box
  shows that history. Typing two or more characters starts a debounced fetch of
  suggestions. Clicking a row of either list fills the box and submits the
  form. A click outside hides the list, and the clear button empties the
  history.

Modules, one file each:

- `Text` (`text.dfy`) defines JavaScript whitespace, the whitespace scanners
  `SkipSpaces` and `SkipSpacesBack`, and `trim`. `trim` and the pattern class
  `\s` use the same set of characters (WhiteSpace and LineTerminator). A Dafny `char` counts as one unit of length (see "Left out").
- `Cookie` (`cookie.dfy`) models `getCookie`. `ValueAt`, `MatchAt` and
  `Search` are a scanner that resolves `(^|;)\s*NAME\s*=\s*([^;]+)` the way a
  backtracking matcher does: the leftmost start wins, and each quantifier is
  as greedy as the rest of the pattern allows. `Fits` and `EntryFits` state
  the pattern's language separately. The lemmas prove that the scanner
  returns exactly the greedy group of the first entry that matches. One edge
  case follows: a value made only of spaces, as in `theme=  ;`, yields a
  single space, because `\s*` gives back its last character to `[^;]+`.
- `Theme` (`theme.dfy`) holds the pure toggle and initial-theme functions.
  The `ThemeController` class holds the attribute and the stored cookie
  value.
- `History` (`history.dfy`) models storage as a map from keys to decoded
  values. It covers `getSearchHistory`, the filter/unshift/slice of
  `saveSearchHistory` (`Without`, `Promote`, `Saved`) and
  `clearSearchHistory` (`Cleared`).
- `Search` (`search.dfy`) holds the trimmed-length dispatch of the `input`
  handler and the `SearchAssistant` class. The class fields are the box
  value, whether the container exists, whether it is shown, its rows, the
  single timer slot, storage, the requests sent, and the values passed to
  `form.submit()`. Each event handler is one method.

The item-click handlers call `searchbox.form.submit()`. In browsers,
`HTMLFormElement.submit()` does not dispatch a `submit` event. So the
`submit` handler does not run, and a clicked row is not added to the history:
`OnItemClick` leaves storage unchanged. Only a submit made by the user, such
as pressing Enter, reaches `OnSubmit`.

Scenario methods check some of the script's behaviour end to end with
verified assertions:

- `Theme.ToggleThenReload`: a toggle followed by a reload keeps the toggled theme.
- `Search.ClearThenFocus`: clearing the history and then focusing the empty box shows no panel.
- `Search.OneCharacterNeverFetches`: typing one non-space character leaves no timer, so no request.
- `Search.QueryFetchesOnce`: typing a query of two or more characters and waiting sends exactly one request, for that query.
- `Search.SubmitTwice`: submitting the same value twice stores what one submit does, with the trimmed value at the head of the history.

## Model

| member | source | states |
|---|---|---|
| `Text.SkipSpaces` | static/script.js:6 | `\s*` taken greedily (also the leading half of `trim`): every character it passes is whitespace, and it stops at the end or at a non-space |
| `Text.SkipSpacesBack` | static/script.js:44 | the trailing half of `trim`: every character it passes going left is whitespace, and it stops at the start or after a non-space |
| `Text.Trim` | static/script.js:44 | `trim` never lengthens the text, and a non-empty result starts and ends with a non-space character |
| `Text.TrimIsSlice` | static/script.js:44 | the trimmed text is the slice of the input that lies between an all-whitespace prefix and an all-whitespace suffix |
| `Text.TrimEmptyIffAllSpace` | static/script.js:43 | `q.trim().length === 0` holds exactly when every character of `q` is whitespace (both directions) |
| `Text.TrimOfTrimmed` | static/script.js:209-211 | a string with no whitespace at either end is unchanged by `trim` |
| `Text.TrimIdempotent` | static/script.js:209-211 | trimming an already trimmed query (submit handler, then `saveSearchHistory`) changes nothing |
| `Cookie.RunEnd` | static/script.js:6 | `[^;]+` taken greedily: no `;` inside the run, and it stops at the end or at a `;` |
| `Cookie.ValueAt` | static/script.js:6 | the group span the pattern after `(^|;)` captures from a position lies after that position and inside the string |
| `Cookie.MatchAt` | static/script.js:6 | the pattern tried at one start index, `^` before `;`; any span it returns lies inside the string |
| `Cookie.Search` | static/script.js:6 | the first match from an index on; any span it returns lies inside the string |
| `Cookie.GetCookie` | static/script.js:5-8 | a returned value is non-empty and holds no `;` |
| `Cookie.ValueAtSound` | static/script.js:6 | every span the scanner returns is the group of a match of `\s*NAME\s*=\s*([^;]+)` |
| `Cookie.ValueAtComplete` | static/script.js:6 | whenever the pattern can match from a position the scanner finds a match, and its group starts and ends no earlier than any other match's group (greedy resolution) |
| `Cookie.MatchAtSound` | static/script.js:6 | a match found at an index is a match of the whole pattern, starting at the beginning of the string or at a `;` |
| `Cookie.SemiStartsNoValue` | static/script.js:6 | a cookie string starting with `;` has no `^` match, since a name never starts with `;` or whitespace |
| `Cookie.MatchAtCompleteStart` | static/script.js:6 | whenever the `^` alternative matches, the scanner finds the greedy group at index 0 |
| `Cookie.MatchAtCompleteSemi` | static/script.js:6 | whenever the `;` alternative matches at a `;`, the scanner finds the greedy group there, index 0 included |
| `Cookie.MatchAtComplete` | static/script.js:6 | whenever the whole pattern can match at an index, the scanner finds the greedy group there |
| `Cookie.SearchNone` | static/script.js:6 | when the search finds nothing, no index from the start on has a match |
| `Cookie.NoMatchSearchNone` | static/script.js:6 | conversely, when no index from the start on has a match, the search finds nothing |
| `Cookie.SearchSome` | static/script.js:6 | the search returns the match at the least index that has one |
| `Cookie.GetCookieFindsFirstEntry` | static/script.js:5-8 | `getCookie` returns `null` exactly when no entry matches; otherwise it returns the greedy group of the first matching entry |
| `Cookie.CookiePair` | static/script.js:13 | the `name=value` pair that `document.cookie` reports after `setCookie`; encoding and the `expires`/`path` attributes are not modelled |
| `Cookie.GetCookieOfPair` | static/script.js:5-13 | round trip: a `name=value` pair as `setCookie` stores it reads back as `value`, when the value is non-empty, has no `;` and starts with a non-space |
| `Cookie.BlankValueYieldsLastSpace` | static/script.js:6-7 | `theme=  ;a=b` yields a single space, not `null` |
| `Cookie.FirstEntryWins` | static/script.js:6-7 | with two `theme` entries, the first one's value is returned |
| `Cookie.NameMustStartEntry` | static/script.js:6 | `xtheme=light` has no `theme` entry |
| `Theme.InitialTheme` | static/script.js:16-17 | the initial theme is never empty |
| `Theme.InitialThemeFromCookie` | static/script.js:16 | with no `theme` entry the page starts `"dark"`; otherwise it starts with that entry's value, which holds no `;` |
| `Theme.Toggled` | static/script.js:22 | the new theme is `"dark"` or `"light"`, and it is `"light"` exactly when the current one is `"dark"` |
| `Theme.ToggleTwice` | static/script.js:21-24 | two toggles restore the theme exactly when it was `"dark"` or `"light"` |
| `Theme.UnknownThemeNotRestored` | static/script.js:22 | `"blue"` toggles to `"dark"` and then to `"light"` |
| `Theme.ReloadRestoresTheme` | static/script.js:13-17 | the cookie pair the toggle writes restores, on the next load, the theme it was written for |
| `Theme.ThemeController.constructor` | static/script.js:16-17 | on load, the attribute is the initial theme computed from the cookie string, and the cookie is not written |
| `Theme.ThemeController.SetThemeCookie` | static/script.js:10-14 | after `setCookie('theme', v, …)`, the stored theme cookie is `v` |
| `Theme.ThemeController.OnToggleClick` | static/script.js:20-25 | the attribute becomes the toggle of its old value, so `"dark"` or `"light"`, and the stored cookie equals the new attribute |
| `History.ReadHistory` | static/script.js:34-40 | a missing key or an unparseable stored value reads as the empty history |
| `History.Without` | static/script.js:46 | the filtered list holds exactly the entries other than the query and is no longer than the input |
| `History.WithoutAppend` | static/script.js:46 | the filter distributes over concatenation, so it keeps the relative order of the remaining entries |
| `History.WithoutAbsent` | static/script.js:46 | a list without the query passes the filter unchanged |
| `History.WithoutKeepsNoDuplicates` | static/script.js:46 | the filter keeps a duplicate-free list duplicate-free |
| `History.Promote` | static/script.js:45-50 | the new list has between 1 and 10 entries, even when the old list was longer, and element 0 is the query |
| `History.PromoteShape` | static/script.js:45-50 | the tail is the longest prefix of the filtered old list that fits in 10 entries, in its previous order; the query occurs nowhere else; every entry is the query or an old one |
| `History.PromoteKeepsNoDuplicates` | static/script.js:45-50 | a duplicate-free history stays duplicate-free |
| `History.PromoteIdempotent` | static/script.js:45-50 | recording the same query twice in a row gives the same list as recording it once |
| `History.Saved` | static/script.js:42-52 | saving changes no storage key other than `searchHistory` |
| `History.Cleared` | static/script.js:54-56 | clearing removes `searchHistory` and leaves every other key as it was |
| `History.ClearedReadsEmpty` | static/script.js:34-56 | after `clearSearchHistory`, `getSearchHistory` returns the empty list |
| `History.SaveBlankIsNoOp` | static/script.js:43 | an empty or whitespace-only query leaves storage untouched |
| `History.SaveRecordsQuery` | static/script.js:42-52 | any other query is stored in front, trimmed, exactly once, in at most 10 entries, followed by the older entries other than it in their previous order; a duplicate-free history stays duplicate-free |
| `History.SaveIdempotent` | static/script.js:42-52 | saving the same query twice in a row leaves the same storage as saving it once |
| `History.SaveOfTrimmed` | static/script.js:209-211 | saving the trimmed value stores the same as saving the value itself, which `saveSearchHistory` trims again |
| `History.SaveTrimmed` | static/script.js:43-44 | saving a query that is already trimmed and non-empty stores the promoted list for it |
| `History.FooBarFoo` | static/script.js:42-52 | submitting "foo", "bar", "foo" from an empty store leaves `["foo", "bar"]` |
| `Search.Dispatch` | static/script.js:180-206 | the `input` handler shows the history exactly when the value is all whitespace, hides the panel exactly when the trimmed length is 1, and schedules a fetch exactly when it is 2 or more, for the trimmed text |
| `Search.SearchAssistant.constructor` | static/script.js:28-32 | when the handlers are attached there is no container, no timer, no request and no submission |
| `Search.SearchAssistant.ShowSearchHistory` | static/script.js:81-103 | the container exists afterwards; an empty history leaves it hidden, and any other history is shown in its rows |
| `Search.SearchAssistant.ShowSuggestions` | static/script.js:132-143 | the container exists afterwards; an empty list leaves it hidden, and any other list is shown in its rows |
| `Search.SearchAssistant.OnFocusOrClick` | static/script.js:168-178 | a blank value shows the history; any other value changes nothing |
| `Search.SearchAssistant.OnInput` | static/script.js:180-206 | the pending timer is always cancelled; blank shows the history; one character leaves no timer and the panel hidden; two or more leave exactly one timer, for the trimmed value, and the panel untouched; no request is sent |
| `Search.SearchAssistant.OnTimerFire` | static/script.js:196-205 | exactly one request is sent, for the pending query, and the slot is emptied; a result is rendered like `showSuggestions`, and a failure hides the container |
| `Search.SearchAssistant.OnItemClick` | static/script.js:114-150 | the box takes the clicked row's text, the container is hidden and the form is submitted with that value; the history is not touched |
| `Search.SearchAssistant.OnClearHistoryClick` | static/script.js:105-112 | the history key is removed and the container hidden |
| `Search.SearchAssistant.OnDocumentClick` | static/script.js:215-219 | the container is hidden exactly when it exists and the click is outside both the box and the container |
| `Search.SearchAssistant.OnSubmit` | static/script.js:208-213 | storage becomes the saved storage for the box's value; a blank value leaves it untouched |
| `Search.SearchAssistant.SaveSearchHistory` | static/script.js:42-52 | the new storage is `Saved` of the old storage and the query |
| `Search.SearchAssistant.ClearSearchHistory` | static/script.js:54-56 | the new storage is `Cleared` of the old storage |

## Left out

- URI encoding and decoding are not modelled. `setCookie` applies `encodeURIComponent`, and `getCookie` applies `decodeURIComponent`, which can throw on malformed input. The value is taken as it stands; for `"dark"` and `"light"` encoding changes nothing.
- The cookie's expiry date, the `days || 30` default and the `path` attribute are not modelled. They involve real time and browser cookie handling.
- Other cookies are not modelled. `ThemeController` keeps only the value of the `theme` cookie, not the whole cookie jar.
- Cookie names with pattern metacharacters are not modelled. The lemmas about `getCookie`'s pattern assume a name of letters, digits and `_` (`IsPlainName`), which `theme` is. The name is spliced into the pattern unescaped.
- DOM building, inline CSS, the hover styling and `escapeHtml` are not modelled. A row's text is taken to be the string it was rendered from.
- `fetch`, `res.json()` and the `JSON.parse`/`JSON.stringify` of storage are not modelled. A request's outcome is an input. A response that does not parse, or parses to something other than an array, counts as a failure. For a response that parses to a non-array, `showSuggestions` creates the container before it throws (static/script.js:133), so the container then exists, hidden. `OnTimerFire` leaves `hasContainer` as it was. Whether the panel is shown is the same either way. A stored value parsing to a non-array is not modelled.
- Search.SearchAssistant.OnTimerFire: the 300 ms timer, the request and its response are one step. Events that arrive while a request is in flight, and the stale-response race between overlapping requests, are not modelled.
- The page navigation that follows a submit is not modelled. `OnItemClick` records the value passed to `form.submit()`.
- Missing `themeToggle` or `searchbox` elements are not modelled. In that case the corresponding feature is never attached.
- Exceptions from `localStorage` (quota, disabled storage) are not modelled.
- String lengths count code units. Characters outside the Basic Multilingual Plane, which JavaScript counts as two units, are one `char` here.
