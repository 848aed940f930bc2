# LinkSaver frontend: the bookmark list state, login and card display in Dafny

LinkSaver is a React client for a personal bookmark store. This project
models its core in Dafny and proves properties of the model:

- **The dashboard's bookmark list state** (`src/pages/Dashboard.jsx`). This
  covers:
  - loading and sorting the list by `(position ?? 0, createdAt)`;
  - adding a bookmark (tag parsing, scheme stripping, the double-submit
    guard, prepend on success);
  - deleting a bookmark;
  - the distinct tag chips;
  - the tag filter and the text search with its word-boundary rule for
    summaries;
  - drag-and-drop reordering, with dense renumbering, the update list sent to
    the server and the reload after a failed reorder.
- **The login handler** (`src/pages/Login.jsx`): field validation, the token
  check, and the mapping from HTTP status or transport failure to the
  message shown.
- **The bookmark card** (`src/components/BookmarkCard.jsx`): link target
  coercion, the link text fallback, the tags line, summary truncation to 300
  characters plus `...`, and the id reported by the delete button.

Each awaited network call is a parameter holding how it settled: a `Reply`,
an `Option`, or a `bool` for success. The dashboard is a class whose fields
are the component's state variables. `addBookmark` is split at its first
`await` into `SubmitAdd` and `CompleteAdd`, so that the `isAdding` guard can
see a second submit while the first is in flight. `persistOrder` is split the
same way into `DragEnd` and `CompletePersist`. The library behaviour the
code relies on is written out as follows:
- in `Text`: `trim` (with the ECMA-262 whitespace set), `split(',')`, `join`
  and `includes`;
- in `Seqs`: `filter` and `Array.from(new Set(...))`;
- in `Reorder`: `findIndex` and dnd-kit's `arrayMove`;
- in `Bookmarks`: the stable `Array.prototype.sort`, written as an insertion
  sort.

Files and modules:
- `text.dfy` (`Text`): string operations.
- `seqs.dfy` (`Seqs`): filter, subsequences, distinct.
- `results.dfy` (`Results`): `Option` and `Reply`.
- `bookmarks.dfy` (`Bookmarks`): the record and its load order.
- `projection.dfy` (`Projection`): tags, tag chips, filters and search.
- `reorder.dfy` (`Reorder`): drag-and-drop reordering.
- `dashboard.dfy` (`Dashboard`): the state class and its handlers.
- `login.dfy` (`Login`): the login handler.
- `card.dfy` (`Card`): the card display.

Behaviour worth knowing, as the code has it:
- **Summary search.** A summary is searched with the regular expression
  `\b<query>`, which is not quite "the query starts a word".
  - For a query that starts with a word character the two agree.
    `WordQueryMatchesWordStart` proves this.
  - For a query that starts with another character (such as `#`, `(` or `+`), `\b`
    needs a word character right before the match.
    `SymbolQueryFollowsWordChar` proves this.
  - So the `(c)` at the very start of a summary is never matched.
- **Url validation.** Adding a bookmark does not check in code that the url
  is non-empty. That check is left to the browser's `required` attribute on
  the form field.
- **Delete.** Delete is not optimistic: the record leaves the list only after
  the server confirms the delete.

## Model

| member | source | states |
|---|---|---|
| Text.Trim | src/pages/Dashboard.jsx:65 | the result has no whitespace at either end and is a slice of the input with only whitespace around it |
| Text.TrimPadded | src/pages/Dashboard.jsx:65 | trimming a trimmed string with whitespace in front of it gives that string back |
| Text.Lower | src/pages/Dashboard.jsx:109 | lower-casing keeps the length and maps every character by the ASCII case rule |
| Text.Includes | src/pages/Dashboard.jsx:121-122 | `includes` is true exactly when the needle occurs at some index of the haystack |
| Text.StrCompare | src/pages/Dashboard.jsx:48 | the timestamp comparison returns -1, 0 or 1, returns 0 exactly for equal strings, and puts a proper prefix first |
| Text.StrCompareAntisymmetric | src/pages/Dashboard.jsx:48 | comparing in the other order negates the result, and a zero result means equal strings |
| Text.StrCompareTransitive | src/pages/Dashboard.jsx:48 | the string comparison used as the tie-break is transitive |
| Text.SplitComma | src/pages/Dashboard.jsx:65 | `split(',')` yields at least one piece and no piece contains a comma |
| Text.JoinSplitComma | src/pages/Dashboard.jsx:65 | joining the pieces of `split(',')` with a comma gives back the input |
| Text.JoinEnds | src/components/BookmarkCard.jsx:31 | `join` of no parts is empty; otherwise the joined text starts with the first part and ends with the last |
| Text.SplitJoin | src/pages/Dashboard.jsx:65 | splitting pieces joined with `","` plus a comma-free pad gives each piece back, the later ones with the pad in front |
| Seqs.Filter | src/pages/Dashboard.jsx:106 | `filter` keeps exactly the elements that pass, in their order, and keeps everything when all pass |
| Seqs.FilterMultiset | src/pages/Dashboard.jsx:106 | `filter` keeps every copy of an element that passes and no copy of one that fails |
| Seqs.Distinct | src/pages/Dashboard.jsx:101 | `Array.from(new Set(s))` has no duplicates, has the same members as `s` and lists them in order of first appearance |
| Bookmarks.Pos | src/pages/Dashboard.jsx:47 | `position ?? 0`: a stored position is used as is and a missing one counts as 0 |
| Bookmarks.Compare | src/pages/Dashboard.jsx:46-48 | the comparator is negative exactly when the first record has the smaller position, or the same position and the earlier timestamp, and zero exactly when both agree |
| Bookmarks.LeTotal | src/pages/Dashboard.jsx:45-49 | the load comparator orders any two records, and two records tie only when position and createdAt agree |
| Bookmarks.LeTransitive | src/pages/Dashboard.jsx:45-49 | the load comparator is transitive |
| Bookmarks.InsertSorted | src/pages/Dashboard.jsx:45-49 | inserting a record into a sorted list keeps it sorted and adds exactly that record |
| Bookmarks.SortBookmarks | src/pages/Dashboard.jsx:45-49 | the loaded list is in `(position ?? 0, createdAt)` order and is a permutation of the server's records |
| Bookmarks.SortKeepsSorted | src/pages/Dashboard.jsx:45-49 | sorting a list already in load order changes nothing |
| Bookmarks.SortStable | src/pages/Dashboard.jsx:45-49 | the sort is stable: the records that tie with any given record come out in the order they came in |
| Bookmarks.SortedUnique | src/pages/Dashboard.jsx:45-49 | two sorted lists with the same records and no ties are equal, so the load order is determined by the records |
| Reorder.ArrayMove | src/pages/Dashboard.jsx:155 | `arrayMove` puts the moved element at `to`, keeps the others in their relative order and loses or adds nothing |
| Reorder.ArrayMoveDetermined | src/pages/Dashboard.jsx:155 | those three facts determine the moved list |
| Reorder.ArrayMoveUndo | src/pages/Dashboard.jsx:155 | moving the element back from `to` to `from` restores the list |
| Reorder.FindIndex | src/pages/Dashboard.jsx:153-154 | `findIndex` gives the first index holding the id, or -1 exactly when no record has it |
| Reorder.Renumber | src/pages/Dashboard.jsx:155 | each record's position becomes its index and every other field is kept |
| Reorder.RenumberedInOrder | src/pages/Dashboard.jsx:155 | a renumbered list is in load order with no ties |
| Reorder.PersistUpdates | src/pages/Dashboard.jsx:137 | the update list pairs each record's id with its index, in list order |
| Reorder.UpdatesMatchLocalPositions | src/pages/Dashboard.jsx:137 | for a renumbered list the request carries exactly the positions the local records hold |
| Reorder.Reordered | src/pages/Dashboard.jsx:151-158 | after a drop every record's position is its index, the dragged card sits at the target's index, the ids are moved as `arrayMove` moves them, and every record keeps all its fields but its position |
| Reorder.IdsOfMove | src/pages/Dashboard.jsx:155 | moving records moves their ids the same way |
| Reorder.ReloadAfterReorder | src/pages/Dashboard.jsx:45-49 | if the server stores the submitted positions, reloading the records in any order reproduces the order just set |
| Projection.ParseTags | src/pages/Dashboard.jsx:65 | the tags are the non-empty trimmed comma-separated pieces, every copy of each, in input order; each is non-empty, trimmed and comma-free |
| Projection.ParseJoinedTags | src/pages/Dashboard.jsx:65 | well-formed tags joined by a comma and any whitespace parse back to the same tags in the same order |
| Projection.FlatTags | src/pages/Dashboard.jsx:101 | a tag is in the flattened list exactly when some bookmark carries it |
| Projection.AllTags | src/pages/Dashboard.jsx:101 | the tag chips are the used tags, each once, in order of first appearance |
| Projection.Query | src/pages/Dashboard.jsx:109 | the query is lower case, has no whitespace at either end and is no longer than the search text |
| Projection.BlankQuery | src/pages/Dashboard.jsx:109-110 | the query is empty exactly when the search text is all whitespace |
| Projection.IsBoundary | src/pages/Dashboard.jsx:113 | `\b` holds at an index exactly when one neighbour is a word character and the other is not, the ends of the text counting as non-word |
| Projection.PrefixTest | src/pages/Dashboard.jsx:112-113 | the escaped `\b` pattern matches exactly when the query occurs, up to case, at an index where a word boundary holds |
| Projection.WordQueryMatchesWordStart | src/pages/Dashboard.jsx:111-113 | a query starting with a word character matches only at the start of a word |
| Projection.SymbolQueryFollowsWordChar | src/pages/Dashboard.jsx:112-113 | a query starting with a non-word character matches only right after a word character |
| Projection.SearchExamples | src/pages/Dashboard.jsx:111-123 | the summary test finds "ai" in "Early AI" and rejects "Brain", where "ai" occurs only inside the word |
| Projection.MatchesQuery | src/pages/Dashboard.jsx:115-125 | a bookmark matches exactly when the query is a substring of its lower-cased title or url or matches its summary at a word boundary |
| Projection.FilterByTag | src/pages/Dashboard.jsx:105-107 | the tag step keeps every copy of each bookmark carrying the selected tag, in order, and everything for the "All" chip |
| Projection.FilterBySearch | src/pages/Dashboard.jsx:109-126 | the search step keeps every copy of each bookmark matching the query, in order, and everything for a blank search |
| Projection.ApplyFilters | src/pages/Dashboard.jsx:103-129 | the view is a subsequence of the list holding exactly the bookmarks that pass the tag and search rules, every copy of each; with "All" and a blank search it is the whole list |
| Dashboard.StripScheme | src/pages/Dashboard.jsx:69 | one leading `http://` or `https://` is removed and nothing else changes |
| Dashboard.WithoutId | src/pages/Dashboard.jsx:93 | no record with the id remains, every other record stays with all its copies and in order, and the list is unchanged when the id is absent |
| Dashboard.AddFailureText | src/pages/Dashboard.jsx:83 | the add error toast is the store's message when there is one, and otherwise the generic text |
| Dashboard.DashboardState.constructor | src/pages/Dashboard.jsx:27-34 | the initial state: empty fields and list, the "All" chip, nothing in flight |
| Dashboard.DashboardState.Visible | src/pages/Dashboard.jsx:132 | the grid shows a subsequence of the list |
| Dashboard.DashboardState.FetchBookmarks | src/pages/Dashboard.jsx:42-55 | on success the list becomes the server's records in load order; on failure it is kept and an error is shown |
| Dashboard.DashboardState.SubmitAdd | src/pages/Dashboard.jsx:62-71 | a submit during an add does nothing; otherwise the tags are parsed and the scheme-stripped url is requested |
| Dashboard.DashboardState.CompleteAdd | src/pages/Dashboard.jsx:71-86 | only a summary and a stored record prepend the record and clear the form; any failure leaves list and form as they were; `isAdding` ends false |
| Dashboard.DashboardState.DeleteBookmark | src/pages/Dashboard.jsx:90-98 | the record leaves the list only after a confirmed delete |
| Dashboard.DashboardState.DragEnd | src/pages/Dashboard.jsx:151-158 | no target or a drop on itself changes nothing; otherwise the list is reordered, `saving` is set and the update list is sent |
| Dashboard.DashboardState.CompletePersist | src/pages/Dashboard.jsx:136-149 | `saving` is cleared, and a failed reorder asks for a reload |
| Dashboard.DoubleSubmit | src/pages/Dashboard.jsx:64 | of two submits before the add settles only the first requests a summary |
| Dashboard.DragThenReload | src/pages/Dashboard.jsx:151-158 | a drag, a confirmed reorder and a reload leave the list as the drag arranged it |
| Login.StatusText | src/pages/Login.jsx:27-36 | 400 shows the server's message or else "Please enter email and password"; 401, 404, 409 and 5xx show their own fixed texts whatever the server said; any other status shows the server's message or else "Something went wrong. Please try again."; the message is never empty |
| Login.FixedStatusIgnoresMsg | src/pages/Login.jsx:32-35 | for 401, 404, 409 and 5xx the server's message is ignored |
| Login.ErrorText | src/pages/Login.jsx:26-41 | a response error shows the status message; no response shows the network message; a plain exception shows its own message or else "Login failed"; the text is never empty |
| Login.LoginAttempt | src/pages/Login.jsx:11-43 | a request is made exactly when both fields are filled, only a non-empty token logs in, and every other outcome leaves a non-empty error |
| Login.LoginForm.constructor | src/pages/Login.jsx:6-8 | the form starts with empty fields and no error |
| Login.LoginForm.HandleLogin | src/pages/Login.jsx:11-43 | the handler's request, login and final error text are those of `LoginAttempt` whatever error text it started with |
| Card.Href | src/components/BookmarkCard.jsx:11 | a url starting with `http` is the link as it is; any other url becomes `https://` followed by the url; the link always starts with `http` and ends with the url |
| Card.HrefIdempotent | src/components/BookmarkCard.jsx:11 | coercing a coerced link changes nothing |
| Card.LinkText | src/components/BookmarkCard.jsx:16 | the link text is the title, or the url when there is no title |
| Card.ShownSummary | src/components/BookmarkCard.jsx:39 | summaries up to 300 characters are shown whole, longer ones as their first 300 characters and `...` |
| Card.ShownSummaryIdempotent | src/components/BookmarkCard.jsx:39 | shortening a shown summary again changes nothing |
| Card.RenderCard | src/components/BookmarkCard.jsx:4-47 | the tags line appears exactly for tagged bookmarks, the summary exactly for non-empty ones, and delete reports the bookmark's id |
| Card.TagsLineParsesBack | src/components/BookmarkCard.jsx:29-33 | a card's tags line parses back to the bookmark's tags |
| Card.ParseShowParse | src/components/BookmarkCard.jsx:31 | tags parsed from the add form, shown on a card and parsed again are unchanged |

## Left out

- Network calls (`api.get`, `api.post`, `api.put`, `api.delete`, `axios.post`) are parameters holding how each call settled; URLs and request headers are not modelled.
- The summary fetcher's URL is not modelled: `encodeURIComponent` and the `r.jina.ai` prefix are left out. `SubmitAdd` returns the scheme-stripped url that is encoded into it.
- Strings are sequences of Unicode scalar values, while JavaScript counts UTF-16 code units. `ShownSummary` therefore cuts after 300 scalars where the browser cuts after 300 code units, and may split a surrogate pair.
- Lower-casing is the ASCII rule only; `toLowerCase` also folds other letters. The `\b` test uses the ASCII word class, which matches a regular expression without the `u` flag.
- Bookmarks.SortBookmarks: `localeCompare` is modelled as plain code-point order. The two agree on the ISO timestamps the server writes to `createdAt`, but not on arbitrary strings.
- Bookmarks.SortBookmarks: `createdAt` is always present in the model. In the source a missing `createdAt` makes the sort throw only when that record is the comparator's `a` and the positions tie. As `b` it is compared as the string `"undefined"`, and a one-record list never calls the comparator.
- Absent `title`, `url`, `summary`, `tags` and `msg` fields are modelled as empty strings and empty lists. The dashboard's filters (`|| ''`, `|| []`) and the login handler (`msg || ...`) treat them the same way.
- Card.RenderCard: differs from the card for malformed records. The card has no default for `url`: `url.startsWith` throws when it is absent, where the model renders the link `https://`. Its `tags = []` default does not cover `null` either, and `tags.length` then throws.
- Dashboard.DashboardState.DragEnd: requires both ids to be in the list. dnd-kit reports only the ids of rendered cards, and those are always in the list.
- Reloads are returned as a `reload` flag and happen as a separate `FetchBookmarks` step. No other interleaving of in-flight calls is modelled.
- Toasts are returned as values. `console.error`, the JSX layout, the modal, the `saving` banner, `markdownContent` and `navigate('/')` after login are not modelled.
- The browser's `required` check on the url field is not modelled.
- Dashboard.DashboardState.CompleteAdd: a summary fetch that fails is modelled as `None`. An HTTP error page from the summary service resolves with its text in the source, so it is a summary like any other.
- Login.LoginAttempt: the token is a string and "present" means non-empty. A truthy non-string token is not modelled, and neither is an exception thrown by `onLoggedIn`.
- `App.jsx`, `Navbar.jsx`, `Register.jsx` and `TagFilter.jsx` are not part of this model.
