# OMDb movie search client — a Dafny model

This project models the logic of `app.js`, a browser client for the OMDb
movie database: it searches titles page by page, shows the results as a
grid of cards that can be re-sorted on the client, and opens a details
overlay for one title. Every DOM node the script touches is a plain field
or value here; what is proved is the behaviour under the DOM calls.

- `optional.dfy` — `Option`, standing for a JavaScript value that may be
  `undefined` or `null`.
- `js_string.dfy` — the ECMAScript string behaviour the script relies on:
  `trim`, `parseInt(s, 10)`, `String(n)` and `v || fallback`.
- `pager.dfy` — `setPager`: the last reachable page and the two buttons.
- `sorting.dfy` — a stable insertion sort by a comparison, standing for
  `Array.prototype.sort` (stable since ECMAScript 2019), with its
  ordering, permutation, stability and idempotence proofs.
- `movies.dfy` — search results, `safePoster`, the cards of the grid and
  the four orders of `sortMovies`.
- `request.dfy` — the parameter loop of `omdbRequest` and the parameters of
  the two kinds of request.
- `details.dfy` — the field defaulting of `openDetails`.
- `session.dfy` — class `SearchSession`: `currentQuery`, `currentPage`,
  `totalResults`, `currentMovies`, the status line, the grid and the pager,
  with `searchMovies` and the submit, sort, prev and next handlers.
- `overlay.dfy` — class `DetailsOverlay`: the modal's open state, the
  scroll lock and its content, with `openModal`, `closeModal`, the three
  dismissal handlers, `openDetails` and card activation.

The awaits of `searchMovies` and `openDetails` split each into a
synchronous start and a continuation that takes the settled request as an
`Outcome` (`Thrown(message)` for a rejected promise, `Delivered(data)` for
the decoded JSON body). Titles are ordered by `collate`, a parameter that
stands for `localeCompare(a, b) <= 0`; the sort lemmas assume only that it
is a total preorder. Two methods without a contract of their own,
`Session.SubmitThenNotFound` and `Overlay.CloseThenReopen`, walk through a
short sequence of handler calls and assert the state each step leaves.

Three behaviours of the code that the model keeps as written:

- The code keeps no request token, so a reply to a superseded search or
  details request is not dropped: `CompleteSearch` and `CompleteDetails` apply whatever reply they
  are given, and `CompleteDetails` writes the content even after the
  overlay was closed.
- The session changes before any reply arrives: a search empties
  `currentMovies` and the grid when it starts, and
  the handlers change `currentPage` before the request; after a rejected
  request the page stays changed while the total and the pager keep their
  old values (`OnPrev`, `OnNext`, `CompleteSearch`).
- `omdbRequest` sets `apikey` first and then every kept entry, so an entry
  named `apikey` would replace the credential. No caller passes one;
  `QueryOf` states both cases.

## Model

| member | source | states |
|---|---|---|
| `JsString.TrimStart` | app.js:238 | the result is a suffix of the input, everything cut off is white space, and it does not start with white space |
| `JsString.TrimEnd` | app.js:238 | the result is a prefix of the input, everything cut off is white space, and it does not end with white space |
| `JsString.TrimEmptyIffBlank` | app.js:238-239 | `Trim` (`String.prototype.trim`, `TrimEnd` of `TrimStart`) leaves the empty string exactly when the input is all white space |
| `JsString.TrimEnds` | app.js:238 | a trimmed string has no white space at either end |
| `JsString.TrimFramed` | app.js:238 | a trimmed string is a contiguous piece of the input with only white space before and after it |
| `JsString.TrimIdempotent` | app.js:238 | trimming twice equals trimming once |
| `JsString.Or` | app.js:149 | the or-operator on an optional string gives the value when it is present and non-empty and the fallback otherwise; it is never empty when the fallback is not |
| `JsString.ShowNat` | app.js:142 | `String(page)` is a non-empty run of decimal digits without a leading zero |
| `JsString.LeadingDigits` | app.js:105-107 | the longest digit prefix: all digits, a prefix of the input, followed by a non-digit or the end |
| `JsString.ParseIntShowNat` | app.js:105-107 | `ParseInt` (`parseInt(s, 10)`) reads back `n` from its decimal form `ShowNat(n)`, after any leading white space and before any non-digit text |
| `JsString.ParseIntYearRange` | app.js:105-107 | a year range such as "2001–2006" parses to its first year |
| `JsString.ParseIntNaN` | app.js:105-107 | `ParseInt` yields `NaN` (`None`) exactly when no digit follows the leading white space and the optional sign, as for "N/A" |
| `Pager.MaxPage` | app.js:41-42 | the last page is between 1 and 100; 1 with no results; otherwise the page holding the last result, capped at 100 exactly when there are more than 990 results |
| `Pager.SetPager` | app.js:37-44 | the label shows the page, "prev" is disabled iff page <= 1, "next" is disabled iff page >= the last page |
| `Pager.NextEnabledIffMoreResults` | app.js:41-43 | from page >= 1, "next" is enabled iff results remain beyond this page and the page is below 100 |
| `Pager.EmptyDisablesBoth` | app.js:39-43 | with no results "next" is disabled, and "prev" is disabled on page 1 |
| `Pager.NextStaysInRange` | app.js:42-43 | following an enabled "next" stays within the last page and page 100 |
| `Sorting.Insert` | app.js:101-107 | inserting adds exactly the one element to the multiset of the sequence |
| `Sorting.InsertionSort` | app.js:101-107 | the sort returns a permutation of its input |
| `Sorting.SortSorted` | app.js:101-107 | for a total preorder the sorted sequence is ordered for every pair of positions |
| `Sorting.SortStable` | app.js:101-107 | elements that tie keep their relative order |
| `Sorting.SortOfSorted` | app.js:101-107 | an ordered sequence is left unchanged |
| `Sorting.SortIdempotent` | app.js:101-107 | sorting twice equals sorting once |
| `Movies.SafePoster` | app.js:46-49 | the empty string exactly for a missing, empty or "N/A" url; any other url unchanged |
| `Movies.SafePosterIdempotent` | app.js:46-49 | cleaning a cleaned url changes nothing |
| `Movies.CardOf` | app.js:66-84 | a card shows its result's id, title, type and year, and its poster through `safePoster` |
| `Movies.Cards` | app.js:61-92 | one card per result, in the same order |
| `Movies.OrderOf` | app.js:100-108 | "az", "za", "newest" and "oldest" each select their order; every other value selects none |
| `Movies.PrecedesIsPreorder` | app.js:101-107 | each of the four comparators of `Precedes` (title by `collate` either way, `YearKey` descending or ascending) is a total preorder when the title order is |
| `Movies.SortedCopy` | app.js:97-108 | the sorted copy is a permutation of the results, and is the results themselves for an unknown selector value |
| `Movies.SortedCopyOrdered` | app.js:100-108 | "az" orders titles ascending, "za" descending, "newest" leading years (`YearKey`, the `parseInt` of the year) descending, "oldest" ascending |
| `Movies.SortedCopyStable` | app.js:100-108 | results that tie under the chosen order keep their service order |
| `Movies.SortedCopyIdempotent` | app.js:97-108 | choosing the same order again gives the same copy |
| `Movies.EqualYearsKeepOrder` | app.js:104-107 | results with the same leading year keep their service order under "newest" and "oldest" |
| `Request.KeptIffTrimmed` | app.js:118 | an entry is kept exactly when its value is neither undefined nor null and is non-empty after `trim` |
| `Request.QueryOf` | app.js:113-121 | `apikey` is always set, to the credential unless an entry named `apikey` is kept; every kept entry appears with its value; any other entry appears iff it is kept; no other key appears |
| `Request.SearchQuery` | app.js:139-143 | a search (the entries of `SearchParams`) sends the credential, `type=movie`, the page number, and the query exactly when it is not blank |
| `Request.DetailsQuery` | app.js:190 | a details request (the entries of `DetailsParams`) sends the credential, `plot=full`, and the id exactly when it is not blank |
| `Details.TopRatingChoice` | app.js:198 | `TopRating`, the top rating, is the first rating's value, or "N/A" when `Ratings` is missing or empty |
| `Details.ViewDefaults` | app.js:198-225 | every field `ViewOf` defaults is non-empty: the service's value when present and non-empty, else "NR" for Rated, "No plot available." for Plot, "N/A" for the rest; the "Top Rating" badge shows `TopRating(Ratings)` |
| `Details.ViewKeepsIdentity` | app.js:197-210 | title and year are shown unchanged, and a poster exactly when the record has a real one |
| `Session.SearchSession.constructor` | app.js:28-31 | empty query, page 1, no results, nothing shown |
| `Session.SearchSession.SetPager` | app.js:37-44 | the pager shows what `Pager.SetPager` gives for the current page and total |
| `Session.SearchSession.RenderGrid` | app.js:51-95 | the grid holds the cards of the given results, in order |
| `Session.SearchSession.SortMovies` | app.js:97-111 | the grid shows the sorted copy; the results themselves are not touched |
| `Session.SearchSession.StartSearch` | app.js:134-136 | a starting search shows "Searching...", clears the grid and empties the results |
| `Session.SearchSession.CompleteSearch` | app.js:145-158 | a rejected request only sets the failure status; "False" sets total 0, no results, the pager and the service's message or "No results found."; otherwise the total (0 if missing), the results in service order (none if not an array), the pager, the found status and the sorted grid |
| `Session.SearchSession.ApplyNotFound` | app.js:145-151 | a "False" reply sets total 0, no results, the pager for an empty result, and the service's message or "No results found." |
| `Session.SearchSession.ApplyResults` | app.js:153-158 | a successful reply installs the total (0 if missing), the results in service order (none if not an array), the pager, the found status and the grid of the sorted copy |
| `Session.SearchSession.Submit` | app.js:236-249 | blank input changes nothing; otherwise query = trimmed input, page 1, and a search starts whose request is `SearchParams(query, 1)` |
| `Session.SearchSession.OnPrev` | app.js:255-264 | nothing at page <= 1; otherwise the page goes down by one and a search starts for `SearchParams(query, page)`, so the page stays >= 1 |
| `Session.SearchSession.OnNext` | app.js:266-274 | the page goes up by one with no guard of its own, and a search starts for `SearchParams(query, page)` |
| `Session.SearchSession.OnSortChange` | app.js:251-253 | the grid shows the results sorted by the new value |
| `Session.NotFoundEmpties` | app.js:145-151 | a "False" reply installs total 0 and no results, and leaves "next" disabled |
| `Overlay.DetailsOverlay.constructor` | app.js:22-24 | the overlay starts closed and empty, with the scroll unlocked |
| `Overlay.DetailsOverlay.Open` | app.js:161-165 | the overlay is open and the scroll locked |
| `Overlay.DetailsOverlay.Close` | app.js:167-172 | closed, scroll unlocked, content cleared, whatever the state before, so closing twice is closing once |
| `Overlay.DetailsOverlay.OnCloseClick` | app.js:174 | the close control closes |
| `Overlay.DetailsOverlay.OnOverlayClick` | app.js:175-177 | a click on the backdrop closes; a click inside the panel changes nothing |
| `Overlay.DetailsOverlay.OnKeyDown` | app.js:178-180 | Escape closes an open overlay; any other key, or Escape on a closed overlay, changes nothing |
| `Overlay.DetailsOverlay.OpenDetails` | app.js:182-186 | an empty id changes nothing; otherwise the loading content is shown and the overlay opened before any reply |
| `Overlay.DetailsOverlay.CompleteDetails` | app.js:188-232 | a rejected request shows the error message; "False" the service's message or "Could not load details."; otherwise the defaulted view |
| `Overlay.DetailsOverlay.OnCardClick` | app.js:86 | clicking a card opens its title |
| `Overlay.DetailsOverlay.OnCardKeyDown` | app.js:87-89 | Enter and Space open the card's title; other keys change nothing |

## Left out

- Markup: `innerHTML` templates, attributes such as `aria-hidden`, `role`
  and `aria-label`, and text content are not modelled; the grid is a list
  of `Card` values and the overlay's content a `Content` value. The code
  escapes nothing and the model does not either.
- `fetch`, `URL` and its query encoding, the `!res.ok` check and
  `res.json()`: the outcome of a request is a parameter of the
  continuations.
- Interleaving of requests: the replies are applied one at a time, in the
  order the caller chooses; nothing is claimed about overlapping requests.
- `localeCompare` is the `collate` parameter; `toLocaleString` in the found
  message is kept abstract as `Status.Found(count, query)`.
- `Number(data.totalResults)`: the total is a natural number or missing; a
  non-numeric total (`NaN`) is not modelled.
- Years with no leading integer: the comparators then return `NaN` and the
  order depends on the engine, so sorting by year requires every year to
  start with an integer (`Movies.Sortable`).
- Values of other JavaScript types: parameters are strings, `undefined` or
  `null`; a card id or details id that is `undefined` or `null` is the empty
  string; a missing `Title`, `Year` or rating `Value`, which the page would
  print as "undefined", is not modelled.
- The footer year (`new Date().getFullYear()`) and the API-key check at the
  start of `searchMovies`, which always passes with the embedded key.
- The initial state of the page's markup (selector value, buttons) is given
  to the `SearchSession` constructor. The markup is also taken to start with
  the details overlay closed, its content empty and the page scroll
  unlocked, which is the state the `DetailsOverlay` constructor sets.
- A reply that is not an object (`data` is `null`) makes the script throw
  inside the handler; the model has no such reply.
