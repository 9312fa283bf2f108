# Book inventory list: verified model of the fetch hook and the list view

This project models the client-side logic of a small bookstore inventory screen
(VentaCanjeLibros). There are two parts.

- The `useFetchBooks` hook keeps four state fields: `books`, `isLoading`, `error`
  and `done`. `fetchBooks` drives them through fixed transitions on success and on
  failure. `refetch` resets `done` and fetches. `addBook` appends a record and
  `removeBook` drops records by `_id`.
  Module `FetchBooksHook` models this as a class `BookStore`. Its methods are proved
  against pure transition functions (`Begin`, `Settle`, `Fetch`).
- The `Products` view keeps its own copy of the list, a search term, the record
  being edited, a create-form flag and a form draft. It filters the list by name or
  barcode and counts the stock levels of the filtered records. It also applies
  the results of its create, update and delete requests to its own list.
  Module `ProductsFilter` holds the pure, derived parts. Module `ProductsView`
  holds the drafts and the class `Products` with its handlers.

`JsValues` holds the JavaScript value operations these need: `null`, truthiness,
ASCII `toLowerCase`, `includes` and number-to-text. `BookRecords` holds the record
type and two list operations: remove by `_id` (the hook's `removeBook` and the
view's delete) and replace by `_id` (the view's update).

Each HTTP request is an input to the model. A fetch outcome is `Ok(data)`,
`NotOk(status, message)` or `Rejected(reason)`. A create or update outcome is
`Failed` or `Succeeded(body)`. A delete outcome is a boolean. The answer to
`window.confirm` is a boolean parameter.

A JSON `null` element of a list is `None` in `seq<Option<Book>>`. Reading `_id`
from such an element throws. In the view's delete and update handlers that throw
is caught like a failed request, so nothing changes. In the hook's `removeBook`
it would escape the state updater, so `RemoveBook` requires a list without
`null`.

Notes on the code:
- an empty search term keeps only the named records, not the whole list;
- the barcode is matched as written, without lower-casing it;
- a failed fetch leaves `done` false;
- a successful fetch does not clear an earlier `error`. So after a non-ok
  response, whose message is never empty, a retry that succeeds still leaves
  `error` truthy, and the view keeps showing its error page
  (`SuccessAfterFailureKeepsError`). A thrown error with an empty message
  leaves a falsy `error`, and then the page does not show it.

## Model

| member | source | states |
|---|---|---|
| JsValues.ToLower | VentaCanjeLibros/src/components/Books.jsx:59-60 | lower-casing keeps the length, maps each character on its own and leaves no upper-case ASCII letter |
| JsValues.IncludesEmpty | VentaCanjeLibros/src/components/Books.jsx:59-60 | every string includes the empty search term |
| JsValues.NumberToString | VentaCanjeLibros/src/components/Books.jsx:61-62 | a number prints as decimal digits, with a leading minus sign when negative |
| JsValues.NatToStringRoundTrip | VentaCanjeLibros/src/hooks/useFetchBooks.jsx:25 | reading the printed digits of a status back gives the same number |
| JsValues.NumberToStringInjective | VentaCanjeLibros/src/components/Books.jsx:61-62 | two different numbers never print as the same text |
| BookRecords.RemoveById | VentaCanjeLibros/src/hooks/useFetchBooks.jsx:49-51 | no record of the result carries the removed `_id`, and the result is never longer than the list |
| BookRecords.RemoveByIdKeepsOrder | VentaCanjeLibros/src/hooks/useFetchBooks.jsx:49-51 | the surviving records keep their relative order: the result is a subsequence of the list |
| BookRecords.RemoveByIdCounts | VentaCanjeLibros/src/hooks/useFetchBooks.jsx:49-51 | exactly the records whose `_id` differs survive, each as often as before, and nothing else appears |
| BookRecords.RemoveByIdIdempotent | VentaCanjeLibros/src/hooks/useFetchBooks.jsx:49-51 | removing the same id twice gives the same list as removing it once |
| BookRecords.RemoveAbsentId | VentaCanjeLibros/src/hooks/useFetchBooks.jsx:49-51 | removing an id that no record has leaves the list unchanged |
| BookRecords.ReplaceById | VentaCanjeLibros/src/components/Books.jsx:120-122 | same length; every record with the id becomes the new value; every other record stays in its place |
| BookRecords.ReplaceByIdIdempotent | VentaCanjeLibros/src/components/Books.jsx:120-122 | when the new record keeps the id, replacing a second time changes nothing |
| FetchBooksHook.FailureMessage | VentaCanjeLibros/src/hooks/useFetchBooks.jsx:22-25 | a non-ok response gives `Error: <status> - <message or 'Failed to fetch'>`; a thrown error gives its own message |
| FetchBooksHook.FailureMessageKeepsStatus | VentaCanjeLibros/src/hooks/useFetchBooks.jsx:25 | two non-ok messages that are equal come from the same status |
| FetchBooksHook.Begin | VentaCanjeLibros/src/hooks/useFetchBooks.jsx:12-13 | once a fetch starts, `isLoading` is true and `done` is false; `books` and `error` are unchanged |
| FetchBooksHook.Settle | VentaCanjeLibros/src/hooks/useFetchBooks.jsx:14-37 | once the response is handled `isLoading` is false. On success `books` is the data, or `[]` when it is null, `done` holds and `error` is unchanged. On failure `books` is `[]`, `error` is the failure message and `done` is unchanged |
| FetchBooksHook.FetchResult | VentaCanjeLibros/src/hooks/useFetchBooks.jsx:27-34 | a fetch returns the response data (possibly null) on success and `[]` on failure |
| FetchBooksHook.Fetch | VentaCanjeLibros/src/hooks/useFetchBooks.jsx:11-38 | after a fetch `isLoading` is false and `done` holds exactly on success. On success `books` is the data, or `[]` when the data is null, and `error` is untouched. On failure `books` is `[]` and `error` is the failure message |
| FetchBooksHook.FetchForgetsOldBooks | VentaCanjeLibros/src/hooks/useFetchBooks.jsx:27-34 | the books and `done` after a fetch depend only on the response, not on the state before it |
| FetchBooksHook.SuccessAfterFailureKeepsError | VentaCanjeLibros/src/hooks/useFetchBooks.jsx:27-32 | a successful fetch after a failed one sets `done` but leaves the failure's message in `error`, which is non-empty after a non-ok response |
| FetchBooksHook.BookStore.constructor | VentaCanjeLibros/src/hooks/useFetchBooks.jsx:4-7 | the store starts with no books, not loading, no error and not done |
| FetchBooksHook.BookStore.BeginFetch | VentaCanjeLibros/src/hooks/useFetchBooks.jsx:12-13 | sets `isLoading` and clears `done`; books and error are untouched |
| FetchBooksHook.BookStore.SettleFetch | VentaCanjeLibros/src/hooks/useFetchBooks.jsx:14-37 | the state after the response is `Settle` of the state before it; the return value is `FetchResult` |
| FetchBooksHook.BookStore.FetchBooks | VentaCanjeLibros/src/hooks/useFetchBooks.jsx:11-38 | the state after a whole call is `Fetch` of the state before it; the return value is `FetchResult` |
| FetchBooksHook.BookStore.Refetch | VentaCanjeLibros/src/hooks/useFetchBooks.jsx:40-43 | clearing `done` and then fetching ends in the same state as a plain fetch |
| FetchBooksHook.BookStore.AddBook | VentaCanjeLibros/src/hooks/useFetchBooks.jsx:45-47 | exactly one book is appended at the end; earlier books and the other three fields are unchanged |
| FetchBooksHook.BookStore.RemoveBook | VentaCanjeLibros/src/hooks/useFetchBooks.jsx:49-51 | `books` becomes `RemoveById` of the old list; the other three fields are unchanged |
| ProductsFilter.Matches | VentaCanjeLibros/src/components/Books.jsx:56-63 | the filter callback: a null or unnamed record never matches, and with an empty term every named record matches. Otherwise it matches when its lower-cased name, or its truthy barcode text, contains the lower-cased term |
| ProductsFilter.MatchIgnoresTermCase | VentaCanjeLibros/src/components/Books.jsx:59 | lower-casing the term first never changes whether a record matches |
| ProductsFilter.FilterProducts | VentaCanjeLibros/src/components/Books.jsx:55-64 | the filtered list has no null or unnamed record, every record in it matches the term, and it is never longer than `products` |
| ProductsFilter.FilterKeepsOrder | VentaCanjeLibros/src/components/Books.jsx:55-64 | the filtered list is an order-preserving subsequence of `products` |
| ProductsFilter.FilterCounts | VentaCanjeLibros/src/components/Books.jsx:55-64 | a record is in the filtered list exactly when it is in `products` and matches, and then as often as it occurs in `products` |
| ProductsFilter.EmptyTermKeepsNamed | VentaCanjeLibros/src/components/Books.jsx:55-64 | with an empty term the filtered list holds every named record, each as often as in `products`, and it is all of `products` when every record is named |
| ProductsFilter.FilterIdempotent | VentaCanjeLibros/src/components/Books.jsx:55-64 | filtering the filtered list again with the same term changes nothing |
| ProductsFilter.LevelsPartition | VentaCanjeLibros/src/components/Books.jsx:787-819 | the high (>= 20), medium (10 to 19) and low (< 10) tests are disjoint, and a record passes one of them exactly when its stock is a number |
| ProductsFilter.CountLevel | VentaCanjeLibros/src/components/Books.jsx:507 | a stock-level count never exceeds the length of the list it counts |
| ProductsFilter.LevelCountsSum | VentaCanjeLibros/src/components/Books.jsx:787-819 | the three level counts add up to the number of records with a numeric stock |
| ProductsFilter.Summarize | VentaCanjeLibros/src/components/Books.jsx:498-507 | the header total is the filtered length and the header low count equals the low box. The three boxes never exceed the total, and they sum to it when every stock is a number |
| ProductsFilter.DuneExample | VentaCanjeLibros/src/components/Books.jsx:55-64 | for books "Dune" (stock 5) and "1984" (stock 25), the search "du" keeps only "Dune", giving one low and no high |
| ProductsView.InitialDraft | VentaCanjeLibros/src/components/Books.jsx:20-25 | the first draft has name, stock, barcode and price set to "", and no author or category |
| ProductsView.BlankCreateDraft | VentaCanjeLibros/src/components/Books.jsx:81-86 | the create draft has name, author, stock and category set to "", and no barcode or price |
| ProductsView.EditDraft | VentaCanjeLibros/src/components/Books.jsx:70-77 | the edit draft holds only name, author and stock, each "" when falsy (a stock of 0 too). It never carries category, barcode or price |
| ProductsView.CreateEnabled | VentaCanjeLibros/src/components/Books.jsx:451-453 | the create button is disabled exactly when the draft's name, stock or category is absent or empty |
| ProductsView.CreateDisabledOnFreshDrafts | VentaCanjeLibros/src/components/Books.jsx:451-453 | create is disabled on the initial, the blank create and every edit draft, since none has both a stock and a category |
| ProductsView.Products.Filtered | VentaCanjeLibros/src/components/Books.jsx:55-64 | the shown list is a subsequence of `products` holding exactly the records that match the current search term |
| ProductsView.Products.constructor | VentaCanjeLibros/src/components/Books.jsx:15-25 | the view starts with an empty list, an empty term, nothing edited, the form closed and the initial draft |
| ProductsView.Products.Sync | VentaCanjeLibros/src/components/Books.jsx:49-53 | once the hook is done, `products` becomes the hook's books; otherwise nothing changes |
| ProductsView.Products.SetSearchTerm | VentaCanjeLibros/src/components/Books.jsx:66-68 | only the search term changes |
| ProductsView.Products.EditClick | VentaCanjeLibros/src/components/Books.jsx:70-77 | the row becomes the edited record and the draft becomes `EditDraft` of it; the list is unchanged |
| ProductsView.Products.CancelEdit | VentaCanjeLibros/src/components/Books.jsx:677 | edit mode ends and nothing else changes |
| ProductsView.Products.CreateClick | VentaCanjeLibros/src/components/Books.jsx:78-87 | the form opens, edit mode ends and the draft becomes the blank create draft |
| ProductsView.Products.CloseCreateForm | VentaCanjeLibros/src/components/Books.jsx:297 | the form closes and the draft is kept |
| ProductsView.Products.DeleteClick | VentaCanjeLibros/src/components/Books.jsx:88-106 | a request is sent exactly when the user confirms. The list loses exactly the records with the target `_id` only when the request succeeds; otherwise it is unchanged |
| ProductsView.Products.Update | VentaCanjeLibros/src/components/Books.jsx:108-128 | on success every record with the edited `_id` is replaced by the server's record and edit mode ends. On failure the list and the edited record stay as they were |
| ProductsView.Products.SubmitCreate | VentaCanjeLibros/src/components/Books.jsx:130-147 | a request is sent exactly when create is enabled. On success the new record is appended, the form closes and the draft resets. On failure nothing changes |
| ProductsView.DeleteRemovesExactly | VentaCanjeLibros/src/components/Books.jsx:100 | a successful delete shortens the list by exactly the number of records with the target `_id`; the others keep their order |
| ProductsView.UpdateKeepsIdCount | VentaCanjeLibros/src/components/Books.jsx:120-122 | when the server's record keeps the edited `_id`, an update leaves as many records with that `_id` as before |

## Left out

- The HTTP requests, JSON parsing and the fixed backend URLs are not modelled. Each outcome is an input.
- The categories loader (VentaCanjeLibros/src/components/Books.jsx:33-47) is network input only for the autocomplete list, and is not modelled.
- `window.confirm`, `alert` and `console.error` are foreign UI calls. Confirmation is a boolean parameter; the alerts and logs are left out.
- All JSX rendering, styles and hover handlers are presentation and are not modelled. This includes the loading and error pages and the per-field `onChange` handlers of the form inputs.
- React effect scheduling, the repeated fetches on mount, overlapping fetches and stale closures are left out. The model runs one handler at a time, to completion; `fetchBooks` awaits twice, first the request and then the parsing of its body. No state changes between those two awaits, so the split between `BeginFetch` and `SettleFetch` keeps the only state visible while the request is pending.
- `toLowerCase` is modelled on ASCII letters only. Full Unicode case mapping is outside the model.
- `stock` is an integer or missing. JavaScript coercion of a text stock, and `null < 10` being true, are outside the model.
- A numeric barcode is an integer of magnitude at most 2^53 - 1 (`SafeInteger`). Larger JSON numbers, which are rounded when parsed and print in exponent form from 1e21 on, and fractional barcodes are outside the model.
- A record's `_id` is always present text. A missing `_id` (where `undefined === undefined`) is outside the model.
- A response body that is neither an array nor `null` is outside the model. A falsy one (`false`, `0`, `""`) is stored as `[]` and returned as it is; a truthy one is stored, and the view's `filter` then throws.
- A name that is not text is outside the model. A falsy one (`0`, `false`, `null`) is excluded like `""`; a truthy one throws at `toLowerCase`.
- FetchBooksHook.BookStore.RemoveBook: requires a list without `null` elements, because on such a list the source throws inside React's state updater rather than returning.
