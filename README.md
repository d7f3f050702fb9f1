# Product catalog console: verified model of the session core

The console lists the products of a remote catalog page by page, searches them
by title, sorts the current page locally, shows one product, creates and edits
products, and exports the current page as CSV. Almost all of `app.js` is DOM
and network glue. This project models the deterministic logic inside it and
proves properties of that logic in Dafny:

- **ImageUrl**: the image sanitiser `formatImageUrl`. It deletes the stray `[ ] " \`
  characters the service wraps around URLs, and falls back to a placeholder.
- **Sorting**: the `sortState` toggle and the in-place reorder of `sortLocal`.
- **Paging**: the request offset and the two pager flags of `updatePaginationUI`.
- **Requests**: the list URL of `fetchData`, and the choice between PUT to `base/id`
  and POST to `base` in `saveProduct`, with what happens after each response.
- **Csv**: the text `exportCSV` builds.
- **AppState**: class `Session` with the session globals (`products`, `currentPage`,
  `pageSize`, the sort state and the search text) and the handlers that change them.
- **Decimal**, **Text**, **Catalog**, **Wrappers**: integer text as `${n}` prints it,
  prefix matching, the product record, and `Option`.

Every operation has a partner:
- `IntToString` is read back by `ReadInt`.
- `ListUrl` is read back by `ParseListUrl`.
- `CsvDocument` is read back by `ParseCsv`.
- `Strip` has a multiset characterisation and a fixed-point law.
- The sort is specified by an order proved total and transitive.
- The `Session` methods keep the `Valid()` invariant: page >= 1, page size >= 1,
  and the buffer is a permutation of the last fetched page.

Three behaviours of the code worth knowing:
- A save whose response has a non-success status does nothing more (app.js:186-189).
  No notice is shown; only a rejected request shows the failure notice.
- A fetch does not reset the sort state (app.js:211-214). After a refresh, the next
  click on the same header flips the previous direction (descending after an ascending
  sort), even though the new page is unsorted.
- For the category, the export prints `undefined` when the category or its name is
  absent and `null` for a JSON `null` name (app.js:201). The table prints `N/A` for all
  three, and also for an empty name (app.js:98).

Inputs the console gets from outside are parameters:
- `encode: string -> string` stands for `encodeURIComponent`.
- A `FetchResult` stands for the outcome of `fetch` and `response.json()`.
- A `SaveResponse` stands for the outcome of the save request.
- The page size handed to `OnPageSizeChange` is one of the selector's options. These
  are positive whole numbers, so the method requires `n >= 1`.

## Model

| member | source | states |
|---|---|---|
| Decimal.NatToString | app.js:201 | the numeral of a number is non-empty, digits only, with no leading zero |
| Decimal.IntToString | app.js:201 | the text of an integer is non-empty, starts with `-` exactly for negatives, and is digits only otherwise |
| Decimal.DigitRun | app.js:201 | the leading digit run of a text is all digits and is followed by a non-digit or the end |
| Decimal.ReadIntOfIntToString | app.js:201 | reading back the text of any integer gives that integer and the text after it |
| Decimal.IntToStringInjective | app.js:54 | distinct integers print differently |
| ImageUrl.Strip | app.js:85 | the result has no `[`, `]`, `"` or `\` and is no longer than the input |
| ImageUrl.FormatImageUrl | app.js:81-88 | the result always starts with `http` and holds no stray character; absent or empty images give the placeholder |
| ImageUrl.PlaceholderIsUsable | app.js:82 | the placeholder `https://placehold.co/100` starts with `http` and is clean |
| ImageUrl.FormatImageUrlKeepsUsableFirst | app.js:83-87 | the result is the stripped first image when that starts with `http`, else the placeholder |
| ImageUrl.StripKeepsOthers | app.js:85 | every other character occurs in the result as often as in the input |
| ImageUrl.StripFixesExactlyClean | app.js:85 | stripping leaves a string unchanged iff it has no stray character |
| ImageUrl.StripIdempotent | app.js:85 | stripping twice equals stripping once |
| ImageUrl.StripConcat | app.js:85 | stripping distributes over concatenation |
| ImageUrl.FormatImageUrlIdempotent | app.js:81-88 | sanitising an already sanitised URL returns it unchanged |
| ImageUrl.StripUnwrapsWrapped | app.js:85 | a clean URL wrapped as `["…"]` strips to exactly that URL |
| ImageUrl.FormatImageUrlUnwrapsExample | app.js:62-65 | the wrapped example yields `http://x/1.png`; `[]` and an absent list yield the placeholder |
| Catalog.CategoryName | app.js:98 | the definition of `p.category?.name`: `undefined` for an absent category, otherwise the name as parsed; CategoryLabel and CsvCategory state what each view shows |
| Catalog.CategoryLabel | app.js:98 | the table text is never empty; it is N/A exactly for an absent, null, empty or literal `N/A` name, and the name otherwise |
| Sorting.NextSortState | app.js:213-214 | the key becomes k; the same key flips the direction, a different key sets ascending |
| Sorting.ClickTimesAlternates | app.js:213-214 | once k is the key, n more clicks on k flip the direction n times |
| Sorting.ClickTimesFromOtherKey | app.js:213-214 | n >= 1 clicks on a new key end ascending exactly when n is odd |
| Sorting.ThreeClicksOnOneHeader | app.js:211-214 | from the initial state, three clicks give ascending, descending, ascending |
| Sorting.StrLt | app.js:219-220 | the definition of string `<`; StrLtAsymmetric, StrLtConnected and StrLtTransitive prove it a strict total order |
| Sorting.KeyLt | app.js:216-220 | the definition of `a[key] < b[key]` for the title and the price key; PrecedesTotal and PrecedesTransitive state the order it gives |
| Sorting.StrLtAsymmetric | app.js:219-220 | string `<` is asymmetric (so irreflexive) |
| Sorting.StrLtConnected | app.js:219-220 | of two different strings one is `<` the other |
| Sorting.StrLtTransitive | app.js:219-220 | string `<` is transitive |
| Sorting.PrecedesTotal | app.js:216-221 | any two products can be put in order for either key and direction |
| Sorting.PrecedesTransitive | app.js:216-221 | the order a key and direction impose is transitive |
| Sorting.SortProducts | app.js:216-221 | the array becomes a permutation of itself, non-decreasing by the key when ascending and non-increasing when descending |
| Sorting.SwapStep | app.js:216-221 | one swap of the insertion keeps the multiset and both loop facts |
| Sorting.InsertedInOrder | app.js:216-221 | when the moving product stops, the sorted prefix grows by one |
| Paging.Offset | app.js:53 | the definition `(currentPage - 1) * pageSize`; its properties are stated by OffsetWindows and LaterPagesStartLater |
| Paging.OffsetWindows | app.js:53 | page 1 starts at 0; each page starts exactly one page size after the previous one; no offset is negative |
| Paging.LaterPagesStartLater | app.js:53 | a later page starts at or after the end of an earlier page, so distinct pages ask for disjoint windows |
| Paging.PagerFlagsFor | app.js:116-122 | previous is disabled iff on page 1; next is disabled iff fewer than the page size came back |
| Paging.PagerFlagsMeaning | app.js:116-122 | when the service returns at most a page, next is enabled iff the page came back full, and previous is enabled iff an earlier page exists |
| Requests.ListUrl | app.js:53-55 | the definition of the list URL; it is read back by ParseListUrl, see ListUrlRoundTrip |
| Requests.ListUrlRoundTrip | app.js:53-55 | every list URL reads back as the page offset, the page size, and the encoded search as title iff the search is non-empty |
| Requests.InitialListUrl | app.js:42 | the first request asks for offset 0, limit 10, no title |
| Requests.SaveRequestFor | app.js:177-178 | save uses PUT to `base/id` iff the id is non-empty, otherwise POST to `base` |
| Requests.SaveTargetsDistinct | app.js:177-178 | different non-empty ids save to different URLs, and never to the creation URL |
| Requests.EditFormId | app.js:154 | the edit form's id field is never empty |
| Requests.EditFormUpdatesItsProduct | app.js:152-178 | the edit form PUTs to its own product's URL, distinct products to distinct URLs, and the create form POSTs to the base |
| Requests.SaveEffects | app.js:173-194 | a successful save is exactly the request, one notice, and one refresh; a save sends exactly one request first; it refreshes the list at most once, and iff the status is a success, as its last effect; the update notice shows iff the save succeeds with a non-empty id, the creation notice iff it succeeds with an empty id; a non-success status does nothing after the request, and a rejection only shows the failure notice |
| Requests.CreateFlow | app.js:186-188 | a blank-id save that succeeds is one POST, the creation notice, then one refresh |
| Csv.CsvCategory | app.js:201 | an absent category or name exports as `undefined`, a null name as `null`, a string name as itself |
| Csv.CategoryTextsDiffer | app.js:98 | the export and the table disagree on the category iff it or its name is absent, the name is null, or the name is empty |
| Csv.CsvLine | app.js:201 | the definition of one exported line; it is read back by ReadRow, see ReadRowOfCsvLine, and QuotedFieldsAreAmbiguous shows its quoting is ambiguous |
| Csv.CsvDocument | app.js:199-201 | the definition of the exported document; it is read back by ParseCsv, see CsvRoundTrip, and grows one line per product, see CsvDocumentSnoc |
| Csv.CsvLinesSnoc | app.js:200-201 | one more product appends exactly its line |
| Csv.CsvDocumentSnoc | app.js:199-201 | the document of products plus one equals the old document followed by that product's line |
| Csv.RowsOf | app.js:201 | one row per product, in order, carrying id, title, price and exported category |
| Csv.QuoteFree | app.js:201 | the quote-free prefix has no quote and ends at a quote or at the end |
| Csv.ReadRowOfCsvLine | app.js:201 | a quote-safe product's line reads back as its row and leaves the rest |
| Csv.ReadRowsOfCsvLines | app.js:200-201 | the lines of quote-safe products read back as their rows |
| Csv.CsvRoundTrip | app.js:199-202 | the exported document reads back as the header and exactly one row per product in buffer order, when no quoted field holds a quote |
| Csv.CsvExample | app.js:199-201 | one shoe priced 20 in category Wear exports as the header followed by `1,"Shoe",20,"Wear"\n` |
| Csv.QuotedFieldsAreAmbiguous | app.js:201 | a product whose title holds `",m,"` exports the same line as a different product with a shorter title, price m and a category name that carries the rest |
| AppState.CleanPage | app.js:63-66 | the page keeps every returned field and replaces cleanImg by the sanitised image, which is always a usable URL |
| AppState.Session.constructor | app.js:2-4 | page 1, page size 10, empty search, no sort key and ascending, empty buffer |
| AppState.Session.ListRequestUrl | app.js:48-55 | the definition of the URL fetchData builds from the session state; it is read back by ParseListUrl, see ListUrlRoundTrip |
| AppState.Session.OnSearchInput | app.js:14-15 | typing changes only the search text |
| AppState.Session.OnSearchSettled | app.js:16-19 | the debounced search goes back to page 1 and requests that page's URL |
| AppState.Session.OnPageSizeChange | app.js:23-27 | a new page size goes back to page 1 and requests that page's URL |
| AppState.Session.OnPrev | app.js:30 | moves back and fetches iff not on page 1, which is exactly when the flag PrevDisabled computed for the current page is off; page stays >= 1 |
| AppState.Session.OnNext | app.js:31 | always moves forward one page and fetches |
| AppState.Session.ApplyFetch | app.js:57-77 | a returned page replaces the buffer with its cleaned products and yields the pager flags; a failure changes nothing |
| AppState.Session.SortLocal | app.js:211-223 | the sort state steps as NextSortState; the buffer becomes a permutation of itself ordered by the key in the new direction; paging is untouched |
| AppState.Session.ViewDetail | app.js:125-127 | returns the first buffered product with the id, and nothing iff no buffered product has it |
| AppState.Session.ExportCsv | app.js:198-202 | the text built by the loop is the header followed by one line per buffered product, in order |

## Left out

- DOM reads and writes, `renderTable` HTML, tooltips, Bootstrap modals, the loading
  indicator, the page-info text and `alert`. These are UI only; notices are modelled
  as `Notice` values.
- The contents of the detail overlay and most of the form prefill of `openEditModal`
  and `openCreateModal`: UI. Only the id field, which decides PUT or POST, is modelled
  (`EditFormId`, and `""` for the create form).
- The request payload of `saveProduct`, with `parseFloat`/`parseInt` of the form
  fields. Number parsing and floating point are not modelled. Prices and ids are integers.
- `fetch`, `response.json()`, async/await and the race between overlapping fetches:
  network and concurrency. A fetch result is an input to `ApplyFetch`.
- The `setTimeout`/`clearTimeout` debounce: timers. Only its effect is modelled:
  `OnSearchSettled` goes back to page 1 and requests.
- `Blob`, `URL.createObjectURL` and the download link: foreign library calls.
  The internals of `encodeURIComponent` are also left out: it is a parameter.
- Sorting.SortProducts: the result is specified only as a permutation in order, not
  as JavaScript's own `Array.prototype.sort` output. The comparator never returns 0,
  so the order of equal keys is not promised.
- Sorting.StrLt: compares characters, not UTF-16 code units. The two differ only for
  characters outside the Basic Multilingual Plane.
- Decimal.IntToString: JavaScript prints numbers of 1e21 and above in exponent
  notation. The model prints every integer in plain decimal.
- Csv.CsvCategory: a category name that is neither a string nor `null` (a number, say) is not
  modelled; such a value would print as its own JavaScript text.
- ImageUrl.FormatImageUrl: the elements of `images` are taken to be strings. A
  non-string first element makes `replace` throw, and that is not modelled.
- Csv.CsvRoundTrip: proved only when no title or category name holds a double quote.
  The export does not escape quotes, and QuotedFieldsAreAmbiguous shows the ambiguity.
