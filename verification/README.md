# Booking and customer list views, modelled in Dafny

This project models the client-side list pipeline of the two list views in the
admin front end. The booking history view is `BookingComponent`. The customer
list view is `CustomerComponent`. Each view keeps its loaded records and
derives three things from them:

- a filtered selection;
- a sorted order of that selection;
- the page of it that is shown.

On top of that pipeline, each view offers column sorting, a pager with a page
window, record deletion and a CSV export. The booking view also offers
statistics over its selection and a status change.

Each view is a Dafny datatype, and each handler is a pure function from view
to view. The layout:

- `seqs.dfy`: sequence vocabulary shared by both views. `Filter` is
  `Array.prototype.filter`, `JsSlice` is `slice`, `CeilDiv` is `Math.ceil` of
  a quotient, plus sums and counts. It also holds `Option` and the
  success-or-failure `Response` of a service call.
- `text.dfy`: `includes`, JavaScript's `<` on strings, and the decimal
  rendering of integers. `toLowerCase`, `localeCompare` and
  `toLocaleDateString` are kept abstract in `Locale`.
- `sorting.dfy`: `Array.prototype.sort` with a comparator, as a stable
  insertion sort. It is proved sorted, a permutation and stable. When no two
  distinct elements compare equal, it is also proved the only sorted
  arrangement, and sorting by the reversed comparator is proved to give the
  reverse.
- `csv.dfy`: the comma-separated text both exports write, and a reader that
  shows which values survive the trip.
- `booking_records.dfy` and `booking_controller.dfy`: the booking view.
- `customer_records.dfy` and `customer_controller.dfy`: the customer view.

The two views differ in ways the model keeps.

- **Booking pager:** the booking view clamps the current page into
  `[1, totalPages]` after every recompute: a page past the new last page
  becomes the last page.
- **Customer pager:** the customer view never clamps. A reload or a re-sort
  keeps the current page even when it lies past the last page, and the page
  then shows nothing (`CustomerController.StalePageAfterReload`).
- **Page window:** the booking window is the pages at most two away from the
  current one. The customer window shifts left at the right edge so that it
  keeps five pages.
- **Page count:** the booking view counts 0 pages for an empty selection. The
  customer view starts at 1 page before anything is loaded and counts 0 after
  a load of nothing.
- **Out-of-range pages:** `goToPage` ignores a page outside
  `[1, totalPages]` in both views. In the booking view the current page is
  pulled back into range only when the pipeline re-runs
  (`BookingController.ClampExample`).
- **Window edges:** the booking window simply drops the pages that do not
  exist near either end, so it can show fewer than five pages. The customer
  window starts at page 1 near the first page and ends at the last page near
  the end, showing five pages whenever there are that many.

## Model

| member | source | states |
|---|---|---|
| BookingRecords.StatusOf | src/app/pages/booking/booking.component.ts:94-111 | a code that is a status's API number, as a number or as its decimal string, selects that status; a status other than pending is selected only by its own code |
| BookingRecords.StatusTable | src/app/pages/booking/booking.component.ts:94-111 | each status comes back from its API number in both spellings; any number outside 1..4 and any string other than "1" to "4" gives pending |
| BookingRecords.StatusCodesAgree | src/app/pages/booking/booking.component.ts:94-111 | for every integer n, the code n and the code "n" select the same status |
| BookingRecords.PaymentOf | src/app/pages/booking/booking.component.ts:78-92 | a code that is a payment status's API number, in either spelling, selects it; a result other than pending is selected only by its own code |
| BookingRecords.PaymentTable | src/app/pages/booking/booking.component.ts:78-92 | each payment status comes back from its API number in both spellings; any number outside 1..3 and any string other than "1" to "3" gives pending |
| BookingRecords.PaymentCodesAgree | src/app/pages/booking/booking.component.ts:78-92 | for every integer n, the code n and the code "n" select the same payment status |
| BookingRecords.Normalize | src/app/pages/booking/booking.component.ts:59-69 | a non-negative API id reads back from the stored id text; name, email and amount are copied; booking date is now and notes are empty; a missing appointment date becomes now; the stored status and payment status are the ones their codes select |
| BookingRecords.Select | src/app/pages/booking/booking.component.ts:113-126 | the selection is a subsequence of the bookings, and a booking is in it exactly when it passes the search, status, payment and from-date tests, as often as it occurs |
| BookingRecords.EmptyQuerySelectsAll | src/app/pages/booking/booking.component.ts:115-125 | cleared search, status, payment and from-date fields keep every booking, in order |
| BookingRecords.KeysOfOneKind | src/app/pages/booking/booking.component.ts:145-161 | for any field name, two bookings never give a number key on one side and a string key on the other |
| BookingRecords.LeIsTotalPreorder | src/app/pages/booking/booking.component.ts:144-166 | on every field and in both directions, the comparator orders every pair and is transitive |
| BookingRecords.CompareMirror | src/app/pages/booking/booking.component.ts:148-165 | comparing in descending order is comparing the swapped pair in ascending order, undefined values included |
| BookingRecords.DescendingMirrorsAscending | src/app/pages/booking/booking.component.ts:143-166 | without ties, the descending sort is exactly the ascending sort reversed |
| BookingRecords.HeaderLineFree | src/app/pages/booking/booking.component.ts:242-244 | the header line holds no line break |
| BookingRecords.CsvRowReadsBack | src/app/pages/booking/booking.component.ts:245-253 | when no value holds a line break, the name holds no quote, and the id, email and date hold no comma and do not open with a quote, a booking's line reads back into its seven column values and holds no line break |
| BookingRecords.CsvLineLineFree | src/app/pages/booking/booking.component.ts:245-253 | a booking whose id, name, email and formatted date hold no line break is written as a single line |
| BookingController.InitialConsistent | src/app/pages/booking/booking.component.ts:26-44 | the view as constructed already satisfies the pipeline invariant |
| BookingController.UpdatePagination | src/app/pages/booking/booking.component.ts:169-177 | the page count is the ceiling of selection size over 10; the current page is clamped into [1, totalPages], or 1 when there are no pages; the page slice is that page's part of the selection; nothing else changes |
| BookingController.ClampExample | src/app/pages/booking/booking.component.ts:169-177 | with 23 selected bookings there are 3 pages; page 5 becomes page 3 with the last three bookings, and page 0 becomes page 1 |
| BookingController.SortBookings | src/app/pages/booking/booking.component.ts:143-167 | the sort is a permutation and ordered by the comparator; bookings that compare equal keep their order; bookings with an undefined field go last ascending and first descending; nothing else changes |
| BookingController.FilterBookings | src/app/pages/booking/booking.component.ts:113-130 | from any state, the result holds a sorted rearrangement of the selection with consistent pages; bookings that compare equal keep their stored order; a page that still exists is kept, and a page past the new last page becomes the last page |
| BookingController.SortBy | src/app/pages/booking/booking.component.ts:132-141 | the same field flips the direction and a new field sorts ascending; the selection is only rearranged, with bookings that compare equal in their previous order; the pipeline invariant and the current page are kept |
| BookingController.GoToPage | src/app/pages/booking/booking.component.ts:179-184 | a page outside [1, totalPages] changes nothing; a valid page becomes current; page consistency is preserved |
| BookingController.PaginationPages | src/app/pages/booking/booking.component.ts:186-194 | consecutive ascending pages, at most 5, holding exactly the existing pages at most two away from the current one |
| BookingController.TotalBookings | src/app/pages/booking/booking.component.ts:197-199 | in a consistent view, the total is at least the size of the shown page and fits in the counted pages |
| BookingController.TotalRevenue | src/app/pages/booking/booking.component.ts:201-205 | with non-negative amounts, the revenue lies between 0 and the sum of all amounts of the selection |
| BookingController.PendingBookings | src/app/pages/booking/booking.component.ts:207-209 | the number of pending bookings in the selection, counted one by one, at most the selection size |
| BookingController.CompletedBookings | src/app/pages/booking/booking.component.ts:211-213 | the number of completed bookings in the selection, counted one by one, at most the selection size |
| BookingController.StatisticsOfSelection | src/app/pages/booking/booking.component.ts:196-213 | in a consistent view, the total, revenue, pending and completed figures are those of the bookings passing the query, whatever their order and page; pending plus completed is at most the total |
| BookingController.FirstWithId | src/app/pages/booking/booking.component.ts:227 | the position found holds the id and no earlier position does, or no position holds it |
| BookingController.UpdateBookingStatus | src/app/pages/booking/booking.component.ts:226-232 | only the first booking with the id takes the new status; with no such booking nothing changes; otherwise the pipeline re-runs to a consistent view that keeps equal bookings in stored order and keeps a current page that still exists, or moves to the last page when the current one is gone |
| BookingController.DeleteBooking | src/app/pages/booking/booking.component.ts:234-239 | declined changes nothing; confirmed removes every booking with the id, keeps the others in order and re-runs the pipeline to a consistent view that keeps equal bookings in stored order and keeps a current page that still exists, or moves to the last page when the current one is gone |
| BookingController.FetchBookings | src/app/pages/booking/booking.component.ts:56-76 | a failed fetch changes nothing; a received list becomes the normalised bookings, one per item, and the view is consistent, keeps equal bookings in stored order and keeps a current page that still exists, or moves to the last page when the current one is gone |
| BookingController.ExportCsv | src/app/pages/booking/booking.component.ts:241-254 | the export opens with the header line; with nothing selected it is just the header |
| BookingController.ExportLines | src/app/pages/booking/booking.component.ts:243-254 | when no value holds a line break, whatever quotes or commas they hold, the export splits into the header and exactly the selected bookings' lines, one each, in order |
| BookingController.ExportReadsBack | src/app/pages/booking/booking.component.ts:241-254 | when every selected booking is exportable (no value holds a line break, the name holds no quote, and the id, email and date hold no comma and do not open with a quote), the export splits into the header and one line per selected booking, each reading back as that booking's values |
| CustomerRecords.MapFromApi | src/app/pages/customers/customers.component.ts:47-52 | one customer per API record, in order, with id, name and email copied and phone taken from phoneNumber |
| CustomerRecords.Select | src/app/pages/customers/customers.component.ts:66-71 | the search result is a subsequence of the customers, holding a customer exactly when its lowercased name, email or phone includes the lowercased term |
| CustomerRecords.SelectWithin | src/app/pages/customers/customers.component.ts:67-71 | the search never adds or duplicates a customer |
| CustomerRecords.EmptyTermSelectsAll | src/app/pages/customers/customers.component.ts:66-71 | an empty term keeps every customer, in order |
| CustomerRecords.LeIsTotalPreorder | src/app/pages/customers/customers.component.ts:88-104 | the id comparator is always a total preorder, and the text comparators are one whenever localeCompare is a collation |
| CustomerRecords.CompareMirror | src/app/pages/customers/customers.component.ts:93-103 | the descending comparator is the ascending one with operands swapped |
| CustomerRecords.IdOrder | src/app/pages/customers/customers.component.ts:93-98 | a list sorted by the id comparator runs through ids numerically ascending, or descending |
| CustomerRecords.DescendingMirrorsAscending | src/app/pages/customers/customers.component.ts:88-104 | without ties, the descending sort on any column is exactly the ascending sort reversed |
| CustomerRecords.HeaderLineFree | src/app/pages/customers/customers.component.ts:160 | the header line holds no line break |
| CustomerRecords.CsvRowReadsBack | src/app/pages/customers/customers.component.ts:161-163 | when name, email and phone hold no quote and no line break, a customer's line reads back as its id text, name, email and phone |
| CustomerRecords.CsvLineLineFree | src/app/pages/customers/customers.component.ts:161-163 | a customer whose name, email and phone hold no line break is written as a single line |
| CustomerRecords.CsvRowShape | src/app/pages/customers/customers.component.ts:162 | a line is the id text, a comma, the quoted name, a comma and the remaining cells |
| CustomerRecords.QuoteInNameBreaksRow | src/app/pages/customers/customers.component.ts:162 | a quote in the name not followed by a comma cuts the line short: it reads back as the id and the part of the name before that quote |
| CustomerController.InitialInvariant | src/app/pages/customers/customers.component.ts:21-33 | the view as constructed satisfies the invariant |
| CustomerController.UpdatePagination | src/app/pages/customers/customers.component.ts:107-112 | the page count is the ceiling of shown size over 5; the current page is left alone; the slice is that page's part; a page past the end shows nothing and a real page shows one to five customers |
| CustomerController.SortCustomers | src/app/pages/customers/customers.component.ts:88-105 | the sort is a permutation, ordered by the comparator, and keeps customers that compare equal in their order; by id it is numerically ascending or descending; nothing else changes |
| CustomerController.FilterCustomers | src/app/pages/customers/customers.component.ts:65-75 | the shown customers are a sorted rearrangement of the search result, with equal ones in stored order; the page is 1 and the pages agree; query, dialog and load state are unchanged; the invariant is preserved |
| CustomerController.SortBy | src/app/pages/customers/customers.component.ts:77-86 | the same column flips the direction and a new column sorts ascending; the shown customers are only rearranged, sorted, with equal ones in their previous order; the current page is kept and re-paged; the dialog and load state are unchanged |
| CustomerController.GoToPage | src/app/pages/customers/customers.component.ts:114-119 | a page outside [1, totalPages] changes nothing; a valid page becomes current and is re-paged |
| CustomerController.PaginationPages | src/app/pages/customers/customers.component.ts:121-135 | consecutive ascending pages within [1, totalPages], exactly min(5, totalPages) of them, starting at the current page minus 2 but no later than totalPages minus 4 and no earlier than 1; so it holds the current page when that is valid |
| CustomerController.ViewCustomer | src/app/pages/customers/customers.component.ts:141-144 | the dialog opens on the customer and nothing else changes |
| CustomerController.CloseModal | src/app/pages/customers/customers.component.ts:154-157 | the dialog closes and forgets its customer, nothing else changes |
| CustomerController.CloseUndoesView | src/app/pages/customers/customers.component.ts:141-157 | closing the dialog undoes opening it |
| CustomerController.DeleteCustomer | src/app/pages/customers/customers.component.ts:146-152 | declined changes nothing; confirmed removes every customer with the id, keeps the others in order, re-runs the search, sorted with equal customers in stored order, from page 1, and closes the dialog; the loading flag and error are unchanged |
| CustomerController.FetchStart | src/app/pages/customers/customers.component.ts:41-44 | a load starts with loading on and no error, nothing else changes |
| CustomerController.Retry | src/app/pages/customers/customers.component.ts:177-179 | a retry is a fresh load start |
| CustomerController.FetchComplete | src/app/pages/customers/customers.component.ts:45-62 | received: the renamed records become the customers, all shown unsearched and unsorted, re-paged on the current page, with the error and the dialog unchanged; failed: the fixed message and nothing else; loading stops either way |
| CustomerController.StalePageAfterReload | src/app/pages/customers/customers.component.ts:46-55 | a reload with fewer pages than the current page number keeps that page, past the last one, and shows nothing |
| CustomerController.LoadCycle | src/app/pages/customers/customers.component.ts:41-62 | a successful load after a start leaves no error, a failed one leaves the fixed message, and a retry clears it and loads again |
| CustomerController.ExportCsv | src/app/pages/customers/customers.component.ts:159-164 | the export opens with the header line; with nothing shown it is just the header |
| CustomerController.ExportLines | src/app/pages/customers/customers.component.ts:160-164 | when no value holds a line break, whatever quotes they hold, the export splits into the header and exactly the shown customers' lines, one each, in order |
| CustomerController.ExportReadsBack | src/app/pages/customers/customers.component.ts:159-164 | when every shown customer is exportable (name, email and phone hold no quote and no line break), the export splits into the header and one line per shown customer, each reading back as that customer's values |
| Sorting.SortSorted | src/app/pages/booking/booking.component.ts:144-166 | sorting with any total-preorder comparator yields an ordered sequence |
| Sorting.SortStable | src/app/pages/booking/booking.component.ts:144-166 | elements that compare equal keep their relative order |
| Sorting.SortKeepsTies | src/app/pages/customers/customers.component.ts:89-104 | every group of elements that compare equal keeps its input order |
| Sorting.SortedUnique | src/app/pages/customers/customers.component.ts:89-104 | two ordered arrangements of the same elements, with no ties between distinct ones, are identical |
| Sorting.SortMirror | src/app/pages/customers/customers.component.ts:95-103 | sorting by the swapped comparator gives the reverse, when no two distinct elements tie |
| Seqs.Filter | src/app/pages/booking/booking.component.ts:114-126 | the result is a subsequence holding exactly the elements that pass, each as often as it occurs |
| Seqs.CeilDiv | src/app/pages/booking/booking.component.ts:170 | the smallest count of pages of n that covers a, and 0 only for a = 0 |
| Seqs.JsSlice | src/app/pages/customers/customers.component.ts:109-111 | for non-negative bounds, the slice is the part between the bounds cut down to the length, and no longer than the bounds allow |
| Seqs.SumOfFilterBounded | src/app/pages/booking/booking.component.ts:201-205 | with non-negative terms, the sum over a filtered part lies between 0 and the whole sum |
| Seqs.SumOfPermutation | src/app/pages/booking/booking.component.ts:202-204 | a sum depends only on the multiset of terms |
| Text.IncludesIffOccurs | src/app/pages/customers/customers.component.ts:68-70 | `includes` holds exactly when the term occurs at some position |
| Text.LexLessTransitive | src/app/pages/booking/booking.component.ts:163-164 | the `<` order on strings is transitive |
| Text.LexLessTotal | src/app/pages/booking/booking.component.ts:163-165 | two different strings are ordered one way or the other |
| Text.ParseDigitsOfNatToString | src/app/pages/booking/booking.component.ts:60 | the decimal rendering of a non-negative number reads back as that number |
| Csv.RowRoundTrip | src/app/pages/booking/booking.component.ts:243-253 | a comma-joined row of readable cells parses back into the cell values |
| Csv.LinesRoundTrip | src/app/pages/booking/booking.component.ts:243-254 | lines joined with line breaks, none holding one, split back into the same lines |
| Csv.ParseStopsAtInnerQuote | src/app/pages/customers/customers.component.ts:162 | a quoted value ends at its first inner quote, and the rest of the line is lost unless a comma follows |

## Left out

- HTTP: the services, their response envelope and the `isSuccess` check are
  not modelled. A fetch result arrives as a `Response` value, either the
  record list or a failure.
- `console.error` logging is dropped.
- `ngOnInit` is left out. It only calls the fetch handler, which is
  modelled.
- The dashboard, login and navigation components and routing are left out.
  They are not part of either list view.
- `confirm()` is not modelled. It becomes a boolean parameter of the delete
  handlers.
- The Blob, object-URL and hidden-link download in both exports is left out.
  Only the CSV text is modelled.
- `new Date()` is read once per load: it becomes the single `now`
  parameter of `Normalize`. The source reads the clock again for each
  record's booking date and for each missing appointment date, so its
  instants can differ by milliseconds between records. Sorting by
  `bookingDate`, or by a defaulted `appointmentDate`, can then order records
  that the model sees as equal.
- JavaScript compares strings by UTF-16 code units; `Text.LexLess` compares
  Unicode scalar values. The two orders differ only when a string holds a
  character outside the Basic Multilingual Plane, which the booking sort on
  text fields would then order differently.
- `toLowerCase`, `localeCompare` and `toLocaleDateString` stay abstract
  functions in `Locale`. Collation properties are assumed only where a lemma
  states `IsCollation`.
- Amounts are integers, not floating-point numbers. Revenue is therefore
  exact.
- An invalid date (NaN) is left out. Its comparisons are all false in
  JavaScript. `dateFrom` is `None` when the field is empty.
- `dateTo` is kept in the query but unused, as in the source.
- The booking modal (`openBookingDetails`, `closeModal`) is left out. Only
  the customer dialog is modelled.
- `BookingController.UpdateBookingStatus` takes a `Status`. The source casts
  any string into the status field with `as any`.
- Object aliasing is not modelled: the source mutates the shared booking
  object in place. The model replaces that record in the bookings list,
  which is what the re-run pipeline then reads.
- `BookingRecords.KeyOf` returns `Missing` for a sort field that is not a
  booking key. JavaScript would read inherited properties such as
  `constructor` there. The view's column headers only pass booking keys.
- `CustomerRecords.Compare` subtracts ids exactly. JavaScript number
  precision above 2^53 is not modelled.
- `trackByCustomerId` is left out. It only serves Angular's list rendering.
- `trackByBookingId` is left out for the same reason.
- BookingController.TotalRevenue: bounds are stated only for
  non-negative amounts. The exact value over the query's bookings is in
  `BookingController.StatisticsOfSelection`.
- CustomerRecords.LeIsTotalPreorder: for text columns, this holds only
  under the assumption that `localeCompare` behaves as a collation
  (`IsCollation`). Browser collation is not modelled.
