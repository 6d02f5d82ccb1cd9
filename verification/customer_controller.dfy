/**
  The customer list view as a state transformer. Unlike the booking view it
  never clamps the current page: a search or a delete resets it to 1, but a
  reload or a re-sort keeps it, so it can point past the last page.
 */
module CustomerController {

  import opened Seqs
  import opened Text
  import opened Sorting
  import opened Csv
  import opened CustomerRecords

  const ItemsPerPage: nat := 5

  /** How many page buttons the pager shows at most. */
  const MaxPagesToShow: nat := 5

  const LoadError: string := "Failed to load customers. Please try again."

  datatype View = View(
    customers: seq<Customer>,
    filtered: seq<Customer>,
    paginated: seq<Customer>,
    searchTerm: string,
    sortField: Field,
    sortDirection: Direction,
    currentPage: int,
    totalPages: int,
    showModal: bool,
    selected: Option<Customer>,
    loading: bool,
    error: Option<string>)

  /** The view as constructed: nothing loaded, sorted by id ascending, and one
      page counted before anything is loaded. */
  function Initial(): View {
    View([], [], [], "", Id, Asc, 1, 1, false, None, false, None)
  }

  /** What every handler keeps: the shown customers are drawn from the loaded
      ones, the current page is at least 1, and a running load has no error. */
  predicate Invariant(v: View) {
    && multiset(v.filtered) <= multiset(v.customers)
    && v.currentPage >= 1
    && (v.loading ==> v.error.None?)
  }

  /** The page fields were computed from the shown customers: the page count
      covers them and the page slice is the current page's part. */
  predicate PagesAgree(v: View) {
    && v.totalPages == CeilDiv(|v.filtered|, ItemsPerPage)
    && v.paginated == JsSlice(v.filtered, (v.currentPage - 1) * ItemsPerPage, (v.currentPage - 1) * ItemsPerPage + ItemsPerPage)
  }

  /** The two views show the same detail dialog. */
  predicate SameDialog(a: View, b: View) {
    a.showModal == b.showModal && a.selected == b.selected
  }

  /** The two views are in the same loading state. */
  predicate SameLoad(a: View, b: View) {
    a.loading == b.loading && a.error == b.error
  }

  /** The two views hold the same customers, search term and sort order. */
  predicate SameQuery(a: View, b: View) {
    && a.customers == b.customers && a.searchTerm == b.searchTerm
    && a.sortField == b.sortField && a.sortDirection == b.sortDirection
  }

  /** Page agreement depends on the shown customers and the page fields only. */
  lemma {:induction false} PagesAgreeOnPageFields(a: View, b: View)
    requires a.filtered == b.filtered && a.paginated == b.paginated
    requires a.currentPage == b.currentPage && a.totalPages == b.totalPages
    ensures PagesAgree(a) == PagesAgree(b)
  {
  }

  lemma {:induction false} InitialInvariant()
    ensures Invariant(Initial())
  {
  }

  /** `updatePagination`: recount the pages and cut out the current page's
      slice, leaving the current page as it is. A page past the end shows
      nothing; a real page shows between one and five customers. */
  function UpdatePagination(v: View): (r: View)
    ensures PagesAgree(r)
    ensures r.currentPage == v.currentPage
    ensures v.currentPage >= 1 ==>
      r.paginated == v.filtered[Min((v.currentPage - 1) * ItemsPerPage, |v.filtered|)..Min(v.currentPage * ItemsPerPage, |v.filtered|)]
    ensures 1 <= v.currentPage && r.totalPages < v.currentPage ==> r.paginated == []
    ensures 1 <= v.currentPage <= r.totalPages ==> 1 <= |r.paginated| <= ItemsPerPage
    ensures r == v.(totalPages := r.totalPages, paginated := r.paginated)
  {
    var total := CeilDiv(|v.filtered|, ItemsPerPage);
    var start := (v.currentPage - 1) * ItemsPerPage;
    var page := JsSlice(v.filtered, start, start + ItemsPerPage);
    assert 1 <= v.currentPage && total < v.currentPage ==> start >= total * ItemsPerPage by {
      if 1 <= v.currentPage && total < v.currentPage {
        assert v.currentPage - 1 >= total;
      }
    }
    assert 1 <= v.currentPage <= total ==> start < |v.filtered| by {
      if 1 <= v.currentPage <= total {
        assert (v.currentPage - 1) * ItemsPerPage <= (total - 1) * ItemsPerPage;
      }
    }
    v.(totalPages := total, paginated := page)
  }

  /** `sortCustomers`: the stable sort of the shown customers by the current
      column and direction. */
  function SortCustomers(v: View, collate: (string, string) -> int): (r: View)
    ensures multiset(r.filtered) == multiset(v.filtered)
    ensures v.sortField == Id || IsCollation(collate) ==>
      SortedBy(r.filtered, Le(v.sortField, v.sortDirection, collate))
    ensures v.sortField == Id || IsCollation(collate) ==>
      TiesInOrderOf(r.filtered, v.filtered, Le(v.sortField, v.sortDirection, collate))
    ensures v.sortField == Id && v.sortDirection == Asc ==>
      forall i, j :: 0 <= i < j < |r.filtered| ==> r.filtered[i].id <= r.filtered[j].id
    ensures v.sortField == Id && v.sortDirection == Desc ==>
      forall i, j :: 0 <= i < j < |r.filtered| ==> r.filtered[i].id >= r.filtered[j].id
    ensures r == v.(filtered := r.filtered)
  {
    var le := Le(v.sortField, v.sortDirection, collate);
    var sorted := Sort(v.filtered, le);
    assert v.sortField == Id || IsCollation(collate) ==> SortedBy(sorted, le) && TiesInOrderOf(sorted, v.filtered, le) by {
      if v.sortField == Id || IsCollation(collate) {
        LeIsTotalPreorder(v.sortField, v.sortDirection, collate);
        SortSorted(v.filtered, le);
        SortKeepsTies(v.filtered, le);
      }
    }
    assert v.sortField == Id ==>
      && (v.sortDirection == Asc ==> forall i, j :: 0 <= i < j < |sorted| ==> sorted[i].id <= sorted[j].id)
      && (v.sortDirection == Desc ==> forall i, j :: 0 <= i < j < |sorted| ==> sorted[i].id >= sorted[j].id) by {
      if v.sortField == Id {
        IdOrder(sorted, v.sortDirection, collate);
      }
    }
    v.(filtered := sorted)
  }

  /** `filterCustomers`: keep the customers matching the search term, sort
      them, go back to the first page and re-page. Customers that compare
      equal keep their stored order. */
  function FilterCustomers(v: View, loc: Locale): (r: View)
    ensures multiset(r.filtered) == multiset(Select(v.customers, v.searchTerm, loc.lower))
    ensures v.sortField == Id || IsCollation(loc.collate) ==>
      && SortedBy(r.filtered, Le(v.sortField, v.sortDirection, loc.collate))
      && TiesInOrderOf(r.filtered, Select(v.customers, v.searchTerm, loc.lower), Le(v.sortField, v.sortDirection, loc.collate))
    ensures r.currentPage == 1 && PagesAgree(r)
    ensures Invariant(v) ==> Invariant(r)
    ensures SameQuery(v, r) && SameDialog(v, r) && SameLoad(v, r)
  {
    var selected := Select(v.customers, v.searchTerm, loc.lower);
    var sorted := SortCustomers(v.(filtered := selected), loc.collate);
    assert multiset(selected) <= multiset(v.customers) by {
      SelectWithin(v.customers, v.searchTerm, loc.lower);
    }
    UpdatePagination(sorted.(currentPage := 1))
  }

  /** `sortBy`: the same column flips the direction, a new column sorts
      ascending; the shown customers are re-sorted and re-paged on the
      current page. */
  function SortBy(v: View, field: Field, collate: (string, string) -> int): (r: View)
    ensures r.sortField == field
    ensures r.sortDirection == if field == v.sortField then Flip(v.sortDirection) else Asc
    ensures multiset(r.filtered) == multiset(v.filtered)
    ensures field == Id || IsCollation(collate) ==>
      && SortedBy(r.filtered, Le(r.sortField, r.sortDirection, collate))
      && TiesInOrderOf(r.filtered, v.filtered, Le(r.sortField, r.sortDirection, collate))
    ensures r.currentPage == v.currentPage && PagesAgree(r)
    ensures Invariant(v) ==> Invariant(r)
    ensures r.customers == v.customers && r.searchTerm == v.searchTerm
    ensures SameDialog(v, r) && SameLoad(v, r)
  {
    var next :=
      if v.sortField == field then v.(sortDirection := if v.sortDirection == Asc then Desc else Asc)
      else v.(sortField := field, sortDirection := Asc);
    UpdatePagination(SortCustomers(next, collate))
  }

  /** `goToPage`: a page outside [1, totalPages] is ignored. */
  function GoToPage(v: View, page: int): (r: View)
    ensures !(1 <= page <= v.totalPages) ==> r == v
    ensures 1 <= page <= v.totalPages ==>
      && r.currentPage == page && PagesAgree(r)
      && r == v.(currentPage := page, totalPages := r.totalPages, paginated := r.paginated)
    ensures Invariant(v) ==> Invariant(r)
  {
    if 1 <= page <= v.totalPages then UpdatePagination(v.(currentPage := page)) else v
  }

  /** `getPaginationPages`: a window of up to five consecutive pages within
      [1, totalPages] around the current page; near the last page it shifts
      left so that it still shows five pages when there are that many. */
  function PaginationPages(v: View): (r: seq<int>)
    ensures |r| == if v.totalPages <= 0 then 0 else Min(MaxPagesToShow, v.totalPages)
    ensures forall i :: 0 < i < |r| ==> r[i] == r[i - 1] + 1
    ensures forall i :: 0 <= i < |r| ==> 1 <= r[i] <= v.totalPages
    ensures 1 <= v.currentPage <= v.totalPages ==> v.currentPage in r
    ensures 1 <= v.totalPages < v.currentPage ==> r[|r| - 1] == v.totalPages
    ensures v.totalPages >= 1 ==> r[0] == Max(1, Min(v.currentPage - 2, v.totalPages - 4))
  {
    var half := MaxPagesToShow / 2;
    var first := Max(1, v.currentPage - half);
    var last := Min(v.totalPages, first + MaxPagesToShow - 1);
    var start := if last - first + 1 < MaxPagesToShow then Max(1, last - MaxPagesToShow + 1) else first;
    var r := Range(start, last);
    assert 1 <= v.currentPage <= v.totalPages ==> r[v.currentPage - start] == v.currentPage;
    r
  }

  // ---------------------------------------------------------------- editing

  /** `viewCustomer`: open the detail dialog on the customer. */
  function ViewCustomer(v: View, c: Customer): (r: View)
    ensures r.showModal && r.selected == Some(c)
    ensures Invariant(v) ==> Invariant(r)
    ensures r == v.(showModal := true, selected := Some(c))
  {
    v.(showModal := true, selected := Some(c))
  }

  /** `closeModal`: close the detail dialog and forget its customer. */
  function CloseModal(v: View): (r: View)
    ensures !r.showModal && r.selected == None
    ensures Invariant(v) ==> Invariant(r)
    ensures r == v.(showModal := false, selected := None)
  {
    v.(showModal := false, selected := None)
  }

  /** Closing the dialog undoes opening it, from a closed dialog. */
  lemma {:induction false} CloseUndoesView(v: View, c: Customer)
    requires !v.showModal && v.selected == None
    ensures CloseModal(ViewCustomer(v, c)) == v
  {
  }

  lemma {:induction false} DrawnFrom(a: seq<Customer>, b: seq<Customer>)
    requires multiset(a) <= multiset(b)
    ensures forall c :: c in a ==> c in b
  {
    forall c | c in a
      ensures c in b
    {
      assert c in multiset(a);
    }
  }

  /** `deleteCustomer`: once confirmed, every customer with the id goes, the
      others stay in their order, the search re-runs from the first page and
      the dialog closes; declined, the view is untouched. */
  function DeleteCustomer(v: View, id: int, confirmed: bool, loc: Locale): (r: View)
    ensures !confirmed ==> r == v
    ensures confirmed ==>
      && Subsequence(r.customers, v.customers)
      && (forall c :: multiset(r.customers)[c] == if c.id != id then multiset(v.customers)[c] else 0)
      && (forall c :: c in r.customers ==> c.id != id)
      && (forall c :: c in r.filtered ==> c.id != id)
      && multiset(r.filtered) == multiset(Select(r.customers, v.searchTerm, loc.lower))
      && (v.sortField == Id || IsCollation(loc.collate) ==>
            && SortedBy(r.filtered, Le(v.sortField, v.sortDirection, loc.collate))
            && TiesInOrderOf(r.filtered, Select(r.customers, v.searchTerm, loc.lower), Le(v.sortField, v.sortDirection, loc.collate)))
      && r.currentPage == 1 && PagesAgree(r)
      && !r.showModal && r.selected == None
    ensures Invariant(v) ==> Invariant(r)
    ensures r.searchTerm == v.searchTerm && r.sortField == v.sortField && r.sortDirection == v.sortDirection
    ensures SameLoad(v, r)
  {
    if confirmed then
      var kept := Filter(v.customers, (c: Customer) => c.id != id);
      var shown := FilterCustomers(v.(customers := kept), loc);
      assert multiset(shown.filtered) <= multiset(kept) by {
        SelectWithin(kept, v.searchTerm, loc.lower);
      }
      DrawnFrom(shown.filtered, kept);
      PagesAgreeOnPageFields(shown, CloseModal(shown));
      CloseModal(shown)
    else v
  }

  // ---------------------------------------------------------------- loading

  /** The start of `fetchCustomers` (and so of `retry`): loading, no error. */
  function FetchStart(v: View): (r: View)
    ensures r.loading && r.error == None
    ensures Invariant(v) ==> Invariant(r)
    ensures r == v.(loading := true, error := None)
  {
    v.(loading := true, error := None)
  }

  /** `retry` starts a new load, whatever the previous one left behind. */
  function Retry(v: View): (r: View)
    ensures r.loading && r.error == None
    ensures Invariant(v) ==> Invariant(r)
    ensures r == FetchStart(v)
  {
    FetchStart(v)
  }

  /** The end of `fetchCustomers`. Received: the customers are the service's
      records with `phoneNumber` renamed, all of them shown unsearched and
      unsorted, re-paged on the current page. Failed: the fixed message, the
      lists untouched. Either way loading stops. */
  function FetchComplete(v: View, response: Response<seq<ApiCustomer>>): (r: View)
    ensures !r.loading
    ensures response.Received? ==>
      && |r.customers| == |response.data|
      && (forall i :: 0 <= i < |r.customers| ==>
            var c := response.data[i];
            r.customers[i] == Customer(c.id, c.name, c.email, c.phoneNumber))
      && r.filtered == r.customers
      && r.currentPage == v.currentPage && PagesAgree(r)
      && r.error == v.error && SameDialog(v, r)
    ensures response.Failed? ==> r == v.(error := Some(LoadError), loading := false)
    ensures Invariant(v) ==> Invariant(r)
    ensures r.searchTerm == v.searchTerm && r.sortField == v.sortField && r.sortDirection == v.sortDirection
  {
    match response
    case Failed(_) => v.(error := Some(LoadError), loading := false)
    case Received(data) =>
      var loaded := MapFromApi(data);
      UpdatePagination(v.(customers := loaded, filtered := loaded)).(loading := false)
  }

  /** A load that delivers fewer pages than the current page number leaves the
      view on that page, past the last one, showing no customers, although
      there may be customers to show. */
  lemma {:induction false} StalePageAfterReload(v: View, data: seq<ApiCustomer>)
    requires Invariant(v)
    requires CeilDiv(|data|, ItemsPerPage) < v.currentPage
    ensures FetchComplete(FetchStart(v), Received(data)).currentPage == v.currentPage
    ensures FetchComplete(FetchStart(v), Received(data)).totalPages < v.currentPage
    ensures FetchComplete(FetchStart(v), Received(data)).paginated == []
  {
  }

  /** A successful load after a start leaves no error; a failed one leaves the
      fixed message, and a retry clears it again. */
  lemma {:induction false} LoadCycle(v: View, data: seq<ApiCustomer>, message: string)
    ensures FetchComplete(FetchStart(v), Received(data)).error == None
    ensures FetchComplete(FetchStart(v), Failed(message)).error == Some(LoadError)
    ensures Retry(FetchComplete(FetchStart(v), Failed(message))).error == None
    ensures Retry(FetchComplete(FetchStart(v), Failed(message))).loading
  {
  }

  // ---------------------------------------------------------------- export

  /** The text `exportToCSV` downloads: the header, then one line per shown
      customer, in the shown order. */
  function ExportCsv(v: View): (r: string)
    ensures |v.filtered| == 0 ==> r == CsvHeader
    ensures |v.filtered| > 0 ==> |r| > |CsvHeader| && r[..|CsvHeader| + 1] == CsvHeader + "\n"
  {
    JoinLines([CsvHeader] + seq(|v.filtered|, i requires 0 <= i < |v.filtered| => CsvLine(v.filtered[i])))
  }

  /** When no value holds a line break, the export splits into the header
      and exactly one line per shown customer, in the shown order, even where
      quotes inside values garble those lines. */
  lemma {:induction false} ExportLines(v: View)
    requires forall c :: c in v.filtered ==> LineFree(c)
    ensures SplitLines(ExportCsv(v)) ==
      [CsvHeader] + seq(|v.filtered|, i requires 0 <= i < |v.filtered| => CsvLine(v.filtered[i]))
  {
    var rows := seq(|v.filtered|, i requires 0 <= i < |v.filtered| => CsvLine(v.filtered[i]));
    forall i | 0 <= i < |v.filtered|
      ensures '\n' !in rows[i]
    {
      CsvLineLineFree(v.filtered[i]);
    }
    HeaderLineFree();
    HeaderThenRows(CsvHeader, rows);
  }

  /** When no quoted value holds a quote or a line break, the export splits
      into the header and exactly one line per shown customer, and each line
      reads back as that customer's values. */
  lemma {:induction false} ExportReadsBack(v: View)
    requires forall c :: c in v.filtered ==> Exportable(c)
    ensures |SplitLines(ExportCsv(v))| == |v.filtered| + 1
    ensures SplitLines(ExportCsv(v))[0] == CsvHeader
    ensures forall i :: 0 <= i < |v.filtered| ==>
      ParseRow(SplitLines(ExportCsv(v))[i + 1]) ==
        [IntToString(v.filtered[i].id), v.filtered[i].name, v.filtered[i].email, v.filtered[i].phone]
  {
    var rows := seq(|v.filtered|, i requires 0 <= i < |v.filtered| => CsvLine(v.filtered[i]));
    forall i | 0 <= i < |v.filtered|
      ensures '\n' !in rows[i]
      ensures ParseRow(rows[i]) ==
        [IntToString(v.filtered[i].id), v.filtered[i].name, v.filtered[i].email, v.filtered[i].phone]
    {
      CsvRowReadsBack(v.filtered[i]);
    }
    HeaderLineFree();
    HeaderThenRows(CsvHeader, rows);
  }
}
