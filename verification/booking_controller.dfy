/**
  The booking history view as a state transformer: every handler of the view
  maps the view state to its next state. The pipeline is select, sort, clamp
  the page, slice; the statistics and the export read the sorted selection,
  never the page.
 */
module BookingController {

  import opened Seqs
  import opened Text
  import opened Sorting
  import opened Csv
  import opened BookingRecords

  const ItemsPerPage: nat := 10

  datatype View = View(
    bookings: seq<Booking>,
    filtered: seq<Booking>,
    paginated: seq<Booking>,
    query: Query,
    sortField: string,
    sortDirection: Direction,
    currentPage: int,
    totalPages: int)

  /** The view as constructed: nothing loaded, newest appointments first. */
  function Initial(): View {
    View([], [], [], Query("", "", "", None, None), "appointmentDate", Desc, 1, 0)
  }

  /** The page fields agree with the sorted selection: the page count covers
      it, the current page is a real page (or 1 when there is none) and the
      page slice is that page's part of the selection. */
  predicate PageConsistent(v: View) {
    && v.totalPages == CeilDiv(|v.filtered|, ItemsPerPage)
    && 1 <= v.currentPage
    && (v.totalPages >= 1 ==> v.currentPage <= v.totalPages)
    && (v.currentPage - 1) * ItemsPerPage <= |v.filtered|
    && v.paginated == v.filtered[(v.currentPage - 1) * ItemsPerPage..Min(v.currentPage * ItemsPerPage, |v.filtered|)]
  }

  /** What every handler leaves behind: the selection is a rearrangement of
      the bookings that pass the query, ordered by the current sort, and the
      page fields agree with it. */
  predicate Consistent(v: View, lower: string -> string) {
    && multiset(v.filtered) == multiset(Select(v.bookings, v.query, lower))
    && SortedBy(v.filtered, Le(v.sortField, v.sortDirection, lower))
    && PageConsistent(v)
  }

  /** The selection lists bookings that compare equal in the order in which
      they are stored: the sort is stable. */
  ghost predicate TiesInStoredOrder(v: View, lower: string -> string) {
    TiesInOrderOf(v.filtered, Select(v.bookings, v.query, lower), Le(v.sortField, v.sortDirection, lower))
  }

  lemma {:induction false} InitialConsistent(lower: string -> string)
    ensures Consistent(Initial(), lower)
  {
  }

  /** `updatePagination`: recount the pages, clamp the current page into
      [1, totalPages] (1 when there are no pages) and cut out its slice. */
  function UpdatePagination(v: View): (r: View)
    ensures PageConsistent(r)
    ensures r.totalPages == 0 ==> r.currentPage == 1 && r.paginated == []
    ensures 1 <= v.currentPage <= r.totalPages ==> r.currentPage == v.currentPage
    ensures v.currentPage < 1 ==> r.currentPage == 1
    ensures 1 <= r.totalPages < v.currentPage ==> r.currentPage == r.totalPages
    ensures r.filtered == v.filtered && r.bookings == v.bookings && r.query == v.query
    ensures r.sortField == v.sortField && r.sortDirection == v.sortDirection
  {
    var total := CeilDiv(|v.filtered|, ItemsPerPage);
    var clamped := Min(v.currentPage, total);
    var page := if clamped < 1 then 1 else clamped;
    var start := (page - 1) * ItemsPerPage;
    assert start <= |v.filtered| by {
      if total >= 1 {
        assert (page - 1) * ItemsPerPage <= (total - 1) * ItemsPerPage;
      }
    }
    v.(totalPages := total, currentPage := page, paginated := JsSlice(v.filtered, start, start + ItemsPerPage))
  }

  /** Twenty-three bookings make three pages: page 5 is pulled back to the
      last page and page 0 up to the first. */
  lemma {:induction false} ClampExample(v: View)
    requires |v.filtered| == 23
    ensures UpdatePagination(v.(currentPage := 5)).totalPages == 3
    ensures UpdatePagination(v.(currentPage := 5)).currentPage == 3
    ensures UpdatePagination(v.(currentPage := 5)).paginated == v.filtered[20..23]
    ensures UpdatePagination(v.(currentPage := 0)).currentPage == 1
  {
    assert CeilDiv(23, ItemsPerPage) == 3;
  }

  /** `sortBookings`: the stable sort of the selection by the current field
      and direction. Records whose field is undefined go last when ascending
      and first when descending. */
  function SortBookings(v: View, lower: string -> string): (r: View)
    ensures multiset(r.filtered) == multiset(v.filtered)
    ensures SortedBy(r.filtered, Le(v.sortField, v.sortDirection, lower))
    ensures TiesInOrderOf(r.filtered, v.filtered, Le(v.sortField, v.sortDirection, lower))
    ensures v.sortDirection == Asc ==>
      forall i, j :: 0 <= i < j < |r.filtered| && KeyOf(r.filtered[i], v.sortField, lower).Missing? ==>
        KeyOf(r.filtered[j], v.sortField, lower).Missing?
    ensures v.sortDirection == Desc ==>
      forall i, j :: 0 <= i < j < |r.filtered| && KeyOf(r.filtered[j], v.sortField, lower).Missing? ==>
        KeyOf(r.filtered[i], v.sortField, lower).Missing?
    ensures r == v.(filtered := r.filtered)
  {
    var le := Le(v.sortField, v.sortDirection, lower);
    var sorted := Sort(v.filtered, le);
    assert SortedBy(sorted, le) && TiesInOrderOf(sorted, v.filtered, le) by {
      LeIsTotalPreorder(v.sortField, v.sortDirection, lower);
      SortSorted(v.filtered, le);
      SortKeepsTies(v.filtered, le);
    }
    v.(filtered := sorted)
  }

  /** `filterBookings`: re-run the whole pipeline on the current bookings and
      query. The result is consistent from any state, the selection keeps
      bookings that compare equal in their stored order, and a current page
      that still exists is kept. */
  function FilterBookings(v: View, lower: string -> string): (r: View)
    ensures Consistent(r, lower) && TiesInStoredOrder(r, lower)
    ensures 1 <= v.currentPage <= r.totalPages ==> r.currentPage == v.currentPage
    ensures 1 <= r.totalPages < v.currentPage ==> r.currentPage == r.totalPages
    ensures r.bookings == v.bookings && r.query == v.query
    ensures r.sortField == v.sortField && r.sortDirection == v.sortDirection
  {
    var selected := Select(v.bookings, v.query, lower);
    var sorted := SortBookings(v.(filtered := selected), lower);
    UpdatePagination(sorted)
  }

  /** `sortBy`: the same field flips the direction, a new field sorts
      ascending; the selection is re-sorted and re-paged. */
  function SortBy(v: View, field: string, lower: string -> string): (r: View)
    ensures r.sortField == field
    ensures r.sortDirection == if field == v.sortField then Flip(v.sortDirection) else Asc
    ensures multiset(r.filtered) == multiset(v.filtered)
    ensures TiesInOrderOf(r.filtered, v.filtered, Le(r.sortField, r.sortDirection, lower))
    ensures Consistent(v, lower) ==> Consistent(r, lower) && r.currentPage == v.currentPage
    ensures r.bookings == v.bookings && r.query == v.query
  {
    var next :=
      if v.sortField == field then v.(sortDirection := if v.sortDirection == Asc then Desc else Asc)
      else v.(sortField := field, sortDirection := Asc);
    UpdatePagination(SortBookings(next, lower))
  }

  /** `goToPage`: a page outside [1, totalPages] is ignored. */
  function GoToPage(v: View, page: int): (r: View)
    ensures !(1 <= page <= v.totalPages) ==> r == v
    ensures 1 <= page <= v.totalPages && PageConsistent(v) ==> r.currentPage == page && r.filtered == v.filtered
    ensures PageConsistent(v) ==> PageConsistent(r)
    ensures r.bookings == v.bookings && r.query == v.query
    ensures r.sortField == v.sortField && r.sortDirection == v.sortDirection
  {
    if 1 <= page <= v.totalPages then UpdatePagination(v.(currentPage := page)) else v
  }

  /** `getPaginationPages`: the existing pages at most two away from the
      current one, ascending. */
  function PaginationPages(v: View): (r: seq<int>)
    ensures |r| <= 5
    ensures forall i :: 0 < i < |r| ==> r[i] == r[i - 1] + 1
    ensures forall p :: p in r <==> 1 <= p <= v.totalPages && v.currentPage - 2 <= p <= v.currentPage + 2
    ensures v.totalPages <= 0 ==> r == []
    ensures 1 <= v.currentPage <= v.totalPages ==> v.currentPage in r
  {
    var r := Range(Max(1, v.currentPage - 2), Min(v.totalPages, v.currentPage + 2));
    assert forall p :: p in r <==> Max(1, v.currentPage - 2) <= p <= Min(v.totalPages, v.currentPage + 2) by {
      forall p
        ensures p in r <==> Max(1, v.currentPage - 2) <= p <= Min(v.totalPages, v.currentPage + 2)
      {
        if Max(1, v.currentPage - 2) <= p <= Min(v.totalPages, v.currentPage + 2) {
          assert r[p - Max(1, v.currentPage - 2)] == p;
        }
      }
    }
    r
  }

  // ---------------------------------------------------------------- statistics

  /** The number of selected bookings, all pages together. */
  function TotalBookings(v: View): (n: nat)
    ensures PageConsistent(v) ==> |v.paginated| <= n <= v.totalPages * ItemsPerPage
  {
    |v.filtered|
  }

  /** Sum of the amounts of the paid bookings in the selection. */
  function TotalRevenue(v: View): (r: int)
    ensures (forall b :: b in v.filtered ==> b.amount >= 0) ==>
      0 <= r <= SumOf(v.filtered, (b: Booking) => b.amount)
  {
    var paid := Filter(v.filtered, (b: Booking) => b.paymentStatus == Paid);
    assert (forall b :: b in v.filtered ==> b.amount >= 0) ==>
      0 <= SumOf(paid, (b: Booking) => b.amount) <= SumOf(v.filtered, (b: Booking) => b.amount) by {
      if forall b :: b in v.filtered ==> b.amount >= 0 {
        SumOfFilterBounded(v.filtered, (b: Booking) => b.paymentStatus == Paid, (b: Booking) => b.amount);
      }
    }
    SumOf(paid, (b: Booking) => b.amount)
  }

  function PendingBookings(v: View): (n: nat)
    ensures n == Count(v.filtered, (b: Booking) => b.status == Pending)
    ensures n <= |v.filtered|
  {
    |Filter(v.filtered, (b: Booking) => b.status == Pending)|
  }

  function CompletedBookings(v: View): (n: nat)
    ensures n == Count(v.filtered, (b: Booking) => b.status == Completed)
    ensures n <= |v.filtered|
  {
    |Filter(v.filtered, (b: Booking) => b.status == Completed)|
  }

  /** The statistics of a consistent view are those of the bookings that pass
      the query, whatever their order and whichever page is shown, and the
      pending and completed counts together do not exceed the total. */
  lemma {:induction false} StatisticsOfSelection(v: View, lower: string -> string)
    requires Consistent(v, lower)
    ensures TotalBookings(v) == Count(v.bookings, b => Matches(b, v.query, lower))
    ensures TotalRevenue(v) ==
      SumOf(Filter(Select(v.bookings, v.query, lower), (b: Booking) => b.paymentStatus == Paid), (b: Booking) => b.amount)
    ensures PendingBookings(v) == Count(Select(v.bookings, v.query, lower), (b: Booking) => b.status == Pending)
    ensures CompletedBookings(v) == Count(Select(v.bookings, v.query, lower), (b: Booking) => b.status == Completed)
    ensures PendingBookings(v) + CompletedBookings(v) <= TotalBookings(v)
  {
    var selected := Select(v.bookings, v.query, lower);
    var isPaid := (b: Booking) => b.paymentStatus == Paid;
    var isPending := (b: Booking) => b.status == Pending;
    var isCompleted := (b: Booking) => b.status == Completed;
    assert |multiset(v.filtered)| == |multiset(selected)|;
    FilterPermutation(v.filtered, selected, isPaid);
    SumOfPermutation(Filter(v.filtered, isPaid), Filter(selected, isPaid), (b: Booking) => b.amount);
    FilterPermutation(v.filtered, selected, isPending);
    assert |multiset(Filter(v.filtered, isPending))| == |multiset(Filter(selected, isPending))|;
    FilterPermutation(v.filtered, selected, isCompleted);
    assert |multiset(Filter(v.filtered, isCompleted))| == |multiset(Filter(selected, isCompleted))|;
    CountExclusive(v.filtered, isPending, isCompleted);
  }

  // ---------------------------------------------------------------- editing

  /** Position of the first booking with the identifier, or |s| if none. */
  function FirstWithId(s: seq<Booking>, id: string): (k: nat)
    ensures k <= |s|
    ensures forall i :: 0 <= i < k ==> s[i].id != id
    ensures k < |s| ==> s[k].id == id
  {
    if |s| == 0 then 0 else if s[0].id == id then 0 else 1 + FirstWithId(s[1..], id)
  }

  /** The booking `FirstWithId` finds is the only one whose identifier is
      the given one with no earlier booking carrying it. */
  lemma {:induction false} FirstTakesStatus(s: seq<Booking>, id: string, status: Status)
    requires FirstWithId(s, id) < |s|
    ensures var k := FirstWithId(s, id);
      forall i :: 0 <= i < |s| ==>
        s[k := s[k].(status := status)][i] ==
          if s[i].id == id && forall j :: 0 <= j < i ==> s[j].id != id
          then s[i].(status := status)
          else s[i]
  {
    var k := FirstWithId(s, id);
    forall i | 0 <= i < |s|
      ensures (s[i].id == id && forall j :: 0 <= j < i ==> s[j].id != id) <==> i == k
    {
      if i > k {
        assert s[k].id == id;
      }
    }
  }

  /** `updateBookingStatus`: only the first booking carrying the identifier
      takes the new status, and the pipeline re-runs; with no such booking the
      view is untouched. */
  function UpdateBookingStatus(v: View, id: string, status: Status, lower: string -> string): (r: View)
    ensures (forall b :: b in v.bookings ==> b.id != id) ==> r == v
    ensures (exists b :: b in v.bookings && b.id == id) ==>
      && Consistent(r, lower) && TiesInStoredOrder(r, lower)
      && (1 <= r.totalPages < v.currentPage ==> r.currentPage == r.totalPages)
    ensures 1 <= v.currentPage <= r.totalPages ==> r.currentPage == v.currentPage
    ensures |r.bookings| == |v.bookings|
    ensures forall i :: 0 <= i < |v.bookings| ==>
      r.bookings[i] ==
        if v.bookings[i].id == id && forall j :: 0 <= j < i ==> v.bookings[j].id != id
        then v.bookings[i].(status := status)
        else v.bookings[i]
    ensures r.query == v.query && r.sortField == v.sortField && r.sortDirection == v.sortDirection
  {
    var k := FirstWithId(v.bookings, id);
    if k == |v.bookings| then
      assert forall b :: b in v.bookings ==> b.id != id;
      v
    else
      var updated := v.bookings[k := v.bookings[k].(status := status)];
      FirstTakesStatus(v.bookings, id, status);
      var r := FilterBookings(v.(bookings := updated), lower);
      assert r.bookings == updated;
      r
  }

  /** Dropping the bookings with an identifier keeps every other booking, as
      often and in the order it occurs. */
  lemma {:induction false} RemovesId(s: seq<Booking>, id: string)
    ensures Subsequence(Filter(s, (b: Booking) => b.id != id), s)
    ensures forall b :: multiset(Filter(s, (b: Booking) => b.id != id))[b] == if b.id != id then multiset(s)[b] else 0
    ensures forall b :: b in Filter(s, (b: Booking) => b.id != id) ==> b.id != id
  {
  }

  /** `deleteBooking`: once confirmed, every booking with the identifier goes,
      the others stay in their order, and the pipeline re-runs; declined, the
      view is untouched. */
  function DeleteBooking(v: View, id: string, confirmed: bool, lower: string -> string): (r: View)
    ensures !confirmed ==> r == v
    ensures confirmed ==>
      && Subsequence(r.bookings, v.bookings)
      && (forall b :: multiset(r.bookings)[b] == if b.id != id then multiset(v.bookings)[b] else 0)
      && (forall b :: b in r.bookings ==> b.id != id)
      && Consistent(r, lower) && TiesInStoredOrder(r, lower)
      && (1 <= v.currentPage <= r.totalPages ==> r.currentPage == v.currentPage)
      && (1 <= r.totalPages < v.currentPage ==> r.currentPage == r.totalPages)
    ensures r.query == v.query && r.sortField == v.sortField && r.sortDirection == v.sortDirection
  {
    if confirmed then
      var kept := Filter(v.bookings, (b: Booking) => b.id != id);
      RemovesId(v.bookings, id);
      var r := FilterBookings(v.(bookings := kept), lower);
      assert r.bookings == kept;
      r
    else v
  }

  // ---------------------------------------------------------------- loading

  /** The data handler of `fetchBookings`: each received booking is
      normalised (with the current instant for missing dates) and the pipeline
      re-runs. A failed fetch is only logged. */
  function FetchBookings(v: View, response: Response<seq<ApiBooking>>, now: int, lower: string -> string): (r: View)
    ensures response.Failed? ==> r == v
    ensures response.Received? ==>
      && |r.bookings| == |response.data|
      && (forall i :: 0 <= i < |r.bookings| ==> r.bookings[i] == Normalize(response.data[i], now))
      && Consistent(r, lower) && TiesInStoredOrder(r, lower)
      && (1 <= v.currentPage <= r.totalPages ==> r.currentPage == v.currentPage)
      && (1 <= r.totalPages < v.currentPage ==> r.currentPage == r.totalPages)
      && r.query == v.query && r.sortField == v.sortField && r.sortDirection == v.sortDirection
  {
    match response
    case Failed(_) => v
    case Received(data) =>
      var loaded := seq(|data|, i requires 0 <= i < |data| => Normalize(data[i], now));
      assert |loaded| == |data| && forall i :: 0 <= i < |loaded| ==> loaded[i] == Normalize(data[i], now);
      var r := FilterBookings(v.(bookings := loaded), lower);
      assert r.bookings == loaded;
      r
  }

  // ---------------------------------------------------------------- export

  /** The text `exportToCSV` downloads: the header, then one line per booking
      of the sorted selection. */
  function ExportCsv(v: View, formatDate: int -> string): (r: string)
    ensures |v.filtered| == 0 ==> r == CsvHeader
    ensures |v.filtered| > 0 ==> |r| > |CsvHeader| && r[..|CsvHeader| + 1] == CsvHeader + "\n"
  {
    JoinLines([CsvHeader] + seq(|v.filtered|, i requires 0 <= i < |v.filtered| => CsvLine(v.filtered[i], formatDate)))
  }

  /** When no value holds a line break, the export splits into the header
      and exactly one line per selected booking, in the selection's order,
      even where quotes or commas inside values garble those lines. */
  lemma {:induction false} ExportLines(v: View, formatDate: int -> string)
    requires forall b :: b in v.filtered ==> LineFree(b, formatDate)
    ensures SplitLines(ExportCsv(v, formatDate)) ==
      [CsvHeader] + seq(|v.filtered|, i requires 0 <= i < |v.filtered| => CsvLine(v.filtered[i], formatDate))
  {
    var rows := seq(|v.filtered|, i requires 0 <= i < |v.filtered| => CsvLine(v.filtered[i], formatDate));
    forall i | 0 <= i < |v.filtered|
      ensures '\n' !in rows[i]
    {
      CsvLineLineFree(v.filtered[i], formatDate);
    }
    HeaderLineFree();
    HeaderThenRows(CsvHeader, rows);
  }

  /** When no value breaks the format, the export splits into the header and
      exactly one line per selected booking, and each line reads back as that
      booking's values. */
  lemma {:induction false} ExportReadsBack(v: View, formatDate: int -> string)
    requires forall b :: b in v.filtered ==> Exportable(b, formatDate)
    ensures |SplitLines(ExportCsv(v, formatDate))| == |v.filtered| + 1
    ensures SplitLines(ExportCsv(v, formatDate))[0] == CsvHeader
    ensures forall i :: 0 <= i < |v.filtered| ==>
      var b := v.filtered[i];
      ParseRow(SplitLines(ExportCsv(v, formatDate))[i + 1]) ==
        [b.id, b.customerName, b.customerEmail, formatDate(b.appointmentDate),
         StatusName(b.status), IntToString(b.amount), PaymentName(b.paymentStatus)]
  {
    var rows := seq(|v.filtered|, i requires 0 <= i < |v.filtered| => CsvLine(v.filtered[i], formatDate));
    forall i | 0 <= i < |v.filtered|
      ensures '\n' !in rows[i]
      ensures ParseRow(rows[i]) ==
        [v.filtered[i].id, v.filtered[i].customerName, v.filtered[i].customerEmail,
         formatDate(v.filtered[i].appointmentDate), StatusName(v.filtered[i].status),
         IntToString(v.filtered[i].amount), PaymentName(v.filtered[i].paymentStatus)]
    {
      CsvRowReadsBack(v.filtered[i], formatDate);
    }
    HeaderLineFree();
    HeaderThenRows(CsvHeader, rows);
  }
}
