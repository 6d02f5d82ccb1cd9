/**
  The booking records of the booking history view: the canonical record, the
  two status-code tables that normalise what the bookings API sends, the four
  search predicates, the sort keys with their comparator, and the CSV row of a
  booking.
 */
module BookingRecords {

  import opened Seqs
  import opened Text
  import opened Sorting
  import opened Csv

  datatype Status = Confirmed | Pending | Cancelled | Completed

  datatype PaymentStatus = Paid | PaymentPending | Refunded

  /** The string a status is stored as in the view. */
  function StatusName(s: Status): string {
    match s
    case Confirmed => "confirmed"
    case Pending => "pending"
    case Cancelled => "cancelled"
    case Completed => "completed"
  }

  function PaymentName(p: PaymentStatus): string {
    match p
    case Paid => "paid"
    case PaymentPending => "pending"
    case Refunded => "refunded"
  }

  /** A status code as the API delivers it: a string or a number. */
  datatype Code = CodeText(text: string) | CodeNumber(number: int)

  /** The `status` table: 1 completed, 2 pending, 3 confirmed, 4 cancelled,
      anything else pending. */
  function StatusOf(code: Code): (r: Status)
    ensures forall s :: code == CodeNumber(StatusNumber(s)) ==> r == s
    ensures forall s :: code == CodeText(IntToString(StatusNumber(s))) ==> r == s
    ensures r == Pending || code == CodeNumber(StatusNumber(r)) || code == CodeText(IntToString(StatusNumber(r)))
  {
    SmallCodes();
    match code
    case CodeText(t) =>
      if t == "1" then Completed
      else if t == "2" then Pending
      else if t == "3" then Confirmed
      else if t == "4" then Cancelled
      else Pending
    case CodeNumber(n) =>
      if n == 1 then Completed
      else if n == 2 then Pending
      else if n == 3 then Confirmed
      else if n == 4 then Cancelled
      else Pending
  }

  /** The `mapPaymentStatus` table: 1 paid, 2 pending, 3 refunded, anything
      else pending. */
  function PaymentOf(code: Code): (r: PaymentStatus)
    ensures forall p :: code == CodeNumber(PaymentNumber(p)) ==> r == p
    ensures forall p :: code == CodeText(IntToString(PaymentNumber(p))) ==> r == p
    ensures r == PaymentPending || code == CodeNumber(PaymentNumber(r)) || code == CodeText(IntToString(PaymentNumber(r)))
  {
    SmallCodes();
    match code
    case CodeText(t) =>
      if t == "1" then Paid
      else if t == "2" then PaymentPending
      else if t == "3" then Refunded
      else PaymentPending
    case CodeNumber(n) =>
      if n == 1 then Paid
      else if n == 2 then PaymentPending
      else if n == 3 then Refunded
      else PaymentPending
  }

  /** The decimal strings of the four codes. */
  lemma {:induction false} SmallCodes()
    ensures IntToString(1) == "1" && IntToString(2) == "2"
    ensures IntToString(3) == "3" && IntToString(4) == "4"
  {
    assert "1" == [DigitChar(1)] && "2" == [DigitChar(2)];
    assert "3" == [DigitChar(3)] && "4" == [DigitChar(4)];
  }

  /** The number the API uses for each status. */
  function StatusNumber(s: Status): int {
    match s
    case Completed => 1
    case Pending => 2
    case Confirmed => 3
    case Cancelled => 4
  }

  function PaymentNumber(p: PaymentStatus): int {
    match p
    case Paid => 1
    case PaymentPending => 2
    case Refunded => 3
  }

  /** A number and its decimal string select the same status. */
  lemma {:induction false} StatusCodesAgree(n: int)
    ensures StatusOf(CodeNumber(n)) == StatusOf(CodeText(IntToString(n)))
  {
    assert "1" == [DigitChar(1)] && "2" == [DigitChar(2)];
    assert "3" == [DigitChar(3)] && "4" == [DigitChar(4)];
    IntToStringSingleDigit(n, 1);
    IntToStringSingleDigit(n, 2);
    IntToStringSingleDigit(n, 3);
    IntToStringSingleDigit(n, 4);
  }

  lemma {:induction false} PaymentCodesAgree(n: int)
    ensures PaymentOf(CodeNumber(n)) == PaymentOf(CodeText(IntToString(n)))
  {
    assert "1" == [DigitChar(1)] && "2" == [DigitChar(2)] && "3" == [DigitChar(3)];
    IntToStringSingleDigit(n, 1);
    IntToStringSingleDigit(n, 2);
    IntToStringSingleDigit(n, 3);
  }

  /** Every status is reached from its number, in both spellings; every
      number outside 1..4 and every other string falls back to pending. */
  lemma {:induction false} StatusTable(s: Status, n: int, t: string)
    ensures StatusOf(CodeNumber(StatusNumber(s))) == s
    ensures StatusOf(CodeText(IntToString(StatusNumber(s)))) == s
    ensures (n < 1 || n > 4) ==> StatusOf(CodeNumber(n)) == Pending
    ensures t != "1" && t != "2" && t != "3" && t != "4" ==> StatusOf(CodeText(t)) == Pending
  {
    StatusCodesAgree(StatusNumber(s));
  }

  lemma {:induction false} PaymentTable(p: PaymentStatus, n: int, t: string)
    ensures PaymentOf(CodeNumber(PaymentNumber(p))) == p
    ensures PaymentOf(CodeText(IntToString(PaymentNumber(p)))) == p
    ensures (n < 1 || n > 3) ==> PaymentOf(CodeNumber(n)) == PaymentPending
    ensures t != "1" && t != "2" && t != "3" ==> PaymentOf(CodeText(t)) == PaymentPending
  {
    PaymentCodesAgree(PaymentNumber(p));
  }

  /** A booking in the view. Dates are instants; amounts are whole units. */
  datatype Booking = Booking(
    id: string,
    customerName: string,
    customerEmail: string,
    bookingDate: Option<int>,
    appointmentDate: int,
    status: Status,
    amount: int,
    paymentStatus: PaymentStatus,
    notes: Option<string>)

  /** A booking as the bookings API sends it; `appointmentDate` is None when
      the API sends null or an empty string. */
  datatype ApiBooking = ApiBooking(
    id: int,
    customerName: string,
    customerEmail: string,
    status: Code,
    amount: int,
    paymentStatus: Code,
    appointmentDate: Option<int>)

  /** The mapping applied to each fetched booking; `now` is the current
      instant the browser would read. */
  function Normalize(raw: ApiBooking, now: int): (b: Booking)
    ensures raw.id >= 0 ==> ParseDigits(b.id) == raw.id
    ensures b.customerName == raw.customerName && b.customerEmail == raw.customerEmail && b.amount == raw.amount
    ensures b.bookingDate == Some(now) && b.notes == Some("")
    ensures b.appointmentDate == if raw.appointmentDate.Some? then raw.appointmentDate.value else now
    ensures StatusOf(CodeNumber(StatusNumber(b.status))) == StatusOf(raw.status)
    ensures PaymentOf(CodeNumber(PaymentNumber(b.paymentStatus))) == PaymentOf(raw.paymentStatus)
  {
    assert raw.id >= 0 ==> ParseDigits(IntToString(raw.id)) == raw.id by {
      if raw.id >= 0 {
        ParseDigitsOfNatToString(raw.id);
      }
    }
    StatusTable(StatusOf(raw.status), 0, "");
    PaymentTable(PaymentOf(raw.paymentStatus), 0, "");
    Booking(
      IntToString(raw.id),
      raw.customerName,
      raw.customerEmail,
      Some(now),
      match raw.appointmentDate case Some(t) => t case None => now,
      StatusOf(raw.status),
      raw.amount,
      PaymentOf(raw.paymentStatus),
      Some(""))
  }

  // ---------------------------------------------------------------- search

  /** The search fields of the view; `dateTo` is kept but never consulted. */
  datatype Query = Query(
    searchTerm: string,
    statusFilter: string,
    paymentFilter: string,
    dateFrom: Option<int>,
    dateTo: Option<int>)

  predicate MatchesSearch(b: Booking, term: string, lower: string -> string) {
    term == "" ||
    Includes(lower(b.customerName), lower(term)) ||
    Includes(lower(b.customerEmail), lower(term))
  }

  predicate MatchesStatus(b: Booking, statusFilter: string) {
    statusFilter == "" || StatusName(b.status) == statusFilter
  }

  predicate MatchesPayment(b: Booking, paymentFilter: string) {
    paymentFilter == "" || PaymentName(b.paymentStatus) == paymentFilter
  }

  predicate MatchesDate(b: Booking, dateFrom: Option<int>) {
    dateFrom.None? || b.appointmentDate >= dateFrom.value
  }

  predicate Matches(b: Booking, q: Query, lower: string -> string) {
    && MatchesSearch(b, q.searchTerm, lower)
    && MatchesStatus(b, q.statusFilter)
    && MatchesPayment(b, q.paymentFilter)
    && MatchesDate(b, q.dateFrom)
  }

  /** The `bookings.filter(...)` step: the subsequence of the bookings that
      pass all four tests, each kept as often as it occurs. */
  function Select(bookings: seq<Booking>, q: Query, lower: string -> string): (r: seq<Booking>)
    ensures Subsequence(r, bookings)
    ensures forall b :: b in r <==>
      && b in bookings
      && MatchesSearch(b, q.searchTerm, lower)
      && MatchesStatus(b, q.statusFilter)
      && MatchesPayment(b, q.paymentFilter)
      && MatchesDate(b, q.dateFrom)
    ensures forall b :: multiset(r)[b] == if Matches(b, q, lower) then multiset(bookings)[b] else 0
  {
    Filter(bookings, b => Matches(b, q, lower))
  }

  /** Cleared search fields place no constraint. */
  lemma {:induction false} EmptyQuerySelectsAll(bookings: seq<Booking>, q: Query, lower: string -> string)
    requires q.searchTerm == "" && q.statusFilter == "" && q.paymentFilter == ""
    requires q.dateFrom.None?
    ensures Select(bookings, q, lower) == bookings
  {
    FilterAll(bookings, b => Matches(b, q, lower));
  }

  // ---------------------------------------------------------------- sorting

  /** The value `record[field]` reads once dates become instants and strings
      are lower-cased; `Missing` is `undefined`. */
  datatype Key = Missing | Num(n: int) | Str(s: string)

  function KeyOf(b: Booking, field: string, lower: string -> string): Key {
    if field == "id" then Str(lower(b.id))
    else if field == "customerName" then Str(lower(b.customerName))
    else if field == "customerEmail" then Str(lower(b.customerEmail))
    else if field == "bookingDate" then (if b.bookingDate.Some? then Num(b.bookingDate.value) else Missing)
    else if field == "appointmentDate" then Num(b.appointmentDate)
    else if field == "status" then Str(lower(StatusName(b.status)))
    else if field == "amount" then Num(b.amount)
    else if field == "paymentStatus" then Str(lower(PaymentName(b.paymentStatus)))
    else if field == "notes" then (if b.notes.Some? then Str(lower(b.notes.value)) else Missing)
    else Missing
  }

  /** Neither key is a number while the other is a string. */
  predicate SameKind(x: Key, y: Key) {
    !(x.Num? && y.Str?) && !(x.Str? && y.Num?)
  }

  /** Every field holds values of one kind, so the comparator never has to
      compare a number with a string. */
  lemma {:induction false} KeysOfOneKind(a: Booking, b: Booking, field: string, lower: string -> string)
    ensures SameKind(KeyOf(a, field, lower), KeyOf(b, field, lower))
  {
  }

  /** JavaScript's `<` on two defined keys of the same kind. */
  predicate KeyLess(x: Key, y: Key) {
    match (x, y)
    case (Num(m), Num(n)) => m < n
    case (Str(s), Str(t)) => LexLess(s, t)
    case _ => false
  }

  /** The comparator body: undefined after everything in ascending order and
      before everything in descending order. */
  function CompareKeys(x: Key, y: Key, dir: Direction): int {
    if x.Missing? && y.Missing? then 0
    else if x.Missing? then (if dir == Asc then 1 else -1)
    else if y.Missing? then (if dir == Asc then -1 else 1)
    else if KeyLess(x, y) then (if dir == Asc then -1 else 1)
    else if KeyLess(y, x) then (if dir == Asc then 1 else -1)
    else 0
  }

  /** The comparator `sortBookings` passes to `sort`. */
  function Compare(a: Booking, b: Booking, field: string, dir: Direction, lower: string -> string): int {
    CompareKeys(KeyOf(a, field, lower), KeyOf(b, field, lower), dir)
  }

  /** "a may stay before b": the comparator does not return a positive number. */
  function Le(field: string, dir: Direction, lower: string -> string): (Booking, Booking) -> bool {
    (a: Booking, b: Booking) => Compare(a, b, field, dir, lower) <= 0
  }

  lemma {:induction false} KeyLessAsymmetric(x: Key, y: Key)
    requires KeyLess(x, y)
    ensures !KeyLess(y, x)
  {
    if x.Str? {
      LexLessAsymmetric(x.s, y.s);
    }
  }

  /** Descending order compares the swapped pair in ascending order. */
  lemma {:induction false} CompareKeysMirror(x: Key, y: Key)
    ensures CompareKeys(x, y, Desc) == CompareKeys(y, x, Asc)
  {
    if KeyLess(x, y) {
      KeyLessAsymmetric(x, y);
    }
  }

  lemma {:induction false} CompareMirror(a: Booking, b: Booking, field: string, lower: string -> string)
    ensures Compare(a, b, field, Desc, lower) == Compare(b, a, field, Asc, lower)
  {
    CompareKeysMirror(KeyOf(a, field, lower), KeyOf(b, field, lower));
  }

  /** Of two keys of one kind, one is not after the other in ascending order. */
  lemma {:induction false} CompareKeysTotal(x: Key, y: Key)
    requires SameKind(x, y)
    ensures CompareKeys(x, y, Asc) <= 0 || CompareKeys(y, x, Asc) <= 0
  {
    if x.Str? && y.Str? {
      LexLessTotal(x.s, y.s);
      if LexLess(x.s, y.s) {
        LexLessAsymmetric(x.s, y.s);
      }
    }
  }

  lemma {:induction false} CompareKeysTransitive(x: Key, y: Key, z: Key)
    requires SameKind(x, y) && SameKind(y, z) && SameKind(x, z)
    requires CompareKeys(x, y, Asc) <= 0 && CompareKeys(y, z, Asc) <= 0
    ensures CompareKeys(x, z, Asc) <= 0
  {
    if x.Str? && y.Str? && z.Str? {
      if LexLess(x.s, y.s) {
        LexLessAsymmetric(x.s, y.s);
      }
      if LexLess(y.s, z.s) {
        LexLessAsymmetric(y.s, z.s);
      }
      assert !LexLess(y.s, x.s) && !LexLess(z.s, y.s);
      LexLessTotal(x.s, y.s);
      if LexLess(z.s, x.s) {
        if x.s == y.s {
          assert false;
        } else {
          LexLessTransitive(z.s, x.s, y.s);
        }
      }
      assert !KeyLess(z, x);
    }
  }

  /** The booking comparator, in either direction and on any field, is a
      total preorder, so the stable sort by it is well defined. */
  lemma {:induction false} LeIsTotalPreorder(field: string, dir: Direction, lower: string -> string)
    ensures TotalPreorder(Le(field, dir, lower))
  {
    var le := Le(field, dir, lower);
    forall a, b
      ensures le(a, b) || le(b, a)
    {
      var ka, kb := KeyOf(a, field, lower), KeyOf(b, field, lower);
      CompareKeysTotal(ka, kb);
      CompareKeysMirror(ka, kb);
      CompareKeysMirror(kb, ka);
    }
    forall a, b, c | le(a, b) && le(b, c)
      ensures le(a, c)
    {
      var ka, kb, kc := KeyOf(a, field, lower), KeyOf(b, field, lower), KeyOf(c, field, lower);
      CompareKeysMirror(ka, kb);
      CompareKeysMirror(kb, kc);
      CompareKeysMirror(ka, kc);
      if dir == Asc {
        CompareKeysTransitive(ka, kb, kc);
      } else {
        CompareKeysTransitive(kc, kb, ka);
      }
    }
  }

  /** Without ties among the given bookings, the descending sort is exactly
      the ascending sort reversed (records with an undefined field included). */
  lemma {:induction false} DescendingMirrorsAscending(s: seq<Booking>, field: string, lower: string -> string)
    requires forall a, b | a in s && b in s :: Compare(a, b, field, Asc, lower) == 0 ==> a == b
    ensures Sort(s, Le(field, Desc, lower)) == Reverse(Sort(s, Le(field, Asc, lower)))
  {
    var le, ge := Le(field, Asc, lower), Le(field, Desc, lower);
    LeIsTotalPreorder(field, Asc, lower);
    forall a, b
      ensures ge(a, b) == le(b, a)
    {
      CompareMirror(a, b, field, lower);
    }
    forall x, y | x in s && y in s && le(x, y) && le(y, x)
      ensures x == y
    {
      CompareMirror(x, y, field, lower);
    }
    SortMirror(s, le, ge);
  }

  // ---------------------------------------------------------------- export

  /** The column labels, joined by commas into the first line. */
  const CsvLabels: seq<Cell> := [
    Plain("ID"), Plain("Customer Name"), Plain("Email"), Plain("Appointment Date"),
    Plain("Status"), Plain("Amount"), Plain("Payment Status")]

  const CsvHeader: string := EncodeRow(CsvLabels)

  lemma {:induction false} HeaderLineFree()
    ensures '\n' !in CsvHeader
  {
    var labels := CsvLabels;
    assert '\n' !in "ID" && '\n' !in "Customer Name" && '\n' !in "Email";
    assert '\n' !in "Appointment Date" && '\n' !in "Status";
    assert '\n' !in "Amount" && '\n' !in "Payment Status";
    EncodeRowLineFree(labels);
  }

  /** The values of one exported line, in column order. */
  function CsvValues(b: Booking, formatDate: int -> string): seq<string> {
    [b.id, b.customerName, b.customerEmail, formatDate(b.appointmentDate),
     StatusName(b.status), IntToString(b.amount), PaymentName(b.paymentStatus)]
  }

  /** Only the customer name is written in quotes. */
  const CsvQuoting: seq<bool> := [false, true, false, false, false, false, false]

  /** One exported line. */
  function CsvLine(b: Booking, formatDate: int -> string): string {
    EncodeRow(Cells(CsvValues(b, formatDate), CsvQuoting))
  }

  /** No value written for the booking holds a line break. */
  predicate LineFree(b: Booking, formatDate: int -> string) {
    && '\n' !in b.id && '\n' !in b.customerName && '\n' !in b.customerEmail
    && '\n' !in formatDate(b.appointmentDate)
  }

  /** A booking whose values hold no line break is written on one line,
      whatever quotes or commas its values hold. */
  lemma {:induction false} CsvLineLineFree(b: Booking, formatDate: int -> string)
    requires LineFree(b, formatDate)
    ensures '\n' !in CsvLine(b, formatDate)
  {
    var cells := Cells(CsvValues(b, formatDate), CsvQuoting);
    NamesReadable(b);
    IntToStringReadable(b.amount);
    assert forall i :: 0 <= i < |cells| ==> '\n' !in cells[i].text;
    EncodeRowLineFree(cells);
  }

  /** The booking values whose line reads back: the quoted name holds no
      quote, the other written values hold no comma and none opens with a
      quote, and no value holds a line break. */
  predicate Exportable(b: Booking, formatDate: int -> string) {
    && Readable(Quoted(b.customerName))
    && Readable(Plain(b.id))
    && Readable(Plain(b.customerEmail))
    && Readable(Plain(formatDate(b.appointmentDate)))
  }

  lemma {:induction false} NamesReadable(b: Booking)
    ensures Readable(Plain(StatusName(b.status)))
    ensures Readable(Plain(PaymentName(b.paymentStatus)))
  {
    match b.status {
      case Confirmed => assert Readable(Plain("confirmed"));
      case Pending => assert Readable(Plain("pending"));
      case Cancelled => assert Readable(Plain("cancelled"));
      case Completed => assert Readable(Plain("completed"));
    }
    match b.paymentStatus {
      case Paid => assert Readable(Plain("paid"));
      case PaymentPending => assert Readable(Plain("pending"));
      case Refunded => assert Readable(Plain("refunded"));
    }
  }

  /** The exported line of an exportable booking parses back into its id,
      name, email, formatted date, status, amount and payment status. */
  lemma {:induction false} CsvRowReadsBack(b: Booking, formatDate: int -> string)
    requires Exportable(b, formatDate)
    ensures ParseRow(CsvLine(b, formatDate)) ==
      [b.id, b.customerName, b.customerEmail, formatDate(b.appointmentDate),
       StatusName(b.status), IntToString(b.amount), PaymentName(b.paymentStatus)]
    ensures '\n' !in CsvLine(b, formatDate)
  {
    var values := CsvValues(b, formatDate);
    var cells := Cells(values, CsvQuoting);
    forall i | 0 <= i < |values|
      ensures Readable(cells[i])
    {
      IntToStringReadable(b.amount);
      NamesReadable(b);
      if i == 1 {
        assert cells[i] == Quoted(b.customerName);
      } else {
        assert cells[i] == Plain(values[i]);
      }
    }
    LineReadsBack(values, CsvQuoting);
  }
}
