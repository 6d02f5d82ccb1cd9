/**
  The customer list's records: the row the view keeps, the record the
  customer service delivers, the search predicate, the column comparator and
  the CSV row.
 */
module CustomerRecords {

  import opened Seqs
  import opened Text
  import opened Sorting
  import opened Csv

  datatype Customer = Customer(id: int, name: string, email: string, phone: string)

  /** The record the customer service delivers; its phone column is named
      `phoneNumber`. */
  datatype ApiCustomer = ApiCustomer(id: int, name: string, email: string, phoneNumber: string)

  /** The customers a load yields: one per record the service delivers, in
      its order, with `phoneNumber` renamed to `phone`. */
  function MapFromApi(data: seq<ApiCustomer>): (r: seq<Customer>)
    ensures |r| == |data|
    ensures forall i :: 0 <= i < |data| ==>
      r[i] == Customer(data[i].id, data[i].name, data[i].email, data[i].phoneNumber)
  {
    if |data| == 0 then []
    else [Customer(data[0].id, data[0].name, data[0].email, data[0].phoneNumber)] + MapFromApi(data[1..])
  }

  /** The keys of `Customer` the table can be sorted by. */
  datatype Field = Id | Name | Email | Phone

  /** The text of a string column. */
  function Column(c: Customer, f: Field): string
    requires f != Id
  {
    match f
    case Name => c.name
    case Email => c.email
    case Phone => c.phone
  }

  // ---------------------------------------------------------------- search

  /** The customer's lowercased name, email or phone holds the lowercased term. */
  predicate MatchesTerm(c: Customer, term: string, lower: string -> string) {
    var t := lower(term);
    Includes(lower(c.name), t) || Includes(lower(c.email), t) || Includes(lower(c.phone), t)
  }

  function SearchPredicate(term: string, lower: string -> string): Customer -> bool {
    c => MatchesTerm(c, term, lower)
  }

  /** The customers the search keeps, in their original order. */
  function Select(customers: seq<Customer>, term: string, lower: string -> string): (r: seq<Customer>)
    ensures Subsequence(r, customers)
    ensures forall c :: c in r <==> c in customers && MatchesTerm(c, term, lower)
    ensures forall c :: multiset(r)[c] == if MatchesTerm(c, term, lower) then multiset(customers)[c] else 0
  {
    Filter(customers, SearchPredicate(term, lower))
  }

  /** The search only ever drops customers. */
  lemma {:induction false} SelectWithin(customers: seq<Customer>, term: string, lower: string -> string)
    ensures multiset(Select(customers, term, lower)) <= multiset(customers)
  {
    var r := Select(customers, term, lower);
    assert forall c :: multiset(r)[c] <= multiset(customers)[c];
  }

  lemma {:induction false} EverythingIncludesEmpty(s: string)
    ensures Includes(s, "")
  {
    assert IsPrefix("", s);
  }

  /** An empty search term (whose lowercase is empty) keeps every customer. */
  lemma {:induction false} EmptyTermSelectsAll(customers: seq<Customer>, lower: string -> string)
    requires lower("") == ""
    ensures Select(customers, "", lower) == customers
  {
    forall c | c in customers
      ensures SearchPredicate("", lower)(c)
    {
      EverythingIncludesEmpty(lower(c.name));
    }
    FilterAll(customers, SearchPredicate("", lower));
  }

  // ---------------------------------------------------------------- sorting

  /** The comparator of the table: numeric difference of ids for the id
      column, `localeCompare` of the texts otherwise, with the operands swapped
      for a descending sort. */
  function Compare(a: Customer, b: Customer, field: Field, dir: Direction,
                   collate: (string, string) -> int): int
  {
    if field == Id then
      (if dir == Asc then a.id - b.id else b.id - a.id)
    else if dir == Asc then collate(Column(a, field), Column(b, field))
    else collate(Column(b, field), Column(a, field))
  }

  function Le(field: Field, dir: Direction, collate: (string, string) -> int): (Customer, Customer) -> bool {
    (a, b) => Compare(a, b, field, dir, collate) <= 0
  }

  /** The descending comparator is the ascending one with its operands swapped. */
  lemma {:induction false} CompareMirror(a: Customer, b: Customer, field: Field, collate: (string, string) -> int)
    ensures Compare(a, b, field, Desc, collate) == Compare(b, a, field, Asc, collate)
  {
  }

  /** The comparator orders every pair and is transitive: always on the id
      column, and on the text columns when `localeCompare` is a collation. */
  lemma {:induction false} LeIsTotalPreorder(field: Field, dir: Direction, collate: (string, string) -> int)
    requires field == Id || IsCollation(collate)
    ensures TotalPreorder(Le(field, dir, collate))
  {
    var le := Le(field, dir, collate);
    forall a, b
      ensures le(a, b) || le(b, a)
    {
      if field != Id {
        var x, y := Column(a, field), Column(b, field);
        assert collate(x, y) < 0 <==> collate(y, x) > 0;
      }
    }
    forall a, b, c | le(a, b) && le(b, c)
      ensures le(a, c)
    {
      if field != Id {
        var x, y, z := Column(a, field), Column(b, field), Column(c, field);
        if dir == Asc {
          assert collate(x, y) <= 0 && collate(y, z) <= 0;
        } else {
          assert collate(z, y) <= 0 && collate(y, x) <= 0;
        }
      }
    }
  }

  /** Two customers the ascending comparator places both ways compare equal. */
  lemma {:induction false} TiesAreSymmetric(a: Customer, b: Customer, field: Field, collate: (string, string) -> int)
    requires field == Id || IsCollation(collate)
    requires Compare(a, b, field, Asc, collate) <= 0 && Compare(b, a, field, Asc, collate) <= 0
    ensures Compare(a, b, field, Asc, collate) == 0
  {
    if field != Id {
      var x, y := Column(a, field), Column(b, field);
      assert collate(x, y) < 0 <==> collate(y, x) > 0;
    }
  }

  /** On the id column the sorted table runs through the ids in ascending or
      descending order. */
  lemma {:induction false} IdOrder(s: seq<Customer>, dir: Direction, collate: (string, string) -> int)
    requires SortedBy(s, Le(Id, dir, collate))
    ensures dir == Asc ==> forall i, j :: 0 <= i < j < |s| ==> s[i].id <= s[j].id
    ensures dir == Desc ==> forall i, j :: 0 <= i < j < |s| ==> s[i].id >= s[j].id
  {
    forall i, j | 0 <= i < j < |s|
      ensures Le(Id, dir, collate)(s[i], s[j])
    {
    }
  }

  /** Without ties among the given customers, the descending sort is exactly
      the ascending sort reversed. */
  lemma {:induction false} DescendingMirrorsAscending(s: seq<Customer>, field: Field, collate: (string, string) -> int)
    requires field == Id || IsCollation(collate)
    requires forall a, b | a in s && b in s :: Compare(a, b, field, Asc, collate) == 0 ==> a == b
    ensures Sort(s, Le(field, Desc, collate)) == Reverse(Sort(s, Le(field, Asc, collate)))
  {
    var le, ge := Le(field, Asc, collate), Le(field, Desc, collate);
    LeIsTotalPreorder(field, Asc, collate);
    forall a, b
      ensures ge(a, b) == le(b, a)
    {
      CompareMirror(a, b, field, collate);
    }
    forall x, y | x in s && y in s && le(x, y) && le(y, x)
      ensures x == y
    {
      TiesAreSymmetric(x, y, field, collate);
    }
    SortMirror(s, le, ge);
  }

  // ---------------------------------------------------------------- export

  const CsvHeader: string := "ID,Name,Email,Phone"

  lemma {:induction false} HeaderLineFree()
    ensures '\n' !in CsvHeader
  {
    assert forall i | 0 <= i < |CsvHeader| :: CsvHeader[i] != '\n';
  }

  /** The cells of one exported line: the id as written, then name, email and
      phone each wrapped in quotes. */
  function CsvCells(c: Customer): (r: seq<Cell>)
    ensures |r| == 4 && r[0].Plain? && r[1].Quoted? && r[2].Quoted? && r[3].Quoted?
  {
    [Plain(IntToString(c.id)), Quoted(c.name), Quoted(c.email), Quoted(c.phone)]
  }

  function CsvLine(c: Customer): string {
    EncodeRow(CsvCells(c))
  }

  /** No value written for the customer holds a line break. */
  predicate LineFree(c: Customer) {
    '\n' !in c.name && '\n' !in c.email && '\n' !in c.phone
  }

  /** A customer whose values hold no line break is written on one line,
      whatever quotes its values hold. */
  lemma {:induction false} CsvLineLineFree(c: Customer)
    requires LineFree(c)
    ensures '\n' !in CsvLine(c)
  {
    var cells := CsvCells(c);
    IntToStringReadable(c.id);
    assert forall i :: 0 <= i < |cells| ==> '\n' !in cells[i].text;
    EncodeRowLineFree(cells);
  }

  /** The quoted values hold no quote and no line break. */
  predicate Exportable(c: Customer) {
    forall t | t in [c.name, c.email, c.phone] :: '"' !in t && '\n' !in t
  }

  /** An exportable customer's line holds no line break and reads back into
      the id text, the name, the email and the phone. */
  lemma {:induction false} CsvRowReadsBack(c: Customer)
    requires Exportable(c)
    ensures ParseRow(CsvLine(c)) == [IntToString(c.id), c.name, c.email, c.phone]
    ensures '\n' !in CsvLine(c)
  {
    var cells := CsvCells(c);
    assert c.name in [c.name, c.email, c.phone];
    assert c.email in [c.name, c.email, c.phone];
    assert c.phone in [c.name, c.email, c.phone];
    IntToStringReadable(c.id);
    assert forall i :: 0 <= i < |cells| ==> Readable(cells[i]);
    RowRoundTrip(cells);
    assert Texts(cells) == [IntToString(c.id), c.name, c.email, c.phone];
    EncodeRowLineFree(cells);
  }

  /** A line starts with the id text, then the quoted name, then the rest. */
  lemma {:induction false} CsvRowShape(c: Customer)
    ensures CsvLine(c) == IntToString(c.id) + "," + ("\"" + c.name + "\"" + "," + EncodeRow(CsvCells(c)[2..]))
  {
    var cells := CsvCells(c);
    assert cells[1..] == [Quoted(c.name)] + cells[2..];
    assert EncodeRow(cells[1..]) == EncodeCell(Quoted(c.name)) + "," + EncodeRow(cells[2..]);
  }

  lemma {:induction false} Regroup(t: string, u: string, later: string)
    ensures "\"" + (t + "\"" + u) + "\"" + "," + later == "\"" + t + "\"" + (u + "\"" + "," + later)
  {
  }

  /** Quotes inside a name are not escaped: when the name holds a quote that
      is not followed by a comma, its line reads back as just two values, the
      id text and the name cut short at that quote. */
  lemma {:induction false} QuoteInNameBreaksRow(c: Customer, t: string, u: string)
    requires c.name == t + "\"" + u
    requires '"' !in t
    requires |u| == 0 || u[0] != ','
    ensures ParseRow(CsvLine(c)) == [IntToString(c.id), t]
  {
    var later := EncodeRow(CsvCells(c)[2..]);
    var tail := u + "\"" + "," + later;
    var rest := "\"" + c.name + "\"" + "," + later;
    CsvRowShape(c);
    assert ParseRow(CsvLine(c)) == [IntToString(c.id)] + ParseRow(rest) by {
      IntToStringReadable(c.id);
      ParseFirstCell(Plain(IntToString(c.id)), rest);
    }
    assert rest == "\"" + t + "\"" + tail by {
      Regroup(t, u, later);
    }
    ParseStopsAtInnerQuote(t, tail);
  }
}
