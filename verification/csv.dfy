/**
  The comma-separated text both views export: cells joined by `,`, rows joined
  by `\n`. A cell is written as is or wrapped in double quotes; quotes inside a
  value are never escaped. `ParseRow` and `SplitLines` read such text back and
  show which values survive the trip.
 */
module Csv {

  import opened Text

  /** `s.indexOf(c)`, with |s| standing for "not found". */
  function IndexOf(s: string, c: char): (k: nat)
    ensures k <= |s|
    ensures forall i :: 0 <= i < k ==> s[i] != c
    ensures k < |s| ==> s[k] == c
  {
    if |s| == 0 then 0 else if s[0] == c then 0 else 1 + IndexOf(s[1..], c)
  }

  lemma {:induction false} IndexOfFirst(t: string, c: char, rest: string)
    requires c !in t
    ensures IndexOf(t + [c] + rest, c) == |t|
    ensures IndexOf(t, c) == |t|
  {
    var s := t + [c] + rest;
    assert s[|t|] == c;
    assert forall i :: 0 <= i < |t| ==> s[i] == t[i];
  }

  datatype Cell = Plain(text: string) | Quoted(text: string)

  function EncodeCell(c: Cell): string {
    match c
    case Plain(t) => t
    case Quoted(t) => "\"" + t + "\""
  }

  /** `cells.join(',')` of the encoded cells. */
  function EncodeRow(cells: seq<Cell>): string {
    if |cells| == 0 then ""
    else if |cells| == 1 then EncodeCell(cells[0])
    else EncodeCell(cells[0]) + "," + EncodeRow(cells[1..])
  }

  /** `lines.join('\n')`. */
  function JoinLines(lines: seq<string>): string {
    if |lines| == 0 then ""
    else if |lines| == 1 then lines[0]
    else lines[0] + "\n" + JoinLines(lines[1..])
  }

  /** `s.split('\n')`. */
  function SplitLines(s: string): (r: seq<string>)
    ensures |r| >= 1
    decreases |s|
  {
    var k := IndexOf(s, '\n');
    if k < |s| then [s[..k]] + SplitLines(s[k + 1..]) else [s]
  }

  /** Reads one line back into its values: a value opening with `"` runs to the
      next `"`; any other value runs to the next `,`. */
  function ParseRow(s: string): (r: seq<string>)
    ensures |r| >= 1
    decreases |s|
  {
    if |s| > 0 && s[0] == '"' then
      var body := s[1..];
      var k := IndexOf(body, '"');
      if k + 1 < |body| && body[k + 1] == ',' then [body[..k]] + ParseRow(body[k + 2..])
      else [body[..k]]
    else
      var k := IndexOf(s, ',');
      if k < |s| then [s[..k]] + ParseRow(s[k + 1..]) else [s]
  }

  /** A cell whose value reads back unchanged: a plain value holds no comma
      and does not open with a quote, a quoted value holds no quote, and
      neither holds a line break. */
  predicate Readable(c: Cell) {
    && '\n' !in c.text
    && match c
       case Plain(t) => ',' !in t && (|t| == 0 || t[0] != '"')
       case Quoted(t) => '"' !in t
  }

  /** The decimal rendering of an integer is a valid plain value. */
  lemma {:induction false} IntToStringReadable(i: int)
    ensures Readable(Plain(IntToString(i)))
  {
    var s := IntToString(i);
    var digits := NatToString(if i < 0 then -i else i);
    assert forall k :: 0 <= k < |digits| ==> '0' <= digits[k] <= '9';
    if i < 0 {
      assert s == "-" + digits;
      assert forall k :: 0 <= k < |s| ==> s[k] == '-' || '0' <= s[k] <= '9';
    }
  }

  function Texts(cells: seq<Cell>): (r: seq<string>)
    ensures |r| == |cells|
    ensures forall i :: 0 <= i < |cells| ==> r[i] == cells[i].text
  {
    if |cells| == 0 then [] else [cells[0].text] + Texts(cells[1..])
  }

  lemma {:induction false} ParseLastCell(c: Cell)
    requires Readable(c)
    ensures ParseRow(EncodeCell(c)) == [c.text]
  {
    var t := c.text;
    if c.Plain? {
      IndexOfFirst(t, ',', "");
    } else {
      var s := EncodeCell(c);
      assert s[0] == '"' && s[1..] == t + ['"'] + "";
      IndexOfFirst(t, '"', "");
      assert s[1..][..|t|] == t;
    }
  }

  lemma {:induction false} ParseFirstCell(c: Cell, rest: string)
    requires Readable(c)
    ensures ParseRow(EncodeCell(c) + "," + rest) == [c.text] + ParseRow(rest)
  {
    var t := c.text;
    var s := EncodeCell(c) + "," + rest;
    if c.Plain? {
      assert s == t + [','] + rest;
      assert IndexOf(s, ',') == |t| by {
        IndexOfFirst(t, ',', rest);
      }
      assert !(|s| > 0 && s[0] == '"');
      assert s[..|t|] == t && s[|t| + 1..] == rest;
    } else {
      var body := s[1..];
      assert s[0] == '"' && body == t + ['"'] + ("," + rest);
      assert IndexOf(body, '"') == |t| by {
        IndexOfFirst(t, '"', "," + rest);
      }
      assert body[|t| + 1] == ',';
      assert body[..|t|] == t && body[|t| + 2..] == rest;
    }
  }

  /** A quoted value ends at its first inner quote; unless a comma follows
      that quote, the rest of the line is lost. */
  lemma {:induction false} ParseStopsAtInnerQuote(t: string, tail: string)
    requires '"' !in t
    requires |tail| == 0 || tail[0] != ','
    ensures ParseRow("\"" + t + "\"" + tail) == [t]
  {
    var s := "\"" + t + "\"" + tail;
    var body := t + ['"'] + tail;
    assert s[0] == '"' && s[1..] == body;
    assert IndexOf(body, '"') == |t| by {
      IndexOfFirst(t, '"', tail);
    }
    assert body[..|t|] == t;
    assert !(|t| + 1 < |body| && body[|t| + 1] == ',') by {
      if |t| + 1 < |body| {
        assert body[|t| + 1] == tail[0];
      }
    }
  }

  /** A row of readable cells parses back into the cell values. */
  lemma {:induction false} RowRoundTrip(cells: seq<Cell>)
    requires |cells| > 0
    requires forall i :: 0 <= i < |cells| ==> Readable(cells[i])
    ensures ParseRow(EncodeRow(cells)) == Texts(cells)
  {
    if |cells| == 1 {
      ParseLastCell(cells[0]);
    } else {
      RowRoundTrip(cells[1..]);
      ParseFirstCell(cells[0], EncodeRow(cells[1..]));
      assert Texts(cells) == [cells[0].text] + Texts(cells[1..]);
    }
  }

  /** The cells of a line: value i is written in quotes exactly when
      `quoted[i]` holds. */
  function Cells(values: seq<string>, quoted: seq<bool>): (r: seq<Cell>)
    requires |quoted| == |values|
    ensures |r| == |values|
    ensures forall i :: 0 <= i < |values| ==> r[i].text == values[i] && r[i].Quoted? == quoted[i]
  {
    seq(|values|, i requires 0 <= i < |values| => if quoted[i] then Quoted(values[i]) else Plain(values[i]))
  }

  /** A line of values that all read back parses into exactly those values
      and holds no line break. */
  lemma {:induction false} LineReadsBack(values: seq<string>, quoted: seq<bool>)
    requires |quoted| == |values| > 0
    requires forall i :: 0 <= i < |values| ==> Readable(Cells(values, quoted)[i])
    ensures ParseRow(EncodeRow(Cells(values, quoted))) == values
    ensures '\n' !in EncodeRow(Cells(values, quoted))
  {
    var cells := Cells(values, quoted);
    RowRoundTrip(cells);
    EncodeRowLineFree(cells);
    assert forall i :: 0 <= i < |values| ==> Texts(cells)[i] == values[i];
  }

  lemma {:induction false} EncodeRowLineFree(cells: seq<Cell>)
    requires forall i :: 0 <= i < |cells| ==> '\n' !in cells[i].text
    ensures '\n' !in EncodeRow(cells)
  {
    if |cells| > 1 {
      EncodeRowLineFree(cells[1..]);
    }
  }

  /** Joined lines without line breaks split back into the same lines. */
  lemma {:induction false} LinesRoundTrip(lines: seq<string>)
    requires |lines| > 0
    requires forall i :: 0 <= i < |lines| ==> '\n' !in lines[i]
    ensures SplitLines(JoinLines(lines)) == lines
  {
    var l := lines[0];
    if |lines| == 1 {
      IndexOfFirst(l, '\n', "");
    } else {
      var rest := JoinLines(lines[1..]);
      var s := JoinLines(lines);
      assert s == l + ['\n'] + rest;
      assert IndexOf(s, '\n') == |l| by {
        IndexOfFirst(l, '\n', rest);
      }
      assert s[..|l|] == l && s[|l| + 1..] == rest;
      assert SplitLines(rest) == lines[1..] by {
        LinesRoundTrip(lines[1..]);
      }
      assert lines == [l] + lines[1..];
    }
  }

  /** A header line followed by data lines, none with a line break, splits
      back into the same lines. */
  lemma {:induction false} HeaderThenRows(header: string, rows: seq<string>)
    requires '\n' !in header
    requires forall i :: 0 <= i < |rows| ==> '\n' !in rows[i]
    ensures SplitLines(JoinLines([header] + rows)) == [header] + rows
  {
    var lines := [header] + rows;
    assert forall i :: 0 <= i < |lines| ==> '\n' !in lines[i] by {
      forall i | 0 <= i < |lines|
        ensures '\n' !in lines[i]
      {
        if i > 0 {
          assert lines[i] == rows[i - 1];
        }
      }
    }
    LinesRoundTrip(lines);
  }
}
