/**
 Comma-separated values: the printer of the query-log export and a reader for the grammar of
 section 2 of RFC 4180, with TEXTDATA widened to every character but comma, quote, CR and LF.
 */
module Csv {
  import opened Options

  /** A JavaScript value a field can hold; `Number` carries what `String` makes of it. */
  datatype Value = Null | Undefined | Text(s: string) | Number(s: string)

  /** What is left of a value in the text: null, undefined and "" are the same. */
  function Shown(v: Value): string {
    if v.Null? || v.Undefined? then "" else v.s
  }

  /** A character that forces quotes. */
  predicate Special(c: char) {
    c == '"' || c == ',' || c == '\r' || c == '\n'
  }

  predicate HasSpecial(s: string) {
    s != "" && (Special(s[0]) || HasSpecial(s[1..]))
  }

  /** Every quote doubled. */
  function Doubled(s: string): string {
    if s == "" then "" else (if s[0] == '"' then "\"\"" else [s[0]]) + Doubled(s[1..])
  }

  function CsvField(v: Value): string {
    if v.Null? || v.Undefined? then ""
    else if v.s == "" then ""
    else if HasSpecial(v.s) then "\"" + Doubled(v.s) + "\""
    else v.s
  }

  function Join(parts: seq<string>, separator: string): string {
    if parts == [] then ""
    else if |parts| == 1 then parts[0]
    else parts[0] + separator + Join(parts[1..], separator)
  }

  function Lines(grid: seq<seq<Value>>): seq<string> {
    if grid == [] then [] else [Join(Fields(grid[0]), ",")] + Lines(grid[1..])
  }

  function Fields(row: seq<Value>): seq<string> {
    if row == [] then [] else [CsvField(row[0])] + Fields(row[1..])
  }

  /** `rowsToCsv`: the header as it stands, then the rows, each line ended by CRLF. */
  function ToCsv(header: seq<string>, grid: seq<seq<Value>>): string {
    Join([Join(header, ",")] + Lines(grid), "\r\n") + "\r\n"
  }

  // ---------------------------------------------------------------- the reader

  /** The text up to the first special character, and the rest. */
  function ReadPlain(s: string): (r: (string, string))
    ensures |r.1| <= |s|
  {
    if s == "" || Special(s[0]) then ("", s)
    else
      var (more, rest) := ReadPlain(s[1..]);
      ([s[0]] + more, rest)
  }

  /** The text up to the closing quote, with doubled quotes undone; `None` when the quote is never closed. */
  function ReadQuoted(s: string): (r: Option<(string, string)>)
    ensures r.Some? ==> |r.value.1| <= |s|
  {
    if s == "" then None
    else if s[0] == '"' && !(|s| > 1 && s[1] == '"') then Some(("", s[1..]))
    else
      match ReadQuoted(if s[0] == '"' then s[2..] else s[1..])
      case None => None
      case Some((more, rest)) => Some(([s[0]] + more, rest))
  }

  function ReadField(s: string): (r: Option<(string, string)>)
    ensures r.Some? ==> |r.value.1| <= |s|
  {
    if s != "" && s[0] == '"' then ReadQuoted(s[1..]) else Some(ReadPlain(s))
  }

  /** Fields separated by commas. */
  function ReadRecord(s: string): (r: Option<(seq<string>, string)>)
    ensures r.Some? ==> |r.value.1| <= |s|
    decreases |s|
  {
    match ReadField(s)
    case None => None
    case Some((field, rest)) =>
      if rest == "" || rest[0] != ',' then Some(([field], rest))
      else
        match ReadRecord(rest[1..])
        case None => None
        case Some((more, after)) => Some(([field] + more, after))
  }

  /** Records separated by CRLF, with an optional CRLF after the last. */
  function ReadFile(s: string): Option<seq<seq<string>>>
    decreases |s|
  {
    match ReadRecord(s)
    case None => None
    case Some((record, rest)) =>
      if rest == "" || rest == "\r\n" then Some([record])
      else if |rest| >= 2 && rest[0] == '\r' && rest[1] == '\n' then
        match ReadFile(rest[2..])
        case None => None
        case Some(more) => Some([record] + more)
      else None
  }

  // ---------------------------------------------------------------- what was printed reads back

  /** What can follow a field. */
  predicate EndsField(rest: string) {
    rest == "" || rest[0] == ',' || rest[0] == '\r'
  }

  lemma {:induction false} PlainReadsBack(s: string, rest: string)
    requires !HasSpecial(s) && EndsField(rest)
    ensures ReadPlain(s + rest) == (s, rest)
  {
    if s == "" {
      assert s + rest == rest;
    } else {
      assert (s + rest)[1..] == s[1..] + rest;
      PlainReadsBack(s[1..], rest);
      assert s == [s[0]] + s[1..];
    }
  }

  lemma QuotedPair(tail: string, more: string, rest: string)
    requires ReadQuoted(tail) == Some((more, rest))
    ensures ReadQuoted("\"\"" + tail) == Some(("\"" + more, rest))
  {
    var all := "\"\"" + tail;
    assert all[2..] == tail;
  }

  lemma QuotedChar(c: char, tail: string, more: string, rest: string)
    requires c != '"' && ReadQuoted(tail) == Some((more, rest))
    ensures ReadQuoted([c] + tail) == Some(([c] + more, rest))
  {
    var all := [c] + tail;
    assert all[1..] == tail;
  }

  lemma QuotedEnd(rest: string)
    requires EndsField(rest)
    ensures ReadQuoted("\"" + rest) == Some(("", rest))
  {
    var all := "\"" + rest;
    assert all[1..] == rest;
  }

  lemma Assoc(a: string, b: string, c: string)
    ensures (a + b) + c == a + (b + c)
  {
  }

  lemma {:induction false} QuotedReadsBack(s: string, rest: string)
    requires EndsField(rest)
    ensures ReadQuoted(Doubled(s) + ("\"" + rest)) == Some((s, rest))
  {
    var close := "\"" + rest;
    if s == "" {
      assert Doubled(s) + close == close;
      QuotedEnd(rest);
    } else {
      QuotedReadsBack(s[1..], rest);
      assert s == [s[0]] + s[1..];
      var first := if s[0] == '"' then "\"\"" else [s[0]];
      Assoc(first, Doubled(s[1..]), close);
      if s[0] == '"' {
        QuotedPair(Doubled(s[1..]) + close, s[1..], rest);
      } else {
        QuotedChar(s[0], Doubled(s[1..]) + close, s[1..], rest);
      }
    }
  }

  lemma QuotedFieldReadsBack(s: string, rest: string)
    requires EndsField(rest)
    ensures ReadField(("\"" + Doubled(s) + "\"") + rest) == Some((s, rest))
  {
    var body := Doubled(s) + ("\"" + rest);
    QuotedReadsBack(s, rest);
    Assoc("\"" + Doubled(s), "\"", rest);
    Assoc("\"", Doubled(s), "\"" + rest);
    OpeningQuote(body);
  }

  lemma OpeningQuote(body: string)
    ensures ReadField("\"" + body) == ReadQuoted(body)
  {
    assert ("\"" + body)[1..] == body;
  }

  lemma PlainFieldReadsBack(s: string, rest: string)
    requires !HasSpecial(s) && EndsField(rest)
    ensures ReadField(s + rest) == Some((s, rest))
  {
    var all := s + rest;
    PlainReadsBack(s, rest);
    assert all != "" ==> all[0] == if s != "" then s[0] else rest[0];
  }

  lemma FieldReadsBack(v: Value, rest: string)
    requires EndsField(rest)
    ensures ReadField(CsvField(v) + rest) == Some((Shown(v), rest))
  {
    if HasSpecial(Shown(v)) {
      QuotedFieldReadsBack(v.s, rest);
    } else {
      PlainFieldReadsBack(Shown(v), rest);
    }
  }

  /** A string is shown as it is, a number as `String` has it, and nothing as nothing. */
  lemma ShownExactly(v: Value)
    ensures v == Null || v == Undefined ==> Shown(v) == ""
    ensures forall s :: v == Text(s) || v == Number(s) ==> Shown(v) == s
  {
  }

  /** A field stands as it is shown unless it holds a comma, a quote, CR or LF; then it stands between quotes. */
  lemma FieldShape(v: Value)
    ensures var s := Shown(v);
            if forall i :: 0 <= i < |s| ==> s[i] !in [',', '"', '\r', '\n'] then CsvField(v) == s
            else |CsvField(v)| >= |s| + 2 && CsvField(v)[0] == '"' && CsvField(v)[|CsvField(v)| - 1] == '"'
  {
    var list := [',', '"', '\r', '\n'];
    assert list[0] == ',' && list[1] == '"' && list[2] == '\r' && list[3] == '\n';
    SpecialExactly(Shown(v));
    DoubledLength(Shown(v));
  }

  lemma {:induction false} SpecialExactly(s: string)
    ensures HasSpecial(s) <==> exists i :: 0 <= i < |s| && Special(s[i])
  {
    if s != "" {
      SpecialExactly(s[1..]);
      if i :| 0 <= i < |s| && Special(s[i]) {
        assert i > 0 ==> s[1..][i - 1] == s[i];
      }
      if i :| 0 <= i < |s[1..]| && Special(s[1..][i]) {
        assert s[i + 1] == s[1..][i];
      }
    }
  }

  lemma {:induction false} DoubledLength(s: string)
    ensures |Doubled(s)| >= |s|
  {
    if s != "" {
      DoubledLength(s[1..]);
    }
  }

  lemma SampleField()
    ensures CsvField(Text("y,\"")) == "\"y,\"\"\""
  {
    var q := "y,\"";
    assert q[1..] == ",\"" && q[1..][1..] == "\"" && q[1..][1..][1..] == "";
    assert Doubled("\"") == "\"\"";
    assert Doubled(",\"") == ",\"\"";
    assert Doubled(q) == "y,\"\"";
    assert HasSpecial(q[1..]) && HasSpecial(q);
  }

  lemma SampleFields()
    ensures Fields([Text("x"), Text("y,\"")]) == ["x", "\"y,\"\"\""]
  {
    var row := [Text("x"), Text("y,\"")];
    SampleField();
    assert "x"[1..] == "" && CsvField(Text("x")) == "x";
    assert row[1..] == [Text("y,\"")] && row[1..][1..] == [];
    assert Fields(row[1..]) == ["\"y,\"\"\""];
  }

  lemma JoinTwo(a: string, b: string, separator: string)
    ensures Join([a, b], separator) == a + separator + b
  {
    assert [a, b][1..] == [b];
  }

  lemma SampleHeader()
    ensures Join(["a", "b"], ",") == "a,b"
  {
    JoinTwo("a", "b", ",");
    assert "a" + "," + "b" == "a,b";
  }

  /** Two columns, one row, and a field that needs quotes. */
  lemma Sample()
    ensures ToCsv(["a", "b"], [[Text("x"), Text("y,\"")]]) == "a,b\r\nx,\"y,\"\"\"\r\n"
  {
    var grid := [[Text("x"), Text("y,\"")]];
    SampleFields();
    JoinTwo("x", "\"y,\"\"\"", ",");
    SampleHeader();
    var line := "x" + "," + "\"y,\"\"\"";
    assert |grid[1..]| == 0 && Lines(grid) == [line];
    assert [Join(["a", "b"], ",")] + [line] == ["a,b", line];
    JoinTwo("a,b", line, "\r\n");
  }

  function ShownRow(row: seq<Value>): seq<string> {
    if row == [] then [] else [Shown(row[0])] + ShownRow(row[1..])
  }

  /** The strings that a grid shows. */
  function ShownGrid(grid: seq<seq<Value>>): seq<seq<string>> {
    if grid == [] then [] else [ShownRow(grid[0])] + ShownGrid(grid[1..])
  }

  lemma RecordMore(v: Value, tail: string, more: seq<string>, rest: string)
    requires ReadRecord(tail) == Some((more, rest))
    ensures ReadRecord(CsvField(v) + ("," + tail)) == Some(([Shown(v)] + more, rest))
  {
    FieldReadsBack(v, "," + tail);
    assert ("," + tail)[1..] == tail;
  }

  lemma JoinedRow(row: seq<Value>)
    requires |row| > 1
    ensures Join(Fields(row), ",") == CsvField(row[0]) + "," + Join(Fields(row[1..]), ",")
  {
    assert Fields(row)[1..] == Fields(row[1..]);
  }

  lemma {:induction false} RecordReadsBack(row: seq<Value>, rest: string)
    requires row != [] && (rest == "" || rest[0] == '\r')
    ensures ReadRecord(Join(Fields(row), ",") + rest) == Some((ShownRow(row), rest))
  {
    if |row| == 1 {
      assert Fields(row) == [CsvField(row[0])] && ShownRow(row) == [Shown(row[0])];
      FieldReadsBack(row[0], rest);
    } else {
      var first, line := CsvField(row[0]), Join(Fields(row[1..]), ",");
      RecordReadsBack(row[1..], rest);
      RecordMore(row[0], line + rest, ShownRow(row[1..]), rest);
      JoinedRow(row);
      Assoc(first + ",", line, rest);
      Assoc(first, ",", line + rest);
    }
  }

  lemma OneLine(grid: seq<seq<Value>>)
    requires |grid| == 1
    ensures Lines(grid) == [Join(Fields(grid[0]), ",")] && ShownGrid(grid) == [ShownRow(grid[0])]
  {
    var rest := grid[1..];
    assert |rest| == 0;
    assert Lines(rest) == [] && ShownGrid(rest) == [];
  }

  /** The lines of a non-empty grid, each ended by CRLF. */
  lemma {:induction false} LinesReadBack(grid: seq<seq<Value>>)
    requires grid != [] && forall row :: row in grid ==> row != []
    ensures ReadFile(Join(Lines(grid), "\r\n") + "\r\n") == Some(ShownGrid(grid))
  {
    var line, all := Join(Fields(grid[0]), ","), Join(Lines(grid), "\r\n") + "\r\n";
    assert grid[0] in grid;
    if |grid| == 1 {
      OneLine(grid);
      assert all == line + "\r\n";
      RecordReadsBack(grid[0], "\r\n");
    } else {
      var tail := Join(Lines(grid[1..]), "\r\n") + "\r\n";
      assert Lines(grid)[1..] == Lines(grid[1..]);
      assert all == line + ("\r\n" + tail);
      RecordReadsBack(grid[0], "\r\n" + tail);
      TailIsNotEmpty("\r\n", tail);
      assert ("\r\n" + tail)[2..] == tail;
      assert forall row :: row in grid[1..] ==> row in grid;
      LinesReadBack(grid[1..]);
    }
  }

  lemma TailIsNotEmpty(a: string, tail: string)
    requires |tail| > 0
    ensures a + tail != a && a + tail != ""
  {
    assert |a + tail| > |a|;
  }

  /** The header is printed without quoting, which is right because its names need none. */
  function Names(header: seq<string>): seq<Value> {
    if header == [] then [] else [Text(header[0])] + Names(header[1..])
  }

  predicate PlainNames(header: seq<string>) {
    forall h :: h in header ==> !HasSpecial(h)
  }

  lemma PlainRest(header: seq<string>)
    requires header != [] && PlainNames(header)
    ensures PlainNames(header[1..]) && !HasSpecial(header[0])
  {
    assert header[0] in header;
    assert forall h :: h in header[1..] ==> h in header;
  }

  lemma NamesFirst(header: seq<string>)
    requires header != [] && !HasSpecial(header[0])
    ensures Fields(Names(header)) == [header[0]] + Fields(Names(header[1..]))
    ensures ShownRow(Names(header)) == [header[0]] + ShownRow(Names(header[1..]))
    ensures |Names(header)| == |Names(header[1..])| + 1
  {
    assert Names(header)[1..] == Names(header[1..]);
  }

  lemma {:induction false} NamesAreFields(header: seq<string>)
    requires PlainNames(header)
    ensures Fields(Names(header)) == header && ShownRow(Names(header)) == header
    ensures |Names(header)| == |header|
  {
    if header != [] {
      PlainRest(header);
      NamesAreFields(header[1..]);
      NamesFirst(header);
      assert header == [header[0]] + header[1..];
    }
  }

  /** Reading the printed text gives back the header and every field's string form. */
  lemma RoundTrip(header: seq<string>, grid: seq<seq<Value>>)
    requires header != [] && PlainNames(header) && forall row :: row in grid ==> row != []
    ensures ReadFile(ToCsv(header, grid)) == Some([header] + ShownGrid(grid))
  {
    var all := [Names(header)] + grid;
    NamesAreFields(header);
    assert all[1..] == grid;
    LinesReadBack(all);
  }

  /** Two grids print the same text exactly when they show the same strings. */
  lemma SameTextExactly(header: seq<string>, grid: seq<seq<Value>>, grid': seq<seq<Value>>)
    requires header != [] && PlainNames(header)
    requires (forall row :: row in grid ==> row != []) && (forall row :: row in grid' ==> row != [])
    ensures ToCsv(header, grid) == ToCsv(header, grid') <==> ShownGrid(grid) == ShownGrid(grid')
  {
    RoundTrip(header, grid);
    RoundTrip(header, grid');
    if ToCsv(header, grid) == ToCsv(header, grid') {
      assert ([header] + ShownGrid(grid))[1..] == ShownGrid(grid);
      assert ([header] + ShownGrid(grid'))[1..] == ShownGrid(grid');
    }
    if ShownGrid(grid) == ShownGrid(grid') {
      LinesFollowShown(grid, grid');
    }
  }

  lemma {:induction false} LinesFollowShown(grid: seq<seq<Value>>, grid': seq<seq<Value>>)
    requires ShownGrid(grid) == ShownGrid(grid')
    ensures Lines(grid) == Lines(grid')
  {
    if grid != [] {
      assert ShownGrid(grid)[1..] == ShownGrid(grid[1..]);
      assert grid' != [] && ShownGrid(grid')[1..] == ShownGrid(grid'[1..]);
      assert ShownGrid(grid)[0] == ShownGrid(grid')[0];
      FieldsFollowShown(grid[0], grid'[0]);
      LinesFollowShown(grid[1..], grid'[1..]);
    }
  }

  lemma {:induction false} FieldsFollowShown(row: seq<Value>, row': seq<Value>)
    requires ShownRow(row) == ShownRow(row')
    ensures Fields(row) == Fields(row')
  {
    if row != [] {
      assert ShownRow(row)[1..] == ShownRow(row[1..]);
      assert row' != [] && ShownRow(row')[1..] == ShownRow(row'[1..]);
      assert ShownRow(row)[0] == ShownRow(row')[0];
      FieldsFollowShown(row[1..], row'[1..]);
    }
  }

  /** On grids of strings the text determines the grid. */
  lemma StringGridsAreRecovered(header: seq<string>, grid: seq<seq<string>>, grid': seq<seq<string>>)
    requires header != [] && PlainNames(header)
    requires (forall row :: row in grid ==> row != []) && (forall row :: row in grid' ==> row != [])
    requires ToCsv(header, Strings(grid)) == ToCsv(header, Strings(grid'))
    ensures grid == grid'
  {
    StringsShown(grid);
    StringsShown(grid');
    SameTextExactly(header, Strings(grid), Strings(grid'));
  }

  function Strings(grid: seq<seq<string>>): seq<seq<Value>> {
    if grid == [] then [] else [Names(grid[0])] + Strings(grid[1..])
  }

  lemma {:induction false} NamesShown(row: seq<string>)
    ensures ShownRow(Names(row)) == row && |Names(row)| == |row|
  {
    if row != [] {
      NamesShown(row[1..]);
      assert row == [row[0]] + row[1..];
    }
  }

  lemma {:induction false} StringsShown(grid: seq<seq<string>>)
    requires forall row :: row in grid ==> row != []
    ensures ShownGrid(Strings(grid)) == grid
    ensures forall row :: row in Strings(grid) ==> row != []
  {
    if grid != [] {
      NamesShown(grid[0]);
      assert grid[0] in grid;
      assert forall row :: row in grid[1..] ==> row in grid;
      StringsShown(grid[1..]);
      assert grid == [grid[0]] + grid[1..];
    }
  }
}
