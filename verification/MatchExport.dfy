/** The query-log export: one flat row a candidate, printed as comma-separated values. */
module MatchExport {
  import opened Options
  import opened Csv
  import opened Sets

  datatype MatchResult = MatchResult(
    trackId: string, title: string, artist: string, album: Option<string>, score: real, segmentIndex: real,
    previewUrl: Option<string>, artworkUrl: Option<string>, source: string, tempoBpm: Option<real>)

  datatype StoredMatch = StoredMatch(
    queryId: string, ts: int, elapsedMs: real, count: real,
    filename: Option<string>, durationSec: Option<real>, results: Option<seq<MatchResult>>)

  datatype FlatRow = FlatRow(
    queryId: string, timestampIso: string, queryFilename: string, queryDurationSec: Option<real>, candidateRank: real,
    trackId: string, title: string, artist: string, album: string, source: string, score: real, segmentIndex: real,
    tempoBpm: Option<real>, previewUrl: string, artworkUrl: string, elapsedMs: real, candidateCount: real)

  const FLAT_COLUMNS: seq<string> := [
    "query_id", "timestamp_iso", "query_filename", "query_duration_sec", "candidate_rank",
    "track_id", "title", "artist", "album", "source", "score", "segment_index",
    "tempo_bpm", "preview_url", "artwork_url", "elapsed_ms", "candidate_count"]

  /** The fields in column order; `text` is `String` on numbers. */
  function Cells(r: FlatRow, text: real -> string): seq<Value> {
    [ Text(r.queryId), Text(r.timestampIso), Text(r.queryFilename), OrBlank(r.queryDurationSec, text),
      Number(text(r.candidateRank)),
      Text(r.trackId), Text(r.title), Text(r.artist), Text(r.album), Text(r.source), Number(text(r.score)),
      Number(text(r.segmentIndex)), OrBlank(r.tempoBpm, text), Text(r.previewUrl), Text(r.artworkUrl),
      Number(text(r.elapsedMs)), Number(text(r.candidateCount)) ]
  }

  /** A `number | ""` field. */
  function OrBlank(x: Option<real>, text: real -> string): Value {
    match x
    case None => Text("")
    case Some(n) => Number(text(n))
  }

  function Grid(rows: seq<FlatRow>, text: real -> string): seq<seq<Value>> {
    if rows == [] then [] else [Cells(rows[0], text)] + Grid(rows[1..], text)
  }

  function RowsToCsv(rows: seq<FlatRow>, text: real -> string): string {
    ToCsv(FLAT_COLUMNS, Grid(rows, text))
  }

  /** Lower-case letters and underscores. */
  predicate IsName(s: string) {
    forall i :: 0 <= i < |s| ==> 'a' <= s[i] <= 'z' || s[i] == '_'
  }

  lemma {:induction false} NameIsPlain(s: string)
    requires IsName(s)
    ensures !HasSpecial(s)
  {
    if s != "" {
      NameIsPlain(s[1..]);
    }
  }

  lemma FirstNames()
    ensures IsName(FLAT_COLUMNS[0]) && IsName(FLAT_COLUMNS[1]) && IsName(FLAT_COLUMNS[2])
    ensures IsName(FLAT_COLUMNS[3]) && IsName(FLAT_COLUMNS[4]) && IsName(FLAT_COLUMNS[5])
  {
  }

  lemma MiddleNames()
    ensures IsName(FLAT_COLUMNS[6]) && IsName(FLAT_COLUMNS[7]) && IsName(FLAT_COLUMNS[8])
    ensures IsName(FLAT_COLUMNS[9]) && IsName(FLAT_COLUMNS[10]) && IsName(FLAT_COLUMNS[11])
  {
  }

  lemma LastNames()
    ensures IsName(FLAT_COLUMNS[12]) && IsName(FLAT_COLUMNS[13]) && IsName(FLAT_COLUMNS[14])
    ensures IsName(FLAT_COLUMNS[15]) && IsName(FLAT_COLUMNS[16])
  {
  }

  lemma ColumnsArePlain()
    ensures PlainNames(FLAT_COLUMNS)
  {
    FirstNames();
    MiddleNames();
    LastNames();
    forall h | h in FLAT_COLUMNS ensures !HasSpecial(h) {
      var i :| 0 <= i < 17 && FLAT_COLUMNS[i] == h;
      NameIsPlain(FLAT_COLUMNS[i]);
    }
  }

  lemma {:induction false} GridRowsFilled(rows: seq<FlatRow>, text: real -> string)
    ensures forall row :: row in Grid(rows, text) ==> row != []
  {
    if rows != [] {
      GridRowsFilled(rows[1..], text);
    }
  }

  /** A reader gets the column names and then every field's string form, row by row. */
  lemma ExportReadsBack(rows: seq<FlatRow>, text: real -> string)
    ensures ReadFile(RowsToCsv(rows, text)) == Some([FLAT_COLUMNS] + ShownGrid(Grid(rows, text)))
  {
    ColumnsArePlain();
    GridRowsFilled(rows, text);
    RoundTrip(FLAT_COLUMNS, Grid(rows, text));
  }

  function OrNone(x: Option<real>): set<real> {
    if x.Some? then {x.value} else {}
  }

  /** The numbers that a row prints. */
  function NumbersOf(r: FlatRow): set<real> {
    {r.candidateRank, r.score, r.segmentIndex, r.elapsedMs, r.candidateCount} + OrNone(r.queryDurationSec)
        + OrNone(r.tempoBpm)
  }

  function Numbers(rows: seq<FlatRow>): set<real> {
    if rows == [] then {} else NumbersOf(rows[0]) + Numbers(rows[1..])
  }

  /** Different numbers among `ns` print differently, and none prints as nothing. */
  ghost predicate Faithful(text: real -> string, ns: set<real>) {
    (forall x, y :: x in ns && y in ns && text(x) == text(y) ==> x == y) && (forall x :: x in ns ==> text(x) != "")
  }

  /** Every finite set of numbers can be printed faithfully. */
  lemma {:induction false} FaithfulExists(ns: set<real>) returns (text: real -> string)
    ensures Faithful(text, ns)
    ensures forall x :: x in ns ==> |text(x)| <= |ns|
  {
    if ns == {} {
      text := (x: real) => "";
    } else {
      var n := AnyOf(ns);
      var rest := FaithfulExists(ns - {n});
      var last := seq(|ns|, (i: nat) => '0');
      text := (x: real) => if x == n then last else rest(x);
      assert forall x :: x in ns ==> x == n || x in ns - {n};
    }
  }

  lemma OrBlankDetermines(x: Option<real>, y: Option<real>, text: real -> string)
    requires Faithful(text, OrNone(x) + OrNone(y)) && Shown(OrBlank(x, text)) == Shown(OrBlank(y, text))
    ensures x == y
  {
  }

  lemma QueryCells(r: FlatRow, r': FlatRow, text: real -> string)
    requires Faithful(text, NumbersOf(r) + NumbersOf(r'))
    requires forall i :: 0 <= i < 17 ==> Shown(Cells(r, text)[i]) == Shown(Cells(r', text)[i])
    ensures r.queryId == r'.queryId && r.timestampIso == r'.timestampIso && r.queryFilename == r'.queryFilename
    ensures r.queryDurationSec == r'.queryDurationSec && r.candidateRank == r'.candidateRank
  {
    var c, c' := Cells(r, text), Cells(r', text);
    assert Shown(c[0]) == Shown(c'[0]) && Shown(c[1]) == Shown(c'[1]) && Shown(c[2]) == Shown(c'[2]);
    assert Shown(c[3]) == Shown(c'[3]) && Shown(c[4]) == Shown(c'[4]);
    OrBlankDetermines(r.queryDurationSec, r'.queryDurationSec, text);
  }

  lemma TrackCells(r: FlatRow, r': FlatRow, text: real -> string)
    requires Faithful(text, NumbersOf(r) + NumbersOf(r'))
    requires forall i :: 0 <= i < 17 ==> Shown(Cells(r, text)[i]) == Shown(Cells(r', text)[i])
    ensures r.trackId == r'.trackId && r.title == r'.title && r.artist == r'.artist
    ensures r.album == r'.album && r.source == r'.source && r.score == r'.score
  {
    var c, c' := Cells(r, text), Cells(r', text);
    assert Shown(c[5]) == Shown(c'[5]) && Shown(c[6]) == Shown(c'[6]) && Shown(c[7]) == Shown(c'[7]);
    assert Shown(c[8]) == Shown(c'[8]) && Shown(c[9]) == Shown(c'[9]) && Shown(c[10]) == Shown(c'[10]);
  }

  lemma LastCells(r: FlatRow, r': FlatRow, text: real -> string)
    requires Faithful(text, NumbersOf(r) + NumbersOf(r'))
    requires forall i :: 0 <= i < 17 ==> Shown(Cells(r, text)[i]) == Shown(Cells(r', text)[i])
    ensures r.segmentIndex == r'.segmentIndex && r.tempoBpm == r'.tempoBpm && r.previewUrl == r'.previewUrl
    ensures r.artworkUrl == r'.artworkUrl && r.elapsedMs == r'.elapsedMs && r.candidateCount == r'.candidateCount
  {
    var c, c' := Cells(r, text), Cells(r', text);
    assert Shown(c[11]) == Shown(c'[11]) && Shown(c[12]) == Shown(c'[12]) && Shown(c[13]) == Shown(c'[13]);
    assert Shown(c[14]) == Shown(c'[14]) && Shown(c[15]) == Shown(c'[15]) && Shown(c[16]) == Shown(c'[16]);
    OrBlankDetermines(r.tempoBpm, r'.tempoBpm, text);
  }

  lemma {:induction false} ShownAt(row: seq<Value>, i: nat)
    requires i < |row|
    ensures |ShownRow(row)| == |row| && ShownRow(row)[i] == Shown(row[i])
  {
    if i > 0 {
      ShownAt(row[1..], i - 1);
    } else if |row| > 1 {
      ShownAt(row[1..], 0);
    }
  }

  lemma CellsDetermineRow(r: FlatRow, r': FlatRow, text: real -> string)
    requires Faithful(text, NumbersOf(r) + NumbersOf(r')) && ShownRow(Cells(r, text)) == ShownRow(Cells(r', text))
    ensures r == r'
  {
    var c, c' := Cells(r, text), Cells(r', text);
    forall i | 0 <= i < 17 ensures Shown(c[i]) == Shown(c'[i]) {
      ShownAt(c, i);
      ShownAt(c', i);
    }
    QueryCells(r, r', text);
    TrackCells(r, r', text);
    LastCells(r, r', text);
  }

  lemma {:induction false} ShownGridSize(rows: seq<FlatRow>, text: real -> string)
    ensures |ShownGrid(Grid(rows, text))| == |rows|
  {
    if rows != [] {
      ShownGridSplit(rows, text);
      ShownGridSize(rows[1..], text);
    }
  }

  lemma SameHeadSameTail(rows: seq<FlatRow>, rows': seq<FlatRow>)
    requires rows != [] && rows' != [] && rows[0] == rows'[0] && rows[1..] == rows'[1..]
    ensures rows == rows'
  {
    assert rows == [rows[0]] + rows[1..] && rows' == [rows'[0]] + rows'[1..];
  }

  lemma {:induction false} GridDeterminesRows(rows: seq<FlatRow>, rows': seq<FlatRow>, text: real -> string)
    requires Faithful(text, Numbers(rows) + Numbers(rows'))
             && ShownGrid(Grid(rows, text)) == ShownGrid(Grid(rows', text))
    ensures rows == rows'
  {
    ShownGridSize(rows, text);
    ShownGridSize(rows', text);
    if rows != [] {
      FaithfulLess(text, Numbers(rows) + Numbers(rows'), NumbersOf(rows[0]) + NumbersOf(rows'[0]));
      FaithfulLess(text, Numbers(rows) + Numbers(rows'), Numbers(rows[1..]) + Numbers(rows'[1..]));
      ShownGridSame(rows, rows', text);
      GridDeterminesRows(rows[1..], rows'[1..], text);
      CellsDetermineRow(rows[0], rows'[0], text);
      SameHeadSameTail(rows, rows');
    }
  }

  lemma ShownGridSplit(rows: seq<FlatRow>, text: real -> string)
    requires rows != []
    ensures ShownGrid(Grid(rows, text)) == [ShownRow(Cells(rows[0], text))] + ShownGrid(Grid(rows[1..], text))
  {
    assert Grid(rows, text)[1..] == Grid(rows[1..], text);
  }

  lemma ShownGridSame(rows: seq<FlatRow>, rows': seq<FlatRow>, text: real -> string)
    requires rows != [] && rows' != [] && ShownGrid(Grid(rows, text)) == ShownGrid(Grid(rows', text))
    ensures ShownRow(Cells(rows[0], text)) == ShownRow(Cells(rows'[0], text))
    ensures ShownGrid(Grid(rows[1..], text)) == ShownGrid(Grid(rows'[1..], text))
  {
    var g, g' := ShownGrid(Grid(rows, text)), ShownGrid(Grid(rows', text));
    ShownGridSplit(rows, text);
    ShownGridSplit(rows', text);
    assert g[0] == g'[0] && g[1..] == g'[1..];
  }

  lemma FaithfulLess(text: real -> string, ns: set<real>, fewer: set<real>)
    requires Faithful(text, ns) && fewer <= ns
    ensures Faithful(text, fewer)
  {
  }

  /**
   The printed file determines the rows: where the numbers that occur print faithfully, two exports
   are the same text exactly when their rows are equal.
   */
  lemma ExportDeterminesRows(rows: seq<FlatRow>, rows': seq<FlatRow>, text: real -> string)
    requires Faithful(text, Numbers(rows) + Numbers(rows'))
    ensures RowsToCsv(rows, text) == RowsToCsv(rows', text) <==> rows == rows'
  {
    ColumnsArePlain();
    GridRowsFilled(rows, text);
    GridRowsFilled(rows', text);
    if RowsToCsv(rows, text) == RowsToCsv(rows', text) {
      SameTextExactly(FLAT_COLUMNS, Grid(rows, text), Grid(rows', text));
      GridDeterminesRows(rows, rows', text);
    }
  }

  // ---------------------------------------------------------------- which column shows which field

  /** Column `i` of the file has this name and shows this text for the row. */
  ghost predicate Shows(r: FlatRow, text: real -> string, i: nat, column: string, shown: string) {
    i < 17 && FLAT_COLUMNS[i] == column && |Cells(r, text)| == 17 && Shown(Cells(r, text)[i]) == shown
  }

  function NumberOrBlank(x: Option<real>, text: real -> string): string {
    if x.Some? then text(x.value) else ""
  }

  /** The query's columns. */
  lemma QueryColumns(r: FlatRow, text: real -> string)
    ensures Shows(r, text, 0, "query_id", r.queryId)
    ensures Shows(r, text, 1, "timestamp_iso", r.timestampIso)
    ensures Shows(r, text, 2, "query_filename", r.queryFilename)
    ensures Shows(r, text, 3, "query_duration_sec", NumberOrBlank(r.queryDurationSec, text))
    ensures Shows(r, text, 15, "elapsed_ms", text(r.elapsedMs))
    ensures Shows(r, text, 16, "candidate_count", text(r.candidateCount))
  {
  }

  /** The candidate's columns. */
  lemma CandidateColumns(r: FlatRow, text: real -> string)
    ensures Shows(r, text, 4, "candidate_rank", text(r.candidateRank))
    ensures Shows(r, text, 5, "track_id", r.trackId)
    ensures Shows(r, text, 6, "title", r.title)
    ensures Shows(r, text, 7, "artist", r.artist)
    ensures Shows(r, text, 8, "album", r.album)
    ensures Shows(r, text, 9, "source", r.source)
  {
  }

  lemma ScoreColumns(r: FlatRow, text: real -> string)
    ensures Shows(r, text, 10, "score", text(r.score))
    ensures Shows(r, text, 11, "segment_index", text(r.segmentIndex))
    ensures Shows(r, text, 12, "tempo_bpm", NumberOrBlank(r.tempoBpm, text))
    ensures Shows(r, text, 13, "preview_url", r.previewUrl)
    ensures Shows(r, text, 14, "artwork_url", r.artworkUrl)
  {
  }

  /** A reader of the exported text finds every field of every row in the column of that name. */
  lemma FieldsReadBack(rows: seq<FlatRow>, text: real -> string, n: nat, i: nat, column: string, shown: string)
    requires n < |rows| && Shows(rows[n], text, i, column, shown)
    ensures var file := ReadFile(RowsToCsv(rows, text));
            && file.Some? && |file.value| == |rows| + 1
            && |file.value[0]| == |file.value[n + 1]| == 17
            && file.value[0][i] == column && file.value[n + 1][i] == shown
  {
    ExportReadsBack(rows, text);
    ShownGridSize(rows, text);
    GridRow(rows, text, n);
    ShownAt(Cells(rows[n], text), i);
  }

  lemma {:induction false} GridRow(rows: seq<FlatRow>, text: real -> string, n: nat)
    requires n < |rows|
    ensures n < |ShownGrid(Grid(rows, text))| && ShownGrid(Grid(rows, text))[n] == ShownRow(Cells(rows[n], text))
  {
    ShownGridSplit(rows, text);
    if n > 0 {
      GridRow(rows[1..], text, n - 1);
    }
  }

  // ---------------------------------------------------------------- flattening

  function OrEmpty(s: Option<string>): string {
    if s.Some? then s.value else ""
  }

  predicate NoResults(m: StoredMatch) {
    m.results.None? || m.results.value == []
  }

  /** The rows of one query. */
  function RowCount(m: StoredMatch): nat {
    if NoResults(m) then 1 else |m.results.value|
  }

  /** Where the rows of the query number `n` begin. */
  function Offset(matches: seq<StoredMatch>, n: nat): nat
    requires n <= |matches|
  {
    if n == 0 then 0 else Offset(matches, n - 1) + RowCount(matches[n - 1])
  }

  /** `row` carries the fields of the query `m`. */
  predicate OfQuery(row: FlatRow, m: StoredMatch, iso: int -> string) {
    && row.queryId == m.queryId && row.timestampIso == iso(m.ts)
    && row.queryFilename == (if m.filename.Some? then m.filename.value else "") && row.queryDurationSec == m.durationSec
    && row.elapsedMs == m.elapsedMs
  }

  /** The row of a query without results. */
  predicate IsPlaceholder(row: FlatRow, m: StoredMatch, iso: int -> string) {
    && OfQuery(row, m, iso)
    && row.candidateRank == 0.0 && row.candidateCount == 0.0
    && row.trackId == row.title == row.artist == row.album == row.source == row.previewUrl == row.artworkUrl == ""
    && row.score == row.segmentIndex == 0.0 && row.tempoBpm.None?
  }

  /** The row of the candidate number `i`. */
  predicate IsCandidate(row: FlatRow, m: StoredMatch, i: nat, iso: int -> string)
    requires !NoResults(m) && i < |m.results.value|
  {
    var r := m.results.value[i];
    && OfQuery(row, m, iso)
    && row.candidateRank == i as real + 1.0 && row.candidateCount == m.count
    && row.trackId == r.trackId && row.title == r.title && row.artist == r.artist && row.source == r.source
    && row.album == (if r.album.Some? then r.album.value else "")
    && row.previewUrl == (if r.previewUrl.Some? then r.previewUrl.value else "")
    && row.artworkUrl == (if r.artworkUrl.Some? then r.artworkUrl.value else "")
    && row.score == r.score && row.segmentIndex == r.segmentIndex && row.tempoBpm == r.tempoBpm
  }

  /** `rows` begins at `from` with the rows of `m`. */
  ghost predicate HoldsQuery(rows: seq<FlatRow>, from: nat, m: StoredMatch, iso: int -> string) {
    && from + RowCount(m) <= |rows|
    && if NoResults(m) then IsPlaceholder(rows[from], m, iso)
       else forall k :: from <= k < from + |m.results.value| ==> IsCandidate(rows[k], m, k - from, iso)
  }

  lemma StillHolds(rows: seq<FlatRow>, more: seq<FlatRow>, from: nat, m: StoredMatch, iso: int -> string)
    requires HoldsQuery(rows, from, m, iso) && |rows| <= |more| && more[..|rows|] == rows
    ensures HoldsQuery(more, from, m, iso)
  {
    assert forall k :: 0 <= k < |rows| ==> more[k] == rows[k];
  }

  /** The rows pushed for one query with results. */
  method PushCandidates(out: seq<FlatRow>, m: StoredMatch, stamp: string, ghost iso: int -> string)
    returns (r: seq<FlatRow>)
    requires !NoResults(m) && stamp == iso(m.ts)
    ensures |r| == |out| + RowCount(m) && r[..|out|] == out
    ensures HoldsQuery(r, |out|, m, iso)
  {
    r := out;
    var results := m.results.value;
    for i := 0 to |results|
      invariant |r| == |out| + i && r[..|out|] == out
      invariant forall k :: |out| <= k < |r| ==> IsCandidate(r[k], m, k - |out|, iso)
    {
      var c := results[i];
      var row := FlatRow(m.queryId, stamp, OrEmpty(m.filename), m.durationSec, i as real + 1.0,
                         c.trackId, c.title, c.artist, OrEmpty(c.album), c.source, c.score, c.segmentIndex,
                         c.tempoBpm, OrEmpty(c.previewUrl), OrEmpty(c.artworkUrl), m.elapsedMs, m.count);
      assert IsCandidate(row, m, i, iso);
      r := r + [row];
    }
  }

  method PushPlaceholder(out: seq<FlatRow>, m: StoredMatch, stamp: string, ghost iso: int -> string)
    returns (r: seq<FlatRow>)
    requires NoResults(m) && stamp == iso(m.ts)
    ensures |r| == |out| + RowCount(m) && r[..|out|] == out
    ensures HoldsQuery(r, |out|, m, iso)
  {
    r := out + [FlatRow(m.queryId, stamp, OrEmpty(m.filename), m.durationSec, 0.0,
                        "", "", "", "", "", 0.0, 0.0, None, "", "", m.elapsedMs, 0.0)];
  }

  /** The first `n` queries are laid out in `rows` one after another. */
  ghost predicate LaidOut(rows: seq<FlatRow>, matches: seq<StoredMatch>, n: nat, iso: int -> string)
    requires n <= |matches|
  {
    n == 0 || (LaidOut(rows, matches, n - 1, iso) && HoldsQuery(rows, Offset(matches, n - 1), matches[n - 1], iso))
  }

  /** Appending rows leaves the earlier queries where they are. */
  lemma {:induction false} KeepsEarlier(before: seq<FlatRow>, out: seq<FlatRow>, matches: seq<StoredMatch>, n: nat,
                                        iso: int -> string)
    requires n <= |matches| && |before| <= |out| && out[..|before|] == before
    requires LaidOut(before, matches, n, iso)
    ensures LaidOut(out, matches, n, iso)
  {
    if n > 0 {
      KeepsEarlier(before, out, matches, n - 1, iso);
      StillHolds(before, out, Offset(matches, n - 1), matches[n - 1], iso);
    }
  }

  lemma {:induction false} LaidOutAt(rows: seq<FlatRow>, matches: seq<StoredMatch>, n: nat, i: nat, iso: int -> string)
    requires i < n <= |matches| && LaidOut(rows, matches, n, iso)
    ensures HoldsQuery(rows, Offset(matches, i), matches[i], iso)
  {
    if i < n - 1 {
      LaidOutAt(rows, matches, n - 1, i, iso);
    }
  }

  /** `flattenMatches`: one row a candidate in order, and a placeholder row for a query without results. */
  method FlattenMatches(matches: seq<StoredMatch>, iso: int -> string) returns (out: seq<FlatRow>)
    ensures |out| == Offset(matches, |matches|)
    ensures LaidOut(out, matches, |matches|, iso)
  {
    out := [];
    for n := 0 to |matches|
      invariant |out| == Offset(matches, n)
      invariant LaidOut(out, matches, n, iso)
    {
      var m := matches[n];
      ghost var before := out;
      var stamp := iso(m.ts);
      if m.results.None? || |m.results.value| == 0 {
        out := PushPlaceholder(out, m, stamp, iso);
      } else {
        out := PushCandidates(out, m, stamp, iso);
      }
      KeepsEarlier(before, out, matches, n, iso);
    }
  }
}
