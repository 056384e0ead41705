/**
 The hash chain of the audit log and its verifier.

 A row is a JSON object; the digest function is a parameter (`h`), so nothing here assumes that it
 has no collisions.  Where the source promises tamper evidence, the theorem says: the files agree,
 or the files themselves contain two different inputs with one digest.
 */
module AuditChain {
  import opened Options

  datatype Value = Text(text: string) | Other(json: string)

  type Row = map<string, Value>

  /** `hash_entry`: digest of the previous digest and the row without its own digest. */
  type Hasher = (string, Row) -> string

  /** A line of the file: blank, not JSON, JSON but not an object, or an object. */
  datatype Line = Blank | Malformed | NonObject | Object(row: Row)

  const GENESIS: string := "0000000000000000000000000000000000000000000000000000000000000000"

  /** A field that is present and a string. */
  function Field(row: Row, name: string): Option<string> {
    if name in row && row[name].Text? then Some(row[name].text) else None
  }

  /** What the digest of a row covers besides the previous digest. */
  function Body(row: Row): Row {
    row - {"entry_hash"}
  }

  // ---------------------------------------------------------------- the meaning of a clean chain

  function TailDigest(rows: seq<Row>): string {
    if rows == [] then GENESIS
    else match Field(rows[|rows| - 1], "entry_hash") { case Some(d) => d case None => "" }
  }

  predicate Stamped(h: Hasher, row: Row, prev: string) {
    Field(row, "prev_hash") == Some(prev) && Field(row, "entry_hash") == Some(h(prev, Body(row)))
  }

  /** Every row names the digest of the row before it (the first one names genesis) and its own. */
  predicate CleanRows(h: Hasher, rows: seq<Row>) {
    forall i :: 0 <= i < |rows| ==> Stamped(h, rows[i], TailDigest(rows[..i]))
  }

  /** The non-blank lines of a file. */
  function Entries(lines: seq<Line>): seq<Line> {
    if lines == [] then []
    else
      var front := Entries(lines[..|lines| - 1]);
      if lines[|lines| - 1].Blank? then front else front + [lines[|lines| - 1]]
  }

  predicate AllObjects(es: seq<Line>) {
    forall i :: 0 <= i < |es| ==> es[i].Object?
  }

  function RowsOf(es: seq<Line>): (rows: seq<Row>)
    requires AllObjects(es)
    ensures |rows| == |es| && forall i :: 0 <= i < |es| ==> rows[i] == es[i].row
  {
    seq(|es|, i requires 0 <= i < |es| => es[i].row)
  }

  predicate CleanFile(h: Hasher, lines: seq<Line>) {
    var es := Entries(lines);
    AllObjects(es) && CleanRows(h, RowsOf(es))
  }

  lemma CleanRowsSnoc(h: Hasher, rows: seq<Row>, row: Row)
    ensures CleanRows(h, rows + [row]) <==> CleanRows(h, rows) && Stamped(h, row, TailDigest(rows))
  {
    var all := rows + [row];
    assert all[..|rows|] == rows;
    forall i | 0 <= i < |rows| ensures all[i] == rows[i] && all[..i] == rows[..i] {
    }
    if CleanRows(h, all) {
      assert Stamped(h, all[|rows|], TailDigest(all[..|rows|]));
      forall i | 0 <= i < |rows| ensures Stamped(h, rows[i], TailDigest(rows[..i])) {
        assert Stamped(h, all[i], TailDigest(all[..i]));
      }
    }
  }

  // ---------------------------------------------------------------- the verifier

  datatype Reason = BadJson | MissingField | PrevMismatch | DigestMismatch

  datatype Scan = Scan(
    entries: nat, valid: nat, headPrev: Option<string>, last: string, firstBad: Option<nat>, reason: Option<Reason>)

  datatype FileResult = FileResult(
    entries: nat, valid: nat, firstBad: Option<nat>, reason: Option<Reason>,
    headPrev: Option<string>, tail: Option<string>)

  /** A non-object JSON line makes the verifier raise. */
  datatype Verdict = Raised | Report(result: FileResult)

  const START := Scan(0, 0, None, GENESIS, None, None)

  function Bad(s: Scan, lineno: nat, why: Reason): Scan {
    if s.firstBad.None? then s.(firstBad := Some(lineno), reason := Some(why)) else s
  }

  /** One iteration of the verifier's loop over a line that is not `NonObject`. */
  function Step(h: Hasher, s: Scan, line: Line, lineno: nat): Scan {
    match line
    case Blank => s
    case Malformed => Bad(s.(entries := s.entries + 1), lineno, BadJson)
    case NonObject => s
    case Object(row) =>
      var t := s.(entries := s.entries + 1);
      var prev, digest := Field(row, "prev_hash"), Field(row, "entry_hash");
      if prev.None? || digest.None? then Bad(t, lineno, MissingField)
      else
        var u := if t.entries == 1 then t.(headPrev := prev) else t;
        if prev.value != u.last then Bad(u, lineno, PrevMismatch).(last := digest.value)
        else if h(prev.value, Body(row)) != digest.value then Bad(u, lineno, DigestMismatch).(last := digest.value)
        else u.(valid := u.valid + 1, last := digest.value)
  }

  function ScanFile(h: Hasher, lines: seq<Line>): Scan {
    if lines == [] then START
    else Step(h, ScanFile(h, lines[..|lines| - 1]), lines[|lines| - 1], |lines|)
  }

  predicate HasNonObject(lines: seq<Line>) {
    exists i :: 0 <= i < |lines| && lines[i].NonObject?
  }

  function Summary(s: Scan): FileResult {
    FileResult(s.entries, s.valid, s.firstBad, s.reason, s.headPrev, if s.entries > 0 then Some(s.last) else None)
  }

  function VerdictOf(h: Hasher, file: Option<seq<Line>>): Verdict {
    if file.None? then Report(FileResult(0, 0, None, None, None, None))
    else if HasNonObject(file.value) then Raised
    else Report(Summary(ScanFile(h, file.value)))
  }

  /** `_verify_one`. */
  method VerifyOne(h: Hasher, file: Option<seq<Line>>) returns (v: Verdict)
    ensures v == VerdictOf(h, file)
  {
    if file.None? {
      return Report(FileResult(0, 0, None, None, None, None));
    }
    var lines := file.value;
    var entries, valid, headPrev, last := 0, 0, None, GENESIS;
    var firstBad: Option<nat>, reason: Option<Reason> := None, None;
    var n := 0;
    while n < |lines|
      invariant 0 <= n <= |lines|
      invariant forall i :: 0 <= i < n ==> !lines[i].NonObject?
      invariant Scan(entries, valid, headPrev, last, firstBad, reason) == ScanFile(h, lines[..n])
    {
      var line := lines[n];
      assert lines[..n + 1][..n] == lines[..n];
      n := n + 1;
      if line.Blank? {
        continue;
      }
      entries := entries + 1;
      if line.Malformed? {
        if firstBad.None? {
          firstBad, reason := Some(n), Some(BadJson);
        }
        continue;
      }
      if line.NonObject? {
        return Raised;
      }
      var prev, digest := Field(line.row, "prev_hash"), Field(line.row, "entry_hash");
      if prev.None? || digest.None? {
        if firstBad.None? {
          firstBad, reason := Some(n), Some(MissingField);
        }
        continue;
      }
      if entries == 1 {
        headPrev := prev;
      }
      if prev.value != last {
        if firstBad.None? {
          firstBad, reason := Some(n), Some(PrevMismatch);
        }
        last := digest.value;
        continue;
      }
      if h(prev.value, Body(line.row)) != digest.value {
        if firstBad.None? {
          firstBad, reason := Some(n), Some(DigestMismatch);
        }
        last := digest.value;
        continue;
      }
      valid := valid + 1;
      last := digest.value;
    }
    assert lines[..n] == lines;
    v := Report(FileResult(entries, valid, firstBad, reason, headPrev, if entries > 0 then Some(last) else None));
  }

  /** The digest the next row must name as its predecessor. */
  function FileTail(lines: seq<Line>): string
    requires AllObjects(Entries(lines))
  {
    TailDigest(RowsOf(Entries(lines)))
  }

  lemma EntriesSnoc(front: seq<Line>, line: Line)
    ensures Entries(front + [line]) == if line.Blank? then Entries(front) else Entries(front) + [line]
  {
    assert (front + [line])[..|front|] == front;
  }

  lemma AllObjectsSnoc(es: seq<Line>, line: Line)
    ensures AllObjects(es + [line]) <==> AllObjects(es) && line.Object?
    ensures AllObjects(es + [line]) ==> RowsOf(es + [line]) == RowsOf(es) + [line.row]
  {
    var all := es + [line];
    assert all[|es|] == line;
    if AllObjects(all) {
      assert forall i :: 0 <= i < |es| ==> es[i] == all[i];
    }
  }

  /** Does one more line keep a file with this tail clean, and what is the tail then? */
  predicate Extends(h: Hasher, line: Line, tail: string) {
    line.Blank? || (line.Object? && Stamped(h, line.row, tail))
  }

  function NextTail(line: Line, tail: string): string {
    if line.Object? && Field(line.row, "entry_hash").Some? then Field(line.row, "entry_hash").value else tail
  }

  lemma CleanFileSnoc(h: Hasher, front: seq<Line>, line: Line)
    ensures CleanFile(h, front + [line]) <==> CleanFile(h, front) && Extends(h, line, FileTail(front))
    ensures CleanFile(h, front + [line]) ==> FileTail(front + [line]) == NextTail(line, FileTail(front))
  {
    var es := Entries(front);
    EntriesSnoc(front, line);
    if !line.Blank? {
      AllObjectsSnoc(es, line);
      if AllObjects(es) && line.Object? {
        CleanRowsSnoc(h, RowsOf(es), line.row);
      }
    }
  }

  lemma StampedExactly(h: Hasher, row: Row, tail: string)
    ensures Stamped(h, row, tail)
       <==> "prev_hash" in row && row["prev_hash"] == Text(tail)
            && "entry_hash" in row && row["entry_hash"] == Text(h(tail, row - {"entry_hash"}))
  {
  }

  /** `tail` is the digest of the last entry, or genesis without entries. */
  ghost predicate EndsIn(lines: seq<Line>, tail: string) {
    var es := Entries(lines);
    if es == [] then tail == GENESIS
    else
      var last := es[|es| - 1];
      last.Object? && "entry_hash" in last.row && last.row["entry_hash"] == Text(tail)
  }

  lemma CleanEndsIn(h: Hasher, lines: seq<Line>)
    requires CleanFile(h, lines)
    ensures EndsIn(lines, FileTail(lines))
  {
    var es := Entries(lines);
    if es != [] {
      CleanHasDigests(h, RowsOf(es), |es| - 1);
    }
  }

  lemma OneEnd(lines: seq<Line>, a: string, b: string)
    requires EndsIn(lines, a) && EndsIn(lines, b)
    ensures a == b
  {
  }

  /**
   One more row keeps a clean file clean exactly when it names the digest of the last entry, or genesis in a
   file without entries, and its own digest is that of this name and all its other fields.
   */
  lemma LinkExactly(h: Hasher, front: seq<Line>, row: Row, tail: string)
    requires CleanFile(h, front) && EndsIn(front, tail)
    ensures CleanFile(h, front + [Object(row)])
            <==> "prev_hash" in row && row["prev_hash"] == Text(tail)
                 && "entry_hash" in row && row["entry_hash"] == Text(h(tail, row - {"entry_hash"}))
  {
    CleanEndsIn(h, front);
    OneEnd(front, tail, FileTail(front));
    CleanFileSnoc(h, front, Object(row));
    StampedExactly(h, row, tail);
  }

  lemma NoNonObjectFront(lines: seq<Line>)
    requires lines != [] && !HasNonObject(lines)
    ensures !HasNonObject(lines[..|lines| - 1]) && !lines[|lines| - 1].NonObject?
  {
    var front := lines[..|lines| - 1];
    assert forall i :: 0 <= i < |front| ==> front[i] == lines[i];
  }

  /** The counters agree with the flag, and an unflagged scan has read a clean chain up to its tail. */
  ghost predicate ScanMeans(h: Hasher, s: Scan, lines: seq<Line>) {
    && s.entries == |Entries(lines)|
    && s.valid <= s.entries
    && (s.firstBad.None? <==> s.valid == s.entries)
    && (s.firstBad.None? <==> s.reason.None?)
    && (s.firstBad.None? <==> CleanFile(h, lines))
    && (CleanFile(h, lines) ==> s.last == FileTail(lines))
    && HeadMeans(s)
  }

  /** An unflagged scan of a non-empty file started at genesis. */
  predicate HeadMeans(s: Scan) {
    && (s.entries == 0 ==> s.last == GENESIS)
    && (s.entries > 0 && s.firstBad.None? ==> s.headPrev == Some(GENESIS))
  }

  /**
   The scan is exact: it counts the non-blank lines, `valid` reaches `entries` exactly when no line
   was flagged, and no line is flagged exactly when the file is a clean chain from genesis.
   */
  lemma {:induction false} ScanExact(h: Hasher, lines: seq<Line>)
    requires !HasNonObject(lines)
    ensures ScanMeans(h, ScanFile(h, lines), lines)
  {
    if lines != [] {
      var n := |lines| - 1;
      NoNonObjectFront(lines);
      ScanExact(h, lines[..n]);
      assert lines == lines[..n] + [lines[n]];
      CleanFileSnoc(h, lines[..n], lines[n]);
      EntriesSnoc(lines[..n], lines[n]);
      StepMeans(h, ScanFile(h, lines[..n]), lines[..n], lines[n]);
    }
  }

  lemma StepMeans(h: Hasher, s: Scan, front: seq<Line>, line: Line)
    requires ScanMeans(h, s, front) && !line.NonObject?
    ensures ScanMeans(h, Step(h, s, line, |front| + 1), front + [line])
  {
    CleanFileSnoc(h, front, line);
    EntriesSnoc(front, line);
    StepCounts(h, s, line, |front| + 1);
  }

  /** One step keeps the flag and the counters in agreement, and flags exactly what does not extend the tail. */
  lemma StepCounts(h: Hasher, s: Scan, line: Line, lineno: nat)
    requires !line.NonObject? && s.valid <= s.entries
    requires (s.firstBad.None? <==> s.valid == s.entries) && (s.firstBad.None? <==> s.reason.None?) && HeadMeans(s)
    ensures var t := Step(h, s, line, lineno);
            && t.valid <= t.entries == s.entries + (if line.Blank? then 0 else 1)
            && (t.firstBad.None? <==> t.valid == t.entries)
            && (t.firstBad.None? <==> t.reason.None?)
            && (t.firstBad.None? <==> s.firstBad.None? && Extends(h, line, s.last))
            && (t.firstBad.None? ==> t.last == NextTail(line, s.last))
            && HeadMeans(t)
  {
  }

  /** The first flagged line is the place where the chain stops being clean. */
  lemma {:induction false} FirstBadLocates(h: Hasher, lines: seq<Line>, n: nat)
    requires !HasNonObject(lines)
    ensures ScanFile(h, lines).firstBad == Some(n)
            <==> 1 <= n <= |lines| && CleanFile(h, lines[..n - 1]) && !CleanFile(h, lines[..n])
  {
    if lines != [] {
      var k := |lines| - 1;
      var front := lines[..k];
      NoNonObjectFront(lines);
      FirstBadLocates(h, front, n);
      ScanExact(h, front);
      ScanExact(h, lines);
      assert lines[..k + 1] == lines;
      if 1 <= n <= k {
        assert front[..n - 1] == lines[..n - 1] && front[..n] == lines[..n];
        if CleanFile(h, lines[..n - 1]) && !CleanFile(h, lines[..n]) {
          assert ScanFile(h, front).firstBad == Some(n);
        }
      }
      FirstBadSticks(h, ScanFile(h, front), lines[k], |lines|);
      if ScanFile(h, front).firstBad.Some? {
        assert !CleanFile(h, front);
      }
    }
  }

  lemma FirstBadSticks(h: Hasher, s: Scan, line: Line, lineno: nat)
    ensures var t := Step(h, s, line, lineno);
            if s.firstBad.Some? then t.firstBad == s.firstBad && t.reason == s.reason
            else t.firstBad.None? || t.firstBad == Some(lineno)
  {
  }

  /** The places of the lines that are not blank. */
  function Filled(lines: seq<Line>): set<nat> {
    set i: nat | i < |lines| && lines[i] != Blank
  }

  /** The report counts the lines that are not blank. */
  lemma {:induction false} EntriesCounted(lines: seq<Line>)
    ensures |Entries(lines)| == |Filled(lines)|
  {
    if lines == [] {
      assert Filled(lines) == {};
    } else {
      var n := |lines| - 1;
      EntriesCounted(lines[..n]);
      assert Filled(lines) == Filled(lines[..n]) + if lines[n] != Blank then {n} else {};
    }
  }

  lemma {:induction false} FilledIsEntry(lines: seq<Line>, i: nat)
    requires i < |lines| && lines[i] != Blank
    ensures lines[i] in Entries(lines)
  {
    if i < |lines| - 1 {
      FilledIsEntry(lines[..|lines| - 1], i);
    }
  }

  /** In an unflagged file every line that is not blank is an object with both digests. */
  lemma UnflaggedLine(h: Hasher, lines: seq<Line>, i: nat)
    requires i < |lines| && lines[i] != Blank && !HasNonObject(lines) && ScanFile(h, lines).firstBad.None?
    ensures lines[i].Object?
    ensures Field(lines[i].row, "prev_hash").Some? && Field(lines[i].row, "entry_hash").Some?
  {
    ScanExact(h, lines);
    FilledIsEntry(lines, i);
    var es := Entries(lines);
    var k :| 0 <= k < |es| && es[k] == lines[i];
    CleanHasDigests(h, RowsOf(es), k);
  }

  lemma CleanHasDigests(h: Hasher, rows: seq<Row>, k: nat)
    requires CleanRows(h, rows) && k < |rows|
    ensures Field(rows[k], "prev_hash").Some? && Field(rows[k], "entry_hash").Some?
  {
    assert Stamped(h, rows[k], TailDigest(rows[..k]));
  }

  /** What is wrong with a line that does not extend a chain with this tail. */
  ghost predicate Explains(h: Hasher, line: Line, tail: string, why: Reason) {
    match why
    case BadJson => line.Malformed?
    case MissingField => line.Object? && !(Field(line.row, "prev_hash").Some? && Field(line.row, "entry_hash").Some?)
    case PrevMismatch => line.Object? && exists p: string :: p != tail && Field(line.row, "prev_hash") == Some(p)
    case DigestMismatch =>
      && line.Object? && Field(line.row, "prev_hash") == Some(tail)
      && exists d: string :: d != h(tail, line.row - {"entry_hash"}) && Field(line.row, "entry_hash") == Some(d)
  }

  /** The step that first flags a line gives the reason, seen from the tail of the chain in front of it. */
  lemma FlaggedFor(h: Hasher, s: Scan, line: Line, lineno: nat)
    requires !line.NonObject? && s.firstBad.None? && Step(h, s, line, lineno).firstBad.Some?
    ensures Step(h, s, line, lineno).reason.Some? && Explains(h, line, s.last, Step(h, s, line, lineno).reason.value)
  {
  }

  /** The scan `s` of `lines` flags line `n` and explains it. */
  ghost predicate ExplainsAt(h: Hasher, s: Scan, lines: seq<Line>, n: nat) {
    && 1 <= n <= |lines| && AllObjects(Entries(lines[..n - 1])) && s.reason.Some?
    && Explains(h, lines[n - 1], FileTail(lines[..n - 1]), s.reason.value)
  }

  lemma StillExplained(h: Hasher, s: Scan, t: Scan, lines: seq<Line>, n: nat)
    requires lines != [] && ExplainsAt(h, s, lines[..|lines| - 1], n) && t.reason == s.reason
    ensures ExplainsAt(h, t, lines, n)
  {
    assert lines[..|lines| - 1][..n - 1] == lines[..n - 1];
  }

  lemma NewlyExplained(h: Hasher, s: Scan, t: Scan, lines: seq<Line>)
    requires lines != [] && ScanMeans(h, s, lines[..|lines| - 1]) && s.firstBad.None?
    requires !lines[|lines| - 1].NonObject?
    requires t == Step(h, s, lines[|lines| - 1], |lines|) && t.firstBad.Some?
    ensures ExplainsAt(h, t, lines, |lines|)
  {
    FlaggedFor(h, s, lines[|lines| - 1], |lines|);
  }

  /** The reported reason is what is wrong with the reported line. */
  lemma {:induction false} ReasonExplains(h: Hasher, lines: seq<Line>, n: nat)
    requires !HasNonObject(lines) && ScanFile(h, lines).firstBad == Some(n)
    ensures ExplainsAt(h, ScanFile(h, lines), lines, n)
  {
    var front, last := lines[..|lines| - 1], lines[|lines| - 1];
    var s, t := ScanFile(h, front), ScanFile(h, lines);
    NoNonObjectFront(lines);
    FirstBadSticks(h, s, last, |lines|);
    if s.firstBad.Some? {
      ReasonExplains(h, front, n);
      StillExplained(h, s, t, lines, n);
    } else {
      ScanExact(h, front);
      NewlyExplained(h, s, t, lines);
    }
  }

  /** The head that the verifier reports is the `prev_hash` of the first entry, when that has both digests. */
  lemma {:induction false} HeadIsFirst(h: Hasher, lines: seq<Line>)
    requires !HasNonObject(lines)
    ensures ScanFile(h, lines).entries == |Entries(lines)|
    ensures ScanFile(h, lines).headPrev ==
      if Entries(lines) != [] && Entries(lines)[0].Object? && Field(Entries(lines)[0].row, "entry_hash").Some?
      then Field(Entries(lines)[0].row, "prev_hash") else None
  {
    if lines != [] {
      NoNonObjectFront(lines);
      HeadIsFirst(h, lines[..|lines| - 1]);
    }
  }

  // ---------------------------------------------------------------- tamper evidence

  /** Rows `a[i]` and `b[j]` are two different hash inputs with one digest. */
  ghost predicate Collide(h: Hasher, a: seq<Row>, b: seq<Row>, i: nat, j: nat)
    requires i < |a| && j < |b|
  {
    var p, q := TailDigest(a[..i]), TailDigest(b[..j]);
    (p != q || Body(a[i]) != Body(b[j])) && h(p, Body(a[i])) == h(q, Body(b[j]))
  }

  /** Row `a[i]` hashes to the genesis constant. */
  ghost predicate HitsGenesis(h: Hasher, a: seq<Row>, i: nat)
    requires i < |a|
  {
    h(TailDigest(a[..i]), Body(a[i])) == GENESIS
  }

  /** The two files exhibit a collision of `h`, or an input that hashes to genesis. */
  ghost predicate Clash(h: Hasher, a: seq<Row>, b: seq<Row>) {
    || (exists i, j :: 0 <= i < |a| && 0 <= j < |b| && Collide(h, a, b, i, j))
    || (exists i :: 0 <= i < |a| && HitsGenesis(h, a, i))
    || (exists j :: 0 <= j < |b| && HitsGenesis(h, b, j))
  }

  lemma ClashGrows(h: Hasher, a: seq<Row>, b: seq<Row>, m: nat, n: nat)
    requires m <= |a| && n <= |b| && Clash(h, a[..m], b[..n])
    ensures Clash(h, a, b)
  {
    var c, d := a[..m], b[..n];
    assert forall i :: 0 <= i <= m ==> c[..i] == a[..i];
    assert forall j :: 0 <= j <= n ==> d[..j] == b[..j];
    if i, j :| 0 <= i < |c| && 0 <= j < |d| && Collide(h, c, d, i, j) {
      assert Collide(h, a, b, i, j);
    } else if i :| 0 <= i < |c| && HitsGenesis(h, c, i) {
      assert HitsGenesis(h, a, i);
    } else {
      var j :| 0 <= j < |d| && HitsGenesis(h, d, j);
      assert HitsGenesis(h, b, j);
    }
  }

  lemma CleanPrefix(h: Hasher, rows: seq<Row>, n: nat)
    requires CleanRows(h, rows) && n <= |rows|
    ensures CleanRows(h, rows[..n])
  {
    forall i | 0 <= i < n ensures Stamped(h, rows[..n][i], TailDigest(rows[..n][..i])) {
      assert rows[..n][..i] == rows[..i];
    }
  }

  /** A row is determined by what its digest covers together with the digest. */
  lemma SameBodySameRow(r: Row, s: Row)
    requires Body(r) == Body(s) && Field(r, "entry_hash").Some? && Field(r, "entry_hash") == Field(s, "entry_hash")
    ensures r == s
  {
    forall k | k in r ensures k in s && s[k] == r[k] {
      if k != "entry_hash" {
        assert k in Body(r);
        assert k in Body(s) && Body(s)[k] == Body(r)[k];
      }
    }
    forall k | k in s ensures k in r {
      if k != "entry_hash" {
        assert k in Body(s);
      }
    }
  }

  /** A clean file that reports the genesis constant is empty, or hits it. */
  lemma GenesisTail(h: Hasher, a: seq<Row>)
    requires CleanRows(h, a) && TailDigest(a) == GENESIS && a != []
    ensures HitsGenesis(h, a, |a| - 1)
  {
    assert Stamped(h, a[|a| - 1], TailDigest(a[..|a| - 1]));
  }

  /** Last rows with one digest cover the same input, or collide. */
  lemma LastRowsCollide(h: Hasher, a: seq<Row>, b: seq<Row>)
    requires CleanRows(h, a) && CleanRows(h, b) && a != [] && b != [] && TailDigest(a) == TailDigest(b)
    ensures var m, n := |a| - 1, |b| - 1;
            (TailDigest(a[..m]) == TailDigest(b[..n]) && Body(a[m]) == Body(b[n])) || Collide(h, a, b, m, n)
    ensures Field(a[|a| - 1], "entry_hash").Some? && Field(a[|a| - 1], "entry_hash") == Field(b[|b| - 1], "entry_hash")
  {
    assert Stamped(h, a[|a| - 1], TailDigest(a[..|a| - 1]));
    assert Stamped(h, b[|b| - 1], TailDigest(b[..|b| - 1]));
  }

  /** The step from the files without their last rows to the files. */
  lemma SameLastRows(h: Hasher, a: seq<Row>, b: seq<Row>, m: nat, n: nat)
    requires |a| == m + 1 && |b| == n + 1 && a[m] == b[n]
    requires a[..m] == b[..n] || Clash(h, a[..m], b[..n])
    ensures a == b || Clash(h, a, b)
  {
    if a[..m] == b[..n] {
      assert a == a[..m] + [a[m]] && b == b[..n] + [b[n]];
    } else {
      ClashGrows(h, a, b, m, n);
    }
  }

  /**
   Two clean files with the same tail digest hold the same rows, or the files themselves exhibit a
   collision (or an input hashing to genesis).
   */
  lemma {:induction false} SameTailSameRows(h: Hasher, a: seq<Row>, b: seq<Row>)
    requires CleanRows(h, a) && CleanRows(h, b) && TailDigest(a) == TailDigest(b)
    ensures a == b || Clash(h, a, b)
  {
    if a != [] && b != [] {
      var m, n := |a| - 1, |b| - 1;
      LastRowsCollide(h, a, b);
      if !Collide(h, a, b, m, n) {
        CleanPrefix(h, a, m);
        CleanPrefix(h, b, n);
        SameTailSameRows(h, a[..m], b[..n]);
        SameBodySameRow(a[m], b[n]);
        SameLastRows(h, a, b, m, n);
      }
    } else if a != [] {
      GenesisTail(h, a);
    } else if b != [] {
      GenesisTail(h, b);
    }
  }

  /** Any change to a clean file breaks verification, or changes the tail digest, or needs a clash. */
  lemma TamperingShows(h: Hasher, rows: seq<Row>, tampered: seq<Row>)
    requires CleanRows(h, rows) && tampered != rows
    ensures !CleanRows(h, tampered) || TailDigest(tampered) != TailDigest(rows) || Clash(h, rows, tampered)
  {
    if CleanRows(h, tampered) && TailDigest(tampered) == TailDigest(rows) {
      SameTailSameRows(h, rows, tampered);
    }
  }

  /** A change that leaves the last row as it was breaks verification itself, or needs a clash. */
  lemma TamperingBeforeTheTailBreaks(h: Hasher, rows: seq<Row>, tampered: seq<Row>)
    requires CleanRows(h, rows) && tampered != rows && rows != [] && tampered != []
    requires tampered[|tampered| - 1] == rows[|rows| - 1]
    ensures !CleanRows(h, tampered) || Clash(h, rows, tampered)
  {
    TamperingShows(h, rows, tampered);
  }

  /** Cutting off the tail keeps the file clean; only the tail digest gives it away. */
  lemma TruncationShowsOnlyInTheDigest(h: Hasher, rows: seq<Row>, n: nat)
    requires CleanRows(h, rows) && n < |rows|
    ensures CleanRows(h, rows[..n])
    ensures TailDigest(rows[..n]) != TailDigest(rows) || Clash(h, rows, rows[..n])
  {
    CleanPrefix(h, rows, n);
    assert |rows[..n]| != |rows|;
    TamperingShows(h, rows, rows[..n]);
  }

  // ---------------------------------------------------------------- the same about files and reports

  lemma {:induction false} CleanHasNoNonObject(h: Hasher, lines: seq<Line>)
    requires CleanFile(h, lines)
    ensures !HasNonObject(lines)
  {
    if lines != [] {
      var n := |lines| - 1;
      assert lines == lines[..n] + [lines[n]];
      CleanFileSnoc(h, lines[..n], lines[n]);
      CleanHasNoNonObject(h, lines[..n]);
      forall i | 0 <= i < |lines| ensures !lines[i].NonObject? {
        assert i < n ==> lines[i] == lines[..n][i];
      }
    }
  }

  /** The verifier reports on the file and flags no line. */
  predicate Unflagged(h: Hasher, lines: seq<Line>) {
    var v := VerdictOf(h, Some(lines));
    v.Report? && v.result.firstBad.None?
  }

  /** The tail digest that the verifier reports. */
  function ReportedTail(h: Hasher, lines: seq<Line>): Option<string>
    requires Unflagged(h, lines)
  {
    VerdictOf(h, Some(lines)).result.tail
  }

  /** A file is unflagged exactly when it is a clean chain, and then its report ends in the tail of the chain. */
  lemma UnflaggedExactly(h: Hasher, lines: seq<Line>)
    ensures Unflagged(h, lines) <==> CleanFile(h, lines)
    ensures Unflagged(h, lines) ==>
              ReportedTail(h, lines) == if Entries(lines) == [] then None else Some(FileTail(lines))
  {
    if CleanFile(h, lines) {
      CleanHasNoNonObject(h, lines);
    }
    if !HasNonObject(lines) {
      ScanExact(h, lines);
    }
  }

  /** The rows of two files exhibit a clash. */
  ghost predicate FilesClash(h: Hasher, f: seq<Line>, g: seq<Line>) {
    && AllObjects(Entries(f)) && AllObjects(Entries(g))
    && Clash(h, RowsOf(Entries(f)), RowsOf(Entries(g)))
  }

  lemma SameRowsSameEntries(a: seq<Line>, b: seq<Line>)
    requires AllObjects(a) && AllObjects(b)
    ensures RowsOf(a) == RowsOf(b) <==> a == b
  {
    if RowsOf(a) == RowsOf(b) {
      forall i | 0 <= i < |a| ensures a[i] == b[i] {
        assert RowsOf(a)[i] == RowsOf(b)[i];
      }
    }
  }

  /**
   Two audit files that both verify and report the same tail digest hold the same sequence of
   entries, or the files themselves yield two inputs with one digest or an input hashing to genesis.
   */
  lemma SameReportSameEntries(h: Hasher, f: seq<Line>, g: seq<Line>)
    requires Unflagged(h, f) && Unflagged(h, g) && ReportedTail(h, f) == ReportedTail(h, g)
    ensures Entries(f) == Entries(g) || FilesClash(h, f, g)
  {
    UnflaggedExactly(h, f);
    UnflaggedExactly(h, g);
    SameTailSameRows(h, RowsOf(Entries(f)), RowsOf(Entries(g)));
    SameRowsSameEntries(Entries(f), Entries(g));
  }

  /** Any edit, insertion, deletion or reordering is flagged, or changes the reported tail, or needs a clash. */
  lemma TamperedFileShows(h: Hasher, f: seq<Line>, g: seq<Line>)
    requires Unflagged(h, f) && Entries(g) != Entries(f)
    ensures !Unflagged(h, g) || ReportedTail(h, g) != ReportedTail(h, f) || FilesClash(h, f, g)
  {
    if Unflagged(h, g) && ReportedTail(h, g) == ReportedTail(h, f) {
      SameReportSameEntries(h, f, g);
    }
  }

  ghost predicate SameLast<T>(a: seq<T>, b: seq<T>) {
    a != [] && b != [] && a[|a| - 1] == b[|b| - 1]
  }

  lemma SameLastClash(h: Hasher, a: seq<Line>, b: seq<Line>)
    requires AllObjects(a) && AllObjects(b) && CleanRows(h, RowsOf(a)) && CleanRows(h, RowsOf(b)) && a != b
    requires SameLast(a, b)
    ensures Clash(h, RowsOf(a), RowsOf(b))
  {
    SameLastRow(a, b);
    RowsClash(h, RowsOf(a), RowsOf(b));
  }

  /** Different entries with the same last one are different rows with the same last one. */
  lemma SameLastRow(a: seq<Line>, b: seq<Line>)
    requires AllObjects(a) && AllObjects(b) && a != b && SameLast(a, b)
    ensures RowsOf(a) != RowsOf(b) && SameLast(RowsOf(a), RowsOf(b))
  {
    SameRowsSameEntries(a, b);
    RowsLast(a);
    RowsLast(b);
  }

  lemma RowsLast(a: seq<Line>)
    requires AllObjects(a) && a != []
    ensures RowsOf(a) != [] && RowsOf(a)[|RowsOf(a)| - 1] == a[|a| - 1].row
  {
  }

  lemma RowsClash(h: Hasher, x: seq<Row>, y: seq<Row>)
    requires CleanRows(h, x) && CleanRows(h, y) && x != y && SameLast(x, y)
    ensures Clash(h, x, y)
  {
    TamperingBeforeTheTailBreaks(h, x, y);
  }

  /** A change that leaves the last entry as it was is flagged, or needs a clash. */
  lemma TamperedBeforeTheTailIsFlagged(h: Hasher, f: seq<Line>, g: seq<Line>)
    requires Unflagged(h, f) && Entries(g) != Entries(f) && SameLast(Entries(f), Entries(g))
    ensures !Unflagged(h, g) || FilesClash(h, f, g)
  {
    UnflaggedExactly(h, f);
    UnflaggedExactly(h, g);
    if CleanFile(h, g) {
      SameLastClash(h, Entries(f), Entries(g));
    }
  }

  lemma {:induction false} EntriesConcat(f: seq<Line>, g: seq<Line>)
    ensures Entries(f + g) == Entries(f) + Entries(g)
  {
    if g == [] {
      assert f + g == f;
    } else {
      var n := |g| - 1;
      assert (f + g)[..|f + g| - 1] == f + g[..n];
      EntriesConcat(f, g[..n]);
    }
  }

  lemma RowsOfPrefix(a: seq<Line>, b: seq<Line>)
    requires AllObjects(a + b)
    ensures AllObjects(a) && RowsOf(a) == RowsOf(a + b)[..|a|]
  {
    var all := a + b;
    assert forall i :: 0 <= i < |a| ==> a[i] == all[i];
  }

  lemma CutEntries(h: Hasher, a: seq<Line>, b: seq<Line>)
    requires AllObjects(a + b) && CleanRows(h, RowsOf(a + b)) && b != []
    ensures AllObjects(a) && CleanRows(h, RowsOf(a))
    ensures TailDigest(RowsOf(a)) != TailDigest(RowsOf(a + b)) || Clash(h, RowsOf(a + b), RowsOf(a))
  {
    RowsOfPrefix(a, b);
    TruncationShowsOnlyInTheDigest(h, RowsOf(a + b), |a|);
  }

  /** Cutting lines off the end leaves an unflagged file; only the reported tail gives it away. */
  lemma CutFileShowsOnlyInTheTail(h: Hasher, kept: seq<Line>, cut: seq<Line>)
    requires Unflagged(h, kept + cut) && Entries(cut) != []
    ensures Unflagged(h, kept)
    ensures ReportedTail(h, kept) != ReportedTail(h, kept + cut) || FilesClash(h, kept + cut, kept)
  {
    EntriesConcat(kept, cut);
    UnflaggedExactly(h, kept + cut);
    CutEntries(h, Entries(kept), Entries(cut));
    UnflaggedExactly(h, kept);
  }
}
