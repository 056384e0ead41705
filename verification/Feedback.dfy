/**
 Feedback rows, the preview that selects some of them and the deletion that purges them.  The two
 apply the same filters with separately written code; this module says exactly when they agree.
 */
module Feedback {
  import opened Options

  /** A Python float or int. */
  datatype Number = Real(x: real) | PosInf | NegInf | NaN

  /** `a < b`. */
  predicate Lt(a: Number, b: Number) {
    if a.NaN? || b.NaN? then false
    else if a.Real? && b.Real? then a.x < b.x
    else a != b && (a.NegInf? || b.PosInf?)
  }

  /** `a >= b`. */
  predicate Ge(a: Number, b: Number) {
    if a.NaN? || b.NaN? then false
    else if a.Real? && b.Real? then a.x >= b.x
    else a.PosInf? || b.NegInf?
  }

  /** A JSON value; `Structure` is a list or an object. */
  datatype Value = Null | Bool(b: bool) | Num(n: Number) | Text(s: string) | Structure(repr: string)

  /** A row; a missing key is `None`. */
  datatype Row = Row(queryId: Option<Value>, trackId: Option<Value>, score: Option<Value>, vote: Option<Value>,
                     ts: Option<Value>)

  /** The keyword arguments shared by the preview and the deletion; an empty denylist is the same as none. */
  datatype Filters = Filters(
    queryId: Option<string>, queryIds: Option<set<string>>,
    trackId: Option<string>, trackIds: Option<set<string>>,
    excludeTracks: set<string>, excludeQueries: set<string>,
    vote: Option<int>,
    since: Option<Number>, until: Option<Number>,
    minScore: Option<Number>, maxScore: Option<Number>)

  /** `isinstance(v, (int, float))`, true of booleans. */
  predicate IsNumber(v: Option<Value>) {
    v.Some? && (v.value.Num? || v.value.Bool?)
  }

  /** The number `v` compares as: `True` is 1. */
  function NumberOf(v: Option<Value>): Number
    requires IsNumber(v)
  {
    match v.value
    case Bool(b) => Real(if b then 1.0 else 0.0)
    case Num(n) => n
  }

  /** `str(row.get(key, ""))`; `text` is `str` on the values that are not strings. */
  function StrOf(v: Option<Value>, text: Value -> string): string {
    match v
    case None => ""
    case Some(Text(s)) => s
    case Some(other) => text(other)
  }

  /** `row.get("vote") == vote`. */
  predicate VoteIs(r: Row, vote: int) {
    IsNumber(r.vote) && NumberOf(r.vote) == Real(vote as real)
  }

  /** `[r for r in rows if p(r)]`. */
  function Where<T>(rows: seq<T>, p: T -> bool): seq<T> {
    if rows == [] then []
    else (if p(rows[0]) then [rows[0]] else []) + Where(rows[1..], p)
  }

  lemma {:induction false} WhereMember<T>(rows: seq<T>, p: T -> bool, r: T)
    ensures r in Where(rows, p) <==> r in rows && p(r)
  {
    if rows != [] {
      WhereMember(rows[1..], p, r);
      assert rows == [rows[0]] + rows[1..];
    }
  }

  lemma {:induction false} WhereSame<T>(rows: seq<T>, p: T -> bool, q: T -> bool)
    requires forall r :: r in rows ==> p(r) == q(r)
    ensures Where(rows, p) == Where(rows, q)
  {
    if rows != [] {
      assert rows[0] in rows;
      assert forall r :: r in rows[1..] ==> r in rows;
      WhereSame(rows[1..], p, q);
    }
  }

  lemma {:induction false} WhereTwice<T(!new)>(rows: seq<T>, p: T -> bool, q: T -> bool, both: T -> bool)
    requires forall r :: both(r) == (p(r) && q(r))
    ensures Where(Where(rows, p), q) == Where(rows, both)
  {
    if rows != [] {
      WhereTwice(rows[1..], p, q, both);
      var rest := Where(rows[1..], p);
      if p(rows[0]) {
        assert Where(rows, p)[1..] == rest;
      } else {
        assert Where(rows, p) == rest;
      }
    }
  }

  lemma {:induction false} WhereSnoc<T>(rows: seq<T>, x: T, p: T -> bool)
    ensures Where(rows + [x], p) == Where(rows, p) + if p(x) then [x] else []
  {
    var more := rows + [x];
    if rows == [] {
      assert more == [x];
      assert Where(more[1..], p) == [];
    } else {
      var first := if p(rows[0]) then [rows[0]] else [];
      var last := if p(x) then [x] else [];
      assert more[1..] == rows[1..] + [x];
      assert more[0] == rows[0];
      WhereSnoc(rows[1..], x, p);
      assert first + (Where(rows[1..], p) + last) == (first + Where(rows[1..], p)) + last;
    }
  }

  lemma {:induction false} WhereAll<T>(rows: seq<T>, p: T -> bool)
    requires forall r :: r in rows ==> p(r)
    ensures Where(rows, p) == rows
  {
    if rows != [] {
      assert rows[0] in rows;
      assert forall r :: r in rows[1..] ==> r in rows;
      WhereAll(rows[1..], p);
    }
  }

  /** Two conditions pick the same rows of `rows` exactly when they agree on every one of them. */
  lemma SamePickExactly<T(!new)>(rows: seq<T>, p: T -> bool, q: T -> bool)
    ensures Where(rows, p) == Where(rows, q) <==> forall r :: r in rows ==> p(r) == q(r)
  {
    if Where(rows, p) == Where(rows, q) {
      forall r | r in rows ensures p(r) == q(r) {
        WhereMember(rows, p, r);
        WhereMember(rows, q, r);
      }
    } else if forall r :: r in rows ==> p(r) == q(r) {
      WhereSame(rows, p, q);
    }
  }

  lemma {:induction false} PartsAddUp<T(!new)>(rows: seq<T>, p: T -> bool, others: T -> bool)
    requires forall r :: others(r) == !p(r)
    ensures |Where(rows, p)| + |Where(rows, others)| == |rows|
  {
    if rows != [] {
      PartsAddUp(rows[1..], p, others);
    }
  }

  // ---------------------------------------------------------------- the preview

  /** `row.get(key) == id`, of an id that is given. */
  predicate IdIs(v: Option<Value>, id: Option<string>) {
    id.Some? && v == Some(Text(id.value))
  }

  predicate IdIn(id: string, ids: Option<set<string>>) {
    ids.Some? && id in ids.value
  }

  predicate VoteGiven(r: Row, vote: Option<int>) {
    vote.Some? && VoteIs(r, vote.value)
  }

  /** `isinstance(v, (int, float)) and v >= bound`. */
  predicate AtLeast(v: Option<Value>, bound: Option<Number>) {
    bound.Some? && IsNumber(v) && Ge(NumberOf(v), bound.value)
  }

  /** `isinstance(v, (int, float)) and v < bound`. */
  predicate Under(v: Option<Value>, bound: Option<Number>) {
    bound.Some? && IsNumber(v) && Lt(NumberOf(v), bound.value)
  }

  /** `isinstance(v, (int, float)) and v <= bound`. */
  predicate AtMost(v: Option<Value>, bound: Option<Number>) {
    bound.Some? && IsNumber(v) && Ge(bound.value, NumberOf(v))
  }

  /** One comprehension of the chain: it runs only when its argument is given. */
  datatype Stage = Stage(given: bool, keep: Row -> bool)

  /** Each stage narrows what the one before it left. */
  function Narrow(rows: seq<Row>, stages: seq<Stage>): seq<Row>
    decreases stages
  {
    if stages == [] then rows
    else Narrow(if stages[0].given then Where(rows, stages[0].keep) else rows, stages[1..])
  }

  function IdStages(f: Filters, text: Value -> string): seq<Stage> {
    [ Stage(f.excludeQueries != {}, (r: Row) => StrOf(r.queryId, text) !in f.excludeQueries),
      Stage(f.excludeTracks != {}, (r: Row) => StrOf(r.trackId, text) !in f.excludeTracks),
      Stage(f.queryId.Some?, (r: Row) => IdIs(r.queryId, f.queryId)),
      Stage(f.queryIds.Some?, (r: Row) => IdIn(StrOf(r.queryId, text), f.queryIds)),
      Stage(f.trackId.Some?, (r: Row) => IdIs(r.trackId, f.trackId)),
      Stage(f.trackIds.Some?, (r: Row) => IdIn(StrOf(r.trackId, text), f.trackIds)),
      Stage(f.vote.Some?, (r: Row) => VoteGiven(r, f.vote)) ]
  }

  function BoundStages(f: Filters): seq<Stage> {
    [ Stage(f.since.Some?, (r: Row) => AtLeast(r.ts, f.since)),
      Stage(f.until.Some?, (r: Row) => Under(r.ts, f.until)),
      Stage(f.minScore.Some?, (r: Row) => AtLeast(r.score, f.minScore)),
      Stage(f.maxScore.Some?, (r: Row) => AtMost(r.score, f.maxScore)) ]
  }

  /** `_filter_feedback`. */
  function FilterFeedback(rows: seq<Row>, f: Filters, text: Value -> string): seq<Row> {
    Narrow(Narrow(rows, IdStages(f, text)), BoundStages(f))
  }

  /** The filters on ids and votes. */
  predicate IdsMatch(r: Row, f: Filters, text: Value -> string) {
    && StrOf(r.queryId, text) !in f.excludeQueries
    && StrOf(r.trackId, text) !in f.excludeTracks
    && (f.queryId.Some? ==> IdIs(r.queryId, f.queryId))
    && (f.queryIds.Some? ==> IdIn(StrOf(r.queryId, text), f.queryIds))
    && (f.trackId.Some? ==> IdIs(r.trackId, f.trackId))
    && (f.trackIds.Some? ==> IdIn(StrOf(r.trackId, text), f.trackIds))
    && (f.vote.Some? ==> VoteGiven(r, f.vote))
  }

  /** The filters on times and scores. */
  predicate BoundsMatch(r: Row, f: Filters) {
    && (f.since.Some? ==> AtLeast(r.ts, f.since))
    && (f.until.Some? ==> Under(r.ts, f.until))
    && (f.minScore.Some? ==> AtLeast(r.score, f.minScore))
    && (f.maxScore.Some? ==> AtMost(r.score, f.maxScore))
  }

  predicate Selected(r: Row, f: Filters, text: Value -> string) {
    IdsMatch(r, f, text) && BoundsMatch(r, f)
  }

  predicate PassesAll(r: Row, stages: seq<Stage>) {
    forall i :: 0 <= i < |stages| && stages[i].given ==> stages[i].keep(r)
  }

  lemma PassesFirst(r: Row, first: Stage, rest: seq<Stage>)
    ensures PassesAll(r, [first] + rest) == ((first.given ==> first.keep(r)) && PassesAll(r, rest))
  {
    var all := [first] + rest;
    if PassesAll(r, all) {
      assert all[0] == first;
      assert forall i :: 0 <= i < |rest| ==> rest[i] == all[i + 1];
    }
  }

  lemma {:induction false} NarrowPasses(rows: seq<Row>, stages: seq<Stage>)
    ensures Narrow(rows, stages) == Where(rows, r => PassesAll(r, stages))
    decreases stages
  {
    var all := (r: Row) => PassesAll(r, stages);
    if stages == [] {
      WhereAll(rows, all);
    } else {
      var s, rest := stages[0], (r: Row) => PassesAll(r, stages[1..]);
      NarrowPasses(if s.given then Where(rows, s.keep) else rows, stages[1..]);
      forall r ensures all(r) == ((s.given ==> s.keep(r)) && rest(r)) {
        assert stages == [s] + stages[1..];
        PassesFirst(r, s, stages[1..]);
      }
      if s.given {
        WhereTwice(rows, s.keep, rest, all);
      } else {
        WhereSame(rows, rest, all);
      }
    }
  }

  lemma IdStagesMean(r: Row, f: Filters, text: Value -> string)
    ensures PassesAll(r, IdStages(f, text)) == IdsMatch(r, f, text)
  {
    var s := IdStages(f, text);
    if PassesAll(r, s) {
      assert s[0].given ==> s[0].keep(r);
      assert s[1].given ==> s[1].keep(r);
      assert s[2].given ==> s[2].keep(r);
      assert s[3].given ==> s[3].keep(r);
      assert s[4].given ==> s[4].keep(r);
      assert s[5].given ==> s[5].keep(r);
      assert s[6].given ==> s[6].keep(r);
    }
  }

  lemma BoundStagesMean(r: Row, f: Filters)
    ensures PassesAll(r, BoundStages(f)) == BoundsMatch(r, f)
  {
    var s := BoundStages(f);
    if PassesAll(r, s) {
      assert s[0].given ==> s[0].keep(r);
      assert s[1].given ==> s[1].keep(r);
      assert s[2].given ==> s[2].keep(r);
      assert s[3].given ==> s[3].keep(r);
    }
  }

  /** The chain of comprehensions selects the rows that pass every filter given. */
  lemma PreviewSelects(rows: seq<Row>, f: Filters, text: Value -> string)
    ensures FilterFeedback(rows, f, text) == Where(rows, r => Selected(r, f, text))
  {
    var ids, bounds := (r: Row) => PassesAll(r, IdStages(f, text)), (r: Row) => PassesAll(r, BoundStages(f));
    NarrowPasses(rows, IdStages(f, text));
    NarrowPasses(Where(rows, ids), BoundStages(f));
    forall r ensures (ids(r) && bounds(r)) == Selected(r, f, text) {
      IdStagesMean(r, f, text);
      BoundStagesMean(r, f);
    }
    WhereTwice(rows, ids, bounds, r => Selected(r, f, text));
  }

  // ---------------------------------------------------------------- the deletion

  /** `isinstance(v, (int, float))` and not outside `[since, until)`, when either bound is given. */
  predicate TimePurged(v: Option<Value>, since: Option<Number>, until: Option<Number>) {
    since.Some? || until.Some? ==>
      && IsNumber(v)
      && !(since.Some? && Lt(NumberOf(v), since.value))
      && !(until.Some? && Ge(NumberOf(v), until.value))
  }

  /** The same for `[min, max]`; a boolean is no score. */
  predicate ScorePurged(v: Option<Value>, min: Option<Number>, max: Option<Number>) {
    min.Some? || max.Some? ==>
      && IsNumber(v) && !v.value.Bool?
      && !(min.Some? && Lt(NumberOf(v), min.value))
      && !(max.Some? && Lt(max.value, NumberOf(v)))
  }

  /** The row is dropped when no check keeps it. */
  predicate Purged(r: Row, f: Filters, text: Value -> string) {
    IdsMatch(r, f, text) && TimePurged(r.ts, f.since, f.until) && ScorePurged(r.score, f.minScore, f.maxScore)
  }

  predicate AnyFilter(f: Filters) {
    || f.queryId.Some? || f.queryIds.Some? || f.trackId.Some? || f.trackIds.Some? || f.vote.Some?
    || f.since.Some? || f.until.Some? || f.minScore.Some? || f.maxScore.Some?
  }

  predicate EmptyAllowlist(f: Filters) {
    f.trackIds == Some({}) || f.queryIds == Some({})
  }

  /** A line of the file; `Malformed` is one that does not hold a JSON object. */
  datatype Line = Blank | Entry(row: Row) | Malformed

  datatype Outcome = NoFilter | BadLine | Removed(count: nat)

  function Rows(lines: seq<Line>): seq<Row> {
    if lines == [] then []
    else (if lines[0].Entry? then [lines[0].row] else []) + Rows(lines[1..])
  }

  lemma {:induction false} RowsSnoc(lines: seq<Line>, l: Line)
    ensures Rows(lines + [l]) == Rows(lines) + if l.Entry? then [l.row] else []
  {
    var more := lines + [l];
    if lines == [] {
      assert more == [l];
      assert Rows(more[1..]) == [];
    } else {
      assert more[1..] == lines[1..] + [l];
      assert more[0] == lines[0];
      RowsSnoc(lines[1..], l);
    }
  }

  lemma {:induction false} EmptyAllowlistPurgesNothing(rows: seq<Row>, f: Filters, text: Value -> string)
    requires EmptyAllowlist(f)
    ensures Where(rows, r => Purged(r, f, text)) == []
  {
    if rows != [] {
      EmptyAllowlistPurgesNothing(rows[1..], f, text);
    }
  }

  /** What one more line adds to the two lists. */
  lemma OneMoreLine(lines: seq<Line>, i: nat, p: Row -> bool)
    requires i < |lines|
    ensures Rows(lines[..i + 1]) == Rows(lines[..i]) + if lines[i].Entry? then [lines[i].row] else []
    ensures Where(Rows(lines[..i + 1]), p)
         == Where(Rows(lines[..i]), p) + if lines[i].Entry? && p(lines[i].row) then [lines[i].row] else []
  {
    assert lines[..i + 1] == lines[..i] + [lines[i]];
    RowsSnoc(lines[..i], lines[i]);
    if lines[i].Entry? {
      WhereSnoc(Rows(lines[..i]), lines[i].row, p);
    } else {
      assert Rows(lines[..i]) + [] == Rows(lines[..i]);
    }
  }

  /** The log file; `None` when it does not exist. */
  class FeedbackLog {
    var file: Option<seq<Line>>

    /** The rows of the log. */
    ghost function Contents(): seq<Row>
      reads this
    {
      if file.Some? then Rows(file.value) else []
    }

    /**
     `delete_feedback`: the purged rows are counted and the others written back in order.  Nothing is
     written when there is no filter, when a line cannot be read, or when no row is purged.
     */
    method DeleteFeedback(f: Filters, text: Value -> string) returns (r: Outcome)
      modifies this
      ensures r.NoFilter? <==> !AnyFilter(f)
      ensures r.NoFilter? <==> f.queryId == f.trackId == None && f.queryIds == f.trackIds == None && f.vote == None
                               && f.since == f.until == f.minScore == f.maxScore == None
      ensures r.BadLine? <==> AnyFilter(f) && !EmptyAllowlist(f) && old(file).Some? && Malformed in old(file).value
      ensures r.BadLine? ==> f.trackIds != Some({}) && f.queryIds != Some({})
      ensures r.Removed? ==> r.count == |Where(old(Contents()), (x: Row) => Purged(x, f, text))|
      ensures r.Removed? ==> Contents() == Where(old(Contents()), (x: Row) => !Purged(x, f, text))
      ensures !r.Removed? || r.count == 0 ==> file == old(file)
      ensures r.Removed? && r.count > 0 ==> file.Some? && forall l :: l in file.value ==> l.Entry?
    {
      ghost var gone, stays := (x: Row) => Purged(x, f, text), (x: Row) => !Purged(x, f, text);
      if !AnyFilter(f) {
        return NoFilter;
      }
      if EmptyAllowlist(f) || file.None? {
        EmptyResult(Contents(), f, text);
        return Removed(0);
      }
      var kept: seq<Row>, removed := [], 0;
      var lines := file.value;
      for i := 0 to |lines|
        invariant file == old(file)
        invariant Malformed !in lines[..i]
        invariant kept == Where(Rows(lines[..i]), stays)
        invariant removed == |Where(Rows(lines[..i]), gone)|
      {
        OneMoreLine(lines, i, stays);
        OneMoreLine(lines, i, gone);
        if lines[i].Blank? {
          continue;
        }
        if lines[i].Malformed? {
          return BadLine;
        }
        var row := lines[i].row;
        if StrOf(row.queryId, text) in f.excludeQueries {
          kept := kept + [row];
          continue;
        }
        if StrOf(row.trackId, text) in f.excludeTracks {
          kept := kept + [row];
          continue;
        }
        if f.queryId.Some? && row.queryId != Some(Text(f.queryId.value)) {
          kept := kept + [row];
          continue;
        }
        if f.queryIds.Some? && StrOf(row.queryId, text) !in f.queryIds.value {
          kept := kept + [row];
          continue;
        }
        if f.trackId.Some? && row.trackId != Some(Text(f.trackId.value)) {
          kept := kept + [row];
          continue;
        }
        if f.trackIds.Some? && StrOf(row.trackId, text) !in f.trackIds.value {
          kept := kept + [row];
          continue;
        }
        if f.vote.Some? && !VoteIs(row, f.vote.value) {
          kept := kept + [row];
          continue;
        }
        if f.since.Some? || f.until.Some? {
          if !IsNumber(row.ts) {
            kept := kept + [row];
            continue;
          }
          if f.since.Some? && Lt(NumberOf(row.ts), f.since.value) {
            kept := kept + [row];
            continue;
          }
          if f.until.Some? && Ge(NumberOf(row.ts), f.until.value) {
            kept := kept + [row];
            continue;
          }
        }
        if f.minScore.Some? || f.maxScore.Some? {
          if !IsNumber(row.score) || row.score.value.Bool? {
            kept := kept + [row];
            continue;
          }
          if f.minScore.Some? && Lt(NumberOf(row.score), f.minScore.value) {
            kept := kept + [row];
            continue;
          }
          if f.maxScore.Some? && Lt(f.maxScore.value, NumberOf(row.score)) {
            kept := kept + [row];
            continue;
          }
        }
        removed := removed + 1;
      }
      assert lines[..|lines|] == lines;
      if removed == 0 {
        NothingPurged(Rows(lines), f, text);
        return Removed(0);
      }
      file := Some(seq(|kept|, j requires 0 <= j < |kept| => Entry(kept[j])));
      RowsOfEntries(kept);
      return Removed(removed);
    }
  }

  lemma NothingPurged(rows: seq<Row>, f: Filters, text: Value -> string)
    requires |Where(rows, (x: Row) => Purged(x, f, text))| == 0
    ensures Where(rows, (x: Row) => !Purged(x, f, text)) == rows
  {
    forall x | x in rows ensures !Purged(x, f, text) {
      WhereMember(rows, (x: Row) => Purged(x, f, text), x);
    }
    WhereAll(rows, (x: Row) => !Purged(x, f, text));
  }

  lemma EmptyResult(rows: seq<Row>, f: Filters, text: Value -> string)
    requires EmptyAllowlist(f) || rows == []
    ensures Where(rows, (x: Row) => Purged(x, f, text)) == []
    ensures Where(rows, (x: Row) => !Purged(x, f, text)) == rows
  {
    if rows != [] {
      EmptyAllowlistPurgesNothing(rows, f, text);
    }
    NothingPurged(rows, f, text);
  }

  lemma {:induction false} RowsOfEntries(rows: seq<Row>)
    ensures Rows(seq(|rows|, j requires 0 <= j < |rows| => Entry(rows[j]))) == rows
  {
    if rows != [] {
      var lines := seq(|rows|, j requires 0 <= j < |rows| => Entry(rows[j]));
      RowsOfEntries(rows[1..]);
      assert lines[1..] == seq(|rows[1..]|, j requires 0 <= j < |rows[1..]| => Entry(rows[1..][j]));
    }
  }

  // ---------------------------------------------------------------- preview against deletion

  /** A comparison that a bound asks for involves a NaN. */
  predicate NanCompared(v: Option<Value>, lo: Option<Number>, hi: Option<Number>) {
    && IsNumber(v)
    && ((lo.Some? && (lo.value.NaN? || NumberOf(v).NaN?)) || (hi.Some? && (hi.value.NaN? || NumberOf(v).NaN?)))
  }

  /** A score bound meets a boolean. */
  predicate BooleanScored(r: Row, f: Filters) {
    (f.minScore.Some? || f.maxScore.Some?) && r.score.Some? && r.score.value.Bool?
  }

  predicate AnyNanCompared(r: Row, f: Filters) {
    NanCompared(r.ts, f.since, f.until) || NanCompared(r.score, f.minScore, f.maxScore)
  }

  /** A purged row is missing from the preview exactly when a NaN was compared. */
  lemma PurgedUnseenExactly(r: Row, f: Filters, text: Value -> string)
    requires Purged(r, f, text)
    ensures !Selected(r, f, text) <==> AnyNanCompared(r, f)
  {
  }

  /** A previewed row survives exactly when a score bound met a boolean. */
  lemma SeenUnpurgedExactly(r: Row, f: Filters, text: Value -> string)
    requires Selected(r, f, text)
    ensures !Purged(r, f, text) <==> BooleanScored(r, f)
  {
  }

  /** The deletion removes the rows of the preview, for every filter, exactly when no such row is there. */
  lemma DeleteMatchesPreviewExactly(rows: seq<Row>, f: Filters, text: Value -> string)
    ensures Where(rows, (x: Row) => Purged(x, f, text)) == FilterFeedback(rows, f, text)
       <==> forall r :: r in rows ==>
              (Purged(r, f, text) ==> !AnyNanCompared(r, f)) && (Selected(r, f, text) ==> !BooleanScored(r, f))
  {
    PreviewSelects(rows, f, text);
    SamePickExactly(rows, (x: Row) => Purged(x, f, text), (x: Row) => Selected(x, f, text));
    forall r ensures Purged(r, f, text) == Selected(r, f, text)
                <==> (Purged(r, f, text) ==> !AnyNanCompared(r, f)) && (Selected(r, f, text) ==> !BooleanScored(r, f)) {
      if Purged(r, f, text) {
        PurgedUnseenExactly(r, f, text);
      }
      if Selected(r, f, text) {
        SeenUnpurgedExactly(r, f, text);
      }
    }
  }

  predicate NotNan(v: Option<Value>) {
    v.Some? && v.value.Num? ==> !v.value.n.NaN?
  }

  /** No boolean score and no NaN. */
  predicate PlainRow(r: Row) {
    NotNan(r.ts) && NotNan(r.score) && !(r.score.Some? && r.score.value.Bool?)
  }

  predicate PlainBound(b: Option<Number>) {
    b.Some? ==> !b.value.NaN?
  }

  predicate PlainFilters(f: Filters) {
    PlainBound(f.since) && PlainBound(f.until) && PlainBound(f.minScore) && PlainBound(f.maxScore)
  }

  /** On plain rows and bounds the preview shows what the deletion removes, and what stays is the rest in order. */
  lemma PlainRowsAgree(rows: seq<Row>, f: Filters, text: Value -> string)
    requires PlainFilters(f) && forall r :: r in rows ==> PlainRow(r)
    ensures Where(rows, (x: Row) => Purged(x, f, text)) == FilterFeedback(rows, f, text)
    ensures Where(rows, (x: Row) => !Purged(x, f, text)) == Where(rows, (x: Row) => !Selected(x, f, text))
    ensures |FilterFeedback(rows, f, text)| + |Where(rows, (x: Row) => !Purged(x, f, text))| == |rows|
  {
    DeleteMatchesPreviewExactly(rows, f, text);
    forall r | r in rows ensures Purged(r, f, text) == Selected(r, f, text) {
      if Purged(r, f, text) {
        PurgedUnseenExactly(r, f, text);
      }
      if Selected(r, f, text) {
        SeenUnpurgedExactly(r, f, text);
      }
    }
    WhereSame(rows, (x: Row) => !Purged(x, f, text), (x: Row) => !Selected(x, f, text));
    PartsAddUp(rows, (x: Row) => Purged(x, f, text), (x: Row) => !Purged(x, f, text));
  }

  /** Deleting a second time with the same filters removes nothing. */
  lemma SecondDeleteIsEmpty(rows: seq<Row>, f: Filters, text: Value -> string)
    ensures Where(Where(rows, (x: Row) => !Purged(x, f, text)), (x: Row) => Purged(x, f, text)) == []
  {
    var left := Where(rows, (x: Row) => !Purged(x, f, text));
    var again := Where(left, (x: Row) => Purged(x, f, text));
    if again != [] {
      WhereMember(left, (x: Row) => Purged(x, f, text), again[0]);
      WhereMember(rows, (x: Row) => !Purged(x, f, text), again[0]);
    }
  }

  function OnlyMinScore(): Filters {
    Filters(None, None, None, None, {}, {}, None, None, None, Some(Real(0.5)), None)
  }

  function Scored(v: Value): Row {
    Row(Some(Text("q")), Some(Text("t")), Some(v), Some(Num(Real(1.0))), Some(Num(Real(0.0))))
  }

  /** A NaN score is purged though the preview did not show it; a boolean one is shown and kept. */
  lemma PreviewCanMislead(text: Value -> string)
    ensures var nan, yes := Scored(Num(NaN)), Scored(Bool(true));
            && FilterFeedback([nan, yes], OnlyMinScore(), text) == [yes]
            && Where([nan, yes], (x: Row) => Purged(x, OnlyMinScore(), text)) == [nan]
  {
    var nan, yes, f := Scored(Num(NaN)), Scored(Bool(true)), OnlyMinScore();
    PreviewSelects([nan, yes], f, text);
    WherePair(nan, yes, (x: Row) => Selected(x, f, text));
    WherePair(nan, yes, (x: Row) => Purged(x, f, text));
    assert !Selected(nan, f, text) && Selected(yes, f, text);
    assert Purged(nan, f, text) && !Purged(yes, f, text);
  }

  lemma WherePair<T>(a: T, b: T, p: T -> bool)
    ensures Where([a, b], p) == (if p(a) then [a] else []) + if p(b) then [b] else []
  {
    assert [a, b] == [a] + [b];
    assert Where([a], p) == if p(a) then [a] else [];
    WhereSnoc([a], b, p);
  }
}
