/** Votes per track, and the ranking value computed from them. */
module FeedbackStats {
  import opened Options
  import opened OrderedDicts
  import opened Feedback
  import opened Wilson

  /** The two-sided 95% quantile the ranking uses. */
  const Z: real := 1.96

  /** The counters of a track; `id` is its id as its first row spells it. */
  datatype Tally = Tally(id: Value, up: nat, down: nat, scoreSum: Number, scoreN: nat)

  function Zero(id: Value): Tally {
    Tally(id, 0, 0, Real(0.0), 0)
  }

  datatype Stats = Stats(
    trackId: Value, up: nat, down: nat, total: nat, net: int,
    avgScore: Option<Number>, approval: Option<real>, wilson: Option<real>)

  /** `a + b`. */
  function Plus(a: Number, b: Number): Number {
    if a.NaN? || b.NaN? then NaN
    else if a.Real? && b.Real? then Real(a.x + b.x)
    else if a.Real? then b
    else if b.Real? || a == b then a
    else NaN
  }

  /** `a / n`. */
  function Over(a: Number, n: nat): Number
    requires n > 0
  {
    if a.Real? then Real(a.x / n as real) else a
  }

  /** `bool(v)`. */
  predicate Truthy(v: Value) {
    match v
    case Null => false
    case Bool(b) => b
    case Num(n) => n != Real(0.0)
    case Text(s) => s != ""
    case Structure(repr) => repr != "[]" && repr != "{}"
  }

  /** Two values are the same key of a dictionary when this is equal: `True` is 1, and there is one NaN object. */
  function KeyOf(v: Value): Value {
    if v == Bool(true) then Num(Real(1.0)) else v
  }

  /** The key a row is counted under; a falsy track id is skipped. */
  function TrackOf(r: Row): Option<Value> {
    if r.trackId.Some? && Truthy(r.trackId.value) then Some(KeyOf(r.trackId.value)) else None
  }

  /** A list or an object cannot be a key: counting the row raises. */
  predicate Unhashable(r: Row) {
    TrackOf(r).Some? && TrackOf(r).value.Structure?
  }

  /** The rows of `track` whose vote equals `vote`. */
  function Votes(rows: seq<Row>, track: Value, vote: int): nat {
    |Where(rows, (r: Row) => TrackOf(r) == Some(track) && VoteIs(r, vote))|
  }

  predicate Rated(rows: seq<Row>, track: Value) {
    exists i :: 0 <= i < |rows| && TrackOf(rows[i]) == Some(track)
  }

  /** The place of the row that first mentions the track; the number of rows when none does. */
  function FirstRow(rows: seq<Row>, track: Value): nat {
    if rows == [] || TrackOf(rows[0]) == Some(track) then 0 else 1 + FirstRow(rows[1..], track)
  }

  /** The track's id as its first row spells it. */
  function SpelledId(rows: seq<Row>, track: Value): Value {
    var i := FirstRow(rows, track);
    if i < |rows| && rows[i].trackId.Some? then rows[i].trackId.value else Null
  }

  /** The rows of `track` that carry a numeric score. */
  function ScoredRows(rows: seq<Row>, track: Value): seq<Row> {
    Where(rows, (r: Row) => TrackOf(r) == Some(track) && IsNumber(r.score))
  }

  function ScoreOf(r: Row): Number {
    if IsNumber(r.score) then NumberOf(r.score) else Real(0.0)
  }

  /** The sum of the scores, first row first. */
  function ScoreSum(rows: seq<Row>): Number {
    if rows == [] then Real(0.0) else Plus(ScoreSum(rows[..|rows| - 1]), ScoreOf(rows[|rows| - 1]))
  }

  function TrackSum(rows: seq<Row>, track: Value): Number {
    ScoreSum(ScoredRows(rows, track))
  }

  /** The votes and scores of the track over all rows. */
  function Totals(rows: seq<Row>, track: Value): Tally {
    Tally(SpelledId(rows, track), Votes(rows, track, 1), Votes(rows, track, -1), TrackSum(rows, track),
          |ScoredRows(rows, track)|)
  }

  /** What the dictionary of counters holds after `rows`. */
  function TallyOf(rows: seq<Row>, track: Value): Option<Tally> {
    if Rated(rows, track) then Some(Totals(rows, track)) else None
  }

  lemma RatedSnoc(rows: seq<Row>, r: Row, track: Value)
    ensures Rated(rows + [r], track) <==> Rated(rows, track) || TrackOf(r) == Some(track)
  {
    var all := rows + [r];
    if Rated(rows, track) {
      var i :| 0 <= i < |rows| && TrackOf(rows[i]) == Some(track);
      assert all[i] == rows[i];
    }
    if TrackOf(r) == Some(track) {
      assert all[|rows|] == r;
    }
  }

  lemma VotesSnoc(rows: seq<Row>, r: Row, track: Value, vote: int)
    ensures Votes(rows + [r], track, vote)
         == Votes(rows, track, vote) + if TrackOf(r) == Some(track) && VoteIs(r, vote) then 1 else 0
  {
    WhereSnoc(rows, r, (x: Row) => TrackOf(x) == Some(track) && VoteIs(x, vote));
  }

  lemma ScoresSnoc(rows: seq<Row>, r: Row, track: Value)
    ensures var counts := TrackOf(r) == Some(track) && IsNumber(r.score);
            && |ScoredRows(rows + [r], track)| == |ScoredRows(rows, track)| + (if counts then 1 else 0)
            && TrackSum(rows + [r], track)
               == if counts then Plus(TrackSum(rows, track), NumberOf(r.score)) else TrackSum(rows, track)
  {
    WhereSnoc(rows, r, (x: Row) => TrackOf(x) == Some(track) && IsNumber(x.score));
    var before, after := ScoredRows(rows, track), ScoredRows(rows + [r], track);
    if TrackOf(r) == Some(track) && IsNumber(r.score) {
      assert after == before + [r] && after[..|before|] == before;
    } else {
      assert after == before + [] == before;
    }
  }

  lemma {:induction false} NothingUnrated(rows: seq<Row>, track: Value)
    requires !Rated(rows, track)
    ensures Totals(rows, track) == Zero(Null)
  {
    FirstRowIsFirst(rows, track);
    forall r | r in rows ensures TrackOf(r) != Some(track) {
      var i :| 0 <= i < |rows| && rows[i] == r;
    }
    NonePass(rows, (r: Row) => TrackOf(r) == Some(track) && VoteIs(r, 1));
    NonePass(rows, (r: Row) => TrackOf(r) == Some(track) && VoteIs(r, -1));
    NonePass(rows, (r: Row) => TrackOf(r) == Some(track) && IsNumber(r.score));
  }

  lemma {:induction false} NonePass<T>(rows: seq<T>, p: T -> bool)
    requires forall r :: r in rows ==> !p(r)
    ensures Where(rows, p) == []
  {
    if rows != [] {
      assert rows[0] in rows;
      assert forall r :: r in rows[1..] ==> r in rows;
      NonePass(rows[1..], p);
    }
  }

  /** What one row of the track does to its counters. */
  function Counting(t: Tally, r: Row): Tally {
    Tally(t.id, t.up + (if VoteIs(r, 1) then 1 else 0), t.down + (if VoteIs(r, -1) then 1 else 0),
          if IsNumber(r.score) then Plus(t.scoreSum, NumberOf(r.score)) else t.scoreSum,
          t.scoreN + if IsNumber(r.score) then 1 else 0)
  }

  /** `agg.setdefault(tid, ...)`. */
  function OrZero(t: Option<Tally>, id: Value): Tally {
    if t.Some? then t.value else Zero(id)
  }

  lemma {:induction false} FirstRowSnoc(rows: seq<Row>, r: Row, track: Value)
    ensures FirstRow(rows + [r], track)
         == if Rated(rows, track) || TrackOf(r) == Some(track) then FirstRow(rows, track) else |rows| + 1
  {
    var all := rows + [r];
    if rows == [] {
      assert all[1..] == [];
    } else {
      assert all[1..] == rows[1..] + [r] && all[0] == rows[0];
      FirstRowSnoc(rows[1..], r, track);
      RatedTail(rows, track);
    }
  }

  lemma RatedTail(rows: seq<Row>, track: Value)
    requires rows != []
    ensures Rated(rows, track) <==> TrackOf(rows[0]) == Some(track) || Rated(rows[1..], track)
  {
    if i :| 0 <= i < |rows[1..]| && TrackOf(rows[1..][i]) == Some(track) {
      assert TrackOf(rows[i + 1]) == Some(track);
    }
    if i :| 0 < i < |rows| && TrackOf(rows[i]) == Some(track) {
      assert TrackOf(rows[1..][i - 1]) == Some(track);
    }
  }

  lemma {:induction false} FirstRowIsFirst(rows: seq<Row>, track: Value)
    ensures Rated(rows, track) <==> FirstRow(rows, track) < |rows|
    ensures FirstRow(rows, track) <= |rows|
    ensures Rated(rows, track) ==> TrackOf(rows[FirstRow(rows, track)]) == Some(track)
  {
    if rows != [] {
      FirstRowIsFirst(rows[1..], track);
      RatedTail(rows, track);
    }
  }

  lemma SpelledSnoc(rows: seq<Row>, r: Row, track: Value)
    ensures SpelledId(rows + [r], track)
         == if !Rated(rows, track) && TrackOf(r) == Some(track) then r.trackId.value else SpelledId(rows, track)
  {
    FirstRowSnoc(rows, r, track);
    FirstRowIsFirst(rows, track);
    RatedSnoc(rows, r, track);
  }

  lemma TotalsSnoc(rows: seq<Row>, r: Row, track: Value)
    ensures Totals(rows + [r], track).(id := Null)
         == (if TrackOf(r) == Some(track) then Counting(Totals(rows, track), r) else Totals(rows, track)).(id := Null)
  {
    VotesSnoc(rows, r, track, 1);
    VotesSnoc(rows, r, track, -1);
    ScoresSnoc(rows, r, track);
  }

  lemma OrZeroTotals(rows: seq<Row>, track: Value, id: Value)
    ensures OrZero(TallyOf(rows, track), id)
         == if Rated(rows, track) then Totals(rows, track) else Totals(rows, track).(id := id)
  {
    if !Rated(rows, track) {
      NothingUnrated(rows, track);
    }
  }

  /** A row of another track, or of none, leaves the counters alone. */
  lemma OtherTally(rows: seq<Row>, r: Row, track: Value)
    requires TrackOf(r) != Some(track)
    ensures TallyOf(rows + [r], track) == TallyOf(rows, track)
  {
    RatedSnoc(rows, r, track);
    TotalsSnoc(rows, r, track);
    SpelledSnoc(rows, r, track);
    SameTally(Totals(rows + [r], track), Totals(rows, track));
  }

  lemma OwnTally(rows: seq<Row>, r: Row, track: Value)
    requires TrackOf(r) == Some(track)
    ensures TallyOf(rows + [r], track) == Some(Counting(OrZero(TallyOf(rows, track), r.trackId.value), r))
  {
    RatedSnoc(rows, r, track);
    TotalsSnoc(rows, r, track);
    SpelledSnoc(rows, r, track);
    OrZeroTotals(rows, track, r.trackId.value);
    SameTally(Totals(rows + [r], track), Counting(OrZero(TallyOf(rows, track), r.trackId.value), r));
  }

  lemma SameTally(a: Tally, b: Tally)
    requires a.id == b.id && a.(id := Null) == b.(id := Null)
    ensures a == b
  {
  }

  /** One more row changes the counters of its own track only, by its vote and score. */
  lemma TallySnoc(rows: seq<Row>, r: Row, track: Value)
    ensures TallyOf(rows + [r], track)
         == if TrackOf(r) == Some(track) then Some(Counting(OrZero(TallyOf(rows, track), r.trackId.value), r))
            else TallyOf(rows, track)
  {
    if TrackOf(r) == Some(track) {
      OwnTally(rows, r, track);
    } else {
      OtherTally(rows, r, track);
    }
  }

  /** Votes never outnumber the rows of the track. */
  lemma {:induction false} VotesBounded(rows: seq<Row>, track: Value)
    ensures Votes(rows, track, 1) + Votes(rows, track, -1) <= |Where(rows, (r: Row) => TrackOf(r) == Some(track))|
  {
    if rows != [] {
      VotesBounded(rows[1..], track);
    }
  }

  /** The slots are in the order in which their tracks first occur. */
  ghost predicate InOrder(agg: Dict<Value, Tally>, rows: seq<Row>) {
    && (forall i :: 0 <= i < |agg| ==> Rated(rows, agg[i].key))
    && forall i, j :: 0 <= i < j < |agg| ==> FirstRow(rows, agg[i].key) < FirstRow(rows, agg[j].key)
  }

  ghost predicate Counted(agg: Dict<Value, Tally>, rows: seq<Row>) {
    && Unique(agg)
    && (forall track :: Lookup(agg, track) == TallyOf(rows, track))
    && InOrder(agg, rows)
  }

  /** The dictionary after one more row. */
  function CountRow(agg: Dict<Value, Tally>, r: Row): Dict<Value, Tally> {
    var k := TrackOf(r);
    if k.None? then agg else Assign(agg, k.value, Counting(OrZero(Lookup(agg, k.value), r.trackId.value), r))
  }

  lemma OrderStep(agg: Dict<Value, Tally>, rows: seq<Row>, r: Row)
    requires Counted(agg, rows)
    ensures InOrder(CountRow(agg, r), rows + [r])
  {
    var after, all := CountRow(agg, r), rows + [r];
    forall i | 0 <= i < |agg|
      ensures Rated(all, agg[i].key) && FirstRow(all, agg[i].key) == FirstRow(rows, agg[i].key) < |rows|
    {
      RatedSnoc(rows, r, agg[i].key);
      FirstRowSnoc(rows, r, agg[i].key);
      FirstRowIsFirst(rows, agg[i].key);
    }
    if TrackOf(r).Some? {
      var k, v := TrackOf(r).value, Counting(OrZero(Lookup(agg, TrackOf(r).value), r.trackId.value), r);
      if Has(agg, k) {
        AssignKeepsPlaces(agg, k, v);
      } else {
        assert Lookup(agg, k) == TallyOf(rows, k);
        AssignNew(agg, k, v);
        RatedSnoc(rows, r, k);
        FirstRowSnoc(rows, r, k);
        FirstRowIsFirst(rows, k);
      }
    }
  }

  lemma CountedStep(agg: Dict<Value, Tally>, rows: seq<Row>, r: Row)
    requires Counted(agg, rows)
    ensures Counted(CountRow(agg, r), rows + [r])
  {
    OrderStep(agg, rows, r);
    var after := CountRow(agg, r);
    if TrackOf(r).Some? {
      AssignUnique(agg, TrackOf(r).value, Counting(OrZero(Lookup(agg, TrackOf(r).value), r.trackId.value), r));
    }
    forall track ensures Lookup(after, track) == TallyOf(rows + [r], track) {
      TallySnoc(rows, r, track);
      assert Lookup(agg, track) == TallyOf(rows, track);
      if TrackOf(r).Some? {
        AssignLookup(agg, TrackOf(r).value, Counting(OrZero(Lookup(agg, TrackOf(r).value), r.trackId.value), r), track);
      }
    }
  }

  /** The first spelling of a track's id is a spelling of its key. */
  lemma SpelledKey(rows: seq<Row>, track: Value)
    requires Rated(rows, track)
    ensures Truthy(SpelledId(rows, track)) && KeyOf(SpelledId(rows, track)) == track
  {
    FirstRowIsFirst(rows, track);
  }

  /** One row of the result. */
  function StatsFor(s: Slot<Value, Tally>, sqrt: real -> real): Stats {
    var total := s.value.up + s.value.down;
    Stats(s.value.id, s.value.up, s.value.down, total, s.value.up - s.value.down,
          if s.value.scoreN > 0 then Some(Over(s.value.scoreSum, s.value.scoreN)) else None,
          if total > 0 then Some(Ratio(s.value.up, total)) else None, LowerBound(s.value.up, total, Z, sqrt))
  }

  /** The statistics of the track that `s` names over `rows`, straight from the votes. */
  ghost predicate IsStats(s: Stats, rows: seq<Row>, sqrt: real -> real) {
    var track := KeyOf(s.trackId);
    && Rated(rows, track) && s.trackId == SpelledId(rows, track)
    && s.up == Votes(rows, track, 1) && s.down == Votes(rows, track, -1)
    && s.total == s.up + s.down && s.net == s.up - s.down
    && s.avgScore == (if |ScoredRows(rows, track)| > 0
                      then Some(Over(TrackSum(rows, track), |ScoredRows(rows, track)|)) else None)
    && s.approval == (if s.total > 0 then Some(s.up as real / s.total as real) else None)
    && s.wilson == LowerBound(s.up, s.total, 1.96, sqrt)
  }

  lemma StatsFromSlot(agg: Dict<Value, Tally>, rows: seq<Row>, i: nat, sqrt: real -> real)
    requires Counted(agg, rows) && i < |agg|
    ensures IsStats(StatsFor(agg[i], sqrt), rows, sqrt) && KeyOf(StatsFor(agg[i], sqrt).trackId) == agg[i].key
  {
    LookupAt(agg, i);
    SpelledKey(rows, agg[i].key);
    assert Lookup(agg, agg[i].key) == TallyOf(rows, agg[i].key);
  }

  lemma RatedHasSlot(agg: Dict<Value, Tally>, rows: seq<Row>, track: Value)
    requires Counted(agg, rows) && Rated(rows, track)
    ensures exists i :: 0 <= i < |agg| && agg[i].key == track
  {
    assert Lookup(agg, track) == TallyOf(rows, track);
  }

  /** One iteration of the loop over the rows; none when the row makes it raise. */
  method Count(agg: Dict<Value, Tally>, r: Row) returns (after: Option<Dict<Value, Tally>>)
    ensures after == if Unhashable(r) then None else Some(CountRow(agg, r))
  {
    var tid := TrackOf(r);
    if tid.None? {
      return Some(agg);
    }
    if tid.value.Structure? {
      return None;
    }
    var found := Lookup(agg, tid.value);
    var a := if found.Some? then found.value else Zero(r.trackId.value);
    if VoteIs(r, 1) {
      a := a.(up := a.up + 1);
    } else if VoteIs(r, -1) {
      a := a.(down := a.down + 1);
    }
    if IsNumber(r.score) {
      a := a.(scoreSum := Plus(a.scoreSum, NumberOf(r.score)), scoreN := a.scoreN + 1);
    }
    after := Some(Assign(agg, tid.value, a));
  }

  /** The loop over the rows; none when it raises. */
  method CountRows(rows: seq<Row>) returns (agg: Option<Dict<Value, Tally>>)
    ensures agg.None? <==> exists i :: 0 <= i < |rows| && Unhashable(rows[i])
    ensures agg.Some? ==> Counted(agg.value, rows)
  {
    var d: Dict<Value, Tally> := [];
    for i := 0 to |rows|
      invariant Counted(d, rows[..i])
      invariant forall k :: 0 <= k < i ==> !Unhashable(rows[k])
    {
      assert rows[..i + 1] == rows[..i] + [rows[i]];
      CountedStep(d, rows[..i], rows[i]);
      var after := Count(d, rows[i]);
      if after.None? {
        return None;
      }
      d := after.value;
    }
    assert rows[..|rows|] == rows;
    agg := Some(d);
  }

  /** The second loop, over the counters. */
  method Summarise(agg: Dict<Value, Tally>, sqrt: real -> real) returns (out: seq<Stats>)
    ensures |out| == |agg| && forall i :: 0 <= i < |out| ==> out[i] == StatsFor(agg[i], sqrt)
  {
    out := [];
    for i := 0 to |agg|
      invariant |out| == i
      invariant forall k :: 0 <= k < i ==> out[k] == StatsFor(agg[k], sqrt)
    {
      var a := agg[i].value;
      var total := a.up + a.down;
      var net := a.up - a.down;
      var avg := if a.scoreN > 0 then Some(Over(a.scoreSum, a.scoreN)) else None;
      var approval := if total > 0 then Some(Ratio(a.up, total)) else None;
      var wilson := LowerBound(a.up, total, Z, sqrt);
      out := out + [Stats(a.id, a.up, a.down, total, net, avg, approval, wilson)];
    }
  }

  /** One result per track that has a row, in the order in which the tracks first occur. */
  ghost predicate AllStats(out: seq<Stats>, rows: seq<Row>, sqrt: real -> real) {
    && (forall i :: 0 <= i < |out| ==> IsStats(out[i], rows, sqrt))
    && (forall i, j :: 0 <= i < j < |out| ==>
          FirstRow(rows, KeyOf(out[i].trackId)) < FirstRow(rows, KeyOf(out[j].trackId)))
    && (forall track :: Rated(rows, track) ==> exists i :: 0 <= i < |out| && KeyOf(out[i].trackId) == track)
  }

  lemma SummaryIsAll(agg: Dict<Value, Tally>, rows: seq<Row>, sqrt: real -> real, out: seq<Stats>)
    requires Counted(agg, rows)
    requires |out| == |agg| && forall i :: 0 <= i < |out| ==> out[i] == StatsFor(agg[i], sqrt)
    ensures AllStats(out, rows, sqrt)
  {
    forall i | 0 <= i < |out| ensures IsStats(out[i], rows, sqrt) && KeyOf(out[i].trackId) == agg[i].key {
      StatsFromSlot(agg, rows, i, sqrt);
    }
    forall track | Rated(rows, track) ensures exists i :: 0 <= i < |out| && KeyOf(out[i].trackId) == track {
      RatedHasSlot(agg, rows, track);
      var i :| 0 <= i < |agg| && agg[i].key == track;
      assert KeyOf(out[i].trackId) == track;
    }
  }

  /**
   `_aggregate_feedback`: every track that has a row gets exactly one result, in the order in which
   the tracks first occur, with its votes and its average score over all rows.  It raises exactly
   when the track id of some row is a non-empty list or object.
   */
  method AggregateFeedback(rows: seq<Row>, sqrt: real -> real) returns (out: Option<seq<Stats>>)
    ensures out.None? <==> exists i :: 0 <= i < |rows| && Unhashable(rows[i])
    ensures out.Some? ==> AllStats(out.value, rows, sqrt)
  {
    var agg := CountRows(rows);
    if agg.None? {
      return None;
    }
    var stats := Summarise(agg.value, sqrt);
    SummaryIsAll(agg.value, rows, sqrt, stats);
    out := Some(stats);
  }

  // ---------------------------------------------------------------- what is counted

  /** A row is counted unless its track id is missing or falsy; `True` and 1 are one track. */
  lemma CountedUnder(r: Row, id: Value)
    requires r.trackId == Some(id)
    ensures TrackOf(r).None?
       <==> id == Null || id == Bool(false) || id == Num(Real(0.0)) || id == Text("")
            || id == Structure("[]") || id == Structure("{}")
    ensures TrackOf(r).Some? ==> TrackOf(r).value == if id == Bool(true) then Num(Real(1.0)) else id
  {
  }

  /** The number of rows that pass. */
  function HowMany(rows: seq<Row>, p: Row -> bool): nat {
    if rows == [] then 0 else (if p(rows[0]) then 1 else 0) + HowMany(rows[1..], p)
  }

  lemma {:induction false} WhereCounts(rows: seq<Row>, p: Row -> bool)
    ensures |Where(rows, p)| == HowMany(rows, p)
  {
    if rows != [] {
      WhereCounts(rows[1..], p);
    }
  }

  /** Up-votes are the track's rows whose vote is the number 1 or `True`, down-votes those whose vote is -1. */
  lemma VotesExactly(rows: seq<Row>, track: Value)
    ensures Votes(rows, track, 1)
         == HowMany(rows, r => TrackOf(r) == Some(track) && r.vote in [Some(Num(Real(1.0))), Some(Bool(true))])
    ensures Votes(rows, track, -1) == HowMany(rows, r => TrackOf(r) == Some(track) && r.vote == Some(Num(Real(-1.0))))
  {
    var up := (r: Row) => TrackOf(r) == Some(track) && r.vote in [Some(Num(Real(1.0))), Some(Bool(true))];
    var down := (r: Row) => TrackOf(r) == Some(track) && r.vote == Some(Num(Real(-1.0)));
    assert [Some(Num(Real(1.0))), Some(Bool(true))][0] == Some(Num(Real(1.0)));
    assert [Some(Num(Real(1.0))), Some(Bool(true))][1] == Some(Bool(true));
    WhereSame(rows, (r: Row) => TrackOf(r) == Some(track) && VoteIs(r, 1), up);
    WhereSame(rows, (r: Row) => TrackOf(r) == Some(track) && VoteIs(r, -1), down);
    WhereCounts(rows, up);
    WhereCounts(rows, down);
  }

  /** The sum of finite scores, the last one first. */
  function Summed(scores: seq<real>): real {
    if scores == [] then 0.0 else Summed(scores[1..]) + scores[0]
  }

  function FiniteScore(r: Row): real {
    if r.score.Some? && r.score.value.Num? && r.score.value.n.Real? then r.score.value.n.x
    else if r.score == Some(Bool(true)) then 1.0
    else 0.0
  }

  function FiniteScores(rows: seq<Row>): seq<real> {
    seq(|rows|, i requires 0 <= i < |rows| => FiniteScore(rows[i]))
  }

  lemma {:induction false} SummedSnoc(scores: seq<real>, x: real)
    ensures Summed(scores + [x]) == Summed(scores) + x
  {
    if scores == [] {
      assert (scores + [x])[1..] == [];
    } else {
      assert (scores + [x])[1..] == scores[1..] + [x];
      SummedSnoc(scores[1..], x);
    }
  }

  lemma FiniteSnoc(rows: seq<Row>)
    requires rows != []
    ensures FiniteScores(rows) == FiniteScores(rows[..|rows| - 1]) + [FiniteScore(rows[|rows| - 1])]
  {
  }

  ghost predicate AllFinite(rows: seq<Row>) {
    forall i :: 0 <= i < |rows| ==> ScoreOf(rows[i]) == Real(FiniteScore(rows[i]))
  }

  lemma FrontFinite(rows: seq<Row>)
    requires rows != [] && AllFinite(rows)
    ensures AllFinite(rows[..|rows| - 1]) && ScoreOf(rows[|rows| - 1]) == Real(FiniteScore(rows[|rows| - 1]))
  {
  }

  lemma {:induction false} SumExactly(rows: seq<Row>)
    requires AllFinite(rows)
    ensures ScoreSum(rows) == Real(Summed(FiniteScores(rows)))
  {
    if rows != [] {
      FrontFinite(rows);
      SumExactly(rows[..|rows| - 1]);
      SummedSnoc(FiniteScores(rows[..|rows| - 1]), FiniteScore(rows[|rows| - 1]));
      FiniteSnoc(rows);
    }
  }

  /** Rows of the track that carry a number or a boolean as score. */
  function Carrying(track: Value): Row -> bool {
    (r: Row) => TrackOf(r) == Some(track) && r.score.Some? && (r.score.value.Num? || r.score.value.Bool?)
  }

  lemma CarryingExactly(rows: seq<Row>, track: Value)
    ensures ScoredRows(rows, track) == Where(rows, Carrying(track))
    ensures forall r :: r in Where(rows, Carrying(track)) ==> r.score.Some? && IsNumber(r.score)
  {
    WhereSame(rows, (r: Row) => TrackOf(r) == Some(track) && IsNumber(r.score), Carrying(track));
    forall r | r in Where(rows, Carrying(track)) ensures r.score.Some? && IsNumber(r.score) {
      WhereMember(rows, Carrying(track), r);
    }
  }

  lemma TrackSumExactly(rows: seq<Row>, track: Value)
    requires forall r :: r in Where(rows, Carrying(track)) && r.score.Some? && r.score.value.Num? ==>
               r.score.value.n.Real?
    ensures TrackSum(rows, track) == Real(Summed(FiniteScores(Where(rows, Carrying(track)))))
  {
    var scored := Where(rows, Carrying(track));
    CarryingExactly(rows, track);
    forall i | 0 <= i < |scored| ensures ScoreOf(scored[i]) == Real(FiniteScore(scored[i])) {
      assert scored[i] in scored && scored[i].score.Some? && IsNumber(scored[i].score);
    }
    SumExactly(scored);
  }

  /** The average of a track with finite scores is their sum over their number; a boolean counts as 0 or 1. */
  lemma AverageExactly(s: Stats, rows: seq<Row>, sqrt: real -> real)
    requires IsStats(s, rows, sqrt)
    requires forall r :: r in Where(rows, Carrying(KeyOf(s.trackId))) && r.score.Some? && r.score.value.Num? ==>
               r.score.value.n.Real?
    ensures var scored := Where(rows, Carrying(KeyOf(s.trackId)));
            s.avgScore == if scored == [] then None else Some(Real(Summed(FiniteScores(scored)) / |scored| as real))
  {
    CarryingExactly(rows, KeyOf(s.trackId));
    TrackSumExactly(rows, KeyOf(s.trackId));
  }

  // ---------------------------------------------------------------- bounds

  predicate ScoreWithin(r: Row, lo: real, hi: real) {
    ScoreOf(r).Real? && lo <= ScoreOf(r).x <= hi
  }

  /** `x` added up `n` times. */
  function Times(n: nat, x: real): real {
    if n == 0 then 0.0 else Times(n - 1, x) + x
  }

  lemma {:induction false} TimesIs(n: nat, x: real)
    ensures Times(n, x) == n as real * x
  {
    if n > 0 {
      TimesIs(n - 1, x);
      var m := (n - 1) as real;
      assert n as real == m + 1.0;
      assert (m + 1.0) * x == m * x + x;
    }
  }

  lemma {:induction false} SumWithin(rows: seq<Row>, lo: real, hi: real)
    requires forall r :: r in rows ==> ScoreWithin(r, lo, hi)
    ensures ScoreSum(rows).Real? && Times(|rows|, lo) <= ScoreSum(rows).x <= Times(|rows|, hi)
  {
    if rows != [] {
      var n := |rows| - 1;
      assert ScoreWithin(rows[n], lo, hi);
      assert forall r :: r in rows[..n] ==> r in rows;
      SumWithin(rows[..n], lo, hi);
    }
  }

  /** Over finite scores the average of a track lies between any bounds that hold for all of them. */
  lemma {:induction false} AverageWithin(rows: seq<Row>, track: Value, lo: real, hi: real)
    requires ScoredRows(rows, track) != []
    requires forall r :: r in ScoredRows(rows, track) ==> ScoreWithin(r, lo, hi)
    ensures var avg := Over(TrackSum(rows, track), |ScoredRows(rows, track)|);
            avg.Real? && lo <= avg.x <= hi
  {
    var own := ScoredRows(rows, track);
    SumWithin(own, lo, hi);
    QuotientWithin(ScoreSum(own).x, |own|, lo, hi);
  }

  lemma {:induction false} QuotientWithin(sum: real, n: nat, lo: real, hi: real)
    requires n > 0 && Times(n, lo) <= sum <= Times(n, hi)
    ensures lo <= sum / n as real <= hi
  {
    TimesIs(n, lo);
    TimesIs(n, hi);
    DividedWithin(sum, n as real, lo, hi);
  }

  lemma {:induction false} DividedWithin(sum: real, n: real, lo: real, hi: real)
    requires n > 0.0 && n * lo <= sum <= n * hi
    ensures lo <= sum / n <= hi
  {
    var q := sum / n;
    DivideBack(sum, n);
    ScaleOrder(lo, q, n);
    ScaleOrder(q, hi, n);
  }

  /** A track with a vote is ranked between 0 and its approval, one without a vote has neither. */
  lemma RankedBelowApproval(s: Stats, rows: seq<Row>, sqrt: real -> real)
    requires IsStats(s, rows, sqrt)
    requires s.total > 0 ==> IsRoot(sqrt(Radicand(s.up, s.total, Z)), Radicand(s.up, s.total, Z))
    ensures s.total == 0 ==> s.approval == None && s.wilson == None
    ensures s.total > 0 ==> s.approval.Some? && s.wilson.Some? && 0.0 <= s.wilson.value <= s.approval.value <= 1.0
  {
    if s.total > 0 {
      WilsonValue(s.up, s.total, Z, sqrt, 0.0);
      RatioRange(s.up, s.total);
    }
  }
}
