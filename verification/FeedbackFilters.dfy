/**
 What each filter on feedback rows selects, field by field: the preview and the deletion in terms of
 names, votes and the order of numbers.
 */
module FeedbackFilters {
  import opened Options
  import opened Feedback

  // ---------------------------------------------------------------- numbers

  /** Neither is a NaN; a NaN compares false with everything. */
  predicate Comparable(a: Number, b: Number) {
    a != NaN && b != NaN
  }

  /** Minus infinity below all finite numbers, and these below infinity. */
  predicate Less(a: Number, b: Number) {
    Comparable(a, b) && a != b && (a == NegInf || b == PosInf || (a.Real? && b.Real? && a.x < b.x))
  }

  lemma OrderMeans(a: Number, b: Number)
    ensures Lt(a, b) <==> Less(a, b)
    ensures Ge(a, b) <==> Comparable(a, b) && !Less(a, b)
  {
  }

  // ---------------------------------------------------------------- fields

  /** The id as the lists of ids see it: nothing for a missing one, and `text` of what is no string. */
  function Name(v: Option<Value>, text: Value -> string): string {
    if v.None? then "" else if v.value.Text? then v.value.s else text(v.value)
  }

  /** The number that a field holds; `True` counts as 1 and `False` as 0. */
  function NumberIn(v: Option<Value>): Option<Number> {
    if v == Some(Bool(true)) then Some(Real(1.0))
    else if v == Some(Bool(false)) then Some(Real(0.0))
    else if v.Some? && v.value.Num? then Some(v.value.n)
    else None
  }

  /** A vote equals the given one as a number. */
  lemma VoteExactly(r: Row, vote: int)
    ensures VoteIs(r, vote) <==> NumberIn(r.vote) == Some(Real(vote as real))
  {
  }

  /** The filters on ids and votes: denied names, given ids and names, and the vote. */
  predicate Named(r: Row, f: Filters, text: Value -> string) {
    && Name(r.queryId, text) !in f.excludeQueries && Name(r.trackId, text) !in f.excludeTracks
    && (f.queryId.Some? ==> r.queryId == Some(Text(f.queryId.value)))
    && (f.trackId.Some? ==> r.trackId == Some(Text(f.trackId.value)))
    && (f.queryIds.Some? ==> Name(r.queryId, text) in f.queryIds.value)
    && (f.trackIds.Some? ==> Name(r.trackId, text) in f.trackIds.value)
    && (f.vote.Some? ==> NumberIn(r.vote) == Some(Real(f.vote.value as real)))
  }

  lemma NamedExactly(r: Row, f: Filters, text: Value -> string)
    ensures IdsMatch(r, f, text) <==> Named(r, f, text)
  {
  }

  // ---------------------------------------------------------------- the preview

  /** The number is there, and is not below the bound. */
  predicate From(v: Option<Value>, bound: Number) {
    NumberIn(v).Some? && Comparable(NumberIn(v).value, bound) && !Less(NumberIn(v).value, bound)
  }

  /** The number is there, and is below the bound. */
  predicate Until(v: Option<Value>, bound: Number) {
    NumberIn(v).Some? && Less(NumberIn(v).value, bound)
  }

  /** The number is there, and is not above the bound. */
  predicate UpTo(v: Option<Value>, bound: Number) {
    NumberIn(v).Some? && Comparable(NumberIn(v).value, bound) && !Less(bound, NumberIn(v).value)
  }

  /** The preview shows a row when every filter given accepts it: times in [since, until), scores in [min, max]. */
  lemma PreviewExactly(rows: seq<Row>, f: Filters, text: Value -> string, r: Row)
    ensures r in FilterFeedback(rows, f, text)
       <==> r in rows && Named(r, f, text)
            && (f.since.Some? ==> From(r.ts, f.since.value)) && (f.until.Some? ==> Until(r.ts, f.until.value))
            && (f.minScore.Some? ==> From(r.score, f.minScore.value))
            && (f.maxScore.Some? ==> UpTo(r.score, f.maxScore.value))
  {
    PreviewSelects(rows, f, text);
    WhereMember(rows, (x: Row) => Selected(x, f, text), r);
    NamedExactly(r, f, text);
    BoundsExactly(r, f);
  }

  lemma BoundsExactly(r: Row, f: Filters)
    ensures BoundsMatch(r, f)
       <==> (f.since.Some? ==> From(r.ts, f.since.value)) && (f.until.Some? ==> Until(r.ts, f.until.value))
            && (f.minScore.Some? ==> From(r.score, f.minScore.value))
            && (f.maxScore.Some? ==> UpTo(r.score, f.maxScore.value))
  {
  }

  // ---------------------------------------------------------------- the deletion

  /** Nothing tells against the number, which must be there when a bound is given. */
  predicate NotOutside(v: Option<Value>, low: Option<Number>, high: Option<Number>, includesHigh: bool) {
    low.Some? || high.Some? ==>
      && NumberIn(v).Some?
      && (low.Some? ==> !Less(NumberIn(v).value, low.value))
      && (high.Some? ==>
            if includesHigh then !Less(high.value, NumberIn(v).value)
            else !Comparable(NumberIn(v).value, high.value) || Less(NumberIn(v).value, high.value))
  }

  /** The deletion takes a row when no filter tells against it; a boolean is no score, and a NaN tells nothing. */
  lemma DeletionExactly(r: Row, f: Filters, text: Value -> string)
    ensures Purged(r, f, text)
       <==> Named(r, f, text) && NotOutside(r.ts, f.since, f.until, false)
            && NotOutside(r.score, f.minScore, f.maxScore, true)
            && (f.minScore.Some? || f.maxScore.Some? ==> r.score.Some? && !r.score.value.Bool?)
  {
    NamedExactly(r, f, text);
  }

  /** On finite times, scores and bounds both select by the same comparisons of numbers. */
  lemma {:induction false} FiniteRows(r: Row, f: Filters, text: Value -> string, t: real, s: real, since: real,
                                      until: real, low: real, high: real)
    requires r.ts == Some(Num(Real(t))) && r.score == Some(Num(Real(s)))
    requires f.since == Some(Real(since)) && f.until == Some(Real(until))
    requires f.minScore == Some(Real(low)) && f.maxScore == Some(Real(high))
    ensures Purged(r, f, text) <==> Named(r, f, text) && since <= t < until && low <= s <= high
    ensures Selected(r, f, text) <==> Named(r, f, text) && since <= t < until && low <= s <= high
  {
    NamedExactly(r, f, text);
  }
}
