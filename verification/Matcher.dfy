/**
 Matching a query against indexed track segments: an oversampled exact segment search, the best
 segment per track, threshold, bounded tempo bonus, sort and cut.

 Vectors, their normalisation and their similarity are parameters; scores are reals.
 */
module Matchers {
  import opened Options
  import opened OrderedDicts
  import opened Sorting

  type Vector = seq<real>

  datatype Meta = Meta(track: string, segment: int)

  datatype Track = Track(id: string, tempo: Option<real>)

  datatype Match = Match(track: Track, score: real, segment: int, reranked: bool)

  /** An item to index; its extra metadata may name a track and a segment, which then take precedence. */
  datatype Item = Item(vector: Vector, track: string, segment: int, extraTrack: Option<string>,
                       extraSegment: Option<int>)

  function MetaOf(it: Item): Meta {
    Meta(if it.extraTrack.Some? then it.extraTrack.value else it.track,
         if it.extraSegment.Some? then it.extraSegment.value else it.segment)
  }

  /** The track and the segment that the item's own metadata name, and else those it was given. */
  predicate Describes(m: Meta, it: Item) {
    && (if it.extraTrack.Some? then it.extraTrack == Some(m.track) else m.track == it.track)
    && (if it.extraSegment.Some? then it.extraSegment == Some(m.segment) else m.segment == it.segment)
  }

  datatype Best = Best(score: real, segment: int)

  // ---------------------------------------------------------------- the index

  /** `ids` are `min(k, n)` positions with the highest similarities, best first, ties broken anyhow. */
  ghost predicate IsTop(sims: seq<real>, k: nat, ids: seq<nat>) {
    && |ids| == (if k < |sims| then k else |sims|)
    && (forall i :: 0 <= i < |ids| ==> ids[i] < |sims|)
    && Distinct(ids)
    && (forall i, j :: 0 <= i < j < |ids| ==> sims[ids[i]] >= sims[ids[j]])
    && (forall i, n :: 0 <= i < |ids| && 0 <= n < |sims| && n !in ids ==> sims[ids[i]] >= sims[n])
  }

  class NumpyIndex {
    const unit: Vector -> Vector
    const dot: (Vector, Vector) -> real
    var vecs: seq<Vector>
    var metas: seq<Meta>

    constructor (unit: Vector -> Vector, dot: (Vector, Vector) -> real)
      ensures this.unit == unit && this.dot == dot && Valid() && vecs == []
    {
      this.unit, this.dot, vecs, metas := unit, dot, [], [];
    }

    ghost predicate Valid()
      reads this
    {
      |vecs| == |metas|
    }

    method Add(items: seq<Item>)
      requires Valid()
      modifies this
      ensures Valid() && |vecs| == old(|vecs|) + |items|
      ensures vecs[..old(|vecs|)] == old(vecs) && metas[..old(|metas|)] == old(metas)
      ensures forall i :: 0 <= i < |items| ==>
                vecs[old(|vecs|) + i] == unit(items[i].vector) && Describes(metas[old(|metas|) + i], items[i])
    {
      var i := 0;
      while i < |items|
        invariant 0 <= i <= |items| && |vecs| == |metas| == old(|vecs|) + i
        invariant vecs[..old(|vecs|)] == old(vecs) && metas[..old(|metas|)] == old(metas)
        invariant forall j :: 0 <= j < i ==>
                    vecs[old(|vecs|) + j] == unit(items[j].vector) && metas[old(|metas|) + j] == MetaOf(items[j])
      {
        vecs := vecs + [unit(items[i].vector)];
        metas := metas + [MetaOf(items[i])];
        i := i + 1;
      }
    }

    function Sims(query: Vector): (s: seq<real>)
      reads this
      ensures |s| == |vecs| && forall i :: 0 <= i < |s| ==> s[i] == dot(vecs[i], unit(query))
    {
      seq(|vecs|, i requires 0 <= i < |vecs| reads this => dot(vecs[i], unit(query)))
    }

    method Search(query: Vector, k: nat) returns (ids: seq<nat>)
      requires Valid()
      ensures IsTop(Sims(query), k, ids)
    {
      var sims := Sims(query);
      var key := (i: nat) => if i < |sims| then sims[i] else 0.0;
      TopOfAll(sims, k, key);
      ids := Take(SortDesc<nat>(Positions(|sims|), key), k);
    }
  }

  function Positions(n: nat): (r: seq<nat>)
    ensures |r| == n && forall i :: 0 <= i < n ==> r[i] == i
  {
    seq(n, (i: nat) => i)
  }

  /** Sorting the positions keeps each exactly once. */
  lemma SortedPositions(n: nat, key: nat -> real)
    ensures var sorted := SortDesc<nat>(Positions(n), key);
            && Distinct(sorted)
            && (forall i :: 0 <= i < |sorted| ==> sorted[i] < n)
            && (forall x: nat :: x < n ==> x in sorted)
  {
    var all := Positions(n);
    var sorted := SortDesc<nat>(all, key);
    SortMultiset<nat>(all, key);
    SameDistinct(all, sorted);
    forall i | 0 <= i < |sorted| ensures sorted[i] < n {
      SameMember(sorted, all, sorted[i]);
    }
    forall x: nat | x < n ensures x in sorted {
      assert all[x] == x;
      SameMember(all, sorted, x);
    }
  }

  lemma SortedDescends(s: seq<nat>, key: nat -> real)
    ensures var sorted := SortDesc<nat>(s, key);
            forall i, j :: 0 <= i < j < |sorted| ==> key(sorted[i]) >= key(sorted[j])
  {
    var sorted := SortDesc<nat>(s, key);
    SortKeys<nat>(s, key);
    SortDescending(KeysOf<nat>(s, key));
    var keys := KeysOf<nat>(sorted, key);
    forall i, j | 0 <= i < j < |sorted| ensures key(sorted[i]) >= key(sorted[j]) {
      assert keys[i] >= keys[j];
    }
  }

  /** Sorting all positions and cutting gives one of the exact selections. */
  lemma TopOfAll(sims: seq<real>, k: nat, key: nat -> real)
    requires forall i: nat :: i < |sims| ==> key(i) == sims[i]
    ensures IsTop(sims, k, Take(SortDesc<nat>(Positions(|sims|), key), k))
  {
    SortedPositions(|sims|, key);
    SortedDescends(Positions(|sims|), key);
    PrefixIsTop(sims, k, SortDesc<nat>(Positions(|sims|), key));
  }

  lemma PrefixIsTop(sims: seq<real>, k: nat, sorted: seq<nat>)
    requires |sorted| == |sims| && Distinct(sorted)
    requires forall i :: 0 <= i < |sorted| ==> sorted[i] < |sims|
    requires forall n: nat :: n < |sims| ==> n in sorted
    requires forall i, j :: 0 <= i < j < |sorted| ==> sims[sorted[i]] >= sims[sorted[j]]
    ensures IsTop(sims, k, Take(sorted, k))
  {
    var ids := Take(sorted, k);
    assert forall i :: 0 <= i < |ids| ==> ids[i] == sorted[i];
    forall i, n | 0 <= i < |ids| && 0 <= n < |sims| && n !in ids ensures sims[ids[i]] >= sims[n] {
      assert n in sorted;
      var j :| 0 <= j < |sorted| && sorted[j] == n;
      assert forall x :: 0 <= x < |ids| ==> sorted[x] in ids;
      assert j >= |ids|;
    }
  }

  // ---------------------------------------------------------------- match

  /** A searched segment with its track. */
  datatype Hit = Hit(meta: Meta, score: real)

  /** The best hit per track, tracks in order of first appearance; ties keep the earlier segment. */
  function PerTrack(hits: seq<Hit>): Dict<string, Best> {
    if hits == [] then []
    else
      var d, h := PerTrack(hits[..|hits| - 1]), hits[|hits| - 1];
      var cur := Lookup(d, h.meta.track);
      if cur.None? || h.score > cur.value.score then Assign(d, h.meta.track, Best(h.score, h.meta.segment)) else d
  }

  /** The matches of known tracks. */
  function Known(d: Dict<string, Best>, tracks: map<string, Track>): seq<Match> {
    if d == [] then []
    else
      var last := d[|d| - 1];
      Known(d[..|d| - 1], tracks)
      + if last.key in tracks then [Match(tracks[last.key], last.value.score, last.value.segment, false)] else []
  }

  function AtLeast(ms: seq<Match>, threshold: real): seq<Match> {
    if ms == [] then []
    else AtLeast(ms[..|ms| - 1], threshold) + if ms[|ms| - 1].score >= threshold then [ms[|ms| - 1]] else []
  }

  function ThresholdFilter(ms: seq<Match>, threshold: real): seq<Match> {
    if threshold <= 0.0 then ms else AtLeast(ms, threshold)
  }

  function Min(a: real, b: real): real { if a <= b then a else b }
  function Max(a: real, b: real): real { if a >= b then a else b }

  /** How close two tempos are, also counting half and double tempo. */
  function TempoProximity(a: real, b: real): real {
    if a <= 0.0 || b <= 0.0 then 0.0
    else Max(Same(a, b), Max(Half(a, b), Double(a, b)))
  }

  function Same(a: real, b: real): real
    requires a > 0.0 && b > 0.0
  {
    Min(a, b) / Max(a, b)
  }

  function Half(a: real, b: real): real
    requires a > 0.0 && b > 0.0
  {
    Min(a, b * 2.0) / Max(a, b * 2.0)
  }

  function Double(a: real, b: real): real
    requires a > 0.0 && b > 0.0
  {
    Min(a, b / 2.0) / Max(a, b / 2.0)
  }

  const WEIGHT := 0.15

  function Tempo(t: Track): real {
    if t.tempo.Some? then t.tempo.value else 0.0
  }

  function Bonus(m: Match, queryTempo: real): Match {
    m.(score := m.score + TempoProximity(queryTempo, Tempo(m.track)) * WEIGHT, reranked := true)
  }

  function TempoRerank(ms: seq<Match>, queryTempo: real): (r: seq<Match>)
    ensures |r| == |ms|
  {
    if queryTempo <= 0.0 then ms else seq(|ms|, i requires 0 <= i < |ms| => Bonus(ms[i], queryTempo))
  }

  /** `tempo_rerank`. */
  method RerankByTempo(ms: seq<Match>, queryTempo: real) returns (out: seq<Match>)
    ensures out == TempoRerank(ms, queryTempo)
  {
    if queryTempo <= 0.0 {
      return ms;
    }
    out := [];
    for i := 0 to |ms|
      invariant |out| == i
      invariant forall k :: 0 <= k < i ==> out[k] == Bonus(ms[k], queryTempo)
    {
      var tempo := Tempo(ms[i].track);
      var bonus := TempoProximity(queryTempo, tempo) * WEIGHT;
      out := out + [ms[i].(score := ms[i].score + bonus, reranked := true)];
    }
  }

  function Score(m: Match): real { m.score }

  /** The matches offered to the final sort; `queryTempo` is none when reranking is off or the tempo estimate failed. */
  function Candidates(hits: seq<Hit>, tracks: map<string, Track>, threshold: real,
                      queryTempo: Option<real>): seq<Match> {
    var ms := ThresholdFilter(Known(PerTrack(hits), tracks), threshold);
    if queryTempo.Some? then TempoRerank(ms, queryTempo.value) else ms
  }

  /** Everything after the search. */
  function Ranked(hits: seq<Hit>, tracks: map<string, Track>, topK: nat, threshold: real,
                  queryTempo: Option<real>): seq<Match> {
    Take(SortDesc(Candidates(hits, tracks, threshold, queryTempo), Score), topK)
  }

  function HitsOf(sims: seq<real>, metas: seq<Meta>, ids: seq<nat>): (hits: seq<Hit>)
    requires |sims| == |metas| && forall i :: 0 <= i < |ids| ==> ids[i] < |sims|
    ensures |hits| == |ids| && forall i :: 0 <= i < |ids| ==> hits[i] == Hit(metas[ids[i]], sims[ids[i]])
  {
    seq(|ids|, i requires 0 <= i < |ids| => Hit(metas[ids[i]], sims[ids[i]]))
  }

  /** The first loop of `Matcher.match`. */
  method BestPerTrack(hits: seq<Hit>) returns (perTrack: Dict<string, Best>)
    ensures perTrack == PerTrack(hits)
  {
    perTrack := [];
    var i := 0;
    while i < |hits|
      invariant 0 <= i <= |hits| && perTrack == PerTrack(hits[..i])
    {
      assert hits[..i + 1][..i] == hits[..i];
      var h := hits[i];
      var cur := Lookup(perTrack, h.meta.track);
      if cur.None? || h.score > cur.value.score {
        perTrack := Assign(perTrack, h.meta.track, Best(h.score, h.meta.segment));
      }
      i := i + 1;
    }
    assert hits[..i] == hits;
  }

  /** The second loop of `Matcher.match`. */
  method KnownMatches(perTrack: Dict<string, Best>, tracks: map<string, Track>) returns (matches: seq<Match>)
    ensures matches == Known(perTrack, tracks)
  {
    matches := [];
    var i := 0;
    while i < |perTrack|
      invariant 0 <= i <= |perTrack| && matches == Known(perTrack[..i], tracks)
    {
      assert perTrack[..i + 1][..i] == perTrack[..i];
      var slot := perTrack[i];
      if slot.key in tracks {
        matches := matches + [Match(tracks[slot.key], slot.value.score, slot.value.segment, false)];
      }
      i := i + 1;
    }
    assert perTrack[..i] == perTrack;
  }

  /** `Matcher.match` from the index search on. */
  method FindMatches(index: NumpyIndex, tracks: map<string, Track>, query: Vector, topK: nat, threshold: real,
                     queryTempo: Option<real>, mult: nat) returns (out: seq<Match>, ids: seq<nat>)
    requires index.Valid()
    ensures IsTop(index.Sims(query), topK * mult, ids)
    ensures out == Ranked(HitsOf(index.Sims(query), index.metas, ids), tracks, topK, threshold, queryTempo)
  {
    ids := index.Search(query, topK * mult);
    var perTrack := BestPerTrack(HitsOf(index.Sims(query), index.metas, ids));
    var matches := KnownMatches(perTrack, tracks);
    matches := ThresholdFilter(matches, threshold);
    if queryTempo.Some? {
      matches := RerankByTempo(matches, queryTempo.value);
    }
    out := Take(SortDesc(matches, Score), topK);
  }

  // ---------------------------------------------------------------- the tempo bonus is bounded

  lemma {:induction false} RatioBounds(a: real, b: real)
    requires a > 0.0 && b > 0.0
    ensures 0.0 < Same(a, b) <= 1.0 && 0.0 < Half(a, b) <= 1.0 && 0.0 < Double(a, b) <= 1.0
  {
    Quotient(Min(a, b), Max(a, b));
    Quotient(Min(a, b * 2.0), Max(a, b * 2.0));
    Quotient(Min(a, b / 2.0), Max(a, b / 2.0));
  }

  lemma {:induction false} Quotient(x: real, y: real)
    requires 0.0 < x <= y
    ensures 0.0 < x / y <= 1.0
  {
  }

  /** Comparing with half of one tempo is comparing with double the other. */
  lemma {:induction false} HalfIsDouble(a: real, b: real)
    requires a > 0.0 && b > 0.0
    ensures Double(a, b) == Half(b, a)
  {
    var m, n := Min(a, b / 2.0), Max(a, b / 2.0);
    assert Min(b, a * 2.0) == 2.0 * m && Max(b, a * 2.0) == 2.0 * n;
    assert (2.0 * m) / (2.0 * n) == m / n;
  }

  /** Proximity is a number between 0 and 1 and does not depend on which tempo is the query's. */
  lemma {:induction false} ProximityBoundedSymmetric(a: real, b: real)
    ensures 0.0 <= TempoProximity(a, b) <= 1.0
    ensures TempoProximity(a, b) == TempoProximity(b, a)
  {
    if a > 0.0 && b > 0.0 {
      RatioBounds(a, b);
      HalfIsDouble(a, b);
      HalfIsDouble(b, a);
      assert Same(a, b) == Same(b, a);
    }
  }

  /** The smaller tempo over the larger. */
  function Closeness(a: real, b: real): real
    requires a > 0.0 && b > 0.0
  {
    if a <= b then a / b else b / a
  }

  /** The proximity is how close one tempo comes to the other, to its half or to its double; without a tempo it is 0. */
  lemma {:induction false} ProximityExactly(a: real, b: real)
    ensures a <= 0.0 || b <= 0.0 ==> TempoProximity(a, b) == 0.0
    ensures a > 0.0 && b > 0.0 ==>
              var p, half, same := TempoProximity(a, b), Closeness(a, b / 2.0), Closeness(a, b);
              var double := Closeness(a, b * 2.0);
              p >= half && p >= same && p >= double && (p == half || p == same || p == double)
  {
    if a > 0.0 && b > 0.0 {
      assert Same(a, b) == Closeness(a, b);
      assert Half(a, b) == Closeness(a, b * 2.0);
      assert Double(a, b) == Closeness(a, b / 2.0);
    }
  }

  // ---------------------------------------------------------------- the final list

  /** The list is best first, as long as the cut allows, and its scores are the highest of the candidates' scores. */
  lemma {:induction false} RankedIsTop(hits: seq<Hit>, tracks: map<string, Track>, topK: nat, threshold: real,
                                       queryTempo: Option<real>)
    ensures var out := Ranked(hits, tracks, topK, threshold, queryTempo);
            var all := Candidates(hits, tracks, threshold, queryTempo);
            && |out| == (if topK < |all| then topK else |all|)
            && (forall i, j :: 0 <= i < j < |out| ==> out[i].score >= out[j].score)
            && (forall m :: m in out ==> m in all)
            && KeysOf(out, Score) == Take(SortReals(KeysOf(all, Score)), topK)
  {
    var all := Candidates(hits, tracks, threshold, queryTempo);
    var sorted := SortDesc(all, Score);
    var out := Take(sorted, topK);
    TopKeys(all, topK, Score);
    SortDescending(KeysOf(all, Score));
    forall i, j | 0 <= i < j < |out| ensures out[i].score >= out[j].score {
      assert KeysOf(out, Score)[i] >= KeysOf(out, Score)[j];
    }
    SortMultiset(all, Score);
    forall m | m in out ensures m in all {
      SameMember(sorted, all, m);
    }
  }

  /** Rows with one score keep the order of the candidates, and the cut takes the first of them. */
  lemma {:induction false} RankedTies(hits: seq<Hit>, tracks: map<string, Track>, topK: nat, threshold: real,
                                      queryTempo: Option<real>, v: real)
    ensures Tied(Ranked(hits, tracks, topK, threshold, queryTempo), Score, v)
         <= Tied(Candidates(hits, tracks, threshold, queryTempo), Score, v)
  {
    var all := Candidates(hits, tracks, threshold, queryTempo);
    var sorted := SortDesc(all, Score);
    var out := Take(sorted, topK);
    SortStable(all, Score, v);
    assert sorted == out + sorted[|out|..];
    TiedConcat(out, sorted[|out|..], Score, v);
  }

  /** With a positive threshold, exactly the matches whose raw score reaches it go on, in order. */
  lemma {:induction false} ThresholdExactly(ms: seq<Match>, threshold: real, m: Match)
    ensures m in ThresholdFilter(ms, threshold) <==> m in ms && (threshold <= 0.0 || m.score >= threshold)
  {
    if ms != [] {
      ThresholdExactly(ms[..|ms| - 1], threshold, m);
      assert ms == ms[..|ms| - 1] + [ms[|ms| - 1]];
    }
  }

  /** A raw lead above the weight is never overturned by reranking. */
  lemma {:induction false} LeadSurvivesRerank(ms: seq<Match>, queryTempo: real, i: nat, j: nat)
    requires i < |ms| && j < |ms| && ms[i].score > ms[j].score + WEIGHT
    ensures TempoRerank(ms, queryTempo)[i].score > TempoRerank(ms, queryTempo)[j].score
  {
    ProximityBoundedSymmetric(queryTempo, Tempo(ms[i].track));
    ProximityBoundedSymmetric(queryTempo, Tempo(ms[j].track));
  }
}
