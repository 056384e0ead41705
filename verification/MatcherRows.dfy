/**
 Which rows a match offers to its final sort, for any hits and any track table: one for every known
 track that was hit, by its best segment, in the order in which the tracks were first hit.
 */
module MatcherRows {
  import opened Options
  import opened OrderedDicts
  import opened Sorting
  import opened Matchers
  import opened MatcherExact

  /** The place of the first hit of the track; the number of hits when there is none. */
  function FirstHit(hits: seq<Hit>, track: string): nat {
    if hits == [] || hits[0].meta.track == track then 0 else 1 + FirstHit(hits[1..], track)
  }

  /** Hit `i` is the first of the track's hits with the highest score. */
  ghost predicate BestHit(hits: seq<Hit>, track: string, i: nat) {
    && i < |hits| && hits[i].meta.track == track
    && forall j :: 0 <= j < |hits| && hits[j].meta.track == track ==>
         hits[j].score <= hits[i].score && (j < i ==> hits[j].score < hits[i].score)
  }

  /** `score` and `segment` are those of the track's best hit. */
  ghost predicate Best(hits: seq<Hit>, track: string, score: real, segment: int) {
    exists i: nat :: BestHit(hits, track, i) && hits[i].score == score && hits[i].meta.segment == segment
  }

  // ---------------------------------------------------------------- the dictionary of best hits

  lemma BestSnoc(front: seq<Hit>, h: Hit, track: string, i: nat)
    requires BestHit(front, track, i)
    ensures h.meta.track != track || h.score <= front[i].score ==> BestHit(front + [h], track, i)
    ensures h.meta.track == track && h.score > front[i].score ==> BestHit(front + [h], track, |front|)
  {
    var all := front + [h];
    assert all[|front|] == h && forall j :: 0 <= j < |front| ==> all[j] == front[j];
  }

  lemma FirstIsBest(front: seq<Hit>, h: Hit)
    requires !HasHit(front, h.meta.track)
    ensures BestHit(front + [h], h.meta.track, |front|)
  {
    var all := front + [h];
    assert all[|front|] == h && forall j :: 0 <= j < |front| ==> all[j] == front[j];
  }

  /** A track is in the dictionary exactly when it was hit, with its best hit. */
  lemma {:induction false} PerTrackBest(hits: seq<Hit>, track: string)
    ensures var b := Lookup(PerTrack(hits), track);
            if b.Some? then HasHit(hits, track) && Best(hits, track, b.value.score, b.value.segment)
            else !HasHit(hits, track)
  {
    PerTrackIsBest(hits, track);
    if hits != [] {
      var front, h := hits[..|hits| - 1], hits[|hits| - 1];
      var d := PerTrack(front);
      PerTrackBest(front, track);
      AssignLookup(d, h.meta.track, Matchers.Best(h.score, h.meta.segment), track);
      assert hits == front + [h];
      if Lookup(d, track).Some? {
        var i: nat :| BestHit(front, track, i) && front[i].score == Lookup(d, track).value.score
                      && front[i].meta.segment == Lookup(d, track).value.segment;
        BestSnoc(front, h, track, i);
        assert hits[i] == front[i];
      } else if h.meta.track == track {
        FirstIsBest(front, h);
      }
    }
  }

  lemma {:induction false} FirstHitIsFirst(hits: seq<Hit>, track: string)
    ensures HasHit(hits, track) <==> FirstHit(hits, track) < |hits|
    ensures FirstHit(hits, track) <= |hits|
  {
    if hits != [] {
      FirstHitIsFirst(hits[1..], track);
      if i :| 0 <= i < |hits[1..]| && hits[1..][i].meta.track == track {
        assert hits[i + 1].meta.track == track;
      }
      if i :| 0 < i < |hits| && hits[i].meta.track == track {
        assert hits[1..][i - 1].meta.track == track;
      }
    }
  }

  lemma {:induction false} FirstHitSnoc(hits: seq<Hit>, h: Hit, track: string)
    requires FirstHit(hits, track) < |hits| || h.meta.track == track
    ensures FirstHit(hits + [h], track) == FirstHit(hits, track)
  {
    var all := hits + [h];
    if hits == [] {
      assert all[0] == h;
    } else {
      assert all[1..] == hits[1..] + [h] && all[0] == hits[0];
      if hits[0].meta.track != track {
        FirstHitSnoc(hits[1..], h, track);
      }
    }
  }

  /** The slots are in the order in which their tracks were first hit. */
  ghost predicate ByFirstHit(d: Dict<string, Matchers.Best>, hits: seq<Hit>) {
    && (forall i :: 0 <= i < |d| ==> FirstHit(hits, d[i].key) < |hits|)
    && forall i, j :: 0 <= i < j < |d| ==> FirstHit(hits, d[i].key) < FirstHit(hits, d[j].key)
  }

  lemma HitStep(d: Dict<string, Matchers.Best>, front: seq<Hit>, h: Hit, b: Matchers.Best)
    requires ByFirstHit(d, front) && (Has(d, h.meta.track) <==> HasHit(front, h.meta.track))
    ensures ByFirstHit(d, front + [h]) || !Has(d, h.meta.track)
    ensures ByFirstHit(Assign(d, h.meta.track, b), front + [h])
  {
    forall i | 0 <= i < |d| ensures FirstHit(front + [h], d[i].key) == FirstHit(front, d[i].key) {
      FirstHitSnoc(front, h, d[i].key);
    }
    FirstHitSnoc(front, h, h.meta.track);
    FirstHitIsFirst(front, h.meta.track);
    if Has(d, h.meta.track) {
      AssignKeepsPlaces(d, h.meta.track, b);
    } else {
      AssignNew(d, h.meta.track, b);
    }
  }

  lemma {:induction false} PerTrackOrder(hits: seq<Hit>)
    ensures ByFirstHit(PerTrack(hits), hits)
  {
    if hits != [] {
      var front, h := hits[..|hits| - 1], hits[|hits| - 1];
      PerTrackOrder(front);
      PerTrackIsBest(front, h.meta.track);
      HitStep(PerTrack(front), front, h, Matchers.Best(h.score, h.meta.segment));
      assert hits == front + [h];
    }
  }

  // ---------------------------------------------------------------- the rows

  /** What the rerank makes of a raw score: unchanged without a tempo to compare. */
  ghost predicate Scored(m: Match, raw: real, queryTempo: Option<real>) {
    if queryTempo.Some? && queryTempo.value > 0.0 then
      var tempo := if m.track.tempo.Some? then m.track.tempo.value else 0.0;
      m.reranked && m.score == raw + 0.15 * TempoProximity(queryTempo.value, tempo)
    else !m.reranked && m.score == raw
  }

  /** The row of the track: its best hit, with the tempo bonus when there is a tempo to compare. */
  ghost predicate RowOf(m: Match, hits: seq<Hit>, tracks: map<string, Track>, track: string,
                        queryTempo: Option<real>) {
    && track in tracks && m.track == tracks[track]
    && exists raw: real :: Best(hits, track, raw, m.segment) && Scored(m, raw, queryTempo)
  }

  /** Rows and track ids side by side, the tracks in the order of their first hits. */
  ghost predicate RowsOf(ms: seq<Match>, ids: seq<string>, hits: seq<Hit>, tracks: map<string, Track>,
                         queryTempo: Option<real>) {
    && |ms| == |ids|
    && (forall i :: 0 <= i < |ms| ==> RowOf(ms[i], hits, tracks, ids[i], queryTempo))
    && forall i, j :: 0 <= i < j < |ids| ==> FirstHit(hits, ids[i]) < FirstHit(hits, ids[j])
  }

  /** The known keys of a dictionary, in order. */
  function KnownIds(d: Dict<string, Matchers.Best>, tracks: map<string, Track>): seq<string> {
    if d == [] then []
    else KnownIds(d[..|d| - 1], tracks) + if d[|d| - 1].key in tracks then [d[|d| - 1].key] else []
  }

  lemma {:induction false} KnownIdsMean(d: Dict<string, Matchers.Best>, tracks: map<string, Track>, t: string)
    ensures t in KnownIds(d, tracks) <==> t in tracks && Has(d, t)
  {
    if d != [] {
      var n := |d| - 1;
      KnownIdsMean(d[..n], tracks, t);
      if i :| 0 <= i < |d| && d[i].key == t {
        assert i < n ==> d[..n][i].key == t;
      }
      if i :| 0 <= i < n && d[..n][i].key == t {
        assert d[i].key == t;
      }
    }
  }

  lemma SnocRows(ms: seq<Match>, ids: seq<string>, m: Match, id: string, hits: seq<Hit>, tracks: map<string, Track>)
    requires RowsOf(ms, ids, hits, tracks, None) && RowOf(m, hits, tracks, id, None)
    requires AllBefore(ids, id, hits)
    ensures RowsOf(ms + [m], ids + [id], hits, tracks, None)
  {
  }

  lemma {:induction false} KnownRows(d: Dict<string, Matchers.Best>, hits: seq<Hit>, tracks: map<string, Track>)
    requires ByFirstHit(d, hits)
    requires forall i :: 0 <= i < |d| ==> Best(hits, d[i].key, d[i].value.score, d[i].value.segment)
    ensures RowsOf(Known(d, tracks), KnownIds(d, tracks), hits, tracks, None)
  {
    if d != [] {
      var n := |d| - 1;
      var ids := KnownIds(d[..n], tracks);
      KnownRows(d[..n], hits, tracks);
      forall i | 0 <= i < |ids| ensures FirstHit(hits, ids[i]) < FirstHit(hits, d[n].key) {
        KnownIdsMean(d[..n], tracks, ids[i]);
        var k :| 0 <= k < n && d[..n][k].key == ids[i];
        assert d[k].key == ids[i];
      }
      if d[n].key in tracks {
        var m := Match(tracks[d[n].key], d[n].value.score, d[n].value.segment, false);
        SnocRows(Known(d[..n], tracks), ids, m, d[n].key, hits, tracks);
      }
    }
  }

  // ---------------------------------------------------------------- threshold and rerank

  /** The tracks whose rows reach the threshold. */
  function Reaching(ms: seq<Match>, ids: seq<string>, threshold: real): (r: seq<string>)
    requires |ms| == |ids|
    ensures |r| == |AtLeast(ms, threshold)|
  {
    if ms == [] then []
    else
      var n := |ms| - 1;
      Reaching(ms[..n], ids[..n], threshold) + if ms[n].score >= threshold then [ids[n]] else []
  }

  ghost predicate Reaches(ms: seq<Match>, ids: seq<string>, threshold: real, id: string)
    requires |ms| == |ids|
  {
    exists i :: 0 <= i < |ms| && ids[i] == id && ms[i].score >= threshold
  }

  lemma {:induction false} ReachingMean(ms: seq<Match>, ids: seq<string>, threshold: real, id: string)
    requires |ms| == |ids|
    ensures id in Reaching(ms, ids, threshold) <==> Reaches(ms, ids, threshold, id)
  {
    if ms != [] {
      var n := |ms| - 1;
      ReachingMean(ms[..n], ids[..n], threshold, id);
      if Reaches(ms[..n], ids[..n], threshold, id) {
        var i :| 0 <= i < n && ids[..n][i] == id && ms[..n][i].score >= threshold;
        assert ids[i] == id && ms[i].score >= threshold;
      }
      if Reaches(ms, ids, threshold, id) {
        var i :| 0 <= i < |ms| && ids[i] == id && ms[i].score >= threshold;
        assert i < n ==> ids[..n][i] == id && ms[..n][i].score >= threshold;
      }
    }
  }

  lemma FrontRows(ms: seq<Match>, ids: seq<string>, n: nat, hits: seq<Hit>, tracks: map<string, Track>)
    requires RowsOf(ms, ids, hits, tracks, None) && n <= |ms|
    ensures RowsOf(ms[..n], ids[..n], hits, tracks, None)
  {
  }

  ghost predicate AllBefore(ids: seq<string>, id: string, hits: seq<Hit>) {
    forall i :: 0 <= i < |ids| ==> FirstHit(hits, ids[i]) < FirstHit(hits, id)
  }

  /** The last track was hit after all that were kept before it. */
  lemma {:induction false} ReachingBefore(ms: seq<Match>, ids: seq<string>, threshold: real, hits: seq<Hit>,
                                          tracks: map<string, Track>)
    requires RowsOf(ms, ids, hits, tracks, None) && ms != []
    ensures AllBefore(Reaching(ms[..|ms| - 1], ids[..|ms| - 1], threshold), ids[|ms| - 1], hits)
  {
    var n := |ms| - 1;
    var kept := Reaching(ms[..n], ids[..n], threshold);
    forall i | 0 <= i < |kept| ensures FirstHit(hits, kept[i]) < FirstHit(hits, ids[n]) {
      ReachingMean(ms[..n], ids[..n], threshold, kept[i]);
      var k :| 0 <= k < n && ids[..n][k] == kept[i] && ms[..n][k].score >= threshold;
      assert ids[k] == kept[i];
    }
  }

  lemma {:induction false} ReachingRows(ms: seq<Match>, ids: seq<string>, threshold: real, hits: seq<Hit>,
                                        tracks: map<string, Track>)
    requires RowsOf(ms, ids, hits, tracks, None)
    ensures RowsOf(AtLeast(ms, threshold), Reaching(ms, ids, threshold), hits, tracks, None)
  {
    if ms != [] {
      var n := |ms| - 1;
      var kept := Reaching(ms[..n], ids[..n], threshold);
      FrontRows(ms, ids, n, hits, tracks);
      ReachingRows(ms[..n], ids[..n], threshold, hits, tracks);
      ReachingBefore(ms, ids, threshold, hits, tracks);
      if ms[n].score >= threshold {
        SnocRows(AtLeast(ms[..n], threshold), kept, ms[n], ids[n], hits, tracks);
      }
    }
  }

  lemma {:induction false} RerankedRows(ms: seq<Match>, ids: seq<string>, tempo: real, hits: seq<Hit>,
                                        tracks: map<string, Track>)
    requires RowsOf(ms, ids, hits, tracks, None)
    ensures RowsOf(TempoRerank(ms, tempo), ids, hits, tracks, Some(tempo))
  {
    var out := TempoRerank(ms, tempo);
    forall i | 0 <= i < |ms| ensures RowOf(out[i], hits, tracks, ids[i], Some(tempo)) {
      assert RowOf(ms[i], hits, tracks, ids[i], None);
      var raw: real :| Best(hits, ids[i], raw, ms[i].segment) && Scored(ms[i], raw, None);
      assert Best(hits, ids[i], raw, out[i].segment) && Scored(out[i], raw, Some(tempo));
    }
  }

  /** The best score of a track reaches the threshold, where there is one. */
  ghost predicate Passes(hits: seq<Hit>, track: string, threshold: real) {
    threshold <= 0.0 || exists i: nat :: BestHit(hits, track, i) && hits[i].score >= threshold
  }

  /**
   For any hits and any track table: the candidates are one row for every track that was hit, is in
   the table and reaches the threshold, in the order of first hits.  Its segment and raw score are those
   of the first of its hits with the highest score; with a query tempo it gets 0.15 of the tempo
   proximity and the mark.
   */
  lemma {:induction false} CandidateRows(hits: seq<Hit>, tracks: map<string, Track>, threshold: real,
                                         queryTempo: Option<real>) returns (ids: seq<string>)
    ensures RowsOf(Candidates(hits, tracks, threshold, queryTempo), ids, hits, tracks, queryTempo)
    ensures forall t :: t in ids <==> t in tracks && HasHit(hits, t) && Passes(hits, t, threshold)
  {
    var d := PerTrack(hits);
    var known := Known(d, tracks);
    ids := KnownIds(d, tracks);
    AllKnown(hits, tracks);
    if threshold > 0.0 {
      ReachingRows(known, ids, threshold, hits, tracks);
      PassingIds(known, ids, threshold, hits, tracks);
      forall t ensures t in Reaching(known, ids, threshold) <==> Reaches(known, ids, threshold, t) {
        ReachingMean(known, ids, threshold, t);
      }
      known, ids := AtLeast(known, threshold), Reaching(known, ids, threshold);
    }
    if queryTempo.Some? {
      RerankedRows(known, ids, queryTempo.value, hits, tracks);
    }
  }

  lemma AllKnown(hits: seq<Hit>, tracks: map<string, Track>)
    ensures RowsOf(Known(PerTrack(hits), tracks), KnownIds(PerTrack(hits), tracks), hits, tracks, None)
    ensures forall t :: t in KnownIds(PerTrack(hits), tracks) <==> t in tracks && HasHit(hits, t)
  {
    var d := PerTrack(hits);
    PerTrackOrder(hits);
    PerTrackUnique(hits);
    forall i | 0 <= i < |d| ensures Best(hits, d[i].key, d[i].value.score, d[i].value.segment) {
      LookupAt(d, i);
      PerTrackBest(hits, d[i].key);
    }
    KnownRows(d, hits, tracks);
    forall t ensures t in KnownIds(d, tracks) <==> t in tracks && HasHit(hits, t) {
      KnownIdsMean(d, tracks, t);
      PerTrackBest(hits, t);
    }
  }

  lemma {:induction false} PassingIds(ms: seq<Match>, ids: seq<string>, threshold: real, hits: seq<Hit>,
                                      tracks: map<string, Track>)
    requires RowsOf(ms, ids, hits, tracks, None) && threshold > 0.0
    ensures forall t :: Reaches(ms, ids, threshold, t) <==> t in ids && Passes(hits, t, threshold)
  {
    forall i | 0 <= i < |ms| ensures ms[i].score >= threshold <==> Passes(hits, ids[i], threshold) {
      assert RowOf(ms[i], hits, tracks, ids[i], None);
      var raw: real :| Best(hits, ids[i], raw, ms[i].segment) && Scored(ms[i], raw, None);
      var k: nat :| BestHit(hits, ids[i], k) && hits[k].score == raw;
    }
  }
}
