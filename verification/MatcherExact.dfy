/**
 When oversampling is enough: searching only `topK * mult` segments gives the scores of ranking
 every track by its best segment over the whole index.
 */
module MatcherExact {
  import opened Options
  import opened OrderedDicts
  import opened Sets
  import opened Sorting
  import opened Matchers

  // ---------------------------------------------------------------- the best hit per track is the maximum

  ghost predicate HasHit(hits: seq<Hit>, track: string) {
    exists i :: 0 <= i < |hits| && hits[i].meta.track == track
  }

  /** `b` is the highest score among the track's hits, and one of them has it. */
  ghost predicate IsBest(hits: seq<Hit>, track: string, score: real) {
    && (exists i :: 0 <= i < |hits| && hits[i].meta.track == track && hits[i].score == score)
    && (forall i :: 0 <= i < |hits| && hits[i].meta.track == track ==> hits[i].score <= score)
  }

  lemma {:induction false} PerTrackUnique(hits: seq<Hit>)
    ensures Unique(PerTrack(hits))
  {
    if hits != [] {
      var d, h := PerTrack(hits[..|hits| - 1]), hits[|hits| - 1];
      PerTrackUnique(hits[..|hits| - 1]);
      AssignUnique(d, h.meta.track, Best(h.score, h.meta.segment));
    }
  }

  lemma IsBestSnoc(front: seq<Hit>, h: Hit, track: string, cur: Option<real>)
    requires if cur.Some? then IsBest(front, track, cur.value) else !HasHit(front, track)
    ensures h.meta.track == track ==>
              IsBest(front + [h], track, if cur.None? || h.score > cur.value then h.score else cur.value)
    ensures h.meta.track != track && cur.Some? ==> IsBest(front + [h], track, cur.value)
    ensures h.meta.track != track && cur.None? ==> !HasHit(front + [h], track)
  {
    var all := front + [h];
    assert all[|front|] == h && forall i :: 0 <= i < |front| ==> all[i] == front[i];
    if cur.Some? {
      var i :| 0 <= i < |front| && front[i].meta.track == track && front[i].score == cur.value;
      assert all[i] == front[i];
    }
  }

  function ScoreOf(b: Option<Best>): Option<real> {
    match b case Some(x) => Some(x.score) case None => None
  }

  /** Every track with a hit is in the dictionary, with the best score among its hits. */
  lemma {:induction false} PerTrackIsBest(hits: seq<Hit>, track: string)
    ensures var b := Lookup(PerTrack(hits), track);
            if b.Some? then IsBest(hits, track, b.value.score) else !HasHit(hits, track)
  {
    if hits != [] {
      var front, h := hits[..|hits| - 1], hits[|hits| - 1];
      var d := PerTrack(front);
      PerTrackIsBest(front, track);
      AssignLookup(d, h.meta.track, Best(h.score, h.meta.segment), track);
      IsBestSnoc(front, h, track, ScoreOf(Lookup(d, track)));
      assert hits == front + [h];
    }
  }

  // ---------------------------------------------------------------- scores of a dictionary

  function Scores(d: Dict<string, Best>): (r: seq<real>)
    ensures |r| == |d| && forall i :: 0 <= i < |d| ==> r[i] == d[i].value.score
  {
    seq(|d|, i requires 0 <= i < |d| => d[i].value.score)
  }

  /** `d` has all of `e`'s tracks with the same scores. */
  ghost predicate Covers(d: Dict<string, Best>, e: Dict<string, Best>) {
    forall i :: 0 <= i < |e| ==> Lookup(d, e[i].key).Some? && Lookup(d, e[i].key).value.score == e[i].value.score
  }

  /** The slots of `d` whose key is not in `e`. */
  function Others(d: Dict<string, Best>, e: Dict<string, Best>): Dict<string, Best>
    decreases |e|
  {
    if e == [] then d else Others(Remove(d, e[0].key), e[1..])
  }

  lemma ScoresAt(d: Dict<string, Best>, i: nat)
    requires i < |d|
    ensures Scores(d) == Scores(d[..i]) + [d[i].value.score] + Scores(d[i + 1..])
    ensures Scores(d[..i] + d[i + 1..]) == Scores(d[..i]) + Scores(d[i + 1..])
  {
  }

  lemma ScoresRemove(d: Dict<string, Best>, k: string)
    requires Unique(d) && Lookup(d, k).Some?
    ensures multiset(Scores(d)) == multiset{Lookup(d, k).value.score} + multiset(Scores(Remove(d, k)))
  {
    var i :| 0 <= i < |d| && d[i].key == k;
    LookupAt(d, i);
    RemoveAt(d, i);
    ScoresAt(d, i);
    CutOne(Scores(d[..i]), d[i].value.score, Scores(d[i + 1..]));
  }

  lemma {:induction false} CutOne(a: seq<real>, x: real, b: seq<real>)
    ensures multiset(a + [x] + b) == multiset{x} + multiset(a + b)
  {
  }

  lemma {:induction false} LookupRemove(d: Dict<string, Best>, k: string, q: string)
    requires q != k
    ensures Lookup(Remove(d, k), q) == Lookup(d, q)
  {
    if d != [] {
      LookupRemove(d[1..], k, q);
      if d[0].key != k {
        assert ([d[0]] + Remove(d[1..], k))[1..] == Remove(d[1..], k);
      }
    }
  }

  lemma RestCovered(d: Dict<string, Best>, e: Dict<string, Best>)
    requires Unique(e) && Covers(d, e) && e != []
    ensures Unique(e[1..]) && Covers(Remove(d, e[0].key), e[1..])
  {
    var k, rest := e[0].key, e[1..];
    assert forall i :: 0 <= i < |rest| ==> rest[i] == e[i + 1];
    forall i | 0 <= i < |rest|
      ensures Lookup(Remove(d, k), rest[i].key).Some?
      ensures Lookup(Remove(d, k), rest[i].key).value.score == rest[i].value.score
    {
      LookupRemove(d, k, rest[i].key);
    }
  }

  lemma ScoresFirst(e: Dict<string, Best>)
    requires e != []
    ensures multiset(Scores(e)) == multiset{e[0].value.score} + multiset(Scores(e[1..]))
  {
    assert Scores(e) == [e[0].value.score] + Scores(e[1..]);
  }

  /** The scores of `d` are those of `e` and those of the other tracks. */
  lemma {:induction false} ScoresSplit(d: Dict<string, Best>, e: Dict<string, Best>)
    requires Unique(d) && Unique(e) && Covers(d, e)
    ensures multiset(Scores(d)) == multiset(Scores(e)) + multiset(Scores(Others(d, e)))
    ensures |d| == |e| + |Others(d, e)|
    decreases |e|
  {
    if e == [] {
      assert Scores(e) == [];
    } else {
      RestCovered(d, e);
      ScoresRemove(d, e[0].key);
      RemoveUnique(d, e[0].key);
      ScoresSplit(Remove(d, e[0].key), e[1..]);
      ScoresFirst(e);
    }
  }

  lemma {:induction false} OthersMembers(d: Dict<string, Best>, e: Dict<string, Best>, s: Slot<string, Best>)
    requires s in Others(d, e)
    ensures s in d && !Has(e, s.key)
    decreases |e|
  {
    if e != [] {
      OthersMembers(Remove(d, e[0].key), e[1..], s);
      RemoveMembers(d, e[0].key);
      assert forall i :: 1 <= i < |e| ==> e[i] == e[1..][i - 1];
    }
  }

  // ---------------------------------------------------------------- the search result against the whole index

  /** Every segment of the index as a hit. */
  function AllHits(sims: seq<real>, metas: seq<Meta>): (hits: seq<Hit>)
    requires |sims| == |metas|
    ensures |hits| == |sims| && forall i :: 0 <= i < |hits| ==> hits[i] == Hit(metas[i], sims[i])
  {
    seq(|sims|, i requires 0 <= i < |sims| => Hit(metas[i], sims[i]))
  }

  /** Scores of every track by its best segment over the whole index, best first, cut at `topK`. */
  function Exhaustive(sims: seq<real>, metas: seq<Meta>, topK: nat): seq<real>
    requires |sims| == |metas|
  {
    Take(SortReals(Scores(PerTrack(AllHits(sims, metas)))), topK)
  }

  /** A searched track's best searched segment is its best segment overall. */
  lemma {:induction false} SearchedBestIsBest(sims: seq<real>, metas: seq<Meta>, k: nat, ids: seq<nat>, track: string,
                                              score: real)
    requires |sims| == |metas| && IsTop(sims, k, ids) && IsBest(HitsOf(sims, metas, ids), track, score)
    ensures IsBest(AllHits(sims, metas), track, score)
  {
    var hits, all := HitsOf(sims, metas, ids), AllHits(sims, metas);
    var i :| 0 <= i < |hits| && hits[i].meta.track == track && hits[i].score == score;
    assert all[ids[i]] == hits[i];
    forall n | 0 <= n < |all| && all[n].meta.track == track ensures all[n].score <= score {
      if n in ids {
        var j :| 0 <= j < |ids| && ids[j] == n;
        assert hits[j] == all[n];
      } else {
        assert sims[ids[i]] >= sims[n];
      }
    }
  }

  lemma {:induction false} BestIsUnique(hits: seq<Hit>, track: string, a: real, b: real)
    requires IsBest(hits, track, a) && IsBest(hits, track, b)
    ensures a == b
  {
  }

  lemma SearchCovered(sims: seq<real>, metas: seq<Meta>, k: nat, ids: seq<nat>)
    requires |sims| == |metas| && IsTop(sims, k, ids)
    ensures Covers(PerTrack(AllHits(sims, metas)), PerTrack(HitsOf(sims, metas, ids)))
  {
    var all, hits := AllHits(sims, metas), HitsOf(sims, metas, ids);
    var d, e := PerTrack(all), PerTrack(hits);
    PerTrackUnique(hits);
    forall i | 0 <= i < |e| ensures Lookup(d, e[i].key).Some? && Lookup(d, e[i].key).value.score == e[i].value.score {
      LookupAt(e, i);
      PerTrackIsBest(hits, e[i].key);
      PerTrackIsBest(all, e[i].key);
      SearchedBestIsBest(sims, metas, k, ids, e[i].key, e[i].value.score);
      assert HasHit(all, e[i].key);
      BestIsUnique(all, e[i].key, Lookup(d, e[i].key).value.score, e[i].value.score);
    }
  }

  /** Tracks the search missed score no higher than any track it found. */
  lemma MissedScoreLower(sims: seq<real>, metas: seq<Meta>, k: nat, ids: seq<nat>, i: nat, j: nat)
    requires |sims| == |metas| && IsTop(sims, k, ids)
    requires var e := PerTrack(HitsOf(sims, metas, ids));
             var rest := Others(PerTrack(AllHits(sims, metas)), e);
             i < |e| && j < |rest|
    ensures var e := PerTrack(HitsOf(sims, metas, ids));
            var rest := Others(PerTrack(AllHits(sims, metas)), e);
            e[i].value.score >= rest[j].value.score
  {
    var all, hits := AllHits(sims, metas), HitsOf(sims, metas, ids);
    var d, e := PerTrack(all), PerTrack(hits);
    var rest := Others(d, e);
    PerTrackUnique(all);
    PerTrackUnique(hits);
    OthersMembers(d, e, rest[j]);
    var t := rest[j].key;
    LookupMember(d, t, rest[j].value);
    PerTrackIsBest(all, t);
    PerTrackIsBest(hits, t);
    LookupAt(e, i);
    PerTrackIsBest(hits, e[i].key);
    var n :| 0 <= n < |all| && all[n].meta.track == t && all[n].score == rest[j].value.score;
    var m :| 0 <= m < |hits| && hits[m].meta.track == e[i].key && hits[m].score == e[i].value.score;
    assert !HasHit(hits, t);
    assert forall x :: 0 <= x < |ids| ==> hits[x].meta == metas[ids[x]];
    assert n !in ids;
    assert sims[ids[m]] >= sims[n];
  }

  lemma TracksKnown(hits: seq<Hit>, tracks: map<string, Track>)
    requires forall i :: 0 <= i < |hits| ==> hits[i].meta.track in tracks
    ensures forall i :: 0 <= i < |PerTrack(hits)| ==> PerTrack(hits)[i].key in tracks
  {
    var d := PerTrack(hits);
    PerTrackUnique(hits);
    forall i | 0 <= i < |d| ensures d[i].key in tracks {
      LookupAt(d, i);
      PerTrackIsBest(hits, d[i].key);
    }
  }

  /** With every track known, no threshold and no rerank, the ranked scores are the sorted best scores. */
  lemma {:induction false} RankedScores(hits: seq<Hit>, tracks: map<string, Track>, topK: nat, threshold: real)
    requires threshold <= 0.0 && forall i :: 0 <= i < |hits| ==> hits[i].meta.track in tracks
    ensures KeysOf(Ranked(hits, tracks, topK, threshold, None), Score) == Take(SortReals(Scores(PerTrack(hits))), topK)
  {
    var d := PerTrack(hits);
    TracksKnown(hits, tracks);
    KnownScores(d, tracks);
    TopKeys(Known(d, tracks), topK, Score);
  }

  lemma {:induction false} KnownScores(d: Dict<string, Best>, tracks: map<string, Track>)
    requires forall i :: 0 <= i < |d| ==> d[i].key in tracks
    ensures KeysOf(Known(d, tracks), Score) == Scores(d)
    ensures forall i :: 0 <= i < |d| ==> Known(d, tracks)[i].track == tracks[d[i].key]
  {
    if d != [] {
      KnownScores(d[..|d| - 1], tracks);
      assert Scores(d) == Scores(d[..|d| - 1]) + [d[|d| - 1].value.score];
    }
  }

  function Smaller(a: nat, b: nat): nat { if a < b then a else b }

  /**
   For any exact selection of searched segments, however ties are broken: the match scores equal the
   exhaustive ranking exactly when the search touched at least `topK` tracks, or all there are.
   */
  lemma {:induction false} ExhaustiveExactly(sims: seq<real>, metas: seq<Meta>, tracks: map<string, Track>, k: nat,
                                             ids: seq<nat>, topK: nat, threshold: real)
    requires |sims| == |metas| && IsTop(sims, k, ids)
    requires threshold <= 0.0 && forall i :: 0 <= i < |metas| ==> metas[i].track in tracks
    ensures var hits := HitsOf(sims, metas, ids);
            KeysOf(Ranked(hits, tracks, topK, threshold, None), Score) == Exhaustive(sims, metas, topK)
            <==> |PerTrack(hits)| >= Smaller(topK, |PerTrack(AllHits(sims, metas))|)
  {
    var hits := HitsOf(sims, metas, ids);
    var d, e := PerTrack(AllHits(sims, metas)), PerTrack(hits);
    RankedScores(hits, tracks, topK, threshold);
    PerTrackUnique(AllHits(sims, metas));
    PerTrackUnique(hits);
    SearchCovered(sims, metas, k, ids);
    ScoresSplit(d, e);
    var rest := Scores(Others(d, e));
    if |e| >= Smaller(topK, |d|) {
      assert multiset(Scores(e) + rest) == multiset(Scores(d));
      SameMultisetSameSort(Scores(e) + rest, Scores(d));
      forall i, j | 0 <= i < |e| && 0 <= j < |rest| ensures Scores(e)[i] >= rest[j] {
        MissedScoreLower(sims, metas, k, ids, i, j);
      }
      TopOfBetterPart(Scores(e), rest, topK);
    }
  }

  // ---------------------------------------------------------------- one row per track

  ghost predicate OncePerTrack(ms: seq<Match>) {
    forall i, j :: 0 <= i < j < |ms| ==> ms[i].track != ms[j].track
  }

  /** Different track ids name different tracks. */
  ghost predicate OwnTracks(tracks: map<string, Track>) {
    forall s, t :: s in tracks && t in tracks && s != t ==> tracks[s] != tracks[t]
  }

  lemma {:induction false} KnownFrom(d: Dict<string, Best>, tracks: map<string, Track>, m: Match)
    requires m in Known(d, tracks)
    ensures exists i :: 0 <= i < |d| && d[i].key in tracks && m.track == tracks[d[i].key]
  {
    var n := |d| - 1;
    if m in Known(d[..n], tracks) {
      KnownFrom(d[..n], tracks, m);
      var i :| 0 <= i < n && d[..n][i].key in tracks && m.track == tracks[d[..n][i].key];
      assert d[i] == d[..n][i];
    } else {
      assert d[n].key in tracks && m.track == tracks[d[n].key];
    }
  }

  lemma OnceSnoc(ms: seq<Match>, m: Match)
    requires OncePerTrack(ms) && forall i :: 0 <= i < |ms| ==> ms[i].track != m.track
    ensures OncePerTrack(ms + [m])
  {
  }

  lemma {:induction false} KnownOnce(d: Dict<string, Best>, tracks: map<string, Track>)
    requires Unique(d) && OwnTracks(tracks)
    ensures OncePerTrack(Known(d, tracks))
  {
    if d != [] {
      var n := |d| - 1;
      var front := Known(d[..n], tracks);
      KnownOnce(d[..n], tracks);
      if d[n].key in tracks {
        var last := Match(tracks[d[n].key], d[n].value.score, d[n].value.segment, false);
        forall i | 0 <= i < |front| ensures front[i].track != last.track {
          KnownFrom(d[..n], tracks, front[i]);
          var k :| 0 <= k < n && d[..n][k].key in tracks && front[i].track == tracks[d[..n][k].key];
          assert d[k].key != d[n].key;
        }
        OnceSnoc(front, last);
      } else {
        assert front + [] == front;
      }
    }
  }

  lemma {:induction false} AtLeastMember(ms: seq<Match>, threshold: real, m: Match)
    requires m in AtLeast(ms, threshold)
    ensures m in ms
  {
    var n := |ms| - 1;
    if m in AtLeast(ms[..n], threshold) {
      AtLeastMember(ms[..n], threshold, m);
      assert m in ms[..n];
    }
  }

  lemma {:induction false} AtLeastOnce(ms: seq<Match>, threshold: real)
    requires OncePerTrack(ms)
    ensures OncePerTrack(AtLeast(ms, threshold))
  {
    if ms != [] {
      var n := |ms| - 1;
      var front := AtLeast(ms[..n], threshold);
      AtLeastOnce(ms[..n], threshold);
      if ms[n].score >= threshold {
        forall i | 0 <= i < |front| ensures front[i].track != ms[n].track {
          AtLeastMember(ms[..n], threshold, front[i]);
          var k :| 0 <= k < n && ms[..n][k] == front[i];
          assert ms[k].track != ms[n].track;
        }
        OnceSnoc(front, ms[n]);
      } else {
        assert front + [] == front;
      }
    }
  }

  lemma InsertMember(ms: seq<Match>, x: Match, m: Match)
    requires m in Insert(ms, x, Score)
    ensures m == x || m in ms
  {
    InsertMultiset(ms, x, Score);
    assert m in multiset(Insert(ms, x, Score));
  }

  lemma {:induction false} InsertOnce(ms: seq<Match>, x: Match)
    requires OncePerTrack(ms) && forall i :: 0 <= i < |ms| ==> ms[i].track != x.track
    ensures OncePerTrack(Insert(ms, x, Score))
  {
    if ms != [] && Score(ms[0]) >= Score(x) {
      InsertOnce(ms[1..], x);
      var rest := Insert(ms[1..], x, Score);
      forall i | 0 <= i < |rest| ensures rest[i].track != ms[0].track {
        InsertMember(ms[1..], x, rest[i]);
        if rest[i] != x {
          var k :| 0 <= k < |ms[1..]| && ms[1..][k] == rest[i];
          assert ms[k + 1].track != ms[0].track;
        }
      }
    }
  }

  lemma {:induction false} SortOnce(ms: seq<Match>)
    requires OncePerTrack(ms)
    ensures OncePerTrack(SortDesc(ms, Score))
  {
    if ms != [] {
      var n := |ms| - 1;
      var front := SortDesc(ms[..n], Score);
      SortOnce(ms[..n]);
      SortMultiset(ms[..n], Score);
      forall i | 0 <= i < |front| ensures front[i].track != ms[n].track {
        SameMember(front, ms[..n], front[i]);
        var k :| 0 <= k < n && ms[..n][k] == front[i];
        assert ms[k].track != ms[n].track;
      }
      InsertOnce(front, ms[n]);
    }
  }

  /** No track has two rows in the final list, whatever the hits, the threshold and the rerank. */
  lemma {:induction false} OneRowPerTrack(hits: seq<Hit>, tracks: map<string, Track>, topK: nat, threshold: real,
                                          queryTempo: Option<real>)
    requires OwnTracks(tracks)
    ensures OncePerTrack(Ranked(hits, tracks, topK, threshold, queryTempo))
  {
    var all := Candidates(hits, tracks, threshold, queryTempo);
    var known := Known(PerTrack(hits), tracks);
    PerTrackUnique(hits);
    KnownOnce(PerTrack(hits), tracks);
    AtLeastOnce(known, threshold);
    assert OncePerTrack(ThresholdFilter(known, threshold));
    assert OncePerTrack(all);
    SortOnce(all);
  }

  // ---------------------------------------------------------------- the segments of a track

  /** The positions of one track's segments. */
  function Owned(metas: seq<Meta>, track: string): set<nat> {
    set i: nat | i < |metas| && metas[i].track == track
  }

  lemma SearchedTracks(sims: seq<real>, metas: seq<Meta>, ids: seq<nat>)
    requires |sims| == |metas| && forall i :: 0 <= i < |ids| ==> ids[i] < |sims|
    ensures forall n :: n in ids ==> n < |metas| && Has(PerTrack(HitsOf(sims, metas, ids)), metas[n].track)
  {
    var hits := HitsOf(sims, metas, ids);
    forall n | n in ids ensures n < |metas| && Has(PerTrack(hits), metas[n].track) {
      var i :| 0 <= i < |ids| && ids[i] == n;
      PerTrackIsBest(hits, metas[n].track);
      assert hits[i].meta.track == metas[n].track;
    }
  }
}
