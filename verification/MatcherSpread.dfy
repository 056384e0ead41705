/**
 The exact condition for oversampling: which indexes and settings make the match scores equal the
 exhaustive ranking for every query, whatever the similarities are and however ties are broken.
 */
module MatcherSpread {
  import opened Options
  import opened OrderedDicts
  import opened Sets
  import opened Sorting
  import opened Matchers
  import opened MatcherExact

  /** The different tracks of the index, in order of first appearance. */
  function TrackIds(metas: seq<Meta>): seq<string> {
    if metas == [] then []
    else
      var ids, t := TrackIds(metas[..|metas| - 1]), metas[|metas| - 1].track;
      if t in ids then ids else ids + [t]
  }

  function Size(metas: seq<Meta>): string -> real {
    (t: string) => |Owned(metas, t)| as real
  }

  /** Tracks with the most segments first. */
  function BySize(metas: seq<Meta>): seq<string> {
    SortDesc(TrackIds(metas), Size(metas))
  }

  /** The number of segments that the given tracks own. */
  function Total(metas: seq<Meta>, tracks: seq<string>): nat {
    if tracks == [] then 0 else |Owned(metas, tracks[0])| + Total(metas, tracks[1..])
  }

  /**
   One track fewer than the result needs cannot fill the `k` searched places: not even the biggest
   `topK - 1` tracks, or all but the smallest when there are no more than `topK`.
   */
  predicate Spread(metas: seq<Meta>, topK: nat, k: nat) {
    var need := Smaller(topK, |TrackIds(metas)|);
    need > 0 ==> Total(metas, Take(BySize(metas), need - 1)) < Smaller(k, |metas|)
  }

  /** The match scores are the exhaustive ranking. */
  ghost predicate Exact(sims: seq<real>, metas: seq<Meta>, tracks: map<string, Track>, ids: seq<nat>, topK: nat,
                        threshold: real)
    requires |sims| == |metas| && forall i :: 0 <= i < |ids| ==> ids[i] < |sims|
  {
    KeysOf(Ranked(HitsOf(sims, metas, ids), tracks, topK, threshold, None), Score) == Exhaustive(sims, metas, topK)
  }

  // ---------------------------------------------------------------- tracks of the index

  lemma {:induction false} TrackIdsOnce(metas: seq<Meta>)
    ensures Distinct(TrackIds(metas))
    ensures forall t :: t in TrackIds(metas) <==> exists i :: 0 <= i < |metas| && metas[i].track == t
  {
    if metas != [] {
      var n := |metas| - 1;
      var front := metas[..n];
      TrackIdsOnce(front);
      assert forall i :: 0 <= i < n ==> front[i] == metas[i];
      forall t ensures t in TrackIds(metas) <==> exists i :: 0 <= i < |metas| && metas[i].track == t {
        if t in TrackIds(front) {
          var i :| 0 <= i < n && front[i].track == t;
          assert metas[i].track == t;
        }
        assert metas[n].track in TrackIds(metas);
      }
    }
  }

  /** Bigger tracks come first. */
  ghost predicate BiggestFirst(metas: seq<Meta>, tracks: seq<string>) {
    forall i, j :: 0 <= i < j < |tracks| ==> |Owned(metas, tracks[i])| >= |Owned(metas, tracks[j])|
  }

  lemma BySizeOrder(metas: seq<Meta>)
    ensures Distinct(BySize(metas)) && BiggestFirst(metas, BySize(metas))
    ensures AsSet(BySize(metas)) == AsSet(TrackIds(metas)) && |BySize(metas)| == |TrackIds(metas)|
  {
    var all, sorted, key := TrackIds(metas), BySize(metas), Size(metas);
    TrackIdsOnce(metas);
    SortMultiset(all, key);
    SameDistinct(all, sorted);
    forall t ensures t in all <==> t in sorted {
      assert t in all <==> t in multiset(all);
      assert t in sorted <==> t in multiset(sorted);
    }
    SortKeys(all, key);
    SortDescending(KeysOf(all, key));
    var keys := KeysOf(sorted, key);
    forall i, j | 0 <= i < j < |sorted| ensures |Owned(metas, sorted[i])| >= |Owned(metas, sorted[j])| {
      assert keys[i] >= keys[j];
    }
  }

  // ---------------------------------------------------------------- the biggest tracks own the most

  function OwnedBy(metas: seq<Meta>, few: set<string>): set<nat> {
    set i: nat | i < |metas| && metas[i].track in few
  }

  lemma OwnedSplit(metas: seq<Meta>, few: set<string>, t: string)
    requires t in few
    ensures |OwnedBy(metas, few)| == |Owned(metas, t)| + |OwnedBy(metas, few - {t})|
  {
    assert OwnedBy(metas, few) == Owned(metas, t) + OwnedBy(metas, few - {t});
    assert Owned(metas, t) !! OwnedBy(metas, few - {t});
  }

  lemma {:induction false} TotalIsOwned(metas: seq<Meta>, tracks: seq<string>)
    requires Distinct(tracks)
    ensures Total(metas, tracks) == |OwnedBy(metas, AsSet(tracks))|
  {
    if tracks == [] {
      assert OwnedBy(metas, {}) == {};
    } else {
      var t, rest := tracks[0], tracks[1..];
      TotalIsOwned(metas, rest);
      OwnedSplit(metas, AsSet(tracks), t);
      assert tracks == [t] + rest;
      assert AsSet(tracks) - {t} == AsSet(rest);
    }
  }

  /** A track of `few`: the biggest of all, when it is among them. */
  lemma OneOfFew(metas: seq<Meta>, tracks: seq<string>, few: set<string>) returns (x: string)
    requires Distinct(tracks) && BiggestFirst(metas, tracks) && few <= AsSet(tracks) && few != {}
    ensures x in few && few - {x} <= AsSet(tracks[1..])
    ensures tracks != [] && |Owned(metas, x)| <= |Owned(metas, tracks[0])|
  {
    x := AnyOf(few);
    if tracks[0] in few {
      x := tracks[0];
    }
    var i :| 0 <= i < |tracks| && tracks[i] == x;
    assert tracks == [tracks[0]] + tracks[1..];
  }

  lemma TotalTake(metas: seq<Meta>, tracks: seq<string>, n: nat)
    requires tracks != [] && n > 0
    ensures Total(metas, Take(tracks, n)) == |Owned(metas, tracks[0])| + Total(metas, Take(tracks[1..], n - 1))
  {
    assert Take(tracks, n)[1..] == Take(tracks[1..], n - 1);
  }

  lemma RestOrdered(metas: seq<Meta>, tracks: seq<string>)
    requires Distinct(tracks) && BiggestFirst(metas, tracks) && tracks != []
    ensures Distinct(tracks[1..]) && BiggestFirst(metas, tracks[1..])
  {
    assert forall i :: 0 <= i < |tracks[1..]| ==> tracks[1..][i] == tracks[i + 1];
  }

  lemma NothingOwned(metas: seq<Meta>)
    ensures |OwnedBy(metas, {})| == 0
  {
    assert OwnedBy(metas, {}) == {};
  }

  lemma OneMoreTrack(metas: seq<Meta>, tracks: seq<string>, few: set<string>, x: string, n: nat)
    requires tracks != [] && n > 0 && x in few && |Owned(metas, x)| <= |Owned(metas, tracks[0])|
    requires |OwnedBy(metas, few - {x})| <= Total(metas, Take(tracks[1..], n - 1))
    ensures |OwnedBy(metas, few)| <= Total(metas, Take(tracks, n))
  {
    OwnedSplit(metas, few, x);
    TotalTake(metas, tracks, n);
  }

  /** No `n` tracks own more segments than the biggest `n`. */
  lemma {:induction false} BiggestOwnMost(metas: seq<Meta>, tracks: seq<string>, few: set<string>, n: nat)
    requires Distinct(tracks) && BiggestFirst(metas, tracks) && few <= AsSet(tracks) && |few| <= n
    ensures |OwnedBy(metas, few)| <= Total(metas, Take(tracks, n))
    decreases n
  {
    if few == {} {
      NothingOwned(metas);
    } else {
      var x := OneOfFew(metas, tracks, few);
      RestOrdered(metas, tracks);
      BiggestOwnMost(metas, tracks[1..], few - {x}, n - 1);
      OneMoreTrack(metas, tracks, few, x, n);
    }
  }

  // ---------------------------------------------------------------- what the condition says

  /** The tracks of `few` that the index knows own what `few` owns. */
  lemma KnownFew(metas: seq<Meta>, few: set<string>) returns (known: set<string>)
    ensures known <= AsSet(TrackIds(metas)) && |known| <= |few|
    ensures OwnedBy(metas, known) == OwnedBy(metas, few)
  {
    known := few * AsSet(TrackIds(metas));
    TrackIdsOnce(metas);
    SubsetSize(known, few);
  }

  lemma OwnedAtMost(metas: seq<Meta>, few: set<string>, n: nat)
    requires |few| <= n
    ensures |OwnedBy(metas, few)| <= Total(metas, Take(BySize(metas), n))
  {
    var known := KnownFew(metas, few);
    BySizeOrder(metas);
    BiggestOwnMost(metas, BySize(metas), known, n);
  }

  /** Fewer tracks than the result needs own fewer segments than are searched. */
  lemma SpreadBounds(metas: seq<Meta>, topK: nat, k: nat, few: set<string>)
    requires Spread(metas, topK, k) && |few| < Smaller(topK, |TrackIds(metas)|)
    ensures |OwnedBy(metas, few)| < Smaller(k, |metas|)
  {
    OwnedAtMost(metas, few, Smaller(topK, |TrackIds(metas)|) - 1);
  }

  /** The biggest tracks, one fewer than the result needs. */
  ghost function Crowd(metas: seq<Meta>, topK: nat): set<string>
    requires topK > 0 && metas != []
  {
    AsSet(Take(BySize(metas), Smaller(topK, |TrackIds(metas)|) - 1))
  }

  lemma NonEmptyTracks(metas: seq<Meta>)
    ensures metas == [] <==> TrackIds(metas) == []
  {
  }

  /** Where the condition fails, the biggest tracks fill the search. */
  lemma CrowdFills(metas: seq<Meta>, topK: nat, k: nat)
    requires !Spread(metas, topK, k)
    ensures topK > 0 && metas != []
    ensures |Crowd(metas, topK)| < Smaller(topK, |TrackIds(metas)|)
    ensures |OwnedBy(metas, Crowd(metas, topK))| >= Smaller(k, |metas|)
  {
    BySizeOrder(metas);
    var big := Take(BySize(metas), Smaller(topK, |TrackIds(metas)|) - 1);
    DistinctSize(big);
    TotalIsOwned(metas, big);
  }

  /** The condition in terms of sets of tracks. */
  lemma SpreadMeans(metas: seq<Meta>, topK: nat, k: nat)
    ensures Spread(metas, topK, k)
            <==> forall few: set<string> :: |few| < Smaller(topK, |TrackIds(metas)|) ==>
                   |OwnedBy(metas, few)| < Smaller(k, |metas|)
  {
    if Spread(metas, topK, k) {
      forall few: set<string> | |few| < Smaller(topK, |TrackIds(metas)|)
        ensures |OwnedBy(metas, few)| < Smaller(k, |metas|)
      {
        SpreadBounds(metas, topK, k, few);
      }
    } else {
      CrowdFills(metas, topK, k);
    }
  }

  // ---------------------------------------------------------------- enough

  lemma AllTracks(sims: seq<real>, metas: seq<Meta>)
    requires |sims| == |metas|
    ensures |PerTrack(AllHits(sims, metas))| == |TrackIds(metas)|
  {
    var all := AllHits(sims, metas);
    var d := PerTrack(all);
    PerTrackUnique(all);
    UniqueKeys(d);
    TrackIdsOnce(metas);
    DistinctSize(TrackIds(metas));
    forall t ensures t in Keys(d) <==> t in TrackIds(metas) {
      PerTrackIsBest(all, t);
      if t in TrackIds(metas) {
        var i :| 0 <= i < |metas| && metas[i].track == t;
        assert all[i].meta.track == t;
      }
    }
    assert Keys(d) == AsSet(TrackIds(metas));
  }

  /** The searched segments all belong to the tracks found. */
  lemma FoundOwnSearched(sims: seq<real>, metas: seq<Meta>, k: nat, ids: seq<nat>)
    requires |sims| == |metas| && IsTop(sims, k, ids)
    ensures Smaller(k, |metas|) <= |OwnedBy(metas, Keys(PerTrack(HitsOf(sims, metas, ids))))|
  {
    var e := PerTrack(HitsOf(sims, metas, ids));
    SearchedTracks(sims, metas, ids);
    DistinctSize(ids);
    SubsetSize(AsSet(ids), OwnedBy(metas, Keys(e)));
  }

  /** On a spread index every search touches `topK` tracks, or all there are. */
  lemma SpreadTouchesEnough(sims: seq<real>, metas: seq<Meta>, k: nat, ids: seq<nat>, topK: nat)
    requires |sims| == |metas| && IsTop(sims, k, ids) && Spread(metas, topK, k)
    ensures |PerTrack(HitsOf(sims, metas, ids))| >= Smaller(topK, |PerTrack(AllHits(sims, metas))|)
  {
    var e := PerTrack(HitsOf(sims, metas, ids));
    AllTracks(sims, metas);
    PerTrackUnique(HitsOf(sims, metas, ids));
    UniqueKeys(e);
    FoundOwnSearched(sims, metas, k, ids);
    if |e| < Smaller(topK, |TrackIds(metas)|) {
      SpreadBounds(metas, topK, k, Keys(e));
    }
  }

  /**
   On a spread index, with every track known, no threshold and no rerank, the match scores are the
   exhaustive ranking, for any similarities and any tie-breaking.
   */
  lemma {:induction false} SpreadIsExact(sims: seq<real>, metas: seq<Meta>, tracks: map<string, Track>, k: nat,
                                         ids: seq<nat>, topK: nat, threshold: real)
    requires |sims| == |metas| && IsTop(sims, k, ids) && Spread(metas, topK, k)
    requires threshold <= 0.0 && forall i :: 0 <= i < |metas| ==> metas[i].track in tracks
    ensures Exact(sims, metas, tracks, ids, topK, threshold)
  {
    SpreadTouchesEnough(sims, metas, k, ids, topK);
    ExhaustiveExactly(sims, metas, tracks, k, ids, topK, threshold);
  }

  // ---------------------------------------------------------------- needed

  /** Similarities of unit vectors lie between -1 and 1. */
  ghost predicate Cosines(sims: seq<real>) {
    forall i :: 0 <= i < |sims| ==> -1.0 <= sims[i] <= 1.0
  }

  /** The segments of `few` tracks point where the query does, and all others at right angles to it. */
  function Aligned(metas: seq<Meta>, few: set<string>): (sims: seq<real>)
    ensures |sims| == |metas| && forall i :: 0 <= i < |sims| ==> sims[i] == if metas[i].track in few then 1.0 else 0.0
  {
    seq(|metas|, i requires 0 <= i < |metas| => if metas[i].track in few then 1.0 else 0.0)
  }

  lemma BetterIsFound(sims: seq<real>, k: nat, ids: seq<nat>, i: nat, n: nat)
    requires IsTop(sims, k, ids) && i < |ids| && n < |sims| && sims[ids[i]] < sims[n]
    ensures n in ids
  {
  }

  /** When the aligned segments fill the search, it returns no other. */
  lemma OnlyAligned(metas: seq<Meta>, few: set<string>, k: nat, ids: seq<nat>)
    requires IsTop(Aligned(metas, few), k, ids) && |OwnedBy(metas, few)| >= Smaller(k, |metas|)
    ensures forall i :: 0 <= i < |ids| ==> metas[ids[i]].track in few
  {
    var sims, own := Aligned(metas, few), OwnedBy(metas, few);
    forall i | 0 <= i < |ids| ensures metas[ids[i]].track in few {
      if metas[ids[i]].track !in few {
        forall n | n in own ensures n in AsSet(ids) {
          BetterIsFound(sims, k, ids, i, n);
        }
        DistinctSize(ids);
        SubsetSize(own + {ids[i]}, AsSet(ids));
      }
    }
  }

  lemma FoundAmong(sims: seq<real>, metas: seq<Meta>, ids: seq<nat>, few: set<string>)
    requires |sims| == |metas| && forall i :: 0 <= i < |ids| ==> ids[i] < |sims| && metas[ids[i]].track in few
    ensures |PerTrack(HitsOf(sims, metas, ids))| <= |few|
  {
    var hits := HitsOf(sims, metas, ids);
    var e := PerTrack(hits);
    PerTrackUnique(hits);
    UniqueKeys(e);
    forall t | t in Keys(e) ensures t in few {
      PerTrackIsBest(hits, t);
    }
    SubsetSize(Keys(e), few);
  }

  /** When too few tracks fill the search, the result is wrong, however ties are broken. */
  lemma {:induction false} AlignedIsWrong(metas: seq<Meta>, few: set<string>, tracks: map<string, Track>, k: nat,
                                          ids: seq<nat>, topK: nat, threshold: real)
    requires |few| < Smaller(topK, |TrackIds(metas)|) && |OwnedBy(metas, few)| >= Smaller(k, |metas|)
    requires IsTop(Aligned(metas, few), k, ids)
    requires threshold <= 0.0 && forall i :: 0 <= i < |metas| ==> metas[i].track in tracks
    ensures !Exact(Aligned(metas, few), metas, tracks, ids, topK, threshold)
  {
    var sims := Aligned(metas, few);
    OnlyAligned(metas, few, k, ids);
    FoundAmong(sims, metas, ids, few);
    AllTracks(sims, metas);
    ExhaustiveExactly(sims, metas, tracks, k, ids, topK, threshold);
  }

  lemma SomeSelection(sims: seq<real>, k: nat) returns (ids: seq<nat>)
    ensures IsTop(sims, k, ids)
  {
    var key := (i: nat) => if i < |sims| then sims[i] else 0.0;
    TopOfAll(sims, k, key);
    ids := Take(SortDesc<nat>(Positions(|sims|), key), k);
  }

  /** For all cosines and all exact selections of `k` segments, the scores are the exhaustive ones. */
  ghost predicate AlwaysExact(metas: seq<Meta>, tracks: map<string, Track>, k: nat, topK: nat, threshold: real) {
    forall sims: seq<real>, ids: seq<nat> :: |sims| == |metas| && Cosines(sims) && IsTop(sims, k, ids) ==>
      Exact(sims, metas, tracks, ids, topK, threshold)
  }

  /**
   With every track known, no threshold and no rerank: searching `k` segments gives the exhaustive
   scores for every query exactly when the index is spread.
   */
  lemma {:induction false} OversamplingExactly(metas: seq<Meta>, tracks: map<string, Track>, k: nat, topK: nat,
                                               threshold: real)
    requires threshold <= 0.0 && forall i :: 0 <= i < |metas| ==> metas[i].track in tracks
    ensures AlwaysExact(metas, tracks, k, topK, threshold) <==> Spread(metas, topK, k)
  {
    if Spread(metas, topK, k) {
      forall sims: seq<real>, ids: seq<nat> | |sims| == |metas| && Cosines(sims) && IsTop(sims, k, ids)
        ensures Exact(sims, metas, tracks, ids, topK, threshold)
      {
        SpreadIsExact(sims, metas, tracks, k, ids, topK, threshold);
      }
    } else {
      CrowdFills(metas, topK, k);
      var few := Crowd(metas, topK);
      var ids := SomeSelection(Aligned(metas, few), k);
      AlignedIsWrong(metas, few, tracks, k, ids, topK, threshold);
    }
  }

  // ---------------------------------------------------------------- few segments per track are enough

  lemma {:induction false} TotalAtMost(metas: seq<Meta>, tracks: seq<string>, mult: nat)
    requires forall t :: |Owned(metas, t)| <= mult
    ensures Total(metas, tracks) <= mult * |tracks|
  {
    if tracks != [] {
      TotalAtMost(metas, tracks[1..], mult);
      assert mult * |tracks| == mult * |tracks[1..]| + mult;
    }
  }

  /** Tracks that are not all tracks do not own all segments. */
  lemma SomeOwnLess(metas: seq<Meta>, few: set<string>)
    requires |few| < |TrackIds(metas)|
    ensures |OwnedBy(metas, few)| < |metas|
  {
    var all := AsSet(TrackIds(metas));
    TrackIdsOnce(metas);
    DistinctSize(TrackIds(metas));
    if all <= few {
      SubsetSize(all, few);
    }
    var t :| t in all && t !in few;
    var i :| 0 <= i < |metas| && metas[i].track == t;
    var places := Positions(|metas|);
    forall x: nat | x < |metas| ensures x in AsSet(places) {
      assert places[x] == x;
    }
    DistinctSize(places);
    SubsetSize(OwnedBy(metas, few) + {i}, AsSet(places));
  }

  lemma FewerSearched(owned: nat, tracks: nat, topK: nat, mult: nat)
    requires owned <= mult * tracks && tracks < topK && mult > 0
    ensures owned < topK * mult
  {
    assert mult * tracks < mult * topK;
  }

  /** No track owns more than `mult` segments: the index is spread for `topK * mult` searched segments. */
  lemma CountingIsSpread(metas: seq<Meta>, topK: nat, mult: nat)
    requires forall t :: |Owned(metas, t)| <= mult
    ensures Spread(metas, topK, topK * mult)
  {
    if !Spread(metas, topK, topK * mult) {
      CrowdFills(metas, topK, topK * mult);
      var few := Crowd(metas, topK);
      var big := Take(BySize(metas), Smaller(topK, |TrackIds(metas)|) - 1);
      BySizeOrder(metas);
      TotalAtMost(metas, big, mult);
      TotalIsOwned(metas, big);
      assert 0 in Owned(metas, metas[0].track);
      FewerSearched(|OwnedBy(metas, few)|, |big|, topK, mult);
      SomeOwnLess(metas, few);
    }
  }

  /** When no track owns more than `mult` segments, `topK * mult` segments touch `topK` tracks or all of them. */
  lemma CountingIsEnough(sims: seq<real>, metas: seq<Meta>, ids: seq<nat>, topK: nat, mult: nat)
    requires |sims| == |metas| && IsTop(sims, topK * mult, ids)
    requires forall t :: |Owned(metas, t)| <= mult
    ensures |PerTrack(HitsOf(sims, metas, ids))| >= Smaller(topK, |PerTrack(AllHits(sims, metas))|)
  {
    CountingIsSpread(metas, topK, mult);
    SpreadTouchesEnough(sims, metas, topK * mult, ids, topK);
  }

  /**
   When no track owns more than `mult` segments and every track is known, with no threshold and no
   rerank, the match scores are exactly the exhaustive ranking, whatever way the search breaks ties.
   */
  lemma {:induction false} OversamplingIsExact(sims: seq<real>, metas: seq<Meta>, tracks: map<string, Track>,
                                               ids: seq<nat>, topK: nat, mult: nat, threshold: real)
    requires |sims| == |metas| && IsTop(sims, topK * mult, ids)
    requires threshold <= 0.0 && forall i :: 0 <= i < |metas| ==> metas[i].track in tracks
    requires forall t :: |Owned(metas, t)| <= mult
    ensures Exact(sims, metas, tracks, ids, topK, threshold)
  {
    CountingIsSpread(metas, topK, mult);
    SpreadIsExact(sims, metas, tracks, topK * mult, ids, topK, threshold);
  }

  // ---------------------------------------------------------------- two indexes

  const CROWDED := [Meta("a", 0), Meta("a", 1), Meta("b", 0)]

  /** Two results, one searched segment for each: both go to one track, and the other one is missed. */
  lemma {:induction false} OversamplingCanMiss(tracks: map<string, Track>, ids: seq<nat>, threshold: real)
    requires threshold <= 0.0 && "a" in tracks && "b" in tracks && IsTop([1.0, 1.0, 0.0], 2 * 1, ids)
    ensures !Exact([1.0, 1.0, 0.0], CROWDED, tracks, ids, 2, threshold)
  {
    assert OwnedBy(CROWDED, {"a"}) == {0, 1};
    assert Aligned(CROWDED, {"a"}) == [1.0, 1.0, 0.0];
    TwoTracks(CROWDED);
    AlignedIsWrong(CROWDED, {"a"}, tracks, 2, ids, 2, threshold);
  }

  lemma TwoTracks(metas: seq<Meta>)
    requires |metas| == 3 && metas[0].track == "a" && metas[2].track == "b"
    ensures |TrackIds(metas)| >= 2
  {
    TrackIdsOnce(metas);
    DistinctSize(TrackIds(metas));
    SubsetSize({"a", "b"}, AsSet(TrackIds(metas)));
  }

  const LOADED := [Meta("a", 0), Meta("a", 1), Meta("a", 2), Meta("b", 0)]

  /** A track with more segments than `mult` does no harm where the search is longer than the track. */
  lemma LoadedIsSpread()
    ensures |Owned(LOADED, "a")| > 2 && Spread(LOADED, 2, 2 * 2)
  {
    assert Owned(LOADED, "a") == {0, 1, 2};
    forall few: set<string> | |few| < 2 ensures |OwnedBy(LOADED, few)| < 4 {
      if "a" in few && "b" in few {
        SubsetSize({"a", "b"}, few);
      }
      var missed := if "a" in few then 3 else 0;
      assert OwnedBy(LOADED, few) <= {0, 1, 2, 3} - {missed};
      SubsetSize(OwnedBy(LOADED, few), {0, 1, 2, 3} - {missed});
    }
    SpreadMeans(LOADED, 2, 4);
  }
}
