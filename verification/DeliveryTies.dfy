/**
 Which row a full delivery log loses, and in which order it keeps the rest.  Rows are compared by the
 time of their event, so neither follows the order in which the deliveries were recorded.
 */
module DeliveryTies {
  import opened Sorting
  import opened DeliveryLogs

  // ---------------------------------------------------------------- inserting into a full list

  lemma {:induction false} InsertAtEnd(s: seq<Delivery>, x: Delivery)
    requires forall y :: y in s ==> y.ts >= x.ts
    ensures Insert(s, x, Ts) == s + [x]
  {
    if s != [] {
      assert s[0] in s && forall y :: y in s[1..] ==> y in s;
      InsertAtEnd(s[1..], x);
    }
  }

  lemma {:induction false} InsertBeforeLast(s: seq<Delivery>, x: Delivery)
    requires s != [] && s[|s| - 1].ts < x.ts
    ensures Insert(s, x, Ts) == Insert(s[..|s| - 1], x, Ts) + [s[|s| - 1]]
  {
    var front := s[..|s| - 1];
    if |s| > 1 && s[0].ts >= x.ts {
      InsertBeforeLast(s[1..], x);
      assert s[1..][..|s| - 2] == front[1..];
    }
  }

  /** The last row of the sorted list has the smallest time. */
  lemma LastIsOldest(own: seq<Delivery>)
    requires own != []
    ensures var w := SortDesc(own, Ts)[|own| - 1];
            w in own && forall x :: x in own ==> w.ts <= x.ts
  {
    var s := SortDesc(own, Ts);
    SortMultiset(own, Ts);
    SameMember(s, own, s[|own| - 1]);
    SortKeys(own, Ts);
    SortDescending(KeysOf(own, Ts));
    forall x | x in own ensures s[|own| - 1].ts <= x.ts {
      SameMember(own, s, x);
      var i :| 0 <= i < |s| && s[i] == x;
      assert KeysOf(s, Ts)[i] >= KeysOf(s, Ts)[|own| - 1];
    }
  }

  lemma NewestLost(own: seq<Delivery>, r: Delivery)
    requires forall x :: x in own ==> x.ts >= r.ts
    ensures Take(Insert(SortDesc(own, Ts), r, Ts), |own|) == SortDesc(own, Ts)
  {
    var s := SortDesc(own, Ts);
    SortMultiset(own, Ts);
    forall y | y in s ensures y.ts >= r.ts {
      SameMember(s, own, y);
    }
    InsertAtEnd(s, r);
  }

  lemma LastReplaced(s: seq<Delivery>, r: Delivery)
    requires s != [] && s[|s| - 1].ts < r.ts
    ensures multiset(Take(Insert(s, r, Ts), |s|)) == multiset(s) - multiset{s[|s| - 1]} + multiset{r}
  {
    var front := s[..|s| - 1];
    InsertBeforeLast(s, r);
    InsertMultiset(front, r, Ts);
    SplitLast(s);
  }

  /** `w` is a row with the smallest time in `own`, and `after` holds `r` in its place. */
  ghost predicate Replaced(own: seq<Delivery>, after: seq<Delivery>, w: Delivery, r: Delivery) {
    && w in own && (forall x :: x in own ==> w.ts <= x.ts)
    && multiset(after) == multiset(own) - multiset{w} + multiset{r}
  }

  /** A tenant's rows after recording into its full log. */
  lemma AfterRecording(log: seq<Delivery>, r: Delivery, keep: nat)
    requires |Of(log, r.tenant)| == keep
    ensures multiset(Of(Compacted(log + [r], keep), r.tenant))
         == multiset(Take(Insert(SortDesc(Of(log, r.tenant), Ts), r, Ts), keep))
  {
    var own := Of(log, r.tenant);
    OfCompacted(log + [r], keep, r.tenant);
    assert (log + [r])[..|log|] == log;
    assert (own + [r])[..|own|] == own;
    ReverseMultiset(Take(SortDesc(own + [r], Ts), keep));
  }

  lemma OldestReplaced(own: seq<Delivery>, after: seq<Delivery>, x: Delivery, r: Delivery)
    requires x in own && x.ts < r.ts
    requires multiset(after) == multiset(Take(Insert(SortDesc(own, Ts), r, Ts), |own|))
    ensures exists w :: Replaced(own, after, w, r)
    ensures multiset(after) != multiset(own)
  {
    var w := SortDesc(own, Ts)[|own| - 1];
    LastIsOldest(own);
    SortMultiset(own, Ts);
    LastReplaced(SortDesc(own, Ts), r);
    assert Replaced(own, after, w, r);
    assert multiset(after)[r] == multiset(own)[r] + 1;
  }

  /**
   What recording into a full log loses: the row just recorded, exactly when no row of its tenant has
   an earlier event time; otherwise a row with the smallest time.
   */
  lemma LostRowExactly(log: seq<Delivery>, r: Delivery, keep: nat)
    requires |Of(log, r.tenant)| == keep
    ensures var own, after := Of(log, r.tenant), Of(Compacted(log + [r], keep), r.tenant);
            && (multiset(after) == multiset(own) <==> forall x :: x in own ==> x.ts >= r.ts)
            && ((exists x :: x in own && x.ts < r.ts) ==> exists w :: Replaced(own, after, w, r))
  {
    var own, after := Of(log, r.tenant), Of(Compacted(log + [r], keep), r.tenant);
    AfterRecording(log, r, keep);
    if x :| x in own && x.ts < r.ts {
      OldestReplaced(own, after, x, r);
    } else {
      NewestLost(own, r);
      SortMultiset(own, Ts);
    }
  }

  /** A log full of rows that share one event time, such as events without a time, takes in no further one. */
  lemma TiedRowIsLost(log: seq<Delivery>, r: Delivery, keep: nat)
    requires |Of(log, r.tenant)| == keep && forall x :: x in Of(log, r.tenant) ==> x.ts == r.ts
    ensures multiset(Of(Compacted(log + [r], keep), r.tenant)) == multiset(Of(log, r.tenant))
  {
    LostRowExactly(log, r, keep);
  }

  // ---------------------------------------------------------------- the order of what is kept

  lemma {:induction false} ReverseAt<T>(s: seq<T>, k: nat)
    requires k < |s|
    ensures |Reverse(s)| == |s| && Reverse(s)[k] == s[|s| - 1 - k]
  {
    if |s| > 1 {
      ReverseAt(s[1..], if k < |s| - 1 then k else 0);
    }
  }

  lemma ReverseTwice<T>(s: seq<T>)
    ensures Reverse(Reverse(s)) == s
  {
    var r := Reverse(s);
    if s != [] {
      ReverseAt(s, 0);
      ReverseAt(r, 0);
    }
    forall k | 0 <= k < |s| ensures Reverse(r)[k] == s[k] {
      ReverseAt(r, k);
      ReverseAt(s, |s| - 1 - k);
    }
  }

  ghost predicate Ascending(s: seq<Delivery>) {
    forall i, j :: 0 <= i < j < |s| ==> s[i].ts < s[j].ts
  }

  lemma {:induction false} ReverseFront(s: seq<Delivery>)
    requires s != []
    ensures Reverse(s) == [s[|s| - 1]] + Reverse(s[..|s| - 1])
  {
    if |s| == 1 {
      assert s[1..] == [];
    } else {
      ReverseFront(s[1..]);
      assert s[..|s| - 1][1..] == s[1..][..|s| - 2];
    }
  }

  /** Sorting ascending rows by descending time turns them round. */
  lemma {:induction false} AscendingSorted(s: seq<Delivery>)
    requires Ascending(s)
    ensures SortDesc(s, Ts) == Reverse(s)
  {
    if s != [] {
      var n := |s| - 1;
      AscendingSorted(s[..n]);
      ReverseFront(s);
      if n > 0 {
        ReverseAt(s[..n], 0);
        assert s[n - 1].ts < s[n].ts;
      }
    }
  }

  lemma ReverseCons(one: seq<Delivery>, rest: seq<Delivery>)
    requires |one| <= 1
    ensures Reverse(one + rest) == Reverse(rest) + one
  {
    if one == [] {
      assert one + rest == rest;
    } else {
      assert (one + rest)[1..] == rest;
    }
  }

  lemma {:induction false} TiedReverse(s: seq<Delivery>, v: real)
    ensures Tied(Reverse(s), Ts, v) == Reverse(Tied(s, Ts, v))
  {
    if s != [] {
      TiedReverse(s[1..], v);
      TiedConcat(Reverse(s[1..]), [s[0]], Ts, v);
      TiedOne(s[0], Ts, v);
      ReverseCons(One(s[0], Ts, v), Tied(s[1..], Ts, v));
    }
  }

  lemma {:induction false} TiedMember(s: seq<Delivery>, x: Delivery)
    requires x in s
    ensures x in Tied(s, Ts, x.ts)
  {
    if x != s[0] {
      TiedMember(s[1..], x);
    }
  }

  lemma {:induction false} TiedFrom(s: seq<Delivery>, v: real, x: Delivery)
    requires x in Tied(s, Ts, v)
    ensures x in s
  {
    if x !in One(s[0], Ts, v) {
      TiedFrom(s[1..], v, x);
    }
  }

  lemma HeadOnce<T>(s: seq<T>)
    requires Distinct(s) && s != []
    ensures s[0] !in s[1..] && Distinct(s[1..])
  {
    assert forall i :: 0 <= i < |s[1..]| ==> s[1..][i] == s[i + 1];
  }

  lemma ConsDistinct<T>(x: T, s: seq<T>)
    requires Distinct(s) && x !in s
    ensures Distinct([x] + s)
  {
  }

  lemma {:induction false} TiedDistinct(s: seq<Delivery>, v: real)
    requires Distinct(s)
    ensures Distinct(Tied(s, Ts, v))
  {
    if s != [] {
      HeadOnce(s);
      TiedDistinct(s[1..], v);
      if s[0] in Tied(s[1..], Ts, v) {
        TiedFrom(s[1..], v, s[0]);
      }
      if s[0].ts == v {
        ConsDistinct(s[0], Tied(s[1..], Ts, v));
      }
    }
  }

  lemma TwoTied(s: seq<Delivery>, i: nat, j: nat)
    requires i < j < |s| && s[i].ts == s[j].ts
    ensures |Tied(s, Ts, s[i].ts)| >= 2
  {
    var a, b := s[..j], s[j..];
    assert a + b == s && a[i] == s[i] && b[0] == s[j];
    TiedConcat(a, b, Ts, s[i].ts);
    TiedMember(a, s[i]);
    TiedMember(b, s[j]);
  }

  /** A list without repetition that reads the same both ways has at most one element. */
  lemma ReversedItself<T>(s: seq<T>)
    requires Distinct(s) && Reverse(s) == s
    ensures |s| <= 1
  {
    if |s| > 1 {
      ReverseAt(s, 0);
    }
  }

  lemma ReversedAscends(s: seq<Delivery>, r: seq<Delivery>)
    requires LargestFirst(s, Ts) && r == Reverse(s)
    requires forall v :: |Tied(r, Ts, v)| <= 1
    ensures Ascending(r)
  {
    if s != [] {
      ReverseAt(s, 0);
    }
    forall i, j | 0 <= i < j < |r| ensures r[i].ts < r[j].ts {
      ReverseAt(s, i);
      ReverseAt(s, j);
      if r[i].ts == r[j].ts {
        TwoTied(r, i, j);
      }
    }
  }

  /**
   A tenant's rows keep their order in a compaction that drops none of them exactly when their event
   times ascend strictly: rows with equal times change places with every delivery recorded for anyone.
   */
  lemma OrderKeptExactly(rows: seq<Delivery>, keep: nat, t: string)
    requires |Of(rows, t)| <= keep && Distinct(Of(rows, t))
    ensures Of(Compacted(rows, keep), t) == Of(rows, t) <==> Ascending(Of(rows, t))
  {
    var own := Of(rows, t);
    var s := SortDesc(own, Ts);
    OfCompacted(rows, keep, t);
    assert Take(s, keep) == s;
    if Ascending(own) {
      AscendingSorted(own);
      ReverseTwice(own);
    } else if Reverse(s) == own {
      forall v ensures |Tied(own, Ts, v)| <= 1 {
        SortStable(own, Ts, v);
        TiedReverse(s, v);
        TiedDistinct(own, v);
        ReversedItself(Tied(own, Ts, v));
      }
      SortedLargestFirst(own, Ts);
      ReversedAscends(s, own);
    }
  }

  lemma TwoOf(x: Delivery, y: Delivery, r: Delivery)
    requires x.tenant == y.tenant != r.tenant
    ensures Of([x, y] + [r], x.tenant) == [x, y]
  {
    OfConcat([x, y], [r], x.tenant);
    OfOwn([x, y], x.tenant, x.tenant);
    OfOwn([r], r.tenant, x.tenant);
  }

  lemma TwoSorted(x: Delivery, y: Delivery)
    requires x.ts == y.ts
    ensures SortDesc([x, y], Ts) == [x, y]
  {
    assert [x, y][..1] == [x] && [x][..0] == [];
    assert SortDesc([x], Ts) == [x];
    InsertAtEnd([x], y);
  }

  /** Two rows of one tenant with equal times change places when another tenant's delivery is recorded. */
  lemma TiedRowsSwap(x: Delivery, y: Delivery, r: Delivery, keep: nat)
    requires x.tenant == y.tenant != r.tenant && x.ts == y.ts && keep >= 2
    ensures Of(Compacted([x, y] + [r], keep), x.tenant) == [y, x]
  {
    TwoOf(x, y, r);
    OfCompacted([x, y] + [r], keep, x.tenant);
    TwoSorted(x, y);
    assert Take([x, y], keep) == [x, y];
    ReverseCons([x], [y]);
    ReverseCons([y], []);
  }
}
