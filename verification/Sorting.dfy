/**
 Python's stable descending sort (`list.sort(key=..., reverse=True)`) and what the first `k`
 elements of a sorted list depend on.
 */
module Sorting {
  /** Insert after every element with a key at least as large. */
  function Insert<T>(s: seq<T>, x: T, key: T -> real): (r: seq<T>)
    ensures |r| == |s| + 1
  {
    if s == [] then [x]
    else if key(s[0]) >= key(x) then [s[0]] + Insert(s[1..], x, key)
    else [x] + s
  }

  /** Stable descending sort. */
  function SortDesc<T>(s: seq<T>, key: T -> real): (r: seq<T>)
    ensures |r| == |s|
  {
    if s == [] then [] else Insert(SortDesc(s[..|s| - 1], key), s[|s| - 1], key)
  }

  function Id(x: real): real { x }

  function SortReals(s: seq<real>): (r: seq<real>)
    ensures |r| == |s|
  {
    SortDesc(s, Id)
  }

  function KeysOf<T>(s: seq<T>, key: T -> real): (r: seq<real>)
    ensures |r| == |s| && forall i :: 0 <= i < |s| ==> r[i] == key(s[i])
  {
    seq(|s|, i requires 0 <= i < |s| => key(s[i]))
  }

  function Take<T>(s: seq<T>, k: nat): (r: seq<T>)
    ensures |r| == if |s| < k then |s| else k
    ensures r == s[..|r|]
  {
    if |s| <= k then s[..|s|] else s[..k]
  }

  ghost predicate Descending(s: seq<real>) {
    forall i, j :: 0 <= i < j < |s| ==> s[i] >= s[j]
  }

  // ---------------------------------------------------------------- sorting rows sorts their keys

  lemma {:induction false} InsertKeys<T>(s: seq<T>, x: T, key: T -> real)
    ensures KeysOf(Insert(s, x, key), key) == Insert(KeysOf(s, key), key(x), Id)
  {
    if s != [] {
      assert KeysOf(s, key)[1..] == KeysOf(s[1..], key);
      InsertKeys(s[1..], x, key);
    }
  }

  lemma {:induction false} SortKeys<T>(s: seq<T>, key: T -> real)
    ensures KeysOf(SortDesc(s, key), key) == SortReals(KeysOf(s, key))
  {
    if s != [] {
      var n := |s| - 1;
      SortKeys(s[..n], key);
      InsertKeys(SortDesc(s[..n], key), s[n], key);
      assert KeysOf(s, key)[..n] == KeysOf(s[..n], key);
    }
  }

  lemma KeysTake<T>(s: seq<T>, k: nat, key: T -> real)
    ensures KeysOf(Take(s, k), key) == Take(KeysOf(s, key), k)
  {
  }

  /** The keys of the first k of the sorted rows are the first k of the sorted keys. */
  lemma TopKeys<T>(s: seq<T>, k: nat, key: T -> real)
    ensures KeysOf(Take(SortDesc(s, key), k), key) == Take(SortReals(KeysOf(s, key)), k)
  {
    KeysTake(SortDesc(s, key), k, key);
    SortKeys(s, key);
  }

  lemma SplitLast<T>(s: seq<T>)
    requires s != []
    ensures s == s[..|s| - 1] + [s[|s| - 1]]
  {
  }

  lemma {:induction false} InsertMultiset<T>(s: seq<T>, x: T, key: T -> real)
    ensures multiset(Insert(s, x, key)) == multiset(s) + multiset{x}
  {
    if s != [] {
      InsertMultiset(s[1..], x, key);
      assert s == [s[0]] + s[1..];
    }
  }

  lemma SnocMultiset<T>(front: seq<T>, x: T)
    ensures multiset(front + [x]) == multiset(front) + multiset{x}
  {
  }

  lemma {:induction false} SortMultiset<T>(s: seq<T>, key: T -> real)
    ensures multiset(SortDesc(s, key)) == multiset(s)
  {
    if s != [] {
      var front, last := s[..|s| - 1], s[|s| - 1];
      SortMultiset(front, key);
      InsertMultiset(SortDesc(front, key), last, key);
      SnocMultiset(front, last);
      SplitLast(s);
    }
  }

  lemma {:induction false} InsertBelow(s: seq<real>, x: real, top: real)
    requires x <= top && forall i :: 0 <= i < |s| ==> s[i] <= top
    ensures forall i :: 0 <= i <= |s| ==> Insert(s, x, Id)[i] <= top
  {
    if s != [] && s[0] >= x {
      InsertBelow(s[1..], x, top);
    }
  }

  lemma {:induction false} InsertDescending(s: seq<real>, x: real)
    requires Descending(s)
    ensures Descending(Insert(s, x, Id))
  {
    if s != [] && s[0] >= x {
      InsertDescending(s[1..], x);
      InsertBelow(s[1..], x, s[0]);
    }
  }

  lemma {:induction false} SortDescending(s: seq<real>)
    ensures Descending(SortReals(s))
  {
    if s != [] {
      SortDescending(s[..|s| - 1]);
      InsertDescending(SortReals(s[..|s| - 1]), s[|s| - 1]);
    }
  }

  // ---------------------------------------------------------------- lists without repetition

  ghost predicate Distinct<T>(s: seq<T>) {
    forall i, j :: 0 <= i < j < |s| ==> s[i] != s[j]
  }

  /** A rearrangement of a list without repetition has none. */
  lemma SameDistinct<T>(a: seq<T>, b: seq<T>)
    requires Distinct(a) && multiset(a) == multiset(b)
    ensures Distinct(b)
  {
    forall i, j | 0 <= i < j < |b| ensures b[i] != b[j] {
      if b[i] == b[j] {
        CountTwice(b, i, j);
        CountOnce(a, b[i]);
      }
    }
  }

  lemma CountTwice<T>(s: seq<T>, i: nat, j: nat)
    requires i < j < |s| && s[i] == s[j]
    ensures multiset(s)[s[i]] >= 2
  {
    assert s == s[..j] + s[j..];
    assert s[i] == s[..j][i] && s[j] == s[j..][0];
    assert s[i] in multiset(s[..j]) && s[i] in multiset(s[j..]);
  }

  lemma {:induction false} CountOnce<T>(s: seq<T>, x: T)
    requires Distinct(s)
    ensures multiset(s)[x] <= 1
  {
    if s != [] {
      CountOnce(s[1..], x);
      assert s == [s[0]] + s[1..];
      if x == s[0] {
        assert x !in s[1..];
      }
    }
  }

  ghost function AsSet<T>(s: seq<T>): set<T> {
    set x | x in s
  }

  lemma {:induction false} DistinctSize<T>(s: seq<T>)
    requires Distinct(s)
    ensures |AsSet(s)| == |s|
  {
    if s != [] {
      var n := |s| - 1;
      DistinctSize(s[..n]);
      assert s == s[..n] + [s[n]];
      assert AsSet(s) == AsSet(s[..n]) + {s[n]};
    }
  }

  // ---------------------------------------------------------------- a sorted list is its multiset

  lemma {:induction false} HeadIsMax(s: seq<real>, x: real)
    requires Descending(s) && x in s
    ensures s != [] && s[0] >= x
  {
  }

  lemma SameLength<T>(a: seq<T>, b: seq<T>)
    requires multiset(a) == multiset(b)
    ensures |a| == |b|
  {
    assert |multiset(a)| == |a| && |multiset(b)| == |b|;
  }

  lemma SameHead(a: seq<real>, b: seq<real>)
    requires Descending(a) && Descending(b) && multiset(a) == multiset(b) && a != [] && b != []
    ensures a[0] == b[0]
  {
    assert a[0] in multiset(a) && b[0] in multiset(b);
    HeadIsMax(a, b[0]);
    HeadIsMax(b, a[0]);
  }

  lemma TailMultiset<T>(s: seq<T>)
    requires s != []
    ensures multiset(s[1..]) == multiset(s) - multiset{s[0]}
  {
    assert s == [s[0]] + s[1..];
  }

  lemma {:induction false} DescendingUnique(a: seq<real>, b: seq<real>)
    requires Descending(a) && Descending(b) && multiset(a) == multiset(b)
    ensures a == b
  {
    SameLength(a, b);
    if a != [] {
      SameHead(a, b);
      var x, y := a[1..], b[1..];
      assert multiset(x) == multiset(y) by {
        TailMultiset(a);
        TailMultiset(b);
      }
      DescendingUnique(x, y);
      assert a == [a[0]] + x && b == [b[0]] + y;
    }
  }

  /** Sorting forgets the order of the input. */
  lemma SameMultisetSameSort(a: seq<real>, b: seq<real>)
    requires multiset(a) == multiset(b)
    ensures SortReals(a) == SortReals(b)
  {
    SortDescending(a);
    SortDescending(b);
    SortMultiset(a, Id);
    SortMultiset(b, Id);
    DescendingUnique(SortReals(a), SortReals(b));
  }

  lemma SortSorted(a: seq<real>)
    requires Descending(a)
    ensures SortReals(a) == a
  {
    SortDescending(a);
    SortMultiset(a, Id);
    DescendingUnique(SortReals(a), a);
  }

  // ---------------------------------------------------------------- the first k of a sorted list

  /** What was cut off below the first k cannot come back. */
  lemma {:induction false} TakeInsert(s: seq<real>, x: real, k: nat)
    requires Descending(s)
    ensures Take(Insert(Take(s, k), x, Id), k) == Take(Insert(s, x, Id), k)
  {
    if s != [] && k > 0 && s[0] >= x {
      assert Take(s, k)[1..] == Take(s[1..], k - 1);
      TakeInsert(s[1..], x, k - 1);
      assert Take(Insert(s, x, Id), k) == [s[0]] + Take(Insert(s[1..], x, Id), k - 1);
      assert Take(Insert(Take(s, k), x, Id), k) == [s[0]] + Take(Insert(Take(s[1..], k - 1), x, Id), k - 1);
    } else if s != [] && k > 0 {
      assert Take(Insert(Take(s, k), x, Id), k) == [x] + Take(s, k - 1);
    }
  }

  /** Adding `x` to the best k and cutting again gives the best k of everything with `x`. */
  lemma {:induction false} TopOfTop(all: seq<real>, kept: seq<real>, x: real, k: nat)
    requires multiset(kept) == multiset(Take(SortReals(all), k))
    ensures Take(SortReals(kept + [x]), k) == Take(SortReals(all + [x]), k)
  {
    var best := Take(SortReals(all), k);
    SortDescending(all);
    SameMultisetSameSort(kept, best);
    SortSorted(best);
    assert (kept + [x])[..|kept|] == kept && (all + [x])[..|all|] == all;
    TakeInsert(SortReals(all), x, k);
  }

  lemma TakeTake<T>(s: seq<T>, k: nat, m: nat)
    ensures Take(Take(s, k), m) == Take(s, if k < m then k else m)
  {
  }

  /** When everything in `a` is at least everything in `b`, sorting both is sorting one after the other. */
  lemma SortApart(a: seq<real>, b: seq<real>)
    requires forall i, j :: 0 <= i < |a| && 0 <= j < |b| ==> a[i] >= b[j]
    ensures SortReals(a + b) == SortReals(a) + SortReals(b)
  {
    SortDescending(a);
    SortDescending(b);
    SortMultiset(a, Id);
    SortMultiset(b, Id);
    var x, y := SortReals(a), SortReals(b);
    forall i, j | 0 <= i < |x| && 0 <= j < |y| ensures x[i] >= y[j] {
      SameMember(x, a, x[i]);
      SameMember(y, b, y[j]);
    }
    assert Descending(x + y);
    assert multiset(x + y) == multiset(a + b);
    SameMultisetSameSort(x + y, a + b);
    SortSorted(x + y);
  }

  lemma SameMember<T>(a: seq<T>, b: seq<T>, x: T)
    requires multiset(a) == multiset(b) && x in a
    ensures x in b
  {
    assert x in multiset(a);
  }

  /** The best k of both are the best k of the better part, when that part has k elements or there is no other. */
  lemma TopOfBetterPart(a: seq<real>, b: seq<real>, k: nat)
    requires forall i, j :: 0 <= i < |a| && 0 <= j < |b| ==> a[i] >= b[j]
    requires |a| >= k || b == []
    ensures Take(SortReals(a + b), k) == Take(SortReals(a), k)
  {
    SortApart(a, b);
    if b == [] {
      assert SortReals(b) == [];
      assert SortReals(a) + [] == SortReals(a);
    }
  }

  // ---------------------------------------------------------------- stability

  function One<T>(x: T, key: T -> real, v: real): seq<T> {
    if key(x) == v then [x] else []
  }

  /** The elements with key `v`, in order. */
  function Tied<T>(s: seq<T>, key: T -> real, v: real): seq<T> {
    if s == [] then [] else One(s[0], key, v) + Tied(s[1..], key, v)
  }

  lemma Regroup<T>(a: seq<T>, b: seq<T>, c: seq<T>)
    ensures (a + b) + c == a + (b + c)
  {
  }

  lemma ConcatParts<T>(a: seq<T>, b: seq<T>)
    requires a != []
    ensures a + b != [] && (a + b)[0] == a[0] && (a + b)[1..] == a[1..] + b
  {
  }

  lemma {:induction false} TiedConcat<T>(a: seq<T>, b: seq<T>, key: T -> real, v: real)
    ensures Tied(a + b, key, v) == Tied(a, key, v) + Tied(b, key, v)
  {
    if a == [] {
      assert a + b == b;
    } else {
      ConcatParts(a, b);
      TiedConcat(a[1..], b, key, v);
      Regroup(One(a[0], key, v), Tied(a[1..], key, v), Tied(b, key, v));
    }
  }

  lemma {:induction false} TiedOne<T>(x: T, key: T -> real, v: real)
    ensures Tied([x], key, v) == One(x, key, v)
  {
    assert [x][1..] == [];
  }

  lemma {:induction false} NoneTied<T>(s: seq<T>, key: T -> real, v: real)
    requires forall x :: x in s ==> key(x) != v
    ensures Tied(s, key, v) == []
  {
    if s != [] {
      assert s[0] in s && forall x :: x in s[1..] ==> x in s;
      NoneTied(s[1..], key, v);
    }
  }

  ghost predicate LargestFirst<T>(s: seq<T>, key: T -> real) {
    forall i, j :: 0 <= i < j < |s| ==> key(s[i]) >= key(s[j])
  }

  lemma {:induction false} TiedInsert<T>(s: seq<T>, x: T, key: T -> real, v: real)
    requires LargestFirst(s, key)
    ensures Tied(Insert(s, x, key), key, v) == Tied(s, key, v) + One(x, key, v)
  {
    if s != [] && key(s[0]) >= key(x) {
      TiedInsert(s[1..], x, key, v);
      assert Insert(s, x, key)[1..] == Insert(s[1..], x, key);
    } else {
      assert ([x] + s)[1..] == s;
      if key(x) == v {
        NoneTied(s, key, v);
      }
    }
  }

  lemma SortedLargestFirst<T>(s: seq<T>, key: T -> real)
    ensures LargestFirst(SortDesc(s, key), key)
  {
    var sorted := SortDesc(s, key);
    SortKeys(s, key);
    SortDescending(KeysOf(s, key));
    forall i, j | 0 <= i < j < |sorted| ensures key(sorted[i]) >= key(sorted[j]) {
      assert KeysOf(sorted, key)[i] >= KeysOf(sorted, key)[j];
    }
  }

  /** Sorting is stable: elements with one key keep their order. */
  lemma {:induction false} SortStable<T>(s: seq<T>, key: T -> real, v: real)
    ensures Tied(SortDesc(s, key), key, v) == Tied(s, key, v)
  {
    if s != [] {
      var n := |s| - 1;
      SortStable(s[..n], key, v);
      SortedLargestFirst(s[..n], key);
      TiedInsert(SortDesc(s[..n], key), s[n], key, v);
      SplitLast(s);
      TiedConcat(s[..n], [s[n]], key, v);
      TiedOne(s[n], key, v);
    }
  }
}
