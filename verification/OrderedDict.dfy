/**
 Python's insertion-ordered dictionary (`dict`, `OrderedDict`) as a sequence of slots with
 distinct keys, oldest slot first.
 */
module OrderedDicts {
  import opened Options

  datatype Slot<+K, +V> = Slot(key: K, value: V)

  type Dict<+K, +V> = seq<Slot<K, V>>

  /** No key occurs twice. */
  ghost predicate Unique<K, V>(d: Dict<K, V>) {
    forall i, j :: 0 <= i < j < |d| ==> d[i].key != d[j].key
  }

  predicate Has<K(==), V>(d: Dict<K, V>, k: K) {
    exists i :: 0 <= i < |d| && d[i].key == k
  }

  /** The set of keys of `d`. */
  function Keys<K(==), V>(d: Dict<K, V>): set<K> {
    set i | 0 <= i < |d| :: d[i].key
  }

  /** `d.get(k)`. */
  function Lookup<K(==), V>(d: Dict<K, V>, k: K): (r: Option<V>)
    ensures r.Some? <==> Has(d, k)
    ensures r.Some? ==> exists i :: 0 <= i < |d| && d[i] == Slot(k, r.value)
  {
    if d == [] then None
    else if d[0].key == k then Some(d[0].value)
    else
      assert forall i :: 0 <= i < |d[1..]| ==> d[1..][i] == d[i + 1];
      assert forall i :: 1 <= i < |d| ==> d[i] == d[1..][i - 1];
      Lookup(d[1..], k)
  }

  /** `d.pop(k, None)`: every slot except the one with key `k`, in order. */
  function Remove<K(==), V>(d: Dict<K, V>, k: K): (r: Dict<K, V>)
    ensures |r| <= |d|
  {
    if d == [] then []
    else if d[0].key == k then Remove(d[1..], k)
    else [d[0]] + Remove(d[1..], k)
  }

  /** `d[k] = v; d.move_to_end(k)`. */
  function PutLast<K(==), V>(d: Dict<K, V>, k: K, v: V): Dict<K, V> {
    Remove(d, k) + [Slot(k, v)]
  }

  /** `d[k] = v`: an existing key keeps its place, a new one goes last. */
  function Assign<K(==), V>(d: Dict<K, V>, k: K, v: V): (r: Dict<K, V>) {
    if d == [] then [Slot(k, v)]
    else if d[0].key == k then [Slot(k, v)] + d[1..]
    else [d[0]] + Assign(d[1..], k, v)
  }

  lemma {:induction false} LookupAt<K, V>(d: Dict<K, V>, i: nat)
    requires Unique(d) && i < |d|
    ensures Lookup(d, d[i].key) == Some(d[i].value)
  {
    if i > 0 {
      assert d[0].key != d[i].key;
      LookupAt(d[1..], i - 1);
    }
  }

  lemma {:induction false} RemoveConcat<K, V>(a: Dict<K, V>, b: Dict<K, V>, k: K)
    ensures Remove(a + b, k) == Remove(a, k) + Remove(b, k)
  {
    if a == [] {
      assert a + b == b;
    } else {
      assert (a + b)[1..] == a[1..] + b;
      RemoveConcat(a[1..], b, k);
    }
  }

  lemma {:induction false} RemoveAbsent<K, V>(d: Dict<K, V>, k: K)
    requires !Has(d, k)
    ensures Remove(d, k) == d
  {
    if d != [] {
      assert forall i :: 0 <= i < |d[1..]| ==> d[1..][i] == d[i + 1];
      RemoveAbsent(d[1..], k);
      assert d[0].key != k && d == [d[0]] + d[1..];
    }
  }

  /** The slots of `Remove(d, k)` are exactly the slots of `d` with another key. */
  lemma {:induction false} RemoveMembers<K, V>(d: Dict<K, V>, k: K)
    ensures forall s :: s in Remove(d, k) <==> s in d && s.key != k
  {
    if d != [] {
      RemoveMembers(d[1..], k);
      assert d == [d[0]] + d[1..];
    }
  }

  /** In a dictionary with distinct keys, removing the key at `i` cuts out that one slot. */
  lemma {:induction false} RemoveAt<K, V>(d: Dict<K, V>, i: nat)
    requires Unique(d) && i < |d|
    ensures Remove(d, d[i].key) == d[..i] + d[i + 1..]
  {
    var k := d[i].key;
    assert d == d[..i] + ([d[i]] + d[i + 1..]);
    RemoveConcat(d[..i], [d[i]] + d[i + 1..], k);
    RemoveConcat([d[i]], d[i + 1..], k);
    RemoveAbsent(d[..i], k);
    RemoveAbsent(d[i + 1..], k);
    assert Remove([d[i]], k) == [];
  }

  /** Touching the last slot changes nothing. */
  lemma TouchLast<K, V>(d: Dict<K, V>)
    requires Unique(d) && d != []
    ensures PutLast(d, d[|d| - 1].key, d[|d| - 1].value) == d
  {
    RemoveAt(d, |d| - 1);
  }

  lemma {:induction false} RemoveHasNot<K, V>(d: Dict<K, V>, k: K)
    ensures !Has(Remove(d, k), k)
  {
    if d != [] {
      RemoveHasNot(d[1..], k);
    }
  }

  lemma RemoveSize<K, V>(d: Dict<K, V>, k: K)
    requires Unique(d)
    ensures |Remove(d, k)| == if Has(d, k) then |d| - 1 else |d|
  {
    if i :| 0 <= i < |d| && d[i].key == k {
      RemoveAt(d, i);
    } else {
      RemoveAbsent(d, k);
    }
  }

  lemma CutUnique<K, V>(d: Dict<K, V>, i: nat)
    requires Unique(d) && i < |d|
    ensures Unique(d[..i] + d[i + 1..])
  {
    var r := d[..i] + d[i + 1..];
    assert forall j :: 0 <= j < |r| ==> r[j] == d[if j < i then j else j + 1];
  }

  lemma RemoveUnique<K, V>(d: Dict<K, V>, k: K)
    requires Unique(d)
    ensures Unique(Remove(d, k)) && !Has(Remove(d, k), k)
    ensures |Remove(d, k)| == if Has(d, k) then |d| - 1 else |d|
  {
    RemoveHasNot(d, k);
    RemoveSize(d, k);
    if i :| 0 <= i < |d| && d[i].key == k {
      RemoveAt(d, i);
      CutUnique(d, i);
    } else {
      RemoveAbsent(d, k);
    }
  }

  lemma {:induction false} UniqueKeys<K, V>(d: Dict<K, V>)
    requires Unique(d)
    ensures |Keys(d)| == |d|
  {
    if d == [] {
      assert Keys(d) == {};
    } else {
      var rest := d[1..];
      UniqueKeys(rest);
      assert forall i :: 1 <= i < |d| ==> d[i] == rest[i - 1];
      assert Keys(d) == {d[0].key} + Keys(rest) by {
        assert forall i :: 0 <= i < |rest| ==> rest[i] == d[i + 1];
      }
      assert d[0].key !in Keys(rest);
    }
  }

  lemma PutLastUnique<K, V>(d: Dict<K, V>, k: K, v: V)
    requires Unique(d)
    ensures Unique(PutLast(d, k, v))
    ensures forall s :: s in PutLast(d, k, v) <==> s == Slot(k, v) || (s in d && s.key != k)
  {
    RemoveUnique(d, k);
    RemoveMembers(d, k);
    var r := Remove(d, k);
    assert forall i :: 0 <= i < |r| ==> r[i] in r && r[i].key != k;
  }

  /** Membership and lookup agree in a dictionary with distinct keys. */
  lemma LookupMember<K, V>(d: Dict<K, V>, k: K, v: V)
    requires Unique(d)
    ensures Slot(k, v) in d <==> Lookup(d, k) == Some(v)
  {
    if Slot(k, v) in d {
      var i :| 0 <= i < |d| && d[i] == Slot(k, v);
      LookupAt(d, i);
    }
  }

  lemma {:induction false} AssignLookup<K, V>(d: Dict<K, V>, k: K, v: V, q: K)
    ensures Lookup(Assign(d, k, v), q) == if q == k then Some(v) else Lookup(d, q)
  {
    if d != [] && d[0].key != k {
      AssignLookup(d[1..], k, v, q);
      assert Assign(d, k, v)[1..] == Assign(d[1..], k, v);
    } else if d != [] {
      assert ([Slot(k, v)] + d[1..])[1..] == d[1..];
    }
  }

  lemma {:induction false} AssignMember<K, V>(d: Dict<K, V>, k: K, v: V, s: Slot<K, V>)
    requires s in Assign(d, k, v)
    ensures s.key == k || s in d
  {
    if d != [] && d[0].key != k && s != d[0] {
      AssignMember(d[1..], k, v, s);
    }
  }

  lemma ConsUnique<K, V>(first: Slot<K, V>, rest: Dict<K, V>)
    requires Unique(rest) && forall i :: 0 <= i < |rest| ==> rest[i].key != first.key
    ensures Unique([first] + rest)
  {
  }

  lemma TailKeysDiffer<K, V>(d: Dict<K, V>, s: Slot<K, V>)
    requires Unique(d) && d != [] && s in d[1..]
    ensures s.key != d[0].key
  {
    var i :| 0 <= i < |d[1..]| && d[1..][i] == s;
    assert d[i + 1] == s;
  }

  lemma {:induction false} AssignUnique<K, V>(d: Dict<K, V>, k: K, v: V)
    requires Unique(d)
    ensures Unique(Assign(d, k, v))
  {
    if d != [] && d[0].key != k {
      AssignUnique(d[1..], k, v);
      var rest := Assign(d[1..], k, v);
      forall i | 0 <= i < |rest| ensures rest[i].key != d[0].key {
        AssignMember(d[1..], k, v, rest[i]);
        if rest[i].key != k {
          TailKeysDiffer(d, rest[i]);
        }
      }
      ConsUnique(d[0], rest);
    } else if d != [] {
      assert forall i :: 0 <= i < |d[1..]| ==> d[1..][i] == d[i + 1];
      ConsUnique(Slot(k, v), d[1..]);
    }
  }

  /** An existing key keeps its place and every other one too. */
  lemma {:induction false} AssignKeepsPlaces<K, V>(d: Dict<K, V>, k: K, v: V)
    requires Has(d, k)
    ensures |Assign(d, k, v)| == |d| && forall i :: 0 <= i < |d| ==> Assign(d, k, v)[i].key == d[i].key
  {
    if d[0].key != k {
      var j :| 0 <= j < |d| && d[j].key == k;
      assert d[1..][j - 1].key == k;
      AssignKeepsPlaces(d[1..], k, v);
    }
  }

  lemma {:induction false} AssignNew<K, V>(d: Dict<K, V>, k: K, v: V)
    requires !Has(d, k)
    ensures Assign(d, k, v) == d + [Slot(k, v)]
  {
    if d != [] {
      assert forall i :: 0 <= i < |d[1..]| ==> d[1..][i] == d[i + 1];
      AssignNew(d[1..], k, v);
    }
  }

  lemma {:induction false} AssignTwice<K, V>(d: Dict<K, V>, k: K, u: V, v: V)
    ensures Assign(Assign(d, k, u), k, v) == Assign(d, k, v)
  {
    if d != [] && d[0].key != k {
      AssignTwice(d[1..], k, u, v);
      assert Assign(d, k, u)[1..] == Assign(d[1..], k, u);
    } else if d != [] {
      assert ([Slot(k, u)] + d[1..])[1..] == d[1..];
    }
  }

  lemma {:induction false} AssignSame<K, V>(d: Dict<K, V>, k: K, v: V)
    requires Lookup(d, k) == Some(v)
    ensures Assign(d, k, v) == d
  {
    if d[0].key != k {
      AssignSame(d[1..], k, v);
    }
  }
}
