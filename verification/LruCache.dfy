/** The query cache: least recently used eviction, and entries that expire after a fixed time. */
module LruCaches {
  import opened Options
  import opened OrderedDicts
  import opened Sets

  datatype Stamped<+V> = Stamped(ts: int, value: V)

  predicate Expired<V>(s: Stamped<V>, now: int, ttl: int) {
    now - s.ts > ttl
  }

  /** What `get` answers. */
  function Answer<V>(d: Dict<string, Stamped<V>>, key: string, now: int, ttl: int): Option<V> {
    match Lookup(d, key)
    case None => None
    case Some(s) => if Expired(s, now, ttl) then None else Some(s.value)
  }

  /** What `get` leaves: an expired entry goes, a live one becomes the most recent. */
  function AfterGet<V>(d: Dict<string, Stamped<V>>, key: string, now: int, ttl: int): Dict<string, Stamped<V>> {
    match Lookup(d, key)
    case None => d
    case Some(s) => if Expired(s, now, ttl) then Remove(d, key) else PutLast(d, key, s)
  }

  /** The newest `cap` entries. */
  function Newest<V>(d: Dict<string, V>, cap: nat): Dict<string, V> {
    if |d| > cap then d[|d| - cap..] else d
  }

  function AfterPut<V>(d: Dict<string, Stamped<V>>, key: string, value: V, now: int,
                       cap: nat): Dict<string, Stamped<V>> {
    Newest(PutLast(d, key, Stamped(now, value)), cap)
  }

  lemma DropOne<T>(s: seq<T>, j: nat)
    requires j < |s|
    ensures s[j..][1..] == s[j + 1..]
  {
  }

  class LRUCache<V> {
    const capacity: nat
    const ttl: int
    var d: Dict<string, Stamped<V>>

    ghost predicate Valid()
      reads this
    {
      Unique(d) && |d| <= capacity
    }

    constructor (capacity: nat, ttl: int)
      ensures Valid() && d == [] && this.capacity == capacity && this.ttl == ttl
    {
      this.capacity, this.ttl, d := capacity, ttl, [];
    }

    method Get(key: string, now: int) returns (r: Option<V>)
      requires Valid()
      modifies this
      ensures Valid()
      ensures r == Answer(old(d), key, now, ttl) && d == AfterGet(old(d), key, now, ttl)
    {
      var v := Lookup(d, key);
      if v.None? {
        return None;
      }
      RemoveUnique(d, key);
      if now - v.value.ts > ttl {
        d := Remove(d, key);
        return None;
      }
      PutLastUnique(d, key, v.value);
      d := PutLast(d, key, v.value);
      return Some(v.value.value);
    }

    method Put(key: string, value: V, now: int)
      requires Valid()
      modifies this
      ensures Valid()
      ensures d == AfterPut(old(d), key, value, now, capacity)
    {
      PutLastUnique(d, key, Stamped(now, value));
      d := PutLast(d, key, Stamped(now, value));
      ghost var full, j := d, 0;
      while |d| > capacity
        invariant 0 <= j <= |full| && d == full[j..]
        invariant j == 0 || |d| >= capacity
      {
        DropOne(full, j);
        d := d[1..];
        j := j + 1;
      }
    }
  }

  // ---------------------------------------------------------------- runs

  datatype Op<+V> = Get(key: string, now: int) | Put(key: string, value: V, now: int)

  function Step<V>(d: Dict<string, Stamped<V>>, op: Op<V>, cap: nat, ttl: int): Dict<string, Stamped<V>> {
    match op
    case Get(key, now) => AfterGet(d, key, now, ttl)
    case Put(key, value, now) => AfterPut(d, key, value, now, cap)
  }

  /** The cache after the operations `ops`, starting empty. */
  function Run<V>(ops: seq<Op<V>>, cap: nat, ttl: int): Dict<string, Stamped<V>> {
    if ops == [] then []
    else Step(Run(ops[..|ops| - 1], cap, ttl), ops[|ops| - 1], cap, ttl)
  }

  lemma NewestUnique<V>(d: Dict<string, V>, cap: nat)
    requires Unique(d)
    ensures Unique(Newest(d, cap)) && |Newest(d, cap)| <= cap
    ensures forall s :: s in Newest(d, cap) ==> s in d
  {
  }

  lemma StepBounded<V>(d: Dict<string, Stamped<V>>, op: Op<V>, cap: nat, ttl: int)
    requires Unique(d) && |d| <= cap
    ensures Unique(Step(d, op, cap, ttl)) && |Step(d, op, cap, ttl)| <= cap
  {
    RemoveUnique(d, op.key);
    match op
    case Get(key, now) =>
      if Lookup(d, key).Some? {
        PutLastUnique(d, key, Lookup(d, key).value);
      }
    case Put(key, value, now) =>
      PutLastUnique(d, key, Stamped(now, value));
      NewestUnique(PutLast(d, key, Stamped(now, value)), cap);
  }

  /** The size never exceeds the capacity and no key is held twice. */
  lemma {:induction false} RunBounded<V>(ops: seq<Op<V>>, cap: nat, ttl: int)
    ensures Unique(Run(ops, cap, ttl)) && |Run(ops, cap, ttl)| <= cap
  {
    if ops != [] {
      RunBounded(ops[..|ops| - 1], cap, ttl);
      StepBounded(Run(ops[..|ops| - 1], cap, ttl), ops[|ops| - 1], cap, ttl);
    }
  }

  // ---------------------------------------------------------------- what a hit returns

  /** The last `put` of `key`. */
  function LatestPut<V>(ops: seq<Op<V>>, key: string): Option<Stamped<V>> {
    if ops == [] then None
    else
      var op := ops[|ops| - 1];
      if op.Put? && op.key == key then Some(Stamped(op.now, op.value)) else LatestPut(ops[..|ops| - 1], key)
  }

  /** Every entry held is the last `put` of its key. */
  lemma {:induction false} HeldIsLatest<V>(ops: seq<Op<V>>, cap: nat, ttl: int, s: Slot<string, Stamped<V>>)
    requires s in Run(ops, cap, ttl)
    ensures LatestPut(ops, s.key) == Some(s.value)
  {
    var before, op := ops[..|ops| - 1], ops[|ops| - 1];
    var d := Run(before, cap, ttl);
    RunBounded(before, cap, ttl);
    RemoveMembers(d, op.key);
    match op {
      case Get(key, now) =>
        var v := Lookup(d, key);
        if v.Some? {
          LookupMember(d, key, v.value);
          PutLastUnique(d, key, v.value);
        }
        HeldIsLatest(before, cap, ttl, s);
      case Put(key, value, now) =>
        PutLastUnique(d, key, Stamped(now, value));
        NewestUnique(PutLast(d, key, Stamped(now, value)), cap);
        if s.key != key {
          HeldIsLatest(before, cap, ttl, s);
        }
    }
  }

  /** A hit returns what the last `put` of the key stored, and that put is no older than the time limit. */
  lemma HitIsLatestPut<V>(ops: seq<Op<V>>, cap: nat, ttl: int, key: string, now: int)
    requires Answer(Run(ops, cap, ttl), key, now, ttl).Some?
    ensures LatestPut(ops, key).Some?
    ensures LatestPut(ops, key).value.value == Answer(Run(ops, cap, ttl), key, now, ttl).value
    ensures now - LatestPut(ops, key).value.ts <= ttl
  {
    var d := Run(ops, cap, ttl);
    RunBounded(ops, cap, ttl);
    var s := Lookup(d, key).value;
    LookupMember(d, key, s);
    HeldIsLatest(ops, cap, ttl, Slot(key, s));
  }

  // ---------------------------------------------------------------- a larger cache holds more

  lemma {:induction false} RemoveTwice<V>(d: Dict<string, V>, a: string, b: string)
    ensures Remove(Remove(d, a), b) == Remove(Remove(d, b), a)
    ensures a == b ==> Remove(Remove(d, a), b) == Remove(d, a)
  {
    if d != [] {
      RemoveTwice(d[1..], a, b);
      RemoveConcat([d[0]], Remove(d[1..], a), b);
      RemoveConcat([d[0]], Remove(d[1..], b), a);
    }
  }

  lemma {:induction false} RemoveLookup<V>(d: Dict<string, V>, k: string, q: string)
    ensures Lookup(Remove(d, k), q) == if q == k then None else Lookup(d, q)
  {
    if d != [] {
      RemoveLookup(d[1..], k, q);
      if d[0].key != k {
        assert Remove(d, k)[1..] == Remove(d[1..], k);
      }
    }
  }

  /** Removing the key `e` commutes with putting another one last. */
  lemma PutLastRemove<V>(d: Dict<string, V>, e: string, k: string, v: V)
    ensures PutLast(Remove(d, e), k, v) == if e == k then PutLast(d, k, v) else Remove(PutLast(d, k, v), e)
  {
    RemoveTwice(d, e, k);
    RemoveConcat(Remove(d, k), [Slot(k, v)], e);
    assert Remove([Slot(k, v)], e) == if e == k then [] else [Slot(k, v)];
  }

  /** Dropping the oldest slot is removing its key. */
  lemma DropFirst<V>(d: Dict<string, V>)
    requires Unique(d) && d != []
    ensures d[1..] == Remove(d, d[0].key)
  {
    RemoveAt(d, 0);
  }

  /** `d` without the slot of one key, or all of it. */
  function Without<V>(d: Dict<string, V>, e: Option<string>): Dict<string, V> {
    match e
    case None => d
    case Some(k) => Remove(d, k)
  }

  /** Trimming to `c` without the key `e`, and to `c + 1` with it, leaves lists at most one slot apart. */
  lemma NewestOneApart<V>(d: Dict<string, V>, e: Option<string>, c: nat) returns (e': Option<string>)
    requires Unique(d) && |Without(d, e)| <= c + 1
    ensures Newest(Without(d, e), c) == Without(Newest(d, c + 1), e')
  {
    if e.Some? {
      RemoveUnique(d, e.value);
    }
    if |d| <= c + 1 {
      if |Without(d, e)| <= c {
        return e;
      }
      if e.Some? {
        RemoveAbsent(d, e.value);
      }
      DropFirst(d);
      return Some(d[0].key);
    }
    assert Newest(d, c + 1) == d[1..];
    if e == Some(d[0].key) {
      DropFirst(d);
      DropFirst(d[1..]);
      return Some(d[1].key);
    }
    assert Remove(d, e.value)[1..] == Remove(d[1..], e.value);
    return e;
  }

  lemma WithoutLookup<V>(d: Dict<string, V>, e: Option<string>, k: string)
    ensures Lookup(Without(d, e), k) == if e == Some(k) then None else Lookup(d, k)
    ensures Remove(Without(d, e), k) == if e == Some(k) then Without(d, e) else Without(Remove(d, k), e)
  {
    if e.Some? {
      RemoveLookup(d, e.value, k);
      RemoveTwice(d, e.value, k);
    }
  }

  lemma WithoutPutLast<V>(d: Dict<string, V>, e: Option<string>, k: string, v: V)
    ensures PutLast(Without(d, e), k, v) == if e == Some(k) then PutLast(d, k, v) else Without(PutLast(d, k, v), e)
  {
    if e.Some? {
      PutLastRemove(d, e.value, k, v);
    }
  }

  lemma GetOneApart<V>(big: Dict<string, Stamped<V>>, e: Option<string>, key: string, now: int, ttl: int)
    ensures AfterGet(Without(big, e), key, now, ttl) == Without(AfterGet(big, key, now, ttl), e)
  {
    WithoutLookup(big, e, key);
    var s := Lookup(big, key);
    if s.Some? {
      WithoutPutLast(big, e, key, s.value);
      if e == Some(key) {
        GetTheExtra(big, key, s.value);
      }
    }
  }

  lemma GetTheExtra<V>(big: Dict<string, V>, key: string, s: V)
    ensures Remove(PutLast(big, key, s), key) == Remove(big, key)
    ensures Remove(Remove(big, key), key) == Remove(big, key)
  {
    RemoveTwice(big, key, key);
    RemoveConcat(Remove(big, key), [Slot(key, s)], key);
    assert Remove([Slot(key, s)], key) == [];
  }

  lemma PutOneApart<V>(big: Dict<string, Stamped<V>>, e: Option<string>, key: string, value: V, now: int, c: nat)
    returns (e': Option<string>)
    requires Unique(big) && |Without(big, e)| <= c
    ensures AfterPut(Without(big, e), key, value, now, c) == Without(AfterPut(big, key, value, now, c + 1), e')
  {
    var v := Stamped(now, value);
    WithoutPutLast(big, e, key, v);
    PutLastUnique(big, key, v);
    e' := NewestOneApart(PutLast(big, key, v), if e == Some(key) then None else e, c);
  }

  /** A cache with one more place holds the same entries in the same order, or those and one more. */
  lemma {:induction false} OneMorePlace<V>(ops: seq<Op<V>>, c: nat, ttl: int) returns (e: Option<string>)
    ensures Run(ops, c, ttl) == Without(Run(ops, c + 1, ttl), e)
  {
    if ops == [] {
      return None;
    }
    var before := ops[..|ops| - 1];
    RunBounded(before, c, ttl);
    RunBounded(before, c + 1, ttl);
    e := OneMorePlace(before, c, ttl);
    match ops[|ops| - 1]
    case Get(key, now) => GetOneApart(Run(before, c + 1, ttl), e, key, now, ttl);
    case Put(key, value, now) => e := PutOneApart(Run(before, c + 1, ttl), e, key, value, now, c);
  }

  /** `small` is `big` with some slots left out, in order. */
  ghost predicate Within<T>(small: seq<T>, big: seq<T>) {
    if small == [] then true
    else if big == [] then false
    else (small[0] == big[0] && Within(small[1..], big[1..])) || Within(small, big[1..])
  }

  lemma {:induction false} WithinSelf<T>(a: seq<T>)
    ensures Within(a, a)
  {
    if a != [] {
      WithinSelf(a[1..]);
    }
  }

  lemma {:induction false} WithinTransitive<T>(a: seq<T>, b: seq<T>, c: seq<T>)
    requires Within(a, b) && Within(b, c)
    ensures Within(a, c)
    decreases |b| + |c|
  {
    if a != [] {
      if b[0] == c[0] && Within(b[1..], c[1..]) {
        if a[0] == b[0] && Within(a[1..], b[1..]) {
          WithinTransitive(a[1..], b[1..], c[1..]);
        } else {
          WithinTransitive(a, b[1..], c[1..]);
        }
      } else {
        WithinTransitive(a, b, c[1..]);
      }
    }
  }

  lemma {:induction false} RemoveWithin<V>(d: Dict<string, V>, k: string)
    ensures Within(Remove(d, k), d)
  {
    if d != [] {
      RemoveWithin(d[1..], k);
      if d[0].key != k {
        assert Remove(d, k)[1..] == Remove(d[1..], k);
      }
    }
  }

  lemma {:induction false} WithinMember<T>(a: seq<T>, b: seq<T>, x: T)
    requires Within(a, b) && x in a
    ensures x in b
    decreases |b|
  {
    if a[0] == b[0] && Within(a[1..], b[1..]) {
      if x != a[0] {
        WithinMember(a[1..], b[1..], x);
      }
    } else {
      WithinMember(a, b[1..], x);
    }
  }

  /**
   The inclusion property.  After the same operations a cache of capacity `c` holds the entries of a
   cache of capacity `c'` with some left out, in the same order, and at most `c' - c` of them.
   */
  lemma {:induction false} LargerHoldsMore<V>(ops: seq<Op<V>>, c: nat, c': nat, ttl: int)
    requires c <= c'
    ensures Within(Run(ops, c, ttl), Run(ops, c', ttl))
    ensures |Run(ops, c, ttl)| <= |Run(ops, c', ttl)| <= |Run(ops, c, ttl)| + (c' - c)
    decreases c' - c
  {
    if c == c' {
      WithinSelf(Run(ops, c, ttl));
    } else {
      var e := OneMorePlace(ops, c, ttl);
      RunBounded(ops, c + 1, ttl);
      if e.Some? {
        RemoveWithin(Run(ops, c + 1, ttl), e.value);
        RemoveUnique(Run(ops, c + 1, ttl), e.value);
      } else {
        WithinSelf(Run(ops, c, ttl));
      }
      LargerHoldsMore(ops, c + 1, c', ttl);
      WithinTransitive(Run(ops, c, ttl), Run(ops, c + 1, ttl), Run(ops, c', ttl));
    }
  }

  /** A hit in the smaller cache is the same hit in the larger one. */
  lemma LargerHitsToo<V>(ops: seq<Op<V>>, c: nat, c': nat, ttl: int, key: string, now: int)
    requires c <= c' && Answer(Run(ops, c, ttl), key, now, ttl).Some?
    ensures Answer(Run(ops, c', ttl), key, now, ttl) == Answer(Run(ops, c, ttl), key, now, ttl)
  {
    var small, big := Run(ops, c, ttl), Run(ops, c', ttl);
    RunBounded(ops, c, ttl);
    RunBounded(ops, c', ttl);
    LargerHoldsMore(ops, c, c', ttl);
    var s := Lookup(small, key).value;
    LookupMember(small, key, s);
    WithinMember(small, big, Slot(key, s));
    LookupMember(big, key, s);
  }

  // ---------------------------------------------------------------- without eviction

  /** The clock never goes back, up to `now`. */
  predicate ClockUpTo<V>(ops: seq<Op<V>>, now: int) {
    ops == [] || (ops[|ops| - 1].now <= now && ClockUpTo(ops[..|ops| - 1], ops[|ops| - 1].now))
  }

  /** The keys ever put. */
  function KeysPut<V>(ops: seq<Op<V>>): set<string> {
    set i | 0 <= i < |ops| && ops[i].Put? :: ops[i].key
  }

  /** The latest `put` of a key is not held only if it has expired. */
  predicate LostOnlyExpired<V>(ops: seq<Op<V>>, d: Dict<string, Stamped<V>>, now: int, ttl: int, key: string) {
    LatestPut(ops, key).Some? && Lookup(d, key).None? ==> Expired(LatestPut(ops, key).value, now, ttl)
  }

  lemma {:induction false} LatestIsPut<V>(ops: seq<Op<V>>, key: string)
    requires LatestPut(ops, key).Some?
    ensures key in KeysPut(ops)
  {
    var op, before := ops[|ops| - 1], ops[..|ops| - 1];
    if !(op.Put? && op.key == key) {
      LatestIsPut(before, key);
      var i :| 0 <= i < |before| && before[i].Put? && before[i].key == key;
      assert ops[i] == before[i];
    }
  }

  lemma HeldKeysArePut<V>(ops: seq<Op<V>>, cap: nat, ttl: int)
    ensures Keys(Run(ops, cap, ttl)) <= KeysPut(ops)
  {
    var d := Run(ops, cap, ttl);
    forall i | 0 <= i < |d| ensures d[i].key in KeysPut(ops) {
      HeldIsLatest(ops, cap, ttl, d[i]);
      LatestIsPut(ops, d[i].key);
    }
  }

  lemma {:induction false} KeysAfterRemove<V>(d: Dict<string, V>, key: string, i: nat)
    requires i < |Remove(d, key)|
    ensures Remove(d, key)[i].key in Keys(d)
  {
    var rest := d[1..];
    assert forall j :: 0 <= j < |rest| ==> rest[j] == d[j + 1];
    if d[0].key == key {
      KeysAfterRemove(rest, key, i);
    } else if i > 0 {
      KeysAfterRemove(rest, key, i - 1);
    }
  }

  lemma KeysAfterPut<V>(d: Dict<string, V>, key: string, v: V)
    ensures Keys(PutLast(d, key, v)) <= Keys(d) + {key}
  {
    var x := PutLast(d, key, v);
    forall i | 0 <= i < |x| ensures x[i].key in Keys(d) + {key} {
      if i < |x| - 1 {
        KeysAfterRemove(d, key, i);
      }
    }
  }

  lemma KeysPutSnoc<V>(ops: seq<Op<V>>, op: Op<V>)
    ensures KeysPut(ops + [op]) == KeysPut(ops) + if op.Put? then {op.key} else {}
  {
    var all := ops + [op];
    assert all[|ops|] == op;
    assert forall i :: 0 <= i < |ops| ==> all[i] == ops[i];
  }

  /** With a place for every key that is put, nothing is trimmed. */
  lemma NothingTrimmed<V>(ops: seq<Op<V>>, cap: nat, ttl: int, key: string, v: Stamped<V>)
    requires |KeysPut(ops) + {key}| <= cap
    ensures Newest(PutLast(Run(ops, cap, ttl), key, v), cap) == PutLast(Run(ops, cap, ttl), key, v)
  {
    var d := Run(ops, cap, ttl);
    RunBounded(ops, cap, ttl);
    HeldKeysArePut(ops, cap, ttl);
    PutLastUnique(d, key, v);
    UniqueKeys(PutLast(d, key, v));
    KeysAfterPut(d, key, v);
    SubsetSize(Keys(PutLast(d, key, v)), KeysPut(ops) + {key});
  }

  lemma {:induction false} RoomForAll<V>(ops: seq<Op<V>>, cap: nat, ttl: int, now: int, key: string)
    requires ClockUpTo(ops, now) && |KeysPut(ops)| <= cap
    ensures LostOnlyExpired(ops, Run(ops, cap, ttl), now, ttl, key)
  {
    if ops != [] {
      var before, op := ops[..|ops| - 1], ops[|ops| - 1];
      assert ops == before + [op];
      KeysPutSnoc(before, op);
      SubsetSize(KeysPut(before), KeysPut(ops));
      RoomForAll(before, cap, ttl, op.now, key);
      var d := Run(before, cap, ttl);
      RunBounded(before, cap, ttl);
      match op
      case Get(k, t) =>
        if k == key && Lookup(d, k).Some? {
          LookupMember(d, k, Lookup(d, k).value);
          HeldIsLatest(before, cap, ttl, Slot(k, Lookup(d, k).value));
        }
        GetLosesOnlyExpired(before, d, op, now, ttl, key);
      case Put(k, value, t) =>
        NothingTrimmed(before, cap, ttl, k, Stamped(t, value));
        PutLookup(d, k, Stamped(t, value), key);
    }
  }

  lemma PutLookup<V>(d: Dict<string, V>, k: string, v: V, q: string)
    requires Unique(d)
    ensures Lookup(PutLast(d, k, v), q) == if q == k then Some(v) else Lookup(d, q)
  {
    PutLastUnique(d, k, v);
    var x := PutLast(d, k, v);
    LookupMember(x, k, v);
    if Lookup(d, q).Some? {
      LookupMember(d, q, Lookup(d, q).value);
      LookupMember(x, q, Lookup(d, q).value);
    }
    if Lookup(x, q).Some? {
      LookupMember(x, q, Lookup(x, q).value);
      LookupMember(d, q, Lookup(x, q).value);
    }
  }

  lemma GetLosesOnlyExpired<V>(before: seq<Op<V>>, d: Dict<string, Stamped<V>>, op: Op<V>, now: int, ttl: int,
                               key: string)
    requires Unique(d) && op.Get? && op.now <= now
    requires LostOnlyExpired(before, d, op.now, ttl, key)
    requires op.key == key && Lookup(d, key).Some? ==> LatestPut(before, key) == Lookup(d, key)
    ensures LostOnlyExpired(before, AfterGet(d, op.key, op.now, ttl), now, ttl, key)
  {
    var s := Lookup(d, op.key);
    RemoveLookup(d, op.key, key);
    if s.Some? {
      LookupMember(d, op.key, s.value);
      PutLookup(d, op.key, s.value, key);
    }
  }

  /**
   A cache with a place for every key that is put answers a `get` exactly with the latest `put`, when
   that has not expired: at a smaller capacity every other miss is an eviction.
   */
  lemma NeverFullIsExact<V>(ops: seq<Op<V>>, cap: nat, ttl: int, now: int, key: string)
    requires ClockUpTo(ops, now) && |KeysPut(ops)| <= cap
    ensures Answer(Run(ops, cap, ttl), key, now, ttl) ==
      match LatestPut(ops, key)
      case None => None
      case Some(s) => if now - s.ts <= ttl then Some(s.value) else None
  {
    var d := Run(ops, cap, ttl);
    RoomForAll(ops, cap, ttl, now, key);
    RunBounded(ops, cap, ttl);
    if Lookup(d, key).Some? {
      LookupMember(d, key, Lookup(d, key).value);
      HeldIsLatest(ops, cap, ttl, Slot(key, Lookup(d, key).value));
    }
  }

  // ---------------------------------------------------------------- what goes first

  /** The place of the last operation on the key. */
  function LastUse<V>(ops: seq<Op<V>>, key: string): int {
    if ops == [] then -1
    else if ops[|ops| - 1].key == key then |ops| - 1
    else LastUse(ops[..|ops| - 1], key)
  }

  lemma {:induction false} LastUseBound<V>(ops: seq<Op<V>>, key: string)
    ensures LastUse(ops, key) < |ops|
  {
    if ops != [] {
      LastUseBound(ops[..|ops| - 1], key);
    }
  }

  /** The slots are in the order of the last operations on their keys, the least recently used one first. */
  ghost predicate ByUse<V>(d: Dict<string, Stamped<V>>, ops: seq<Op<V>>) {
    forall i, j :: 0 <= i < j < |d| ==> LastUse(ops, d[i].key) < LastUse(ops, d[j].key)
  }

  lemma CutByUse<V>(d: Dict<string, Stamped<V>>, k: string, ops: seq<Op<V>>)
    requires ByUse(d, ops) && Unique(d)
    ensures ByUse(Remove(d, k), ops)
  {
    if i :| 0 <= i < |d| && d[i].key == k {
      RemoveAt(d, i);
      var r := Remove(d, k);
      assert forall j :: 0 <= j < |r| ==> r[j] == d[if j < i then j else j + 1];
    } else {
      RemoveAbsent(d, k);
    }
  }

  lemma UsedNow<V>(d: Dict<string, Stamped<V>>, before: seq<Op<V>>, op: Op<V>)
    requires ByUse(d, before) && !Has(d, op.key)
    ensures ByUse(d, before + [op])
    ensures forall v :: ByUse(d + [Slot(op.key, v)], before + [op])
  {
    var ops := before + [op];
    assert ops[..|before|] == before;
    forall i | 0 <= i < |d| ensures LastUse(ops, d[i].key) == LastUse(before, d[i].key) < |before| {
      LastUseBound(before, d[i].key);
    }
    assert LastUse(ops, op.key) == |before|;
  }

  lemma NewestByUse<V>(d: Dict<string, Stamped<V>>, cap: nat, ops: seq<Op<V>>)
    requires ByUse(d, ops)
    ensures ByUse(Newest(d, cap), ops)
  {
  }

  lemma {:induction false} RunByUse<V>(ops: seq<Op<V>>, cap: nat, ttl: int)
    ensures ByUse(Run(ops, cap, ttl), ops)
  {
    if ops != [] {
      var before, op := ops[..|ops| - 1], ops[|ops| - 1];
      var d := Run(before, cap, ttl);
      assert ops == before + [op];
      RunByUse(before, cap, ttl);
      RunBounded(before, cap, ttl);
      CutByUse(d, op.key, before);
      RemoveHasNot(d, op.key);
      UsedNow(Remove(d, op.key), before, op);
      if op.Put? {
        NewestByUse(PutLast(d, op.key, Stamped(op.now, op.value)), cap, ops);
      } else if Lookup(d, op.key).None? {
        RemoveAbsent(d, op.key);
      }
    }
  }

  lemma PutShape<V>(d: Dict<string, Stamped<V>>, key: string, v: Stamped<V>, cap: nat)
    requires Unique(d) && |d| <= cap && cap > 0
    ensures var rest := Remove(d, key);
            && Newest(PutLast(d, key, v), cap) == (if |rest| < cap then rest else rest[1..]) + [Slot(key, v)]
            && (Has(d, key) || |d| < cap ==> |rest| < cap)
  {
    RemoveSize(d, key);
    var rest, slot := Remove(d, key), Slot(key, v);
    if |rest| >= cap {
      assert (rest + [slot])[1..] == rest[1..] + [slot];
    }
  }

  /**
   A `put` into a full cache drops one entry, that of the key whose last operation is the longest ago; a
   `put` of a key that is held, or into a cache with a place left, drops none.
   */
  lemma PutDropsLeastUsed<V>(ops: seq<Op<V>>, cap: nat, ttl: int, key: string, value: V, now: int)
    requires cap > 0
    ensures var d, after := Run(ops, cap, ttl), AfterPut(Run(ops, cap, ttl), key, value, now, cap);
            var rest := Remove(d, key);
            && after == (if |rest| < cap then rest else rest[1..]) + [Slot(key, Stamped(now, value))]
            && (Has(d, key) || |d| < cap ==> |rest| < cap)
            && forall i :: 0 < i < |d| ==> LastUse(ops, d[0].key) < LastUse(ops, d[i].key)
  {
    RunByUse(ops, cap, ttl);
    RunBounded(ops, cap, ttl);
    PutShape(Run(ops, cap, ttl), key, Stamped(now, value), cap);
  }
}
