/**
 The in-memory store behind the `Idempotency-Key` middleware: one bucket per caller, each an
 ordered dictionary of stored responses plus the lock object of every key.

 The first half gives each operation as a function on bucket values (`Evicted`, `Got`, `Stored`)
 and proves what the time-to-live and the cap guarantee.  The second half is the mutable store,
 whose methods are proved to compute those functions.
 */
module IdempotencyStores {
  import opened Options
  import opened OrderedDicts

  datatype Response = Response(status: int, body: string)

  datatype Cached = Cached(response: Response, bodyHash: string, requestId: string, storedAt: real)

  /** An `asyncio.Lock` object; only its identity matters here. */
  type Lock = nat

  datatype Bucket = Bucket(entries: Dict<string, Cached>, locks: map<string, Lock>)

  const EMPTY := Bucket([], map[])

  predicate Expired(c: Cached, now: real, ttl: real) {
    now - c.storedAt > ttl
  }

  /** How many leading entries are expired: the walk stops at the first live one. */
  function StaleCount(d: Dict<string, Cached>, now: real, ttl: real): (n: nat)
    ensures n <= |d|
    ensures forall i :: 0 <= i < n ==> Expired(d[i].value, now, ttl)
    ensures n < |d| ==> !Expired(d[n].value, now, ttl)
  {
    if d == [] || !Expired(d[0].value, now, ttl) then 0
    else 1 + StaleCount(d[1..], now, ttl)
  }

  /** Drop the `n` oldest entries together with the lock objects of their keys. */
  function DropOldest(b: Bucket, n: nat): Bucket
    requires n <= |b.entries|
  {
    Bucket(b.entries[n..], b.locks - Keys(b.entries[..n]))
  }

  function Evicted(b: Bucket, now: real, ttl: real): Bucket {
    DropOldest(b, StaleCount(b.entries, now, ttl))
  }

  /** `get`: evict, then look up and touch. */
  function Got(b: Bucket, k: string, now: real, ttl: real): (Bucket, Option<Cached>) {
    var e := Evicted(b, now, ttl);
    match Lookup(e.entries, k)
    case None => (e, None)
    case Some(c) => (Bucket(PutLast(e.entries, k, c), e.locks), Some(c))
  }

  function Overflow(d: Dict<string, Cached>, cap: nat): (n: nat)
    ensures n <= |d|
  {
    if |d| > cap then |d| - cap else 0
  }

  /** `put`: insert last, then drop the oldest until the cap holds. */
  function Stored(b: Bucket, k: string, c: Cached, cap: nat): Bucket {
    var d := PutLast(b.entries, k, c);
    DropOldest(Bucket(d, b.locks), Overflow(d, cap))
  }

  // ---------------------------------------------------------------- what eviction may drop

  /** Expiry never drops a live entry, and an entry it keeps is either live or behind a live one. */
  lemma {:induction false} EvictionDropsOnlyExpired(b: Bucket, now: real, ttl: real)
    ensures var e := Evicted(b, now, ttl).entries;
            && (forall s :: s in b.entries && s !in e ==> Expired(s.value, now, ttl))
            && (forall s :: s in e ==> s in b.entries)
            && (e != [] ==> !Expired(e[0].value, now, ttl))
  {
    var n := StaleCount(b.entries, now, ttl);
    assert b.entries == b.entries[..n] + b.entries[n..];
  }

  /** After a put the bucket is at or under the cap, and what was cut are its oldest entries. */
  lemma PutRespectsCap(b: Bucket, k: string, c: Cached, cap: nat)
    requires Unique(b.entries)
    ensures var e := Stored(b, k, c, cap).entries;
            && |e| <= cap
            && Unique(e)
            && (cap > 0 ==> Slot(k, c) in e)
            && (exists n :: 0 <= n <= |PutLast(b.entries, k, c)| && e == PutLast(b.entries, k, c)[n..]
                         && (n > 0 ==> |e| == cap))
  {
    var d := PutLast(b.entries, k, c);
    PutLastUnique(b.entries, k, c);
    var n := Overflow(d, cap);
    assert d[n..] == Stored(b, k, c, cap).entries;
    assert d[|d| - 1] == Slot(k, c);
    if cap > 0 {
      assert d[n..][|d| - n - 1] == Slot(k, c);
    }
  }

  lemma StoredUnique(b: Bucket, k: string, c: Cached, cap: nat)
    requires Unique(b.entries)
    ensures Unique(Stored(b, k, c, cap).entries)
  {
    PutLastUnique(b.entries, k, c);
  }

  lemma TouchUnique(d: Dict<string, Cached>, k: string, c: Cached)
    requires Unique(d) && Lookup(d, k) == Some(c)
    ensures Unique(PutLast(d, k, c)) && forall s :: s in PutLast(d, k, c) <==> s in d
  {
    PutLastUnique(d, k, c);
    LookupMember(d, k, c);
    forall s | s in d && s.key == k ensures s == Slot(k, c) {
      LookupMember(d, k, s.value);
    }
  }

  lemma {:induction false} EvictedUnique(b: Bucket, now: real, ttl: real)
    requires Unique(b.entries)
    ensures Unique(Evicted(b, now, ttl).entries)
  {
  }

  lemma {:induction false} GotUnique(b: Bucket, k: string, now: real, ttl: real)
    requires Unique(b.entries)
    ensures Unique(Got(b, k, now, ttl).0.entries)
    ensures forall s :: s in Got(b, k, now, ttl).0.entries <==> s in Evicted(b, now, ttl).entries
  {
    var d := Evicted(b, now, ttl).entries;
    EvictedUnique(b, now, ttl);
    if Has(d, k) {
      TouchUnique(d, k, Lookup(d, k).value);
    }
  }

  /**
   `get` returns an expired entry exactly when that entry is expired and some entry ahead of it
   in the order is not: the walk from the oldest end stops too early.
   */
  lemma {:induction false} ExpiredHitExactly(b: Bucket, i: nat, now: real, ttl: real)
    requires Unique(b.entries) && i < |b.entries|
    ensures var k := b.entries[i].key;
            Got(b, k, now, ttl).1 == Some(b.entries[i].value) && Expired(b.entries[i].value, now, ttl)
            <==> Expired(b.entries[i].value, now, ttl)
                 && exists j :: 0 <= j < i && !Expired(b.entries[j].value, now, ttl)
  {
    var d := b.entries;
    var n := StaleCount(d, now, ttl);
    var k := d[i].key;
    if i < n {
      assert !Has(d[n..], k);
    } else {
      LookupAt(d[n..], i - n);
    }
    if Expired(d[i].value, now, ttl) && n <= i {
      assert n < i;
    }
  }

  // ---------------------------------------------------------------- runs of one bucket

  /** Oldest first: the order the eviction walk relies on. */
  ghost predicate SortedByAge(d: Dict<string, Cached>) {
    forall i, j :: 0 <= i < j < |d| ==> d[i].value.storedAt <= d[j].value.storedAt
  }

  datatype Op =
    | Get(key: string, now: real)
    | Put(key: string, value: Cached)
  {
    function Time(): real {
      match this
      case Get(_, now) => now
      case Put(_, v) => v.storedAt
    }
  }

  function Apply(b: Bucket, op: Op, ttl: real, cap: nat): Bucket {
    match op
    case Get(k, now) => Got(b, k, now, ttl).0
    case Put(k, v) => Stored(b, k, v, cap)
  }

  function Run(b: Bucket, ops: seq<Op>, ttl: real, cap: nat): Bucket
    decreases |ops|
  {
    if ops == [] then b else Run(Apply(b, ops[0], ttl, cap), ops[1..], ttl, cap)
  }

  /** Clock readings never go back, starting no earlier than `t`. */
  ghost predicate Clocked(ops: seq<Op>, t: real) {
    ops == [] || (t <= ops[0].Time() && Clocked(ops[1..], ops[0].Time()))
  }

  /** A hit, if any, is on the entry that is already last. */
  predicate TouchKeepsOrder(b: Bucket, op: Op, ttl: real) {
    op.Get? ==>
      var e := Evicted(b, op.now, ttl).entries;
      Has(e, op.key) ==> e != [] && e[|e| - 1].key == op.key
  }

  ghost predicate TouchesKeepOrder(b: Bucket, ops: seq<Op>, ttl: real, cap: nat)
    decreases |ops|
  {
    ops == [] || (TouchKeepsOrder(b, ops[0], ttl) && TouchesKeepOrder(Apply(b, ops[0], ttl, cap), ops[1..], ttl, cap))
  }

  /** Every hit of the run returns an entry that is within the time-to-live. */
  ghost predicate NoExpiredHit(b: Bucket, ops: seq<Op>, ttl: real, cap: nat)
    decreases |ops|
  {
    ops == [] || (
      && (ops[0].Get? ==>
            var r := Got(b, ops[0].key, ops[0].now, ttl).1;
            r.Some? ==> !Expired(r.value, ops[0].now, ttl))
      && NoExpiredHit(Apply(b, ops[0], ttl, cap), ops[1..], ttl, cap))
  }

  ghost predicate StoredBy(d: Dict<string, Cached>, t: real) {
    forall s :: s in d ==> s.value.storedAt <= t
  }

  lemma RemoveSorted(d: Dict<string, Cached>, k: string)
    requires Unique(d) && SortedByAge(d)
    ensures SortedByAge(Remove(d, k))
  {
    if Has(d, k) {
      var i :| 0 <= i < |d| && d[i].key == k;
      RemoveAt(d, i);
    } else {
      RemoveAbsent(d, k);
    }
  }

  ghost predicate AgeInvariant(d: Dict<string, Cached>, t: real) {
    Unique(d) && SortedByAge(d) && StoredBy(d, t)
  }

  lemma {:induction false} GetSorted(b: Bucket, k: string, now: real, ttl: real, t: real)
    requires AgeInvariant(b.entries, t) && t <= now
    requires TouchKeepsOrder(b, Get(k, now), ttl)
    ensures AgeInvariant(Got(b, k, now, ttl).0.entries, now)
  {
    var e := Evicted(b, now, ttl).entries;
    SuffixSorted(b.entries, StaleCount(b.entries, now, ttl), t);
    if Has(e, k) {
      LookupAt(e, |e| - 1);
      TouchLast(e);
    }
  }

  lemma {:induction false} SuffixSorted(d: Dict<string, Cached>, n: nat, t: real)
    requires AgeInvariant(d, t) && n <= |d|
    ensures AgeInvariant(d[n..], t)
  {
  }

  lemma {:induction false} PutLastSorted(d: Dict<string, Cached>, k: string, v: Cached, t: real)
    requires AgeInvariant(d, t) && t <= v.storedAt
    ensures AgeInvariant(PutLast(d, k, v), v.storedAt)
  {
    PutLastUnique(d, k, v);
    RemoveSorted(d, k);
    RemoveMembers(d, k);
    var r := Remove(d, k);
    assert forall i :: 0 <= i < |r| ==> r[i] in r;
  }

  lemma {:induction false} ApplySorted(b: Bucket, op: Op, ttl: real, cap: nat, t: real)
    requires AgeInvariant(b.entries, t) && t <= op.Time()
    requires TouchKeepsOrder(b, op, ttl)
    ensures AgeInvariant(Apply(b, op, ttl, cap).entries, op.Time())
  {
    match op
    case Get(k, now) => GetSorted(b, k, now, ttl, t);
    case Put(k, v) => PutLastSorted(b.entries, k, v, t);
  }

  /**
   In every run of gets and puts on one bucket under a clock that never goes back, if each hit
   touches only the entry that is already last, the order stays the age order and no hit returns
   an expired entry.
   */
  lemma {:induction false} AgeOrderMeansNoExpiredHit(b: Bucket, ops: seq<Op>, ttl: real, cap: nat, t: real)
    requires AgeInvariant(b.entries, t)
    requires Clocked(ops, t) && TouchesKeepOrder(b, ops, ttl, cap)
    ensures NoExpiredHit(b, ops, ttl, cap) && SortedByAge(Run(b, ops, ttl, cap).entries)
    decreases |ops|
  {
    if ops != [] {
      var op := ops[0];
      ApplySorted(b, op, ttl, cap, t);
      AgeOrderMeansNoExpiredHit(Apply(b, op, ttl, cap), ops[1..], ttl, cap, op.Time());
      if op.Get? {
        var e := Evicted(b, op.now, ttl).entries;
        var r := Lookup(e, op.key);
        if r.Some? {
          var i :| 0 <= i < |e| && e[i] == Slot(op.key, r.value);
          assert e[0].value.storedAt <= e[i].value.storedAt;
        }
      }
    }
  }

  /**
   The guard is needed.  Two entries stored at 0 and 5, one hit on the older at 6, and a second
   hit at `ttl + 1` returns the older entry although it is past its time-to-live.
   */
  lemma {:induction false} HitCanServeExpired(ttl: real, cap: nat, first: Cached, second: Cached)
    requires ttl >= 6.0 && cap >= 2 && first.storedAt == 0.0 && second.storedAt == 5.0
    ensures var ops := [Put("a", first), Put("b", second), Get("a", 6.0)];
            var b := Run(EMPTY, ops, ttl, cap);
            && Clocked(ops, 0.0)
            && Got(b, "a", ttl + 1.0, ttl).1 == Some(first)
            && Expired(first, ttl + 1.0, ttl)
  {
    var swapped := [Slot("b", second), Slot("a", first)];
    PutsAndHit(ttl, cap, first, second);
    ClockedHit(first, second);
    ExpiredHitExactly(Bucket(swapped, map[]), 1, ttl + 1.0, ttl);
    assert !Expired(swapped[0].value, ttl + 1.0, ttl);
  }

  lemma ClockedHit(first: Cached, second: Cached)
    requires first.storedAt == 0.0 && second.storedAt == 5.0
    ensures Clocked([Put("a", first), Put("b", second), Get("a", 6.0)], 0.0)
  {
    var ops := [Put("a", first), Put("b", second), Get("a", 6.0)];
    assert ops[1..] == [Put("b", second), Get("a", 6.0)] && ops[1..][1..] == [Get("a", 6.0)];
    assert ops[0] == Put("a", first);
    assert Clocked(ops[1..], 0.0);
  }

  /** The hit moves the older entry behind the newer one. */
  lemma {:induction false} PutsAndHit(ttl: real, cap: nat, first: Cached, second: Cached)
    requires ttl >= 6.0 && cap >= 2 && first.storedAt == 0.0 && second.storedAt == 5.0
    ensures Run(EMPTY, [Put("a", first), Put("b", second), Get("a", 6.0)], ttl, cap)
         == Bucket([Slot("b", second), Slot("a", first)], map[])
  {
    var d, g := [Slot("a", first), Slot("b", second)], Get("a", 6.0);
    TwoPuts(ttl, cap, first, second);
    LookupAt(d, 0);
    RemoveAt(d, 0);
    var touched := Got(Bucket(d, map[]), "a", 6.0, ttl).0;
    assert touched.entries == [Slot("b", second), Slot("a", first)];
    assert [g][1..] == [];
    assert Run(Bucket(d, map[]), [g], ttl, cap) == touched;
    RunSplit(EMPTY, [Put("a", first), Put("b", second)], [g], ttl, cap);
    assert [Put("a", first), Put("b", second)] + [g] == [Put("a", first), Put("b", second), g];
  }

  lemma {:induction false} RunSplit(b: Bucket, a: seq<Op>, c: seq<Op>, ttl: real, cap: nat)
    ensures Run(b, a + c, ttl, cap) == Run(Run(b, a, ttl, cap), c, ttl, cap)
    decreases |a|
  {
    if a == [] {
      assert a + c == c;
    } else {
      assert (a + c)[1..] == a[1..] + c;
      RunSplit(Apply(b, a[0], ttl, cap), a[1..], c, ttl, cap);
    }
  }

  lemma {:induction false} TwoPuts(ttl: real, cap: nat, first: Cached, second: Cached)
    requires cap >= 2
    ensures Run(EMPTY, [Put("a", first), Put("b", second)], ttl, cap)
         == Bucket([Slot("a", first), Slot("b", second)], map[])
  {
    var p, q := Put("a", first), Put("b", second);
    var one := Bucket([Slot("a", first)], map[]);
    assert Apply(EMPTY, p, ttl, cap) == one by {
      assert PutLast(EMPTY.entries, "a", first) == one.entries;
    }
    RemoveAbsent(one.entries, "b");
    assert PutLast(one.entries, "b", second) == [Slot("a", first), Slot("b", second)];
    assert [p, q][1..] == [q] && [q][1..] == [];
    assert Run(one, [q], ttl, cap) == Run(Apply(one, q, ttl, cap), [], ttl, cap);
  }

  // ---------------------------------------------------------------- the whole store

  function BucketOf(m: map<string, Bucket>, tenant: string): Bucket {
    if tenant in m then m[tenant] else EMPTY
  }

  /** The bucket after `lock_for`, and the lock object it returns; `spare` is an unused object. */
  function Locked(b: Bucket, key: string, spare: Lock): (Bucket, Lock) {
    if key in b.locks then (b, b.locks[key]) else (b.(locks := b.locks[key := spare]), spare)
  }

  function LockedIn(m: map<string, Bucket>, tenant: string, key: string, spare: Lock): map<string, Bucket> {
    m[tenant := Locked(BucketOf(m, tenant), key, spare).0]
  }

  function GotFrom(m: map<string, Bucket>, tenant: string, key: string, now: real, ttl: real)
    : (map<string, Bucket>, Option<Cached>)
  {
    if tenant !in m then (m, None)
    else
      var (b, r) := Got(m[tenant], key, now, ttl);
      (m[tenant := b], r)
  }

  function StoredIn(m: map<string, Bucket>, tenant: string, key: string, c: Cached, cap: nat): map<string, Bucket> {
    m[tenant := Stored(BucketOf(m, tenant), key, c, cap)]
  }

  /** Making the bucket first does not change what `lock_for` does to it. */
  lemma MadeFirst(m: map<string, Bucket>, tenant: string, key: string, spare: Lock)
    ensures var made := m[tenant := BucketOf(m, tenant)];
            && BucketOf(made, tenant) == BucketOf(m, tenant)
            && LockedIn(made, tenant, key, spare) == LockedIn(m, tenant, key, spare)
  {
  }

  lemma UpdateTwice(m: map<string, Bucket>, tenant: string, a: Bucket, b: Bucket)
    ensures m[tenant := a][tenant := b] == m[tenant := b]
  {
  }

  /** No operation on one caller's keys changes another caller's bucket. */
  lemma {:induction false} CallersAreIsolated(m: map<string, Bucket>, spare: Lock, tenant: string, key: string,
                                              now: real, ttl: real, c: Cached, cap: nat, other: string)
    requires other != tenant
    ensures BucketOf(LockedIn(m, tenant, key, spare), other) == BucketOf(m, other)
    ensures BucketOf(GotFrom(m, tenant, key, now, ttl).0, other) == BucketOf(m, other)
    ensures BucketOf(StoredIn(m, tenant, key, c, cap), other) == BucketOf(m, other)
  {
  }

  // ---------------------------------------------------------------- the mutable store

  class TenantBucket {
    var entries: Dict<string, Cached>
    var locks: map<string, Lock>

    constructor ()
      ensures View() == EMPTY
    {
      entries, locks := [], map[];
    }

    ghost function View(): Bucket
      reads this
    {
      Bucket(entries, locks)
    }

    /** The first loop of `evict_expired`: the leading keys whose entries are expired. */
    method StaleKeys(now: real, ttl: real) returns (stale: seq<string>)
      ensures |stale| == StaleCount(entries, now, ttl)
      ensures forall j :: 0 <= j < |stale| ==> stale[j] == entries[j].key
    {
      stale := [];
      var i := 0;
      while i < |entries| && Expired(entries[i].value, now, ttl)
        invariant 0 <= i <= |entries|
        invariant forall j :: 0 <= j < i ==> Expired(entries[j].value, now, ttl)
        invariant |stale| == i && forall j :: 0 <= j < i ==> stale[j] == entries[j].key
      {
        stale := stale + [entries[i].key];
        i := i + 1;
      }
    }

    method EvictExpired(now: real, ttl: real)
      requires Unique(entries)
      modifies this
      ensures View() == Evicted(old(View()), now, ttl)
    {
      ghost var before := entries;
      var stale := StaleKeys(now, ttl);
      NoneDropped(View());
      var i := 0;
      while i < |stale|
        invariant 0 <= i <= |stale| && before == old(entries)
        invariant View() == DropOldest(old(View()), i)
      {
        OneMoreDropped(old(View()), i);
        assert stale[i] == before[i].key;
        entries := Remove(entries, stale[i]);
        locks := locks - {stale[i]};
        i := i + 1;
      }
    }

    /** The part of `lock_for` that works on one bucket. */
    method LockFor(key: string, spare: Lock) returns (lock: Lock, made: bool)
      modifies this`locks
      ensures (View(), lock) == Locked(old(View()), key, spare)
      ensures made <==> key !in old(locks)
    {
      made := key !in locks;
      if made {
        locks := locks[key := spare];
      }
      lock := locks[key];
    }

    /** The part of `get` that works on one bucket. */
    method Find(key: string, now: real, ttl: real) returns (r: Option<Cached>)
      requires Unique(entries)
      modifies this
      ensures (View(), r) == Got(old(View()), key, now, ttl)
    {
      EvictExpired(now, ttl);
      r := Lookup(entries, key);
      if r.Some? {
        entries := PutLast(entries, key, r.value);
      }
    }

    /** The part of `put` that works on one bucket. */
    method Insert(key: string, value: Cached, cap: nat)
      modifies this
      ensures View() == Stored(old(View()), key, value, cap)
    {
      entries := PutLast(entries, key, value);
      ghost var d, n := entries, 0;
      while |entries| > cap
        invariant 0 <= n <= Overflow(d, cap)
        invariant entries == d[n..] && locks == old(locks) - Keys(d[..n])
      {
        CutOne(d, n, old(locks));
        locks := locks - {entries[0].key};
        entries := entries[1..];
        n := n + 1;
      }
    }
  }

  lemma CutOne(d: Dict<string, Cached>, n: nat, locks: map<string, Lock>)
    requires n < |d|
    ensures d[n..][0] == d[n] && d[n..][1..] == d[n + 1..]
    ensures locks - Keys(d[..n]) - {d[n].key} == locks - Keys(d[..n + 1])
  {
    KeysGrow(d, n);
  }

  lemma NoneDropped(b: Bucket)
    ensures DropOldest(b, 0) == b
  {
    assert b.entries[0..] == b.entries && b.locks - Keys(b.entries[..0]) == b.locks;
  }

  /** Dropping one more entry takes away its slot and its lock object. */
  lemma OneMoreDropped(b: Bucket, n: nat)
    requires Unique(b.entries) && n < |b.entries|
    ensures var d, k := DropOldest(b, n), b.entries[n].key;
            DropOldest(b, n + 1) == Bucket(Remove(d.entries, k), d.locks - {k})
  {
    PopOldest(b.entries, n);
    CutOne(b.entries, n, b.locks);
  }

  lemma PopOldest(d: Dict<string, Cached>, n: nat)
    requires Unique(d) && n < |d|
    ensures Remove(d[n..], d[n].key) == d[n + 1..]
    ensures Keys(d[..n + 1]) == Keys(d[..n]) + {d[n].key}
  {
    RemoveAt(d[n..], 0);
    assert d[n..][1..] == d[n + 1..];
    KeysGrow(d, n);
  }

  lemma KeysGrow(d: Dict<string, Cached>, n: nat)
    requires n < |d|
    ensures Keys(d[..n + 1]) == Keys(d[..n]) + {d[n].key}
  {
    assert d[..n + 1] == d[..n] + [d[n]];
    forall k | k in Keys(d[..n + 1]) ensures k in Keys(d[..n]) + {d[n].key} {
      var i :| 0 <= i < n + 1 && d[..n + 1][i].key == k;
      if i < n {
        assert d[..n][i].key == k;
      }
    }
    forall k | k in Keys(d[..n]) + {d[n].key} ensures k in Keys(d[..n + 1]) {
      if k == d[n].key {
        assert d[..n + 1][n].key == k;
      } else {
        var i :| 0 <= i < n && d[..n][i].key == k;
        assert d[..n + 1][i].key == k;
      }
    }
  }

  class IdempotencyStore {
    const ttl: real
    const cap: nat
    var buckets: map<string, TenantBucket>
    var lockCount: nat

    constructor (ttl: real, cap: nat)
      ensures Valid() && this.ttl == ttl && this.cap == cap
      ensures View() == map[] && lockCount == 0
    {
      this.ttl, this.cap, buckets, lockCount := ttl, cap, map[], 0;
    }

    /** Each caller has its own bucket object. */
    ghost predicate Valid()
      reads this`buckets, buckets.Values
    {
      && (forall s, t :: s in buckets && t in buckets && s != t ==> buckets[s] != buckets[t])
      && (forall t :: t in buckets ==> Unique(buckets[t].entries))
    }

    ghost function View(): map<string, Bucket>
      reads this`buckets, buckets.Values
    {
      map t | t in buckets :: buckets[t].View()
    }

    /** `_bucket`: the caller's bucket, made on first use; no other bucket changes. */
    method BucketFor(tenant: string) returns (b: TenantBucket)
      requires Valid()
      modifies this`buckets
      ensures Valid()
      ensures tenant in buckets && b == buckets[tenant]
      ensures if tenant in old(buckets) then buckets == old(buckets)
              else buckets == old(buckets)[tenant := b] && fresh(b)
      ensures b.View() == BucketOf(old(View()), tenant)
      ensures View() == old(View())[tenant := b.View()]
    {
      if tenant in buckets {
        b := buckets[tenant];
      } else {
        b := new TenantBucket();
        buckets := buckets[tenant := b];
      }
    }

    /** Writing to one bucket object changes one bucket of the view. */
    twostate lemma OnlyOneBucketChanged(tenant: string)
      requires old(Valid()) && buckets == old(buckets) && tenant in buckets
      requires forall t :: t in buckets && buckets[t] != buckets[tenant] ==> unchanged(buckets[t])
      requires Unique(buckets[tenant].entries)
      ensures Valid()
      ensures View() == old(View())[tenant := buckets[tenant].View()]
    {
    }

    /** The part of `lock_for` after the bucket is found. */
    method LockIn(tenant: string, key: string) returns (lock: Lock)
      requires Valid() && tenant in buckets
      modifies this`lockCount, buckets[tenant]
      ensures Valid()
      ensures View() == LockedIn(old(View()), tenant, key, old(lockCount))
      ensures lock == Locked(BucketOf(old(View()), tenant), key, old(lockCount)).1
      ensures lockCount == if key in BucketOf(old(View()), tenant).locks then old(lockCount) else old(lockCount) + 1
    {
      var made;
      lock, made := buckets[tenant].LockFor(key, lockCount);
      OnlyOneBucketChanged(tenant);
      if made {
        lockCount := lockCount + 1;
      }
    }

    /** `lock_for`: the key's lock object, a new one when the table has none. */
    method LockFor(tenant: string, key: string) returns (lock: Lock)
      requires Valid()
      modifies this, buckets.Values
      ensures Valid()
      ensures View() == LockedIn(old(View()), tenant, key, old(lockCount))
      ensures lock == Locked(BucketOf(old(View()), tenant), key, old(lockCount)).1
      ensures lockCount == if key in BucketOf(old(View()), tenant).locks then old(lockCount) else old(lockCount) + 1
    {
      var b := BucketFor(tenant);
      MadeFirst(old(View()), tenant, key, lockCount);
      lock := LockIn(tenant, key);
    }

    method Get(tenant: string, key: string, now: real) returns (r: Option<Cached>)
      requires Valid()
      modifies buckets.Values
      ensures Valid()
      ensures (View(), r) == GotFrom(old(View()), tenant, key, now, ttl)
    {
      if tenant !in buckets {
        return None;
      }
      var b := buckets[tenant];
      GotUnique(b.View(), key, now, ttl);
      r := b.Find(key, now, ttl);
      OnlyOneBucketChanged(tenant);
    }

    method Put(tenant: string, key: string, value: Cached)
      requires Valid()
      modifies this, buckets.Values
      ensures Valid() && lockCount == old(lockCount)
      ensures View() == StoredIn(old(View()), tenant, key, value, cap)
    {
      var b := BucketFor(tenant);
      label found:
      ghost var was := b.View();
      StoredUnique(b.View(), key, value, cap);
      b.Insert(key, value, cap);
      OnlyOneBucketChanged@found(tenant);
      UpdateTwice(old(View()), tenant, was, b.View());
    }
  }
}
