/**
 A condition on the configuration under which no eviction ever happens, so that every step of the
 idempotency middleware is safe: no caller uses more keys than the cap, and all clock readings lie
 within one time-to-live.
 */
module IdempotencyRoom {
  import opened Options
  import opened OrderedDicts
  import opened Sets
  import opened IdempotencyStores
  import opened IdempotencyProtocol

  /** The keys that a caller sends in the run. */
  function KeysSent(acts: seq<Action>, caller: string): set<string> {
    set i | 0 <= i < |acts| && acts[i].Arrive? && acts[i].caller == caller :: acts[i].key
  }

  /** The clock, where the step reads it, is within one time-to-live of `start`. */
  predicate InTime(cfg: Config, a: Action, start: real) {
    a.Enter? || a.Store? ==> start <= a.now <= start + cfg.ttl
  }

  /** The request uses one of the keys set aside for its caller. */
  predicate Expected(a: Action, keys: string -> set<string>) {
    a.Arrive? ==> a.key in keys(a.caller)
  }

  ghost predicate RequestsExpected(s: State, keys: string -> set<string>) {
    forall q :: q in s.requests ==> s.requests[q].key in keys(s.requests[q].caller)
  }

  ghost predicate EntriesExpected(d: Dict<string, Cached>, expected: set<string>, start: real) {
    forall e :: e in d ==> e.key in expected && e.value.storedAt >= start
  }

  ghost predicate Roomy(s: State, keys: string -> set<string>, start: real) {
    && Base(s) && RequestsExpected(s, keys)
    && forall c :: EntriesExpected(BucketAt(s, c).entries, keys(c), start)
  }

  lemma {:induction false} NothingStale(d: Dict<string, Cached>, expected: set<string>, start: real, now: real,
                                        ttl: real)
    requires EntriesExpected(d, expected, start) && now <= start + ttl
    ensures StaleCount(d, now, ttl) == 0
  {
    if d != [] {
      assert d[0] in d;
    }
  }

  lemma {:induction false} PutExpected(d: Dict<string, Cached>, expected: set<string>, start: real, k: string,
                                       v: Cached)
    requires Unique(d) && EntriesExpected(d, expected, start) && k in expected && v.storedAt >= start
    ensures EntriesExpected(PutLast(d, k, v), expected, start)
    ensures |PutLast(d, k, v)| <= |expected|
  {
    var e := PutLast(d, k, v);
    PutLastUnique(d, k, v);
    UniqueKeys(e);
    forall x | x in Keys(e) ensures x in expected {
      var i :| 0 <= i < |e| && e[i].key == x;
      assert e[i] in e;
    }
    SubsetSize(Keys(e), expected);
  }

  lemma {:induction false} EnterRoomy(cfg: Config, s: State, id: nat, now: real, keys: string -> set<string>,
                                      start: real, c: string)
    requires Enabled(s, Enter(id, now)) && Roomy(s, keys, start) && InTime(cfg, Enter(id, now), start)
    ensures EvictedKeys(cfg, s, Enter(id, now)) == {}
    ensures EntriesExpected(BucketAt(Next(cfg, s, Enter(id, now)), c).entries, keys(c), start)
  {
    var r := s.requests[id];
    var d := BucketAt(s, r.caller).entries;
    assert EntriesExpected(d, keys(r.caller), start) && EntriesExpected(BucketAt(s, c).entries, keys(c), start);
    NothingStale(d, keys(r.caller), start, now, cfg.ttl);
    assert d[..0] == [];
    if c == r.caller && c in s.buckets {
      assert Unique(d);
      GotUnique(s.buckets[c], r.key, now, cfg.ttl);
      assert d[0..] == d;
    }
  }

  lemma {:induction false} StoreRoomy(cfg: Config, s: State, id: nat, now: real, keys: string -> set<string>,
                                      start: real, c: string)
    requires Enabled(s, Store(id, now)) && Roomy(s, keys, start) && InTime(cfg, Store(id, now), start)
    requires forall o :: |keys(o)| <= cfg.cap
    ensures EvictedKeys(cfg, s, Store(id, now)) == {}
    ensures EntriesExpected(BucketAt(Next(cfg, s, Store(id, now)), c).entries, keys(c), start)
  {
    var r := s.requests[id];
    var d := BucketAt(s, r.caller).entries;
    var v := Cached(r.phase.response, r.bodyHash, r.requestId, now);
    assert Unique(d);
    assert EntriesExpected(d, keys(r.caller), start) && EntriesExpected(BucketAt(s, c).entries, keys(c), start);
    assert |keys(r.caller)| <= cfg.cap;
    PutExpected(d, keys(r.caller), start, r.key, v);
    var e := PutLast(d, r.key, v);
    assert Overflow(e, cfg.cap) == 0 && e[..0] == [] && e[0..] == e;
  }

  /** A step within the bounds evicts nothing and stays within them. */
  lemma {:induction false} RoomyStep(cfg: Config, s: State, a: Action, keys: string -> set<string>, start: real)
    requires Enabled(s, a) && Roomy(s, keys, start) && InTime(cfg, a, start) && Expected(a, keys)
    requires forall o :: |keys(o)| <= cfg.cap
    ensures EvictedKeys(cfg, s, a) == {} && Roomy(Next(cfg, s, a), keys, start)
  {
    BaseStep(cfg, s, a);
    var t := Next(cfg, s, a);
    forall c ensures EntriesExpected(BucketAt(t, c).entries, keys(c), start) && EvictedKeys(cfg, s, a) == {} {
      assert EntriesExpected(BucketAt(s, c).entries, keys(c), start);
      match a
      case Enter(id, now) => EnterRoomy(cfg, s, id, now, keys, start, c);
      case Store(id, now) => StoreRoomy(cfg, s, id, now, keys, start, c);
      case _ =>
    }
    assert EntriesExpected(BucketAt(t, "").entries, keys(""), start);
  }

  lemma {:induction false} RoomyRun(cfg: Config, s: State, acts: seq<Action>, keys: string -> set<string>, start: real)
    requires Legal(cfg, s, acts) && Roomy(s, keys, start)
    requires forall i :: 0 <= i < |acts| ==> InTime(cfg, acts[i], start) && Expected(acts[i], keys)
    requires forall o :: |keys(o)| <= cfg.cap
    ensures Guarded(cfg, s, acts)
    decreases |acts|
  {
    if acts != [] {
      RoomyStep(cfg, s, acts[0], keys, start);
      assert forall i :: 0 <= i < |acts[1..]| ==> acts[1..][i] == acts[i + 1];
      RoomyRun(cfg, Next(cfg, s, acts[0]), acts[1..], keys, start);
    }
  }

  /**
   From the empty store, every interleaving in which no caller sends more different keys than the cap
   and all clock readings lie within one time-to-live evicts no lock that is needed, so at most one
   origin call per caller and key is ever in flight.
   */
  lemma {:induction false} EnoughRoomIsSafe(cfg: Config, acts: seq<Action>, start: real)
    requires Legal(cfg, INIT, acts)
    requires forall i :: 0 <= i < |acts| ==> InTime(cfg, acts[i], start)
    requires forall c :: |KeysSent(acts, c)| <= cfg.cap
    ensures Guarded(cfg, INIT, acts)
    ensures forall caller, key :: AtMostOneInFlight(IdempotencyProtocol.Run(cfg, INIT, acts), caller, key)
  {
    var keys := (c: string) => KeysSent(acts, c);
    InitInv();
    RoomyRun(cfg, INIT, acts, keys, start);
    OneOriginInFlight(cfg, INIT, acts);
  }
}
