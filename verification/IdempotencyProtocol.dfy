/**
 The `Idempotency-Key` middleware as many requests whose steps interleave at the await points of
 `dispatch`: fetch the key's lock object, wait for it, look in the cache and perhaps start the
 origin, receive the response, drain and store it.  Everything between two awaits is one step.

 A lock is held exactly by a request that is past its cache miss (`Running` or `Draining`); on a
 hit the request acquires and releases in one step.
 */
module IdempotencyProtocol {
  import opened Options
  import opened OrderedDicts
  import opened IdempotencyStores

  datatype Config = Config(ttl: real, cap: nat)

  datatype Outcome =
    | Fresh(response: Response)
    | Replayed(response: Response)
    | KeyConflict(originalRequestId: string)
    | Failed

  datatype Phase =
    | Arrived
    | Waiting(lock: Lock)
    | Running(lock: Lock)
    | Draining(lock: Lock, response: Response)
    | Done(outcome: Outcome)
  {
    predicate Holds() { Running? || Draining? }
    predicate HasLock() { Waiting? || Running? || Draining? }
  }

  datatype Request = Request(caller: string, key: string, bodyHash: string, requestId: string, phase: Phase)

  datatype State = State(requests: map<nat, Request>, buckets: map<string, Bucket>, lockCount: Lock)

  const INIT := State(map[], map[], 0)

  datatype Action =
    | Arrive(id: nat, caller: string, key: string, bodyHash: string, requestId: string)
    | TakeLock(id: nat)
    | Enter(id: nat, now: real)
    | Respond(id: nat, response: Response)
    | Store(id: nat, now: real)
    | Abort(id: nat)

  /** 408, 429 and every 5xx stay retryable. */
  predicate Cacheable(r: Response) {
    !(r.status == 408 || r.status == 429 || r.status >= 500)
  }

  function BucketAt(s: State, caller: string): Bucket {
    BucketOf(s.buckets, caller)
  }

  function LockAt(s: State, caller: string, key: string): Option<Lock> {
    var b := BucketAt(s, caller);
    if key in b.locks then Some(b.locks[key]) else None
  }

  function EntryAt(s: State, caller: string, key: string): Option<Cached> {
    Lookup(BucketAt(s, caller).entries, key)
  }

  predicate LockFree(s: State, lock: Lock) {
    forall q :: q in s.requests && s.requests[q].phase.Holds() ==> s.requests[q].phase.lock != lock
  }

  predicate Enabled(s: State, a: Action) {
    if a.Arrive? then a.id !in s.requests
    else
      && a.id in s.requests
      && var p := s.requests[a.id].phase;
         match a
         case TakeLock(_) => p.Arrived?
         case Enter(_, _) => p.Waiting? && LockFree(s, p.lock)
         case Respond(_, _) => p.Running?
         case Store(_, _) => p.Draining?
         case Abort(_) => !p.Done?
  }

  function WithPhase(s: State, id: nat, p: Phase): State
    requires id in s.requests
  {
    s.(requests := s.requests[id := s.requests[id].(phase := p)])
  }

  /** What a request does once it has the lock and has looked in the cache. */
  function AfterLookup(r: Request, lock: Lock, hit: Option<Cached>): Phase {
    match hit
    case None => Running(lock)
    case Some(c) =>
      if c.bodyHash != r.bodyHash then Done(KeyConflict(c.requestId)) else Done(Replayed(c.response))
  }

  function Next(cfg: Config, s: State, a: Action): State
    requires Enabled(s, a)
  {
    match a
    case Arrive(id, caller, key, bodyHash, requestId) =>
      s.(requests := s.requests[id := Request(caller, key, bodyHash, requestId, Arrived)])
    case TakeLock(id) =>
      var r := s.requests[id];
      var (b, lock) := Locked(BucketAt(s, r.caller), r.key, s.lockCount);
      var made := if LockAt(s, r.caller, r.key).None? then 1 else 0;
      WithPhase(s, id, Waiting(lock)).(buckets := s.buckets[r.caller := b], lockCount := s.lockCount + made)
    case Enter(id, now) =>
      var r := s.requests[id];
      var (m, hit) := GotFrom(s.buckets, r.caller, r.key, now, cfg.ttl);
      WithPhase(s, id, AfterLookup(r, r.phase.lock, hit)).(buckets := m)
    case Respond(id, response) =>
      WithPhase(s, id, if Cacheable(response) then Draining(s.requests[id].phase.lock, response)
                else Done(Fresh(response)))
    case Store(id, now) =>
      var r := s.requests[id];
      var c := Cached(r.phase.response, r.bodyHash, r.requestId, now);
      WithPhase(s, id, Done(Fresh(r.phase.response))).(buckets := StoredIn(s.buckets, r.caller, r.key, c, cfg.cap))
    case Abort(id) =>
      WithPhase(s, id, Done(Failed))
  }

  /** The keys whose lock objects this step deletes, all in the bucket of the stepping request. */
  function EvictedKeys(cfg: Config, s: State, a: Action): set<string>
    requires Enabled(s, a)
  {
    match a
    case Enter(id, now) =>
      var d := BucketAt(s, s.requests[id].caller).entries;
      Keys(d[..StaleCount(d, now, cfg.ttl)])
    case Store(id, now) =>
      var r := s.requests[id];
      var d := PutLast(BucketAt(s, r.caller).entries, r.key, Cached(r.phase.response, r.bodyHash, r.requestId, now));
      Keys(d[..Overflow(d, cfg.cap)])
    case _ => {}
  }

  /** The step deletes no lock object that some request still waits for or holds afterwards. */
  ghost predicate Safe(cfg: Config, s: State, a: Action)
    requires Enabled(s, a)
  {
    var t := Next(cfg, s, a);
    forall q :: q in t.requests && t.requests[q].phase.HasLock() && t.requests[q].caller == t.requests[a.id].caller
                ==> t.requests[q].key !in EvictedKeys(cfg, s, a)
  }

  // ---------------------------------------------------------------- invariants

  /** What every reachable state satisfies, guarded or not. */
  ghost predicate Base(s: State) {
    && (forall c :: Unique(BucketAt(s, c).entries))
    && (forall c, k :: LockAt(s, c, k).Some? ==> LockAt(s, c, k).value < s.lockCount)
    && (forall c, k, d, j :: LockAt(s, c, k).Some? && LockAt(s, c, k) == LockAt(s, d, j) ==> c == d && k == j)
    && (forall q :: q in s.requests && s.requests[q].phase.HasLock() ==> s.requests[q].phase.lock < s.lockCount)
    && Exclusive(s)
  }

  /** One lock object has at most one holder. */
  ghost predicate Exclusive(s: State) {
    forall p, q ::
      (&& p in s.requests && q in s.requests
       && s.requests[p].phase.Holds() && s.requests[q].phase.Holds()
       && s.requests[p].phase.lock == s.requests[q].phase.lock) ==> p == q
  }

  /** Every request that has a lock object has the one its key maps to. */
  ghost predicate Canonical(s: State) {
    forall q :: q in s.requests && s.requests[q].phase.HasLock()
                ==> LockAt(s, s.requests[q].caller, s.requests[q].key) == Some(s.requests[q].phase.lock)
  }

  /** A key whose origin is in flight has no stored response, so eviction cannot take its lock. */
  ghost predicate NotStoredInFlight(s: State) {
    forall q :: q in s.requests && s.requests[q].phase.Holds()
                ==> EntryAt(s, s.requests[q].caller, s.requests[q].key).None?
  }

  ghost predicate Inv(s: State) {
    Base(s) && Canonical(s) && NotStoredInFlight(s)
  }

  ghost predicate InFlight(s: State, q: nat, caller: string, key: string) {
    q in s.requests && s.requests[q].phase.Holds() && s.requests[q].caller == caller && s.requests[q].key == key
  }

  ghost predicate AtMostOneInFlight(s: State, caller: string, key: string) {
    forall p, q :: InFlight(s, p, caller, key) && InFlight(s, q, caller, key) ==> p == q
  }

  lemma InvMeansAtMostOne(s: State, caller: string, key: string)
    requires Inv(s)
    ensures AtMostOneInFlight(s, caller, key)
  {
    forall p, q | InFlight(s, p, caller, key) && InFlight(s, q, caller, key) ensures p == q {
      assert LockAt(s, caller, key) == Some(s.requests[p].phase.lock);
      assert LockAt(s, caller, key) == Some(s.requests[q].phase.lock);
    }
  }

  // ---------------------------------------------------------------- what one step does to the tables

  lemma DropOldestTables(b: Bucket, n: nat, k: string)
    requires Unique(b.entries) && n <= |b.entries|
    ensures var e := DropOldest(b, n);
            && Unique(e.entries)
            && (k in e.locks <==> k in b.locks && k !in Keys(b.entries[..n]))
            && (k in e.locks ==> e.locks[k] == b.locks[k])
            && (k in Keys(b.entries[..n]) ==> !Has(e.entries, k))
            && (!Has(b.entries, k) ==> !Has(e.entries, k))
  {
  }

  /** `Enter` deletes the evicted keys' locks and entries and changes nothing else in the tables. */
  lemma {:induction false} EnterTables(cfg: Config, s: State, id: nat, now: real, c: string, k: string)
    requires Enabled(s, Enter(id, now)) && Base(s)
    ensures var t := Next(cfg, s, Enter(id, now));
            var gone := c == s.requests[id].caller && k in EvictedKeys(cfg, s, Enter(id, now));
            && Unique(BucketAt(t, c).entries)
            && LockAt(t, c, k) == (if gone then None else LockAt(s, c, k))
            && (gone || EntryAt(s, c, k).None? ==> EntryAt(t, c, k).None?)
  {
    var r := s.requests[id];
    assert Unique(BucketAt(s, c).entries);
    if c == r.caller && c in s.buckets {
      var b := s.buckets[c];
      var n := StaleCount(b.entries, now, cfg.ttl);
      DropOldestTables(b, n, k);
      GotUnique(b, r.key, now, cfg.ttl);
      var e, g := Evicted(b, now, cfg.ttl), Got(b, r.key, now, cfg.ttl).0;
      if Has(g.entries, k) {
        var i :| 0 <= i < |g.entries| && g.entries[i].key == k;
        assert g.entries[i] in e.entries;
      }
    }
  }

  lemma {:induction false} EnterMiss(cfg: Config, s: State, id: nat, now: real)
    requires Enabled(s, Enter(id, now)) && Base(s)
    requires Next(cfg, s, Enter(id, now)).requests[id].phase.Running?
    ensures EntryAt(Next(cfg, s, Enter(id, now)), s.requests[id].caller, s.requests[id].key).None?
  {
  }

  lemma {:induction false} StoreTables(cfg: Config, s: State, id: nat, now: real, c: string, k: string)
    requires Enabled(s, Store(id, now)) && Base(s)
    ensures var t := Next(cfg, s, Store(id, now));
            var r := s.requests[id];
            var gone := c == r.caller && k in EvictedKeys(cfg, s, Store(id, now));
            && Unique(BucketAt(t, c).entries)
            && LockAt(t, c, k) == (if gone then None else LockAt(s, c, k))
            && (gone || (EntryAt(s, c, k).None? && !(c == r.caller && k == r.key)) ==> EntryAt(t, c, k).None?)
  {
    var r := s.requests[id];
    var b := BucketAt(s, c);
    assert Unique(b.entries);
    if c == r.caller {
      var v := Cached(r.phase.response, r.bodyHash, r.requestId, now);
      var d := PutLast(b.entries, r.key, v);
      PutLastUnique(b.entries, r.key, v);
      DropOldestTables(Bucket(d, b.locks), Overflow(d, cfg.cap), k);
      if Has(d, k) && k != r.key {
        var i :| 0 <= i < |d| && d[i].key == k;
        assert d[i] in b.entries;
      }
    }
  }

  ghost predicate Takes(s: State, a: Action, c: string, k: string)
    requires Enabled(s, a)
  {
    a.TakeLock? && c == s.requests[a.id].caller && k == s.requests[a.id].key
  }

  ghost predicate Evicts(cfg: Config, s: State, a: Action, c: string, k: string)
    requires Enabled(s, a)
  {
    (a.Enter? || a.Store?) && c == s.requests[a.id].caller && k in EvictedKeys(cfg, s, a)
  }

  ghost predicate Writes(s: State, a: Action, c: string, k: string)
    requires Enabled(s, a)
  {
    a.Store? && c == s.requests[a.id].caller && k == s.requests[a.id].key
  }

  /** The effect of any step on the tables of one key. */
  lemma TablesAfter(cfg: Config, s: State, a: Action, c: string, k: string)
    requires Enabled(s, a) && Base(s)
    ensures var t := Next(cfg, s, a);
            && Unique(BucketAt(t, c).entries)
            && LockAt(t, c, k) == (if Evicts(cfg, s, a, c, k) then None
                                   else if Takes(s, a, c, k) then Some(t.requests[a.id].phase.lock)
                                   else LockAt(s, c, k))
            && ((Evicts(cfg, s, a, c, k) || (EntryAt(s, c, k).None? && !Writes(s, a, c, k))) ==> EntryAt(t, c, k).None?)
  {
    assert Unique(BucketAt(s, c).entries);
    match a
    case Enter(id, now) => EnterTables(cfg, s, id, now, c, k);
    case Store(id, now) => StoreTables(cfg, s, id, now, c, k);
    case _ =>
  }

  /** A taken lock object is the one in the table, or the next unused one. */
  lemma TakenLock(cfg: Config, s: State, id: nat)
    requires Enabled(s, TakeLock(id)) && Base(s)
    ensures var t := Next(cfg, s, TakeLock(id));
            var r := s.requests[id];
            var lock := t.requests[id].phase.lock;
            && t.lockCount >= s.lockCount && lock < t.lockCount
            && (LockAt(s, r.caller, r.key) == Some(lock) || (LockAt(s, r.caller, r.key).None? && lock == s.lockCount))
  {
  }

  lemma BaseTables(cfg: Config, s: State, a: Action)
    requires Enabled(s, a) && Base(s)
    ensures var t := Next(cfg, s, a);
            && (forall c :: Unique(BucketAt(t, c).entries))
            && (forall c, k :: LockAt(t, c, k).Some? ==> LockAt(t, c, k).value < t.lockCount)
            && (forall c, k, d, j :: LockAt(t, c, k).Some? && LockAt(t, c, k) == LockAt(t, d, j) ==> c == d && k == j)
  {
    var t := Next(cfg, s, a);
    if a.TakeLock? {
      TakenLock(cfg, s, a.id);
    }
    forall c ensures Unique(BucketAt(t, c).entries) {
      TablesAfter(cfg, s, a, c, "");
    }
    forall c, k | LockAt(t, c, k).Some? ensures LockAt(t, c, k).value < t.lockCount {
      TablesAfter(cfg, s, a, c, k);
    }
    forall c, k, d, j | LockAt(t, c, k).Some? && LockAt(t, c, k) == LockAt(t, d, j) ensures c == d && k == j {
      TablesAfter(cfg, s, a, c, k);
      TablesAfter(cfg, s, a, d, j);
    }
  }

  /** Every lock object that a request has comes from the counter. */
  lemma LocksCounted(cfg: Config, s: State, a: Action)
    requires Enabled(s, a) && Base(s)
    ensures var t := Next(cfg, s, a);
            forall q :: q in t.requests && t.requests[q].phase.HasLock() ==> t.requests[q].phase.lock < t.lockCount
  {
    if a.TakeLock? {
      TakenLock(cfg, s, a.id);
    }
  }

  /** A request that holds a lock after a step was entering, or held the same lock before. */
  lemma HeldBefore(cfg: Config, s: State, a: Action, q: nat)
    requires Enabled(s, a) && q in Next(cfg, s, a).requests && Next(cfg, s, a).requests[q].phase.Holds()
    ensures q in s.requests && s.requests[q].phase.HasLock()
    ensures var r, t := s.requests[q], Next(cfg, s, a).requests[q];
            r.caller == t.caller && r.key == t.key && r.phase.lock == t.phase.lock
    ensures q != a.id ==> s.requests[q].phase.Holds()
    ensures q == a.id ==> a.Enter? || a.Respond?
    ensures a.Respond? && q == a.id ==> s.requests[q].phase.Holds()
  {
  }

  lemma ExclusiveStep(cfg: Config, s: State, a: Action)
    requires Enabled(s, a) && Exclusive(s)
    ensures Exclusive(Next(cfg, s, a))
  {
    var t := Next(cfg, s, a);
    forall p, q |
      && p in t.requests && q in t.requests
      && t.requests[p].phase.Holds() && t.requests[q].phase.Holds()
      && t.requests[p].phase.lock == t.requests[q].phase.lock
      ensures p == q
    {
      HeldBefore(cfg, s, a, p);
      HeldBefore(cfg, s, a, q);
    }
  }

  lemma BaseStep(cfg: Config, s: State, a: Action)
    requires Enabled(s, a) && Base(s)
    ensures Base(Next(cfg, s, a))
  {
    BaseTables(cfg, s, a);
    LocksCounted(cfg, s, a);
    ExclusiveStep(cfg, s, a);
  }

  // ---------------------------------------------------------------- the guard is exact

  /** The lock object just taken is the one in the table. */
  lemma CanonicalTaken(cfg: Config, s: State, a: Action)
    requires Enabled(s, a) && Base(s) && a.TakeLock?
    ensures var t := Next(cfg, s, a);
            LockAt(t, t.requests[a.id].caller, t.requests[a.id].key) == Some(t.requests[a.id].phase.lock)
  {
    TablesAfter(cfg, s, a, s.requests[a.id].caller, s.requests[a.id].key);
  }

  /** A request that has a lock object after a step other than taking it had the same one before. */
  lemma LockBefore(cfg: Config, s: State, a: Action, q: nat)
    requires Enabled(s, a) && q in Next(cfg, s, a).requests && Next(cfg, s, a).requests[q].phase.HasLock()
    requires !(a.TakeLock? && q == a.id)
    ensures q in s.requests && s.requests[q].phase.HasLock()
    ensures var r, t := s.requests[q], Next(cfg, s, a).requests[q];
            r.caller == t.caller && r.key == t.key && r.phase.lock == t.phase.lock
  {
  }

  /** A safe step does not delete it from the table. */
  lemma NotEvicted(cfg: Config, s: State, a: Action, q: nat)
    requires Enabled(s, a) && Safe(cfg, s, a)
    requires q in Next(cfg, s, a).requests && Next(cfg, s, a).requests[q].phase.HasLock()
    ensures !Evicts(cfg, s, a, Next(cfg, s, a).requests[q].caller, Next(cfg, s, a).requests[q].key)
  {
  }

  lemma CanonicalOne(cfg: Config, s: State, a: Action, q: nat)
    requires Enabled(s, a) && Inv(s) && Safe(cfg, s, a) && !(a.TakeLock? && q == a.id)
    requires q in Next(cfg, s, a).requests && Next(cfg, s, a).requests[q].phase.HasLock()
    ensures var t := Next(cfg, s, a);
            LockAt(t, t.requests[q].caller, t.requests[q].key) == Some(t.requests[q].phase.lock)
  {
    LockBefore(cfg, s, a, q);
    NotEvicted(cfg, s, a, q);
    var c, k := s.requests[q].caller, s.requests[q].key;
    assert LockAt(s, c, k) == Some(s.requests[q].phase.lock);
    TablesAfter(cfg, s, a, c, k);
    if a.TakeLock? {
      TakenLock(cfg, s, a.id);
    }
  }

  lemma CanonicalStep(cfg: Config, s: State, a: Action)
    requires Enabled(s, a) && Inv(s) && Safe(cfg, s, a)
    ensures Canonical(Next(cfg, s, a))
  {
    var t := Next(cfg, s, a);
    forall q | q in t.requests && t.requests[q].phase.HasLock()
      ensures LockAt(t, t.requests[q].caller, t.requests[q].key) == Some(t.requests[q].phase.lock)
    {
      if a.TakeLock? && q == a.id {
        CanonicalTaken(cfg, s, a);
      } else {
        CanonicalOne(cfg, s, a, q);
      }
    }
  }

  /** The request that stores its response is the only one in flight on its key, and it is done afterwards. */
  lemma OtherKeyWritten(s: State, a: Action, q: nat)
    requires Enabled(s, a) && Inv(s) && a.Store? && q in s.requests && q != a.id && s.requests[q].phase.Holds()
    ensures !Writes(s, a, s.requests[q].caller, s.requests[q].key)
  {
    assert LockAt(s, s.requests[q].caller, s.requests[q].key) == Some(s.requests[q].phase.lock);
    assert LockAt(s, s.requests[a.id].caller, s.requests[a.id].key) == Some(s.requests[a.id].phase.lock);
  }

  lemma NotStoredOne(cfg: Config, s: State, a: Action, q: nat)
    requires Enabled(s, a) && Inv(s)
    requires q in Next(cfg, s, a).requests && Next(cfg, s, a).requests[q].phase.Holds()
    ensures var t := Next(cfg, s, a);
            EntryAt(t, t.requests[q].caller, t.requests[q].key).None?
  {
    HeldBefore(cfg, s, a, q);
    var r := s.requests[q];
    if q == a.id && a.Enter? {
      EnterMiss(cfg, s, q, a.now);
    } else {
      TablesAfter(cfg, s, a, r.caller, r.key);
      assert EntryAt(s, r.caller, r.key).None?;
      if a.Store? {
        OtherKeyWritten(s, a, q);
      }
    }
  }

  lemma NotStoredStep(cfg: Config, s: State, a: Action)
    requires Enabled(s, a) && Inv(s)
    ensures NotStoredInFlight(Next(cfg, s, a))
  {
    var t := Next(cfg, s, a);
    forall q | q in t.requests && t.requests[q].phase.Holds()
      ensures EntryAt(t, t.requests[q].caller, t.requests[q].key).None?
    {
      NotStoredOne(cfg, s, a, q);
    }
  }

  /** From an invariant state, a step keeps the invariant exactly when it is safe. */
  lemma SafeStepExactly(cfg: Config, s: State, a: Action)
    requires Enabled(s, a) && Inv(s)
    ensures Inv(Next(cfg, s, a)) <==> Safe(cfg, s, a)
  {
    var t := Next(cfg, s, a);
    BaseStep(cfg, s, a);
    if Safe(cfg, s, a) {
      CanonicalStep(cfg, s, a);
      NotStoredStep(cfg, s, a);
    } else {
      var q :| q in t.requests && t.requests[q].phase.HasLock() && t.requests[q].caller == t.requests[a.id].caller
               && t.requests[q].key in EvictedKeys(cfg, s, a);
      TablesAfter(cfg, s, a, t.requests[q].caller, t.requests[q].key);
    }
  }

  // ---------------------------------------------------------------- runs

  ghost predicate Legal(cfg: Config, s: State, acts: seq<Action>)
    decreases |acts|
  {
    acts == [] || (Enabled(s, acts[0]) && Legal(cfg, Next(cfg, s, acts[0]), acts[1..]))
  }

  ghost function Run(cfg: Config, s: State, acts: seq<Action>): State
    requires Legal(cfg, s, acts)
    decreases |acts|
  {
    if acts == [] then s else Run(cfg, Next(cfg, s, acts[0]), acts[1..])
  }

  /** Every step of the run is safe. */
  ghost predicate Guarded(cfg: Config, s: State, acts: seq<Action>)
    requires Legal(cfg, s, acts)
    decreases |acts|
  {
    acts == [] || (Safe(cfg, s, acts[0]) && Guarded(cfg, Next(cfg, s, acts[0]), acts[1..]))
  }

  lemma InitInv()
    ensures Inv(INIT)
  {
  }

  lemma {:induction false} BaseRun(cfg: Config, s: State, acts: seq<Action>)
    requires Base(s) && Legal(cfg, s, acts)
    ensures Base(Run(cfg, s, acts))
    decreases |acts|
  {
    if acts != [] {
      BaseStep(cfg, s, acts[0]);
      BaseRun(cfg, Next(cfg, s, acts[0]), acts[1..]);
    }
  }

  /** In every guarded interleaving, at most one origin call per caller and key is in flight. */
  lemma {:induction false} OneOriginInFlight(cfg: Config, s: State, acts: seq<Action>)
    requires Inv(s) && Legal(cfg, s, acts) && Guarded(cfg, s, acts)
    ensures Inv(Run(cfg, s, acts))
    ensures forall caller, key :: AtMostOneInFlight(Run(cfg, s, acts), caller, key)
    decreases |acts|
  {
    if acts == [] {
      forall caller, key ensures AtMostOneInFlight(s, caller, key) {
        InvMeansAtMostOne(s, caller, key);
      }
    } else {
      SafeStepExactly(cfg, s, acts[0]);
      OneOriginInFlight(cfg, Next(cfg, s, acts[0]), acts[1..]);
    }
  }

  // ---------------------------------------------------------------- the guard is needed

  lemma {:induction false} UnusedId(ids: set<nat>) returns (n: nat)
    ensures forall i :: i in ids ==> i < n
  {
    if ids == {} {
      n := 0;
    } else {
      var i :| i in ids;
      var m := UnusedId(ids - {i});
      n := if i < m then m else i + 1;
      assert forall j :: j in ids ==> j == i || j in ids - {i};
    }
  }

  /** A newcomer to a key without lock and entry gets a lock of its own and starts the origin. */
  lemma {:induction false} NewcomerRuns(cfg: Config, s: State, caller: string, key: string,
                                        now: real) returns (acts: seq<Action>, n: nat)
    requires Base(s) && LockAt(s, caller, key).None? && EntryAt(s, caller, key).None?
    ensures |acts| == 3 && Legal(cfg, s, acts) && n !in s.requests
    ensures InFlight(Run(cfg, s, acts), n, caller, key)
    ensures forall q :: q in s.requests ==>
              q in Run(cfg, s, acts).requests && Run(cfg, s, acts).requests[q] == s.requests[q]
  {
    n := UnusedId(s.requests.Keys);
    var a, b, c := Arrive(n, caller, key, "", ""), TakeLock(n), Enter(n, now);
    var s1 := Next(cfg, s, a);
    BaseStep(cfg, s, a);
    assert LockAt(s1, caller, key).None?;
    var s2 := Next(cfg, s1, b);
    BaseStep(cfg, s1, b);
    TablesAfter(cfg, s1, b, caller, key);
    assert s2.requests[n].phase == Waiting(s.lockCount);
    assert LockFree(s2, s.lockCount) by {
      assert forall q :: q in s2.requests && s2.requests[q].phase.Holds() ==>
               q in s.requests && s.requests[q].phase.HasLock();
    }
    var s3 := Next(cfg, s2, c);
    TablesAfter(cfg, s2, c, caller, key);
    assert s3.requests[n].phase.Running? by {
      MissWhenAbsent(cfg, s2, n, now);
    }
    acts := [a, b, c];
    ThreeSteps(cfg, s, a, b, c);
  }

  lemma {:induction false} MissWhenAbsent(cfg: Config, s: State, id: nat, now: real)
    requires Base(s) && Enabled(s, Enter(id, now)) && EntryAt(s, s.requests[id].caller, s.requests[id].key).None?
    ensures Next(cfg, s, Enter(id, now)).requests[id].phase == Running(s.requests[id].phase.lock)
  {
    var r := s.requests[id];
    if r.caller in s.buckets {
      var b := s.buckets[r.caller];
      assert Unique(BucketAt(s, r.caller).entries);
      DropOldestTables(b, StaleCount(b.entries, now, cfg.ttl), r.key);
    }
  }

  /** After an unsafe step, a request with a deleted lock shares that lock only with requests on its own key. */
  lemma OrphanLock(cfg: Config, s: State, a: Action, q: nat, p: nat)
    requires Enabled(s, a) && Inv(s)
    requires var t := Next(cfg, s, a);
             && q in t.requests && t.requests[q].phase.HasLock() && t.requests[q].caller == t.requests[a.id].caller
             && t.requests[q].key in EvictedKeys(cfg, s, a)
             && p in t.requests && t.requests[p].phase.Holds() && t.requests[p].phase.lock == t.requests[q].phase.lock
    ensures var t := Next(cfg, s, a);
            t.requests[p].caller == t.requests[q].caller && t.requests[p].key == t.requests[q].key
  {
    HeldBefore(cfg, s, a, p);
    WaitedBefore(cfg, s, a, q);
    SameLockSameKey(s, p, q);
  }

  /** A step that evicts hands out no lock. */
  lemma WaitedBefore(cfg: Config, s: State, a: Action, q: nat)
    requires Enabled(s, a) && !a.TakeLock?
    requires q in Next(cfg, s, a).requests && Next(cfg, s, a).requests[q].phase.HasLock()
    ensures q in s.requests && s.requests[q].phase.HasLock()
    ensures var r, t := s.requests[q], Next(cfg, s, a).requests[q];
            r.caller == t.caller && r.key == t.key && r.phase.lock == t.phase.lock
  {
  }

  lemma SameLockSameKey(s: State, p: nat, q: nat)
    requires Base(s) && Canonical(s) && p in s.requests && q in s.requests
    requires s.requests[p].phase.HasLock() && s.requests[q].phase.HasLock()
    requires s.requests[p].phase.lock == s.requests[q].phase.lock
    ensures s.requests[p].caller == s.requests[q].caller && s.requests[p].key == s.requests[q].key
  {
    assert LockAt(s, s.requests[q].caller, s.requests[q].key) == Some(s.requests[q].phase.lock);
    assert LockAt(s, s.requests[p].caller, s.requests[p].key) == Some(s.requests[p].phase.lock);
  }

  ghost predicate TwoInFlight(s: State, caller: string, key: string) {
    exists p, q :: p != q && InFlight(s, p, caller, key) && InFlight(s, q, caller, key)
  }

  /**
   The guard cannot be weakened: right after any unsafe step there are at most four further steps,
   at any clock reading, after which two origin calls for one caller and key are in flight.
   */
  lemma {:induction false} UnsafeStepLetsTwoIn(cfg: Config, s: State, a: Action, now: real)
    returns (acts: seq<Action>, caller: string, key: string)
    requires Enabled(s, a) && Inv(s) && !Safe(cfg, s, a)
    ensures |acts| <= 4 && Legal(cfg, Next(cfg, s, a), acts)
    ensures caller == Next(cfg, s, a).requests[a.id].caller && key in EvictedKeys(cfg, s, a)
    ensures TwoInFlight(Run(cfg, Next(cfg, s, a), acts), caller, key)
  {
    var t := Next(cfg, s, a);
    BaseStep(cfg, s, a);
    var q :| q in t.requests && t.requests[q].phase.HasLock() && t.requests[q].caller == t.requests[a.id].caller
             && t.requests[q].key in EvictedKeys(cfg, s, a);
    caller, key := t.requests[q].caller, t.requests[q].key;
    TablesAfter(cfg, s, a, caller, key);
    if LockFree(t, t.requests[q].phase.lock) {
      var e := Enter(q, now);
      var u := Next(cfg, t, e);
      MissWhenAbsent(cfg, t, q, now);
      BaseStep(cfg, t, e);
      TablesAfter(cfg, t, e, caller, key);
      var rest, n := NewcomerRuns(cfg, u, caller, key, now);
      acts := [e] + rest;
      assert acts[1..] == rest;
      assert InFlight(Run(cfg, t, acts), q, caller, key) && InFlight(Run(cfg, t, acts), n, caller, key);
    } else {
      var p :| p in t.requests && t.requests[p].phase.Holds() && t.requests[p].phase.lock == t.requests[q].phase.lock;
      OrphanLock(cfg, s, a, q, p);
      var n;
      acts, n := NewcomerRuns(cfg, t, caller, key, now);
      assert InFlight(Run(cfg, t, acts), p, caller, key) && InFlight(Run(cfg, t, acts), n, caller, key);
    }
  }

  lemma {:induction false} RunConcat(cfg: Config, s: State, a: seq<Action>, b: seq<Action>)
    requires Legal(cfg, s, a) && Legal(cfg, Run(cfg, s, a), b)
    ensures Legal(cfg, s, a + b) && Run(cfg, s, a + b) == Run(cfg, Run(cfg, s, a), b)
    decreases |a|
  {
    if a == [] {
      assert a + b == b;
    } else {
      assert (a + b)[1..] == a[1..] + b;
      RunConcat(cfg, Next(cfg, s, a[0]), a[1..], b);
    }
  }

  /** One request has stored its response; a retry with the same key waits on the same lock. */
  ghost predicate RetryWaits(s: State, c: Cached) {
    && s.requests.Keys == {1, 2}
    && s.requests[1].phase.Done?
    && s.requests[2] == Request("c", "k", "h", "r2", Waiting(0))
    && s.buckets == map["c" := Bucket([Slot("k", c)], map["k" := 0])]
    && s.lockCount == 1
  }

  lemma StoreThenRetry(cfg: Config, response: Response) returns (acts: seq<Action>)
    requires cfg.cap >= 1 && Cacheable(response)
    ensures Legal(cfg, INIT, acts) && RetryWaits(Run(cfg, INIT, acts), Cached(response, "h", "r1", 0.0))
  {
    var a1, a2, a3, a4 := Arrive(1, "c", "k", "h", "r1"), TakeLock(1), Enter(1, 0.0), Respond(1, response);
    var a5, a6, a7 := Store(1, 0.0), Arrive(2, "c", "k", "h", "r2"), TakeLock(2);
    var s1 := Next(cfg, INIT, a1);
    var s2 := Next(cfg, s1, a2);
    assert s2.buckets == map["c" := Bucket([], map["k" := 0])];
    var s3 := Next(cfg, s2, a3);
    assert s3.requests[1].phase == Running(0) && s3.buckets == map["c" := Bucket([], map["k" := 0])] by {
      assert map["k" := 0] - Keys<string, Cached>([]) == map["k" := 0];
    }
    var s4 := Next(cfg, s3, a4);
    var s5 := Next(cfg, s4, a5);
    var c := Cached(response, "h", "r1", 0.0);
    assert s5.buckets == map["c" := Bucket([Slot("k", c)], map["k" := 0])] by {
      assert PutLast([], "k", c) == [Slot("k", c)];
      assert map["k" := 0] - Keys<string, Cached>([]) == map["k" := 0];
      assert Stored(Bucket([], map["k" := 0]), "k", c, cfg.cap) == Bucket([Slot("k", c)], map["k" := 0]);
    }
    var s6 := Next(cfg, s5, a6);
    var s7 := Next(cfg, s6, a7);
    assert RetryWaits(s7, c);
    acts := [a1, a2, a3, a4] + [a5, a6, a7];
    assert Legal(cfg, INIT, [a1, a2, a3, a4]) && Run(cfg, INIT, [a1, a2, a3, a4]) == s4 by {
      FourSteps(cfg, INIT, a1, a2, a3, a4);
    }
    ThreeSteps(cfg, s4, a5, a6, a7);
    RunConcat(cfg, INIT, [a1, a2, a3, a4], [a5, a6, a7]);
  }

  lemma OneStep(cfg: Config, s: State, a: Action)
    requires Enabled(s, a)
    ensures Legal(cfg, s, [a]) && Run(cfg, s, [a]) == Next(cfg, s, a)
  {
    assert [a][1..] == [];
    assert Run(cfg, Next(cfg, s, a), []) == Next(cfg, s, a);
  }

  lemma ThreeSteps(cfg: Config, s: State, a: Action, b: Action, c: Action)
    requires Enabled(s, a) && Enabled(Next(cfg, s, a), b) && Enabled(Next(cfg, Next(cfg, s, a), b), c)
    ensures Legal(cfg, s, [a, b, c]) && Run(cfg, s, [a, b, c]) == Next(cfg, Next(cfg, Next(cfg, s, a), b), c)
  {
    OneStep(cfg, Next(cfg, Next(cfg, s, a), b), c);
    assert [a, b, c][1..] == [b, c] && [b, c][1..] == [c];
    assert Legal(cfg, Next(cfg, s, a), [b, c]);
    assert Run(cfg, Next(cfg, s, a), [b, c]) == Run(cfg, Next(cfg, Next(cfg, s, a), b), [c]);
  }

  lemma FourSteps(cfg: Config, s: State, a: Action, b: Action, c: Action, d: Action)
    requires Enabled(s, a) && Enabled(Next(cfg, s, a), b) && Enabled(Next(cfg, Next(cfg, s, a), b), c)
    requires Enabled(Next(cfg, Next(cfg, Next(cfg, s, a), b), c), d)
    ensures Legal(cfg, s, [a, b, c, d])
    ensures Run(cfg, s, [a, b, c, d]) == Next(cfg, Next(cfg, Next(cfg, Next(cfg, s, a), b), c), d)
  {
    ThreeSteps(cfg, Next(cfg, s, a), b, c, d);
    assert [a, b, c, d][1..] == [b, c, d];
  }

  lemma RetryWaitsInv(s: State, c: Cached)
    requires RetryWaits(s, c)
    ensures Inv(s)
  {
    assert forall k :: LockAt(s, "c", k).Some? ==> k == "k";
  }

  /**
   The unguarded failure, from the empty store: a retry that arrives after the time-to-live finds
   its own entry expired, and the eviction inside `get` deletes the very lock the retry holds, so
   a third request with the key makes a new lock and runs the origin at the same time.
   */
  lemma {:induction false} ExpiredRetryRunsOriginTwice(cfg: Config, now: real, response: Response)
    requires cfg.cap >= 1 && now > cfg.ttl && Cacheable(response)
    ensures exists acts :: Legal(cfg, INIT, acts) && TwoInFlight(Run(cfg, INIT, acts), "c", "k")
  {
    var acts := StoreThenRetry(cfg, response);
    var s := Run(cfg, INIT, acts);
    var c := Cached(response, "h", "r1", 0.0);
    RetryWaitsInv(s, c);
    var a := Enter(2, now);
    var d := [Slot("k", c)];
    assert Expired(c, now, cfg.ttl) && StaleCount(d, now, cfg.ttl) == 1;
    assert d[..1][0].key == "k" && "k" in Keys(d[..1]);
    assert d[1..] == [];
    var t := Next(cfg, s, a);
    assert t.requests[2].phase == Running(0);
    assert !Safe(cfg, s, a);
    var more, caller, key := UnsafeStepLetsTwoIn(cfg, s, a, now);
    assert caller == "c" && key == "k";
    OneStep(cfg, s, a);
    RunConcat(cfg, s, [a], more);
    RunConcat(cfg, INIT, acts, [a] + more);
  }

  // ---------------------------------------------------------------- what a stored response answers

  /** The key has a stored response in every state of the run. */
  ghost predicate StaysStored(cfg: Config, s: State, acts: seq<Action>, caller: string, key: string)
    requires Legal(cfg, s, acts)
    decreases |acts|
  {
    EntryAt(s, caller, key).Some? && (acts == [] || StaysStored(cfg, Next(cfg, s, acts[0]), acts[1..], caller, key))
  }

  /** Not served yet, aborted, or answered from `c` without running the origin. */
  ghost predicate ServedFrom(r: Request, c: Cached) {
    || r.phase.Arrived? || r.phase.Waiting? || r.phase == Done(Failed)
    || r.phase == Done(if r.bodyHash == c.bodyHash then Replayed(c.response) else KeyConflict(c.requestId))
  }

  /** Every request on the key was finished at `start` or is served from `c`. */
  ghost predicate AllServedFrom(start: State, s: State, caller: string, key: string, c: Cached) {
    forall q :: q in s.requests && s.requests[q].caller == caller && s.requests[q].key == key ==>
      || ServedFrom(s.requests[q], c)
      || (q in start.requests && start.requests[q].phase.Done? && s.requests[q] == start.requests[q])
  }

  /** An entry that survives a step that does not write its key is unchanged. */
  lemma EntryKept(cfg: Config, s: State, a: Action, caller: string, key: string)
    requires Enabled(s, a) && Base(s) && !Writes(s, a, caller, key)
    requires EntryAt(Next(cfg, s, a), caller, key).Some?
    ensures EntryAt(Next(cfg, s, a), caller, key) == EntryAt(s, caller, key)
  {
    var t := Next(cfg, s, a);
    TablesAfter(cfg, s, a, caller, key);
    var v := EntryAt(t, caller, key).value;
    var d, e := BucketAt(s, caller).entries, BucketAt(t, caller).entries;
    assert Unique(d);
    LookupMember(e, key, v);
    LookupMember(d, key, v);
    if a.Enter? && caller == s.requests[a.id].caller && caller in s.buckets {
      GotUnique(s.buckets[caller], s.requests[a.id].key, a.now, cfg.ttl);
    } else if a.Store? && caller == s.requests[a.id].caller {
      var r := s.requests[a.id];
      PutLastUnique(d, r.key, Cached(r.phase.response, r.bodyHash, r.requestId, a.now));
    }
  }

  lemma ServedStep(cfg: Config, start: State, s: State, a: Action, caller: string, key: string, c: Cached)
    requires Enabled(s, a) && Base(s) && EntryAt(s, caller, key) == Some(c)
    requires EntryAt(Next(cfg, s, a), caller, key).Some?
    requires AllServedFrom(start, s, caller, key, c)
    ensures EntryAt(Next(cfg, s, a), caller, key) == Some(c)
    ensures AllServedFrom(start, Next(cfg, s, a), caller, key, c)
  {
    EntryKept(cfg, s, a, caller, key);
    if a.Enter? && s.requests[a.id].caller == caller && s.requests[a.id].key == key {
      HitWhenKept(cfg, s, a, c);
    }
  }

  lemma HitWhenKept(cfg: Config, s: State, a: Action, c: Cached)
    requires Enabled(s, a) && Base(s) && a.Enter?
    requires EntryAt(Next(cfg, s, a), s.requests[a.id].caller, s.requests[a.id].key) == Some(c)
    ensures Next(cfg, s, a).requests[a.id].phase == AfterLookup(s.requests[a.id], s.requests[a.id].phase.lock, Some(c))
  {
    var r := s.requests[a.id];
    assert Unique(BucketAt(s, r.caller).entries);
    if r.caller in s.buckets {
      var b := s.buckets[r.caller];
      var e := Evicted(b, a.now, cfg.ttl);
      var g := Got(b, r.key, a.now, cfg.ttl).0;
      GotUnique(b, r.key, a.now, cfg.ttl);
      LookupMember(g.entries, r.key, c);
      LookupMember(e.entries, r.key, c);
    }
  }

  lemma {:induction false} StoredAnswersFrom(cfg: Config, start: State, s: State, acts: seq<Action>, caller: string,
                                             key: string, c: Cached)
    requires Base(s) && Legal(cfg, s, acts) && StaysStored(cfg, s, acts, caller, key)
    requires EntryAt(s, caller, key) == Some(c) && AllServedFrom(start, s, caller, key, c)
    ensures EntryAt(Run(cfg, s, acts), caller, key) == Some(c)
    ensures AllServedFrom(start, Run(cfg, s, acts), caller, key, c)
    decreases |acts|
  {
    if acts != [] {
      ServedStep(cfg, start, s, acts[0], caller, key, c);
      BaseStep(cfg, s, acts[0]);
      StoredAnswersFrom(cfg, start, Next(cfg, s, acts[0]), acts[1..], caller, key, c);
    }
  }

  /**
   While a stored response stays in the store, in every interleaving and with no guard on eviction,
   if no origin call for the key was in flight at the start (so in every state that satisfies
   `Inv`), every request on its key that was not finished before is answered from it: the same body
   hash gets exactly its status and body, another hash gets the conflict naming the original
   request, and none of them runs the origin.
   */
  lemma StoredResponseAnswersAll(cfg: Config, s: State, acts: seq<Action>, caller: string, key: string, c: Cached)
    requires Base(s) && Legal(cfg, s, acts) && StaysStored(cfg, s, acts, caller, key)
    requires EntryAt(s, caller, key) == Some(c) && forall q :: !InFlight(s, q, caller, key)
    ensures EntryAt(Run(cfg, s, acts), caller, key) == Some(c)
    ensures AllServedFrom(s, Run(cfg, s, acts), caller, key, c)
  {
    forall q | q in s.requests && s.requests[q].caller == caller && s.requests[q].key == key
      ensures ServedFrom(s.requests[q], c) || s.requests[q].phase.Done?
    {
      assert !InFlight(s, q, caller, key);
    }
    StoredAnswersFrom(cfg, s, s, acts, caller, key, c);
  }

  // ---------------------------------------------------------------- replays are genuine, guarded or not

  /** Request `q` ran the origin for this key and hash and was itself answered with this response. */
  ghost predicate Originated(s: State, q: nat, caller: string, key: string, bodyHash: string, response: Response) {
    && q in s.requests && s.requests[q].caller == caller && s.requests[q].key == key
    && s.requests[q].bodyHash == bodyHash && s.requests[q].phase == Done(Fresh(response)) && Cacheable(response)
  }

  ghost predicate StoredGenuine(s: State) {
    forall c, k :: EntryAt(s, c, k).Some? ==>
      var e := EntryAt(s, c, k).value;
      exists q :: Originated(s, q, c, k, e.bodyHash, e.response) && s.requests[q].requestId == e.requestId
  }

  ghost predicate RepliesGenuine(s: State) {
    forall q :: q in s.requests ==>
      var r := s.requests[q];
      && (r.phase.Draining? ==> Cacheable(r.phase.response))
      && (r.phase.Done? && r.phase.outcome.Replayed? ==>
            exists p :: Originated(s, p, r.caller, r.key, r.bodyHash, r.phase.outcome.response))
      && (r.phase.Done? && r.phase.outcome.KeyConflict? ==>
            exists p, h, body :: h != r.bodyHash && Originated(s, p, r.caller, r.key, h, body)
                                 && s.requests[p].requestId == r.phase.outcome.originalRequestId)
  }

  lemma OriginStays(cfg: Config, s: State, a: Action, q: nat, caller: string, key: string, h: string,
                    response: Response)
    requires Enabled(s, a) && Originated(s, q, caller, key, h, response)
    ensures Originated(Next(cfg, s, a), q, caller, key, h, response)
    ensures Next(cfg, s, a).requests[q] == s.requests[q]
  {
  }

  lemma StoredGenuineStep(cfg: Config, s: State, a: Action)
    requires Enabled(s, a) && Base(s) && StoredGenuine(s) && RepliesGenuine(s)
    ensures StoredGenuine(Next(cfg, s, a))
  {
    var t := Next(cfg, s, a);
    forall c, k | EntryAt(t, c, k).Some?
      ensures var e := EntryAt(t, c, k).value;
              exists q :: Originated(t, q, c, k, e.bodyHash, e.response) && t.requests[q].requestId == e.requestId
    {
      var e := EntryAt(t, c, k).value;
      if Writes(s, a, c, k) {
        WrittenEntry(cfg, s, a);
        assert Originated(t, a.id, c, k, e.bodyHash, e.response);
      } else {
        EntryKept(cfg, s, a, c, k);
        var q :| Originated(s, q, c, k, e.bodyHash, e.response) && s.requests[q].requestId == e.requestId;
        OriginStays(cfg, s, a, q, c, k, e.bodyHash, e.response);
      }
    }
  }

  lemma WrittenEntry(cfg: Config, s: State, a: Action)
    requires Enabled(s, a) && Base(s) && a.Store?
    ensures var r := s.requests[a.id];
            var e := EntryAt(Next(cfg, s, a), r.caller, r.key);
            e.Some? ==> e.value == Cached(r.phase.response, r.bodyHash, r.requestId, a.now)
  {
    var r := s.requests[a.id];
    var d := BucketAt(s, r.caller).entries;
    assert Unique(d);
    PutLastUnique(d, r.key, Cached(r.phase.response, r.bodyHash, r.requestId, a.now));
  }

  lemma RepliesGenuineStep(cfg: Config, s: State, a: Action)
    requires Enabled(s, a) && Base(s) && StoredGenuine(s) && RepliesGenuine(s)
    ensures RepliesGenuine(Next(cfg, s, a))
  {
    var t := Next(cfg, s, a);
    forall q | q in t.requests && t.requests[q].phase.Done? && t.requests[q].phase.outcome.Replayed?
      ensures var r := t.requests[q];
              exists p :: Originated(t, p, r.caller, r.key, r.bodyHash, r.phase.outcome.response)
    {
      var r := t.requests[q];
      var p := ReplaySource(cfg, s, a, q);
      OriginStays(cfg, s, a, p, r.caller, r.key, r.bodyHash, r.phase.outcome.response);
    }
    forall q | q in t.requests && t.requests[q].phase.Done? && t.requests[q].phase.outcome.KeyConflict?
      ensures var r := t.requests[q];
              exists p, h, body :: h != r.bodyHash && Originated(t, p, r.caller, r.key, h, body)
                                   && t.requests[p].requestId == r.phase.outcome.originalRequestId
    {
      var r := t.requests[q];
      var p, h, body := ConflictSource(cfg, s, a, q);
      OriginStays(cfg, s, a, p, r.caller, r.key, h, body);
    }
  }

  lemma {:induction false} HitSource(s: State, caller: string, key: string, now: real, ttl: real)
    requires Base(s) && GotFrom(s.buckets, caller, key, now, ttl).1.Some?
    ensures EntryAt(s, caller, key) == GotFrom(s.buckets, caller, key, now, ttl).1
  {
    var b := s.buckets[caller];
    assert Unique(BucketAt(s, caller).entries);
    var e := Evicted(b, now, ttl);
    var c := Lookup(e.entries, key).value;
    LookupMember(e.entries, key, c);
    LookupMember(b.entries, key, c);
  }

  lemma ReplaySource(cfg: Config, s: State, a: Action, q: nat) returns (p: nat)
    requires Enabled(s, a) && Base(s) && StoredGenuine(s) && RepliesGenuine(s)
    requires var t := Next(cfg, s, a);
             q in t.requests && t.requests[q].phase.Done? && t.requests[q].phase.outcome.Replayed?
    ensures var r := Next(cfg, s, a).requests[q];
            Originated(s, p, r.caller, r.key, r.bodyHash, r.phase.outcome.response)
  {
    var r := Next(cfg, s, a).requests[q];
    if a.Enter? && q == a.id {
      HitSource(s, r.caller, r.key, a.now, cfg.ttl);
      var e := EntryAt(s, r.caller, r.key).value;
      p :| Originated(s, p, r.caller, r.key, e.bodyHash, e.response) && s.requests[p].requestId == e.requestId;
    } else {
      p :| Originated(s, p, r.caller, r.key, r.bodyHash, r.phase.outcome.response);
    }
  }

  lemma ConflictSource(cfg: Config, s: State, a: Action, q: nat) returns (p: nat, h: string, body: Response)
    requires Enabled(s, a) && Base(s) && StoredGenuine(s) && RepliesGenuine(s)
    requires var t := Next(cfg, s, a);
             q in t.requests && t.requests[q].phase.Done? && t.requests[q].phase.outcome.KeyConflict?
    ensures var r := Next(cfg, s, a).requests[q];
            h != r.bodyHash && Originated(s, p, r.caller, r.key, h, body)
            && s.requests[p].requestId == r.phase.outcome.originalRequestId
  {
    var r := Next(cfg, s, a).requests[q];
    if a.Enter? && q == a.id {
      HitSource(s, r.caller, r.key, a.now, cfg.ttl);
      var e := EntryAt(s, r.caller, r.key).value;
      h, body := e.bodyHash, e.response;
      p :| Originated(s, p, r.caller, r.key, h, body) && s.requests[p].requestId == e.requestId;
    } else {
      p, h, body :| h != r.bodyHash && Originated(s, p, r.caller, r.key, h, body)
                    && s.requests[p].requestId == r.phase.outcome.originalRequestId;
    }
  }

  /**
   In every interleaving, with no guard on eviction: a replayed reply equals the reply some earlier
   request of the same caller, key and body hash got from the origin; a conflict names an earlier
   request of the same key with another hash; and only cacheable responses are stored.
   */
  lemma {:induction false} RepliesComeFromTheOrigin(cfg: Config, s: State, acts: seq<Action>)
    requires Base(s) && StoredGenuine(s) && RepliesGenuine(s) && Legal(cfg, s, acts)
    ensures var t := Run(cfg, s, acts); Base(t) && StoredGenuine(t) && RepliesGenuine(t)
    decreases |acts|
  {
    if acts != [] {
      BaseStep(cfg, s, acts[0]);
      StoredGenuineStep(cfg, s, acts[0]);
      RepliesGenuineStep(cfg, s, acts[0]);
      RepliesComeFromTheOrigin(cfg, Next(cfg, s, acts[0]), acts[1..]);
    }
  }

  lemma InitGenuine()
    ensures Base(INIT) && StoredGenuine(INIT) && RepliesGenuine(INIT)
  {
  }
}
