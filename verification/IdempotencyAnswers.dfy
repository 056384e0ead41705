/**
 Which answers the idempotency middleware keeps: errors that a retry may cure reach their caller and
 leave no trace, every other answer is stored for the retries.
 */
module IdempotencyAnswers {
  import opened Options
  import opened OrderedDicts
  import opened IdempotencyStores
  import opened IdempotencyProtocol

  /** 408, 429 and everything from 500 up. */
  predicate Retryable(status: int) {
    status == 408 || status == 429 || 500 <= status
  }

  // ---------------------------------------------------------------- what is never stored

  ghost predicate NoneRetryable(s: State) {
    && (forall c, k :: EntryAt(s, c, k).Some? ==> !Retryable(EntryAt(s, c, k).value.response.status))
    && (forall q :: q in s.requests && s.requests[q].phase.Draining? ==>
          !Retryable(s.requests[q].phase.response.status))
  }

  lemma NoneRetryableStep(cfg: Config, s: State, a: Action)
    requires Enabled(s, a) && Base(s) && NoneRetryable(s)
    ensures NoneRetryable(Next(cfg, s, a))
  {
    var t := Next(cfg, s, a);
    forall c, k | EntryAt(t, c, k).Some? ensures !Retryable(EntryAt(t, c, k).value.response.status) {
      if Writes(s, a, c, k) {
        WrittenEntry(cfg, s, a);
      } else {
        EntryKept(cfg, s, a, c, k);
        assert !Retryable(EntryAt(s, c, k).value.response.status);
      }
    }
  }

  /** In every interleaving from the empty store, no stored response has status 408, 429 or at least 500. */
  lemma {:induction false} NoRetryableIsStored(cfg: Config, s: State, acts: seq<Action>)
    requires Base(s) && NoneRetryable(s) && Legal(cfg, s, acts)
    ensures Base(IdempotencyProtocol.Run(cfg, s, acts)) && NoneRetryable(IdempotencyProtocol.Run(cfg, s, acts))
    decreases |acts|
  {
    if acts != [] {
      NoneRetryableStep(cfg, s, acts[0]);
      BaseStep(cfg, s, acts[0]);
      NoRetryableIsStored(cfg, Next(cfg, s, acts[0]), acts[1..]);
    }
  }

  lemma InitNoneRetryable()
    ensures Base(INIT) && NoneRetryable(INIT)
  {
  }

  // ---------------------------------------------------------------- what each answer does

  /**
   An answer that a retry may cure ends its request with exactly that answer and leaves all tables as
   they were; any other one is held, unchanged, until it is drained.
   */
  lemma AnswerExactly(cfg: Config, s: State, id: nat, response: Response)
    requires Enabled(s, Respond(id, response))
    ensures var t := Next(cfg, s, Respond(id, response));
            && t.buckets == s.buckets && t.lockCount == s.lockCount
            && t.requests[id].phase ==
               if Retryable(response.status) then Done(Fresh(response))
               else Draining(s.requests[id].phase.lock, response)
  {
  }

  /** A drained answer ends its request and, unless the cap is 0, is what the key holds from then on. */
  lemma {:induction false} StoredExactly(cfg: Config, s: State, id: nat, now: real)
    requires Enabled(s, Store(id, now)) && Base(s)
    ensures var t, r := Next(cfg, s, Store(id, now)), s.requests[id];
            && t.requests[id].phase == Done(Fresh(r.phase.response))
            && (cfg.cap > 0 ==>
                  EntryAt(t, r.caller, r.key) == Some(Cached(r.phase.response, r.bodyHash, r.requestId, now)))
  {
    var t, r := Next(cfg, s, Store(id, now)), s.requests[id];
    if cfg.cap > 0 {
      var b, c := BucketAt(s, r.caller), Cached(r.phase.response, r.bodyHash, r.requestId, now);
      assert Unique(b.entries);
      PutRespectsCap(b, r.key, c, cfg.cap);
      LookupMember(Stored(b, r.key, c, cfg.cap).entries, r.key, c);
      assert BucketAt(t, r.caller) == Stored(b, r.key, c, cfg.cap);
    }
  }

  /** The two steps together: the answer reaches its caller, and its retries. */
  lemma {:induction false} KeptAnswer(cfg: Config, s: State, id: nat, response: Response, now: real)
    requires Enabled(s, Respond(id, response)) && Base(s) && !Retryable(response.status)
    ensures var u := Next(cfg, s, Respond(id, response));
            Enabled(u, Store(id, now))
            && var t, r := Next(cfg, u, Store(id, now)), s.requests[id];
               && t.requests[id].phase == Done(Fresh(response))
               && (cfg.cap > 0 ==>
                     EntryAt(t, r.caller, r.key) == Some(Cached(response, r.bodyHash, r.requestId, now)))
  {
    AnswerExactly(cfg, s, id, response);
    BaseStep(cfg, s, Respond(id, response));
    StoredExactly(cfg, Next(cfg, s, Respond(id, response)), id, now);
  }

  // ---------------------------------------------------------------- what a retry finds

  /** A request that gets its lock while the key holds nothing runs the origin. */
  lemma {:induction false} NothingStoredRuns(cfg: Config, s: State, id: nat, now: real)
    requires Enabled(s, Enter(id, now)) && Base(s)
    requires EntryAt(s, s.requests[id].caller, s.requests[id].key).None?
    ensures Next(cfg, s, Enter(id, now)).requests[id].phase == Running(s.requests[id].phase.lock)
  {
    var r := s.requests[id];
    if GotFrom(s.buckets, r.caller, r.key, now, cfg.ttl).1.Some? {
      HitSource(s, r.caller, r.key, now, cfg.ttl);
    }
  }

  /** From an invariant state, after an answer that a retry may cure the next request on the key runs the origin. */
  lemma {:induction false} RetryRunsOrigin(cfg: Config, s: State, id: nat, response: Response, retry: nat, now: real)
    requires Enabled(s, Respond(id, response)) && Inv(s) && Retryable(response.status)
    requires Enabled(Next(cfg, s, Respond(id, response)), Enter(retry, now))
    requires s.requests[retry].caller == s.requests[id].caller && s.requests[retry].key == s.requests[id].key
    ensures var t := Next(cfg, Next(cfg, s, Respond(id, response)), Enter(retry, now));
            t.requests[retry].phase == Running(s.requests[retry].phase.lock)
  {
    var u := Next(cfg, s, Respond(id, response));
    AnswerExactly(cfg, s, id, response);
    BaseStep(cfg, s, Respond(id, response));
    assert s.requests[id].phase.Holds();
    assert EntryAt(s, s.requests[id].caller, s.requests[id].key).None?;
    NothingStoredRuns(cfg, u, retry, now);
  }

  /** A stored answer is returned until it is older than the time-to-live. */
  lemma {:induction false} AnsweredUntil(k: string, c: Cached, cap: nat, now: real, ttl: real)
    requires cap > 0
    ensures Got(Stored(Bucket([], map[]), k, c, cap), k, now, ttl).1
         == if now - c.storedAt <= ttl then Some(c) else None
  {
    var d := [Slot(k, c)];
    assert PutLast([], k, c) == d;
    assert d[1..] == [] && d[0..] == d;
  }
}
