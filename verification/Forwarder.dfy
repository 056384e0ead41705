/**
 The audit forwarder's worker: a bounded queue that drops its oldest job on overflow, one worker
 that takes the first due job, and retries with capped exponential backoff.

 Jobs are numbered in the order they are accepted.  Besides the queue the state records where each
 job ended, when each of its sends happened, the order of first sends, every row handed to the
 delivery log, and what every send to a destination brought; these are history.
 */
module Forwarders {
  import opened Options
  import opened DestinationStatus
  import D = DeliveryLogs

  /** `maxQueue` is the bound of the queue, `keep` the configured number of delivery rows per tenant. */
  datatype Config = Config(maxQueue: nat, maxRetries: int, keep: int)

  /** A queued event; `ts` is its time. */
  datatype Job = Job(id: nat, tenant: string, ts: real, attempt: nat, nextAt: real)

  datatype Fate = Delivered | FailedForGood | Unsigned | DroppedOnOverflow | Discarded

  /** What processing a job meets: no enabled destination, no signing secret, or a send with its status code. */
  datatype Meets = NoDestination | NoSecret | Sent(code: int, error: string)

  datatype State = State(
    queue: seq<Job>,
    inFlight: Option<Job>,
    accepted: nat,
    fate: map<nat, Fate>,
    sends: map<nat, seq<real>>,
    firsts: seq<nat>,
    records: seq<D.Delivery>,
    posts: seq<Post>,
    clock: real)

  const INIT := State([], None, 0, map[], map[], [], [], [], 0.0)

  datatype Action =
    | Enqueue(tenant: string, ts: real)
    | Take(now: real)
    | Process(meets: Meets, now: real)

  // ---------------------------------------------------------------- backoff

  function Pow2(n: nat): real {
    if n == 0 then 1.0 else 2.0 * Pow2(n - 1)
  }

  /** Seconds to wait after the given attempt failed. */
  function Delay(attempt: nat): real
    requires attempt > 0
  {
    if Pow2(attempt - 1) < 30.0 then Pow2(attempt - 1) else 30.0
  }

  lemma {:induction false} Pow2Grows(m: nat, n: nat)
    requires m <= n
    ensures 1.0 <= Pow2(m) <= Pow2(n)
    decreases n
  {
    if n == 0 {
    } else if m < n {
      Pow2Grows(m, n - 1);
    } else {
      Pow2Grows(m - 1, n - 1);
    }
  }

  /** 1, 2, 4, 8, 16 seconds, then 30 for every later attempt; never shorter than before. */
  lemma DelayExactly(attempt: nat)
    requires attempt > 0
    ensures Delay(attempt) == if attempt <= 5 then Pow2(attempt - 1) else 30.0
    ensures 1.0 <= Delay(attempt) <= Delay(attempt + 1) <= 30.0
    ensures attempt < 5 ==> Delay(attempt + 1) == 2.0 * Delay(attempt)
    ensures Delay(1) == 1.0 && Delay(5) == 16.0 && Delay(6) == 30.0
  {
    assert Pow2(4) == 16.0 by { assert Pow2(2) == 4.0; }
    assert Pow2(5) == 32.0;
    Pow2Grows(attempt - 1, attempt);
    if attempt <= 5 {
      Pow2Grows(attempt - 1, 4);
    } else {
      Pow2Grows(5, attempt - 1);
    }
  }

  // ---------------------------------------------------------------- steps

  /** Index of the first job that is due, or the queue's length. */
  function FirstDue(queue: seq<Job>, now: real): (i: nat)
    ensures i <= |queue|
    ensures i < |queue| ==> queue[i].nextAt <= now
    ensures forall k :: 0 <= k < i ==> queue[k].nextAt > now
  {
    if queue == [] || queue[0].nextAt <= now then 0 else 1 + FirstDue(queue[1..], now)
  }

  function Without(queue: seq<Job>, i: nat): seq<Job>
    requires i < |queue|
  {
    queue[..i] + queue[i + 1..]
  }

  predicate Enabled(s: State, a: Action) {
    match a
    case Enqueue(_, _) => true
    case Take(now) => s.inFlight.None? && s.clock <= now
    case Process(_, now) => s.inFlight.Some? && s.clock <= now
  }

  predicate Overflows(cfg: Config, s: State) {
    |s.queue| >= cfg.maxQueue
  }

  function SendsOf(s: State, id: nat): seq<real> {
    if id in s.sends then s.sends[id] else []
  }

  /** The delivery row about a job. */
  function RowFor(job: Job, attempt: nat, status: D.Status): D.Delivery {
    D.Delivery(job.tenant, job.ts, job.id, attempt, status)
  }

  /** `enqueue`: drop the oldest when full, with a row about it, then append. */
  function Enqueued(cfg: Config, s: State, tenant: string, ts: real): State
    requires cfg.maxQueue > 0
  {
    var job := Job(s.accepted, tenant, ts, 0, 0.0);
    if Overflows(cfg, s) then
      s.(queue := s.queue[1..] + [job],
         fate := s.fate[s.queue[0].id := DroppedOnOverflow],
         records := s.records + [RowFor(s.queue[0], s.queue[0].attempt, D.Dropped)],
         accepted := s.accepted + 1)
    else s.(queue := s.queue + [job], accepted := s.accepted + 1)
  }

  /** The worker removes the first due job, if any. */
  function Taken(s: State, now: real): State {
    var i := FirstDue(s.queue, now);
    if i == |s.queue| then s.(clock := now)
    else s.(queue := Without(s.queue, i), inFlight := Some(s.queue[i]), clock := now)
  }

  /** `_process` on the job in flight. */
  function Processed(cfg: Config, s: State, meets: Meets, now: real): State
    requires s.inFlight.Some?
  {
    var job := s.inFlight.value;
    var t := s.(inFlight := None, clock := now);
    match meets
    case NoDestination => t.(fate := t.fate[job.id := Discarded])
    case NoSecret =>
      t.(fate := t.fate[job.id := Unsigned], records := t.records + [RowFor(job, job.attempt + 1, D.Failed)])
    case Sent(code, error) =>
      var attempt := job.attempt + 1;
      var u := t.(sends := t.sends[job.id := SendsOf(t, job.id) + [now]],
                  posts := t.posts + [Post(job.tenant, now, code, error)],
                  firsts := if job.attempt == 0 then t.firsts + [job.id] else t.firsts);
      if Delivers(code) then
        u.(fate := u.fate[job.id := Delivered], records := u.records + [RowFor(job, attempt, D.Delivered)])
      else if attempt >= cfg.maxRetries then
        u.(fate := u.fate[job.id := FailedForGood], records := u.records + [RowFor(job, attempt, D.Failed)])
      else u.(queue := u.queue + [Job(job.id, job.tenant, job.ts, attempt, now + Delay(attempt))])
  }

  function Next(cfg: Config, s: State, a: Action): State
    requires cfg.maxQueue > 0 && Enabled(s, a)
  {
    match a
    case Enqueue(tenant, ts) => Enqueued(cfg, s, tenant, ts)
    case Take(now) => Taken(s, now)
    case Process(meets, now) => Processed(cfg, s, meets, now)
  }

  /** The rows that processing a job adds to the delivery log. */
  function Rows(cfg: Config, job: Job, meets: Meets): seq<D.Delivery> {
    match meets
    case NoDestination => []
    case NoSecret => [RowFor(job, job.attempt + 1, D.Failed)]
    case Sent(code, _) =>
      if Delivers(code) then [RowFor(job, job.attempt + 1, D.Delivered)]
      else if job.attempt + 1 >= cfg.maxRetries then [RowFor(job, job.attempt + 1, D.Failed)]
      else []
  }

  /** The send that processing a job makes. */
  function Posts(job: Job, meets: Meets, now: real): seq<Post> {
    if meets.Sent? then [Post(job.tenant, now, meets.code, meets.error)] else []
  }

  predicate Retries(cfg: Config, job: Job, meets: Meets) {
    meets.Sent? && !Delivers(meets.code) && job.attempt + 1 < cfg.maxRetries
  }

  /** The retry that processing a job appends to the queue. */
  function Requeued(cfg: Config, job: Job, meets: Meets, now: real): seq<Job> {
    if Retries(cfg, job, meets) then
      [Job(job.id, job.tenant, job.ts, job.attempt + 1, now + Delay(job.attempt + 1))]
    else []
  }

  /** A failed send with attempts left queues the job again, due after 1, 2, 4, 8, 16 and then 30 seconds. */
  lemma {:induction false} RetriesExactly(cfg: Config, job: Job, meets: Meets, now: real)
    ensures Requeued(cfg, job, meets, now) ==
      if meets.Sent? && !(200 <= meets.code <= 299) && job.attempt + 1 < cfg.maxRetries
      then [job.(attempt := job.attempt + 1, nextAt := now + if job.attempt < 5 then Pow2(job.attempt) else 30.0)]
      else []
  {
    DelayExactly(job.attempt + 1);
  }

  /** The first job that is due left the queue, or none was due and all stayed. */
  ghost predicate TookFirstDue(before: seq<Job>, after: seq<Job>, job: Option<Job>, now: real) {
    if job.None? then after == before && forall j :: j in before ==> j.nextAt > now
    else exists i: nat :: i < |before| && TookAt(before, after, job.value, now, i)
  }

  ghost predicate TookAt(before: seq<Job>, after: seq<Job>, job: Job, now: real, i: nat)
    requires i < |before|
  {
    && job == before[i] && job.nextAt <= now && (forall k :: 0 <= k < i ==> before[k].nextAt > now)
    && after == before[..i] + before[i + 1..]
  }

  lemma {:induction false} TakenFirstDue(s: State, now: real)
    requires s.inFlight.None?
    ensures TookFirstDue(s.queue, Taken(s, now).queue, Taken(s, now).inFlight, now)
  {
    var i := FirstDue(s.queue, now);
    if i < |s.queue| {
      assert TookAt(s.queue, Taken(s, now).queue, s.queue[i], now, i);
    }
  }

  lemma {:induction false} ProcessedTables(cfg: Config, s: State, meets: Meets, now: real)
    requires s.inFlight.Some?
    ensures var t, job := Processed(cfg, s, meets, now), s.inFlight.value;
            && t.queue == s.queue + Requeued(cfg, job, meets, now)
            && t.records == s.records + Rows(cfg, job, meets)
            && t.posts == s.posts + Posts(job, meets, now)
            && t.accepted == s.accepted
  {
  }

  // ---------------------------------------------------------------- the worker object

  class Worker {
    const cfg: Config
    const log: D.DeliveryLog
    var queue: seq<Job>
    var accepted: nat
    var status: map<string, LastAttempt>
    ghost var history: State

    constructor (cfg: Config)
      requires cfg.maxQueue > 0
      ensures this.cfg == cfg && Valid() && history == INIT && fresh(log)
    {
      this.cfg, queue, accepted, status, history := cfg, [], 0, map[], INIT;
      log := new D.DeliveryLog(cfg.keep);
    }

    /** The delivery log has seen exactly the rows of the history, and the destinations its sends. */
    ghost predicate Valid()
      reads this, log
    {
      && cfg.maxQueue > 0 && queue == history.queue && accepted == history.accepted
      && log.Valid() && log.recorded == history.records && status == StatusOf(history.posts)
    }

    /** The start of `enqueue`: a full queue loses its oldest job, with a row about it. */
    method DropOldest()
      requires cfg.maxQueue > 0 && log.Valid()
      modifies this`queue, log
      ensures log.Valid()
      ensures |old(queue)| < cfg.maxQueue ==> queue == old(queue) && log.recorded == old(log.recorded)
      ensures |old(queue)| >= cfg.maxQueue ==>
                var j := old(queue)[0];
                && queue == old(queue)[1..]
                && log.recorded == old(log.recorded) + [D.Delivery(j.tenant, j.ts, j.id, j.attempt, D.Dropped)]
    {
      if |queue| >= cfg.maxQueue {
        var dropped := queue[0];
        queue := queue[1..];
        log.Record(RowFor(dropped, dropped.attempt, D.Dropped));
      }
    }

    method EnqueueJob(tenant: string, ts: real)
      requires Valid()
      modifies this, log
      ensures Valid() && history == Enqueued(cfg, old(history), tenant, ts)
      ensures queue == (if |old(queue)| < cfg.maxQueue then old(queue) else old(queue)[1..])
                       + [Job(old(accepted), tenant, ts, 0, 0.0)]
    {
      DropOldest();
      queue := queue + [Job(accepted, tenant, ts, 0, 0.0)];
      accepted := accepted + 1;
      history := Enqueued(cfg, history, tenant, ts);
    }

    /** The scan of `_run` and `drain_for_tests` for the next job whose time has come. */
    method TakeDue(now: real) returns (job: Option<Job>)
      requires Valid() && history.inFlight.None? && history.clock <= now
      modifies this
      ensures Valid() && history == Taken(old(history), now) && job == history.inFlight
    {
      job := None;
      var i := 0;
      while i < |queue|
        invariant 0 <= i <= |queue|
        invariant forall k :: 0 <= k < i ==> queue[k].nextAt > now
        invariant queue == old(queue) && history == old(history) && accepted == old(accepted)
        invariant status == old(status)
      {
        if queue[i].nextAt <= now {
          assert i == FirstDue(queue, now);
          job := Some(queue[i]);
          queue := queue[..i] + queue[i + 1..];
          history := Taken(history, now);
          return;
        }
        i := i + 1;
      }
      assert FirstDue(queue, now) == |queue|;
      history := Taken(history, now);
    }

    /** `_update_status`. */
    method UpdateStatus(p: Post)
      modifies this`status
      ensures status == Attempted(old(status), p)
    {
      var success := if p.tenant in status then status[p.tenant].success else None;
      var error := "";
      if Delivers(p.code) {
        success := Some(p.at);
      } else {
        error := if p.error != "" then p.error else "http " + Decimal(p.code);
      }
      if |error| > 240 {
        error := error[..240];
      }
      status := status[p.tenant := LastAttempt(p.at, success, p.code, error)];
    }

    /** What `_process` does to the queue, to the delivery log and to what the destinations show. */
    method Settle(job: Job, meets: Meets, now: real)
      requires log.Valid()
      modifies this`queue, this`status, log
      ensures queue == old(queue) + Requeued(cfg, job, meets, now)
      ensures status == AllAttempted(old(status), Posts(job, meets, now))
      ensures log.Valid() && log.recorded == old(log.recorded) + Rows(cfg, job, meets)
    {
      if meets.NoDestination? {
        return;
      }
      if meets.NoSecret? {
        log.Record(RowFor(job, job.attempt + 1, D.Failed));
        return;
      }
      UpdateStatus(Post(job.tenant, now, meets.code, meets.error));
      Conclude(job, meets, now);
    }

    /** The rest of `_process` once a send is answered. */
    method Conclude(job: Job, meets: Meets, now: real)
      requires log.Valid() && meets.Sent?
      modifies this`queue, log
      ensures queue == old(queue) + Requeued(cfg, job, meets, now)
      ensures log.Valid() && log.recorded == old(log.recorded) + Rows(cfg, job, meets)
    {
      var attempt := job.attempt + 1;
      if Delivers(meets.code) {
        log.Record(RowFor(job, attempt, D.Delivered));
        return;
      }
      if attempt >= cfg.maxRetries {
        log.Record(RowFor(job, attempt, D.Failed));
        return;
      }
      var delay := if Pow2(attempt - 1) < 30.0 then Pow2(attempt - 1) else 30.0;
      queue := queue + [Job(job.id, job.tenant, job.ts, attempt, now + delay)];
    }

    method ProcessJob(job: Job, meets: Meets, now: real)
      requires Valid() && history.inFlight == Some(job) && history.clock <= now
      modifies this, log
      ensures Valid() && history == Processed(cfg, old(history), meets, now)
    {
      Settle(job, meets, now);
      ProcessedTables(cfg, history, meets, now);
      StatusConcat(history.posts, Posts(job, meets, now));
      history := Processed(cfg, history, meets, now);
    }

    /** One iteration of `_run` or `drain_for_tests`; false when no job is due. */
    method VisitOnce(v: Visit) returns (found: bool)
      requires Valid() && history.inFlight.None? && history.clock <= v.taken <= v.done
      modifies this, log
      ensures Valid() && history == Visited(cfg, old(history), v) && found == Finds(old(history), v)
    {
      var job := TakeDue(v.taken);
      if job.None? {
        return false;
      }
      ProcessJob(job.value, v.meets, v.done);
      return true;
    }

    /** `drain_for_tests`: process due jobs until none is due or the iterations are used up. */
    method Drain(visits: seq<Visit>) returns (n: nat)
      requires Valid() && history.inFlight.None? && InOrder(visits, history.clock)
      modifies this, log
      ensures Valid() && n <= |visits| && history.inFlight.None?
      ensures history == Drained(cfg, old(history), visits)
      ensures n < |visits| ==> forall j :: j in queue ==> j.nextAt > visits[n].taken
    {
      n := 0;
      while n < |visits|
        invariant n <= |visits| && Valid() && history.inFlight.None? && InOrder(visits[n..], history.clock)
        invariant Drained(cfg, history, visits[n..]) == Drained(cfg, old(history), visits)
      {
        assert visits[n..][0] == visits[n] && visits[n..][1..] == visits[n + 1..];
        VisitClock(cfg, history, visits[n]);
        var found := VisitOnce(visits[n]);
        if !found {
          return;
        }
        n := n + 1;
      }
    }
  }

  /** One iteration of a drain: the clock when a job is looked for, what the job meets, the clock after it. */
  datatype Visit = Visit(taken: real, meets: Meets, done: real)

  predicate Finds(s: State, v: Visit) {
    Taken(s, v.taken).inFlight.Some?
  }

  function Visited(cfg: Config, s: State, v: Visit): State
    requires cfg.maxQueue > 0 && s.inFlight.None?
  {
    if Finds(s, v) then Processed(cfg, Taken(s, v.taken), v.meets, v.done) else Taken(s, v.taken)
  }

  /** After a visit nothing is in flight; when it found nothing, the queue is as before and nothing in it is due. */
  lemma VisitClock(cfg: Config, s: State, v: Visit)
    requires cfg.maxQueue > 0 && s.inFlight.None? && s.clock <= v.taken <= v.done
    ensures Visited(cfg, s, v).inFlight.None?
    ensures Finds(s, v) ==> Visited(cfg, s, v).clock == v.done
    ensures !Finds(s, v) ==> Visited(cfg, s, v).queue == s.queue && forall j :: j in s.queue ==> j.nextAt > v.taken
  {
    if !Finds(s, v) {
      assert FirstDue(s.queue, v.taken) == |s.queue|;
    }
  }

  /** The clock never goes back. */
  ghost predicate InOrder(visits: seq<Visit>, clock: real) {
    visits == [] || (clock <= visits[0].taken <= visits[0].done && InOrder(visits[1..], visits[0].done))
  }

  /** Visit after visit, until nothing is due. */
  ghost function Drained(cfg: Config, s: State, visits: seq<Visit>): State
    requires cfg.maxQueue > 0 && s.inFlight.None? && InOrder(visits, s.clock)
    decreases |visits|
  {
    if visits == [] then s
    else
      VisitClock(cfg, s, visits[0]);
      if Finds(s, visits[0]) then Drained(cfg, Visited(cfg, s, visits[0]), visits[1..]) else Visited(cfg, s, visits[0])
  }
}
