/** What every run of enqueues, takes and processed jobs keeps, for a single worker. */
module ForwarderRuns {
  import opened Options
  import opened DestinationStatus
  import opened Forwarders
  import D = DeliveryLogs

  ghost predicate Legal(cfg: Config, s: State, acts: seq<Action>)
    requires cfg.maxQueue > 0
    decreases |acts|
  {
    acts == [] || (Enabled(s, acts[0]) && Legal(cfg, Next(cfg, s, acts[0]), acts[1..]))
  }

  ghost function Run(cfg: Config, s: State, acts: seq<Action>): State
    requires cfg.maxQueue > 0 && Legal(cfg, s, acts)
    decreases |acts|
  {
    if acts == [] then s else Run(cfg, Next(cfg, s, acts[0]), acts[1..])
  }

  // ---------------------------------------------------------------- every job is in exactly one place

  /** How often a job number occurs in the queue. */
  function Occurs(queue: seq<Job>, id: nat): nat {
    if queue == [] then 0 else (if queue[0].id == id then 1 else 0) + Occurs(queue[1..], id)
  }

  function HeldOnce(s: State, id: nat): nat {
    if s.inFlight.Some? && s.inFlight.value.id == id then 1 else 0
  }

  /** The number of places job `id` is in: queue slots, in flight, final fates. */
  function Places(s: State, id: nat): nat {
    Occurs(s.queue, id) + HeldOnce(s, id) + (if id in s.fate then 1 else 0)
  }

  ghost predicate OnePlaceEach(s: State) {
    forall id: nat :: Places(s, id) == if id < s.accepted then 1 else 0
  }

  lemma {:induction false} OccursConcat(a: seq<Job>, b: seq<Job>, id: nat)
    ensures Occurs(a + b, id) == Occurs(a, id) + Occurs(b, id)
  {
    if a == [] {
      assert a + b == b;
    } else {
      assert (a + b)[1..] == a[1..] + b;
      OccursConcat(a[1..], b, id);
    }
  }

  lemma OccursWithout(queue: seq<Job>, i: nat, id: nat)
    requires i < |queue|
    ensures Occurs(queue, id) == Occurs(Without(queue, i), id) + if queue[i].id == id then 1 else 0
  {
    assert queue == queue[..i] + ([queue[i]] + queue[i + 1..]);
    OccursConcat(queue[..i], [queue[i]] + queue[i + 1..], id);
    OccursConcat([queue[i]], queue[i + 1..], id);
    OccursConcat(queue[..i], queue[i + 1..], id);
  }

  lemma {:induction false} OccursMember(queue: seq<Job>, i: nat)
    requires i < |queue|
    ensures Occurs(queue, queue[i].id) >= 1
  {
    OccursWithout(queue, i, queue[i].id);
  }

  lemma OccursOne(j: Job, id: nat)
    ensures Occurs([j], id) == if j.id == id then 1 else 0
  {
    assert [j][1..] == [];
  }

  lemma {:induction false} EnqueuePlaces(cfg: Config, s: State, tenant: string, ts: real, id: nat)
    requires cfg.maxQueue > 0 && OnePlaceEach(s)
    ensures var t := Enqueued(cfg, s, tenant, ts); Places(t, id) == if id < t.accepted then 1 else 0
  {
    assert Places(s, id) == if id < s.accepted then 1 else 0;
    var job, kept := Job(s.accepted, tenant, ts, 0, 0.0), if Overflows(cfg, s) then s.queue[1..] else s.queue;
    OccursOne(job, id);
    OccursConcat(kept, [job], id);
    if Overflows(cfg, s) {
      OccursMember(s.queue, 0);
      assert Places(s, s.queue[0].id) <= 1;
    }
  }

  lemma {:induction false} TakePlaces(s: State, now: real, id: nat)
    requires s.inFlight.None?
    ensures Places(Taken(s, now), id) == Places(s, id)
  {
    var i := FirstDue(s.queue, now);
    if i < |s.queue| {
      OccursWithout(s.queue, i, id);
    }
  }

  lemma {:induction false} ProcessPlaces(cfg: Config, s: State, meets: Meets, now: real, id: nat)
    requires s.inFlight.Some? && OnePlaceEach(s)
    ensures Places(Processed(cfg, s, meets, now), id) == Places(s, id)
  {
    var job := s.inFlight.value;
    assert Places(s, job.id) <= 1;
    ProcessedTables(cfg, s, meets, now);
    OccursConcat(s.queue, Requeued(cfg, job, meets, now), id);
    if Retries(cfg, job, meets) {
      OccursOne(Requeued(cfg, job, meets, now)[0], id);
    }
  }

  lemma PlacesStep(cfg: Config, s: State, a: Action, id: nat)
    requires cfg.maxQueue > 0 && Enabled(s, a) && OnePlaceEach(s)
    ensures var t := Next(cfg, s, a); Places(t, id) == if id < t.accepted then 1 else 0
  {
    assert Places(s, id) == if id < s.accepted then 1 else 0;
    match a
    case Enqueue(tenant, ts) => EnqueuePlaces(cfg, s, tenant, ts, id);
    case Take(now) => TakePlaces(s, now, id);
    case Process(meets, now) => ProcessPlaces(cfg, s, meets, now, id);
  }

  // ---------------------------------------------------------------- sends

  /** A job is sent at most this often. */
  function Limit(cfg: Config): nat {
    if cfg.maxRetries > 1 then cfg.maxRetries else 1
  }

  /** Consecutive sends of one job are at least the backoff delay apart. */
  ghost predicate Spaced(times: seq<real>) {
    forall k :: 0 < k < |times| ==> times[k] >= times[k - 1] + Delay(k)
  }

  /** A live job counts its own sends, has sends left, and waits out the delay after its last one. */
  ghost predicate LiveJobOk(cfg: Config, s: State, j: Job) {
    var times := SendsOf(s, j.id);
    && |times| == j.attempt < Limit(cfg)
    && (j.attempt > 0 ==> j.nextAt == times[j.attempt - 1] + Delay(j.attempt))
    && (j.attempt == 0 ==> j.nextAt == 0.0)
  }

  ghost predicate FateOk(cfg: Config, s: State, id: nat)
    requires id in s.fate
  {
    var n := |SendsOf(s, id)|;
    match s.fate[id]
    case Delivered => 1 <= n <= Limit(cfg)
    case FailedForGood => n == Limit(cfg)
    case _ => n < Limit(cfg)
  }

  ghost predicate SendsOk(cfg: Config, s: State) {
    && (forall j :: j in s.queue ==> LiveJobOk(cfg, s, j))
    && (s.inFlight.Some? ==> LiveJobOk(cfg, s, s.inFlight.value) && s.inFlight.value.nextAt <= s.clock)
    && (forall id :: id in s.fate ==> FateOk(cfg, s, id))
    && (forall id: nat :: Spaced(SendsOf(s, id)))
    && (forall id :: id in s.sends ==> id < s.accepted)
    && 0.0 <= s.clock
  }

  /** Another job's step leaves this job's records alone. */
  lemma OthersUntouched(s: State, j: Job)
    requires OnePlaceEach(s) && j in s.queue
    ensures j.id < s.accepted && j.id !in s.fate
    ensures s.inFlight.Some? ==> s.inFlight.value.id != j.id
  {
    var i :| 0 <= i < |s.queue| && s.queue[i] == j;
    OccursMember(s.queue, i);
    assert Places(s, j.id) <= 1;
  }

  lemma SpacedEverywhere(s: State, t: State)
    requires s.sends == t.sends && forall id: nat :: Spaced(SendsOf(s, id))
    ensures forall id: nat :: Spaced(SendsOf(t, id))
  {
    forall id: nat ensures Spaced(SendsOf(t, id)) {
      assert SendsOf(t, id) == SendsOf(s, id);
    }
  }

  lemma {:induction false} EnqueueSends(cfg: Config, s: State, tenant: string, ts: real)
    requires cfg.maxQueue > 0 && OnePlaceEach(s) && SendsOk(cfg, s)
    ensures SendsOk(cfg, Enqueued(cfg, s, tenant, ts))
  {
    var t := Enqueued(cfg, s, tenant, ts);
    SpacedEverywhere(s, t);
    forall j | j in t.queue ensures LiveJobOk(cfg, t, j) {
      assert j in s.queue || j == Job(s.accepted, tenant, ts, 0, 0.0);
    }
    if Overflows(cfg, s) {
      assert s.queue[0] in s.queue && LiveJobOk(cfg, s, s.queue[0]);
    }
    forall id | id in t.fate ensures FateOk(cfg, t, id) {
      if id in s.fate && t.fate[id] == s.fate[id] {
        assert FateOk(cfg, s, id);
      }
    }
  }

  lemma {:induction false} TakeSends(cfg: Config, s: State, now: real)
    requires s.inFlight.None? && s.clock <= now && SendsOk(cfg, s)
    ensures SendsOk(cfg, Taken(s, now))
  {
    var t := Taken(s, now);
    SpacedEverywhere(s, t);
    forall j | j in t.queue ensures LiveJobOk(cfg, t, j) {
      assert j in s.queue && LiveJobOk(cfg, s, j);
    }
    if t.inFlight.Some? {
      assert t.inFlight.value in s.queue && LiveJobOk(cfg, s, t.inFlight.value);
    }
    forall id | id in t.fate ensures FateOk(cfg, t, id) {
      assert FateOk(cfg, s, id);
    }
  }

  lemma {:induction false} ProcessLive(cfg: Config, s: State, meets: Meets, now: real, j: Job)
    requires s.inFlight.Some? && s.clock <= now && OnePlaceEach(s) && SendsOk(cfg, s)
    requires j in Processed(cfg, s, meets, now).queue
    ensures LiveJobOk(cfg, Processed(cfg, s, meets, now), j)
  {
    if j in s.queue {
      OthersUntouched(s, j);
      assert LiveJobOk(cfg, s, j);
    } else {
      assert LiveJobOk(cfg, s, s.inFlight.value);
    }
  }

  lemma {:induction false} ProcessFate(cfg: Config, s: State, meets: Meets, now: real, id: nat)
    requires s.inFlight.Some? && s.clock <= now && OnePlaceEach(s) && SendsOk(cfg, s)
    requires id in Processed(cfg, s, meets, now).fate
    ensures FateOk(cfg, Processed(cfg, s, meets, now), id)
  {
    var job := s.inFlight.value;
    assert LiveJobOk(cfg, s, job);
    if id == job.id {
      assert Places(s, id) <= 1;
    } else {
      assert FateOk(cfg, s, id);
    }
  }

  lemma {:induction false} ProcessSpaced(cfg: Config, s: State, meets: Meets, now: real, id: nat)
    requires s.inFlight.Some? && s.clock <= now && SendsOk(cfg, s)
    ensures Spaced(SendsOf(Processed(cfg, s, meets, now), id))
  {
    var t, job := Processed(cfg, s, meets, now), s.inFlight.value;
    assert Spaced(SendsOf(s, id)) && LiveJobOk(cfg, s, job);
    if id != job.id {
      assert SendsOf(t, id) == SendsOf(s, id);
    }
  }

  lemma {:induction false} ProcessSends(cfg: Config, s: State, meets: Meets, now: real)
    requires s.inFlight.Some? && s.clock <= now && OnePlaceEach(s) && SendsOk(cfg, s)
    ensures SendsOk(cfg, Processed(cfg, s, meets, now))
  {
    var t, job := Processed(cfg, s, meets, now), s.inFlight.value;
    assert Places(s, job.id) == if job.id < s.accepted then 1 else 0;
    forall j | j in t.queue ensures LiveJobOk(cfg, t, j) {
      ProcessLive(cfg, s, meets, now, j);
    }
    forall id | id in t.fate ensures FateOk(cfg, t, id) {
      ProcessFate(cfg, s, meets, now, id);
    }
    forall id: nat ensures Spaced(SendsOf(t, id)) {
      ProcessSpaced(cfg, s, meets, now, id);
    }
  }

  lemma SendsStep(cfg: Config, s: State, a: Action)
    requires cfg.maxQueue > 0 && Enabled(s, a) && OnePlaceEach(s) && SendsOk(cfg, s)
    ensures SendsOk(cfg, Next(cfg, s, a))
  {
    match a
    case Enqueue(tenant, ts) => EnqueueSends(cfg, s, tenant, ts);
    case Take(now) => TakeSends(cfg, s, now);
    case Process(meets, now) => ProcessSends(cfg, s, meets, now);
  }

  // ---------------------------------------------------------------- first sends keep the order

  ghost predicate Increasing(ids: seq<nat>) {
    forall i, j :: 0 <= i < j < |ids| ==> ids[i] < ids[j]
  }

  /** The jobs never sent are due at once and numbered upwards from `lo`, all below `hi`. */
  ghost predicate Ascends(queue: seq<Job>, lo: nat, hi: nat) {
    if queue == [] then lo <= hi
    else if queue[0].attempt == 0 then lo <= queue[0].id && queue[0].nextAt == 0.0
         && Ascends(queue[1..], queue[0].id + 1, hi)
    else Ascends(queue[1..], lo, hi)
  }

  /** One more than the highest number among the first sends. */
  function FirstsReach(firsts: seq<nat>): nat {
    if firsts == [] then 0 else firsts[|firsts| - 1] + 1
  }

  predicate FreshInFlight(s: State) {
    s.inFlight.Some? && s.inFlight.value.attempt == 0
  }

  /** First sends so far, then the unsent job in flight, then the unsent jobs in the queue, all in numeric order. */
  ghost predicate OrderOk(s: State) {
    && Increasing(s.firsts)
    && (FreshInFlight(s) ==> FirstsReach(s.firsts) <= s.inFlight.value.id)
    && Ascends(s.queue, if FreshInFlight(s) then s.inFlight.value.id + 1 else FirstsReach(s.firsts), s.accepted)
    && 0.0 <= s.clock
  }

  lemma {:induction false} AscendsLower(queue: seq<Job>, lo: nat, less: nat, hi: nat)
    requires Ascends(queue, lo, hi) && less <= lo
    ensures Ascends(queue, less, hi)
  {
    if queue != [] && queue[0].attempt != 0 {
      AscendsLower(queue[1..], lo, less, hi);
    }
  }

  lemma {:induction false} AscendsSnoc(queue: seq<Job>, lo: nat, hi: nat, job: Job)
    requires Ascends(queue, lo, hi)
    requires job.attempt == 0 ==> job.id == hi && job.nextAt == 0.0
    ensures Ascends(queue + [job], lo, if job.attempt == 0 then hi + 1 else hi)
  {
    if queue == [] {
      assert (queue + [job])[1..] == [];
    } else {
      assert (queue + [job])[1..] == queue[1..] + [job];
      AscendsSnoc(queue[1..], if queue[0].attempt == 0 then queue[0].id + 1 else lo, hi, job);
    }
  }

  /** The first due job is fresh and first in order, or it is a retry whose removal keeps the order. */
  lemma {:induction false} AscendsWithout(queue: seq<Job>, i: nat, lo: nat, hi: nat)
    requires Ascends(queue, lo, hi) && i < |queue|
    requires forall k :: 0 <= k < i ==> queue[k].nextAt > 0.0
    ensures queue[i].attempt == 0 ==> lo <= queue[i].id && Ascends(Without(queue, i), queue[i].id + 1, hi)
    ensures queue[i].attempt != 0 ==> Ascends(Without(queue, i), lo, hi)
  {
    if i == 0 {
      assert Without(queue, 0) == queue[1..];
    } else {
      assert queue[0].nextAt > 0.0;
      AscendsWithout(queue[1..], i - 1, lo, hi);
      assert Without(queue, i)[1..] == Without(queue[1..], i - 1);
    }
  }

  lemma {:induction false} EnqueueOrder(cfg: Config, s: State, tenant: string, ts: real)
    requires cfg.maxQueue > 0 && OrderOk(s)
    ensures OrderOk(Enqueued(cfg, s, tenant, ts))
  {
    var lo := if FreshInFlight(s) then s.inFlight.value.id + 1 else FirstsReach(s.firsts);
    var kept := if Overflows(cfg, s) then s.queue[1..] else s.queue;
    if Overflows(cfg, s) && s.queue[0].attempt == 0 {
      AscendsLower(kept, s.queue[0].id + 1, lo, s.accepted);
    }
    AscendsSnoc(kept, lo, s.accepted, Job(s.accepted, tenant, ts, 0, 0.0));
  }

  lemma {:induction false} TakeOrder(s: State, now: real)
    requires s.inFlight.None? && s.clock <= now && OrderOk(s)
    ensures OrderOk(Taken(s, now))
  {
    var i := FirstDue(s.queue, now);
    if i < |s.queue| {
      AscendsWithout(s.queue, i, FirstsReach(s.firsts), s.accepted);
    }
  }

  lemma {:induction false} ProcessOrder(cfg: Config, s: State, meets: Meets, now: real)
    requires s.inFlight.Some? && s.clock <= now && OrderOk(s)
    ensures OrderOk(Processed(cfg, s, meets, now))
  {
    var t := Processed(cfg, s, meets, now);
    var lo, reach := if FreshInFlight(s) then s.inFlight.value.id + 1 else FirstsReach(s.firsts), FirstsReach(t.firsts);
    AscendsLower(s.queue, lo, reach, s.accepted);
    if t.queue != s.queue {
      AscendsSnoc(s.queue, reach, s.accepted, t.queue[|s.queue|]);
    }
  }

  lemma OrderStep(cfg: Config, s: State, a: Action)
    requires cfg.maxQueue > 0 && Enabled(s, a) && OrderOk(s)
    ensures OrderOk(Next(cfg, s, a))
  {
    match a
    case Enqueue(tenant, ts) => EnqueueOrder(cfg, s, tenant, ts);
    case Take(now) => TakeOrder(s, now);
    case Process(meets, now) => ProcessOrder(cfg, s, meets, now);
  }

  // ---------------------------------------------------------------- what the delivery log is told

  /** The rows about one job, in the order they were recorded. */
  function About(records: seq<D.Delivery>, id: nat): seq<D.Delivery> {
    if records == [] then []
    else
      var n := |records| - 1;
      if records[n].event == id then About(records[..n], id) + [records[n]] else About(records[..n], id)
  }

  lemma AboutSnoc(records: seq<D.Delivery>, r: D.Delivery, id: nat)
    ensures About(records + [r], id) == if r.event == id then About(records, id) + [r] else About(records, id)
  {
    assert (records + [r])[..|records|] == records;
  }

  /** The status and attempt number that the one row about a settled job carries, after `n` sends. */
  predicate Tells(r: D.Delivery, fate: Fate, n: nat) {
    match fate
    case Delivered => r.status == D.Delivered && r.attempt == n
    case FailedForGood => r.status == D.Failed && r.attempt == n
    case Unsigned => r.status == D.Failed && r.attempt == n + 1
    case DroppedOnOverflow => r.status == D.Dropped && r.attempt == n
    case Discarded => false
  }

  /** A settled job has exactly one row, telling its fate; a job still live, or discarded, has none. */
  ghost predicate RecordOk(s: State, id: nat) {
    var rows := About(s.records, id);
    if id in s.fate && s.fate[id] != Discarded then |rows| == 1 && Tells(rows[0], s.fate[id], |SendsOf(s, id)|)
    else rows == []
  }

  ghost predicate RecordsOk(s: State) {
    forall id: nat :: RecordOk(s, id)
  }

  lemma {:induction false} EnqueueRecord(cfg: Config, s: State, tenant: string, ts: real, id: nat)
    requires cfg.maxQueue > 0 && OnePlaceEach(s) && SendsOk(cfg, s) && RecordsOk(s)
    ensures RecordOk(Enqueued(cfg, s, tenant, ts), id)
  {
    assert RecordOk(s, id);
    if Overflows(cfg, s) {
      var oldest := s.queue[0];
      OthersUntouched(s, oldest);
      assert LiveJobOk(cfg, s, oldest);
      AboutSnoc(s.records, RowFor(oldest, oldest.attempt, D.Dropped), id);
    }
  }

  lemma {:induction false} ProcessAbout(cfg: Config, s: State, meets: Meets, now: real, id: nat)
    requires s.inFlight.Some?
    ensures var job := s.inFlight.value;
            About(Processed(cfg, s, meets, now).records, id)
            == About(s.records, id) + if id == job.id then Rows(cfg, job, meets) else []
  {
    var rows := Rows(cfg, s.inFlight.value, meets);
    ProcessedTables(cfg, s, meets, now);
    if rows != [] {
      AboutSnoc(s.records, rows[0], id);
    } else {
      assert s.records + [] == s.records;
    }
  }

  lemma {:induction false} ProcessOther(cfg: Config, s: State, meets: Meets, now: real, id: nat)
    requires s.inFlight.Some? && id != s.inFlight.value.id
    ensures var t := Processed(cfg, s, meets, now);
            && (id in t.fate <==> id in s.fate) && (id in s.fate ==> t.fate[id] == s.fate[id])
            && SendsOf(t, id) == SendsOf(s, id)
  {
  }

  lemma {:induction false} ProcessOwn(cfg: Config, s: State, meets: Meets, now: real)
    requires s.inFlight.Some? && s.inFlight.value.id !in s.fate
             && |SendsOf(s, s.inFlight.value.id)| == s.inFlight.value.attempt
    ensures var t, job := Processed(cfg, s, meets, now), s.inFlight.value;
            var rows := Rows(cfg, job, meets);
            if job.id in t.fate && t.fate[job.id] != Discarded
            then |rows| == 1 && Tells(rows[0], t.fate[job.id], |SendsOf(t, job.id)|)
            else rows == []
  {
  }

  lemma {:induction false} ProcessRecord(cfg: Config, s: State, meets: Meets, now: real, id: nat)
    requires s.inFlight.Some? && OnePlaceEach(s) && SendsOk(cfg, s) && RecordsOk(s)
    ensures RecordOk(Processed(cfg, s, meets, now), id)
  {
    var job := s.inFlight.value;
    assert RecordOk(s, id);
    ProcessAbout(cfg, s, meets, now, id);
    if id == job.id {
      assert LiveJobOk(cfg, s, job) && Places(s, id) <= 1;
      ProcessOwn(cfg, s, meets, now);
    } else {
      ProcessOther(cfg, s, meets, now, id);
    }
  }

  lemma RecordsStep(cfg: Config, s: State, a: Action)
    requires cfg.maxQueue > 0 && Enabled(s, a) && OnePlaceEach(s) && SendsOk(cfg, s) && RecordsOk(s)
    ensures RecordsOk(Next(cfg, s, a))
  {
    forall id: nat ensures RecordOk(Next(cfg, s, a), id) {
      assert RecordOk(s, id);
      match a
      case Enqueue(tenant, ts) => EnqueueRecord(cfg, s, tenant, ts, id);
      case Take(now) =>
      case Process(meets, now) => ProcessRecord(cfg, s, meets, now, id);
    }
  }

  // ---------------------------------------------------------------- all runs

  function Load(s: State): nat {
    |s.queue| + if s.inFlight.Some? then 1 else 0
  }

  ghost predicate Inv(cfg: Config, s: State) {
    OnePlaceEach(s) && SendsOk(cfg, s) && OrderOk(s) && RecordsOk(s) && Load(s) <= cfg.maxQueue + 1
  }

  lemma InitInv(cfg: Config)
    ensures Inv(cfg, INIT)
  {
  }

  lemma InvStep(cfg: Config, s: State, a: Action)
    requires cfg.maxQueue > 0 && Enabled(s, a) && Inv(cfg, s)
    ensures Inv(cfg, Next(cfg, s, a))
  {
    var t := Next(cfg, s, a);
    forall id: nat ensures Places(t, id) == if id < t.accepted then 1 else 0 {
      PlacesStep(cfg, s, a, id);
    }
    SendsStep(cfg, s, a);
    OrderStep(cfg, s, a);
    RecordsStep(cfg, s, a);
    LoadStep(cfg, s, a);
  }

  lemma LoadStep(cfg: Config, s: State, a: Action)
    requires cfg.maxQueue > 0 && Enabled(s, a) && Load(s) <= cfg.maxQueue + 1
    ensures Load(Next(cfg, s, a)) <= cfg.maxQueue + 1
  {
  }

  /**
   In every state of every run: each accepted job is in exactly one place; it was sent at most
   max(1, maxRetries) times, exactly that often when it failed for good, with the backoff delay
   between sends; first sends happened in the order of acceptance; the delivery log was told of each
   settled job exactly once, with its fate and attempt number; and queue and in-flight job together
   never exceed the bound plus one.
   */
  lemma {:induction false} RunKeepsInv(cfg: Config, s: State, acts: seq<Action>)
    requires cfg.maxQueue > 0 && Inv(cfg, s) && Legal(cfg, s, acts)
    ensures Inv(cfg, Run(cfg, s, acts))
    decreases |acts|
  {
    if acts != [] {
      InvStep(cfg, s, acts[0]);
      RunKeepsInv(cfg, Next(cfg, s, acts[0]), acts[1..]);
    }
  }

  // ---------------------------------------------------------------- the queue bound itself is not kept

  lemma {:induction false} FillQueue(cfg: Config, s: State, n: nat) returns (acts: seq<Action>)
    requires cfg.maxQueue > 0 && |s.queue| + n <= cfg.maxQueue
    ensures Legal(cfg, s, acts)
    ensures var t := Run(cfg, s, acts);
            |t.queue| == |s.queue| + n && t.inFlight == s.inFlight && t.clock == s.clock
    decreases n
  {
    if n == 0 {
      acts := [];
    } else {
      var a := Enqueue("t", 0.0);
      var rest := FillQueue(cfg, Next(cfg, s, a), n - 1);
      acts := [a] + rest;
      assert acts[1..] == rest;
    }
  }

  lemma {:induction false} RunConcat(cfg: Config, s: State, a: seq<Action>, b: seq<Action>)
    requires cfg.maxQueue > 0 && Legal(cfg, s, a) && Legal(cfg, Run(cfg, s, a), b)
    ensures Legal(cfg, s, a + b) && Run(cfg, s, a + b) == Run(cfg, Run(cfg, s, a), b)
    decreases |a|
  {
    if a == [] {
      assert a + b == b;
    } else {
      assert (a + b)[1..] == a[1..] + b;
      RunConcat(cfg, Next(cfg, s, a[0]), a[1..], b);
    }
  }

  lemma OneStep(cfg: Config, s: State, a: Action)
    requires cfg.maxQueue > 0 && Enabled(s, a)
    ensures Legal(cfg, s, [a]) && Run(cfg, s, [a]) == Next(cfg, s, a)
  {
    assert [a][1..] == [];
    assert Run(cfg, Next(cfg, s, a), []) == Next(cfg, s, a);
  }

  /** From a queue within its bound, one step exceeds the bound exactly when it is a retry that meets a full queue. */
  lemma OverfillStepExactly(cfg: Config, s: State, a: Action)
    requires cfg.maxQueue > 0 && Enabled(s, a) && |s.queue| <= cfg.maxQueue
    ensures |Next(cfg, s, a).queue| > cfg.maxQueue
       <==> a.Process? && Retries(cfg, s.inFlight.value, a.meets) && |s.queue| == cfg.maxQueue
  {
    if a.Process? {
      ProcessedTables(cfg, s, a.meets, a.now);
    }
  }

  /** Without retries no run exceeds the bound. */
  lemma {:induction false} NoRetryNoOverfill(cfg: Config, s: State, acts: seq<Action>)
    requires cfg.maxQueue > 0 && cfg.maxRetries <= 1 && |s.queue| <= cfg.maxQueue && Legal(cfg, s, acts)
    ensures |Run(cfg, s, acts).queue| <= cfg.maxQueue
    decreases |acts|
  {
    if acts != [] {
      OverfillStepExactly(cfg, s, acts[0]);
      NoRetryNoOverfill(cfg, Next(cfg, s, acts[0]), acts[1..]);
    }
  }

  ghost predicate CanOverfill(cfg: Config)
    requires cfg.maxQueue > 0
  {
    exists acts :: Legal(cfg, INIT, acts) && |Run(cfg, INIT, acts).queue| > cfg.maxQueue
  }

  /** Some run exceeds the queue's bound exactly when the settings allow a retry. */
  lemma OverfillExactly(cfg: Config)
    requires cfg.maxQueue > 0
    ensures CanOverfill(cfg) <==> cfg.maxRetries > 1
  {
    if cfg.maxRetries > 1 {
      RetryOverfillsQueue(cfg);
    } else {
      forall acts | Legal(cfg, INIT, acts) ensures |Run(cfg, INIT, acts).queue| <= cfg.maxQueue {
        NoRetryNoOverfill(cfg, INIT, acts);
      }
    }
  }

  /** A retry is appended without the bound check, so the queue itself can hold one job more than its bound. */
  lemma RetryOverfillsQueue(cfg: Config)
    requires cfg.maxQueue > 0 && cfg.maxRetries > 1
    ensures exists acts :: Legal(cfg, INIT, acts) && |Run(cfg, INIT, acts).queue| == cfg.maxQueue + 1
  {
    var a, b, c := Enqueue("t", 0.0), Take(0.0), Process(Sent(500, ""), 0.0);
    OneStep(cfg, INIT, a);
    var s1 := Next(cfg, INIT, a);
    assert s1.queue == [Job(0, "t", 0.0, 0, 0.0)];
    OneStep(cfg, s1, b);
    var s2 := Next(cfg, s1, b);
    assert s2.queue == [] && s2.inFlight == Some(Job(0, "t", 0.0, 0, 0.0));
    var fill := FillQueue(cfg, s2, cfg.maxQueue);
    var s3 := Run(cfg, s2, fill);
    OneStep(cfg, s3, c);
    RunConcat(cfg, s2, fill, [c]);
    RunConcat(cfg, s1, [b], fill + [c]);
    RunConcat(cfg, INIT, [a], [b] + (fill + [c]));
  }
}
