/**
 How a job's outcome and its delivery row follow from what its sends met, over every run from the
 empty worker.  What a job met and what it was enqueued with are read off the run's actions.
 */
module ForwarderOutcomes {
  import opened Options
  import opened Forwarders
  import opened ForwarderRuns
  import opened Sorting
  import D = DeliveryLogs

  /** What the processing of job `id` meets in this step. */
  function MetNow(s: State, a: Action, id: nat): seq<Meets>
    requires Enabled(s, a)
  {
    if a.Process? && s.inFlight.value.id == id then [a.meets] else []
  }

  /** What the processing of job `id` met in the run, one entry for each time it was processed. */
  ghost function Met(cfg: Config, s: State, acts: seq<Action>, id: nat): seq<Meets>
    requires cfg.maxQueue > 0 && Legal(cfg, s, acts)
    decreases |acts|
  {
    if acts == [] then [] else MetNow(s, acts[0], id) + Met(cfg, Next(cfg, s, acts[0]), acts[1..], id)
  }

  /** What a job is enqueued with. */
  datatype Order = Order(tenant: string, ts: real)

  function GivenBy(a: Action): seq<Order> {
    if a.Enqueue? then [Order(a.tenant, a.ts)] else []
  }

  /** What the jobs were enqueued with: job `i` is the one accepted as number `i`. */
  function Given(acts: seq<Action>): seq<Order> {
    if acts == [] then [] else GivenBy(acts[0]) + Given(acts[1..])
  }

  // ---------------------------------------------------------------- what a job met

  predicate Sent2xx(m: Meets) {
    m.Sent? && 200 <= m.code <= 299
  }

  predicate SentOther(m: Meets) {
    m.Sent? && !(200 <= m.code <= 299)
  }

  /** Every processing was a send that did not meet a code in 200..299. */
  ghost predicate OnlyFailures(ms: seq<Meets>) {
    forall i :: 0 <= i < |ms| ==> SentOther(ms[i])
  }

  /** The number of sends a job gets. */
  function Most(cfg: Config): nat {
    if cfg.maxRetries > 1 then cfg.maxRetries else 1
  }

  /** The job was processed, and only failed sends came before the last time. */
  ghost predicate Ended(ms: seq<Meets>) {
    ms != [] && OnlyFailures(ms[..|ms| - 1])
  }

  /** Which outcome, if any, job `id` has after meeting `ms`. */
  ghost predicate Follows(cfg: Config, s: State, id: nat, ms: seq<Meets>) {
    && |ms| <= Most(cfg)
    && (id !in s.fate ==> OnlyFailures(ms) && |ms| < Most(cfg) && |ms| == |SendsOf(s, id)|)
    && (id in s.fate ==>
          match s.fate[id]
          case Delivered => Ended(ms) && Sent2xx(ms[|ms| - 1]) && |ms| == |SendsOf(s, id)|
          case FailedForGood => OnlyFailures(ms) && |ms| == Most(cfg) && |ms| == |SendsOf(s, id)|
          case Unsigned => Ended(ms) && ms[|ms| - 1].NoSecret? && |ms| == |SendsOf(s, id)| + 1
          case Discarded => Ended(ms) && ms[|ms| - 1].NoDestination?
          case DroppedOnOverflow => OnlyFailures(ms) && |ms| < Most(cfg) && |ms| == |SendsOf(s, id)|)
  }

  lemma SnocFailures(ms: seq<Meets>, m: Meets)
    requires OnlyFailures(ms)
    ensures OnlyFailures(ms + [m]) <==> SentOther(m)
    ensures (ms + [m])[..|ms|] == ms && (ms + [m])[|ms|] == m
  {
    assert (ms + [m])[|ms|] == m;
  }

  /** What is known of a job in flight: it was sent as often as it was processed, and has sends left. */
  lemma LiveMet(cfg: Config, s: State, ms: seq<Meets>)
    requires s.inFlight.Some? && OnePlaceEach(s) && SendsOk(cfg, s) && Follows(cfg, s, s.inFlight.value.id, ms)
    ensures var job := s.inFlight.value;
            && job.id !in s.fate && OnlyFailures(ms) && |ms| == job.attempt == |SendsOf(s, job.id)| < Most(cfg)
  {
    assert LiveJobOk(cfg, s, s.inFlight.value) && Places(s, s.inFlight.value.id) <= 1;
  }

  lemma {:induction false} OwnSent(cfg: Config, s: State, meets: Meets, now: real, ms: seq<Meets>)
    requires s.inFlight.Some? && meets.Sent? && OnlyFailures(ms)
    requires var job := s.inFlight.value;
             job.id !in s.fate && |ms| == job.attempt == |SendsOf(s, job.id)| < Most(cfg)
    ensures Follows(cfg, Processed(cfg, s, meets, now), s.inFlight.value.id, ms + [meets])
  {
    SnocFailures(ms, meets);
  }

  lemma {:induction false} OwnUnsent(cfg: Config, s: State, meets: Meets, now: real, ms: seq<Meets>)
    requires s.inFlight.Some? && !meets.Sent? && OnlyFailures(ms)
    requires var job := s.inFlight.value;
             job.id !in s.fate && |ms| == job.attempt == |SendsOf(s, job.id)| < Most(cfg)
    ensures Follows(cfg, Processed(cfg, s, meets, now), s.inFlight.value.id, ms + [meets])
  {
    SnocFailures(ms, meets);
  }

  /** Processing the job gives it its outcome, or another try. */
  lemma {:induction false} OwnOutcome(cfg: Config, s: State, meets: Meets, now: real, ms: seq<Meets>)
    requires s.inFlight.Some? && OnePlaceEach(s) && SendsOk(cfg, s)
    requires Follows(cfg, s, s.inFlight.value.id, ms)
    ensures Follows(cfg, Processed(cfg, s, meets, now), s.inFlight.value.id, ms + [meets])
  {
    LiveMet(cfg, s, ms);
    if meets.Sent? {
      OwnSent(cfg, s, meets, now, ms);
    } else {
      OwnUnsent(cfg, s, meets, now, ms);
    }
  }

  lemma {:induction false} EnqueueOutcome(cfg: Config, s: State, tenant: string, ts: real, id: nat, ms: seq<Meets>)
    requires cfg.maxQueue > 0 && OnePlaceEach(s) && Follows(cfg, s, id, ms)
    ensures Follows(cfg, Enqueued(cfg, s, tenant, ts), id, ms)
  {
    if Overflows(cfg, s) {
      OthersUntouched(s, s.queue[0]);
    }
  }

  lemma OutcomeStep(cfg: Config, s: State, a: Action, id: nat, ms: seq<Meets>)
    requires cfg.maxQueue > 0 && Enabled(s, a) && Inv(cfg, s) && Follows(cfg, s, id, ms)
    ensures Follows(cfg, Next(cfg, s, a), id, ms + MetNow(s, a, id))
  {
    assert ms + [] == ms;
    match a
    case Enqueue(tenant, ts) => EnqueueOutcome(cfg, s, tenant, ts, id, ms);
    case Take(now) =>
    case Process(meets, now) =>
      if s.inFlight.value.id == id {
        OwnOutcome(cfg, s, meets, now, ms);
      } else {
        ProcessOther(cfg, s, meets, now, id);
      }
  }

  lemma {:induction false} OutcomeRun(cfg: Config, s: State, acts: seq<Action>, id: nat, ms: seq<Meets>)
    requires cfg.maxQueue > 0 && Legal(cfg, s, acts) && Inv(cfg, s) && Follows(cfg, s, id, ms)
    ensures Follows(cfg, Run(cfg, s, acts), id, ms + Met(cfg, s, acts, id))
    decreases |acts|
  {
    if acts == [] {
      assert ms + [] == ms;
    } else {
      var now, rest := MetNow(s, acts[0], id), Met(cfg, Next(cfg, s, acts[0]), acts[1..], id);
      OutcomeStep(cfg, s, acts[0], id, ms);
      InvStep(cfg, s, acts[0]);
      OutcomeRun(cfg, Next(cfg, s, acts[0]), acts[1..], id, ms + now);
      Regroup(ms, now, rest);
    }
  }

  // ---------------------------------------------------------------- whose job it is

  /** The job is the one accepted under its number. */
  ghost predicate Genuine(j: Job, given: seq<Order>) {
    j.id < |given| && j.tenant == given[j.id].tenant && j.ts == given[j.id].ts
  }

  ghost predicate RowGenuine(r: D.Delivery, given: seq<Order>) {
    r.event < |given| && r.tenant == given[r.event].tenant && r.ts == given[r.event].ts
  }

  ghost predicate AllGenuine(s: State, given: seq<Order>) {
    && |given| == s.accepted
    && (forall i :: 0 <= i < |s.queue| ==> Genuine(s.queue[i], given))
    && (s.inFlight.Some? ==> Genuine(s.inFlight.value, given))
    && (forall i :: 0 <= i < |s.records| ==> RowGenuine(s.records[i], given))
  }

  lemma EnqueueGenuine(cfg: Config, s: State, a: Action, given: seq<Order>)
    requires cfg.maxQueue > 0 && a.Enqueue? && AllGenuine(s, given)
    ensures AllGenuine(Next(cfg, s, a), given + GivenBy(a))
  {
    var more := given + GivenBy(a);
    assert forall i :: 0 <= i < |given| ==> more[i] == given[i];
    assert more[|given|] == Order(a.tenant, a.ts);
    forall i | 0 <= i < |s.queue| ensures Genuine(s.queue[i], more) {
      assert Genuine(s.queue[i], given);
    }
  }

  lemma {:induction false} ProcessGenuine(cfg: Config, s: State, meets: Meets, now: real, given: seq<Order>)
    requires s.inFlight.Some? && AllGenuine(s, given)
    ensures AllGenuine(Processed(cfg, s, meets, now), given)
  {
    ProcessedTables(cfg, s, meets, now);
    assert Genuine(s.inFlight.value, given);
    forall j | j in Requeued(cfg, s.inFlight.value, meets, now) ensures Genuine(j, given) {
    }
    forall r | r in Rows(cfg, s.inFlight.value, meets) ensures RowGenuine(r, given) {
    }
  }

  lemma GenuineStep(cfg: Config, s: State, a: Action, given: seq<Order>)
    requires cfg.maxQueue > 0 && Enabled(s, a) && AllGenuine(s, given)
    ensures AllGenuine(Next(cfg, s, a), given + GivenBy(a))
  {
    assert given + [] == given;
    match a
    case Enqueue(_, _) => EnqueueGenuine(cfg, s, a, given);
    case Take(now) =>
    case Process(meets, now) => ProcessGenuine(cfg, s, meets, now, given);
  }

  lemma {:induction false} GenuineRun(cfg: Config, s: State, acts: seq<Action>, given: seq<Order>)
    requires cfg.maxQueue > 0 && Legal(cfg, s, acts) && AllGenuine(s, given)
    ensures AllGenuine(Run(cfg, s, acts), given + Given(acts))
    decreases |acts|
  {
    if acts == [] {
      assert given + [] == given;
    } else {
      GenuineStep(cfg, s, acts[0], given);
      GenuineRun(cfg, Next(cfg, s, acts[0]), acts[1..], given + GivenBy(acts[0]));
      Regroup(given, GivenBy(acts[0]), Given(acts[1..]));
    }
  }

  // ---------------------------------------------------------------- the main results

  lemma FollowsFromStart(cfg: Config, acts: seq<Action>, id: nat)
    requires cfg.maxQueue > 0 && Legal(cfg, INIT, acts)
    ensures Follows(cfg, Run(cfg, INIT, acts), id, Met(cfg, INIT, acts, id))
  {
    InitInv(cfg);
    OutcomeRun(cfg, INIT, acts, id, []);
    assert [] + Met(cfg, INIT, acts, id) == Met(cfg, INIT, acts, id);
  }

  lemma SettledMeans(cfg: Config, s: State, id: nat, ms: seq<Meets>)
    requires Follows(cfg, s, id, ms)
    ensures id in s.fate && s.fate[id] == Delivered <==> ms != [] && Sent2xx(ms[|ms| - 1])
    ensures id in s.fate && s.fate[id] == FailedForGood <==> |ms| == Most(cfg) && OnlyFailures(ms)
  {
  }

  lemma UnsentMeans(cfg: Config, s: State, id: nat, ms: seq<Meets>)
    requires Follows(cfg, s, id, ms)
    ensures id in s.fate && s.fate[id] == Unsigned <==> ms != [] && ms[|ms| - 1].NoSecret?
    ensures id in s.fate && s.fate[id] == Discarded <==> ms != [] && ms[|ms| - 1].NoDestination?
    ensures ms != [] ==> OnlyFailures(ms[..|ms| - 1])
  {
  }

  /**
   In every run a job is delivered exactly when its last processing was a send that met a code in
   200..299, given up exactly when it was sent max(1, max_retries) times and none met such a code,
   left unsigned or discarded exactly when its last processing found no secret or no destination;
   before its last processing every send failed.
   */
  lemma OutcomesFollow(cfg: Config, acts: seq<Action>, id: nat)
    requires cfg.maxQueue > 0 && Legal(cfg, INIT, acts)
    ensures var t, ms := Run(cfg, INIT, acts), Met(cfg, INIT, acts, id);
            && |ms| <= Most(cfg) && (ms != [] ==> OnlyFailures(ms[..|ms| - 1]))
            && (id in t.fate && t.fate[id] == Delivered <==> ms != [] && Sent2xx(ms[|ms| - 1]))
            && (id in t.fate && t.fate[id] == FailedForGood <==> |ms| == Most(cfg) && OnlyFailures(ms))
            && (id in t.fate && t.fate[id] == Unsigned <==> ms != [] && ms[|ms| - 1].NoSecret?)
            && (id in t.fate && t.fate[id] == Discarded <==> ms != [] && ms[|ms| - 1].NoDestination?)
  {
    FollowsFromStart(cfg, acts, id);
    SettledMeans(cfg, Run(cfg, INIT, acts), id, Met(cfg, INIT, acts, id));
    UnsentMeans(cfg, Run(cfg, INIT, acts), id, Met(cfg, INIT, acts, id));
  }

  /** The one row about a job that is not live, from what the job met; `dropped` when it was pushed out of the queue. */
  ghost predicate TellsOutcome(r: D.Delivery, id: nat, given: Order, ms: seq<Meets>, dropped: bool) {
    && r.event == id && r.tenant == given.tenant && r.ts == given.ts && r.attempt == |ms|
    && r.status == if dropped then D.Dropped else if ms != [] && Sent2xx(ms[|ms| - 1]) then D.Delivered else D.Failed
  }

  lemma {:induction false} AboutMember(records: seq<D.Delivery>, id: nat, r: D.Delivery)
    requires r in About(records, id)
    ensures r in records && r.event == id
  {
    var n := |records| - 1;
    if r in About(records[..n], id) {
      AboutMember(records[..n], id, r);
    }
  }

  /** What a row that tells the fate says about what the job met. */
  lemma RowTells(cfg: Config, s: State, id: nat, ms: seq<Meets>, r: D.Delivery)
    requires Follows(cfg, s, id, ms) && id in s.fate && s.fate[id] != Discarded
    requires Tells(r, s.fate[id], |SendsOf(s, id)|)
    ensures r.attempt == |ms|
    ensures r.status == if s.fate[id] == DroppedOnOverflow then D.Dropped
                        else if ms != [] && Sent2xx(ms[|ms| - 1]) then D.Delivered else D.Failed
  {
  }

  lemma AboutGenuine(s: State, given: seq<Order>, id: nat)
    requires AllGenuine(s, given) && About(s.records, id) != []
    ensures var r := About(s.records, id)[0]; r.event == id && RowGenuine(r, given)
  {
    var r := About(s.records, id)[0];
    AboutMember(s.records, id, r);
    var i :| 0 <= i < |s.records| && s.records[i] == r;
    assert RowGenuine(s.records[i], given);
  }

  lemma GenuineFromStart(cfg: Config, acts: seq<Action>)
    requires cfg.maxQueue > 0 && Legal(cfg, INIT, acts)
    ensures AllGenuine(Run(cfg, INIT, acts), Given(acts))
  {
    GenuineRun(cfg, INIT, acts, []);
    assert [] + Given(acts) == Given(acts);
  }

  lemma OneRow(cfg: Config, s: State, id: nat, ms: seq<Meets>, given: seq<Order>)
    requires Follows(cfg, s, id, ms) && AllGenuine(s, given) && RecordOk(s, id)
    ensures var rows := About(s.records, id);
            if id in s.fate && (ms == [] || !ms[|ms| - 1].NoDestination?)
            then id < |given| && |rows| == 1
                 && TellsOutcome(rows[0], id, given[id], ms, s.fate[id] == DroppedOnOverflow)
            else rows == []
  {
    UnsentMeans(cfg, s, id, ms);
    if About(s.records, id) != [] {
      AboutGenuine(s, given, id);
      RowTells(cfg, s, id, ms, About(s.records, id)[0]);
    }
  }

  /**
   The delivery log is told of a job exactly once when it is settled, and not at all while it is live
   or when it was discarded: under the tenant and event time it was enqueued with, with the number of
   times it was processed, as delivered when its last send met a code in 200..299, as dropped when
   it was pushed out of the queue, and else as failed.
   */
  lemma RowsFollow(cfg: Config, acts: seq<Action>, id: nat)
    requires cfg.maxQueue > 0 && Legal(cfg, INIT, acts)
    ensures var t, ms := Run(cfg, INIT, acts), Met(cfg, INIT, acts, id);
            var rows := About(t.records, id);
            if id in t.fate && (ms == [] || !ms[|ms| - 1].NoDestination?)
            then id < |Given(acts)| && |rows| == 1
                 && TellsOutcome(rows[0], id, Given(acts)[id], ms, t.fate[id] == DroppedOnOverflow)
            else rows == []
  {
    InitInv(cfg);
    RunKeepsInv(cfg, INIT, acts);
    FollowsFromStart(cfg, acts, id);
    GenuineFromStart(cfg, acts);
    OneRow(cfg, Run(cfg, INIT, acts), id, Met(cfg, INIT, acts, id), Given(acts));
  }
}
