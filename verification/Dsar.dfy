/**
 Data-subject requests: the same log-and-cache design as incidents with a loader of its own, which
 keeps the old status when an event row names none.
 */
module Dsar {
  import opened Options
  import opened OrderedDicts
  import opened TenantStores
  import opened Texts

  datatype Event = Event(at: real, actor: string, action: string, note: string, fromStatus: string, toStatus: string)

  datatype Request = Request(
    id: string,
    tenant: string,
    email: string,
    kind: string,
    status: string,
    note: string,
    createdAt: real,
    dueAt: real,
    updatedAt: real,
    closedAt: real,
    history: seq<Event>)

  datatype Row =
    | Base(request: Request)
    | EventRow(tenant: string, id: string, event: Event)
    | Tombstone(tenant: string, id: string)

  type Store = TenantStore<Request>

  datatype Result = Ok(request: Request) | Invalid | NotFound

  datatype State = State(log: seq<Row>, cache: Option<Store>)

  const KINDS := ["access", "erasure", "portability", "rectification"]
  const STATUSES := ["received", "in_progress", "completed", "rejected"]

  predicate Terminal(status: string) {
    status == "completed" || status == "rejected"
  }

  // ---------------------------------------------------------------- the loader

  function FromBase(r: Request): Request {
    r.(tenant := Or(r.tenant, "default"),
       kind := Or(r.kind, "access"),
       status := Or(r.status, "received"),
       updatedAt := if r.updatedAt == 0.0 then r.createdAt else r.updatedAt,
       history := [])
  }

  function Patched(r: Request, event: Event, loadedAt: real): Request {
    var ev := event.(at := if event.at == 0.0 then loadedAt else event.at);
    var status := Or(ev.toStatus, r.status);
    r.(status := status, updatedAt := ev.at,
       closedAt := if Terminal(status) && r.closedAt == 0.0 then ev.at else r.closedAt,
       history := r.history + [ev])
  }

  function ApplyRow(store: Store, row: Row, loadedAt: real): Store {
    match row
    case Base(r) => if r.id == "" then store else SetIn(store, Or(r.tenant, "default"), r.id, FromBase(r))
    case EventRow(tenant, id, event) =>
      var t := Or(tenant, "default");
      (match Find(store, t, id)
       case None => store
       case Some(r) => if id == "" then store else SetIn(store, t, id, Patched(r, event, loadedAt)))
    case Tombstone(tenant, id) =>
      var t := Or(tenant, "default");
      if t in store && id != "" then store[t := Remove(store[t], id)] else store
  }

  function Replay(log: seq<Row>, loadedAt: real): Store {
    if log == [] then map[] else ApplyRow(Replay(log[..|log| - 1], loadedAt), log[|log| - 1], loadedAt)
  }

  // ---------------------------------------------------------------- the commands

  datatype Filing = Filing(email: string, kind: string, note: string, actor: string, dueDays: int)

  /** `emailOk` is the address pattern. */
  predicate FilingOk(emailOk: string -> bool, f: Filing) {
    emailOk(Strip(f.email)) && Lower(Strip(f.kind)) in KINDS && 0 < f.dueDays <= 365
  }

  function Filed(tenant: string, id: string, f: Filing, now: real): Request {
    Request(id, tenant, Lower(Strip(f.email)), Lower(Strip(f.kind)), "received", Cut(Strip(f.note), 2000),
            now, now + f.dueDays as real * 86400.0, now, 0.0, [])
  }

  function Intake(f: Filing, now: real): Event {
    Event(now, Or(f.actor, "system"), "filed", Cut(Strip(f.note), 2000), "", "received")
  }

  datatype Advance = Advance(toStatus: string, note: string, actor: string)

  function Target(a: Advance): string {
    Lower(Strip(a.toStatus))
  }

  predicate Permits(r: Request, a: Advance) {
    !Terminal(r.status) && Target(a) != r.status && (Target(a) == "rejected" ==> Cut(Strip(a.note), 2000) != "")
  }

  function EventOf(r: Request, a: Advance, now: real): Event {
    Event(now, Or(a.actor, "system"), "advanced", Cut(Strip(a.note), 2000), r.status, Target(a))
  }

  function Advanced(r: Request, a: Advance, now: real): Request {
    r.(status := Target(a), updatedAt := now,
       closedAt := if Terminal(Target(a)) && r.closedAt == 0.0 then now else r.closedAt,
       history := r.history + [EventOf(r, a, now)])
  }

  function Loaded(s: State, now: real): Store {
    if s.cache.Some? then s.cache.value else Replay(s.log, now)
  }

  function AfterFiling(emailOk: string -> bool, s: State, tenant: string, id: string, f: Filing, now: real)
    : (State, Result)
  {
    if !FilingOk(emailOk, f) then (s, Invalid)
    else
      var r, ev := Filed(tenant, id, f, now), Intake(f, now);
      var log := s.log + [Base(r), EventRow(tenant, id, ev)];
      var filed := r.(history := [ev]);
      (State(log, Some(SetIn(Loaded(State(log, s.cache), now), tenant, id, filed))), Ok(filed))
  }

  function AfterAdvance(s: State, tenant: string, id: string, a: Advance, now: real): (State, Result) {
    if Target(a) !in STATUSES then (s, Invalid)
    else
      var store := Loaded(s, now);
      match Find(store, tenant, id)
      case None => (s.(cache := Some(store)), NotFound)
      case Some(r) =>
        if !Permits(r, a) then (s.(cache := Some(store)), Invalid)
        else (State(s.log + [EventRow(tenant, id, EventOf(r, a, now))],
                    Some(SetIn(store, tenant, id, Advanced(r, a, now)))),
              Ok(Advanced(r, a, now)))
  }

  class RequestTracker {
    const emailOk: string -> bool
    var log: seq<Row>
    var cache: Option<Store>

    constructor (emailOk: string -> bool)
      ensures View() == State([], None) && this.emailOk == emailOk
    {
      this.emailOk, log, cache := emailOk, [], None;
    }

    ghost function View(): State
      reads this
    {
      State(log, cache)
    }

    method ResetCache()
      modifies this
      ensures View() == State(old(log), None)
    {
      cache := None;
    }

    /** `_load_locked`. */
    method Load(now: real) returns (store: Store)
      modifies this
      ensures store == Loaded(old(View()), now) && View() == State(old(log), Some(store))
    {
      if cache.Some? {
        return cache.value;
      }
      store := map[];
      var i := 0;
      while i < |log|
        invariant 0 <= i <= |log|
        invariant store == Replay(log[..i], now)
        invariant View() == old(View())
      {
        assert log[..i + 1][..i] == log[..i];
        store := ApplyRow(store, log[i], now);
        i := i + 1;
      }
      assert log[..i] == log;
      cache := Some(store);
    }

    method FileRequest(tenant: string, id: string, f: Filing, now: real) returns (r: Result)
      modifies this
      ensures (View(), r) == AfterFiling(emailOk, old(View()), tenant, id, f, now)
    {
      var email, kind := Strip(f.email), Lower(Strip(f.kind));
      if !emailOk(email) || kind !in KINDS || f.dueDays <= 0 || f.dueDays > 365 {
        return Invalid;
      }
      var note := Cut(Strip(f.note), 2000);
      var req := Request(id, tenant, Lower(email), kind, "received", note, now, now + f.dueDays as real * 86400.0, now,
                         0.0, []);
      var ev := Event(now, Or(f.actor, "system"), "filed", note, "", "received");
      assert FilingOk(emailOk, f) && req == Filed(tenant, id, f, now) && ev == Intake(f, now);
      var rows := [Base(req), EventRow(tenant, id, ev)];
      log := log + rows;
      var store := Load(now);
      req := req.(history := [ev]);
      cache := Some(SetIn(store, tenant, id, req));
      r := Ok(req);
    }

    method AdvanceRequest(tenant: string, id: string, a: Advance, now: real) returns (r: Result)
      modifies this
      ensures (View(), r) == AfterAdvance(old(View()), tenant, id, a, now)
    {
      var to, note := Lower(Strip(a.toStatus)), Cut(Strip(a.note), 2000);
      if to !in STATUSES {
        return Invalid;
      }
      var store := Load(now);
      var found := Find(store, tenant, id);
      if found.None? {
        return NotFound;
      }
      var req := found.value;
      if Terminal(req.status) || to == req.status || (to == "rejected" && note == "") {
        return Invalid;
      }
      var ev := Event(now, Or(a.actor, "system"), "advanced", note, req.status, to);
      log := log + [EventRow(tenant, id, ev)];
      var closedAt := if Terminal(to) && req.closedAt == 0.0 then now else req.closedAt;
      req := req.(status := to, updatedAt := now, closedAt := closedAt, history := req.history + [ev]);
      cache := Some(SetIn(store, tenant, id, req));
      r := Ok(req);
    }
  }

  // ---------------------------------------------------------------- legal requests

  /** Filed first, then advances that each start where the last one ended and never leave a terminal status. */
  predicate LegalHistory(h: seq<Event>) {
    && h != []
    && (if |h| == 1 then h[0].action == "filed" && h[0].toStatus == "received" && h[0].fromStatus == "" && h[0].at > 0.0
        else
          var before, e := h[|h| - 2], h[|h| - 1];
          && LegalHistory(h[..|h| - 1])
          && e.action == "advanced" && e.toStatus in STATUSES && e.toStatus != before.toStatus
          && e.fromStatus == before.toStatus && !Terminal(before.toStatus) && before.at <= e.at)
  }

  /** Every status change continues the previous one, and only the last event may be terminal. */
  lemma {:induction false} LegalMeans(h: seq<Event>)
    requires LegalHistory(h)
    ensures forall i :: 0 < i < |h| ==> h[i].fromStatus == h[i - 1].toStatus && h[i].toStatus != h[i - 1].toStatus
    ensures forall i :: 0 <= i < |h| - 1 ==> !Terminal(h[i].toStatus)
    ensures forall i :: 0 <= i < |h| ==> h[i].at > 0.0 && h[i].at <= h[|h| - 1].at
  {
    if |h| > 1 {
      var front := h[..|h| - 1];
      LegalMeans(front);
      assert forall i :: 0 <= i < |front| ==> front[i] == h[i];
    }
  }

  /**
   A request's status and times are those of its last event: it is closed exactly in a terminal
   status, at the time of that event, and it was due when filed.
   */
  ghost predicate Legal(r: Request, clock: real) {
    && LegalHistory(r.history)
    && var last := r.history[|r.history| - 1];
       && r.status == last.toStatus && r.updatedAt == last.at <= clock
       && r.closedAt == (if Terminal(r.status) then last.at else 0.0)
       && r.createdAt == r.history[0].at < r.dueAt <= r.createdAt + 365.0 * 86400.0
  }

  lemma {:induction false} AdvanceIsLegal(r: Request, a: Advance, clock: real, now: real)
    requires Legal(r, clock) && clock <= now && Target(a) in STATUSES && Permits(r, a)
    ensures Legal(Advanced(r, a, now), now)
  {
    var h := Advanced(r, a, now).history;
    assert h[..|h| - 1] == r.history;
  }

  lemma {:induction false} LoaderAgrees(r: Request, a: Advance, now: real, loadedAt: real)
    requires 0.0 < now && Target(a) in STATUSES && Permits(r, a)
    ensures Patched(r, EventOf(r, a, now), loadedAt) == Advanced(r, a, now)
  {
  }

  // ---------------------------------------------------------------- runs

  datatype Command =
    | File(tenant: string, id: string, filing: Filing)
    | Move(tenant: string, id: string, advance: Advance)
    | Read
    | Reset

  datatype Timed = Timed(command: Command, now: real)

  function Next(emailOk: string -> bool, s: State, t: Timed): State {
    match t.command
    case File(tenant, id, f) => AfterFiling(emailOk, s, tenant, id, f, t.now).0
    case Move(tenant, id, a) => AfterAdvance(s, tenant, id, a, t.now).0
    case Read => s.(cache := Some(Loaded(s, t.now)))
    case Reset => s.(cache := None)
  }

  function Run(emailOk: string -> bool, s: State, ts: seq<Timed>): State
    decreases |ts|
  {
    if ts == [] then s else Run(emailOk, Next(emailOk, s, ts[0]), ts[1..])
  }

  ghost predicate Proper(ts: seq<Timed>, clock: real)
    decreases |ts|
  {
    ts == [] || (
      && 0.0 < ts[0].now && clock <= ts[0].now
      && (ts[0].command.File? || ts[0].command.Move? ==> ts[0].command.tenant != "" && ts[0].command.id != "")
      && Proper(ts[1..], ts[0].now))
  }

  ghost predicate LogTimed(log: seq<Row>) {
    forall i :: 0 <= i < |log| && log[i].EventRow? ==> log[i].event.at != 0.0
  }

  ghost predicate AllLegal(store: Store, clock: real) {
    forall t, id :: Find(store, t, id).Some? ==> Legal(Find(store, t, id).value, clock)
  }

  ghost predicate Inv(s: State, clock: real) {
    && LogTimed(s.log)
    && (s.cache.Some? ==> s.cache.value == Replay(s.log, 0.0))
    && AllLegal(Replay(s.log, 0.0), clock)
  }

  lemma {:induction false} RowAnytime(store: Store, row: Row, a: real)
    requires row.EventRow? ==> row.event.at != 0.0
    ensures ApplyRow(store, row, a) == ApplyRow(store, row, 0.0)
  {
  }

  lemma {:induction false} ReplayAnytime(log: seq<Row>, a: real)
    requires LogTimed(log)
    ensures Replay(log, a) == Replay(log, 0.0)
  {
    if log != [] {
      var n := |log| - 1;
      assert forall i :: 0 <= i < n ==> log[..n][i] == log[i];
      ReplayAnytime(log[..n], a);
      RowAnytime(Replay(log[..n], 0.0), log[n], a);
    }
  }

  lemma {:induction false} ReplaySnoc(log: seq<Row>, row: Row, a: real)
    ensures Replay(log + [row], a) == ApplyRow(Replay(log, a), row, a)
  {
    assert (log + [row])[..|log|] == log;
  }

  lemma {:induction false} SetInLegal(store: Store, tenant: string, id: string, r: Request, clock: real, now: real)
    requires AllLegal(store, clock) && clock <= now && Legal(r, now)
    ensures AllLegal(SetIn(store, tenant, id, r), now)
  {
    forall t, k | Find(SetIn(store, tenant, id, r), t, k).Some?
      ensures Legal(Find(SetIn(store, tenant, id, r), t, k).value, now)
    {
      FindSetIn(store, tenant, id, r, t, k);
    }
  }

  lemma {:induction false} FilingRows(store: Store, tenant: string, id: string, f: Filing, now: real)
    requires 0.0 < now && tenant != "" && id != "" && Lower(Strip(f.kind)) in KINDS
    ensures var r, ev := Filed(tenant, id, f, now), Intake(f, now);
            ApplyRow(ApplyRow(store, Base(r), 0.0), EventRow(tenant, id, ev), 0.0)
            == SetIn(store, tenant, id, r.(history := [ev]))
  {
    var r, ev := Filed(tenant, id, f, now), Intake(f, now);
    assert FromBase(r) == r && Patched(r, ev, 0.0) == r.(history := [ev]);
    FindSetIn(store, tenant, id, r, tenant, id);
    SetInTwice(store, tenant, id, r, r.(history := [ev]));
  }

  lemma {:induction false} FiledIsLegal(emailOk: string -> bool, tenant: string, id: string, f: Filing, now: real)
    requires 0.0 < now && FilingOk(emailOk, f)
    ensures Legal(Filed(tenant, id, f, now).(history := [Intake(f, now)]), now)
  {
  }

  lemma TwoRows(log: seq<Row>, a: Row, b: Row)
    requires LogTimed(log) && LogTimed([a, b])
    ensures LogTimed(log + [a, b])
    ensures Replay(log + [a, b], 0.0) == ApplyRow(ApplyRow(Replay(log, 0.0), a, 0.0), b, 0.0)
  {
    assert log + [a, b] == (log + [a]) + [b];
    assert [a, b][0] == a && [a, b][1] == b;
    ReplaySnoc(log, a, 0.0);
    ReplaySnoc(log + [a], b, 0.0);
  }

  lemma {:induction false} FilingStep(emailOk: string -> bool, s: State, tenant: string, id: string, f: Filing,
                                      clock: real, now: real)
    requires Inv(s, clock) && clock <= now && 0.0 < now && tenant != "" && id != ""
    ensures Inv(AfterFiling(emailOk, s, tenant, id, f, now).0, now)
  {
    if FilingOk(emailOk, f) {
      var r, ev := Filed(tenant, id, f, now), Intake(f, now);
      var filed := r.(history := [ev]);
      TwoRows(s.log, Base(r), EventRow(tenant, id, ev));
      FilingRows(Replay(s.log, 0.0), tenant, id, f, now);
      ReplayAnytime(s.log + [Base(r), EventRow(tenant, id, ev)], now);
      FiledIsLegal(emailOk, tenant, id, f, now);
      SetInLegal(Replay(s.log, 0.0), tenant, id, filed, clock, now);
      SetInTwice(Replay(s.log, 0.0), tenant, id, filed, filed);
    }
  }

  lemma {:induction false} AdvanceStep(s: State, tenant: string, id: string, a: Advance, clock: real, now: real)
    requires Inv(s, clock) && clock <= now && 0.0 < now && tenant != "" && id != ""
    ensures Inv(AfterAdvance(s, tenant, id, a, now).0, now)
  {
    ReplayAnytime(s.log, now);
    var store := Replay(s.log, 0.0);
    if Target(a) in STATUSES && Find(store, tenant, id).Some? && Permits(Find(store, tenant, id).value, a) {
      var r := Find(store, tenant, id).value;
      var row := EventRow(tenant, id, EventOf(r, a, now));
      assert LogTimed(s.log + [row]);
      ReplaySnoc(s.log, row, 0.0);
      LoaderAgrees(r, a, now, 0.0);
      AdvanceIsLegal(r, a, clock, now);
      SetInLegal(store, tenant, id, Advanced(r, a, now), clock, now);
    }
  }

  /**
   After any proper sequence of filings, advances, reads and cache resets, the cache equals a replay
   of the log at whatever time it is read, and every request is legal.
   */
  lemma {:induction false} CacheIsAlwaysAReplay(emailOk: string -> bool, s: State, ts: seq<Timed>, clock: real)
    requires Inv(s, clock) && Proper(ts, clock)
    ensures exists later :: clock <= later && Inv(Run(emailOk, s, ts), later)
    ensures var end := Run(emailOk, s, ts); forall a :: end.cache.Some? ==> end.cache.value == Replay(end.log, a)
    decreases |ts|
  {
    if ts == [] {
      forall a ensures Replay(s.log, a) == Replay(s.log, 0.0) {
        ReplayAnytime(s.log, a);
      }
      assert Inv(Run(emailOk, s, ts), clock);
    } else {
      var t := ts[0];
      match t.command {
        case File(tenant, id, f) => FilingStep(emailOk, s, tenant, id, f, clock, t.now);
        case Move(tenant, id, a) => AdvanceStep(s, tenant, id, a, clock, t.now);
        case Read => ReplayAnytime(s.log, t.now);
        case Reset =>
      }
      assert Inv(Next(emailOk, s, t), t.now);
      CacheIsAlwaysAReplay(emailOk, Next(emailOk, s, t), ts[1..], t.now);
      assert Run(emailOk, s, ts) == Run(emailOk, Next(emailOk, s, t), ts[1..]);
    }
  }

  /** The loader never stores anything under the empty tenant name. */
  lemma {:induction false} NoNamelessStore(log: seq<Row>, a: real)
    ensures "" !in Replay(log, a)
  {
    if log != [] {
      NoNamelessStore(log[..|log| - 1], a);
    }
  }

  /**
   The tenant name must not be empty: in every state of every run, an accepted filing leaves a cache
   that agrees with a replay exactly when the name is non-empty.
   */
  lemma {:induction false} FilingAgreesExactly(emailOk: string -> bool, s: State, tenant: string, id: string, f: Filing,
                                               clock: real, now: real, a: real)
    requires Inv(s, clock) && clock <= now && 0.0 < now && id != "" && FilingOk(emailOk, f)
    ensures var t := AfterFiling(emailOk, s, tenant, id, f, now).0;
            t.cache.Some? && (t.cache.value == Replay(t.log, a) <==> tenant != "")
  {
    var t := AfterFiling(emailOk, s, tenant, id, f, now).0;
    if tenant != "" {
      FilingStep(emailOk, s, tenant, id, f, clock, now);
      ReplayAnytime(t.log, a);
    } else {
      NoNamelessStore(t.log, a);
      assert "" in t.cache.value;
    }
  }

  const NAMELESS := Filing("x", "access", "", "", 30)

  /** Such a filing into the empty log: the cache differs from every replay. */
  lemma {:induction false} NamelessFiling(emailOk: string -> bool, id: string, a: real)
    requires id != "" && emailOk("x")
    ensures var t := AfterFiling(emailOk, State([], Some(map[])), "", id, NAMELESS, 1.0).0;
            t.cache.Some? && t.cache.value != Replay(t.log, a)
  {
    assert Strip("x") == "x" && Strip("access") == "access" && Lower("access") == "access";
    assert KINDS[0] == "access";
    FilingAgreesExactly(emailOk, State([], Some(map[])), "", id, NAMELESS, 0.0, 1.0, a);
  }
}
