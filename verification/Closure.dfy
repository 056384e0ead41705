/**
 Workspace closure: an append-only log of scheduled and cancelled closures, replayed on every
 request, and the gate that rejects requests while a workspace is closing or closed.
 */
module Closures {
  import opened Options
  import opened OrderedDicts
  import opened Sorting
  import opened Texts

  const MIN_GRACE := 60
  const MAX_GRACE := 30 * 24 * 3600
  const DEFAULT_GRACE := 7 * 24 * 3600

  datatype Row =
    | Scheduled(tenant: string, id: string, reason: string, ts: real, actor: string, finalizeAt: real)
    | Cancelled(tenant: string, id: string, ts: real, actor: string)

  datatype Closure = Closure(
    id: string,
    tenant: string,
    reason: string,
    scheduledAt: real,
    scheduledBy: string,
    finalizeAt: real,
    cancelledAt: Option<real>,
    cancelledBy: string)
  {
    predicate Closed(now: real) { cancelledAt.None? && now >= finalizeAt }
  }

  datatype Refusal = Invalid | AlreadyClosed | AlreadyScheduled | NotFound | AlreadyCancelled | Finalized

  datatype Result = Ok(closure: Closure) | Refused(why: Refusal)

  /** A command's effect: the row it appends with the closure it returns, or why it refuses. */
  datatype Effect = Appends(row: Row, closure: Closure) | Refuses(why: Refusal)

  function ResultOf(e: Effect): Result {
    match e case Appends(_, c) => Ok(c) case Refuses(why) => Refused(why)
  }

  function LogAfter(log: seq<Row>, e: Effect): seq<Row> {
    match e case Appends(row, _) => log + [row] case Refuses(_) => log
  }

  function Norm(tenant: string): string {
    Lower(Strip(tenant))
  }

  // ---------------------------------------------------------------- replay

  /** The loader looks at rows of this tenant that carry an id. */
  predicate Concerns(row: Row, tenant: string) {
    Norm(row.tenant) != "" && Norm(row.tenant) == Norm(tenant) && row.id != ""
  }

  function Folded(d: Dict<string, Closure>, row: Row): Dict<string, Closure> {
    match row
    case Scheduled(tenant, id, reason, ts, actor, finalizeAt) =>
      Assign(d, id, Closure(id, Norm(tenant), reason, ts, actor, finalizeAt, None, ""))
    case Cancelled(_, id, ts, actor) =>
      match Lookup(d, id)
      case None => d
      case Some(c) =>
        if c.cancelledAt.Some? then d else Assign(d, id, c.(cancelledAt := Some(ts), cancelledBy := actor))
  }

  function ApplyRow(d: Dict<string, Closure>, row: Row, tenant: string): Dict<string, Closure> {
    if Concerns(row, tenant) then Folded(d, row) else d
  }

  /** `_replay`: one tenant's closures by id. */
  function Replay(log: seq<Row>, tenant: string): Dict<string, Closure> {
    if log == [] then [] else ApplyRow(Replay(log[..|log| - 1], tenant), log[|log| - 1], tenant)
  }

  /** The closures that were not cancelled. */
  function Active(d: Dict<string, Closure>): (r: seq<Closure>)
    ensures forall c :: c in r ==> c.cancelledAt.None?
  {
    if d == [] then [] else (if d[0].value.cancelledAt.None? then [d[0].value] else []) + Active(d[1..])
  }

  function ScheduledAt(c: Closure): real { c.scheduledAt }

  /** `current_closure`: the latest scheduled one that was not cancelled. */
  function Current(log: seq<Row>, tenant: string): Option<Closure> {
    var actives := Active(Replay(log, tenant));
    if actives == [] then None else Some(SortDesc(actives, ScheduledAt)[0])
  }

  // ---------------------------------------------------------------- commands

  predicate GraceOk(grace: Option<int>) {
    grace.None? || MIN_GRACE <= grace.value <= MAX_GRACE
  }

  function Grace(grace: Option<int>): int {
    if grace.None? then DEFAULT_GRACE else grace.value
  }

  function ScheduleRow(tenant: string, id: string, reason: string, actor: string, grace: Option<int>, now: real): Row {
    Scheduled(Norm(tenant), id, Cut(Strip(reason), 1024), now, actor, now + Grace(grace) as real)
  }

  /** Why a workspace with this current closure cannot be scheduled, if it cannot. */
  function Busy(existing: Option<Closure>, now: real): Option<Refusal> {
    if existing.None? || existing.value.cancelledAt.Some? then None
    else if existing.value.Closed(now) then Some(AlreadyClosed)
    else Some(AlreadyScheduled)
  }

  /** `schedule_closure`: the row to append and the closure to return, or the refusal. */
  function Schedule(log: seq<Row>, tenant: string, id: string, reason: string, actor: string, grace: Option<int>,
                    now: real): Effect {
    var tid := Norm(tenant);
    if tid == "" || Strip(reason) == "" || !GraceOk(grace) then Refuses(Invalid)
    else
      var busy := Busy(Current(log, tid), now);
      if busy.Some? then Refuses(busy.value)
      else
        var row := ScheduleRow(tenant, id, reason, actor, grace, now);
        Appends(row, Closure(id, tid, row.reason, now, actor, row.finalizeAt, None, ""))
  }

  /** `cancel_closure`. */
  function Cancel(log: seq<Row>, tenant: string, id: string, actor: string, now: real): Effect {
    var tid := Norm(tenant);
    match Lookup(Replay(log, tid), id)
    case None => Refuses(NotFound)
    case Some(c) =>
      if c.cancelledAt.Some? then Refuses(AlreadyCancelled)
      else if c.Closed(now) then Refuses(Finalized)
      else Appends(Cancelled(tid, id, now, actor), c.(cancelledAt := Some(now), cancelledBy := actor))
  }

  // ---------------------------------------------------------------- the gate

  datatype Verdict = Allowed | Locked(closure: Closure) | Gone(closure: Closure)

  const READ_ALLOWED_WHEN_CLOSED := [
    "/health", "/metrics", "/workspace/closure", "/v1/workspace/closure", "/audit", "/v1/audit",
    "/privacy", "/v1/privacy", "/me", "/v1/me"]

  const MUTATING_ALLOWED_WHEN_SCHEDULED := [
    "/workspace/closure", "/v1/workspace/closure", "/mfa", "/v1/mfa", "/privacy", "/v1/privacy"]

  predicate Mutating(verb: string) {
    Lower(verb) in ["post", "put", "patch", "delete"]
  }

  predicate PathStartsWith(path: string, prefixes: seq<string>) {
    exists i :: 0 <= i < |prefixes| && (path == prefixes[i] || prefixes[i] + "/" <= path)
  }

  predicate OpenWhenClosed(path: string) {
    PathStartsWith(path, READ_ALLOWED_WHEN_CLOSED)
  }

  /** Reads, and the exempt mutating requests. */
  predicate OpenWhenScheduled(verb: string, path: string) {
    !Mutating(verb) || PathStartsWith(path, MUTATING_ALLOWED_WHEN_SCHEDULED)
  }

  /** What the current closure decides about a request that is or is not open in each state. */
  function Gate(current: Option<Closure>, openWhenClosed: bool, openWhenScheduled: bool, now: real): Verdict {
    match current
    case None => Allowed
    case Some(c) =>
      if c.cancelledAt.Some? then Allowed
      else if c.Closed(now) then (if openWhenClosed then Allowed else Gone(c))
      else if openWhenScheduled then Allowed
      else Locked(c)
  }

  /** `evaluate`. */
  function Evaluate(log: seq<Row>, tenant: string, verb: string, path: string, now: real): Verdict {
    Gate(Current(log, tenant), OpenWhenClosed(path), OpenWhenScheduled(verb, path), now)
  }

  // ---------------------------------------------------------------- the store object

  class ClosureStore {
    var log: seq<Row>
    var cached: Option<seq<Row>>

    constructor ()
      ensures Valid() && log == []
    {
      log, cached := [], None;
    }

    /** The cached rows are the file's rows: appending drops the cache. */
    ghost predicate Valid()
      reads this
    {
      cached.Some? ==> cached.value == log
    }

    method LoadRows() returns (rows: seq<Row>)
      requires Valid()
      modifies this`cached
      ensures Valid() && rows == log
    {
      if cached.None? {
        cached := Some(log);
      }
      rows := cached.value;
    }

    method AppendEvent(row: Row)
      requires Valid()
      modifies this
      ensures Valid() && log == old(log) + [row]
    {
      log := log + [row];
      cached := None;
    }

    method ReplayTenant(tenant: string) returns (d: Dict<string, Closure>)
      requires Valid()
      modifies this`cached
      ensures Valid() && d == Replay(log, tenant)
    {
      var rows := LoadRows();
      d := [];
      var i := 0;
      while i < |rows|
        invariant 0 <= i <= |rows| && rows == log && Valid()
        invariant d == Replay(rows[..i], tenant)
      {
        assert rows[..i + 1][..i] == rows[..i];
        d := ApplyRow(d, rows[i], tenant);
        i := i + 1;
      }
      assert rows[..i] == rows;
    }

    method CurrentClosure(tenant: string) returns (c: Option<Closure>)
      requires Valid()
      modifies this`cached
      ensures Valid() && c == Current(log, tenant)
    {
      var d := ReplayTenant(tenant);
      var actives := Active(d);
      if actives == [] {
        return None;
      }
      c := Some(SortDesc(actives, ScheduledAt)[0]);
    }

    method ScheduleClosure(tenant: string, id: string, reason: string, actor: string, grace: Option<int>, now: real)
      returns (r: Result)
      requires Valid()
      modifies this
      ensures Valid()
      ensures log == LogAfter(old(log), Schedule(old(log), tenant, id, reason, actor, grace, now))
      ensures r == ResultOf(Schedule(old(log), tenant, id, reason, actor, grace, now))
    {
      var tid := Norm(tenant);
      var seconds := if grace.None? then DEFAULT_GRACE else grace.value;
      if tid == "" || Strip(reason) == "" || seconds < MIN_GRACE || seconds > MAX_GRACE {
        return Refused(Invalid);
      }
      var existing := CurrentClosure(tid);
      var busy := Busy(existing, now);
      if busy.Some? {
        return Refused(busy.value);
      }
      var why, finalizeAt := Cut(Strip(reason), 1024), now + seconds as real;
      AppendEvent(Scheduled(tid, id, why, now, actor, finalizeAt));
      r := Ok(Closure(id, tid, why, now, actor, finalizeAt, None, ""));
    }

    method CancelClosure(tenant: string, id: string, actor: string, now: real) returns (r: Result)
      requires Valid()
      modifies this
      ensures Valid()
      ensures log == LogAfter(old(log), Cancel(old(log), tenant, id, actor, now))
      ensures r == ResultOf(Cancel(old(log), tenant, id, actor, now))
    {
      var tid := Norm(tenant);
      var d := ReplayTenant(tid);
      var existing := Lookup(d, id);
      if existing.None? {
        return Refused(NotFound);
      }
      if existing.value.cancelledAt.Some? {
        return Refused(AlreadyCancelled);
      }
      if existing.value.Closed(now) {
        return Refused(Finalized);
      }
      AppendEvent(Cancelled(tid, id, now, actor));
      r := Ok(existing.value.(cancelledAt := Some(now), cancelledBy := actor));
    }

    method EvaluateRequest(tenant: string, verb: string, path: string, now: real) returns (v: Verdict)
      requires Valid()
      modifies this`cached
      ensures Valid() && v == Evaluate(log, tenant, verb, path, now)
    {
      var c := CurrentClosure(tenant);
      if c.None? || c.value.cancelledAt.Some? {
        return Allowed;
      }
      if c.value.Closed(now) {
        if OpenWhenClosed(path) {
          return Allowed;
        }
        return Gone(c.value);
      }
      if OpenWhenScheduled(verb, path) {
        return Allowed;
      }
      v := Locked(c.value);
    }
  }

  // ---------------------------------------------------------------- at most one active closure

  lemma {:induction false} ActiveMember(d: Dict<string, Closure>, id: string)
    requires Lookup(d, id).Some? && Lookup(d, id).value.cancelledAt.None?
    ensures Lookup(d, id).value in Active(d)
  {
    if d[0].key != id {
      ActiveMember(d[1..], id);
    }
  }

  lemma {:induction false} ActiveSchedule(d: Dict<string, Closure>, id: string, c: Closure)
    requires Active(d) == [] && c.cancelledAt.None?
    ensures Active(Assign(d, id, c)) == [c]
  {
    if d != [] {
      assert Active(d[1..]) == [] && d[0].value.cancelledAt.Some?;
      if d[0].key == id {
        assert ([Slot(id, c)] + d[1..])[1..] == d[1..];
      } else {
        ActiveSchedule(d[1..], id, c);
        assert Assign(d, id, c)[1..] == Assign(d[1..], id, c);
      }
    }
  }

  lemma {:induction false} ActiveCancel(d: Dict<string, Closure>, id: string, c: Closure)
    requires |Active(d)| == 1 && Lookup(d, id).Some? && Lookup(d, id).value.cancelledAt.None?
    requires c.cancelledAt.Some?
    ensures Active(Assign(d, id, c)) == []
  {
    if d[0].key == id {
      assert ([Slot(id, c)] + d[1..])[1..] == d[1..];
      assert |Active(d)| == 1 + |Active(d[1..])|;
    } else {
      ActiveMember(d[1..], id);
      assert |Active(d[1..])| >= 1;
      assert d[0].value.cancelledAt.Some?;
      ActiveCancel(d[1..], id, c);
      assert Assign(d, id, c)[1..] == Assign(d[1..], id, c);
    }
  }

  lemma ReplaySnoc(log: seq<Row>, row: Row, tenant: string)
    ensures Replay(log + [row], tenant) == ApplyRow(Replay(log, tenant), row, tenant)
  {
    assert (log + [row])[..|log|] == log;
  }

  lemma {:induction false} ReplayNorm(log: seq<Row>, tenant: string)
    ensures Replay(log, Norm(tenant)) == Replay(log, tenant)
  {
    NormalTwice(tenant);
    if log != [] {
      ReplayNorm(log[..|log| - 1], tenant);
    }
  }

  ghost predicate OneActive(log: seq<Row>) {
    forall tenant :: |Active(Replay(log, tenant))| <= 1
  }

  /** With at most one active closure there is no choice to make. */
  lemma CurrentIsTheActive(log: seq<Row>, tenant: string)
    requires OneActive(log)
    ensures Current(log, tenant)
         == if Active(Replay(log, tenant)) == [] then None else Some(Active(Replay(log, tenant))[0])
  {
    var a := Active(Replay(log, tenant));
    assert |a| <= 1;
    if a != [] {
      assert a[..0] == [];
      assert SortDesc(a, ScheduledAt) == [a[0]];
    }
  }

  datatype Command =
    | DoSchedule(tenant: string, id: string, reason: string, actor: string, grace: Option<int>)
    | DoCancel(tenant: string, id: string, actor: string)

  datatype Timed = Timed(command: Command, now: real)

  function EffectOf(log: seq<Row>, t: Timed): Effect {
    match t.command
    case DoSchedule(tenant, id, reason, actor, grace) => Schedule(log, tenant, id, reason, actor, grace, t.now)
    case DoCancel(tenant, id, actor) => Cancel(log, tenant, id, actor, t.now)
  }

  function Next(log: seq<Row>, t: Timed): seq<Row> {
    LogAfter(log, EffectOf(log, t))
  }

  function Run(log: seq<Row>, ts: seq<Timed>): seq<Row>
    decreases |ts|
  {
    if ts == [] then log else Run(Next(log, ts[0]), ts[1..])
  }

  /** A clock that never goes back, and non-empty ids for new closures. */
  ghost predicate Proper(ts: seq<Timed>, clock: real)
    decreases |ts|
  {
    ts == [] || (clock <= ts[0].now && (ts[0].command.DoSchedule? ==> ts[0].command.id != "")
                 && Proper(ts[1..], ts[0].now))
  }

  /** What an appended row says. */
  lemma AppendedRow(log: seq<Row>, t: Timed)
    requires EffectOf(log, t).Appends?
    ensures var row, c := EffectOf(log, t).row, EffectOf(log, t).closure;
            && Norm(row.tenant) == row.tenant == Norm(t.command.tenant)
            && row.id == t.command.id
            && row.Scheduled? == t.command.DoSchedule?
            && (row.Scheduled? ==>
                  && row.tenant != ""
                  && c == Closure(row.id, row.tenant, row.reason, row.ts, row.actor, row.finalizeAt, None, ""))
            && (row.Cancelled? ==> c.cancelledAt == Some(row.ts) && c.cancelledBy == row.actor)
  {
    NormalTwice(t.command.tenant);
  }

  lemma ScheduledWhenFree(log: seq<Row>, t: Timed)
    requires OneActive(log) && EffectOf(log, t).Appends? && t.command.DoSchedule?
    ensures Active(Replay(log, t.command.tenant)) == []
  {
    var tid := Norm(t.command.tenant);
    assert Busy(Current(log, tid), t.now).None?;
    NotBusyMeansFree(log, tid, t.now);
    ReplayNorm(log, t.command.tenant);
  }

  lemma {:induction false} NotBusyMeansFree(log: seq<Row>, tenant: string, now: real)
    requires OneActive(log) && Busy(Current(log, tenant), now).None?
    ensures Active(Replay(log, tenant)) == []
  {
    CurrentIsTheActive(log, tenant);
  }

  lemma CancelledWhenActive(log: seq<Row>, t: Timed)
    requires EffectOf(log, t).Appends? && t.command.DoCancel?
    ensures var found := Lookup(Replay(log, t.command.tenant), t.command.id);
            && found.Some? && found.value.cancelledAt.None? && !found.value.Closed(t.now)
            && EffectOf(log, t).closure == found.value.(cancelledAt := Some(t.now), cancelledBy := t.command.actor)
            && EffectOf(log, t).row == Cancelled(Norm(t.command.tenant), t.command.id, t.now, t.command.actor)
  {
    ReplayNorm(log, t.command.tenant);
  }

  lemma {:induction false} ReplayAlike(log: seq<Row>, a: string, b: string)
    requires Norm(a) == Norm(b)
    ensures Replay(log, a) == Replay(log, b)
  {
    if log != [] {
      ReplayAlike(log[..|log| - 1], a, b);
    }
  }

  lemma OneActiveAfterSchedule(log: seq<Row>, t: Timed, tenant: string)
    requires OneActive(log) && t.command.DoSchedule? && t.command.id != "" && EffectOf(log, t).Appends?
    requires Norm(tenant) == Norm(t.command.tenant)
    ensures Active(Replay(Next(log, t), tenant)) == [EffectOf(log, t).closure]
  {
    AppendedRow(log, t);
    ScheduledWhenFree(log, t);
    ReplayAlike(log, tenant, t.command.tenant);
    ReplaySnoc(log, EffectOf(log, t).row, tenant);
    ActiveSchedule(Replay(log, tenant), t.command.id, EffectOf(log, t).closure);
  }

  lemma CancelFolds(d: Dict<string, Closure>, row: Row)
    requires row.Cancelled? && |Active(d)| <= 1 && Lookup(d, row.id).Some? && Lookup(d, row.id).value.cancelledAt.None?
    ensures Active(Folded(d, row)) == []
  {
    var c := Lookup(d, row.id).value;
    ActiveMember(d, row.id);
    ActiveCancel(d, row.id, c.(cancelledAt := Some(row.ts), cancelledBy := row.actor));
  }

  lemma OneActiveAfterCancel(log: seq<Row>, t: Timed, tenant: string)
    requires OneActive(log) && t.command.DoCancel? && t.command.id != "" && EffectOf(log, t).Appends?
    requires Norm(tenant) == Norm(t.command.tenant) && Norm(tenant) != ""
    ensures Active(Replay(Next(log, t), tenant)) == []
  {
    var row := EffectOf(log, t).row;
    AppendedRow(log, t);
    CancelledWhenActive(log, t);
    ReplayAlike(log, tenant, t.command.tenant);
    ReplaySnoc(log, row, tenant);
    assert Concerns(row, tenant) && |Active(Replay(log, tenant))| <= 1;
    CancelFolds(Replay(log, tenant), row);
  }

  /** A row of another tenant, or without an id or a tenant name, is skipped. */
  lemma SkippedRow(log: seq<Row>, t: Timed, tenant: string)
    requires Norm(tenant) != Norm(t.command.tenant) || Norm(tenant) == "" || t.command.id == ""
             || EffectOf(log, t).Refuses?
    ensures Replay(Next(log, t), tenant) == Replay(log, tenant)
  {
    if EffectOf(log, t).Appends? {
      AppendedRow(log, t);
      ReplaySnoc(log, EffectOf(log, t).row, tenant);
    }
  }

  lemma OneActiveStep(log: seq<Row>, t: Timed)
    requires OneActive(log) && (t.command.DoSchedule? ==> t.command.id != "")
    ensures OneActive(Next(log, t))
  {
    forall tenant ensures |Active(Replay(Next(log, t), tenant))| <= 1 {
      if Norm(tenant) != Norm(t.command.tenant) || Norm(tenant) == "" || t.command.id == ""
         || EffectOf(log, t).Refuses? {
        SkippedRow(log, t, tenant);
        assert |Active(Replay(log, tenant))| <= 1;
      } else if t.command.DoSchedule? {
        OneActiveAfterSchedule(log, t, tenant);
      } else {
        OneActiveAfterCancel(log, t, tenant);
      }
    }
  }

  /** In every reachable state a tenant has at most one closure that was not cancelled. */
  lemma {:induction false} AtMostOneActive(log: seq<Row>, ts: seq<Timed>, clock: real)
    requires OneActive(log) && Proper(ts, clock)
    ensures OneActive(Run(log, ts))
    decreases |ts|
  {
    if ts != [] {
      OneActiveStep(log, ts[0]);
      AtMostOneActive(Next(log, ts[0]), ts[1..], ts[0].now);
    }
  }

  lemma StartOneActive()
    ensures OneActive([])
  {
  }

  // ---------------------------------------------------------------- isolation and finality

  lemma {:induction false} SameReplaySameGate(log: seq<Row>, after: seq<Row>, tenant: string, verb: string,
                                              path: string, now: real)
    requires Replay(after, tenant) == Replay(log, tenant)
    ensures Evaluate(after, tenant, verb, path, now) == Evaluate(log, tenant, verb, path, now)
  {
  }

  /** A command on one tenant changes no decision about another. */
  lemma {:induction false} OthersUntouched(log: seq<Row>, t: Timed, other: string, verb: string, path: string,
                                           now: real)
    requires Norm(other) != Norm(t.command.tenant)
    ensures Evaluate(Next(log, t), other, verb, path, now) == Evaluate(log, other, verb, path, now)
  {
    SkippedRow(log, t, other);
    SameReplaySameGate(log, Next(log, t), other, verb, path, now);
  }

  /** A closed workspace refuses to be scheduled again, and no closure of it can be cancelled. */
  lemma ClosedRefuses(log: seq<Row>, t: Timed, c: Closure)
    requires OneActive(log) && Current(log, t.command.tenant) == Some(c) && c.Closed(t.now)
    ensures EffectOf(log, t).Refuses? && Next(log, t) == log
  {
    var d := Replay(log, t.command.tenant);
    assert Active(d) == [c] by {
      CurrentIsTheActive(log, t.command.tenant);
      assert |Active(d)| <= 1;
    }
    if EffectOf(log, t).Appends? {
      if t.command.DoSchedule? {
        ScheduledWhenFree(log, t);
      } else {
        CancelledWhenActive(log, t);
        ActiveMember(d, t.command.id);
      }
      assert false;
    }
  }

  /**
   Once a workspace is closed it stays closed: after any later commands, on it or on others, and at
   every later time, the same closure is current and every path that is not exempt gets 410.
   */
  lemma {:induction false} ClosedStaysClosed(log: seq<Row>, ts: seq<Timed>, clock: real, tenant: string, c: Closure)
    requires OneActive(log) && Proper(ts, clock) && Current(log, tenant) == Some(c) && c.Closed(clock)
    ensures Current(Run(log, ts), tenant) == Some(c)
    ensures forall verb, path, later :: clock <= later ==>
              Evaluate(Run(log, ts), tenant, verb, path, later) == if OpenWhenClosed(path) then Allowed else Gone(c)
    decreases |ts|
  {
    if ts != [] {
      var t := ts[0];
      OneActiveStep(log, t);
      if Norm(t.command.tenant) == Norm(tenant) {
        ReplayAlike(log, tenant, t.command.tenant);
        ClosedRefuses(log, t, c);
      } else {
        SkippedRow(log, t, tenant);
      }
      assert Current(Next(log, t), tenant) == Some(c);
      ClosedStaysClosed(Next(log, t), ts[1..], t.now, tenant, c);
    }
  }

  /** The same closure is current right after a schedule, with its grace period counted from the command's clock. */
  lemma ScheduledIsCurrent(log: seq<Row>, t: Timed)
    requires OneActive(log) && t.command.DoSchedule? && t.command.id != "" && EffectOf(log, t).Appends?
    ensures var c := EffectOf(log, t).closure;
            && Current(Next(log, t), t.command.tenant) == Some(c)
            && c.cancelledAt.None?
            && c.finalizeAt == t.now + Grace(t.command.grace) as real
  {
    OneActiveStep(log, t);
    OneActiveAfterSchedule(log, t, t.command.tenant);
    CurrentIsTheActive(Next(log, t), t.command.tenant);
  }

  /**
   What a schedule means for the gate, at every time: until `finalize_at` mutating requests that are
   not exempt are locked and reads pass; from then on everything that is not exempt is gone.
   */
  lemma {:induction false} ScheduleTakesEffect(log: seq<Row>, t: Timed, verb: string, path: string, at: real)
    requires OneActive(log) && t.command.DoSchedule? && t.command.id != "" && EffectOf(log, t).Appends?
    ensures var c := EffectOf(log, t).closure;
            Evaluate(Next(log, t), t.command.tenant, verb, path, at) ==
              if at < t.now + Grace(t.command.grace) as real then
                if OpenWhenScheduled(verb, path) then Allowed else Locked(c)
              else if OpenWhenClosed(path) then Allowed else Gone(c)
  {
    ScheduledIsCurrent(log, t);
  }

  /** A successful cancellation lifts every restriction. */
  lemma {:induction false} CancelLifts(log: seq<Row>, t: Timed, verb: string, path: string, at: real)
    requires OneActive(log) && t.command.DoCancel? && t.command.id != "" && Norm(t.command.tenant) != ""
             && EffectOf(log, t).Appends?
    ensures Evaluate(Next(log, t), t.command.tenant, verb, path, at) == Allowed
  {
    OneActiveAfterCancel(log, t, t.command.tenant);
  }

  // ---------------------------------------------------------------- commands that interleave

  /**
   The check and the append of `schedule_closure` are not one step.  When two schedules both check
   the same log before either appends, both succeed and the workspace has two active closures.
   */
  lemma RacingSchedulesLeaveTwo(log: seq<Row>, a: Timed, b: Timed)
    requires OneActive(log) && a.command.DoSchedule? && b.command.DoSchedule?
    requires Norm(a.command.tenant) == Norm(b.command.tenant) && a.command.id != "" && b.command.id != ""
    requires Lookup(Replay(log, a.command.tenant), b.command.id).None? && a.command.id != b.command.id
    requires EffectOf(log, a).Appends? && EffectOf(log, b).Appends?
    ensures |Active(Replay(log + [EffectOf(log, a).row] + [EffectOf(log, b).row], a.command.tenant))| == 2
  {
    var tenant := a.command.tenant;
    var ra, rb := EffectOf(log, a).row, EffectOf(log, b).row;
    OneActiveAfterSchedule(log, a, tenant);
    AppendedRow(log, a);
    AppendedRow(log, b);
    ReplaySnoc(log, ra, tenant);
    ReplaySnoc(log + [ra], rb, tenant);
    AssignLookup(Replay(log, tenant), a.command.id, EffectOf(log, a).closure, b.command.id);
    ActiveNew(Replay(log + [ra], tenant), b.command.id, EffectOf(log, b).closure);
  }

  /** Two such schedules, from the empty log. */
  lemma {:induction false} RaceFromTheEmptyLog(now: real)
    ensures var a := Timed(DoSchedule("t", "c1", "r", "u", None), now);
            var b := Timed(DoSchedule("t", "c2", "r", "u", None), now);
            && EffectOf([], a).Appends? && EffectOf([], b).Appends?
            && |Active(Replay([EffectOf([], a).row] + [EffectOf([], b).row], "t"))| == 2
  {
    var a, b := Timed(DoSchedule("t", "c1", "r", "u", None), now), Timed(DoSchedule("t", "c2", "r", "u", None), now);
    assert Norm("t") == "t" && Strip("r") == "r";
    StartOneActive();
    assert Replay([], "t") == [];
    assert Current([], "t") == None;
    RacingSchedulesLeaveTwo([], a, b);
    assert [] + [EffectOf([], a).row] == [EffectOf([], a).row];
  }

  /**
   A schedule whose check ran on some other log, when its row is appended to `log`: there is still at
   most one active closure exactly when none is active at the moment of the append.
   */
  lemma StaleScheduleExactly(checked: seq<Row>, log: seq<Row>, t: Timed)
    requires OneActive(log) && t.command.DoSchedule? && t.command.id != "" && EffectOf(checked, t).Appends?
    requires Lookup(Replay(log, t.command.tenant), t.command.id).None?
    ensures OneActive(log + [EffectOf(checked, t).row]) <==> Active(Replay(log, t.command.tenant)) == []
  {
    var row, c := EffectOf(checked, t).row, EffectOf(checked, t).closure;
    AppendedRow(checked, t);
    forall tenant
      ensures Norm(tenant) == Norm(t.command.tenant) ==>
                Active(Replay(log + [row], tenant)) == Active(Replay(log, t.command.tenant)) + [c]
      ensures Norm(tenant) != Norm(t.command.tenant) ==> Replay(log + [row], tenant) == Replay(log, tenant)
    {
      ReplaySnoc(log, row, tenant);
      if Norm(tenant) == Norm(t.command.tenant) {
        ReplayAlike(log, tenant, t.command.tenant);
        ActiveNew(Replay(log, tenant), t.command.id, c);
      }
    }
    assert |Active(Replay(log + [row], t.command.tenant))| == |Active(Replay(log, t.command.tenant))| + 1;
    if Active(Replay(log, t.command.tenant)) == [] {
      forall tenant ensures |Active(Replay(log + [row], tenant))| <= 1 {
        assert |Active(Replay(log, tenant))| <= 1;
      }
    }
  }

  /** A cancellation whose check ran on some other log never adds an active closure. */
  lemma StaleCancelIsHarmless(checked: seq<Row>, log: seq<Row>, t: Timed)
    requires OneActive(log) && t.command.DoCancel? && EffectOf(checked, t).Appends?
    ensures OneActive(log + [EffectOf(checked, t).row])
  {
    var row := EffectOf(checked, t).row;
    AppendedRow(checked, t);
    forall tenant ensures |Active(Replay(log + [row], tenant))| <= 1 {
      var d := Replay(log, tenant);
      ReplaySnoc(log, row, tenant);
      assert |Active(d)| <= 1;
      if Concerns(row, tenant) && Lookup(d, row.id).Some? && Lookup(d, row.id).value.cancelledAt.None? {
        CancelFolds(d, row);
      }
    }
  }

  /**
   Two schedules with fresh ids whose rows are appended one after the other, the second one checked on
   the log with or without the first row: a workspace ends up with two active closures exactly when
   both are for it, both are accepted, and the second check did not see the first row.
   */
  lemma RacingSchedulesExactly(log: seq<Row>, a: Timed, b: Timed, saw: bool)
    requires OneActive(log) && a.command.DoSchedule? && b.command.DoSchedule?
    requires a.command.id != "" && b.command.id != "" && a.command.id != b.command.id
    requires Lookup(Replay(log, b.command.tenant), b.command.id).None?
    ensures var after := Next(log, a);
            var second := EffectOf(if saw then after else log, b);
            OneActive(LogAfter(after, second))
            <==> saw || EffectOf(log, a).Refuses? || second.Refuses? || Norm(a.command.tenant) != Norm(b.command.tenant)
  {
    var after := Next(log, a);
    OneActiveStep(log, a);
    OneActiveStep(after, b);
    var second := EffectOf(if saw then after else log, b);
    if !saw && EffectOf(log, a).Appends? && second.Appends? {
      FreshStays(log, a, b);
      StaleScheduleExactly(log, after, b);
      if Norm(a.command.tenant) == Norm(b.command.tenant) {
        OneActiveAfterSchedule(log, a, b.command.tenant);
      } else {
        SkippedRow(log, a, b.command.tenant);
        ScheduledWhenFree(log, b);
      }
    }
  }

  /** Another schedule does not take the id. */
  lemma FreshStays(log: seq<Row>, a: Timed, b: Timed)
    requires a.command.DoSchedule? && a.command.id != b.command.id
    requires Lookup(Replay(log, b.command.tenant), b.command.id).None?
    ensures Lookup(Replay(Next(log, a), b.command.tenant), b.command.id).None?
  {
    if EffectOf(log, a).Appends? {
      var row, tenant := EffectOf(log, a).row, b.command.tenant;
      AppendedRow(log, a);
      ReplaySnoc(log, row, tenant);
      if Concerns(row, tenant) {
        var c := Closure(row.id, Norm(row.tenant), row.reason, row.ts, row.actor, row.finalizeAt, None, "");
        AssignLookup(Replay(log, tenant), row.id, c, b.command.id);
      }
    }
  }

  lemma {:induction false} ActiveNew(d: Dict<string, Closure>, id: string, c: Closure)
    requires Lookup(d, id).None? && c.cancelledAt.None?
    ensures Active(Assign(d, id, c)) == Active(d) + [c]
  {
    if d == [] {
      assert [Slot(id, c)][1..] == [];
    } else {
      ActiveNew(d[1..], id, c);
      assert Assign(d, id, c)[1..] == Assign(d[1..], id, c);
    }
  }
}
