/**
 What closing a workspace means for its requests and its commands, in terms of verbs, paths and
 seconds: which requests pass while a closure is scheduled and after it is final, and which commands
 are accepted with which record.
 */
module ClosureGate {
  import opened Options
  import opened OrderedDicts
  import opened Sorting
  import opened Texts
  import opened Closures

  /** The path is `prefix` or lies below it. */
  predicate Below(path: string, prefix: string) {
    |prefix| <= |path| && path[..|prefix|] == prefix && (|path| == |prefix| || path[|prefix|] == '/')
  }

  /** What stays reachable in a closed workspace. */
  predicate Reachable(path: string) {
    || Below(path, "/health") || Below(path, "/metrics")
    || Below(path, "/workspace/closure") || Below(path, "/v1/workspace/closure")
    || Below(path, "/audit") || Below(path, "/v1/audit")
    || Below(path, "/privacy") || Below(path, "/v1/privacy")
    || Below(path, "/me") || Below(path, "/v1/me")
  }

  /** What can still be written while a closure is scheduled. */
  predicate Writable(path: string) {
    || Below(path, "/workspace/closure") || Below(path, "/v1/workspace/closure")
    || Below(path, "/mfa") || Below(path, "/v1/mfa")
    || Below(path, "/privacy") || Below(path, "/v1/privacy")
  }

  /** POST, PUT, PATCH and DELETE, in any letter case. */
  predicate Write(verb: string) {
    Lower(verb) == "post" || Lower(verb) == "put" || Lower(verb) == "patch" || Lower(verb) == "delete"
  }

  // ---------------------------------------------------------------- requests

  lemma PrefixBelow(path: string, prefix: string)
    ensures (path == prefix || prefix + "/" <= path) <==> Below(path, prefix)
  {
    if Below(path, prefix) && |path| > |prefix| {
      assert path[..|prefix| + 1] == prefix + "/";
    }
    if prefix + "/" <= path {
      assert path[..|prefix| + 1] == prefix + "/";
      assert path[..|prefix|] == prefix;
    }
  }

  lemma {:induction false} StartsExactly(path: string, prefixes: seq<string>)
    ensures PathStartsWith(path, prefixes) <==> exists i :: 0 <= i < |prefixes| && Below(path, prefixes[i])
  {
    forall i | 0 <= i < |prefixes|
      ensures (path == prefixes[i] || prefixes[i] + "/" <= path) <==> Below(path, prefixes[i])
    {
      PrefixBelow(path, prefixes[i]);
    }
  }

  lemma ReachableExactly(path: string)
    ensures OpenWhenClosed(path) <==> Reachable(path)
  {
    var p := READ_ALLOWED_WHEN_CLOSED;
    StartsExactly(path, p);
    assert p[0] == "/health" && p[1] == "/metrics" && p[2] == "/workspace/closure" && p[3] == "/v1/workspace/closure";
    assert p[4] == "/audit" && p[5] == "/v1/audit" && p[6] == "/privacy" && p[7] == "/v1/privacy";
    assert p[8] == "/me" && p[9] == "/v1/me";
  }

  lemma WritableExactly(verb: string, path: string)
    ensures OpenWhenScheduled(verb, path) <==> !Write(verb) || Writable(path)
  {
    var p := MUTATING_ALLOWED_WHEN_SCHEDULED;
    StartsExactly(path, p);
    assert p[0] == "/workspace/closure" && p[1] == "/v1/workspace/closure" && p[2] == "/mfa" && p[3] == "/v1/mfa";
    assert p[4] == "/privacy" && p[5] == "/v1/privacy";
  }

  /**
   The gate for any log: without a current closure everything passes; before the closure is final,
   everything but writes outside the writable paths; from then on, the reachable paths only.
   */
  lemma {:induction false} GateExactly(log: seq<Row>, tenant: string, verb: string, path: string, at: real)
    ensures Evaluate(log, tenant, verb, path, at) ==
      match Current(log, tenant)
      case None => Allowed
      case Some(c) => Decision(c, c.finalizeAt, verb, path, at)
  {
    ReachableExactly(path);
    WritableExactly(verb, path);
    CurrentNotCancelled(log, tenant);
  }

  lemma CurrentNotCancelled(log: seq<Row>, tenant: string)
    ensures Current(log, tenant).Some? ==> Current(log, tenant).value.cancelledAt.None?
  {
    var actives := Active(Replay(log, tenant));
    if actives != [] {
      var sorted := SortDesc(actives, ScheduledAt);
      SortMultiset(actives, ScheduledAt);
      SameMember(sorted, actives, sorted[0]);
    }
  }

  /** The current closure is one that was not cancelled, scheduled no earlier than any other such one. */
  lemma CurrentIsLatest(log: seq<Row>, tenant: string, id: string)
    requires Lookup(Replay(log, tenant), id).Some? && Lookup(Replay(log, tenant), id).value.cancelledAt.None?
    ensures Current(log, tenant).Some?
    ensures Lookup(Replay(log, tenant), id).value.scheduledAt <= Current(log, tenant).value.scheduledAt
  {
    var actives, c := Active(Replay(log, tenant)), Lookup(Replay(log, tenant), id).value;
    ActiveMember(Replay(log, tenant), id);
    var sorted := SortDesc(actives, ScheduledAt);
    SortMultiset(actives, ScheduledAt);
    SameMember(actives, sorted, c);
    SortedLargestFirst(actives, ScheduledAt);
    var i :| 0 <= i < |sorted| && sorted[i] == c;
  }

  // ---------------------------------------------------------------- schedules

  /** 60 seconds to 30 days, 7 days when none is given. */
  ghost predicate GivesGrace(grace: Option<int>, seconds: int) {
    60 <= seconds <= 2592000 && seconds == match grace case None => 604800 case Some(n) => n
  }

  /** The closure that an accepted schedule records. */
  ghost predicate Records(c: Closure, t: Timed)
    requires t.command.DoSchedule?
  {
    var reason := Strip(t.command.reason);
    && c.id == t.command.id && c.tenant == Lower(Strip(t.command.tenant))
    && c.reason == reason[..if |reason| < 1024 then |reason| else 1024]
    && c.scheduledAt == t.now && c.scheduledBy == t.command.actor
    && c.cancelledAt.None? && c.cancelledBy == ""
    && exists seconds :: GivesGrace(t.command.grace, seconds) && c.finalizeAt == t.now + seconds as real
  }

  lemma ScheduledRecords(log: seq<Row>, t: Timed)
    requires t.command.DoSchedule? && EffectOf(log, t).Appends?
    ensures Records(EffectOf(log, t).closure, t)
  {
    var seconds := Grace(t.command.grace);
    assert GivesGrace(t.command.grace, seconds);
  }

  /**
   A schedule is accepted exactly when the tenant and the reason are not blank, the grace period is from
   60 seconds to 30 days, and no closure is current; otherwise the refusal says which.
   */
  lemma {:induction false} ScheduleExactly(log: seq<Row>, t: Timed)
    requires t.command.DoSchedule?
    ensures var c, e := t.command, EffectOf(log, t);
            var current := Current(log, c.tenant);
            if Strip(c.tenant) == "" || Strip(c.reason) == "" || !exists n :: GivesGrace(c.grace, n)
            then e == Refuses(Invalid)
            else if current.Some?
            then e == Refuses(if t.now < current.value.finalizeAt then AlreadyScheduled else AlreadyClosed)
            else e.Appends?
  {
    var c := t.command;
    CurrentNotCancelled(log, c.tenant);
    ReplayNorm(log, c.tenant);
    assert Norm(c.tenant) == "" <==> Strip(c.tenant) == "";
    assert GraceOk(c.grace) <==> GivesGrace(c.grace, Grace(c.grace));
  }

  /** The decision under closure `c`, final from `end` on. */
  function Decision(c: Closure, end: real, verb: string, path: string, at: real): Verdict {
    if at < end then (if Write(verb) && !Writable(path) then Locked(c) else Allowed)
    else if Reachable(path) then Allowed
    else Gone(c)
  }

  /** The whole effect of an accepted schedule on the workspace's requests, at every time. */
  lemma {:induction false} ScheduleGate(log: seq<Row>, t: Timed, verb: string, path: string, at: real)
    returns (c: Closure, seconds: int)
    requires OneActive(log) && t.command.DoSchedule? && t.command.id != "" && EffectOf(log, t).Appends?
    ensures Records(c, t) && GivesGrace(t.command.grace, seconds)
    ensures Evaluate(Next(log, t), t.command.tenant, verb, path, at)
         == Decision(c, t.now + seconds as real, verb, path, at)
  {
    c, seconds := EffectOf(log, t).closure, Grace(t.command.grace);
    ScheduledIsCurrent(log, t);
    ScheduledRecords(log, t);
    GateExactly(Next(log, t), t.command.tenant, verb, path, at);
  }

  // ---------------------------------------------------------------- any row

  /** What one more row of any kind changes of a tenant's closure: a row of that tenant and id sets or cancels it. */
  lemma {:induction false} RowOnRecord(log: seq<Row>, row: Row, tenant: string, id: string)
    ensures var before, after := Lookup(Replay(log, tenant), id), Lookup(Replay(log + [row], tenant), id);
            var name := Lower(Strip(row.tenant));
            if name == "" || name != Lower(Strip(tenant)) || id == "" || row.id != id then after == before
            else match row
                 case Scheduled(_, _, reason, ts, actor, finalizeAt) =>
                   after == Some(Closure(id, name, reason, ts, actor, finalizeAt, None, ""))
                 case Cancelled(_, _, ts, actor) =>
                   if before.None? || before.value.cancelledAt.Some? then after == before
                   else after == Some(before.value.(cancelledAt := Some(ts), cancelledBy := actor))
  {
    var d := Replay(log, tenant);
    ReplaySnoc(log, row, tenant);
    match row
    case Scheduled(t, i, reason, ts, actor, finalizeAt) =>
      AssignLookup(d, i, Closure(i, Norm(t), reason, ts, actor, finalizeAt, None, ""), id);
    case Cancelled(_, i, ts, actor) =>
      if Lookup(d, i).Some? {
        AssignLookup(d, i, Lookup(d, i).value.(cancelledAt := Some(ts), cancelledBy := actor), id);
      }
  }

  // ---------------------------------------------------------------- cancellations

  /**
   A cancellation is accepted exactly when the tenant has that closure, it was not cancelled and its
   grace period is not over; it then records when and by whom.
   */
  lemma {:induction false} CancelExactly(log: seq<Row>, t: Timed)
    requires t.command.DoCancel?
    ensures var found, e := Lookup(Replay(log, t.command.tenant), t.command.id), EffectOf(log, t);
            match found
            case None => e == Refuses(NotFound)
            case Some(c) =>
              if c.cancelledAt.Some? then e == Refuses(AlreadyCancelled)
              else if t.now >= c.finalizeAt then e == Refuses(Finalized)
              else e.Appends? && e.closure == c.(cancelledAt := Some(t.now), cancelledBy := t.command.actor)
  {
    ReplayNorm(log, t.command.tenant);
  }

  /** Afterwards the closure is on record as cancelled then and by that caller, and nothing else about it changed. */
  lemma {:induction false} CancelledOnRecord(log: seq<Row>, t: Timed)
    requires t.command.DoCancel? && t.command.id != "" && Strip(t.command.tenant) != "" && EffectOf(log, t).Appends?
    ensures var before, after := Replay(log, t.command.tenant), Replay(Next(log, t), t.command.tenant);
            && Lookup(before, t.command.id).Some?
            && Lookup(after, t.command.id) == Some(Lookup(before, t.command.id).value
                 .(cancelledAt := Some(t.now), cancelledBy := t.command.actor))
  {
    var d, id := Replay(log, t.command.tenant), t.command.id;
    AppendedRow(log, t);
    CancelledWhenActive(log, t);
    ReplaySnoc(log, EffectOf(log, t).row, t.command.tenant);
    AssignLookup(d, id, Lookup(d, id).value.(cancelledAt := Some(t.now), cancelledBy := t.command.actor), id);
  }
}
