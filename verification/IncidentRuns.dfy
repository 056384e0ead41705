/**
 Every run of incident commands with cache resets anywhere between them: the cache is always what a
 fresh replay of the log gives, and every incident has lived a legal life.
 */
module IncidentRuns {
  import opened Options
  import opened OrderedDicts
  import opened TenantStores
  import opened Texts
  import opened IncidentStores

  // ---------------------------------------------------------------- legal lives

  /** What matters of an incident's history for what may happen next. */
  datatype Life = Life(status: string, closedAt: real, regulatorAt: real, subjectsAt: real, last: real)

  /** The life after one more event, or none when the event is out of order. */
  function Lived(l: Life, e: Event): Option<Life> {
    if e.at < l.last then None
    else if e.kind == "note" then
      if Terminal(l.status) || e.toStatus != "" then None else Some(l.(last := e.at))
    else if e.kind == "advanced" then
      if Terminal(l.status) || e.fromStatus != l.status || e.toStatus == l.status || e.toStatus !in STATUSES then None
      else Some(l.(status := e.toStatus, closedAt := if Terminal(e.toStatus) then e.at else 0.0, last := e.at))
    else if e.kind == "regulator_notified" then
      if l.regulatorAt != 0.0 || e.toStatus != "" then None else Some(l.(regulatorAt := e.at, last := e.at))
    else if e.kind == "subjects_notified" then
      if l.subjectsAt != 0.0 || e.toStatus != "" then None else Some(l.(subjectsAt := e.at, last := e.at))
    else None
  }

  predicate Opening(e: Event) {
    e.at > 0.0 && e.kind == "declared" && e.fromStatus == "" && e.toStatus == "open"
  }

  function LifeOf(h: seq<Event>): Option<Life> {
    if h == [] then None
    else if |h| == 1 then (if Opening(h[0]) then Some(Life("open", 0.0, 0.0, 0.0, h[0].at)) else None)
    else match LifeOf(h[..|h| - 1])
         case None => None
         case Some(l) => Lived(l, h[|h| - 1])
  }

  predicate Notifies(e: Event) {
    e.kind == "regulator_notified" || e.kind == "subjects_notified"
  }

  predicate AllNotify(h: seq<Event>, i: nat) {
    forall j :: i < j < |h| ==> Notifies(h[j])
  }

  /**
   `closed_at` is set exactly in a terminal status; there it is the time of the one event that made
   the status terminal, and only notifications follow that event.
   */
  ghost predicate ClosedByOneEvent(h: seq<Event>, status: string, closedAt: real) {
    && (Terminal(status) <==> closedAt != 0.0)
    && (Terminal(status) <==> exists i :: 0 <= i < |h| && Terminal(h[i].toStatus))
    && (forall i :: 0 <= i < |h| && Terminal(h[i].toStatus) ==> h[i].at == closedAt && AllNotify(h, i))
  }

  /** The time of an event of this kind, and zero without one. */
  ghost predicate NotedOnce(h: seq<Event>, kind: string, at: real) {
    && (at != 0.0 <==> exists i :: 0 <= i < |h| && h[i].kind == kind)
    && (forall i :: 0 <= i < |h| && h[i].kind == kind ==> h[i].at == at)
    && (forall i, j :: 0 <= i < j < |h| ==> !(h[i].kind == kind && h[j].kind == kind))
  }

  /** The status the last status-changing event led to. */
  function StatusAfter(h: seq<Event>): string {
    if h == [] then "" else if h[|h| - 1].toStatus != "" then h[|h| - 1].toStatus else StatusAfter(h[..|h| - 1])
  }

  /** Every status change starts from the status the previous one led to. */
  ghost predicate Chained(h: seq<Event>) {
    forall i :: 0 <= i < |h| && h[i].toStatus != "" ==> h[i].fromStatus == StatusAfter(h[..i])
  }

  ghost predicate Chronological(h: seq<Event>) {
    (forall i :: 0 <= i < |h| ==> h[i].at > 0.0) && forall i, j :: 0 <= i < j < |h| ==> h[i].at <= h[j].at
  }

  lemma {:induction false} LifeInTime(h: seq<Event>)
    requires LifeOf(h).Some?
    ensures Chronological(h) && LifeOf(h).value.last == h[|h| - 1].at
  {
    if |h| > 1 {
      var n := |h| - 1;
      LifeInTime(h[..n]);
      assert forall i :: 0 <= i < n ==> h[i] == h[..n][i];
    }
  }

  lemma ChainedSnoc(front: seq<Event>, e: Event)
    requires Chained(front) && (e.toStatus != "" ==> e.fromStatus == StatusAfter(front))
    ensures Chained(front + [e])
    ensures StatusAfter(front + [e]) == if e.toStatus != "" then e.toStatus else StatusAfter(front)
  {
    var h := front + [e];
    assert h[..|front|] == front;
    forall i | 0 <= i < |h| && h[i].toStatus != "" ensures h[i].fromStatus == StatusAfter(h[..i]) {
      if i < |front| {
        assert front[i] == h[i] && front[..i] == h[..i];
      }
    }
  }

  lemma {:induction false} LifeChained(h: seq<Event>)
    requires LifeOf(h).Some?
    ensures Chained(h) && LifeOf(h).value.status == StatusAfter(h)
  {
    var front, e := h[..|h| - 1], h[|h| - 1];
    assert h == front + [e];
    if |h| > 1 {
      LifeChained(front);
    }
    ChainedSnoc(front, e);
  }

  /** What one more event means for being closed. */
  lemma LivedCloses(l: Life, e: Event)
    requires Lived(l, e).Some? && e.at > 0.0 && (Terminal(l.status) <==> l.closedAt != 0.0)
    ensures var m := Lived(l, e).value;
            && (Terminal(m.status) <==> m.closedAt != 0.0)
            && (Terminal(e.toStatus) ==> !Terminal(l.status) && Terminal(m.status) && m.closedAt == e.at)
            && (!Terminal(e.toStatus) ==> (Terminal(m.status) <==> Terminal(l.status)))
            && (Terminal(l.status) ==> m.closedAt == l.closedAt && Notifies(e))
  {
  }

  lemma {:induction false} ClosedSnoc(front: seq<Event>, e: Event, status: string, closedAt: real, status': string,
                                      closedAt': real)
    requires ClosedByOneEvent(front, status, closedAt) && (Terminal(status') <==> closedAt' != 0.0)
    requires Terminal(e.toStatus) ==> !Terminal(status) && Terminal(status') && closedAt' == e.at
    requires !Terminal(e.toStatus) ==> (Terminal(status') <==> Terminal(status))
    requires Terminal(status) ==> closedAt' == closedAt && Notifies(e)
    ensures ClosedByOneEvent(front + [e], status', closedAt')
  {
    var h, n := front + [e], |front|;
    assert h[n] == e && forall i :: 0 <= i < n ==> h[i] == front[i];
    forall i | 0 <= i < |h| && Terminal(h[i].toStatus) ensures h[i].at == closedAt' && AllNotify(h, i) {
      if i < n {
        assert Terminal(front[i].toStatus) && AllNotify(front, i);
      }
    }
    if Terminal(status) {
      var i :| 0 <= i < n && Terminal(front[i].toStatus);
      assert Terminal(h[i].toStatus);
    }
  }

  lemma {:induction false} LifeClosed(h: seq<Event>)
    requires LifeOf(h).Some?
    ensures ClosedByOneEvent(h, LifeOf(h).value.status, LifeOf(h).value.closedAt)
  {
    if |h| > 1 {
      var front, e := h[..|h| - 1], h[|h| - 1];
      assert h == front + [e];
      assert e.at > 0.0 by {
        LifeInTime(h);
      }
      LifeClosed(front);
      var l, m := LifeOf(front).value, LifeOf(h).value;
      LivedCloses(l, e);
      ClosedSnoc(front, e, l.status, l.closedAt, m.status, m.closedAt);
    }
  }

  /** The time a life has on record for an event kind. */
  function NoteTime(l: Life, kind: string): real {
    if kind == "regulator_notified" then l.regulatorAt else l.subjectsAt
  }

  lemma LivedNotes(l: Life, e: Event, kind: string)
    requires Lived(l, e).Some? && (kind == "regulator_notified" || kind == "subjects_notified")
    ensures if e.kind == kind then NoteTime(l, kind) == 0.0 && NoteTime(Lived(l, e).value, kind) == e.at
            else NoteTime(Lived(l, e).value, kind) == NoteTime(l, kind)
  {
  }

  lemma {:induction false} LifeNoted(h: seq<Event>, kind: string)
    requires LifeOf(h).Some? && (kind == "regulator_notified" || kind == "subjects_notified")
    ensures NotedOnce(h, kind, NoteTime(LifeOf(h).value, kind))
  {
    if |h| > 1 {
      var front, e := h[..|h| - 1], h[|h| - 1];
      assert e.at > 0.0 by {
        LifeInTime(h);
      }
      LifeNoted(front, kind);
      LivedNotes(LifeOf(front).value, e, kind);
      NotedSnoc(front, e, kind, NoteTime(LifeOf(front).value, kind));
      assert h == front + [e];
    }
  }

  lemma {:induction false} NotedSnoc(front: seq<Event>, e: Event, kind: string, at: real)
    requires NotedOnce(front, kind, at) && e.at > 0.0
    ensures e.kind != kind ==> NotedOnce(front + [e], kind, at)
    ensures e.kind == kind && at == 0.0 ==> NotedOnce(front + [e], kind, e.at)
  {
    var h := front + [e];
    assert forall i :: 0 <= i < |front| ==> h[i] == front[i];
    assert h[|front|] == e;
    if at != 0.0 {
      var i :| 0 <= i < |front| && front[i].kind == kind;
      assert h[i].kind == kind;
    }
  }

  // ---------------------------------------------------------------- the incident invariant

  /**
   The incident's fields are those of its history, and nothing is recorded about a regulator before the
   notification.
   */
  ghost predicate Legal(inc: Incident, clock: real) {
    && LifeOf(inc.history) == Some(Life(inc.status, inc.closedAt, inc.regulatorAt, inc.subjectsAt, inc.updatedAt))
    && (inc.regulatorAt == 0.0 ==> inc.regulatorName == "" && inc.regulatorReference == "")
    && inc.updatedAt <= clock
  }

  /** What the tracker's documentation promises about every incident. */
  lemma {:induction false} LegalMeans(inc: Incident, clock: real)
    requires Legal(inc, clock)
    ensures ClosedByOneEvent(inc.history, inc.status, inc.closedAt)
    ensures Chained(inc.history) && inc.status == StatusAfter(inc.history)
    ensures NotedOnce(inc.history, "regulator_notified", inc.regulatorAt)
    ensures NotedOnce(inc.history, "subjects_notified", inc.subjectsAt)
    ensures Chronological(inc.history) && inc.updatedAt == inc.history[|inc.history| - 1].at
  {
    LifeClosed(inc.history);
    LifeChained(inc.history);
    LifeNoted(inc.history, "regulator_notified");
    LifeNoted(inc.history, "subjects_notified");
    LifeInTime(inc.history);
  }

  lemma {:induction false} ChangeIsLegal(inc: Incident, c: Change, clock: real, now: real)
    requires Legal(inc, clock) && clock <= now && 0.0 < now && ArgumentsOk(c) && Permits(inc, c)
    ensures Legal(Changed(inc, c, now), now)
  {
    var e := EventOf(inc, c, now);
    LifeSnoc(inc.history, e);
    OpenIsNotClosed(inc.history);
    ChangeIsLived(inc, c, now);
  }

  lemma LifeSnoc(h: seq<Event>, e: Event)
    requires LifeOf(h).Some?
    ensures LifeOf(h + [e]) == Lived(LifeOf(h).value, e)
  {
    assert (h + [e])[..|h|] == h;
  }

  lemma OpenIsNotClosed(h: seq<Event>)
    requires LifeOf(h).Some?
    ensures !Terminal(LifeOf(h).value.status) ==> LifeOf(h).value.closedAt == 0.0
  {
    LifeClosed(h);
  }

  lemma {:induction false} ChangeIsLived(inc: Incident, c: Change, now: real)
    requires inc.updatedAt <= now && ArgumentsOk(c) && Permits(inc, c)
    requires !Terminal(inc.status) ==> inc.closedAt == 0.0
    ensures var after := Changed(inc, c, now);
            Lived(Life(inc.status, inc.closedAt, inc.regulatorAt, inc.subjectsAt, inc.updatedAt), EventOf(inc, c, now))
            == Some(Life(after.status, after.closedAt, after.regulatorAt, after.subjectsAt, after.updatedAt))
  {
  }

  /** Command and loader make the same incident out of one event. */
  lemma {:induction false} LoaderAgrees(inc: Incident, c: Change, clock: real, now: real, loadedAt: real)
    requires Legal(inc, clock) && 0.0 < now && ArgumentsOk(c) && Permits(inc, c)
    ensures Patched(inc, EventOf(inc, c, now), ExtraOf(c), loadedAt) == Changed(inc, c, now)
  {
  }

  /** For a stored regulator notice this needs the invariant: an empty reference does not clear an old one. */
  lemma {:induction false} LoaderAgreesOnRegulatorExactly(inc: Incident, c: Change, now: real, loadedAt: real)
    requires c.NotifyRegulator? && 0.0 < now && ArgumentsOk(c) && Permits(inc, c)
    ensures Patched(inc, EventOf(inc, c, now), ExtraOf(c), loadedAt) == Changed(inc, c, now)
            <==> Cut(Strip(c.reference), 200) != "" || inc.regulatorReference == ""
  {
  }

  // ---------------------------------------------------------------- commands

  datatype Command =
    | Declare(tenant: string, id: string, declaration: Declaration)
    | Apply(tenant: string, id: string, change: Change)
    | Read
    | Reset

  datatype Timed = Timed(command: Command, now: real)

  function Next(s: State, t: Timed): State {
    match t.command
    case Declare(tenant, id, d) => AfterDeclare(s, tenant, id, d, t.now).0
    case Apply(tenant, id, c) => AfterChange(s, tenant, id, c, t.now).0
    case Read => s.(cache := Some(Loaded(s, t.now)))
    case Reset => s.(cache := None)
  }

  function Run(s: State, ts: seq<Timed>): State
    decreases |ts|
  {
    if ts == [] then s else Run(Next(s, ts[0]), ts[1..])
  }

  /** A positive clock that never goes back, and real tenant names and ids. */
  ghost predicate Proper(ts: seq<Timed>, clock: real)
    decreases |ts|
  {
    ts == [] || (
      && 0.0 < ts[0].now && clock <= ts[0].now
      && (ts[0].command.Declare? || ts[0].command.Apply? ==> ts[0].command.tenant != "" && ts[0].command.id != "")
      && Proper(ts[1..], ts[0].now))
  }

  ghost predicate RowTimed(r: Row) {
    r.EventRow? ==> r.event.at != 0.0
  }

  ghost predicate LogTimed(log: seq<Row>) {
    forall i :: 0 <= i < |log| ==> RowTimed(log[i])
  }

  ghost predicate AllLegal(store: Store, clock: real) {
    forall t, id :: Find(store, t, id).Some? ==> Legal(Find(store, t, id).value, clock)
  }

  /** The cache, when there is one, is a replay of the log, and every incident in it is legal. */
  ghost predicate Inv(s: State, clock: real) {
    && LogTimed(s.log)
    && (s.cache.Some? ==> s.cache.value == Replay(s.log, 0.0))
    && AllLegal(Replay(s.log, 0.0), clock)
  }

  /** With every event timed, it does not matter when the log is read. */
  lemma {:induction false} ReplayAnytime(log: seq<Row>, a: real)
    requires LogTimed(log)
    ensures Replay(log, a) == Replay(log, 0.0)
  {
    if log != [] {
      var n := |log| - 1;
      assert forall i :: 0 <= i < n ==> log[..n][i] == log[i];
      ReplayAnytime(log[..n], a);
      RowAnytime(Replay(log[..n], 0.0), log[n], a);
    }
  }

  lemma {:induction false} RowAnytime(store: Store, row: Row, a: real)
    requires RowTimed(row)
    ensures ApplyRow(store, row, a) == ApplyRow(store, row, 0.0)
  {
  }

  lemma {:induction false} ReplaySnoc(log: seq<Row>, row: Row, a: real)
    ensures Replay(log + [row], a) == ApplyRow(Replay(log, a), row, a)
  {
    assert (log + [row])[..|log|] == log;
  }

  lemma {:induction false} SetInLegal(store: Store, tenant: string, id: string, inc: Incident, clock: real, now: real)
    requires AllLegal(store, clock) && clock <= now && Legal(inc, now)
    ensures AllLegal(SetIn(store, tenant, id, inc), now)
  {
    forall t, k | Find(SetIn(store, tenant, id, inc), t, k).Some?
      ensures Legal(Find(SetIn(store, tenant, id, inc), t, k).value, now)
    {
      FindSetIn(store, tenant, id, inc, t, k);
    }
  }

  /** Replaying the two rows of a declaration stores the declared incident with its intake event. */
  lemma {:induction false} DeclareReplays(s: State, tenant: string, id: string, d: Declaration, now: real, a: real)
    requires DeclarationOk(d, now) && 0.0 < now && tenant != "" && id != ""
    ensures var inc, ev := Declared(tenant, id, d, now), Intake(d, now);
            Replay(s.log + [Base(inc), EventRow(tenant, id, ev, NoExtra)], a)
            == SetIn(Replay(s.log, a), tenant, id, inc.(history := [ev]))
  {
    var inc, ev := Declared(tenant, id, d, now), Intake(d, now);
    var base, row := Base(inc), EventRow(tenant, id, ev, NoExtra);
    assert s.log + [base, row] == (s.log + [base]) + [row];
    ReplaySnoc(s.log, base, a);
    ReplaySnoc(s.log + [base], row, a);
    DeclareRows(Replay(s.log, a), tenant, id, d, now, a);
  }

  lemma {:induction false} DeclareRows(store: Store, tenant: string, id: string, d: Declaration, now: real, a: real)
    requires DeclarationOk(d, now) && 0.0 < now && tenant != "" && id != ""
    ensures var inc, ev := Declared(tenant, id, d, now), Intake(d, now);
            ApplyRow(ApplyRow(store, Base(inc), a), EventRow(tenant, id, ev, NoExtra), a)
            == SetIn(store, tenant, id, inc.(history := [ev]))
  {
    var inc, ev := Declared(tenant, id, d, now), Intake(d, now);
    FreshIncident(tenant, id, d, now, a);
    assert ApplyRow(store, Base(inc), a) == SetIn(store, tenant, id, inc);
    FindSetIn(store, tenant, id, inc, tenant, id);
    SetInTwice(store, tenant, id, inc, inc.(history := [ev]));
  }

  lemma {:induction false} FreshIncident(tenant: string, id: string, d: Declaration, now: real, a: real)
    requires DeclarationOk(d, now) && 0.0 < now && tenant != ""
    ensures var inc, ev := Declared(tenant, id, d, now), Intake(d, now);
            FromBase(inc) == inc && Patched(inc, ev, NoExtra, a) == inc.(history := [ev])
  {
  }

  lemma {:induction false} DeclaredIsLegal(tenant: string, id: string, d: Declaration, now: real)
    requires 0.0 < now
    ensures Legal(Declared(tenant, id, d, now).(history := [Intake(d, now)]), now)
  {
    var h := [Intake(d, now)];
    assert |h| == 1 && Opening(h[0]);
  }

  lemma {:induction false} DeclareStep(s: State, tenant: string, id: string, d: Declaration, clock: real, now: real)
    requires Inv(s, clock) && clock <= now && 0.0 < now && tenant != "" && id != ""
    ensures Inv(AfterDeclare(s, tenant, id, d, now).0, now)
  {
    if DeclarationOk(d, now) {
      var inc, ev := Declared(tenant, id, d, now), Intake(d, now);
      var filed := inc.(history := [ev]);
      var rows := [Base(inc), EventRow(tenant, id, ev, NoExtra)];
      var log := s.log + rows;
      assert LogTimed(log) by {
        forall i | 0 <= i < |log| ensures RowTimed(log[i]) {
          if i < |s.log| {
            assert log[i] == s.log[i];
          }
        }
      }
      DeclareReplays(s, tenant, id, d, now, 0.0);
      ReplayAnytime(log, now);
      DeclaredIsLegal(tenant, id, d, now);
      SetInLegal(Replay(s.log, 0.0), tenant, id, filed, clock, now);
      SetInTwice(Replay(s.log, 0.0), tenant, id, filed, filed);
    } else {
      LaterIsLegal(s, clock, now);
    }
  }

  lemma {:induction false} LaterIsLegal(s: State, clock: real, now: real)
    requires Inv(s, clock) && clock <= now
    ensures Inv(s, now)
  {
  }

  lemma {:induction false} ChangeStep(s: State, tenant: string, id: string, c: Change, clock: real, now: real)
    requires Inv(s, clock) && clock <= now && 0.0 < now && tenant != "" && id != ""
    ensures Inv(AfterChange(s, tenant, id, c, now).0, now)
  {
    ReplayAnytime(s.log, now);
    LaterIsLegal(s, clock, now);
    var store := Replay(s.log, 0.0);
    if ArgumentsOk(c) && Find(store, tenant, id).Some? && Permits(Find(store, tenant, id).value, c) {
      var inc := Find(store, tenant, id).value;
      var row := EventRow(tenant, id, EventOf(inc, c, now), ExtraOf(c));
      var log := s.log + [row];
      assert LogTimed(log) by {
        forall i | 0 <= i < |log| ensures RowTimed(log[i]) {
          if i < |s.log| {
            assert log[i] == s.log[i];
          }
        }
      }
      ReplaySnoc(s.log, row, 0.0);
      LoaderAgrees(inc, c, clock, now, 0.0);
      ChangeIsLegal(inc, c, clock, now);
      SetInLegal(store, tenant, id, Changed(inc, c, now), clock, now);
    }
  }

  /**
   After any proper sequence of commands, reads and cache resets, the cache equals a fresh replay
   of the log, incident by incident, field by field and in listing order, at whatever time the log
   is read; and every incident's life is legal.
   */
  lemma {:induction false} CacheIsAlwaysAReplay(s: State, ts: seq<Timed>, clock: real)
    requires Inv(s, clock) && Proper(ts, clock)
    ensures exists later :: clock <= later && Inv(Run(s, ts), later)
    ensures forall a :: Run(s, ts).cache.Some? ==> Run(s, ts).cache.value == Replay(Run(s, ts).log, a)
    decreases |ts|
  {
    if ts == [] {
      forall a ensures Replay(s.log, a) == Replay(s.log, 0.0) {
        ReplayAnytime(s.log, a);
      }
      assert Inv(Run(s, ts), clock);
    } else {
      var t := ts[0];
      match t.command {
        case Declare(tenant, id, d) => DeclareStep(s, tenant, id, d, clock, t.now);
        case Apply(tenant, id, c) => ChangeStep(s, tenant, id, c, clock, t.now);
        case Read => ReplayAnytime(s.log, t.now); LaterIsLegal(s, clock, t.now);
        case Reset => LaterIsLegal(s, clock, t.now);
      }
      CacheIsAlwaysAReplay(Next(s, t), ts[1..], t.now);
      assert Run(s, ts) == Run(Next(s, t), ts[1..]);
    }
  }

  lemma {:induction false} StartInv(clock: real)
    ensures Inv(State([], None), clock)
  {
  }

  /** The loader never stores anything under the empty tenant name. */
  lemma {:induction false} NoNamelessStore(log: seq<Row>, a: real)
    ensures "" !in Replay(log, a)
  {
    if log != [] {
      NoNamelessStore(log[..|log| - 1], a);
    }
  }

  /**
   The tenant name must not be empty: in every state of every run, an accepted declaration leaves a
   cache that agrees with a replay exactly when the name is non-empty, because the loader files
   nameless rows under `default`.
   */
  lemma {:induction false} DeclareAgreesExactly(s: State, tenant: string, id: string, d: Declaration, clock: real,
                                                now: real, a: real)
    requires Inv(s, clock) && clock <= now && 0.0 < now && id != "" && DeclarationOk(d, now)
    ensures var t := AfterDeclare(s, tenant, id, d, now).0;
            t.cache.Some? && (t.cache.value == Replay(t.log, a) <==> tenant != "")
  {
    var t := AfterDeclare(s, tenant, id, d, now).0;
    if tenant != "" {
      DeclareStep(s, tenant, id, d, clock, now);
      ReplayAnytime(t.log, a);
    } else {
      NoNamelessStore(t.log, a);
      assert "" in t.cache.value;
    }
  }

  const NAMELESS := Declaration("x", "low", "", None, "")

  /** Such a declaration into the empty log: the cache differs from every replay. */
  lemma {:induction false} NamelessDeclaration(id: string, a: real)
    requires id != ""
    ensures var t := AfterDeclare(State([], Some(map[])), "", id, NAMELESS, 1.0).0;
            t.cache.Some? && t.cache.value != Replay(t.log, a)
  {
    assert Strip("x") == "x" && Strip("low") == "low" && Lower("low") == "low";
    assert SEVERITIES[0] == "low";
    DeclareAgreesExactly(State([], Some(map[])), "", id, NAMELESS, 0.0, 1.0, a);
  }
}
