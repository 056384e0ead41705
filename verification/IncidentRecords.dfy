/**
 What the incident commands put on record, argument by argument, as a reader of the log finds it after
 a restart: which are refused and why, which field holds which argument, and what stays as it was.
 */
module IncidentRecords {
  import opened Options
  import opened OrderedDicts
  import opened TenantStores
  import opened Texts
  import opened IncidentStores
  import opened IncidentRuns

  function Who(actor: string): string {
    if actor == "" then "system" else actor
  }

  /** The first `n` characters. */
  function First(s: string, n: nat): string {
    s[..if |s| < n then |s| else n]
  }

  lemma FirstIsCut(s: string, n: nat)
    ensures Cut(s, n) == First(s, n)
  {
  }

  // ---------------------------------------------------------------- declarations

  /** When the incident was discovered: as given, or now. */
  ghost predicate FoundAt(d: Declaration, now: real, at: real) {
    if d.discoveredAt.Some? && d.discoveredAt.value != 0.0 then at == d.discoveredAt.value else at == now
  }

  /** A title of 1 to 200 characters, one of four severities, found within the last 365 days or the next minute. */
  ghost predicate Acceptable(d: Declaration, now: real) {
    var severity := Lower(Strip(d.severity));
    && 1 <= |Strip(d.title)| <= 200
    && (severity == "low" || severity == "medium" || severity == "high" || severity == "critical")
    && exists at: real :: FoundAt(d, now, at) && now - 31536000.0 <= at <= now + 60.0
  }

  /** The incident says what was declared, and its history is the declaration. */
  ghost predicate DeclaredAs(inc: Incident, tenant: string, id: string, d: Declaration, now: real) {
    && inc.id == id && inc.tenant == tenant
    && inc.title == Strip(d.title) && inc.severity == Lower(Strip(d.severity)) && inc.status == "open"
    && inc.detail == First(Strip(d.detail), 8000) && FoundAt(d, now, inc.discoveredAt)
    && inc.createdAt == now && inc.updatedAt == now && inc.closedAt == 0.0
    && inc.regulatorAt == 0.0 && inc.regulatorName == "" && inc.regulatorReference == ""
    && inc.subjectsAt == 0.0 && inc.affected == 0
    && inc.history == [Event(now, Who(d.actor), "declared", First(Strip(d.detail), 8000), "", "open")]
  }

  lemma {:induction false} AcceptableExactly(d: Declaration, now: real)
    ensures DeclarationOk(d, now) <==> Acceptable(d, now)
  {
    assert SEVERITIES[0] == "low" && SEVERITIES[1] == "medium";
    assert SEVERITIES[2] == "high" && SEVERITIES[3] == "critical";
    assert FoundAt(d, now, DiscoveredAt(d, now));
  }

  /**
   A declaration is accepted exactly when it is acceptable.  It then returns the declared incident, and
   whoever reads the log, at any time, finds that incident and every other one as it was.
   */
  lemma {:induction false} DeclarationOnRecord(s: State, tenant: string, id: string, d: Declaration, clock: real,
                                               now: real, a: real)
    requires Inv(s, clock) && clock <= now && 0.0 < now && tenant != "" && id != ""
    ensures var (t, r) := AfterDeclare(s, tenant, id, d, now);
            if Acceptable(d, now) then
              && r.Ok? && DeclaredAs(r.incident, tenant, id, d, now)
              && Find(Replay(t.log, a), tenant, id) == Some(r.incident)
              && forall u, k :: u != tenant || k != id ==> Find(Replay(t.log, a), u, k) == Find(Replay(s.log, a), u, k)
            else r == Err(Invalid) && t == s
  {
    AcceptableExactly(d, now);
    if Acceptable(d, now) {
      var inc, ev := Declared(tenant, id, d, now), Intake(d, now);
      DeclareReplays(s, tenant, id, d, now, a);
      forall u, k
        ensures Find(SetIn(Replay(s.log, a), tenant, id, inc.(history := [ev])), u, k)
             == if u == tenant && k == id then Some(inc.(history := [ev])) else Find(Replay(s.log, a), u, k)
      {
        FindSetIn(Replay(s.log, a), tenant, id, inc.(history := [ev]), u, k);
      }
    }
  }

  // ---------------------------------------------------------------- changes

  ghost predicate Final(status: string) {
    status == "resolved" || status == "closed_no_action"
  }

  /** The checks on the arguments alone. */
  ghost predicate WellFormed(c: Change) {
    match c
    case Note(note, _) => Strip(note) != ""
    case Advance(to, note, _) =>
      var target := Lower(Strip(to));
      && (target == "open" || target == "contained" || target == "resolved" || target == "closed_no_action")
      && (target == "closed_no_action" ==> Strip(note) != "")
    case NotifyRegulator(name, _, _, _) => 1 <= |Strip(name)| <= 200
    case NotifySubjects(count, _, _) => 0 <= count <= 10_000_000
  }

  /** The checks against the incident: no notes or moves once it is final, and each notice once. */
  ghost predicate Possible(inc: Incident, c: Change) {
    match c
    case Note(_, _) => !Final(inc.status)
    case Advance(to, _, _) => !Final(inc.status) && Lower(Strip(to)) != inc.status
    case NotifyRegulator(_, _, _, _) => inc.regulatorAt == 0.0
    case NotifySubjects(_, _, _) => inc.subjectsAt == 0.0
  }

  /** What no change touches. */
  ghost predicate SameIncident(before: Incident, after: Incident) {
    && after.id == before.id && after.tenant == before.tenant && after.title == before.title
    && after.severity == before.severity && after.detail == before.detail
    && after.discoveredAt == before.discoveredAt && after.createdAt == before.createdAt
  }

  ghost predicate SameProgress(before: Incident, after: Incident) {
    after.status == before.status && after.closedAt == before.closedAt
  }

  ghost predicate SameRegulator(before: Incident, after: Incident) {
    && after.regulatorAt == before.regulatorAt && after.regulatorName == before.regulatorName
    && after.regulatorReference == before.regulatorReference
  }

  ghost predicate SameSubjects(before: Incident, after: Incident) {
    after.subjectsAt == before.subjectsAt && after.affected == before.affected
  }

  /** The incident after an accepted command, with the event the command adds. */
  ghost predicate ChangedAs(before: Incident, after: Incident, c: Change, now: real) {
    && SameIncident(before, after) && after.updatedAt == now
    && match c
       case Note(note, actor) =>
         && SameProgress(before, after) && SameRegulator(before, after) && SameSubjects(before, after)
         && after.history == before.history + [Event(now, Who(actor), "note", First(Strip(note), 4000), "", "")]
       case Advance(to, note, actor) =>
         && SameRegulator(before, after) && SameSubjects(before, after)
         && after.status == Lower(Strip(to))
         && after.closedAt == (if Final(after.status) && before.closedAt == 0.0 then now else before.closedAt)
         && after.history == before.history
              + [Event(now, Who(actor), "advanced", First(Strip(note), 4000), before.status, after.status)]
       case NotifyRegulator(name, reference, note, actor) =>
         && SameProgress(before, after) && SameSubjects(before, after)
         && after.regulatorAt == now && after.regulatorName == Strip(name)
         && after.regulatorReference == First(Strip(reference), 200)
         && after.history == before.history
              + [Event(now, Who(actor), "regulator_notified", First(Strip(note), 4000), "", "")]
       case NotifySubjects(count, note, actor) =>
         && SameProgress(before, after) && SameRegulator(before, after)
         && after.subjectsAt == now && after.affected == count
         && after.history == before.history
              + [Event(now, Who(actor), "subjects_notified", First(Strip(note), 4000), "", "")]
  }

  lemma WellFormedExactly(c: Change)
    ensures ArgumentsOk(c) <==> WellFormed(c)
  {
    assert STATUSES[0] == "open" && STATUSES[1] == "contained" && STATUSES[2] == "resolved";
    assert STATUSES[3] == "closed_no_action";
  }

  lemma {:induction false} ChangedExactly(inc: Incident, c: Change, now: real)
    ensures Permits(inc, c) <==> Possible(inc, c)
    ensures ChangedAs(inc, Changed(inc, c, now), c, now)
  {
    FirstIsCut(Strip(c.note), 4000);
    if c.NotifyRegulator? {
      FirstIsCut(Strip(c.reference), 200);
    }
  }

  /**
   A change is accepted exactly when its arguments are well-formed, the incident exists, and the incident
   allows it; the three checks are made in this order.  It then returns the changed incident, and
   whoever reads the log finds it, and every other incident as it was.
   */
  lemma {:induction false} ChangeOnRecord(s: State, tenant: string, id: string, c: Change, clock: real, now: real,
                                          a: real)
    requires Inv(s, clock) && clock <= now && 0.0 < now && tenant != "" && id != ""
    ensures var (t, r) := AfterChange(s, tenant, id, c, now);
            var found := Find(Replay(s.log, a), tenant, id);
            if !WellFormed(c) then r == Err(Invalid) && t.log == s.log
            else if found.None? then r == Err(NotFound) && t.log == s.log
            else if !Possible(found.value, c) then r == Err(Invalid) && t.log == s.log
            else
              && r.Ok? && ChangedAs(found.value, r.incident, c, now)
              && Find(Replay(t.log, a), tenant, id) == Some(r.incident)
              && forall u, k :: u != tenant || k != id ==> Find(Replay(t.log, a), u, k) == Find(Replay(s.log, a), u, k)
  {
    var (t, r) := AfterChange(s, tenant, id, c, now);
    WellFormedExactly(c);
    ReplayAnytime(s.log, a);
    ReplayAnytime(s.log, now);
    var store := Replay(s.log, a);
    if WellFormed(c) && Find(store, tenant, id).Some? {
      var inc := Find(store, tenant, id).value;
      ChangedExactly(inc, c, now);
      if Possible(inc, c) {
        ChangeStep(s, tenant, id, c, clock, now);
        ReplayAnytime(t.log, a);
        assert Replay(t.log, a) == SetIn(store, tenant, id, Changed(inc, c, now));
        forall u, k
          ensures Find(Replay(t.log, a), u, k)
               == if u == tenant && k == id then Some(Changed(inc, c, now)) else Find(store, u, k)
        {
          FindSetIn(store, tenant, id, Changed(inc, c, now), u, k);
        }
      }
    }
  }

  // ---------------------------------------------------------------- any row

  function Filled(x: string, default: string): string {
    if x == "" then default else x
  }

  function Timely(x: real, default: real): real {
    if x == 0.0 then default else x
  }

  /** An incident as its first row gives it, with defaults for what is missing and no history. */
  ghost predicate LoadedAs(row: Incident, inc: Incident) {
    && inc.id == row.id && inc.tenant == Filled(row.tenant, "default") && inc.title == row.title
    && inc.severity == Filled(row.severity, "low") && inc.status == Filled(row.status, "open")
    && inc.detail == row.detail && inc.discoveredAt == row.discoveredAt && inc.createdAt == row.createdAt
    && inc.updatedAt == Timely(row.updatedAt, row.createdAt) && inc.closedAt == row.closedAt
    && SameRegulator(row, inc) && SameSubjects(row, inc) && inc.history == []
  }

  /** An incident after an event row: the event's status if it has one, and what its kind tells. */
  ghost predicate PatchedAs(before: Incident, after: Incident, e: Event, extra: Extra, at: real) {
    && SameIncident(before, after) && after.updatedAt == at
    && after.history == before.history + [e.(at := at)]
    && after.status == Filled(e.toStatus, before.status)
    && after.closedAt == (if Final(e.toStatus) && before.closedAt == 0.0 then at else before.closedAt)
    && (if e.kind == "regulator_notified" then
          && after.regulatorAt == Timely(before.regulatorAt, at)
          && after.regulatorName == Filled(if extra.Regulator? then extra.name else "", before.regulatorName)
          && after.regulatorReference
             == Filled(if extra.Regulator? then extra.reference else "", before.regulatorReference)
        else SameRegulator(before, after))
    && (if e.kind == "subjects_notified" then
          && after.subjectsAt == Timely(before.subjectsAt, at)
          && after.affected == if extra.Subjects? then extra.count else before.affected
        else SameSubjects(before, after))
  }

  lemma {:induction false} RegulatorPatched(inc: Incident, e: Event, extra: Extra, loadedAt: real)
    requires e.kind == "regulator_notified"
    ensures PatchedAs(inc, Patched(inc, e, extra, loadedAt), e, extra, Timely(e.at, loadedAt))
  {
  }

  lemma {:induction false} SubjectsPatched(inc: Incident, e: Event, extra: Extra, loadedAt: real)
    requires e.kind == "subjects_notified"
    ensures PatchedAs(inc, Patched(inc, e, extra, loadedAt), e, extra, Timely(e.at, loadedAt))
  {
  }

  lemma {:induction false} OtherPatched(inc: Incident, e: Event, extra: Extra, loadedAt: real)
    requires e.kind != "regulator_notified" && e.kind != "subjects_notified"
    ensures PatchedAs(inc, Patched(inc, e, extra, loadedAt), e, extra, Timely(e.at, loadedAt))
  {
  }

  lemma {:induction false} PatchedExactly(inc: Incident, e: Event, extra: Extra, loadedAt: real)
    ensures PatchedAs(inc, Patched(inc, e, extra, loadedAt), e, extra, Timely(e.at, loadedAt))
  {
    if e.kind == "regulator_notified" {
      RegulatorPatched(inc, e, extra, loadedAt);
    } else if e.kind == "subjects_notified" {
      SubjectsPatched(inc, e, extra, loadedAt);
    } else {
      OtherPatched(inc, e, extra, loadedAt);
    }
  }

  lemma BaseExactly(inc: Incident)
    ensures LoadedAs(inc, FromBase(inc))
  {
  }

  /** The key that a row is about; rows without a tenant name are the default tenant's. */
  ghost predicate About(row: Row, tenant: string, id: string) {
    id != "" && match row
                case Base(inc) => tenant == Filled(inc.tenant, "default") && id == inc.id
                case EventRow(t, i, _, _) => tenant == Filled(t, "default") && id == i
                case Tombstone(t, i) => tenant == Filled(t, "default") && id == i
  }

  /**
   What one more row of any kind changes for a reader, at any key: a first row sets its incident, an event
   row patches the incident it names if there is one, a tombstone removes it; no other key changes.
   */
  lemma {:induction false} RowOnRecord(log: seq<Row>, row: Row, tenant: string, id: string, loadedAt: real)
    ensures var before := Find(Replay(log, loadedAt), tenant, id);
            var after := Find(Replay(log + [row], loadedAt), tenant, id);
            if !About(row, tenant, id) then after == before
            else match row
                 case Base(inc) => after.Some? && LoadedAs(inc, after.value)
                 case EventRow(_, _, e, extra) =>
                   if before.None? then after.None?
                   else after.Some? && PatchedAs(before.value, after.value, e, extra, Timely(e.at, loadedAt))
                 case Tombstone(_, _) => after.None?
  {
    var store := Replay(log, loadedAt);
    ReplaySnoc(log, row, loadedAt);
    match row
    case Base(inc) =>
      BaseExactly(inc);
      FindSetIn(store, Filled(inc.tenant, "default"), inc.id, FromBase(inc), tenant, id);
    case EventRow(t, i, e, extra) =>
      var u := Filled(t, "default");
      if Find(store, u, i).Some? {
        var inc := Find(store, u, i).value;
        PatchedExactly(inc, e, extra, loadedAt);
        FindSetIn(store, u, i, Patched(inc, e, extra, loadedAt), tenant, id);
      }
    case Tombstone(t, i) =>
      FindRemoved(store, Filled(t, "default"), i, tenant, id);
  }
}
