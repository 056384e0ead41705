/**
 What the commands on data-subject requests put on record, argument by argument, as a reader of the
 log finds it after a restart.
 */
module DsarRecords {
  import opened Options
  import opened OrderedDicts
  import opened TenantStores
  import opened Texts
  import opened Dsar

  function Who(actor: string): string {
    if actor == "" then "system" else actor
  }

  /** The note as it is kept: trimmed, its first 2000 characters. */
  function Kept(note: string): string {
    var trimmed := Strip(note);
    trimmed[..if |trimmed| < 2000 then |trimmed| else 2000]
  }

  lemma KeptIsCut(note: string)
    ensures Cut(Strip(note), 2000) == Kept(note)
    ensures Kept(note) == "" <==> Strip(note) == ""
  {
  }

  // ---------------------------------------------------------------- filings

  /** An address that fits the pattern, one of four kinds, and 1 to 365 days. */
  ghost predicate Acceptable(emailOk: string -> bool, f: Filing) {
    var kind := Lower(Strip(f.kind));
    && emailOk(Strip(f.email)) && 1 <= f.dueDays <= 365
    && (kind == "access" || kind == "erasure" || kind == "portability" || kind == "rectification")
  }

  /** The request says what was filed, is due so many days later, and its history is the filing. */
  ghost predicate FiledAs(r: Request, tenant: string, id: string, f: Filing, now: real) {
    && r.id == id && r.tenant == tenant
    && r.email == Lower(Strip(f.email)) && r.kind == Lower(Strip(f.kind)) && r.status == "received"
    && r.note == Kept(f.note)
    && r.createdAt == now && r.dueAt == now + 86400.0 * f.dueDays as real && r.updatedAt == now && r.closedAt == 0.0
    && r.history == [Event(now, Who(f.actor), "filed", Kept(f.note), "", "received")]
  }

  lemma AcceptableExactly(emailOk: string -> bool, f: Filing)
    ensures FilingOk(emailOk, f) <==> Acceptable(emailOk, f)
  {
    assert KINDS[0] == "access" && KINDS[1] == "erasure" && KINDS[2] == "portability" && KINDS[3] == "rectification";
  }

  /** The store with one request set: that request there, every other one as it was. */
  ghost predicate OnlySet(before: Store, after: Store, tenant: string, id: string, r: Request) {
    && Find(after, tenant, id) == Some(r)
    && forall u, k :: u != tenant || k != id ==> Find(after, u, k) == Find(before, u, k)
  }

  lemma SetInOnly(before: Store, tenant: string, id: string, r: Request)
    ensures OnlySet(before, SetIn(before, tenant, id, r), tenant, id, r)
  {
    forall u, k
      ensures Find(SetIn(before, tenant, id, r), u, k)
           == if u == tenant && k == id then Some(r) else Find(before, u, k)
    {
      FindSetIn(before, tenant, id, r, u, k);
    }
  }

  /**
   A filing is accepted exactly when it is acceptable.  It then returns the filed request, and whoever
   reads the log, at any time, finds that request and every other one as it was.
   */
  lemma {:induction false} FilingOnRecord(emailOk: string -> bool, s: State, tenant: string, id: string, f: Filing,
                                          clock: real, now: real, at: real)
    requires Inv(s, clock) && clock <= now && 0.0 < now && tenant != "" && id != ""
    ensures var (t, r) := AfterFiling(emailOk, s, tenant, id, f, now);
            if Acceptable(emailOk, f) then
              && r.Ok? && FiledAs(r.request, tenant, id, f, now)
              && OnlySet(Replay(s.log, at), Replay(t.log, at), tenant, id, r.request)
            else r == Invalid && t == s
  {
    AcceptableExactly(emailOk, f);
    KeptIsCut(f.note);
    if Acceptable(emailOk, f) {
      var (t, r) := AfterFiling(emailOk, s, tenant, id, f, now);
      FilingStep(emailOk, s, tenant, id, f, clock, now);
      ReplayAnytime(s.log, at);
      ReplayAnytime(s.log, now);
      ReplayAnytime(t.log, at);
      FilingReplays(emailOk, s, tenant, id, f, now);
      SetInOnly(Replay(s.log, 0.0), tenant, id, r.request);
    }
  }

  lemma {:induction false} FilingReplays(emailOk: string -> bool, s: State, tenant: string, id: string, f: Filing,
                                         now: real)
    requires FilingOk(emailOk, f) && LogTimed(s.log) && 0.0 < now && tenant != "" && id != ""
    ensures var (t, r) := AfterFiling(emailOk, s, tenant, id, f, now);
            r.Ok? && Replay(t.log, 0.0) == SetIn(Replay(s.log, 0.0), tenant, id, r.request)
  {
    TwoRows(s.log, Base(Filed(tenant, id, f, now)), EventRow(tenant, id, Intake(f, now)));
    FilingRows(Replay(s.log, 0.0), tenant, id, f, now);
  }

  // ---------------------------------------------------------------- advances

  ghost predicate Final(status: string) {
    status == "completed" || status == "rejected"
  }

  ghost predicate KnownStatus(status: string) {
    status == "received" || status == "in_progress" || status == "completed" || status == "rejected"
  }

  /** Not final yet, another status than now, and a note for a rejection. */
  ghost predicate Possible(r: Request, target: string, note: string) {
    !Final(r.status) && target != r.status && (target == "rejected" ==> Strip(note) != "")
  }

  ghost predicate AdvancedAs(before: Request, after: Request, target: string, note: string, actor: string,
                             now: real) {
    && after.id == before.id && after.tenant == before.tenant && after.email == before.email
    && after.kind == before.kind && after.note == before.note
    && after.createdAt == before.createdAt && after.dueAt == before.dueAt
    && after.status == target && after.updatedAt == now
    && after.closedAt == (if Final(target) && before.closedAt == 0.0 then now else before.closedAt)
    && after.history == before.history + [Event(now, Who(actor), "advanced", Kept(note), before.status, target)]
  }

  lemma StatusesExactly(status: string)
    ensures status in STATUSES <==> KnownStatus(status)
  {
    assert STATUSES[0] == "received" && STATUSES[1] == "in_progress";
    assert STATUSES[2] == "completed" && STATUSES[3] == "rejected";
  }

  lemma {:induction false} AdvancedExactly(r: Request, a: Advance, now: real)
    ensures Permits(r, a) <==> Possible(r, Lower(Strip(a.toStatus)), a.note)
    ensures AdvancedAs(r, Advanced(r, a, now), Lower(Strip(a.toStatus)), a.note, a.actor, now)
  {
    KeptIsCut(a.note);
  }

  lemma {:induction false} AdvanceReplays(s: State, tenant: string, id: string, a: Advance, now: real, r: Request)
    requires LogTimed(s.log) && 0.0 < now && tenant != "" && id != ""
    requires Find(Replay(s.log, 0.0), tenant, id) == Some(r) && Target(a) in STATUSES && Permits(r, a)
    ensures Replay(s.log + [EventRow(tenant, id, EventOf(r, a, now))], 0.0)
         == SetIn(Replay(s.log, 0.0), tenant, id, Advanced(r, a, now))
  {
    ReplaySnoc(s.log, EventRow(tenant, id, EventOf(r, a, now)), 0.0);
    LoaderAgrees(r, a, now, 0.0);
  }

  /**
   A move is accepted exactly when the status is known, the request exists, and the request allows it;
   the three checks are made in this order.  It then returns the moved request, and whoever reads the log
   finds it, and every other request as it was.
   */
  lemma {:induction false} AdvanceOnRecord(s: State, tenant: string, id: string, a: Advance, clock: real, now: real,
                                           at: real)
    requires Inv(s, clock) && clock <= now && 0.0 < now && tenant != "" && id != ""
    ensures var (t, r) := AfterAdvance(s, tenant, id, a, now);
            var found, target := Find(Replay(s.log, at), tenant, id), Lower(Strip(a.toStatus));
            if !KnownStatus(target) then r == Invalid && t.log == s.log
            else if found.None? then r == NotFound && t.log == s.log
            else if !Possible(found.value, target, a.note) then r == Invalid && t.log == s.log
            else
              && r.Ok? && AdvancedAs(found.value, r.request, target, a.note, a.actor, now)
              && OnlySet(Replay(s.log, at), Replay(t.log, at), tenant, id, r.request)
  {
    var (t, res) := AfterAdvance(s, tenant, id, a, now);
    StatusesExactly(Target(a));
    ReplayAnytime(s.log, at);
    ReplayAnytime(s.log, now);
    var store := Replay(s.log, 0.0);
    if KnownStatus(Target(a)) && Find(store, tenant, id).Some? {
      var r := Find(store, tenant, id).value;
      AdvancedExactly(r, a, now);
      if Permits(r, a) {
        AdvanceStep(s, tenant, id, a, clock, now);
        ReplayAnytime(t.log, at);
        AdvanceReplays(s, tenant, id, a, now, r);
        SetInOnly(store, tenant, id, Advanced(r, a, now));
      }
    }
  }

  // ---------------------------------------------------------------- any row

  function Filled(x: string, default: string): string {
    if x == "" then default else x
  }

  function Timely(x: real, default: real): real {
    if x == 0.0 then default else x
  }

  /** A request as its first row gives it, with defaults for what is missing and no history. */
  ghost predicate LoadedAs(row: Request, r: Request) {
    && r.id == row.id && r.tenant == Filled(row.tenant, "default") && r.email == row.email
    && r.kind == Filled(row.kind, "access") && r.status == Filled(row.status, "received") && r.note == row.note
    && r.createdAt == row.createdAt && r.dueAt == row.dueAt && r.updatedAt == Timely(row.updatedAt, row.createdAt)
    && r.closedAt == row.closedAt && r.history == []
  }

  /** A request after an event row: the event's status, or the old one when the row names none. */
  ghost predicate PatchedAs(before: Request, after: Request, e: Event, at: real) {
    && after.id == before.id && after.tenant == before.tenant && after.email == before.email
    && after.kind == before.kind && after.note == before.note
    && after.createdAt == before.createdAt && after.dueAt == before.dueAt
    && after.status == Filled(e.toStatus, before.status) && after.updatedAt == at
    && after.closedAt == (if Final(after.status) && before.closedAt == 0.0 then at else before.closedAt)
    && after.history == before.history + [e.(at := at)]
  }

  /** The key that a row is about; rows without a tenant name are the default tenant's. */
  ghost predicate About(row: Row, tenant: string, id: string) {
    id != "" && match row
                case Base(r) => tenant == Filled(r.tenant, "default") && id == r.id
                case EventRow(t, i, _) => tenant == Filled(t, "default") && id == i
                case Tombstone(t, i) => tenant == Filled(t, "default") && id == i
  }

  /**
   What one more row of any kind changes for a reader, at any key: a first row sets its request, an event
   row patches the request it names if there is one, a tombstone removes it; no other key changes.
   */
  lemma {:induction false} RowOnRecord(log: seq<Row>, row: Row, tenant: string, id: string, loadedAt: real)
    ensures var before := Find(Replay(log, loadedAt), tenant, id);
            var after := Find(Replay(log + [row], loadedAt), tenant, id);
            if !About(row, tenant, id) then after == before
            else match row
                 case Base(r) => after.Some? && LoadedAs(r, after.value)
                 case EventRow(_, _, e) =>
                   if before.None? then after.None?
                   else after.Some? && PatchedAs(before.value, after.value, e, Timely(e.at, loadedAt))
                 case Tombstone(_, _) => after.None?
  {
    var store := Replay(log, loadedAt);
    ReplaySnoc(log, row, loadedAt);
    match row
    case Base(r) =>
      FindSetIn(store, Filled(r.tenant, "default"), r.id, FromBase(r), tenant, id);
    case EventRow(t, i, e) =>
      var u := Filled(t, "default");
      if Find(store, u, i).Some? {
        FindSetIn(store, u, i, Patched(Find(store, u, i).value, e, loadedAt), tenant, id);
      }
    case Tombstone(t, i) =>
      FindRemoved(store, Filled(t, "default"), i, tenant, id);
  }
}
