/**
 The incident tracker: an append-only log, an in-memory store, and two pieces of code that must
 agree about them.  The commands change the store directly; the loader rebuilds it from the log.

 The first half states each command's effect on one incident (`Decide`) and the loader's effect of
 one row (`Patched`).  The second half is the mutable tracker, proved to compute them.
 */
module IncidentStores {
  import opened Options
  import opened OrderedDicts
  import opened TenantStores
  import opened Texts

  datatype Event = Event(at: real, actor: string, kind: string, note: string, fromStatus: string, toStatus: string)

  datatype Incident = Incident(
    id: string,
    tenant: string,
    title: string,
    severity: string,
    status: string,
    detail: string,
    discoveredAt: real,
    createdAt: real,
    updatedAt: real,
    closedAt: real,
    regulatorAt: real,
    regulatorName: string,
    regulatorReference: string,
    subjectsAt: real,
    affected: int,
    history: seq<Event>)

  /** The extra fields of a notification row. */
  datatype Extra = NoExtra | Regulator(name: string, reference: string) | Subjects(count: int)

  datatype Row =
    | Base(incident: Incident)
    | EventRow(tenant: string, id: string, event: Event, extra: Extra)
    | Tombstone(tenant: string, id: string)

  type Store = TenantStore<Incident>

  datatype Error = Invalid | NotFound

  datatype Result = Ok(incident: Incident) | Err(error: Error)

  const SEVERITIES := ["low", "medium", "high", "critical"]
  const STATUSES := ["open", "contained", "resolved", "closed_no_action"]

  predicate Terminal(status: string) {
    status == "resolved" || status == "closed_no_action"
  }

  // ---------------------------------------------------------------- the loader

  /** `x or default` on numbers: zero counts as missing. */
  function OrTime(x: real, default: real): real {
    if x == 0.0 then default else x
  }

  /** An incident as read back from its first row: history starts empty, missing fields get defaults. */
  function FromBase(inc: Incident): Incident {
    inc.(tenant := Or(inc.tenant, "default"),
         severity := Or(inc.severity, "low"),
         status := Or(inc.status, "open"),
         updatedAt := OrTime(inc.updatedAt, inc.createdAt),
         history := [])
  }

  /** What one event row does to the incident it names; `loadedAt` stands in for a missing time. */
  function Patched(inc: Incident, event: Event, extra: Extra, loadedAt: real): Incident {
    var ev := event.(at := OrTime(event.at, loadedAt));
    var moved := inc.(updatedAt := ev.at, history := inc.history + [ev]);
    var closed :=
      if ev.toStatus == "" then moved
      else if Terminal(ev.toStatus) && inc.closedAt == 0.0 then moved.(status := ev.toStatus, closedAt := ev.at)
      else moved.(status := ev.toStatus);
    if ev.kind == "regulator_notified" then
      var told := if inc.regulatorAt == 0.0 then closed.(regulatorAt := ev.at) else closed;
      match extra
      case Regulator(name, reference) =>
        told.(regulatorName := Or(name, inc.regulatorName), regulatorReference := Or(reference, inc.regulatorReference))
      case _ => told
    else if ev.kind == "subjects_notified" then
      var told := if inc.subjectsAt == 0.0 then closed.(subjectsAt := ev.at) else closed;
      match extra
      case Subjects(count) => told.(affected := count)
      case _ => told
    else closed
  }

  function ApplyRow(store: Store, row: Row, loadedAt: real): Store {
    match row
    case Base(inc) =>
      if inc.id == "" then store else SetIn(store, Or(inc.tenant, "default"), inc.id, FromBase(inc))
    case EventRow(tenant, id, event, extra) =>
      var t := Or(tenant, "default");
      (match Find(store, t, id)
       case None => store
       case Some(inc) => if id == "" then store else SetIn(store, t, id, Patched(inc, event, extra, loadedAt)))
    case Tombstone(tenant, id) =>
      var t := Or(tenant, "default");
      if t in store && id != "" then store[t := Remove(store[t], id)] else store
  }

  /** `_load_locked` on an empty cache: the whole log, first row first. */
  function Replay(log: seq<Row>, loadedAt: real): Store {
    if log == [] then map[] else ApplyRow(Replay(log[..|log| - 1], loadedAt), log[|log| - 1], loadedAt)
  }

  // ---------------------------------------------------------------- the commands

  /** A command on an existing incident, with its arguments as the caller gave them. */
  datatype Change =
    | Note(note: string, actor: string)
    | Advance(toStatus: string, note: string, actor: string)
    | NotifyRegulator(name: string, reference: string, note: string, actor: string)
    | NotifySubjects(count: int, note: string, actor: string)

  /** The argument checks made before the incident is looked up. */
  predicate ArgumentsOk(c: Change) {
    match c
    case Note(note, _) => Strip(note) != ""
    case Advance(to, note, _) =>
      Lower(Strip(to)) in STATUSES && (Lower(Strip(to)) == "closed_no_action" ==> Strip(note) != "")
    case NotifyRegulator(name, _, _, _) => 0 < |Strip(name)| <= 200
    case NotifySubjects(count, _, _) => 0 <= count <= 10_000_000
  }

  /** The checks against the incident. */
  predicate Permits(inc: Incident, c: Change) {
    match c
    case Note(_, _) => !Terminal(inc.status)
    case Advance(to, _, _) => !Terminal(inc.status) && Lower(Strip(to)) != inc.status
    case NotifyRegulator(_, _, _, _) => inc.regulatorAt == 0.0
    case NotifySubjects(_, _, _) => inc.subjectsAt == 0.0
  }

  function EventOf(inc: Incident, c: Change, now: real): Event {
    match c
    case Note(note, actor) => Event(now, Or(actor, "system"), "note", Cut(Strip(note), 4000), "", "")
    case Advance(to, note, actor) =>
      Event(now, Or(actor, "system"), "advanced", Cut(Strip(note), 4000), inc.status, Lower(Strip(to)))
    case NotifyRegulator(_, _, note, actor) =>
      Event(now, Or(actor, "system"), "regulator_notified", Cut(Strip(note), 4000), "", "")
    case NotifySubjects(_, note, actor) =>
      Event(now, Or(actor, "system"), "subjects_notified", Cut(Strip(note), 4000), "", "")
  }

  function ExtraOf(c: Change): Extra {
    match c
    case NotifyRegulator(name, reference, _, _) => Regulator(Strip(name), Cut(Strip(reference), 200))
    case NotifySubjects(count, _, _) => Subjects(count)
    case _ => NoExtra
  }

  /** What the command itself stores, without the loader's fallbacks. */
  function Changed(inc: Incident, c: Change, now: real): Incident {
    var moved := inc.(updatedAt := now, history := inc.history + [EventOf(inc, c, now)]);
    match c
    case Note(_, _) => moved
    case Advance(to, _, _) =>
      var status := Lower(Strip(to));
      if Terminal(status) && inc.closedAt == 0.0 then moved.(status := status, closedAt := now)
      else moved.(status := status)
    case NotifyRegulator(name, reference, _, _) =>
      moved.(regulatorAt := now, regulatorName := Strip(name), regulatorReference := Cut(Strip(reference), 200))
    case NotifySubjects(count, _, _) => moved.(subjectsAt := now, affected := count)
  }

  datatype Declaration = Declaration(title: string, severity: string, detail: string, discoveredAt: Option<real>,
                                     actor: string)

  function DiscoveredAt(d: Declaration, now: real): real {
    if d.discoveredAt.None? || d.discoveredAt.value == 0.0 then now else d.discoveredAt.value
  }

  predicate DeclarationOk(d: Declaration, now: real) {
    && 0 < |Strip(d.title)| <= 200
    && Lower(Strip(d.severity)) in SEVERITIES
    && now - 365.0 * 86400.0 <= DiscoveredAt(d, now) <= now + 60.0
  }

  function Declared(tenant: string, id: string, d: Declaration, now: real): Incident {
    Incident(id, tenant, Strip(d.title), Lower(Strip(d.severity)), "open", Cut(Strip(d.detail), 8000),
             DiscoveredAt(d, now), now, now, 0.0, 0.0, "", "", 0.0, 0, [])
  }

  function Intake(d: Declaration, now: real): Event {
    Event(now, Or(d.actor, "system"), "declared", Cut(Strip(d.detail), 8000), "", "open")
  }

  // ---------------------------------------------------------------- log and cache together

  datatype State = State(log: seq<Row>, cache: Option<Store>)

  /** The store a command sees: the cache, or a replay of the log. */
  function Loaded(s: State, now: real): Store {
    if s.cache.Some? then s.cache.value else Replay(s.log, now)
  }

  function AfterDeclare(s: State, tenant: string, id: string, d: Declaration, now: real): (State, Result) {
    if !DeclarationOk(d, now) then (s, Err(Invalid))
    else
      var inc, ev := Declared(tenant, id, d, now), Intake(d, now);
      var log := s.log + [Base(inc), EventRow(tenant, id, ev, NoExtra)];
      var filed := inc.(history := [ev]);
      (State(log, Some(SetIn(Loaded(State(log, s.cache), now), tenant, id, filed))), Ok(filed))
  }

  function AfterChange(s: State, tenant: string, id: string, c: Change, now: real): (State, Result) {
    if !ArgumentsOk(c) then (s, Err(Invalid))
    else
      var store := Loaded(s, now);
      match Find(store, tenant, id)
      case None => (s.(cache := Some(store)), Err(NotFound))
      case Some(inc) =>
        if !Permits(inc, c) then (s.(cache := Some(store)), Err(Invalid))
        else
          var changed := Changed(inc, c, now);
          var row := EventRow(tenant, id, EventOf(inc, c, now), ExtraOf(c));
          (State(s.log + [row], Some(SetIn(store, tenant, id, changed))), Ok(changed))
  }

  class IncidentTracker {
    var log: seq<Row>
    var cache: Option<Store>

    constructor ()
      ensures View() == State([], None)
    {
      log, cache := [], None;
    }

    ghost function View(): State
      reads this
    {
      State(log, cache)
    }

    method ResetCache()
      modifies this
      ensures View() == State(old(log), None)
    {
      cache := None;
    }

    /** `_load_locked`. */
    method Load(now: real) returns (store: Store)
      modifies this
      ensures store == Loaded(old(View()), now) && View() == State(old(log), Some(store))
    {
      if cache.Some? {
        return cache.value;
      }
      store := map[];
      var i := 0;
      while i < |log|
        invariant 0 <= i <= |log|
        invariant store == Replay(log[..i], now)
        invariant View() == old(View())
      {
        assert log[..i + 1][..i] == log[..i];
        store := ApplyRow(store, log[i], now);
        i := i + 1;
      }
      assert log[..i] == log;
      cache := Some(store);
    }

    method DeclareIncident(tenant: string, id: string, d: Declaration, now: real) returns (r: Result)
      modifies this
      ensures (View(), r) == AfterDeclare(old(View()), tenant, id, d, now)
    {
      var title, severity := Strip(d.title), Lower(Strip(d.severity));
      if title == "" || |title| > 200 || severity !in SEVERITIES {
        return Err(Invalid);
      }
      var discovered := if d.discoveredAt.Some? && d.discoveredAt.value != 0.0 then d.discoveredAt.value else now;
      if discovered > now + 60.0 || discovered < now - 365.0 * 86400.0 {
        return Err(Invalid);
      }
      var detail := Cut(Strip(d.detail), 8000);
      var inc := Incident(id, tenant, title, severity, "open", detail, discovered, now, now, 0.0, 0.0, "", "", 0.0, 0,
                          []);
      var ev := Event(now, Or(d.actor, "system"), "declared", detail, "", "open");
      log := log + [Base(inc), EventRow(tenant, id, ev, NoExtra)];
      var store := Load(now);
      inc := inc.(history := [ev]);
      cache := Some(SetIn(store, tenant, id, inc));
      r := Ok(inc);
    }

    method AppendNote(tenant: string, id: string, note: string, actor: string, now: real) returns (r: Result)
      modifies this
      ensures (View(), r) == AfterChange(old(View()), tenant, id, Note(note, actor), now)
    {
      var text := Cut(Strip(note), 4000);
      if text == "" {
        return Err(Invalid);
      }
      var store := Load(now);
      var found := Find(store, tenant, id);
      if found.None? {
        return Err(NotFound);
      }
      var inc := found.value;
      if Terminal(inc.status) {
        return Err(Invalid);
      }
      var ev := Event(now, Or(actor, "system"), "note", text, "", "");
      log := log + [EventRow(tenant, id, ev, NoExtra)];
      inc := inc.(updatedAt := now, history := inc.history + [ev]);
      cache := Some(SetIn(store, tenant, id, inc));
      r := Ok(inc);
    }

    method AdvanceIncident(tenant: string, id: string, toStatus: string, note: string, actor: string, now: real)
      returns (r: Result)
      modifies this
      ensures (View(), r) == AfterChange(old(View()), tenant, id, Advance(toStatus, note, actor), now)
    {
      var to, text := Lower(Strip(toStatus)), Cut(Strip(note), 4000);
      if to !in STATUSES || (to == "closed_no_action" && text == "") {
        return Err(Invalid);
      }
      var store := Load(now);
      var found := Find(store, tenant, id);
      if found.None? {
        return Err(NotFound);
      }
      var inc := found.value;
      if Terminal(inc.status) || to == inc.status {
        return Err(Invalid);
      }
      var ev := Event(now, Or(actor, "system"), "advanced", text, inc.status, to);
      log := log + [EventRow(tenant, id, ev, NoExtra)];
      var after := inc.(status := to, updatedAt := now, history := inc.history + [ev]);
      if Terminal(to) && inc.closedAt == 0.0 {
        after := after.(closedAt := now);
      }
      cache := Some(SetIn(store, tenant, id, after));
      r := Ok(after);
    }

    method RecordRegulatorNotification(tenant: string, id: string, name: string, reference: string, note: string,
                                       actor: string, now: real)
      returns (r: Result)
      modifies this
      ensures (View(), r) == AfterChange(old(View()), tenant, id, NotifyRegulator(name, reference, note, actor), now)
    {
      var who := Strip(name);
      if who == "" || |who| > 200 {
        return Err(Invalid);
      }
      var what, text := Cut(Strip(reference), 200), Cut(Strip(note), 4000);
      var store := Load(now);
      var found := Find(store, tenant, id);
      if found.None? {
        return Err(NotFound);
      }
      var inc := found.value;
      if inc.regulatorAt != 0.0 {
        return Err(Invalid);
      }
      var ev := Event(now, Or(actor, "system"), "regulator_notified", text, "", "");
      log := log + [EventRow(tenant, id, ev, Regulator(who, what))];
      inc := inc.(updatedAt := now, regulatorAt := now, regulatorName := who, regulatorReference := what,
                  history := inc.history + [ev]);
      cache := Some(SetIn(store, tenant, id, inc));
      r := Ok(inc);
    }

    method RecordSubjectsNotification(tenant: string, id: string, count: int, note: string, actor: string, now: real)
      returns (r: Result)
      modifies this
      ensures (View(), r) == AfterChange(old(View()), tenant, id, NotifySubjects(count, note, actor), now)
    {
      if count < 0 || count > 10_000_000 {
        return Err(Invalid);
      }
      var text := Cut(Strip(note), 4000);
      var store := Load(now);
      var found := Find(store, tenant, id);
      if found.None? {
        return Err(NotFound);
      }
      var inc := found.value;
      if inc.subjectsAt != 0.0 {
        return Err(Invalid);
      }
      var ev := Event(now, Or(actor, "system"), "subjects_notified", text, "", "");
      log := log + [EventRow(tenant, id, ev, Subjects(count))];
      inc := inc.(updatedAt := now, subjectsAt := now, affected := count, history := inc.history + [ev]);
      cache := Some(SetIn(store, tenant, id, inc));
      r := Ok(inc);
    }
  }
}
