/**
 What the audit log holds of the events it was given: the lines of all files, oldest first, are the
 written events in order, each with all of its fields.
 */
module AuditEvents {
  import opened Options
  import opened AuditChain
  import opened AuditLogs
  import opened AuditRuns

  /** The events that the run was given to write. */
  function EventsOf(acts: seq<Act>): seq<Row> {
    if acts == [] then [] else EventOf(acts[0]) + EventsOf(acts[1..])
  }

  function EventOf(act: Act): seq<Row> {
    if act.Write? then [act.event] else []
  }

  /** Line by line, `lines` holds the events. */
  ghost predicate Holds(lines: seq<Line>, events: seq<Row>) {
    |lines| == |events| && forall i :: 0 <= i < |lines| ==> Carries(lines[i], events[i])
  }

  lemma HoldsSnoc(lines: seq<Line>, events: seq<Row>, line: Line, event: Row)
    requires Holds(lines, events) && Carries(line, event)
    ensures Holds(lines + [line], events + [event])
  {
  }

  /** Every file that was, then every file that is, oldest line first. */
  function Everything(log: Log, m: nat): seq<Line> {
    Flat(log.lost) + Older(log.files, m) + Active(log.files)
  }

  lemma WroteHolds(cfg: Config, log: Log, event: Row, events: seq<Row>)
    requires Holds(log.written, events)
    ensures Holds(Wrote(cfg, log, event).written, events + [event])
  {
    var prev := PrevHash(cfg, log.files, log.cache);
    StampCarries(cfg.h, event, prev);
    HoldsSnoc(log.written, events, Object(Stamp(cfg.h, event, prev)), event);
  }

  /** What the history and the files of a log are to each other and to the events so far. */
  ghost predicate Kept(cfg: Config, log: Log, m: nat, events: seq<Row>) {
    Numbered(cfg, log, m) && Conserved(log, m) && Holds(log.written, events)
  }

  lemma KeptStep(cfg: Config, log: Log, m: nat, act: Act, events: seq<Row>) returns (k: nat)
    requires Kept(cfg, log, m, events)
    ensures Kept(cfg, Next(cfg, log, act), k, events + EventOf(act))
  {
    match act
    case Write(event) =>
      WroteNumbered(cfg, log, m, event);
      WroteHolds(cfg, log, event, events);
      k := MoreBackups(cfg, log, m);
    case Restart =>
      assert events + [] == events;
      k := m;
    case FailedAppend =>
      assert events + [] == events;
      PreparedNumbered(cfg, log, m);
      PreparedConserved(cfg, log, m);
      k := MoreBackups(cfg, log, m);
  }

  lemma RegroupRows(a: seq<Row>, b: seq<Row>, c: seq<Row>)
    ensures (a + b) + c == a + (b + c)
  {
  }

  lemma {:induction false} KeptRun(cfg: Config, log: Log, m: nat, acts: seq<Act>, events: seq<Row>) returns (k: nat)
    requires Kept(cfg, log, m, events)
    ensures Kept(cfg, Run(cfg, log, acts), k, events + EventsOf(acts))
    decreases |acts|
  {
    if acts == [] {
      assert events + [] == events;
      k := m;
    } else {
      var first := KeptStep(cfg, log, m, acts[0], events);
      k := KeptRun(cfg, Next(cfg, log, acts[0]), first, acts[1..], events + EventOf(acts[0]));
      RegroupRows(events, EventOf(acts[0]), EventsOf(acts[1..]));
    }
  }

  /**
   In every run from the empty log, with any restarts, rotations and failed appends: the lines of all
   files in order of age, those lost to rotation included, are the events written, one each and in
   order, and a line has every field of its event as it was, and no other besides the two digests.
   */
  lemma LogHoldsEvents(cfg: Config, acts: seq<Act>)
    ensures exists m :: Numbered(cfg, Run(cfg, EMPTY, acts), m)
                        && Holds(Everything(Run(cfg, EMPTY, acts), m), EventsOf(acts))
  {
    var m := KeptRun(cfg, EMPTY, 0, acts, []);
    assert [] + EventsOf(acts) == EventsOf(acts);
    assert Everything(Run(cfg, EMPTY, acts), m) == Run(cfg, EMPTY, acts).written;
  }
}
