/**
 Whole runs of the audit writer: event writes (with rotation), process restarts that lose the cached
 digest, and appends that fail after the rotation and are swallowed by the writer.
 */
module AuditRuns {
  import opened Options
  import opened AuditChain
  import opened AuditLogs

  datatype Act = Write(event: Row) | Restart | FailedAppend

  function Next(cfg: Config, log: Log, act: Act): Log {
    match act
    case Write(event) => Wrote(cfg, log, event)
    case Restart => log.(cache := map[])
    case FailedAppend => Prepared(cfg, log)
  }

  /**
   What a run may contain: events without an `entry_hash` of their own, and failed appends except
   right after a rotation under a path that is not spelled the way it resolves.
   */
  predicate Allowed(cfg: Config, log: Log, act: Act) {
    match act
    case Write(event) => "entry_hash" !in event
    case Restart => true
    case FailedAppend => cfg.canonical || !RotationDue(cfg, log.files)
  }

  function Run(cfg: Config, log: Log, acts: seq<Act>): Log
    decreases |acts|
  {
    if acts == [] then log else Run(cfg, Next(cfg, log, acts[0]), acts[1..])
  }

  predicate AllAllowed(cfg: Config, log: Log, acts: seq<Act>)
    decreases |acts|
  {
    acts == [] || (Allowed(cfg, log, acts[0]) && AllAllowed(cfg, Next(cfg, log, acts[0]), acts[1..]))
  }

  // ---------------------------------------------------------------- invariant

  /** The backups are exactly 1..m. */
  ghost predicate Backups(files: Files, m: nat) {
    forall n :: n in files && n > 0 <==> 1 <= n <= m
  }

  function FileAt(files: Files, n: nat): seq<Line> {
    if n in files then files[n] else []
  }

  /** Backups m, m-1, ..., 1 one after the other: oldest line first. */
  function Older(files: Files, m: nat): seq<Line> {
    if m == 0 then [] else FileAt(files, m) + Older(files, m - 1)
  }

  function Flat(fs: seq<seq<Line>>): seq<Line> {
    if fs == [] then [] else Flat(fs[..|fs| - 1]) + fs[|fs| - 1]
  }

  predicate Rotates(cfg: Config) {
    cfg.maxBytes > 0 && cfg.backupCount > 0
  }

  ghost predicate AllClean(h: Hasher, log: Log) {
    && (forall n :: n in log.files ==> CleanFile(h, log.files[n]))
    && (forall i :: 0 <= i < |log.lost| ==> CleanFile(h, log.lost[i]))
  }

  /** What the cache says about the active file. */
  ghost predicate CacheAgrees(cfg: Config, log: Log) {
    && (Resolved in log.cache && CleanFile(cfg.h, Active(log.files))
        ==> log.cache[Resolved] == FileTail(Active(log.files)))
    && (AsConfigured in log.cache ==> !cfg.canonical && (0 !in log.files ==> log.cache[AsConfigured] == GENESIS))
    && (Resolved in log.cache && 0 !in log.files ==> cfg.canonical)
  }

  ghost predicate Numbered(cfg: Config, log: Log, m: nat) {
    Backups(log.files, m) && m <= (if Rotates(cfg) then cfg.backupCount else 0)
  }

  /** Lost files, then backups oldest to newest, then the active file: everything ever written, in order. */
  ghost predicate Conserved(log: Log, m: nat) {
    Flat(log.lost) + Older(log.files, m) + Active(log.files) == log.written
  }

  ghost predicate Inv(cfg: Config, log: Log, m: nat) {
    AllClean(cfg.h, log) && CacheAgrees(cfg, log) && Numbered(cfg, log, m) && Conserved(log, m)
  }

  // ---------------------------------------------------------------- rotation keeps it

  lemma {:induction false} ShiftOlder(files: Files, keep: nat, j: nat)
    requires 1 <= j <= keep
    ensures Older(Shifted(files, keep), j) == Older(files, j - 1) + FileAt(files, 0)
  {
    ShiftedAt(files, keep, j);
    assert FileAt(Shifted(files, keep), j) == FileAt(files, j - 1);
    if j == 1 {
      assert Older(Shifted(files, keep), 0) == [];
    } else {
      ShiftOlder(files, keep, j - 1);
    }
  }

  /** How many backups there are after one more rotation. */
  function MoreBackups(cfg: Config, log: Log, m: nat): nat {
    if !RotationDue(cfg, log.files) then m else if m < cfg.backupCount then m + 1 else m
  }

  lemma PreparedNumbered(cfg: Config, log: Log, m: nat)
    requires Numbered(cfg, log, m)
    ensures Numbered(cfg, Prepared(cfg, log), MoreBackups(cfg, log, m))
    ensures RotationDue(cfg, log.files) ==> 0 !in Prepared(cfg, log).files
  {
    if RotationDue(cfg, log.files) {
      var after := Shifted(log.files, cfg.backupCount);
      forall n: nat ensures n in after && n > 0 <==> 1 <= n <= MoreBackups(cfg, log, m) {
        ShiftedAt(log.files, cfg.backupCount, n);
      }
      ShiftedAt(log.files, cfg.backupCount, 0);
    }
  }

  lemma Regroup(a: seq<Line>, b: seq<Line>, c: seq<Line>, d: seq<Line>)
    ensures (a + b) + (c + d) == a + (b + c) + d
  {
  }

  lemma FlatSnoc(fs: seq<seq<Line>>, f: seq<Line>)
    ensures Flat(fs + [f]) == Flat(fs) + f
  {
    assert (fs + [f])[..|fs|] == fs;
  }

  /** The lines of all files in order, once the oldest backup has been pushed out. */
  lemma RotatedFull(cfg: Config, log: Log, m: nat)
    requires Numbered(cfg, log, m) && Conserved(log, m) && RotationDue(cfg, log.files) && m == cfg.backupCount
    ensures Flat(log.lost + [FileAt(log.files, m)]) + Older(Shifted(log.files, cfg.backupCount), m) == log.written
  {
    ShiftOlder(log.files, cfg.backupCount, m);
    FlatSnoc(log.lost, FileAt(log.files, m));
    Regroup(Flat(log.lost), FileAt(log.files, m), Older(log.files, m - 1), FileAt(log.files, 0));
  }

  lemma RotatedRoom(cfg: Config, log: Log, m: nat)
    requires Numbered(cfg, log, m) && Conserved(log, m) && RotationDue(cfg, log.files) && m < cfg.backupCount
    ensures Flat(log.lost) + Older(Shifted(log.files, cfg.backupCount), m + 1) == log.written
  {
    ShiftOlder(log.files, cfg.backupCount, m + 1);
    Regroup(Flat(log.lost), [], Older(log.files, m), FileAt(log.files, 0));
    assert [] + Older(log.files, m) == Older(log.files, m);
    assert Flat(log.lost) + [] == Flat(log.lost);
  }

  lemma PreparedConserved(cfg: Config, log: Log, m: nat)
    requires Numbered(cfg, log, m) && Conserved(log, m)
    ensures Conserved(Prepared(cfg, log), MoreBackups(cfg, log, m))
  {
    var p, k := Prepared(cfg, log), MoreBackups(cfg, log, m);
    if RotationDue(cfg, log.files) {
      ShiftedAt(log.files, cfg.backupCount, 0);
      assert Active(p.files) == [];
      NothingAfter(Flat(p.lost), Older(p.files, k), log.written);
      if m == cfg.backupCount {
        RotatedFull(cfg, log, m);
        assert cfg.backupCount in log.files && p.lost == log.lost + [FileAt(log.files, m)];
      } else {
        RotatedRoom(cfg, log, m);
        assert cfg.backupCount !in log.files && p.lost == log.lost;
      }
    } else {
      assert p.lost == log.lost;
    }
  }

  lemma NothingAfter(a: seq<Line>, b: seq<Line>, all: seq<Line>)
    ensures a + b == all ==> a + b + [] == all
  {
  }

  lemma PreparedClean(cfg: Config, log: Log)
    requires AllClean(cfg.h, log)
    ensures AllClean(cfg.h, Prepared(cfg, log))
  {
    if RotationDue(cfg, log.files) {
      var p := Prepared(cfg, log);
      forall n | n in p.files ensures CleanFile(cfg.h, p.files[n]) {
        ShiftedAt(log.files, cfg.backupCount, n);
      }
    }
  }

  lemma EmptyIsClean(h: Hasher)
    ensures CleanFile(h, []) && FileTail([]) == GENESIS
  {
    assert Entries([]) == [];
  }

  lemma ActiveClean(h: Hasher, log: Log)
    requires AllClean(h, log)
    ensures CleanFile(h, Active(log.files))
  {
    EmptyIsClean(h);
  }

  /** The digest settled on before an append is the tail of the active file. */
  lemma PreparedTail(cfg: Config, log: Log, m: nat)
    requires Sha(cfg.h) && Inv(cfg, log, m)
    ensures CleanFile(cfg.h, Active(Prepared(cfg, log).files))
    ensures PrevHash(cfg, log.files, log.cache) == FileTail(Active(Prepared(cfg, log).files))
  {
    EmptyIsClean(cfg.h);
    PreparedNumbered(cfg, log, m);
    if !RotationDue(cfg, log.files) && 0 in log.files {
      RecoveryFindsTheTail(cfg.h, log.files[0]);
    }
  }

  lemma PreparedInv(cfg: Config, log: Log, m: nat)
    requires Sha(cfg.h) && Inv(cfg, log, m) && Allowed(cfg, log, FailedAppend)
    ensures Inv(cfg, Prepared(cfg, log), MoreBackups(cfg, log, m))
  {
    PreparedNumbered(cfg, log, m);
    PreparedConserved(cfg, log, m);
    PreparedClean(cfg, log);
    PreparedTail(cfg, log, m);
  }

  // ---------------------------------------------------------------- writing keeps it

  lemma WroteClean(cfg: Config, log: Log, m: nat, event: Row)
    requires Sha(cfg.h) && Inv(cfg, log, m) && "entry_hash" !in event
    ensures AllClean(cfg.h, Wrote(cfg, log, event)) && CacheAgrees(cfg, Wrote(cfg, log, event))
  {
    var p, w := Prepared(cfg, log), Wrote(cfg, log, event);
    PreparedTail(cfg, log, m);
    PreparedClean(cfg, log);
    var prev := PrevHash(cfg, log.files, log.cache);
    var row := Stamp(cfg.h, event, prev);
    StampVerifiesExactly(cfg.h, event, prev);
    CleanFileSnoc(cfg.h, Active(p.files), Object(row));
    assert w.files[0] == Active(p.files) + [Object(row)];
  }

  lemma {:induction false} OlderIgnoresActive(files: Files, lines: seq<Line>, m: nat)
    ensures Older(files[0 := lines], m) == Older(files, m)
  {
    if m > 0 {
      OlderIgnoresActive(files, lines, m - 1);
    }
  }

  lemma WroteNumbered(cfg: Config, log: Log, m: nat, event: Row)
    requires Numbered(cfg, log, m) && Conserved(log, m)
    ensures Numbered(cfg, Wrote(cfg, log, event), MoreBackups(cfg, log, m))
    ensures Conserved(Wrote(cfg, log, event), MoreBackups(cfg, log, m))
  {
    var p, w, k := Prepared(cfg, log), Wrote(cfg, log, event), MoreBackups(cfg, log, m);
    PreparedNumbered(cfg, log, m);
    PreparedConserved(cfg, log, m);
    OlderIgnoresActive(p.files, w.files[0], k);
    var row := w.written[|p.written|..];
    assert w.written == p.written + row && Active(w.files) == Active(p.files) + row;
  }

  lemma WroteInv(cfg: Config, log: Log, m: nat, event: Row)
    requires Sha(cfg.h) && Inv(cfg, log, m) && "entry_hash" !in event
    ensures Inv(cfg, Wrote(cfg, log, event), MoreBackups(cfg, log, m))
  {
    WroteClean(cfg, log, m, event);
    WroteNumbered(cfg, log, m, event);
  }

  /**
   Every allowed run keeps every file a clean chain from genesis, the backups numbered 1..m with m
   at most `backupCount`, and the lines of all files together a suffix of what was ever written:
   only whole oldest files are lost.
   */
  lemma {:induction false} RunKeepsLog(cfg: Config, log: Log, m: nat, acts: seq<Act>)
    requires Sha(cfg.h) && Inv(cfg, log, m) && AllAllowed(cfg, log, acts)
    ensures exists k :: Inv(cfg, Run(cfg, log, acts), k)
    decreases |acts|
  {
    if acts == [] {
      assert Inv(cfg, Run(cfg, log, acts), m);
    } else {
      var next, k := Next(cfg, log, acts[0]), m;
      match acts[0] {
        case Write(event) => WroteInv(cfg, log, m, event); k := MoreBackups(cfg, log, m);
        case Restart =>
        case FailedAppend => PreparedInv(cfg, log, m); k := MoreBackups(cfg, log, m);
      }
      assert Inv(cfg, next, k);
      RunKeepsLog(cfg, next, k, acts[1..]);
      assert Run(cfg, log, acts) == Run(cfg, next, acts[1..]);
    }
  }

  lemma EmptyInv(cfg: Config)
    ensures Inv(cfg, EMPTY, 0)
  {
  }

  // ---------------------------------------------------------------- what the verifier says about it

  lemma CleanVerdict(h: Hasher, log: Log, n: nat)
    requires AllClean(h, log)
    ensures var v := VerdictAt(h, log.files, n);
            v.Report? && v.result.firstBad.None?
                && v.result.valid == v.result.entries == |Entries(FileAt(log.files, n))|
  {
    if n in log.files {
      CleanHasNoNonObject(h, log.files[n]);
      ScanExact(h, log.files[n]);
    }
  }

  /** Whatever `VerifyChain` reports about a log kept by the writer, it covers every file asked for and flags none. */
  lemma KeptLogVerifies(cfg: Config, log: Log, m: nat, includeRotated: bool, k: nat, ok: bool, verdicts: seq<Verdict>)
    requires Inv(cfg, log, m) && Targets(log.files, includeRotated, k) && ChainReport(cfg.h, log.files, k, ok, verdicts)
    ensures k == (if includeRotated then m else 0) && ok && |verdicts| == k + 1
    ensures forall n :: 0 <= n <= k ==> verdicts[n].Report? && verdicts[n].result.valid == verdicts[n].result.entries
  {
    assert includeRotated ==> k + 1 !in log.files && m + 1 !in log.files;
    forall n | 0 <= n <= k
      ensures FileOk(cfg.h, log.files, n)
      ensures VerdictAt(cfg.h, log.files, n).result.valid == VerdictAt(cfg.h, log.files, n).result.entries
    {
      CleanVerdict(cfg.h, log, n);
    }
  }

  // ---------------------------------------------------------------- where it does not hold

  /** The row that two writes after a failed append leave as the first row of the active file. */
  function FirstDigest(log: Log): Option<string> {
    var lines := Active(log.files);
    if lines != [] && lines[|lines| - 1].Object? then Field(lines[|lines| - 1].row, "entry_hash") else None
  }

  /**
   An append that fails without touching the file, followed by two normal writes (the second not
   rotating again, and the first not hashing to genesis): the active file is clean exactly when the
   failure did not follow a rotation under a path that is not spelled canonically.  The default
   `./data/audit.jsonl` is such a path: with the active file renamed away, the next write looks the
   digest up under the other spelling, and the one after it under the first.
   */
  lemma FailedAppendExactly(cfg: Config, log: Log, m: nat, first: Row, second: Row)
    requires Sha(cfg.h) && Inv(cfg, log, m) && "entry_hash" !in first && "entry_hash" !in second
    requires var one := Next(cfg, Next(cfg, log, FailedAppend), Write(first));
             !RotationDue(cfg, one.files) && FirstDigest(one) != Some(GENESIS)
    ensures var two := Next(cfg, Next(cfg, Next(cfg, log, FailedAppend), Write(first)), Write(second));
            CleanFile(cfg.h, Active(two.files)) <==> Allowed(cfg, log, FailedAppend)
  {
    var p := Prepared(cfg, log);
    if Allowed(cfg, log, FailedAppend) {
      PreparedInv(cfg, log, m);
      var k := MoreBackups(cfg, log, m);
      WroteInv(cfg, p, k, first);
      WroteInv(cfg, Wrote(cfg, p, first), MoreBackups(cfg, p, k), second);
      ActiveClean(cfg.h, Wrote(cfg, Wrote(cfg, p, first), second));
    } else {
      ChainBreaks(cfg, log, m, first, second);
    }
  }

  /** The write after the failed append works under the other spelling, and leaves the stale digest of the first. */
  lemma StaleDigest(cfg: Config, log: Log, m: nat, first: Row)
    requires Numbered(cfg, log, m) && RotationDue(cfg, log.files) && !cfg.canonical
    ensures var one := Wrote(cfg, Prepared(cfg, log), first);
            0 in one.files && |one.files[0]| == 1 && Resolved in one.cache && one.cache[Resolved] == GENESIS
  {
    PreparedEmpty(cfg, log, m);
    PreparedNumbered(cfg, log, m);
  }

  /** A write to an active file uses the digest that is cached for it. */
  lemma NextRow(cfg: Config, log: Log, event: Row)
    requires !RotationDue(cfg, log.files) && 0 in log.files && Resolved in log.cache
    ensures Active(Wrote(cfg, log, event).files)
         == log.files[0] + [Object(Stamp(cfg.h, event, log.cache[Resolved]))]
  {
  }

  /** A row stamped with genesis does not extend a file that ends in another digest. */
  lemma GenesisDoesNotExtend(h: Hasher, lines: seq<Line>, event: Row)
    requires |lines| == 1 && (lines[0].Object? ==> Field(lines[0].row, "entry_hash") != Some(GENESIS))
    requires !lines[0].Blank?
    ensures !CleanFile(h, lines + [Object(Stamp(h, event, GENESIS))])
  {
    var q := Stamp(h, event, GENESIS);
    CleanFileSnoc(h, lines, Object(q));
    EmptyIsClean(h);
    assert lines == [] + [lines[0]];
    CleanFileSnoc(h, [], lines[0]);
  }

  lemma ChainBreaks(cfg: Config, log: Log, m: nat, first: Row, second: Row)
    requires Inv(cfg, log, m) && RotationDue(cfg, log.files) && !cfg.canonical
    requires var one := Wrote(cfg, Prepared(cfg, log), first);
             !RotationDue(cfg, one.files) && FirstDigest(one) != Some(GENESIS)
    ensures !CleanFile(cfg.h, Active(Wrote(cfg, Wrote(cfg, Prepared(cfg, log), first), second).files))
  {
    var one := Wrote(cfg, Prepared(cfg, log), first);
    PreparedEmpty(cfg, log, m);
    StaleDigest(cfg, log, m, first);
    var row := FirstRow(cfg, Prepared(cfg, log), first);
    NextRow(cfg, one, second);
    GenesisDoesNotExtend(cfg.h, one.files[0], second);
  }

  /** One backup, rotation at two lines, and a path that is not spelled the way it resolves. */
  function SmallLog(h: Hasher): Config {
    Config(h, 2, 1, lines => |lines|, false)
  }

  ghost predicate NeverGenesis(h: Hasher) {
    Sha(h) && forall p, r :: h(p, r) != GENESIS
  }

  /** The first two writes into an empty log fill the active file, under both spellings of the cache key. */
  lemma TwoWrites(h: Hasher, a: Row, b: Row) returns (log: Log)
    requires Sha(h) && "entry_hash" !in a && "entry_hash" !in b
    ensures log == Next(SmallLog(h), Next(SmallLog(h), EMPTY, Write(a)), Write(b))
    ensures Inv(SmallLog(h), log, 0) && RotationDue(SmallLog(h), log.files)
  {
    var cfg := SmallLog(h);
    var one := Wrote(cfg, EMPTY, a);
    log := Wrote(cfg, one, b);
    EmptyInv(cfg);
    WroteInv(cfg, EMPTY, 0, a);
    assert |one.files[0]| == 1;
    WroteInv(cfg, one, 0, b);
    assert |log.files[0]| == 2;
  }

  lemma PreparedEmpty(cfg: Config, log: Log, m: nat)
    requires Numbered(cfg, log, m) && RotationDue(cfg, log.files)
    ensures var p := Prepared(cfg, log); Active(p.files) == [] && !RotationDue(cfg, p.files)
  {
    PreparedNumbered(cfg, log, m);
  }

  /** A write that follows a log without an active file leaves that one row in it. */
  lemma FirstRow(cfg: Config, p: Log, c: Row) returns (row: Row)
    requires Active(p.files) == [] && !RotationDue(cfg, p.files)
    ensures Active(Wrote(cfg, p, c).files) == [Object(row)] && 0 in Wrote(cfg, p, c).files
    ensures exists d, r :: Field(row, "entry_hash") == Some(cfg.h(d, r))
  {
    var prev := PrevHash(cfg, p.files, p.cache);
    row := Stamp(cfg.h, c, prev);
    assert [] + [Object(row)] == [Object(row)];
    assert Field(row, "entry_hash") == Some(cfg.h(prev, c["prev_hash" := Text(prev)]));
  }

  /** After the failed append the next row is alone in the active file. */
  lemma OneMoreWrite(h: Hasher, log: Log, c: Row)
    requires NeverGenesis(h) && Inv(SmallLog(h), log, 0) && RotationDue(SmallLog(h), log.files)
    ensures var one := Wrote(SmallLog(h), Prepared(SmallLog(h), log), c);
            !RotationDue(SmallLog(h), one.files) && FirstDigest(one) != Some(GENESIS)
  {
    PreparedEmpty(SmallLog(h), log, 0);
    var row := FirstRow(SmallLog(h), Prepared(SmallLog(h), log), c);
  }

  lemma FlaggedAfterFailure(h: Hasher, log: Log, c: Row, d: Row)
    requires NeverGenesis(h) && Inv(SmallLog(h), log, 0) && RotationDue(SmallLog(h), log.files)
    ensures var cfg := SmallLog(h);
            !Unflagged(h, Active(Next(cfg, Next(cfg, Next(cfg, log, FailedAppend), Write(c)), Write(d)).files))
  {
    var cfg := SmallLog(h);
    OneMoreWrite(h, log, c);
    ChainBreaks(cfg, log, 0, c, d);
    UnflaggedExactly(h, Active(Wrote(cfg, Wrote(cfg, Prepared(cfg, log), c), d).files));
  }

  /**
   Such a run from the empty log, for any digest function that never gives genesis: two writes, an
   append that fails after the rotation they make due, two writes.  The verifier flags the active file.
   */
  lemma FailedAppendBreaksChain(h: Hasher, a: Row, b: Row, c: Row, d: Row)
    requires NeverGenesis(h) && "entry_hash" !in a && "entry_hash" !in b
    ensures var log := Run(SmallLog(h), EMPTY, [Write(a), Write(b), FailedAppend, Write(c), Write(d)]);
            !Unflagged(h, Active(log.files))
  {
    var full := TwoWrites(h, a, b);
    FlaggedAfterFailure(h, full, c, d);
    RunFive(SmallLog(h), EMPTY, Write(a), Write(b), FailedAppend, Write(c), Write(d));
  }

  lemma RunTwo(cfg: Config, log: Log, x: Act, y: Act, rest: seq<Act>)
    ensures Run(cfg, log, [x, y] + rest) == Run(cfg, Next(cfg, Next(cfg, log, x), y), rest)
  {
    var acts := [x, y] + rest;
    assert acts[1..] == [y] + rest && acts[1..][1..] == rest;
  }

  lemma RunFive(cfg: Config, log: Log, u: Act, v: Act, x: Act, y: Act, z: Act)
    ensures Run(cfg, log, [u, v, x, y, z])
         == Next(cfg, Next(cfg, Next(cfg, Next(cfg, Next(cfg, log, u), v), x), y), z)
  {
    var two := Next(cfg, Next(cfg, log, u), v);
    assert [u, v, x, y, z] == [u, v] + [x, y, z] && [x, y, z] == [x, y] + [z];
    RunTwo(cfg, log, u, v, [x, y, z]);
    RunTwo(cfg, two, x, y, [z]);
    assert [z][1..] == [];
  }

  /** There are such digest functions. */
  lemma NeverGenesisExists(d: string)
    requires |d| == 64 && d != GENESIS
    ensures NeverGenesis((p: string, r: Row) => d)
  {
  }
}
