/**
 The audit log writer: append with a cached tail digest, recovery of that digest from the file,
 and size-based rotation into numbered backups.

 `files` maps 0 to the active file and n >= 1 to the backup `.n`.  Appends are whole lines; nothing
 else edits the files.
 */
module AuditLogs {
  import opened Options
  import opened AuditChain

  type Files = map<nat, seq<Line>>

  /**
   The writer's settings.  `size` is the byte size of a file.  `canonical` says that the configured
   path is spelled the way it resolves, so that both spellings of the cache key coincide.
   */
  datatype Config = Config(h: Hasher, maxBytes: int, backupCount: int, size: seq<Line> -> nat, canonical: bool)

  /** The two spellings under which the writer may cache the tail digest of the one log path. */
  datatype CacheKey = AsConfigured | Resolved

  type Cache = map<CacheKey, string>

  // ---------------------------------------------------------------- recovery of the tail digest

  /**
   `_read_last_hash`: the digest of the last JSON object in the file, looking past lines that are
   blank, malformed or not objects; genesis when that object has no 64-character digest.
   */
  function LastHash(lines: seq<Line>): string {
    if lines == [] then GENESIS
    else
      var line := lines[|lines| - 1];
      if !line.Object? then LastHash(lines[..|lines| - 1])
      else match Field(line.row, "entry_hash")
           case Some(d) => if |d| == 64 then d else GENESIS
           case None => GENESIS
  }

  method ReadLastHash(file: Option<seq<Line>>) returns (digest: string)
    ensures digest == if file.None? then GENESIS else LastHash(file.value)
  {
    if file.None? || file.value == [] {
      return GENESIS;
    }
    var lines := file.value;
    var i := |lines|;
    assert lines[..i] == lines;
    while i > 0
      invariant 0 <= i <= |lines|
      invariant LastHash(lines) == LastHash(lines[..i])
    {
      assert lines[..i][..i - 1] == lines[..i - 1];
      i := i - 1;
      if lines[i].Object? {
        var d := Field(lines[i].row, "entry_hash");
        if d.Some? && |d.value| == 64 {
          return d.value;
        }
        break;
      }
    }
    return GENESIS;
  }

  /** Digests are 64 characters long. */
  ghost predicate Sha(h: Hasher) {
    forall p, r :: |h(p, r)| == 64
  }

  /** On a clean file, recovery returns the tail of the chain. */
  lemma {:induction false} RecoveryFindsTheTail(h: Hasher, lines: seq<Line>)
    requires Sha(h) && CleanFile(h, lines)
    ensures LastHash(lines) == FileTail(lines)
  {
    if lines != [] {
      var n := |lines| - 1;
      assert lines == lines[..n] + [lines[n]];
      CleanFileSnoc(h, lines[..n], lines[n]);
      RecoveryFindsTheTail(h, lines[..n]);
    }
  }

  // ---------------------------------------------------------------- recovery behind a malformed tail

  predicate NoObject(lines: seq<Line>) {
    forall i :: 0 <= i < |lines| ==> !lines[i].Object?
  }

  function LastObject(lines: seq<Line>): Option<Row> {
    if lines == [] then None
    else if lines[|lines| - 1].Object? then Some(lines[|lines| - 1].row)
    else LastObject(lines[..|lines| - 1])
  }

  /** The row carries a 64-character digest other than genesis. */
  predicate Continues(row: Row) {
    var d := Field(row, "entry_hash");
    d.Some? && |d.value| == 64 && d.value != GENESIS
  }

  lemma {:induction false} LastHashSkips(front: seq<Line>, tail: seq<Line>)
    requires NoObject(tail)
    ensures LastHash(front + tail) == LastHash(front)
  {
    if tail == [] {
      assert front + tail == front;
    } else {
      var all := front + tail;
      assert all[..|all| - 1] == front + tail[..|tail| - 1];
      LastHashSkips(front, tail[..|tail| - 1]);
    }
  }

  lemma {:induction false} LastHashExactly(lines: seq<Line>)
    ensures LastHash(lines) == GENESIS <==> LastObject(lines).None? || !Continues(LastObject(lines).value)
  {
    if lines != [] && !lines[|lines| - 1].Object? {
      LastHashExactly(lines[..|lines| - 1]);
    }
  }

  /**
   Behind trailing lines that are no JSON objects, recovery returns what it returns without them, so it
   is genesis, as documented for a malformed trailing line, exactly when no object comes before
   them or the last one carries no 64-character digest other than genesis.
   */
  lemma MalformedTailExactly(front: seq<Line>, tail: seq<Line>)
    requires NoObject(tail)
    ensures LastHash(front + tail) == LastHash(front)
    ensures LastHash(front + tail) == GENESIS <==> LastObject(front).None? || !Continues(LastObject(front).value)
  {
    LastHashSkips(front, tail);
    LastHashExactly(front);
  }

  /** Recovery reads the digest of the last object, wherever that stands; anything but 64 characters is no digest. */
  lemma RecoversLastObject(front: seq<Line>, row: Row, tail: seq<Line>)
    requires NoObject(tail)
    ensures LastHash(front + [Object(row)] + tail) ==
      if "entry_hash" in row && row["entry_hash"].Text? && |row["entry_hash"].text| == 64 then row["entry_hash"].text
      else GENESIS
  {
    LastHashSkips(front + [Object(row)], tail);
  }

  /** One row with a digest, then a malformed line: recovery returns that digest and not genesis. */
  lemma MalformedTailIsSkipped(row: Row)
    requires Continues(row)
    ensures LastHash([Object(row), Malformed]) == Field(row, "entry_hash").value != GENESIS
  {
    assert [Object(row)] + [Malformed] == [Object(row), Malformed];
    LastHashSkips([Object(row)], [Malformed]);
  }

  // ---------------------------------------------------------------- rotation

  predicate RotationDue(cfg: Config, files: Files) {
    cfg.maxBytes > 0 && cfg.backupCount > 0 && 0 in files && cfg.size(files[0]) >= cfg.maxBytes
  }

  /** Every file up to `keep - 1` moves up by one, `keep` is lost, files beyond `keep` stay. */
  function Shifted(files: Files, keep: nat): Files {
    map n | n in ShiftedKeys(files, keep) :: if n <= keep then files[n - 1] else files[n]
  }

  function ShiftedKeys(files: Files, keep: nat): (s: set<nat>)
    ensures forall n :: n in s && n <= keep ==> n > 0 && n - 1 in files
    ensures forall n :: n in s && n > keep ==> n in files
  {
    (set k | k in files && k < keep :: k + 1) + (set k | k in files && k > keep)
  }

  lemma ShiftedAt(files: Files, keep: nat, n: nat)
    ensures n in Shifted(files, keep) <==> if n <= keep then n > 0 && n - 1 in files else n in files
    ensures n in Shifted(files, keep) ==> Shifted(files, keep)[n] == if n <= keep then files[n - 1] else files[n]
  {
    if 0 < n <= keep && n - 1 in files {
      assert (n - 1) + 1 in (set k | k in files && k < keep :: k + 1);
    }
  }

  function Rotated(cfg: Config, files: Files): Files {
    if RotationDue(cfg, files) then Shifted(files, cfg.backupCount) else files
  }

  /** `os.replace(.n, .n+1)` when `.n` exists. */
  function Renamed(files: Files, n: nat): Files {
    if n in files then files[n + 1 := files[n]] - {n} else files
  }

  /** The renames of n, n-1, ..., 1. */
  function RenameAll(files: Files, n: nat): Files
    decreases n
  {
    if n == 0 then files else RenameAll(Renamed(files, n), n - 1)
  }

  function At(files: Files, n: nat): Option<seq<Line>> {
    if n in files then Some(files[n]) else None
  }

  /** What `.k` holds halfway through the renames: the files above `n` have moved up by one. */
  function Midway(before: Files, n: nat, keep: nat, k: nat): Option<seq<Line>> {
    if k <= n || k > keep then At(before, k) else if k == n + 1 then None else At(before, k - 1)
  }

  ghost predicate Shifting(before: Files, files: Files, n: nat, keep: nat) {
    n < keep && forall k: nat :: At(files, k) == Midway(before, n, keep, k)
  }

  lemma ShiftStart(before: Files, keep: nat)
    requires keep > 0
    ensures Shifting(before, before - {keep}, keep - 1, keep)
  {
    var files := before - {keep};
    forall k: nat ensures At(files, k) == Midway(before, keep - 1, keep, k) {
    }
  }

  lemma ShiftOne(before: Files, files: Files, after: Files, n: nat, keep: nat)
    requires Shifting(before, files, n, keep) && n > 0
    requires after == Renamed(files, n)
    ensures Shifting(before, after, n - 1, keep)
  {
    assert At(files, n) == At(before, n) && At(files, n + 1) == None;
    forall k: nat ensures At(after, k) == Midway(before, n - 1, keep, k) {
      assert At(files, k) == Midway(before, n, keep, k);
    }
  }

  lemma ShiftLast(before: Files, files: Files, keep: nat)
    requires Shifting(before, files, 0, keep) && 0 in before
    ensures 0 in files && files[1 := files[0]] - {0} == Shifted(before, keep)
  {
    assert At(files, 0) == At(before, 0);
    var after, shifted := files[1 := files[0]] - {0}, Shifted(before, keep);
    forall k: nat ensures At(after, k) == At(shifted, k) {
      ShiftedAt(before, keep, k);
      assert At(files, k) == Midway(before, 0, keep, k);
    }
    forall k: nat ensures (k in after <==> k in shifted) && (k in after ==> after[k] == shifted[k]) {
      assert At(after, k) == At(shifted, k);
    }
  }

  lemma {:induction false} RenamesFinish(before: Files, files: Files, n: nat, keep: nat)
    requires Shifting(before, files, n, keep) && 0 in before
    ensures 0 in RenameAll(files, n) && RenameAll(files, n)[1 := RenameAll(files, n)[0]] - {0} == Shifted(before, keep)
    decreases n
  {
    if n == 0 {
      ShiftLast(before, files, keep);
    } else {
      ShiftOne(before, files, Renamed(files, n), n, keep);
      RenamesFinish(before, Renamed(files, n), n - 1, keep);
    }
  }

  /** Dropping `keep`, renaming downwards and renaming the active file to 1 shifts every backup by one. */
  lemma RenamesShift(files: Files, keep: nat)
    requires keep > 0 && 0 in files
    ensures var r := RenameAll(files - {keep}, keep - 1);
            0 in r && r[1 := r[0]] - {0} == Shifted(files, keep)
  {
    ShiftStart(files, keep);
    RenamesFinish(files, files - {keep}, keep - 1, keep);
  }

  // ---------------------------------------------------------------- one write

  /** The cache key: the path is resolved once the active file exists or was just rotated away. */
  function KeyFor(cfg: Config, files: Files, rotated: bool): CacheKey {
    if 0 in files || rotated || cfg.canonical then Resolved else AsConfigured
  }

  function Active(files: Files): seq<Line> {
    if 0 in files then files[0] else []
  }

  /** The digest the next row will name: genesis after a rotation, else cached, else recovered. */
  function PrevHash(cfg: Config, files: Files, cache: Cache): string {
    var after := Rotated(cfg, files);
    var key := KeyFor(cfg, after, RotationDue(cfg, files));
    if RotationDue(cfg, files) then GENESIS
    else if key in cache then cache[key]
    else if 0 in files then LastHash(files[0]) else GENESIS
  }

  /** The row written for an event after digest `prev`. */
  function Stamp(h: Hasher, event: Row, prev: string): Row {
    var body := event["prev_hash" := Text(prev)];
    body["entry_hash" := Text(h(prev, body))]
  }

  /**
   A written row verifies exactly when its event brought no `entry_hash` of its own, or the row with
   that field and the row without it are two different inputs with one digest.
   */
  lemma StampVerifiesExactly(h: Hasher, event: Row, prev: string)
    ensures var body := event["prev_hash" := Text(prev)];
            Stamped(h, Stamp(h, event, prev), prev)
            <==> "entry_hash" !in event || (body != Body(body) && h(prev, body) == h(prev, Body(body)))
  {
    var body := event["prev_hash" := Text(prev)];
    assert Body(Stamp(h, event, prev)) == Body(body);
    if "entry_hash" in event {
      assert "entry_hash" in body && "entry_hash" !in Body(body);
    } else {
      assert Body(body) == body;
    }
  }

  /** The line is a row with the fields of the event, apart from two text fields of its own. */
  ghost predicate Carries(line: Line, event: Row) {
    && line.Object?
    && Field(line.row, "prev_hash").Some? && Field(line.row, "entry_hash").Some?
    && forall k :: k != "prev_hash" && k != "entry_hash" ==>
         (k in line.row <==> k in event) && (k in event ==> line.row[k] == event[k])
  }

  lemma StampCarries(h: Hasher, event: Row, prev: string)
    ensures Carries(Object(Stamp(h, event, prev)), event)
  {
  }

  /** The digest `d` for a row that has an `entry_hash`, and genesis for every other one. */
  function Telling(d: string): Hasher {
    (prev: string, row: Row) => if "entry_hash" in row then d else GENESIS
  }

  /** An event with an `entry_hash` of its own, written first into an empty file, is flagged. */
  lemma OwnEntryHashIsFlagged(d: string, own: string)
    requires |d| == 64 && d != GENESIS
    ensures Sha(Telling(d))
    ensures !CleanFile(Telling(d), [Object(Stamp(Telling(d), map["entry_hash" := Text(own)], GENESIS))])
  {
    var h, event := Telling(d), map["entry_hash" := Text(own)];
    var row := Stamp(h, event, GENESIS);
    assert Sha(h) by {
      assert |GENESIS| == 64;
    }
    StampVerifiesExactly(h, event, GENESIS);
    CleanFileSnoc(h, [], Object(row));
    assert [] + [Object(row)] == [Object(row)];
  }

  /** The log, with two history variables: whole files lost to rotation, and all lines ever written. */
  datatype Log = Log(files: Files, cache: Cache, lost: seq<seq<Line>>, written: seq<Line>)

  const EMPTY := Log(map[], map[], [], [])

  /** `rotate_if_needed` together with the choice of the previous digest. */
  function Prepared(cfg: Config, log: Log): Log {
    var due := RotationDue(cfg, log.files);
    var files := Rotated(cfg, log.files);
    var dropped := if due && cfg.backupCount in log.files then [log.files[cfg.backupCount]] else [];
    log.(files := files,
         cache := log.cache[KeyFor(cfg, files, due) := PrevHash(cfg, log.files, log.cache)],
         lost := log.lost + dropped)
  }

  /** `write_event`. */
  function Wrote(cfg: Config, log: Log, event: Row): Log {
    var p := Prepared(cfg, log);
    var key := KeyFor(cfg, p.files, RotationDue(cfg, log.files));
    var row := Stamp(cfg.h, event, p.cache[key]);
    p.(files := p.files[0 := Active(p.files) + [Object(row)]],
       cache := p.cache[key := row["entry_hash"].text],
       written := p.written + [Object(row)])
  }

  /** After a rotation there is no active file. */
  lemma StartsEmpty(cfg: Config, files: Files)
    ensures Active(Rotated(cfg, files)) == if RotationDue(cfg, files) then [] else Active(files)
  {
    if RotationDue(cfg, files) {
      ShiftedAt(files, cfg.backupCount, 0);
    }
  }

  class AuditLog {
    const cfg: Config
    var files: Files
    var cache: Cache
    ghost var lost: seq<seq<Line>>
    ghost var written: seq<Line>

    constructor (cfg: Config)
      ensures this.cfg == cfg && View() == EMPTY
    {
      this.cfg, files, cache := cfg, map[], map[];
      lost, written := [], [];
    }

    ghost function View(): Log
      reads this
    {
      Log(files, cache, lost, written)
    }

    method RotateIfNeeded() returns (rotated: bool)
      modifies this`files
      ensures rotated == RotationDue(cfg, old(files))
      ensures rotated <==> cfg.maxBytes > 0 && cfg.backupCount > 0 && 0 in old(files)
                           && cfg.size(old(files)[0]) >= cfg.maxBytes
      ensures files == Rotated(cfg, old(files))
    {
      if cfg.maxBytes <= 0 || cfg.backupCount <= 0 || 0 !in files || cfg.size(files[0]) < cfg.maxBytes {
        return false;
      }
      var keep: nat := cfg.backupCount;
      RenamesShift(files, keep);
      ghost var target := RenameAll(files - {keep}, keep - 1);
      files := files - {keep};
      var n: nat := keep - 1;
      while n > 0
        invariant RenameAll(files, n) == target
      {
        if n in files {
          files := files[n + 1 := files[n]] - {n};
        }
        n := n - 1;
      }
      files := files[1 := files[0]] - {0};
      return true;
    }

    /** The start of `write_event`: rotate, then settle which digest the next row names. */
    method Prepare() returns (key: CacheKey)
      modifies this
      ensures View() == Prepared(cfg, old(View()))
      ensures key == KeyFor(cfg, files, RotationDue(cfg, old(files))) && key in cache
    {
      if RotationDue(cfg, files) && cfg.backupCount in files {
        lost := lost + [files[cfg.backupCount]];
      }
      var rotated := RotateIfNeeded();
      key := KeyFor(cfg, files, rotated);
      if rotated || key !in cache {
        var digest := GENESIS;
        if !rotated {
          digest := ReadLastHash(if 0 in files then Some(files[0]) else None);
        }
        cache := cache[key := digest];
      }
    }

    method WriteEvent(event: Row)
      modifies this
      ensures View() == Wrote(cfg, old(View()), event)
      ensures 0 in files && files[0] != [] && Carries(files[0][|files[0]| - 1], event)
      ensures files[0][..|files[0]| - 1] == if RotationDue(cfg, old(files)) then [] else Active(old(files))
    {
      StartsEmpty(cfg, files);
      var key := Prepare();
      var prev := cache[key];
      var body := event["prev_hash" := Text(prev)];
      var digest := cfg.h(prev, body);
      body := body["entry_hash" := Text(digest)];
      files := files[0 := Active(files) + [Object(body)]];
      written := written + [Object(body)];
      cache := cache[key := digest];
    }

    /** `_rotated_siblings`: backups 1, 2, ... up to the first number that is missing. */
    method RotatedSiblings() returns (m: nat)
      ensures SiblingCount(files, m)
    {
      m := 0;
      ghost var left := files.Keys;
      while m + 1 in files
        invariant forall n :: 1 <= n <= m ==> n in files
        invariant forall n :: n in files && n > m ==> n in left
        decreases |left|
      {
        m := m + 1;
        left := left - {m};
      }
    }

    /** `verify_chain`: the active file and, when asked, its siblings; raises when a file makes the verifier raise. */
    method VerifyChain(includeRotated: bool) returns (ok: bool, verdicts: seq<Verdict>)
      ensures exists m: nat :: Targets(files, includeRotated, m) && ChainReport(cfg.h, files, m, ok, verdicts)
    {
      var m := 0;
      if includeRotated {
        m := RotatedSiblings();
      }
      assert Targets(files, includeRotated, m);
      verdicts := [];
      ok := true;
      var n := 0;
      while n <= m
        invariant 0 <= n <= m + 1 && |verdicts| == n
        invariant forall k :: 0 <= k < n ==> verdicts[k] == VerdictAt(cfg.h, files, k)
        invariant ok <==> forall k :: 0 <= k < n ==> FileOk(cfg.h, files, k)
      {
        var v := VerifyOne(cfg.h, if n in files then Some(files[n]) else None);
        verdicts := verdicts + [v];
        if v.Raised? {
          assert !FileOk(cfg.h, files, n);
          return false, verdicts;
        }
        if v.result.firstBad.Some? {
          assert !FileOk(cfg.h, files, n);
          ok := false;
        }
        n := n + 1;
      }
    }
  }

  ghost predicate SiblingCount(files: Files, m: nat) {
    (forall n :: 1 <= n <= m ==> n in files) && m + 1 !in files
  }

  /** The files to verify are the active one and the backups 1..m. */
  ghost predicate Targets(files: Files, includeRotated: bool, m: nat) {
    if includeRotated then SiblingCount(files, m) else m == 0
  }

  /** One verdict per file, active first; `ok` exactly when no file is flagged and none makes the verifier raise. */
  ghost predicate ChainReport(h: Hasher, files: Files, m: nat, ok: bool, verdicts: seq<Verdict>) {
    && |verdicts| <= m + 1
    && (forall n :: 0 <= n < |verdicts| ==> verdicts[n] == VerdictAt(h, files, n))
    && (ok ==> |verdicts| == m + 1)
    && (ok <==> forall n :: 0 <= n <= m ==> FileOk(h, files, n))
  }

  function VerdictAt(h: Hasher, files: Files, n: nat): Verdict {
    VerdictOf(h, if n in files then Some(files[n]) else None)
  }

  predicate FileOk(h: Hasher, files: Files, n: nat) {
    var v := VerdictAt(h, files, n);
    v.Report? && v.result.firstBad.None?
  }
}
