/**
 What `verify_chain` says about an audit log from which whole files were taken away.  Every file is
 a chain of its own from genesis, so no removal is flagged; this module says which of them show in
 the list of per-file results, and what stands behind a missing number.
 */
module AuditRemovals {
  import opened Options
  import opened AuditChain
  import opened AuditLogs
  import opened AuditRuns

  /** `verify_chain` on these files returns `ok` and the verdicts, over the active file and the backups 1..m. */
  ghost predicate Reports(h: Hasher, files: Files, rotated: bool, m: nat, ok: bool, verdicts: seq<Verdict>) {
    Targets(files, rotated, m) && ChainReport(h, files, m, ok, verdicts)
  }

  /** The verdict on a file that is not there. */
  const ABSENT := Report(FileResult(0, 0, None, None, None, None))

  /** The log verifies exactly when every file that is read is a clean chain. */
  lemma OkExactly(h: Hasher, files: Files, rotated: bool, m: nat, ok: bool, verdicts: seq<Verdict>)
    requires Reports(h, files, rotated, m, ok, verdicts)
    ensures ok <==> forall n :: 0 <= n <= m && n in files ==> CleanFile(h, files[n])
  {
    forall n | 0 <= n <= m ensures FileOk(h, files, n) <==> (n in files ==> CleanFile(h, files[n])) {
      if n in files {
        UnflaggedExactly(h, files[n]);
      }
    }
  }

  /** The backups that are still read are those in front of the first missing number. */
  lemma ReadUpToTheGap(files: Files, gone: set<nat>, rotated: bool, m: nat, left: nat)
    requires Targets(files, rotated, m) && Targets(files - gone, rotated, left)
    ensures left <= m && (left < m ==> left + 1 in gone)
    ensures forall n :: 1 <= n <= left ==> n !in gone
  {
    assert m + 1 !in files - gone || !rotated;
  }

  /**
   Taking away any files of a log that verifies leaves a log that verifies: the active file may be
   gone, and a missing number hides every older backup.  What is still read has the same verdicts.
   */
  lemma RemovalIsNeverFlagged(h: Hasher, files: Files, gone: set<nat>, rotated: bool, m: nat, verdicts: seq<Verdict>,
                              left: nat, ok: bool, after: seq<Verdict>)
    requires Reports(h, files, rotated, m, true, verdicts) && Reports(h, files - gone, rotated, left, ok, after)
    ensures ok && left <= m && (left < m ==> left + 1 in gone)
    ensures |verdicts| == m + 1 && |after| == left + 1
    ensures forall n :: 1 <= n <= left ==> n !in gone && after[n] == verdicts[n]
    ensures after[0] == if 0 in gone then ABSENT else verdicts[0]
  {
    ReadUpToTheGap(files, gone, rotated, m, left);
    forall n | 0 <= n <= left ensures FileOk(h, files - gone, n) {
      assert FileOk(h, files, n);
      assert n > 0 ==> At(files - gone, n) == At(files, n);
    }
  }

  lemma {:induction false} NothingScanned(h: Hasher, lines: seq<Line>)
    requires Entries(lines) == [] && !HasNonObject(lines)
    ensures ScanFile(h, lines) == START
  {
    if lines != [] {
      var n := |lines| - 1;
      NoNonObjectFront(lines);
      NothingScanned(h, lines[..n]);
    }
  }

  /** An unflagged file is reported like an absent one exactly when it has no entries. */
  lemma LooksAbsentExactly(h: Hasher, files: Files, n: nat)
    requires FileOk(h, files, n)
    ensures VerdictAt(h, files, n) == ABSENT <==> Entries(FileAt(files, n)) == []
  {
    if n in files {
      ScanExact(h, files[n]);
      if Entries(files[n]) == [] {
        NothingScanned(h, files[n]);
      }
    }
  }

  /**
   Exactly which removals leave the whole report as it was: those that take no backup which was
   read, and the active file only when it has no entries.
   */
  lemma RemovalShowsExactly(h: Hasher, files: Files, gone: set<nat>, rotated: bool, m: nat, verdicts: seq<Verdict>,
                            left: nat, ok: bool, after: seq<Verdict>)
    requires Reports(h, files, rotated, m, true, verdicts) && Reports(h, files - gone, rotated, left, ok, after)
    ensures ok && after == verdicts
            <==> (forall n :: 1 <= n <= m ==> n !in gone) && (0 in gone ==> Entries(FileAt(files, 0)) == [])
  {
    RemovalIsNeverFlagged(h, files, gone, rotated, m, verdicts, left, ok, after);
    assert FileOk(h, files, 0);
    LooksAbsentExactly(h, files, 0);
    if left == m && after[0] == verdicts[0] {
      assert after == verdicts;
    }
  }

  /** Files behind a missing number, or any backup when only the active file is asked for, can be anything. */
  lemma UnreadFilesDoNotMatter(h: Hasher, files: Files, other: Files, rotated: bool, m: nat, ok: bool,
                               verdicts: seq<Verdict>)
    requires Reports(h, files, rotated, m, ok, verdicts)
    requires forall n: nat :: n <= m ==> At(other, n) == At(files, n)
    requires rotated ==> m + 1 !in other
    ensures Reports(h, other, rotated, m, ok, verdicts)
  {
    forall n: nat | n <= m
      ensures n in other <==> n in files
      ensures VerdictAt(h, other, n) == VerdictAt(h, files, n) && (FileOk(h, other, n) <==> FileOk(h, files, n))
    {
      assert At(other, n) == At(files, n);
    }
  }

  lemma OnlyFileDeleted(h: Hasher, files: Files, rotated: bool, m: nat, ok: bool, verdicts: seq<Verdict>)
    requires Backups(files, 0) && Reports(h, files - {0}, rotated, m, ok, verdicts)
    ensures ok && verdicts == [ABSENT]
  {
    assert 1 !in files - {0};
    assert FileOk(h, files - {0}, 0);
  }

  lemma TwoWritesRun(h: Hasher, a: Row, b: Row)
    requires Sha(h) && "entry_hash" !in a && "entry_hash" !in b
    ensures Backups(Run(SmallLog(h), EMPTY, [Write(a), Write(b)]).files, 0)
  {
    var log := TwoWrites(h, a, b);
    RunTwo(SmallLog(h), EMPTY, Write(a), Write(b), []);
    assert [Write(a), Write(b)] + [] == [Write(a), Write(b)];
  }

  /** Two rows are written and their file is deleted: the log verifies. */
  lemma DeletedLogVerifies(h: Hasher, a: Row, b: Row, rotated: bool, m: nat, ok: bool, verdicts: seq<Verdict>)
    requires Sha(h) && "entry_hash" !in a && "entry_hash" !in b
    requires Reports(h, Run(SmallLog(h), EMPTY, [Write(a), Write(b)]).files - {0}, rotated, m, ok, verdicts)
    ensures ok && verdicts == [ABSENT]
  {
    TwoWritesRun(h, a, b);
    OnlyFileDeleted(h, Run(SmallLog(h), EMPTY, [Write(a), Write(b)]).files, rotated, m, ok, verdicts);
  }
}
