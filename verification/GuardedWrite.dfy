/** The write protocol shared by scripts/apply_order_cash_repair_manifest.py,
    scripts/apply_sales_publication_binding_manifest.py and
    scripts/apply_api_order_entry_formula_promotion_manifest.py: verified backup, rollback record,
    transaction, post-commit checks, report, and restore on any failure.

    A file is whole or torn; copying over a file truncates it first. A JSON write and COMMIT are
    atomic. Equal SHA-256 means equal content. One process writes. The content of a database is what it
    holds with its journal taken into account, so uncommitted work does not show in it. */
module GuardedWrite {
  import opened Wrappers

  datatype File<+D> = Whole(content: D) | Torn

  datatype Status =
    | Prepared
    | Ready
    | RolledBackAndRestored
    | RestoredAfterPostCommit
    | RestoreFailedAfterTransaction
    | RestoreFailedAfterPostCommit

  /** What is on disk: the target, this run's backup, rollback record and report paths, and whether
      SQLite has a `-journal` or `-wal` file beside the target. */
  datatype World<+D> =
    World(target: File<D>, backup: Option<File<D>>, record: Option<Status>, report: bool, sidecar: bool)

  /** How an external step ends: `Late` took effect and then raised. */
  datatype Fault = Fine | Fails | Late

  /** Every step that can raise, and how it ends in this run. `openRaises` is a raise after the record and
      before the transaction is open: connecting, reading counts and hashes, BEGIN. `sidecars` says that
      SQLite leaves a file behind when it closes the connection. */
  datatype Schedule = Schedule(
    backupCopy: Fault, backupCheckFails: bool, prepare: Fault,
    openRaises: bool, statementRaises: bool, commit: Fault, rollbackRaises: bool,
    sidecars: bool, restoreCopy: Fault, restoreCheckFails: bool, restoreRecord: Fault,
    barrierRaises: bool, ready: Fault, reportWrite: Fault, unlinkRaises: bool)

  /** Whether a restore that fails after a failed transaction is reported as AMBIGUOUS (the cash and
      publication writers) or escapes as it is (the formula promotion writer). */
  datatype Escalation = Wrapped | Unwrapped

  datatype Outcome =
    | Applied
    | BackupFailed
    | NotPrepared
    | RollbackRaised
    | TransactionFailed
    | TransactionFailedRecordLost
    | RestoredAfterCommit
    | RestoredRecordLost
    | RestoredReportLeft
    | Ambiguous
    | RawRestoreError

  /** The promise of the protocol at every instant: a changed target can be put back by hand, and a record
      that says restored is true. */
  ghost predicate Recoverable<D>(pre: File<D>, post: Option<D>, w: World<D>) {
    && (w.target == pre
        || (w.backup == Some(pre) && w.record.Some?
            && (w.target == Torn || (post.Some? && w.target == Whole(post.value)))))
    && (w.record == Some(RolledBackAndRestored) || w.record == Some(RestoredAfterPostCommit) ==> w.target == pre)
  }

  /** The record does not speak of a restore yet. */
  predicate Pending(record: Option<Status>) {
    record == Some(Prepared) || record == Some(Ready)
  }

  ghost predicate AlwaysRecoverable<D>(pre: File<D>, post: Option<D>, trace: seq<World<D>>) {
    forall i :: 0 <= i < |trace| ==> Recoverable(pre, post, trace[i])
  }

  /** Some state on the way is inside the transaction: the pre-image, its backup and record, and a sidecar. */
  ghost predicate CanStopInside<D>(pre: File<D>, trace: seq<World<D>>) {
    exists i :: 0 <= i < |trace| && trace[i].target == pre && trace[i].backup == Some(pre) && trace[i].record.Some?
                && trace[i].sidecar
  }

  lemma StopStays<D>(pre: File<D>, before: seq<World<D>>, after: seq<World<D>>)
    requires CanStopInside(pre, before) && before <= after
    ensures CanStopInside(pre, after)
  {
    var i :| 0 <= i < |before| && before[i].target == pre && before[i].backup == Some(pre) && before[i].record.Some?
             && before[i].sidecar;
    assert after[i] == before[i];
  }

  /** From state `n` on every state has its verified backup and a record. */
  ghost predicate CoveredFrom<D>(n: nat, pre: File<D>, trace: seq<World<D>>) {
    forall i :: n <= i < |trace| ==> trace[i].backup == Some(pre) && trace[i].record.Some?
  }

  /** A sidecar of this run never stands without the backup and the record. */
  ghost predicate SidecarsCovered<D>(pre: File<D>, trace: seq<World<D>>) {
    forall i :: 0 <= i < |trace| && trace[i].sidecar ==> trace[i].backup == Some(pre) && trace[i].record.Some?
  }

  lemma SidecarsStayCovered<D>(pre: File<D>, before: seq<World<D>>, inside: seq<World<D>>, after: seq<World<D>>)
    requires before <= inside <= after
    requires CoveredFrom(|before|, pre, inside) && CoveredFrom(|inside|, pre, after)
    ensures SidecarsCovered(pre, before) ==> SidecarsCovered(pre, after)
  {
    forall i | 0 <= i < |after| && SidecarsCovered(pre, before) && after[i].sidecar
      ensures after[i].backup == Some(pre) && after[i].record.Some?
    {
      if i < |before| {
        assert after[i] == before[i];
      } else if i < |inside| {
        assert after[i] == inside[i];
      }
    }
  }

  predicate Committed(s: Schedule, post: bool) {
    post && !s.openRaises && !s.statementRaises && s.commit.Fine?
  }

  /** The backup is verified and the record prepared: the transaction starts. */
  predicate Started(s: Schedule) {
    s.backupCopy.Fine? && !s.backupCheckFails && s.prepare.Fine?
  }

  /** COMMIT took effect, whether or not it then raised. */
  predicate CommitLanded(s: Schedule, post: bool) {
    post && !s.openRaises && !s.statementRaises && !s.commit.Fails?
  }

  /** The connection is closed without another raise: no transaction is open any more, or its ROLLBACK works. */
  predicate Closed(s: Schedule, post: bool) {
    CommitLanded(s, post) || s.openRaises || !s.rollbackRaises
  }

  predicate Finished(s: Schedule) {
    !s.barrierRaises && s.ready.Fine? && s.reportWrite.Fine?
  }

  predicate RestoreSucceeds(s: Schedule) {
    !s.sidecars && s.restoreCopy.Fine? && !s.restoreCheckFails
  }

  predicate ReportLanded(s: Schedule) {
    !s.barrierRaises && s.ready.Fine? && !s.reportWrite.Fails?
  }

  class Disk<D(==)> {
    var target: File<D>
    var backup: Option<File<D>>
    var record: Option<Status>
    var report: bool
    var sidecar: bool
    /** Every state the disk has been in, so a crash anywhere leaves one of these. */
    ghost var trace: seq<World<D>>

    ghost predicate Valid()
      reads this
    {
      trace != [] && trace[|trace| - 1] == Now()
    }

    ghost function Now(): World<D>
      reads this
    {
      World(target, backup, record, report, sidecar)
    }

    constructor (content: File<D>)
      ensures Valid() && trace == [World(content, None, None, false, false)]
    {
      target, backup, record, report, sidecar := content, None, None, false, false;
      trace := [World(content, None, None, false, false)];
    }

    method SetTarget(f: File<D>)
      requires Valid()
      modifies this
      ensures Valid() && Now() == old(Now()).(target := f) && trace == old(trace) + [Now()]
    {
      target := f;
      trace := trace + [Now()];
    }

    method SetSidecar(present: bool)
      requires Valid()
      modifies this
      ensures Valid() && Now() == old(Now()).(sidecar := present) && trace == old(trace) + [Now()]
    {
      sidecar := present;
      trace := trace + [Now()];
    }

    /** COMMIT: the new content shows and the journal is gone in one step. */
    method Commit(f: File<D>)
      requires Valid()
      modifies this
      ensures Valid() && Now() == old(Now()).(target := f, sidecar := false) && trace == old(trace) + [Now()]
    {
      target, sidecar := f, false;
      trace := trace + [Now()];
    }

    method SetBackup(f: File<D>)
      requires Valid()
      modifies this
      ensures Valid() && Now() == old(Now()).(backup := Some(f)) && trace == old(trace) + [Now()]
    {
      backup := Some(f);
      trace := trace + [Now()];
    }

    method SetReport(present: bool)
      requires Valid()
      modifies this
      ensures Valid() && Now() == old(Now()).(report := present) && trace == old(trace) + [Now()]
    {
      report := present;
      trace := trace + [Now()];
    }

    /** `_write_json_atomic` of the rollback record. */
    method WriteRecord(status: Status, fault: Fault) returns (ok: bool)
      requires Valid()
      modifies this
      ensures Valid() && ok == fault.Fine?
      ensures if fault.Fails? then Now() == old(Now()) && trace == old(trace)
              else Now() == old(Now()).(record := Some(status)) && trace == old(trace) + [Now()]
    {
      if !fault.Fails? {
        record := Some(status);
        trace := trace + [Now()];
      }
      ok := fault.Fine?;
    }

    /** `shutil.copy2(db_path, backup_path)` and its verification. */
    method MakeBackup(s: Schedule) returns (ok: bool)
      requires Valid()
      modifies this
      ensures Valid()
      ensures target == old(target) && record == old(record) && report == old(report) && sidecar == old(sidecar)
      ensures ok <==> s.backupCopy.Fine? && !s.backupCheckFails
      ensures ok ==> backup == Some(target)
      ensures old(trace) <= trace
      ensures forall i :: |old(trace)| <= i < |trace| ==> trace[i].target == target && trace[i].sidecar == sidecar
    {
      SetBackup(Torn);
      if s.backupCopy.Fails? {
        return false;
      }
      SetBackup(target);
      ok := s.backupCopy.Fine? && backup == Some(target) && !s.backupCheckFails;
    }

    /** `_restore_verified_backup`. */
    method Restore(s: Schedule, ghost post: Option<D>, pre: File<D>) returns (ok: bool)
      requires Valid() && backup == Some(pre) && Pending(record) && sidecar == s.sidecars
      requires AlwaysRecoverable(pre, post, trace)
      modifies this
      ensures Valid() && AlwaysRecoverable(pre, post, trace) && old(trace) <= trace
      ensures backup == old(backup) && record == old(record) && report == old(report) && sidecar == old(sidecar)
      ensures ok <==> RestoreSucceeds(s)
      ensures CoveredFrom(|old(trace)|, pre, trace)
      ensures target == if s.sidecars then old(target) else if s.restoreCopy.Fails? then Torn else pre
    {
      if sidecar {
        return false;
      }
      SetTarget(Torn);
      if s.restoreCopy.Fails? {
        return false;
      }
      SetTarget(backup.value);
      ok := s.restoreCopy.Fine? && target == pre && !s.restoreCheckFails;
    }

    /** Everything from BEGIN to COMMIT; on a raise, the ROLLBACK; then the close. Uncommitted work is in
        the target and its journal only, so a run cut off inside leaves the pre-image with a sidecar. */
    method RunTransaction(post: Option<D>, s: Schedule, ghost pre: File<D>) returns (ok: bool, rolledBack: bool)
      requires Valid() && target == pre && backup == Some(pre) && Pending(record)
      requires AlwaysRecoverable(pre, post, trace)
      modifies this
      ensures Valid() && AlwaysRecoverable(pre, post, trace) && old(trace) <= trace
      ensures backup == old(backup) && record == old(record) && report == old(report) && sidecar == s.sidecars
      ensures ok <==> Committed(s, post.Some?)
      ensures ok ==> target == Whole(post.value)
      ensures rolledBack <==> Closed(s, post.Some?)
      ensures target == if CommitLanded(s, post.Some?) then Whole(post.value) else pre
      ensures (!s.openRaises ==> CanStopInside(pre, trace)) && CoveredFrom(|old(trace)|, pre, trace)
    {
      if s.openRaises {
        SetSidecar(s.sidecars);
        return false, true;
      }
      SetSidecar(true);
      assert trace[|trace| - 1] == World(pre, Some(pre), record, report, true);
      if CommitLanded(s, post.Some?) {
        Commit(Whole(post.value));
        ok, rolledBack := s.commit.Fine?, true;
      } else {
        ok, rolledBack := false, !s.rollbackRaises;
      }
      SetSidecar(s.sidecars);
      assert old(trace) < trace;
      assert trace[|old(trace)|] == World(pre, Some(pre), old(record), old(report), true);
    }

    /** `apply_manifest` from the backup on. `post` is what the transaction computes, or `None` when
        one of its checks raises. */
    method GuardedApply(post: Option<D>, s: Schedule, escalation: Escalation) returns (r: Outcome)
      requires Valid() && backup.None? && record.None? && !report
      requires AlwaysRecoverable(target, post, trace)
      modifies this
      ensures Valid() && AlwaysRecoverable(old(target), post, trace) && old(trace) <= trace
      // A normal return is the whole effect with all its evidence, and happens when nothing raised.
      ensures r.Applied? ==>
                && post.Some?
                && Now() == World(Whole(post.value), Some(old(target)), Some(Ready), true, s.sidecars)
      ensures r.Applied? <==> Started(s) && Committed(s, post.Some?) && Finished(s)
      // Any other end has the pre-image back, except the two that say or show otherwise.
      ensures !r.Applied? && !r.Ambiguous? && !r.RawRestoreError? ==> target == old(target)
      ensures r.Ambiguous? || r.RawRestoreError? ==> backup == Some(old(target)) && record.Some?
      ensures r.RawRestoreError? <==>
                && escalation.Unwrapped? && Started(s) && !Committed(s, post.Some?) && !RestoreSucceeds(s)
                && Closed(s, post.Some?)
      ensures r.Ambiguous? <==>
                && Started(s) && !RestoreSucceeds(s)
                && if Committed(s, post.Some?) then !Finished(s)
                   else escalation.Wrapped? && Closed(s, post.Some?)
      ensures r.RawRestoreError? ==>
                && record == Some(Prepared)
                && target == if s.sidecars then (if CommitLanded(s, post.Some?) then Whole(post.value) else old(target))
                             else if s.restoreCopy.Fails? then Torn else old(target)
      // What the record says is how the run ended, unless writing it failed.
      ensures r.TransactionFailed? ==> record == Some(RolledBackAndRestored)
      ensures r.RestoredAfterCommit? || r.RestoredReportLeft? ==> record == Some(RestoredAfterPostCommit)
      ensures r.Ambiguous? && !s.restoreRecord.Fails? ==>
                record == Some(if Committed(s, post.Some?) then RestoreFailedAfterPostCommit
                               else RestoreFailedAfterTransaction)
      ensures r.RollbackRaised? ==> record == Some(Prepared)
      ensures r.BackupFailed? ==> record.None?
      // After a restored run a report stays exactly if one was written and could not be taken away.
      ensures !r.Applied? && !r.Ambiguous? ==>
                (report <==> && Started(s) && Committed(s, post.Some?) && ReportLanded(s)
                             && (!s.restoreRecord.Fine? || s.unlinkRaises))
      // A run that opens its transaction can be cut off inside it, with its backup and record there.
      ensures Started(s) && !s.openRaises ==> CanStopInside(old(target), trace)
      ensures SidecarsCovered(old(target), old(trace)) ==> SidecarsCovered(old(target), trace)
      ensures sidecar == if Started(s) then s.sidecars else old(sidecar)
    {
      ghost var pre := target;
      var expected := target;
      var prepared := Prepare(s);
      if prepared.Some? {
        return prepared.value;
      }
      ghost var before := trace;
      var ok, rolledBack := RunTransaction(post, s, pre);
      ghost var inside := trace;
      if ok {
        r := Finalize(s, post, expected);
      } else if rolledBack {
        r := AfterFailedTransaction(s, escalation, post, expected);
      } else {
        r := RollbackRaised;
      }
      if !s.openRaises {
        StopStays(pre, inside, trace);
      }
      SidecarsStayCovered(pre, before, inside, trace);
    }

    /** The backup and the rollback record: on `None` the transaction can start. */
    method Prepare(s: Schedule) returns (failed: Option<Outcome>)
      requires Valid() && backup.None? && record.None?
      modifies this
      ensures Valid() && old(trace) <= trace
      ensures target == old(target) && report == old(report) && sidecar == old(sidecar)
      ensures forall i :: |old(trace)| <= i < |trace| ==> trace[i].target == target && trace[i].sidecar == sidecar
      ensures failed.None? <==> Started(s)
      ensures failed.None? ==> backup == Some(target) && record == Some(Prepared)
      ensures failed.Some? ==> failed.value.BackupFailed? || failed.value.NotPrepared?
      ensures failed == Some(BackupFailed) ==> record.None?
    {
      var ok := MakeBackup(s);
      if !ok {
        return Some(BackupFailed);
      }
      ok := WriteRecord(Prepared, s.prepare);
      failed := if ok then None else Some(NotPrepared);
    }

    /** After COMMIT: the barrier, the READY record, the report; on a raise, the restore. */
    method Finalize(s: Schedule, ghost post: Option<D>, pre: File<D>) returns (r: Outcome)
      requires Valid() && backup == Some(pre) && Pending(record) && !report && sidecar == s.sidecars
      requires post.Some? && target == Whole(post.value) && AlwaysRecoverable(pre, post, trace)
      modifies this
      ensures Valid() && AlwaysRecoverable(pre, post, trace) && old(trace) <= trace
      ensures backup == old(backup) && record.Some? && sidecar == s.sidecars
      ensures CoveredFrom(|old(trace)|, pre, trace)
      ensures r.Applied? <==> Finished(s)
      ensures r.Applied? ==> target == old(target) && record == Some(Ready) && report
      ensures !r.Applied? && !s.restoreRecord.Fails? ==>
                record == Some(if r.Ambiguous? then RestoreFailedAfterPostCommit else RestoredAfterPostCommit)
      ensures r.RestoredAfterCommit? || r.RestoredReportLeft? ==> record == Some(RestoredAfterPostCommit)
      ensures !r.Applied? && s.restoreRecord.Fails? ==>
                record == if !s.barrierRaises && !s.ready.Fails? then Some(Ready) else old(record)
      ensures r.Ambiguous? <==> !Finished(s) && !RestoreSucceeds(s)
      ensures r.Applied? || r.Ambiguous? || r.RestoredAfterCommit? || r.RestoredRecordLost? || r.RestoredReportLeft?
      ensures !r.Applied? && !r.Ambiguous? ==>
                target == pre && (report <==> ReportLanded(s) && (!s.restoreRecord.Fine? || s.unlinkRaises))
    {
      if !s.barrierRaises {
        var ok := WriteRecord(Ready, s.ready);
        if ok {
          if !s.reportWrite.Fails? {
            SetReport(true);
          }
          if s.reportWrite.Fine? {
            return Applied;
          }
        }
      }
      r := AfterFailedPostCommit(s, post, pre);
    }

    method AfterFailedTransaction(s: Schedule, escalation: Escalation, ghost post: Option<D>, pre: File<D>)
      returns (r: Outcome)
      requires Valid() && backup == Some(pre) && Pending(record) && !report && sidecar == s.sidecars
      requires AlwaysRecoverable(pre, post, trace)
      modifies this
      ensures Valid() && AlwaysRecoverable(pre, post, trace) && old(trace) <= trace
      ensures backup == old(backup) && record.Some? && !report && sidecar == s.sidecars
      ensures CoveredFrom(|old(trace)|, pre, trace)
      ensures r.TransactionFailed? || r.TransactionFailedRecordLost? || r.Ambiguous? || r.RawRestoreError?
      ensures RestoreSucceeds(s) <==> r.TransactionFailed? || r.TransactionFailedRecordLost?
      ensures target == if s.sidecars then old(target) else if s.restoreCopy.Fails? then Torn else pre
      ensures record == if r.RawRestoreError? || s.restoreRecord.Fails? then old(record)
                        else if RestoreSucceeds(s) then Some(RolledBackAndRestored)
                        else Some(RestoreFailedAfterTransaction)
      ensures r.TransactionFailedRecordLost? <==> RestoreSucceeds(s) && !s.restoreRecord.Fine?
      ensures !RestoreSucceeds(s) ==> (r.RawRestoreError? <==> escalation.Unwrapped?)
    {
      var restored := Restore(s, post, pre);
      if !restored {
        if escalation.Unwrapped? {
          return RawRestoreError;
        }
        var _ := WriteRecord(RestoreFailedAfterTransaction, s.restoreRecord);
        return Ambiguous;
      }
      var written := WriteRecord(RolledBackAndRestored, s.restoreRecord);
      r := if written then TransactionFailed else TransactionFailedRecordLost;
    }

    method AfterFailedPostCommit(s: Schedule, ghost post: Option<D>, pre: File<D>) returns (r: Outcome)
      requires Valid() && backup == Some(pre) && Pending(record) && sidecar == s.sidecars
      requires AlwaysRecoverable(pre, post, trace)
      modifies this
      ensures Valid() && AlwaysRecoverable(pre, post, trace) && old(trace) <= trace
      ensures backup == old(backup) && record.Some? && sidecar == s.sidecars
      ensures CoveredFrom(|old(trace)|, pre, trace)
      ensures !r.Ambiguous? ==> target == pre
      // Which end it is, on the faults alone.
      ensures r.Ambiguous? <==> !RestoreSucceeds(s)
      ensures r.RestoredRecordLost? <==> RestoreSucceeds(s) && !s.restoreRecord.Fine?
      ensures r.RestoredReportLeft? <==>
                RestoreSucceeds(s) && s.restoreRecord.Fine? && old(report) && s.unlinkRaises
      ensures r.RestoredAfterCommit? <==>
                RestoreSucceeds(s) && s.restoreRecord.Fine? && !(old(report) && s.unlinkRaises)
      ensures record == if s.restoreRecord.Fails? then old(record)
                        else if RestoreSucceeds(s) then Some(RestoredAfterPostCommit)
                        else Some(RestoreFailedAfterPostCommit)
      ensures RestoreSucceeds(s) ==> (report <==> old(report) && (!s.restoreRecord.Fine? || s.unlinkRaises))
    {
      var restored := Restore(s, post, pre);
      if !restored {
        var _ := WriteRecord(RestoreFailedAfterPostCommit, s.restoreRecord);
        return Ambiguous;
      }
      var written := WriteRecord(RestoredAfterPostCommit, s.restoreRecord);
      if !written {
        return RestoredRecordLost;
      }
      if report {
        if s.unlinkRaises {
          return RestoredReportLeft;
        }
        SetReport(false);
      }
      r := RestoredAfterCommit;
    }
  }
}
