/** scripts/apply_api_order_entry_formula_promotion_manifest.py: the guarded write over in-place updates
    of three columns of `sales_fact_v2`. */
module FormulaPromotion {
  import opened Wrappers
  import opened GuardedWrite

  /** `other` holds every column the writer never sets. */
  datatype Row = Row(saleId: int, deliveryFee: Option<int>, netRev: Option<int>, profit: Option<int>, other: string)
  datatype Target = Target(saleId: int, before: Row, after: Row)

  ghost predicate Keyed(rows: seq<Row>) {
    forall i, j :: 0 <= i < j < |rows| ==> rows[i].saleId != rows[j].saleId
  }

  ghost predicate DistinctTargets(ts: seq<Target>) {
    forall i, j :: 0 <= i < j < |ts| ==> ts[i].saleId != ts[j].saleId
  }

  function SetColumns(row: Row, t: Target): Row {
    if row.saleId == t.saleId
    then row.(deliveryFee := t.after.deliveryFee, netRev := t.after.netRev, profit := t.after.profit)
    else row
  }

  function Update(rows: seq<Row>, t: Target): (r: seq<Row>)
    ensures |r| == |rows|
    ensures forall k :: 0 <= k < |rows| ==> r[k] == SetColumns(rows[k], t)
  {
    seq(|rows|, k requires 0 <= k < |rows| => SetColumns(rows[k], t))
  }

  function UpdateAll(rows: seq<Row>, ts: seq<Target>): (r: seq<Row>)
    ensures |r| == |rows|
    ensures forall k :: 0 <= k < |rows| ==> r[k].saleId == rows[k].saleId && r[k].other == rows[k].other
  {
    if ts == [] then rows else Update(UpdateAll(rows, ts[..|ts| - 1]), ts[|ts| - 1])
  }

  /** `_query_target`: the one row with this id. */
  predicate Reads(rows: seq<Row>, id: int, row: Row) {
    exists k :: 0 <= k < |rows| && rows[k].saleId == id && rows[k] == row
  }

  predicate AllRead(rows: seq<Row>, ts: seq<Target>, after: bool) {
    forall i :: 0 <= i < |ts| ==> Reads(rows, ts[i].saleId, if after then ts[i].after else ts[i].before)
  }

  /** The transaction: pre-images, updates, post-images, and the same updates once more. */
  method Transact(rows: seq<Row>, ts: seq<Target>) returns (post: Option<seq<Row>>)
    ensures post.Some? <==>
              && AllRead(rows, ts, false) && AllRead(UpdateAll(rows, ts), ts, true)
              && AllRead(UpdateAll(UpdateAll(rows, ts), ts), ts, true)
    ensures post.Some? ==> post.value == UpdateAll(UpdateAll(rows, ts), ts)
  {
    if !AllRead(rows, ts, false) {
      return None;
    }
    var work := RunUpdates(rows, ts);
    if !AllRead(work, ts, true) {
      return None;
    }
    work := RunUpdates(work, ts);
    if !AllRead(work, ts, true) {
      return None;
    }
    post := Some(work);
  }

  method RunUpdates(rows: seq<Row>, ts: seq<Target>) returns (work: seq<Row>)
    ensures work == UpdateAll(rows, ts)
  {
    work := rows;
    for i := 0 to |ts|
      invariant work == UpdateAll(rows, ts[..i])
    {
      assert ts[..i + 1][..i] == ts[..i];
      work := Update(work, ts[i]);
    }
    assert ts[..|ts|] == ts;
  }

  lemma {:induction false} UntargetedUnchanged(rows: seq<Row>, ts: seq<Target>, k: nat)
    requires k < |rows| && forall i :: 0 <= i < |ts| ==> ts[i].saleId != rows[k].saleId
    ensures UpdateAll(rows, ts)[k] == rows[k]
  {
    if ts != [] {
      UntargetedUnchanged(rows, ts[..|ts| - 1], k);
    }
  }

  lemma {:induction false} TargetedSet(rows: seq<Row>, ts: seq<Target>, k: nat, i: nat)
    requires DistinctTargets(ts) && k < |rows| && i < |ts| && ts[i].saleId == rows[k].saleId
    ensures var row := UpdateAll(rows, ts)[k];
            && row.deliveryFee == ts[i].after.deliveryFee && row.netRev == ts[i].after.netRev
            && row.profit == ts[i].after.profit
            && row.saleId == rows[k].saleId && row.other == rows[k].other
  {
    var n := |ts| - 1;
    if i < n {
      TargetedSet(rows, ts[..n], k, i);
    } else {
      UntargetedUnchanged(rows, ts[..n], k);
    }
  }

  /** The declared pre-image is there, and the declared post-image differs in the three columns only. */
  ghost predicate Promotable(rows: seq<Row>, t: Target) {
    t.before in rows && t.before.saleId == t.saleId && t.after.saleId == t.saleId && t.after.other == t.before.other
  }

  lemma ReadsOne(rows: seq<Row>, k: nat, row: Row)
    requires Keyed(rows) && k < |rows|
    ensures Reads(rows, rows[k].saleId, row) <==> rows[k] == row
  {
  }

  lemma TargetReads(rows: seq<Row>, ts: seq<Target>, i: nat)
    requires Keyed(rows) && DistinctTargets(ts) && i < |ts|
    requires Reads(rows, ts[i].saleId, ts[i].before)
    ensures Reads(UpdateAll(rows, ts), ts[i].saleId, ts[i].after) <==> Promotable(rows, ts[i])
  {
    var k :| 0 <= k < |rows| && rows[k].saleId == ts[i].saleId && rows[k] == ts[i].before;
    TargetedSet(rows, ts, k, i);
    ReadsOne(UpdateAll(rows, ts), k, ts[i].after);
  }

  /** Running the same updates again changes nothing. */
  lemma ReplayChangesNothing(rows: seq<Row>, ts: seq<Target>)
    requires DistinctTargets(ts)
    ensures UpdateAll(UpdateAll(rows, ts), ts) == UpdateAll(rows, ts)
  {
    var once := UpdateAll(rows, ts);
    forall k | 0 <= k < |rows| ensures UpdateAll(once, ts)[k] == once[k] {
      if i :| 0 <= i < |ts| && ts[i].saleId == rows[k].saleId {
        TargetedSet(rows, ts, k, i);
        TargetedSet(once, ts, k, i);
      } else {
        UntargetedUnchanged(once, ts, k);
      }
    }
  }

  /** The transaction commits exactly when every target row is at its pre-image and its declared
      post-image differs from that in the three columns only; then every target row becomes its
      post-image, every other row stays, and the replay inside the transaction is a no-op. */
  lemma PromotionMeaning(rows: seq<Row>, ts: seq<Target>)
    requires Keyed(rows) && DistinctTargets(ts)
    ensures (AllRead(rows, ts, false) && AllRead(UpdateAll(rows, ts), ts, true)
             && AllRead(UpdateAll(UpdateAll(rows, ts), ts), ts, true))
            <==> forall i :: 0 <= i < |ts| ==> Promotable(rows, ts[i])
    ensures UpdateAll(UpdateAll(rows, ts), ts) == UpdateAll(rows, ts)
    ensures forall k :: 0 <= k < |rows| && (forall i :: 0 <= i < |ts| ==> ts[i].saleId != rows[k].saleId)
              ==> UpdateAll(rows, ts)[k] == rows[k]
    ensures forall k, i :: 0 <= k < |rows| && 0 <= i < |ts| && rows[k].saleId == ts[i].saleId && Promotable(rows, ts[i])
              ==> UpdateAll(rows, ts)[k] == ts[i].after
  {
    ReplayChangesNothing(rows, ts);
    forall i | 0 <= i < |ts| && Reads(rows, ts[i].saleId, ts[i].before)
      ensures Reads(UpdateAll(rows, ts), ts[i].saleId, ts[i].after) <==> Promotable(rows, ts[i])
    {
      TargetReads(rows, ts, i);
    }
    forall k | 0 <= k < |rows| && forall i :: 0 <= i < |ts| ==> ts[i].saleId != rows[k].saleId
      ensures UpdateAll(rows, ts)[k] == rows[k]
    {
      UntargetedUnchanged(rows, ts, k);
    }
    forall k, i | 0 <= k < |rows| && 0 <= i < |ts| && rows[k].saleId == ts[i].saleId && Promotable(rows, ts[i])
      ensures UpdateAll(rows, ts)[k] == ts[i].after
    {
      TargetedSet(rows, ts, k, i);
      ReadsOne(rows, k, ts[i].before);
    }
  }

  /** The write of a sealed copy. In this writer a failed transaction whose restore also fails raises
      the restore error as it is: that end, and no other unmarked end, can leave a changed target, and
      it does so exactly when the copy broke off, or sidecar files kept it from starting after a COMMIT
      that had landed. */
  method Promote(disk: Disk<seq<Row>>, ts: seq<Target>, s: Schedule) returns (r: Outcome)
    requires disk.Valid() && disk.trace == [disk.Now()] && disk.backup.None? && disk.record.None? && !disk.report
    requires disk.target.Whole? && Keyed(disk.target.content) && DistinctTargets(ts)
    modifies disk
    ensures r.Applied? ==>
              && disk.target == Whole(UpdateAll(old(disk.target).content, ts))
              && forall i :: 0 <= i < |ts| ==> Promotable(old(disk.target).content, ts[i])
    ensures !r.Applied? && !r.Ambiguous? && !r.RawRestoreError? ==> disk.target == old(disk.target)
    ensures var passes := forall i :: 0 <= i < |ts| ==> Promotable(old(disk.target).content, ts[i]);
            r.RawRestoreError? <==>
              && Started(s) && !Committed(s, passes) && !RestoreSucceeds(s)
              && Closed(s, passes)
    ensures r.RawRestoreError? ==>
              (disk.target != old(disk.target) <==>
                 if s.sidecars then
                   && CommitLanded(s, forall i :: 0 <= i < |ts| ==> Promotable(old(disk.target).content, ts[i]))
                   && UpdateAll(old(disk.target).content, ts) != old(disk.target).content
                 else s.restoreCopy.Fails?)
  {
    PromotionMeaning(disk.target.content, ts);
    var post := Transact(disk.target.content, ts);
    r := disk.GuardedApply(post, s, Unwrapped);
  }

  /** So "a failure not called AMBIGUOUS has the pre-image back" fails for this writer: one statement
      raises, then the restore copy breaks off. The same run of the cash writer is marked. */
  method UnmarkedTornTarget(rows: seq<Row>) returns (raw: Outcome, left: File<seq<Row>>, marked: Outcome)
    ensures raw.RawRestoreError? && left.Torn? && marked.Ambiguous?
  {
    var s := Schedule(Fine, false, Fine, false, true, Fine, false, false, Fails, false, Fine, false, Fine, Fine, false);
    var disk := new Disk<seq<Row>>(Whole(rows));
    raw := disk.GuardedApply(None, s, Unwrapped);
    left := disk.target;
    disk := new Disk<seq<Row>>(Whole(rows));
    marked := disk.GuardedApply(None, s, Wrapped);
  }
}
