/** The row side of scripts/apply_workbook_anchor_date_drift_repair.py: how candidates are read from
    `sales_fact_v2`, how the selected moves are written back, and why the day sums of the rows follow
    the totals the allocator simulated. */
module DateDriftRows {
  import opened Wrappers
  import opened DateDriftSelect

  /** A row of `sales_fact_v2`. `counted` is "DELIVERED and not returned"; `other` holds the columns
      the repair never reads. The table is listed in `sale_id` order. */
  datatype Row = Row(saleId: int, orderDate: int, orderId: string, storeCode: string,
                     sourceFile: string, counted: bool, amount: Amount, other: string)

  /** `sale_id` is the primary key. */
  ghost predicate Keyed(rows: seq<Row>) {
    forall i, j :: 0 <= i < j < |rows| ==> rows[i].saleId != rows[j].saleId
  }

  // ---------------------------------------------------------------- UPDATE ... WHERE sale_id AND date

  datatype Update = Update(saleId: int, source: int, target: int)

  predicate Hits(row: Row, u: Update) { row.saleId == u.saleId && row.orderDate == u.source }

  function Touch(row: Row, u: Update): Row {
    if Hits(row, u) then row.(orderDate := u.target) else row
  }

  function RunUpdate(rows: seq<Row>, u: Update): (r: seq<Row>)
    ensures |r| == |rows|
    ensures forall k :: 0 <= k < |rows| ==> r[k] == Touch(rows[k], u)
  {
    if rows == [] then [] else [Touch(rows[0], u)] + RunUpdate(rows[1..], u)
  }

  function RowCount(rows: seq<Row>, u: Update): nat {
    if rows == [] then 0 else (if Hits(rows[0], u) then 1 else 0) + RowCount(rows[1..], u)
  }

  lemma {:induction false} NoHitNoCount(rows: seq<Row>, u: Update)
    requires forall k :: 0 <= k < |rows| ==> !Hits(rows[k], u)
    ensures RowCount(rows, u) == 0
  {
    if rows != [] {
      NoHitNoCount(rows[1..], u);
    }
  }

  lemma {:induction false} RowCountOneMore(rows: seq<Row>, k: nat, u: Update)
    requires k < |rows|
    ensures RowCount(rows[..k + 1], u) == RowCount(rows[..k], u) + if Hits(rows[k], u) then 1 else 0
  {
    if k == 0 {
      assert rows[..1][1..] == [] && rows[..0] == [];
    } else {
      RowCountOneMore(rows[1..], k - 1, u);
      assert rows[..k + 1][1..] == rows[1..][..k] && rows[..k][1..] == rows[1..][..k - 1];
    }
  }

  lemma {:induction false} OneHitCountsOne(rows: seq<Row>, u: Update, k: nat)
    requires Keyed(rows)
    requires k < |rows| && Hits(rows[k], u)
    ensures RowCount(rows, u) == 1
  {
    if k == 0 {
      NoHitNoCount(rows[1..], u);
    } else {
      OneHitCountsOne(rows[1..], u, k - 1);
    }
  }

  /** The updates of one move, in the order the loop runs them. */
  function UpdatesOf(source: int, target: int, ids: seq<int>): (r: seq<Update>)
    ensures |r| == |ids|
    ensures forall k :: 0 <= k < |ids| ==> r[k] == Update(ids[k], source, target)
  {
    seq(|ids|, k requires 0 <= k < |ids| => Update(ids[k], source, target))
  }

  function MoveUpdates(m: Move): seq<Update> {
    UpdatesOf(m.candidate.sourceDate, m.target, m.candidate.saleIds)
  }

  function Updates(moves: seq<Move>): seq<Update> {
    if moves == [] then []
    else
      var m := moves[|moves| - 1];
      Updates(moves[..|moves| - 1]) + MoveUpdates(m)
  }

  /** Runs updates in order; `None` when one of them does not hit exactly one row. */
  function RunAll(rows: seq<Row>, us: seq<Update>): (r: Option<seq<Row>>)
    ensures r.Some? ==> |r.value| == |rows|
  {
    if us == [] then Some(rows)
    else
      match RunAll(rows, us[..|us| - 1])
      case None => None
      case Some(mid) =>
        if RowCount(mid, us[|us| - 1]) == 1 then Some(RunUpdate(mid, us[|us| - 1])) else None
  }

  lemma RunAllExtends(rows: seq<Row>, us: seq<Update>, u: Update)
    ensures RunAll(rows, us + [u])
            == match RunAll(rows, us)
               case None => None
               case Some(mid) => if RowCount(mid, u) == 1 then Some(RunUpdate(mid, u)) else None
  {
    assert (us + [u])[..|us|] == us;
  }

  lemma {:induction false} RunAllConcat(rows: seq<Row>, us: seq<Update>, vs: seq<Update>)
    ensures RunAll(rows, us + vs)
            == match RunAll(rows, us) case None => None case Some(mid) => RunAll(mid, vs)
  {
    if vs == [] {
      assert us + vs == us;
    } else {
      var init := vs[..|vs| - 1];
      RunAllConcat(rows, us, init);
      assert us + vs == (us + init) + [vs[|vs| - 1]];
      RunAllExtends(rows, us + init, vs[|vs| - 1]);
    }
  }

  /** Whatever happens, a run of updates rewrites `order_date` only. */
  lemma {:induction false} OnlyDatesChange(rows: seq<Row>, us: seq<Update>)
    ensures match RunAll(rows, us)
            case None => true
            case Some(r) => forall k :: 0 <= k < |rows| ==> r[k] == rows[k].(orderDate := r[k].orderDate)
  {
    if us != [] {
      OnlyDatesChange(rows, us[..|us| - 1]);
    }
  }

  // ---------------------------------------------------------------- when a run of updates succeeds

  /** What `_load_candidate_rows` established: every update names a row by its date before the run. */
  ghost predicate Ready(rows: seq<Row>, us: seq<Update>) {
    forall i :: 0 <= i < |us| ==> HitsSome(rows, us[i])
  }

  ghost predicate HitsSome(rows: seq<Row>, u: Update) {
    exists k :: 0 <= k < |rows| && Hits(rows[k], u)
  }

  lemma ReadyInit(rows: seq<Row>, us: seq<Update>, n: nat)
    requires n <= |us|
    ensures Ready(rows, us) ==> Ready(rows, us[..n])
    ensures NoReuse(us) ==> NoReuse(us[..n])
  {
  }

  /** No row is named again after an update that moved it. */
  ghost predicate NoReuse(us: seq<Update>) {
    forall i, j :: 0 <= i < j < |us| && us[i].saleId == us[j].saleId ==> us[i].source == us[i].target
  }

  ghost predicate DistinctIds(us: seq<Update>) {
    forall i, j :: 0 <= i < j < |us| ==> us[i].saleId != us[j].saleId
  }

  /** The row a run leaves: sent to the target of the last update that names it, the value
      `target_by_sale_id` holds. */
  function Landing(row: Row, us: seq<Update>): Row {
    if us == [] then row
    else if us[|us| - 1].saleId == row.saleId then row.(orderDate := us[|us| - 1].target)
    else Landing(row, us[..|us| - 1])
  }

  ghost predicate LandsWhereSent(rows: seq<Row>, us: seq<Update>, r: seq<Row>) {
    |r| == |rows| && forall k :: 0 <= k < |rows| ==> r[k] == Landing(rows[k], us)
  }

  /** A row whose every update sends it to its own date stays. */
  lemma {:induction false} LandingStays(row: Row, us: seq<Update>)
    requires forall i :: 0 <= i < |us| && us[i].saleId == row.saleId ==> us[i].target == row.orderDate
    ensures Landing(row, us) == row
  {
    if us != [] {
      LandingStays(row, us[..|us| - 1]);
    }
  }

  /** A row that is on its own date after such a list was never sent away. */
  lemma {:induction false} LandingHome(row: Row, us: seq<Update>, i: nat)
    requires NoReuse(us) && i < |us| && us[i].saleId == row.saleId
    requires forall j :: 0 <= j < |us| && us[j].saleId == row.saleId ==> us[j].source == row.orderDate
    requires Landing(row, us).orderDate == row.orderDate
    ensures us[i].target == row.orderDate
  {
    if us[|us| - 1].saleId != row.saleId {
      LandingHome(row, us[..|us| - 1], i);
    }
  }

  lemma SameIdsStayKeyed(rows: seq<Row>, mid: seq<Row>)
    requires Keyed(rows) && |mid| == |rows|
    requires forall k :: 0 <= k < |rows| ==> mid[k].saleId == rows[k].saleId
    ensures Keyed(mid)
  {
  }

  lemma {:induction false} LandingKeepsId(row: Row, us: seq<Update>)
    ensures Landing(row, us).saleId == row.saleId
  {
    if us != [] {
      LandingKeepsId(row, us[..|us| - 1]);
    }
  }

  /** An update that hits every row it names extends the landing by one step. */
  lemma LandOneMore(rows: seq<Row>, init: seq<Update>, mid: seq<Row>, last: Update)
    requires LandsWhereSent(rows, init, mid)
    requires forall k :: 0 <= k < |rows| && rows[k].saleId == last.saleId ==> mid[k].orderDate == last.source
    ensures LandsWhereSent(rows, init + [last], RunUpdate(mid, last))
  {
    var us := init + [last];
    assert us[..|us| - 1] == init;
    forall k | 0 <= k < |rows| ensures RunUpdate(mid, last)[k] == Landing(rows[k], us) {
      LandingKeepsId(rows[k], init);
      OnlyTheDateDiffers(rows[k], init);
    }
  }

  lemma {:induction false} OnlyTheDateDiffers(row: Row, us: seq<Update>)
    ensures Landing(row, us) == row.(orderDate := Landing(row, us).orderDate)
  {
    if us != [] {
      OnlyTheDateDiffers(row, us[..|us| - 1]);
    }
  }

  lemma LandingCounts(rows: seq<Row>, init: seq<Update>, mid: seq<Row>, last: Update, k: nat)
    requires Keyed(rows) && LandsWhereSent(rows, init, mid)
    requires k < |rows| && Hits(mid[k], last)
    ensures RowCount(mid, last) == 1
  {
    forall j | 0 <= j < |rows| ensures mid[j].saleId == rows[j].saleId {
      LandingKeepsId(rows[j], init);
    }
    SameIdsStayKeyed(rows, mid);
    OneHitCountsOne(mid, last, k);
  }

  /** The one row of the table an update of a ready list names. */
  lemma HitRow(rows: seq<Row>, us: seq<Update>, i: nat) returns (k: nat)
    requires Keyed(rows) && Ready(rows, us) && i < |us|
    ensures k < |rows| && Hits(rows[k], us[i])
    ensures forall j :: 0 <= j < |us| && us[j].saleId == us[i].saleId ==> us[j].source == rows[k].orderDate
  {
    assert HitsSome(rows, us[i]);
    k :| 0 <= k < |rows| && Hits(rows[k], us[i]);
    forall j | 0 <= j < |us| && us[j].saleId == us[i].saleId ensures us[j].source == rows[k].orderDate {
      assert HitsSome(rows, us[j]);
      var p :| 0 <= p < |rows| && Hits(rows[p], us[j]);
      assert p == k;
    }
  }

  lemma NextLands(rows: seq<Row>, us: seq<Update>, mid: seq<Row>)
    requires Keyed(rows) && Ready(rows, us) && NoReuse(us) && us != []
    requires LandsWhereSent(rows, us[..|us| - 1], mid)
    ensures RowCount(mid, us[|us| - 1]) == 1
    ensures LandsWhereSent(rows, us, RunUpdate(mid, us[|us| - 1]))
  {
    var n := |us| - 1;
    var init, last := us[..n], us[n];
    var k := HitRow(rows, us, n);
    assert forall i :: 0 <= i < n ==> init[i] == us[i];
    LandingStays(rows[k], init);
    LandingCounts(rows, init, mid, last, k);
    LandOneMore(rows, init, mid, last);
    assert init + [last] == us;
  }

  lemma {:induction false} NoReuseRunSucceeds(rows: seq<Row>, us: seq<Update>)
    requires Keyed(rows) && Ready(rows, us) && NoReuse(us)
    ensures RunAll(rows, us).Some?
    ensures LandsWhereSent(rows, us, RunAll(rows, us).value)
  {
    if us != [] {
      var init := us[..|us| - 1];
      ReadyInit(rows, us, |us| - 1);
      NoReuseRunSucceeds(rows, init);
      NextLands(rows, us, RunAll(rows, init).value);
    }
  }

  /** After a success the last update's row had not been moved before. */
  lemma LastNotReused(rows: seq<Row>, us: seq<Update>, i: nat)
    requires Keyed(rows) && Ready(rows, us) && RunAll(rows, us).Some?
    requires i < |us| - 1 && us[i].saleId == us[|us| - 1].saleId && NoReuse(us[..|us| - 1])
    ensures us[i].source == us[i].target
  {
    var n := |us| - 1;
    var init, last := us[..n], us[n];
    LastStep(rows, us);
    SuccessLands(rows, init);
    CountedRowWaits(rows, init, RunAll(rows, init).value, last);
    var k := HitRow(rows, us, n);
    assert forall j :: 0 <= j < n ==> init[j] == us[j];
    LandingHome(rows[k], init, i);
  }

  lemma ReusedAtTheEnd(us: seq<Update>) returns (i: nat)
    requires us != [] && !NoReuse(us) && NoReuse(us[..|us| - 1])
    ensures i < |us| - 1 && us[i].saleId == us[|us| - 1].saleId && us[i].source != us[i].target
  {
    var init := us[..|us| - 1];
    assert forall p :: 0 <= p < |init| ==> init[p] == us[p];
    var p, j :| 0 <= p < j < |us| && us[p].saleId == us[j].saleId && us[p].source != us[p].target;
    i := p;
  }

  /** The updates go through if and only if no row is named again after it was moved. */
  lemma {:induction false} RunSucceedsIffNoReuse(rows: seq<Row>, us: seq<Update>)
    requires Keyed(rows) && Ready(rows, us)
    ensures RunAll(rows, us).Some? <==> NoReuse(us)
  {
    if NoReuse(us) {
      NoReuseRunSucceeds(rows, us);
    } else if RunAll(rows, us).Some? {
      LastStep(rows, us);
      ReadyInit(rows, us, |us| - 1);
      RunSucceedsIffNoReuse(rows, us[..|us| - 1]);
      var i := ReusedAtTheEnd(us);
      LastNotReused(rows, us, i);
    }
  }

  /** A second update of a row that was moved finds its date changed and the run raises. */
  lemma RepeatedIdFails(rows: seq<Row>, us: seq<Update>, i: nat, j: nat)
    requires Keyed(rows) && Ready(rows, us)
    requires i < j < |us| && us[i].saleId == us[j].saleId && us[i].source != us[i].target
    ensures RunAll(rows, us).None?
  {
    RunSucceedsIffNoReuse(rows, us);
  }

  /** When every update moves its row, that means that no row is named twice. */
  lemma MovingMeansDistinct(us: seq<Update>)
    requires forall i :: 0 <= i < |us| ==> us[i].source != us[i].target
    ensures NoReuse(us) <==> DistinctIds(us)
  {
  }

  // ---------------------------------------------------------------- day sums

  function Zero(): Amount { Amount(0, 0) }

  function OnDay(row: Row, day: int): Amount {
    if row.counted && row.orderDate == day then row.amount else Zero()
  }

  function DaySum(rows: seq<Row>, day: int): Amount {
    if rows == [] then Zero() else OnDay(rows[0], day).Plus(DaySum(rows[1..], day))
  }

  function CarriedRow(row: Row, u: Update): Amount {
    if row.counted && Hits(row, u) then row.amount else Zero()
  }

  /** What an update carries from its source day to its target day. */
  function Carried(rows: seq<Row>, u: Update): Amount {
    if rows == [] then Zero() else CarriedRow(rows[0], u).Plus(Carried(rows[1..], u))
  }

  /** The sum of `day` after `a` left `source` for `target`. */
  function Shift(sum: Amount, a: Amount, source: int, target: int, day: int): Amount {
    var left := if day == source then sum.Minus(a) else sum;
    if day == target then left.Plus(a) else left
  }

  lemma PlusZero(a: Amount)
    ensures Zero().Plus(a) == a == a.Plus(Zero())
  {
  }

  lemma ShiftNothing(s: Amount, source: int, target: int, day: int)
    ensures Shift(s, Zero(), source, target, day) == s
  {
  }

  lemma ShiftAdds(s: Amount, a: Amount, s2: Amount, a2: Amount, source: int, target: int, day: int)
    ensures Shift(s, a, source, target, day).Plus(Shift(s2, a2, source, target, day))
            == Shift(s.Plus(s2), a.Plus(a2), source, target, day)
    ensures Shift(Shift(s, a, source, target, day), a2, source, target, day)
            == Shift(s, a.Plus(a2), source, target, day)
  {
  }

  lemma RowShift(row: Row, u: Update, day: int)
    ensures OnDay(Touch(row, u), day) == Shift(OnDay(row, day), CarriedRow(row, u), u.source, u.target, day)
  {
  }

  lemma UpdatedDaySum(rows: seq<Row>, u: Update, day: int)
    requires rows != []
    ensures DaySum(RunUpdate(rows, u), day)
            == OnDay(Touch(rows[0], u), day).Plus(DaySum(RunUpdate(rows[1..], u), day))
  {
    assert RunUpdate(rows, u)[1..] == RunUpdate(rows[1..], u);
  }

  lemma {:induction false} UpdateShiftsDaySum(rows: seq<Row>, u: Update, day: int)
    ensures DaySum(RunUpdate(rows, u), day) == Shift(DaySum(rows, day), Carried(rows, u), u.source, u.target, day)
  {
    if rows != [] {
      var head, tail := OnDay(rows[0], day), DaySum(rows[1..], day);
      var a, b := CarriedRow(rows[0], u), Carried(rows[1..], u);
      calc {
        DaySum(RunUpdate(rows, u), day);
      == { UpdatedDaySum(rows, u, day); RowShift(rows[0], u, day); UpdateShiftsDaySum(rows[1..], u, day); }
        Shift(head, a, u.source, u.target, day).Plus(Shift(tail, b, u.source, u.target, day));
      == { ShiftAdds(head, a, tail, b, u.source, u.target, day); }
        Shift(head.Plus(tail), a.Plus(b), u.source, u.target, day);
      }
    }
  }

  lemma {:induction false} CarriedUnchanged(rows: seq<Row>, u: Update, v: Update)
    requires u.saleId != v.saleId || v.source == v.target
    ensures Carried(RunUpdate(rows, v), u) == Carried(rows, u)
  {
    if rows != [] {
      CarriedUnchanged(rows[1..], u, v);
      assert RunUpdate(rows, v)[1..] == RunUpdate(rows[1..], v);
    }
  }

  function CarriedBy(rows: seq<Row>, us: seq<Update>): Amount {
    if us == [] then Zero()
    else CarriedBy(rows, us[..|us| - 1]).Plus(Carried(rows, us[|us| - 1]))
  }

  lemma {:induction false} CarriedAfterOthers(rows: seq<Row>, us: seq<Update>, u: Update)
    requires forall i :: 0 <= i < |us| ==> us[i].saleId != u.saleId || us[i].source == us[i].target
    ensures match RunAll(rows, us) case None => true case Some(r) => Carried(r, u) == Carried(rows, u)
  {
    if us != [] {
      var init := us[..|us| - 1];
      CarriedAfterOthers(rows, init, u);
      match RunAll(rows, init)
      case None =>
      case Some(mid) => CarriedUnchanged(mid, u, us[|us| - 1]);
    }
  }

  lemma ShiftOnceMore(mid: seq<Row>, last: Update, s: Amount, a: Amount, day: int)
    requires DaySum(mid, day) == Shift(s, a, last.source, last.target, day)
    ensures DaySum(RunUpdate(mid, last), day) == Shift(s, a.Plus(Carried(mid, last)), last.source, last.target, day)
  {
    UpdateShiftsDaySum(mid, last, day);
    ShiftAdds(s, a, Zero(), Carried(mid, last), last.source, last.target, day);
  }

  /** Updates that share a source and a target shift the day sums by what they carry together. */
  lemma {:induction false} BatchShiftsDaySum(rows: seq<Row>, us: seq<Update>, source: int, target: int, day: int)
    requires forall i :: 0 <= i < |us| ==> us[i].source == source && us[i].target == target
    requires NoReuse(us) && RunAll(rows, us).Some?
    ensures DaySum(RunAll(rows, us).value, day)
            == Shift(DaySum(rows, day), CarriedBy(rows, us), source, target, day)
  {
    if us != [] {
      var init, last := us[..|us| - 1], us[|us| - 1];
      BatchShiftsDaySum(rows, init, source, target, day);
      CarriedAfterOthers(rows, init, last);
      ShiftOnceMore(RunAll(rows, init).value, last, DaySum(rows, day), CarriedBy(rows, init), day);
    } else {
      ShiftNothing(DaySum(rows, day), source, target, day);
    }
  }

  lemma {:induction false} CarriedByAfterOthers(rows: seq<Row>, us: seq<Update>, vs: seq<Update>)
    requires forall i, j :: 0 <= i < |us| && 0 <= j < |vs| ==>
               us[i].saleId != vs[j].saleId || us[i].source == us[i].target
    ensures match RunAll(rows, us) case None => true case Some(r) => CarriedBy(r, vs) == CarriedBy(rows, vs)
  {
    if vs != [] {
      CarriedByAfterOthers(rows, us, vs[..|vs| - 1]);
      CarriedAfterOthers(rows, us, vs[|vs| - 1]);
    }
  }

  // ---------------------------------------------------------------- refinement of the simulation

  /** The rows `ids`, all dated `source`, carry `total` together, wherever they are sent. */
  ghost predicate Carry(rows: seq<Row>, source: int, ids: seq<int>, total: Amount) {
    && (forall i :: 0 <= i < |ids| ==> HitsSome(rows, Update(ids[i], source, 0)))
    && forall target :: CarriedBy(rows, UpdatesOf(source, target, ids)) == total
  }

  /** A candidate as loaded: its amount is the sum over its rows. */
  ghost predicate Loaded(rows: seq<Row>, c: Candidate) {
    Carry(rows, c.sourceDate, c.saleIds, c.amount)
  }

  ghost predicate Tracks(t: Totals, rows: seq<Row>) {
    forall d :: d in t ==> t[d] == DaySum(rows, d)
  }

  lemma UpdatesSplit(moves: seq<Move>)
    requires moves != []
    ensures var m := moves[|moves| - 1];
            Updates(moves) == Updates(moves[..|moves| - 1]) + MoveUpdates(m)
  {
  }

  lemma {:induction false} MovesAreReady(rows: seq<Row>, moves: seq<Move>)
    requires forall k :: 0 <= k < |moves| ==> Loaded(rows, moves[k].candidate)
    ensures Ready(rows, Updates(moves))
  {
    if moves != [] {
      var init, m := moves[..|moves| - 1], moves[|moves| - 1];
      MovesAreReady(rows, init);
      var batch := MoveUpdates(m);
      forall i | 0 <= i < |batch| ensures HitsSome(rows, batch[i]) {
        assert HitsSome(rows, Update(m.candidate.saleIds[i], m.candidate.sourceDate, 0));
        var k :| 0 <= k < |rows| && Hits(rows[k], Update(m.candidate.saleIds[i], m.candidate.sourceDate, 0));
        assert Hits(rows[k], batch[i]);
      }
      UpdatesSplit(moves);
      var us := Updates(moves);
      var p := |Updates(init)|;
      forall i | 0 <= i < |us| ensures HitsSome(rows, us[i]) {
        assert us[i] == if i < p then Updates(init)[i] else batch[i - p];
      }
    }
  }

  lemma TotalsShift(t: Totals, m: Move, day: int)
    requires day in t
    ensures ApplyMove(t, m)[day] == Shift(t[day], m.candidate.amount, m.candidate.sourceDate, m.target, day)
  {
  }

  lemma NoReuseSplit(us: seq<Update>, vs: seq<Update>)
    requires NoReuse(us + vs)
    ensures NoReuse(us) && NoReuse(vs)
    ensures forall i, j :: 0 <= i < |us| && 0 <= j < |vs| ==>
              us[i].saleId != vs[j].saleId || us[i].source == us[i].target
  {
    assert forall i :: 0 <= i < |us| ==> (us + vs)[i] == us[i];
    assert forall j :: 0 <= j < |vs| ==> (us + vs)[|us| + j] == vs[j];
  }

  /** Running the selected moves on the rows changes the sum of every window day exactly as the
      simulated totals change. */
  lemma {:induction false} RowsFollowTotals(rows: seq<Row>, t: Totals, moves: seq<Move>)
    requires Keyed(rows) && Tracks(t, rows)
    requires forall k :: 0 <= k < |moves| ==> Loaded(rows, moves[k].candidate)
    requires NoReuse(Updates(moves)) && RunAll(rows, Updates(moves)).Some?
    ensures Tracks(After(t, moves), RunAll(rows, Updates(moves)).value)
  {
    if moves != [] {
      var init, m := moves[..|moves| - 1], moves[|moves| - 1];
      var us, batch := Updates(init), MoveUpdates(m);
      UpdatesSplit(moves);
      RunAllConcat(rows, us, batch);
      NoReuseSplit(us, batch);
      RowsFollowTotals(rows, t, init);
      var mid := RunAll(rows, us).value;
      CarriedByAfterOthers(rows, us, batch);
      forall d | d in t ensures After(t, moves)[d] == DaySum(RunAll(mid, batch).value, d) {
        BatchShiftsDaySum(mid, batch, m.candidate.sourceDate, m.target, d);
        TotalsShift(After(t, init), m, d);
      }
    }
  }

  /** The whole repair. Every applied run named no row again after moving it and changed dates only, and
      after it the rows themselves, not only the simulated totals, hold every window day within
      tolerance. With amounts of at least zero the moves took disjoint rows. */
  lemma AppliedRepairClearsTheRows(
    cands: seq<Candidate>, win: Window, start: Totals, before: seq<int>, rows: seq<Row>, moves: seq<Move>)
    requires Keyed(rows) && Covers(win, start) && Tracks(start, rows)
    requires forall c :: c in cands ==> Loaded(rows, c)
    requires GreedyRun(cands, win, start, moves)
    requires Ends(cands, win, start, Selected(moves, before, []), moves)
    requires RunAll(rows, Updates(moves)).Some?
    ensures var after := RunAll(rows, Updates(moves)).value;
            && NoReuse(Updates(moves))
            && LandsWhereSent(rows, Updates(moves), after)
            && forall d :: d in start ==> !Failing(win, map[d := DaySum(after, d)], d)
    ensures NonNegative(cands) ==> DistinctIds(Updates(moves))
  {
    RepairAppliesIffRowsDisjoint(cands, win, start, rows, moves);
    MovesAreLoaded(cands, win, start, rows, moves);
    SuccessLands(rows, Updates(moves));
    RowsFollowTotals(rows, start, moves);
    TotalsAreRowSums(win, After(start, moves), RunAll(rows, Updates(moves)).value);
  }

  lemma MovesAreLoaded(cands: seq<Candidate>, win: Window, start: Totals, rows: seq<Row>, moves: seq<Move>)
    requires start.Keys == win.workbook.Keys && GreedyRun(cands, win, start, moves)
    requires forall c :: c in cands ==> Loaded(rows, c)
    ensures forall k :: 0 <= k < |moves| ==> Loaded(rows, moves[k].candidate)
  {
    RunUsesCandidatesOnce(cands, win, start, moves);
  }

  lemma TotalsAreRowSums(win: Window, t: Totals, rows: seq<Row>)
    requires t.Keys == win.workbook.Keys && Tracks(t, rows) && forall d :: d in t ==> !Failing(win, t, d)
    ensures forall d :: d in t ==> !Failing(win, map[d := DaySum(rows, d)], d)
  {
  }

  lemma {:induction false} MovesLeaveTheirDay(cands: seq<Candidate>, win: Window, t: Totals, moves: seq<Move>)
    requires t.Keys == win.workbook.Keys && NonNegative(cands)
    requires GreedyRun(cands, win, t, moves)
    ensures forall k :: 0 <= k < |moves| ==> moves[k].target != moves[k].candidate.sourceDate
  {
    if moves != [] {
      var n := |moves| - 1;
      var init := moves[..n];
      MovesLeaveTheirDay(cands, win, t, init);
      TargetLeavesSource(cands, win, After(t, init), init, moves[n]);
      assert forall k :: 0 <= k < n ==> moves[k] == init[k];
    }
  }

  lemma {:induction false} UpdatesMove(moves: seq<Move>)
    requires forall k :: 0 <= k < |moves| ==> moves[k].target != moves[k].candidate.sourceDate
    ensures forall i :: 0 <= i < |Updates(moves)| ==> Updates(moves)[i].source != Updates(moves)[i].target
  {
    if moves != [] {
      UpdatesMove(moves[..|moves| - 1]);
    }
  }

  /** With the candidates as loaded, the write-back succeeds if and only if no row is named again after
      a move took it elsewhere; with amounts of at least zero, if and only if the selected candidates
      share no row. */
  lemma RepairAppliesIffRowsDisjoint(
    cands: seq<Candidate>, win: Window, start: Totals, rows: seq<Row>, moves: seq<Move>)
    requires Keyed(rows) && Covers(win, start)
    requires forall c :: c in cands ==> Loaded(rows, c)
    requires GreedyRun(cands, win, start, moves)
    ensures RunAll(rows, Updates(moves)).Some? <==> NoReuse(Updates(moves))
    ensures NonNegative(cands) ==> (RunAll(rows, Updates(moves)).Some? <==> DistinctIds(Updates(moves)))
  {
    MovesAreLoaded(cands, win, start, rows, moves);
    MovesAreReady(rows, moves);
    RunSucceedsIffNoReuse(rows, Updates(moves));
    if NonNegative(cands) {
      MovesLeaveTheirDay(cands, win, start, moves);
      UpdatesMove(moves);
      MovingMeansDistinct(Updates(moves));
    }
  }

  // ---------------------------------------------------------------- _apply_moves_to_db

  lemma CountedRow(rows: seq<Row>, u: Update) returns (k: nat)
    requires RowCount(rows, u) != 0
    ensures k < |rows| && Hits(rows[k], u)
  {
    if forall k :: 0 <= k < |rows| ==> !Hits(rows[k], u) {
      NoHitNoCount(rows, u);
    }
    k :| 0 <= k < |rows| && Hits(rows[k], u);
  }

  ghost predicate HasRow(rows: seq<Row>, id: int) {
    exists k :: 0 <= k < |rows| && rows[k].saleId == id
  }

  /** Every `sale_id` the moves name is in the table. */
  ghost predicate AllThere(rows: seq<Row>, moves: seq<Move>) {
    forall i, j :: 0 <= i < |moves| && 0 <= j < |moves[i].candidate.saleIds| ==>
      HasRow(rows, moves[i].candidate.saleIds[j])
  }

  lemma CountedRowWaits(rows: seq<Row>, init: seq<Update>, mid: seq<Row>, last: Update)
    requires Keyed(rows) && |mid| == |rows| && LandsWhereSent(rows, init, mid) && RowCount(mid, last) != 0
    ensures forall k :: 0 <= k < |rows| && rows[k].saleId == last.saleId ==> mid[k].orderDate == last.source
    ensures HasRow(rows, last.saleId)
  {
    var j := CountedRow(mid, last);
    LandingKeepsId(rows[j], init);
    assert rows[j].saleId == last.saleId;
  }

  lemma {:induction false} SuccessLands(rows: seq<Row>, us: seq<Update>)
    requires Keyed(rows) && RunAll(rows, us).Some?
    ensures LandsWhereSent(rows, us, RunAll(rows, us).value)
  {
    if us != [] {
      var n := |us| - 1;
      var init, last := us[..n], us[n];
      SuccessLands(rows, init);
      var mid := RunAll(rows, init).value;
      CountedRowWaits(rows, init, mid, last);
      LandOneMore(rows, init, mid, last);
      assert init + [last] == us;
    }
  }

  /** A run that succeeds named only rows of the table. */
  lemma {:induction false} NamedRowExists(rows: seq<Row>, us: seq<Update>, i: nat)
    requires Keyed(rows) && RunAll(rows, us).Some? && i < |us|
    ensures HasRow(rows, us[i].saleId)
    decreases |us|
  {
    LastStep(rows, us);
    if i < |us| - 1 {
      NamedRowExists(rows, us[..|us| - 1], i);
    } else {
      SuccessLands(rows, us[..i]);
      CountedRowWaits(rows, us[..i], RunAll(rows, us[..i]).value, us[i]);
    }
  }

  lemma LastStep(rows: seq<Row>, us: seq<Update>)
    requires us != [] && RunAll(rows, us).Some?
    ensures var n := |us| - 1;
            RunAll(rows, us[..n]).Some? && RowCount(RunAll(rows, us[..n]).value, us[n]) == 1
  {
  }

  lemma {:induction false} UpdatesConcat(a: seq<Move>, b: seq<Move>)
    ensures Updates(a + b) == Updates(a) + Updates(b)
  {
    if b == [] {
      assert a + b == a;
    } else {
      var init, m := b[..|b| - 1], b[|b| - 1];
      calc {
        Updates(a + b);
      == { assert (a + b)[..|a + b| - 1] == a + init; }
        Updates(a + init) + MoveUpdates(m);
      == { UpdatesConcat(a, init); }
        (Updates(a) + Updates(init)) + MoveUpdates(m);
      == { Associative(Updates(a), Updates(init), MoveUpdates(m)); }
        Updates(a) + Updates(b);
      }
    }
  }

  lemma Associative<T>(a: seq<T>, b: seq<T>, c: seq<T>)
    ensures (a + b) + c == a + (b + c)
  {
  }

  lemma BatchSplit(source: int, target: int, ids: seq<int>, j: nat)
    requires j <= |ids|
    ensures UpdatesOf(source, target, ids)
            == UpdatesOf(source, target, ids[..j]) + UpdatesOf(source, target, ids)[j..]
  {
  }

  lemma UpdatesOfOne(m: Move)
    ensures Updates([m]) == MoveUpdates(m)
  {
    assert [m][..0] == [];
    assert Updates([]) + MoveUpdates(m) == MoveUpdates(m);
  }

  /** The updates up to row `j` of move `i` are a prefix of the whole list. */
  lemma UpdatesUpTo(moves: seq<Move>, i: nat, j: nat) returns (rest: seq<Update>)
    requires i < |moves| && j <= |moves[i].candidate.saleIds|
    ensures Updates(moves)
            == Updates(moves[..i])
               + UpdatesOf(moves[i].candidate.sourceDate, moves[i].target, moves[i].candidate.saleIds[..j]) + rest
  {
    var m := moves[i];
    var head := UpdatesOf(m.candidate.sourceDate, m.target, m.candidate.saleIds[..j]);
    var tail := MoveUpdates(m)[j..];
    var later := Updates(moves[i + 1..]);
    rest := tail + later;
    calc {
      Updates(moves);
    == { assert moves == moves[..i] + ([m] + moves[i + 1..]); UpdatesConcat(moves[..i], [m] + moves[i + 1..]); }
      Updates(moves[..i]) + Updates([m] + moves[i + 1..]);
    == { UpdatesConcat([m], moves[i + 1..]); UpdatesOfOne(m); }
      Updates(moves[..i]) + (MoveUpdates(m) + later);
    == { BatchSplit(m.candidate.sourceDate, m.target, m.candidate.saleIds, j); Associative(head, tail, later); }
      Updates(moves[..i]) + (head + rest);
    == { Associative(Updates(moves[..i]), head, rest); }
      (Updates(moves[..i]) + head) + rest;
    }
  }

  lemma UpdateStays(rows: seq<Row>, moves: seq<Move>, i: nat, j: nat)
    requires i < |moves| && j < |moves[i].candidate.saleIds|
    requires var m := moves[i];
             var us := Updates(moves[..i]) + UpdatesOf(m.candidate.sourceDate, m.target, m.candidate.saleIds[..j]);
             var u := Update(m.candidate.saleIds[j], m.candidate.sourceDate, m.target);
             RunAll(rows, us).Some? && RowCount(RunAll(rows, us).value, u) != 1
    ensures RunAll(rows, Updates(moves)).None?
  {
    var m := moves[i];
    var us := Updates(moves[..i]) + UpdatesOf(m.candidate.sourceDate, m.target, m.candidate.saleIds[..j]);
    var u := Update(m.candidate.saleIds[j], m.candidate.sourceDate, m.target);
    var rest := UpdatesUpTo(moves, i, j + 1);
    RunAllExtends(rows, us, u);
    assert Updates(moves[..i]) + UpdatesOf(m.candidate.sourceDate, m.target, m.candidate.saleIds[..j + 1]) == us + [u];
    RunAllConcat(rows, us + [u], rest);
  }

  datatype ApplyError =
    | MissingRow(saleId: int)
    | UnexpectedRowCount(saleId: int)
    | DateNotUpdated
    | ForbiddenMutation

  class SalesFactTable {
    var rows: seq<Row>

    constructor (initial: seq<Row>)
      ensures rows == initial
    {
      rows := initial;
    }

    /** One UPDATE: a row takes the new date if and only if it has the id and the source date; on a keyed
        table the row count is one exactly when there is such a row, and else zero. */
    method ExecuteUpdate(u: Update) returns (rowcount: nat)
      modifies this
      ensures rows == RunUpdate(old(rows), u) && rowcount == RowCount(old(rows), u)
      ensures |rows| == |old(rows)|
      ensures forall k :: 0 <= k < |rows| ==>
                rows[k] == if Hits(old(rows)[k], u) then old(rows)[k].(orderDate := u.target) else old(rows)[k]
      ensures Keyed(old(rows)) ==>
                rowcount == if exists k :: 0 <= k < |old(rows)| && Hits(old(rows)[k], u) then 1 else 0
    {
      ghost var was := rows;
      rowcount := 0;
      for k := 0 to |rows|
        invariant |rows| == |was|
        invariant forall j :: 0 <= j < |rows| ==> rows[j] == if j < k then Touch(was[j], u) else was[j]
        invariant rowcount == RowCount(was[..k], u)
      {
        RowCountOneMore(was, k, u);
        if Hits(rows[k], u) {
          rows := rows[k := rows[k].(orderDate := u.target)];
          rowcount := rowcount + 1;
        }
      }
      assert was[..|was|] == was;
      assert rows == RunUpdate(was, u);
      if k :| 0 <= k < |was| && Hits(was[k], u) {
        if Keyed(was) {
          OneHitCountsOne(was, u, k);
        }
      } else {
        NoHitNoCount(was, u);
      }
    }

    /** The row count before the update: every named `sale_id` is there, or the run raises. */
    method FindMissing(moves: seq<Move>) returns (missing: Option<int>)
      requires Keyed(rows)
      ensures missing.Some? ==> RunAll(rows, Updates(moves)).None? && !HasRow(rows, missing.value)
      ensures missing.None? <==> AllThere(rows, moves)
    {
      for i := 0 to |moves|
        invariant AllThere(rows, moves[..i])
      {
        var ids := moves[i].candidate.saleIds;
        for j := 0 to |ids|
          invariant forall k :: 0 <= k < j ==> HasRow(rows, ids[k])
        {
          if forall k :: 0 <= k < |rows| ==> rows[k].saleId != ids[j] {
            MissingMeansNone(rows, moves, i, j);
            return Some(ids[j]);
          }
        }
      }
      assert moves[..|moves|] == moves;
      missing := None;
    }

    /** The state of the update loop after the updates `us`. */
    ghost predicate Progress(before: seq<Row>, us: seq<Update>, updated: nat, targets: map<int, int>)
      reads this
    {
      && RunAll(before, us) == Some(rows) && updated == |us|
      && forall k :: 0 <= k < |before| ==> SentTo(before[k], us, targets)
    }

    /** The inner loop: the updates of one move. */
    method RunMove(m: Move, updated0: nat, targets0: map<int, int>, ghost before: seq<Row>, ghost done: seq<Update>)
      returns (failed: Option<nat>, updated: nat, targets: map<int, int>)
      requires Progress(before, done, updated0, targets0)
      modifies this
      ensures failed.None? ==> Progress(before, done + MoveUpdates(m), updated, targets)
      ensures failed.Some? ==>
                && failed.value < |m.candidate.saleIds|
                && var us := done + UpdatesOf(m.candidate.sourceDate, m.target, m.candidate.saleIds[..failed.value]);
                   var u := Update(m.candidate.saleIds[failed.value], m.candidate.sourceDate, m.target);
                   RunAll(before, us).Some? && RowCount(RunAll(before, us).value, u) != 1
    {
      updated, targets := updated0, targets0;
      var ids := m.candidate.saleIds;
      ghost var us := done;
      for j := 0 to |ids|
        invariant us == done + UpdatesOf(m.candidate.sourceDate, m.target, ids[..j])
        invariant Progress(before, us, updated, targets)
      {
        var u := Update(ids[j], m.candidate.sourceDate, m.target);
        assert done + UpdatesOf(m.candidate.sourceDate, m.target, ids[..j + 1]) == us + [u];
        RunAllExtends(before, us, u);
        SentToExtends(before, us, targets, u);
        var rowcount := ExecuteUpdate(u);
        if rowcount != 1 {
          return Some(j), updated, targets;
        }
        updated := updated + rowcount;
        targets := targets[ids[j] := m.target];
        us := us + [u];
      }
      assert ids[..|ids|] == ids;
      failed := None;
    }

    /** The update loop. `targets` is `target_by_sale_id`. */
    method RunMoves(moves: seq<Move>) returns (r: Result<nat, ApplyError>, targets: map<int, int>)
      requires Keyed(rows)
      modifies this
      ensures r.Ok? ==> Progress(old(rows), Updates(moves), r.value, targets)
      ensures r.Err? ==> RunAll(old(rows), Updates(moves)).None? && r.error.UnexpectedRowCount?
    {
      ghost var before := rows;
      var updated := 0;
      targets := map[];
      for i := 0 to |moves|
        invariant Progress(before, Updates(moves[..i]), updated, targets)
      {
        var m := moves[i];
        UpdatesSplit(moves[..i + 1]);
        assert moves[..i + 1][..i] == moves[..i];
        var failed;
        failed, updated, targets := RunMove(m, updated, targets, before, Updates(moves[..i]));
        if failed.Some? {
          UpdateStays(before, moves, i, failed.value);
          return Err(UnexpectedRowCount(m.candidate.saleIds[failed.value])), targets;
        }
      }
      assert moves[..|moves|] == moves;
      r := Ok(updated);
    }

    /** `_apply_moves_to_db`. On success the rows are the result of running every update in order,
        each hitting one row. On an error (the caller rolls back) some update could not. The two
        read-back checks at the end can never be what raises. */
    method ApplyMovesToDb(moves: seq<Move>) returns (r: Result<nat, ApplyError>)
      requires Keyed(rows)
      modifies this
      ensures r.Ok? ==> RunAll(old(rows), Updates(moves)) == Some(rows) && r.value == |Updates(moves)|
      ensures r.Err? ==> RunAll(old(rows), Updates(moves)).None?
      ensures r.Err? ==> r.error.MissingRow? || r.error.UnexpectedRowCount?
      ensures r.Err? ==> (r.error.MissingRow? <==> !AllThere(old(rows), moves))
    {
      var before := rows;
      var missing := FindMissing(moves);
      if missing.Some? {
        return Err(MissingRow(missing.value));
      }
      var targets;
      r, targets := RunMoves(moves);
      if r.Err? {
        return;
      }
      SuccessLands(before, Updates(moves));
      for k := 0 to |before| {
        if before[k].saleId in targets {
          if rows[k].orderDate != targets[before[k].saleId] {
            return Err(DateNotUpdated);
          }
          if rows[k].(orderDate := before[k].orderDate) != before[k] {
            return Err(ForbiddenMutation);
          }
        }
      }
    }
  }

  /** `targets` names the landing date of `row`, if any update names the row. */
  ghost predicate SentTo(row: Row, us: seq<Update>, targets: map<int, int>) {
    if row.saleId in targets then Landing(row, us) == row.(orderDate := targets[row.saleId])
    else forall i :: 0 <= i < |us| ==> us[i].saleId != row.saleId
  }

  lemma SentToExtends(rows: seq<Row>, us: seq<Update>, targets: map<int, int>, u: Update)
    requires forall k :: 0 <= k < |rows| ==> SentTo(rows[k], us, targets)
    ensures forall k :: 0 <= k < |rows| ==> SentTo(rows[k], us + [u], targets[u.saleId := u.target])
  {
    assert (us + [u])[..|us|] == us;
  }

  lemma MissingMeansNone(rows: seq<Row>, moves: seq<Move>, i: nat, j: nat)
    requires Keyed(rows) && i < |moves| && j < |moves[i].candidate.saleIds|
    requires forall k :: 0 <= k < |rows| ==> rows[k].saleId != moves[i].candidate.saleIds[j]
    ensures RunAll(rows, Updates(moves)).None?
  {
    var rest := UpdatesUpTo(moves, i, j + 1);
    var p := |Updates(moves[..i])| + j;
    assert Updates(moves)[p].saleId == moves[i].candidate.saleIds[j];
    if RunAll(rows, Updates(moves)).Some? {
      NamedRowExists(rows, Updates(moves), p);
    }
  }

  // ---------------------------------------------------------------- _load_candidate_rows

  datatype Lineage = Lineage(pairStatus: string, bucket: string, sourceFile: string, orderId: string,
                             date: int, storeCode: string, workbookDates: seq<int>, published: Amount)

  datatype LoadError =
    | NoWorkbookDates(line: nat)
    | Incomplete(line: nat)
    | NoRows(line: nat)
    | AmountMismatch(line: nat)
    | NoCandidates

  predicate Allowed(l: Lineage) {
    && l.pairStatus == "ORDER_IN_WB_OTHER_DAY"
    && (l.bucket == "KASPI_REBUILD_DATE_DRIFT" || l.bucket == "INTERNAL_SOURCE_DATE_DRIFT")
    && (l.sourceFile == "KASPI_API_ENTRIES_REBUILD" || l.sourceFile == "KASPI_API_HEADER_FALLBACK_REBUILD")
  }

  predicate Picks(l: Lineage, row: Row) {
    && row.orderId == l.orderId && row.orderDate == l.date && row.storeCode == l.storeCode
    && row.sourceFile == l.sourceFile && row.counted
  }

  predicate Close(a: int, b: int) { -1 <= a - b <= 1 }

  /** A lineage line the repair is for: the order is in the workbook on another day, in one of the two drift
      buckets, from one of the two rebuild sources. */
  ghost predicate Drifted(l: Lineage) {
    && l.pairStatus == "ORDER_IN_WB_OTHER_DAY"
    && l.bucket in ["KASPI_REBUILD_DATE_DRIFT", "INTERNAL_SOURCE_DATE_DRIFT"]
    && l.sourceFile in ["KASPI_API_ENTRIES_REBUILD", "KASPI_API_HEADER_FALLBACK_REBUILD"]
  }

  /** A delivered row of the line's order, on its date, in its store, from its source. */
  ghost predicate OfLine(l: Lineage, row: Row) {
    && row.counted
    && (row.orderId, row.orderDate, row.storeCode, row.sourceFile) == (l.orderId, l.date, l.storeCode, l.sourceFile)
  }

  /** Units and net both within one of what the classifier published. */
  ghost predicate AsPublished(a: Amount, b: Amount) {
    a.units - 1 <= b.units <= a.units + 1 && a.net - 1 <= b.net <= a.net + 1
  }

  lemma {:induction false} CarriedNothing(rows: seq<Row>, u: Update)
    requires forall k :: 0 <= k < |rows| ==> rows[k].saleId != u.saleId
    ensures Carried(rows, u) == Zero()
  {
    if rows != [] {
      assert !Hits(rows[0], u);
      PlusZero(Carried(rows[1..], u));
      CarriedNothing(rows[1..], u);
    }
  }

  lemma {:induction false} CarriedIsTheRow(rows: seq<Row>, k: nat, u: Update)
    requires Keyed(rows) && k < |rows| && Hits(rows[k], u) && rows[k].counted
    ensures Carried(rows, u) == rows[k].amount
  {
    PlusZero(rows[k].amount);
    if k == 0 {
      CarriedNothing(rows[1..], u);
    } else {
      CarriedIsTheRow(rows[1..], k - 1, u);
    }
  }

  lemma CarryOneMore(rows: seq<Row>, source: int, ids: seq<int>, total: Amount, k: nat)
    requires Keyed(rows) && Carry(rows, source, ids, total)
    requires k < |rows| && rows[k].orderDate == source && rows[k].counted
    ensures Carry(rows, source, ids + [rows[k].saleId], total.Plus(rows[k].amount))
  {
    var more := ids + [rows[k].saleId];
    forall i | 0 <= i < |more| ensures HitsSome(rows, Update(more[i], source, 0)) {
      if i == |ids| {
        assert Hits(rows[k], Update(more[i], source, 0));
      }
    }
    forall target ensures CarriedBy(rows, UpdatesOf(source, target, more)) == total.Plus(rows[k].amount) {
      var us := UpdatesOf(source, target, more);
      assert us[..|us| - 1] == UpdatesOf(source, target, ids);
      CarriedIsTheRow(rows, k, Update(rows[k].saleId, source, target));
    }
  }

  /** The sum over the rows a line picks. */
  function PickedTotal(rows: seq<Row>, l: Lineage): Amount {
    if rows == [] then Zero()
    else
      var init, last := PickedTotal(rows[..|rows| - 1], l), rows[|rows| - 1];
      if Picks(l, last) then init.Plus(last.amount) else init
  }

  /** A line the loader accepts: complete, with rows, and adding up to what was published. */
  ghost predicate Loads(rows: seq<Row>, l: Lineage) {
    && l.workbookDates != [] && l.orderId != "" && l.storeCode != ""
    && (exists k :: 0 <= k < |rows| && OfLine(l, rows[k]))
    && AsPublished(PickedTotal(rows, l), l.published)
  }

  /** The query of one lineage line: the ids of the rows it picks, and their total. */
  method QueryLine(rows: seq<Row>, l: Lineage) returns (ids: seq<int>, total: Amount)
    requires Keyed(rows)
    ensures total == PickedTotal(rows, l)
    ensures ids == [] <==> forall k :: 0 <= k < |rows| ==> !OfLine(l, rows[k])
    ensures Carry(rows, l.date, ids, total)
    ensures forall k :: 0 <= k < |rows| ==> (rows[k].saleId in ids <==> OfLine(l, rows[k]))
  {
    ids, total := [], Zero();
    for k := 0 to |rows|
      invariant Carry(rows, l.date, ids, total) && total == PickedTotal(rows[..k], l)
      invariant ids == [] <==> forall p :: 0 <= p < k ==> !Picks(l, rows[p])
      invariant forall p :: 0 <= p < |rows| ==> (rows[p].saleId in ids <==> p < k && Picks(l, rows[p]))
    {
      assert rows[..k + 1][..k] == rows[..k];
      if Picks(l, rows[k]) {
        CarryOneMore(rows, l.date, ids, total, k);
        ids, total := ids + [rows[k].saleId], total.Plus(rows[k].amount);
      }
    }
    assert rows[..|rows|] == rows;
  }

  /** `c` is the candidate of line `i`: the same identity, every row the line picks and no other. */
  ghost predicate FromLine(rows: seq<Row>, lineage: seq<Lineage>, i: nat, c: Candidate)
    requires i < |lineage|
  {
    var l := lineage[i];
    && Drifted(l) && Loaded(rows, c)
    && c.index == i && c.sourceDate == l.date && c.orderId == l.orderId && c.storeCode == l.storeCode
    && c.workbookDates == l.workbookDates != []
    && AsPublished(c.amount, l.published)
    && c.saleIds != []
    && forall k :: 0 <= k < |rows| ==> (rows[k].saleId in c.saleIds <==> OfLine(l, rows[k]))
  }

  /** One allowed line. */
  method LoadLine(rows: seq<Row>, lineage: seq<Lineage>, i: nat) returns (r: Result<Candidate, LoadError>)
    requires Keyed(rows) && i < |lineage| && Allowed(lineage[i])
    ensures r.Ok? <==> Loads(rows, lineage[i])
    ensures r.Ok? ==> FromLine(rows, lineage, i, r.value)
    ensures var l := lineage[i];
            && (r == Err(NoWorkbookDates(i)) <==> l.workbookDates == [])
            && (r == Err(Incomplete(i)) <==> l.workbookDates != [] && "" in [l.orderId, l.storeCode])
            && (r == Err(NoRows(i)) <==>
                  && l.workbookDates != [] && "" !in [l.orderId, l.storeCode]
                  && forall k :: 0 <= k < |rows| ==> !OfLine(l, rows[k]))
  {
    var l := lineage[i];
    if l.workbookDates == [] {
      return Err(NoWorkbookDates(i));
    }
    if l.orderId == "" || l.storeCode == "" {
      return Err(Incomplete(i));
    }
    var ids, total := QueryLine(rows, l);
    if ids == [] {
      return Err(NoRows(i));
    }
    if !Close(total.units, l.published.units) || !Close(total.net, l.published.net) {
      return Err(AmountMismatch(i));
    }
    r := Ok(Candidate(i, l.date, l.orderId, l.storeCode, total, l.workbookDates, ids));
  }

  /** What the first `n` lines leave: one candidate for each allowed one, in line order. */
  ghost predicate LoadedFrom(rows: seq<Row>, lineage: seq<Lineage>, n: nat, cs: seq<Candidate>)
    requires n <= |lineage|
  {
    && DistinctIndexes(cs)
    && (forall c :: c in cs ==> c.index < n && FromLine(rows, lineage, c.index, c))
    && forall p :: 0 <= p < n && Drifted(lineage[p]) ==> HasIndex(cs, p)
  }

  ghost predicate HasIndex(cs: seq<Candidate>, p: nat) {
    exists c :: c in cs && c.index == p
  }

  lemma LoadedOneMore(rows: seq<Row>, lineage: seq<Lineage>, n: nat, cs: seq<Candidate>, c: Candidate)
    requires n < |lineage| && LoadedFrom(rows, lineage, n, cs) && c.index == n && FromLine(rows, lineage, n, c)
    ensures LoadedFrom(rows, lineage, n + 1, cs + [c])
  {
    var more := cs + [c];
    forall i, j | 0 <= i < j < |more| ensures more[i].index != more[j].index {
      assert more[i] in cs;
    }
    forall p | 0 <= p < n + 1 && Drifted(lineage[p]) ensures HasIndex(more, p) {
      if p == n {
        assert c in more;
      } else {
        assert HasIndex(cs, p);
        var d :| d in cs && d.index == p;
        assert d in more;
      }
    }
  }

  /** `_load_candidate_rows`: one loaded candidate for each allowed lineage line, in line order; it raises
      exactly when an allowed line does not load or there is none. */
  method LoadCandidates(rows: seq<Row>, lineage: seq<Lineage>) returns (r: Result<seq<Candidate>, LoadError>)
    requires Keyed(rows)
    ensures r.Ok? <==>
              && (forall i :: 0 <= i < |lineage| && Drifted(lineage[i]) ==> Loads(rows, lineage[i]))
              && exists i :: 0 <= i < |lineage| && Drifted(lineage[i])
    ensures r.Ok? ==> r.value != [] && LoadedFrom(rows, lineage, |lineage|, r.value)
  {
    var candidates: seq<Candidate> := [];
    for i := 0 to |lineage|
      invariant forall p :: 0 <= p < i && Drifted(lineage[p]) ==> Loads(rows, lineage[p])
      invariant LoadedFrom(rows, lineage, i, candidates)
    {
      if Allowed(lineage[i]) {
        var c := LoadLine(rows, lineage, i);
        if c.Err? {
          return Err(c.error);
        }
        LoadedOneMore(rows, lineage, i, candidates, c.value);
        candidates := candidates + [c.value];
      }
    }
    if candidates == [] {
      assert forall p :: 0 <= p < |lineage| && Drifted(lineage[p]) ==> HasIndex(candidates, p);
      return Err(NoCandidates);
    }
    assert candidates[0] in candidates;
    r := Ok(candidates);
  }
}
