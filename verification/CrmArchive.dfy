/** scripts/backfill_crm_archive_period.py: filling blank period fields of the CRM sheet from the latest
    database rows and of the sales archive from the CRM sheet, then the database. Cells are stripped
    text; dates and times are ordinals. */
module CrmArchive {
  import opened Wrappers

  datatype Fields = Fields(status: string, issued: string, changed: string, planned: string, fee: string)

  const NOTHING := Fields("", "", "", "", "")

  datatype CrmRow = CrmRow(order: string, date: Option<nat>, fields: Fields, deliveryFee: string)

  datatype ArchiveRow = ArchiveRow(order: string, date: Option<nat>, fields: Fields, sendDate: string)

  datatype DbRow = DbRow(order: string, updated: Option<nat>, patch: Fields)

  /** What the two sheets are read with: the period, whether a non-blank fee is zero, how a number and a
      date are printed. */
  datatype Reading = Reading(from: nat, to: nat, zero: string -> bool, number: string -> string, day: nat -> string)

  predicate InRange(rd: Reading, date: Option<nat>) {
    date.Some? && rd.from <= date.value <= rd.to
  }

  predicate NoFee(rd: Reading, fee: string) {
    fee == "" || rd.zero(fee)
  }

  /** `_archive_row_missing_period_values` */
  predicate Incomplete(rd: Reading, f: Fields) {
    NoFee(rd, f.fee) || f.status == "" || f.issued == "" || f.changed == "" || f.planned == ""
  }

  // ---------------------------------------------------------------- the latest of several rows

  datatype Stamped<+T> = Stamped(order: string, rank: nat, value: T)

  /** Of the rows of one order the latest wins, and of equally late ones the last. */
  function Latest<T>(xs: seq<Stamped<T>>): map<string, Stamped<T>> {
    if xs == [] then map[]
    else
      var before, x := Latest(xs[..|xs| - 1]), xs[|xs| - 1];
      if x.order == "" || (x.order in before && x.rank < before[x.order].rank) then before
      else before[x.order := x]
  }

  ghost predicate IsLatest<T>(xs: seq<Stamped<T>>, i: nat) {
    && i < |xs| && xs[i].order != ""
    && (forall j :: 0 <= j < |xs| && xs[j].order == xs[i].order ==> xs[j].rank <= xs[i].rank)
    && (forall j :: i < j < |xs| && xs[j].order == xs[i].order ==> xs[j].rank < xs[i].rank)
  }

  lemma {:induction false} LatestFound<T>(xs: seq<Stamped<T>>, order: string) returns (i: nat)
    requires order in Latest(xs)
    ensures IsLatest(xs, i) && xs[i].order == order && Latest(xs)[order] == xs[i]
  {
    var init, x := xs[..|xs| - 1], xs[|xs| - 1];
    assert forall j :: 0 <= j < |init| ==> xs[j] == init[j];
    if x.order == "" || x.order != order {
      i := LatestFound(init, order);
    } else if order in Latest(init) {
      i := LatestFound(init, order);
      if x.rank >= init[i].rank {
        i := |init|;
      }
    } else {
      i := |init|;
      forall j | 0 <= j < |init| ensures xs[j].order != order {
        LatestCovers(init, j);
        assert xs[j] == init[j];
      }
    }
  }

  lemma {:induction false} LatestCovers<T>(xs: seq<Stamped<T>>, j: nat)
    requires j < |xs|
    ensures xs[j].order != "" ==> xs[j].order in Latest(xs)
  {
    if j < |xs| - 1 {
      LatestCovers(xs[..|xs| - 1], j);
    }
  }

  lemma LatestIsUnique<T>(xs: seq<Stamped<T>>, i: nat, k: nat)
    requires IsLatest(xs, i) && IsLatest(xs, k) && xs[i].order == xs[k].order
    ensures i == k
  {
  }

  /** The choice is exactly the row with the greatest time, the last one of those that share it. */
  lemma LatestMeaning<T>(xs: seq<Stamped<T>>, i: nat)
    requires i < |xs| && xs[i].order != ""
    ensures xs[i].order in Latest(xs)
    ensures IsLatest(xs, i) ==> Latest(xs)[xs[i].order] == xs[i]
  {
    LatestCovers(xs, i);
    if IsLatest(xs, i) {
      var k := LatestFound(xs, xs[i].order);
      LatestIsUnique(xs, i, k);
    }
  }

  /** `date.min` and `datetime.min` rank first; so does a missing date. */
  function Rank(date: Option<nat>): nat {
    if date.Some? then date.value else 0
  }

  function StampDb(rows: seq<DbRow>): (r: seq<Stamped<Fields>>)
    ensures |r| == |rows|
  {
    seq(|rows|, i requires 0 <= i < |rows| => Stamped(rows[i].order, Rank(rows[i].updated), rows[i].patch))
  }

  /** `load_db_patches` */
  method LoadDbPatches(rows: seq<DbRow>) returns (latest: map<string, Stamped<Fields>>)
    ensures latest == Latest(StampDb(rows))
  {
    latest := map[];
    for i := 0 to |rows|
      invariant latest == Latest(StampDb(rows)[..i])
    {
      latest := Collect(latest, StampDb(rows)[..i], Stamped(rows[i].order, Rank(rows[i].updated), rows[i].patch));
      assert StampDb(rows)[..i + 1] == StampDb(rows)[..i] + [StampDb(rows)[i]];
    }
    assert StampDb(rows)[..|rows|] == StampDb(rows);
  }

  function PatchFor(patches: map<string, Stamped<Fields>>, order: string): Option<Fields> {
    if order in patches then Some(patches[order].value) else None
  }

  // ---------------------------------------------------------------- the CRM sheet

  function Fill(current: string, offer: string): (r: string)
    ensures current != "" ==> r == current
  {
    if current == "" then offer else current
  }

  /** One row of the loop of `apply_crm_updates`. */
  function FillCrm(rd: Reading, targets: set<string>, patches: map<string, Stamped<Fields>>, row: CrmRow): CrmRow {
    if row.order == "" || row.order !in targets || !InRange(rd, row.date) then row
    else
      var p, f := PatchFor(patches, row.order), row.fields;
      var g := if p.None? then f
               else f.(status := Fill(f.status, p.value.status), issued := Fill(f.issued, p.value.issued),
                       changed := Fill(f.changed, p.value.changed), planned := Fill(f.planned, p.value.planned));
      var offer := if p.Some? && p.value.fee != "" then p.value.fee else rd.number(row.deliveryFee);
      row.(fields := if NoFee(rd, f.fee) && offer != "" then g.(fee := offer) else g)
  }

  function FillCrmAll(
    rd: Reading, targets: set<string>, patches: map<string, Stamped<Fields>>, rows: seq<CrmRow>): (r: seq<CrmRow>)
    ensures |r| == |rows|
  {
    seq(|rows|, i requires 0 <= i < |rows| => FillCrm(rd, targets, patches, rows[i]))
  }

  /** What a CRM row offers the archive. */
  function Offer(rd: Reading, row: CrmRow): Stamped<Fields> {
    Stamped(row.order, Rank(row.date), row.fields.(fee := rd.number(row.fields.fee)))
  }

  function StampCrm(rd: Reading, rows: seq<CrmRow>): (r: seq<Stamped<Fields>>)
    ensures |r| == |rows|
  {
    seq(|rows|, i requires 0 <= i < |rows| => Offer(rd, rows[i]))
  }

  /** The latest date the CRM sheet has for an order. */
  function SendDate(rows: seq<CrmRow>, order: string): Option<nat> {
    if rows == [] then None
    else
      var before, row := SendDate(rows[..|rows| - 1], order), rows[|rows| - 1];
      if row.order == "" || row.order != order || row.date.None? then before
      else if before.Some? && before.value > row.date.value then before
      else row.date
  }

  /** A list rewritten from the front, one element later. */
  lemma OneMoreWritten<T>(after: seq<T>, before: seq<T>, i: nat)
    requires |after| == |before| && i < |after|
    ensures var mixed := after[..i] + before[i..];
            && mixed[i] == before[i]
            && mixed[i := after[i]] == after[..i + 1] + before[i + 1..]
  {
  }

  class CrmSheet {
    var rows: seq<CrmRow>

    constructor (rows: seq<CrmRow>)
      ensures this.rows == rows
    {
      this.rows := rows;
    }

    /** `apply_crm_updates`: fills the sheet row by row and collects what the archive takes from it. */
    method ApplyUpdates(rd: Reading, targets: set<string>, patches: map<string, Stamped<Fields>>)
      returns (offers: map<string, Stamped<Fields>>)
      modifies this
      ensures rows == FillCrmAll(rd, targets, patches, old(rows))
      ensures offers == Latest(StampCrm(rd, rows))
    {
      offers := map[];
      ghost var was := rows;
      ghost var filled := FillCrmAll(rd, targets, patches, was);
      ghost var stamped := StampCrm(rd, filled);
      for i := 0 to |rows|
        invariant rows == filled[..i] + was[i..]
        invariant offers == Latest(stamped[..i])
      {
        OneMoreWritten(filled, was, i);
        var row := FillCrm(rd, targets, patches, rows[i]);
        rows := rows[i := row];
        assert stamped[..i + 1] == stamped[..i] + [stamped[i]];
        offers := Collect(offers, stamped[..i], Offer(rd, row));
      }
      assert filled[..|was|] + was[|was|..] == filled && stamped[..|was|] == stamped;
    }
  }

  /** One more row for `Latest`. */
  method Collect<T>(latest: map<string, Stamped<T>>, ghost seen: seq<Stamped<T>>, x: Stamped<T>)
    returns (r: map<string, Stamped<T>>)
    requires latest == Latest(seen)
    ensures r == Latest(seen + [x])
  {
    assert (seen + [x])[..|seen|] == seen;
    r := latest;
    if x.order != "" && (x.order !in latest || x.rank >= latest[x.order].rank) {
      r := latest[x.order := x];
    }
  }

  // ---------------------------------------------------------------- the archive

  /** `build_target_order_ids` */
  function Targets(rd: Reading, rows: seq<ArchiveRow>): set<string> {
    set i | 0 <= i < |rows| && InRange(rd, rows[i].date) && Incomplete(rd, rows[i].fields) && rows[i].order != ""
      :: rows[i].order
  }

  /** `_coalesce`: the CRM sheet goes before the database. */
  function Coalesce(a: string, b: string): string {
    if a != "" then a else b
  }

  /** What one archive row can be filled from. */
  datatype Sources = Sources(crm: Fields, db: Fields, sendCrm: Option<nat>, sendTruth: string)

  function OrNothing(f: Option<Fields>): Fields {
    if f.Some? then f.value else NOTHING
  }

  function SourcesFor(
    offers: map<string, Stamped<Fields>>, patches: map<string, Stamped<Fields>>, crm: seq<CrmRow>,
    truth: map<string, string>, order: string): Sources
  {
    Sources(OrNothing(PatchFor(offers, order)), OrNothing(PatchFor(patches, order)), SendDate(crm, order),
            if order in truth then truth[order] else "")
  }

  /** One row of the loop of `update_archive_rows`. */
  function FillArchive(rd: Reading, targets: set<string>, src: Sources, row: ArchiveRow): ArchiveRow {
    var f := row.fields;
    var g := if row.order !in targets || !InRange(rd, row.date) then f
             else
               var offer := Coalesce(rd.number(src.crm.fee), src.db.fee);
               Fields(Fill(f.status, Coalesce(src.crm.status, src.db.status)),
                      Fill(f.issued, Coalesce(src.crm.issued, src.db.issued)),
                      Fill(f.changed, Coalesce(src.crm.changed, src.db.changed)),
                      Fill(f.planned, Coalesce(src.crm.planned, src.db.planned)),
                      if NoFee(rd, f.fee) && offer != "" then offer else f.fee);
    var fromCrm := if src.sendCrm.Some? then rd.day(src.sendCrm.value) else "";
    row.(fields := g, sendDate := Fill(row.sendDate, Coalesce(fromCrm, src.sendTruth)))
  }

  ghost predicate KeepsFilled(rd: Reading, before: Fields, after: Fields) {
    && (before.status != "" ==> after.status == before.status)
    && (before.issued != "" ==> after.issued == before.issued)
    && (before.changed != "" ==> after.changed == before.changed)
    && (before.planned != "" ==> after.planned == before.planned)
    && (!NoFee(rd, before.fee) ==> after.fee == before.fee)
  }

  /** Everything the script works on. */
  datatype State = State(crm: seq<CrmRow>, archive: seq<ArchiveRow>)

  /** What does not change between runs: the database and the sales-truth file. */
  datatype Fixed = Fixed(rd: Reading, db: seq<DbRow>, truth: map<string, string>)

  function RunCrm(fx: Fixed, s: State): (r: seq<CrmRow>)
    ensures |r| == |s.crm|
  {
    FillCrmAll(fx.rd, Targets(fx.rd, s.archive), Latest(StampDb(fx.db)), s.crm)
  }

  function RunSources(fx: Fixed, crm: seq<CrmRow>, order: string): Sources {
    SourcesFor(Latest(StampCrm(fx.rd, crm)), Latest(StampDb(fx.db)), crm, fx.truth, order)
  }

  function RunRow(fx: Fixed, s: State, row: ArchiveRow): ArchiveRow {
    FillArchive(fx.rd, Targets(fx.rd, s.archive), RunSources(fx, RunCrm(fx, s), row.order), row)
  }

  function RunArchive(fx: Fixed, s: State): (r: seq<ArchiveRow>)
    ensures |r| == |s.archive|
    ensures forall i :: 0 <= i < |r| ==> r[i] == RunRow(fx, s, s.archive[i])
  {
    seq(|s.archive|, i requires 0 <= i < |s.archive| => RunRow(fx, s, s.archive[i]))
  }

  function Run(fx: Fixed, s: State): State {
    State(RunCrm(fx, s), RunArchive(fx, s))
  }

  /** A run only fills: what a cell held stays, and so do the columns beside the filled ones. */
  lemma RunFillsOnly(fx: Fixed, s: State)
    ensures forall i :: 0 <= i < |s.archive| ==>
              var row := RunArchive(fx, s)[i];
              && row.order == s.archive[i].order && row.date == s.archive[i].date
              && KeepsFilled(fx.rd, s.archive[i].fields, row.fields)
              && (s.archive[i].sendDate != "" ==> row.sendDate == s.archive[i].sendDate)
    ensures forall i :: 0 <= i < |s.crm| ==>
              var row := RunCrm(fx, s)[i];
              row == s.crm[i].(fields := row.fields) && KeepsFilled(fx.rd, s.crm[i].fields, row.fields)
  {
  }

  /** `run`: the two sheets, and the orders of the period still incomplete. */
  method Backfill(fx: Fixed, sheet: CrmSheet, archive: seq<ArchiveRow>)
    returns (updated: seq<ArchiveRow>, unresolved: set<string>)
    modifies sheet
    ensures State(sheet.rows, updated) == Run(fx, State(old(sheet.rows), archive))
    ensures unresolved == Targets(fx.rd, updated) && unresolved <= Targets(fx.rd, archive)
    ensures forall order :: order in unresolved <==> OpenOrder(fx, State(old(sheet.rows), archive), order)
    ensures |sheet.rows| == |old(sheet.rows)| && |updated| == |archive|
    ensures forall i :: 0 <= i < |archive| ==>
              && updated[i].order == archive[i].order && updated[i].date == archive[i].date
              && KeepsFilled(fx.rd, archive[i].fields, updated[i].fields)
              && (archive[i].sendDate != "" ==> updated[i].sendDate == archive[i].sendDate)
    ensures forall i :: 0 <= i < |sheet.rows| ==>
              && sheet.rows[i] == old(sheet.rows)[i].(fields := sheet.rows[i].fields)
              && KeepsFilled(fx.rd, old(sheet.rows)[i].fields, sheet.rows[i].fields)
  {
    ghost var s := State(sheet.rows, archive);
    var targets := Targets(fx.rd, archive);
    var patches := LoadDbPatches(fx.db);
    var offers := sheet.ApplyUpdates(fx.rd, targets, patches);
    updated := [];
    for i := 0 to |archive|
      invariant updated == RunArchive(fx, s)[..i]
    {
      var row := archive[i];
      var src := SourcesFor(offers, patches, sheet.rows, fx.truth, row.order);
      updated := updated + [FillArchive(fx.rd, targets, src, row)];
    }
    unresolved := Targets(fx.rd, updated);
    RunFillsOnly(fx, s);
    UnresolvedWereTargets(fx, s);
    UnresolvedAreOpen(fx, s);
  }

  /** Filling never blanks a cell: an order still open after the run was open before. */
  lemma UnresolvedWereTargets(fx: Fixed, s: State)
    ensures Targets(fx.rd, Run(fx, s).archive) <= Targets(fx.rd, s.archive)
  {
    var after := RunArchive(fx, s);
    forall order | order in Targets(fx.rd, after) ensures order in Targets(fx.rd, s.archive) {
      var i :| 0 <= i < |after| && InRange(fx.rd, after[i].date) && Incomplete(fx.rd, after[i].fields)
               && after[i].order != "" && after[i].order == order;
      assert after[i] == RunRow(fx, s, s.archive[i]);
    }
  }

  /** A cell is blank and neither source offers anything for it. */
  predicate NoOffer(cell: string, crm: string, db: string) {
    cell == "" && crm == "" && db == ""
  }

  /** Some field of the row stays open: a blank one without an offer, or no fee and none but a zero fee on offer. */
  predicate StaysOpen(rd: Reading, src: Sources, f: Fields) {
    || NoOffer(f.status, src.crm.status, src.db.status)
    || NoOffer(f.issued, src.crm.issued, src.db.issued)
    || NoOffer(f.changed, src.crm.changed, src.db.changed)
    || NoOffer(f.planned, src.crm.planned, src.db.planned)
    || (NoFee(rd, f.fee) && NoFee(rd, Coalesce(rd.number(src.crm.fee), src.db.fee)))
  }

  lemma FilledStaysOpen(rd: Reading, targets: set<string>, src: Sources, row: ArchiveRow)
    requires row.order in targets && InRange(rd, row.date)
    ensures Incomplete(rd, FillArchive(rd, targets, src, row).fields) <==> StaysOpen(rd, src, row.fields)
  {
  }

  ghost predicate OpenRow(fx: Fixed, s: State, order: string, i: nat) {
    && i < |s.archive| && s.archive[i].order == order && InRange(fx.rd, s.archive[i].date)
    && StaysOpen(fx.rd, RunSources(fx, RunCrm(fx, s), order), s.archive[i].fields)
  }

  /** Some row of the order in the period stays open. */
  ghost predicate OpenOrder(fx: Fixed, s: State, order: string) {
    order != "" && exists i: nat :: OpenRow(fx, s, order, i)
  }

  lemma UnresolvedAreOpen(fx: Fixed, s: State)
    ensures forall order :: order in Targets(fx.rd, Run(fx, s).archive) <==> OpenOrder(fx, s, order)
  {
    forall order ensures order in Targets(fx.rd, Run(fx, s).archive) <==> OpenOrder(fx, s, order) {
      UnresolvedIff(fx, s, order);
    }
  }

  lemma RowAfterIsOpen(fx: Fixed, s: State, i: nat)
    requires i < |s.archive| && s.archive[i].order != ""
    ensures var after := RunArchive(fx, s)[i];
            && after.order == s.archive[i].order && after.date == s.archive[i].date
            && (InRange(fx.rd, after.date) && Incomplete(fx.rd, after.fields) <==> OpenRow(fx, s, after.order, i))
  {
    var row, after := s.archive[i], RunArchive(fx, s)[i];
    var targets := Targets(fx.rd, s.archive);
    assert after == RunRow(fx, s, row);
    if row.order in targets && InRange(fx.rd, row.date) {
      FilledStaysOpen(fx.rd, targets, RunSources(fx, RunCrm(fx, s), row.order), row);
    }
  }

  /** An order stays unresolved if and only if some row of it in the period keeps a field for which neither the
      CRM sheet nor the database has anything. */
  lemma UnresolvedIff(fx: Fixed, s: State, order: string)
    ensures order in Targets(fx.rd, Run(fx, s).archive) <==> OpenOrder(fx, s, order)
  {
    var after := RunArchive(fx, s);
    if order in Targets(fx.rd, after) {
      var i: nat :| i < |after| && InRange(fx.rd, after[i].date) && Incomplete(fx.rd, after[i].fields)
                    && after[i].order != "" && after[i].order == order;
      assert after[i] == RunRow(fx, s, s.archive[i]);
      RowAfterIsOpen(fx, s, i);
    }
    if i: nat :| order != "" && OpenRow(fx, s, order, i) {
      RowAfterIsOpen(fx, s, i);
      assert after[i].order in Targets(fx.rd, after);
    }
  }

  // ---------------------------------------------------------------- running it again

  lemma CrmRowSettles(rd: Reading, t1: set<string>, t2: set<string>, patches: map<string, Stamped<Fields>>, row: CrmRow)
    requires t2 <= t1
    ensures FillCrm(rd, t2, patches, FillCrm(rd, t1, patches, row)) == FillCrm(rd, t1, patches, row)
  {
  }

  lemma ArchiveRowSettles(rd: Reading, t1: set<string>, t2: set<string>, src: Sources, row: ArchiveRow)
    requires t2 <= t1
    ensures FillArchive(rd, t2, src, FillArchive(rd, t1, src, row)) == FillArchive(rd, t1, src, row)
  {
  }

  /** A second run with the same inputs changes no value, though its targets are fewer and every lookup
      is made on the sheets the first run left. */
  lemma SecondRunChangesNothing(fx: Fixed, s: State)
    ensures Run(fx, Run(fx, s)) == Run(fx, s)
  {
    var once := Run(fx, s);
    var t1, t2 := Targets(fx.rd, s.archive), Targets(fx.rd, once.archive);
    UnresolvedWereTargets(fx, s);
    var twice := RunCrm(fx, once);
    forall i | 0 <= i < |s.crm| ensures twice[i] == once.crm[i] {
      CrmRowSettles(fx.rd, t1, t2, Latest(StampDb(fx.db)), s.crm[i]);
    }
    assert twice == once.crm;
    var archive := RunArchive(fx, once);
    forall i | 0 <= i < |s.archive| ensures archive[i] == once.archive[i] {
      ArchiveRowSettles(fx.rd, t1, t2, RunSources(fx, once.crm, s.archive[i].order), s.archive[i]);
    }
    assert archive == once.archive;
  }

  // ---------------------------------------------------------------- what a run leaves in one row

  /** A missing date counts as the earliest there is. */
  ghost predicate NotLater(a: Option<nat>, b: Option<nat>) {
    a == None || a.value == 0 || (b.Some? && a.value <= b.value)
  }

  /** Row `j` speaks for the order: no other row of it is later, and of equally late ones it is the lowest.
      Outside the sheet it says that no row has the order. */
  ghost predicate CrmSpeaks(rows: seq<CrmRow>, order: string, j: nat) {
    if j < |rows| then
      && rows[j].order == order
      && (forall k :: 0 <= k < |rows| && rows[k].order == order ==> NotLater(rows[k].date, rows[j].date))
      && forall k :: j < k < |rows| && rows[k].order == order ==> !NotLater(rows[j].date, rows[k].date)
    else forall k :: 0 <= k < |rows| ==> rows[k].order != order
  }

  ghost predicate DbSpeaks(rows: seq<DbRow>, order: string, j: nat) {
    if j < |rows| then
      && rows[j].order == order
      && (forall k :: 0 <= k < |rows| && rows[k].order == order ==> NotLater(rows[k].updated, rows[j].updated))
      && forall k :: j < k < |rows| && rows[k].order == order ==> !NotLater(rows[j].updated, rows[k].updated)
    else forall k :: 0 <= k < |rows| ==> rows[k].order != order
  }

  lemma Absent<T>(xs: seq<Stamped<T>>, order: string)
    requires forall k :: 0 <= k < |xs| ==> xs[k].order != order
    ensures order !in Latest(xs)
  {
    if order in Latest(xs) {
      var i := LatestFound(xs, order);
    }
  }

  lemma CrmOffer(rd: Reading, rows: seq<CrmRow>, order: string, j: nat)
    requires order != "" && CrmSpeaks(rows, order, j)
    ensures PatchFor(Latest(StampCrm(rd, rows)), order)
            == if j < |rows| then Some(rows[j].fields.(fee := rd.number(rows[j].fields.fee))) else None
  {
    var xs := StampCrm(rd, rows);
    if j < |rows| {
      assert IsLatest(xs, j);
      LatestMeaning(xs, j);
    } else {
      Absent(xs, order);
    }
  }

  lemma DbPatch(rows: seq<DbRow>, order: string, j: nat)
    requires order != "" && DbSpeaks(rows, order, j)
    ensures PatchFor(Latest(StampDb(rows)), order) == if j < |rows| then Some(rows[j].patch) else None
  {
    var xs := StampDb(rows);
    if j < |rows| {
      assert IsLatest(xs, j);
      LatestMeaning(xs, j);
    } else {
      Absent(xs, order);
    }
  }

  ghost predicate Within(rd: Reading, date: Option<nat>) {
    match date
    case Some(d) => rd.from <= d && d <= rd.to
    case None => false
  }

  ghost predicate NoRealFee(rd: Reading, fee: string) {
    fee != "" ==> rd.zero(fee)
  }

  /** Some archive row of the order in the period lacks one of the five cells. */
  ghost predicate Wanted(rd: Reading, archive: seq<ArchiveRow>, order: string) {
    && order != ""
    && exists row :: row in archive && row.order == order && Within(rd, row.date)
                     && (NoRealFee(rd, row.fields.fee)
                         || "" in [row.fields.status, row.fields.issued, row.fields.changed, row.fields.planned])
  }

  lemma TargetsAreWanted(rd: Reading, archive: seq<ArchiveRow>, order: string)
    ensures order in Targets(rd, archive) <==> Wanted(rd, archive, order)
  {
    if Wanted(rd, archive, order) {
      var row :| row in archive && row.order == order && Within(rd, row.date)
                 && (NoRealFee(rd, row.fields.fee)
                     || "" in [row.fields.status, row.fields.issued, row.fields.changed, row.fields.planned]);
      var i :| 0 <= i < |archive| && archive[i] == row;
      assert InRange(rd, archive[i].date) && Incomplete(rd, archive[i].fields);
    }
    if order in Targets(rd, archive) {
      var i :| 0 <= i < |archive| && InRange(rd, archive[i].date) && Incomplete(rd, archive[i].fields)
               && archive[i].order != "" && archive[i].order == order;
      var f := archive[i].fields;
      assert NoFee(rd, f.fee) || "" in [f.status, f.issued, f.changed, f.planned];
      assert archive[i] in archive;
    }
  }

  /** A cell prefers what it held, then `second`, then `third`; a fee of zero counts as none. */
  ghost predicate Prefers(rd: Reading, was: Fields, second: Fields, third: Fields, now: Fields) {
    && now.status == FirstGiven([was.status, second.status, third.status])
    && now.issued == FirstGiven([was.issued, second.issued, third.issued])
    && now.changed == FirstGiven([was.changed, second.changed, third.changed])
    && now.planned == FirstGiven([was.planned, second.planned, third.planned])
    && now.fee == if NoRealFee(rd, was.fee) then FirstGiven([second.fee, third.fee, was.fee]) else was.fee
  }

  lemma Preferred(rd: Reading, was: Fields, second: Fields, third: Fields)
    ensures Prefers(rd, was, second, third,
                    Fields(Fill(was.status, Coalesce(second.status, third.status)),
                           Fill(was.issued, Coalesce(second.issued, third.issued)),
                           Fill(was.changed, Coalesce(second.changed, third.changed)),
                           Fill(was.planned, Coalesce(second.planned, third.planned)),
                           if NoFee(rd, was.fee) && Coalesce(second.fee, third.fee) != ""
                           then Coalesce(second.fee, third.fee) else was.fee))
  {
    FirstOfThree(was.status, second.status, third.status);
    FirstOfThree(was.issued, second.issued, third.issued);
    FirstOfThree(was.changed, second.changed, third.changed);
    FirstOfThree(was.planned, second.planned, third.planned);
    FirstOfThree(second.fee, third.fee, was.fee);
  }

  /** What the CRM sheet says to the archive: the row that speaks, its fee printed as a number twice. */
  ghost function CrmSays(rd: Reading, rows: seq<CrmRow>, j: nat): Fields {
    if j < |rows| then rows[j].fields.(fee := rd.number(rd.number(rows[j].fields.fee)))
    else Fields("", "", "", "", rd.number(""))
  }

  ghost function DbSays(rows: seq<DbRow>, j: nat): Fields {
    if j < |rows| then rows[j].patch else Fields("", "", "", "", "")
  }

  /** An archive row after a run: of an order that is wanted, in the period, each cell prefers what it held,
      then the latest CRM row, then the latest database row. */
  lemma ArchiveRowAfter(fx: Fixed, s: State, i: nat, j: nat, d: nat)
    requires i < |s.archive| && s.archive[i].order != ""
    requires CrmSpeaks(RunCrm(fx, s), s.archive[i].order, j) && DbSpeaks(fx.db, s.archive[i].order, d)
    ensures var row, now := s.archive[i], RunArchive(fx, s)[i];
            if Wanted(fx.rd, s.archive, row.order) && Within(fx.rd, row.date)
            then Prefers(fx.rd, row.fields, CrmSays(fx.rd, RunCrm(fx, s), j), DbSays(fx.db, d), now.fields)
            else now.fields == row.fields
  {
    var row := s.archive[i];
    TargetsAreWanted(fx.rd, s.archive, row.order);
    CrmOffer(fx.rd, RunCrm(fx, s), row.order, j);
    DbPatch(fx.db, row.order, d);
    Preferred(fx.rd, row.fields, CrmSays(fx.rd, RunCrm(fx, s), j), DbSays(fx.db, d));
  }

  /** A CRM row after a run: of an order that is wanted, in the period, each cell prefers what it held, then
      the latest database row; the fee comes from the database, else from the row's own delivery fee. */
  lemma CrmRowAfter(fx: Fixed, s: State, i: nat, d: nat)
    requires i < |s.crm| && DbSpeaks(fx.db, s.crm[i].order, d)
    ensures var row, now := s.crm[i], RunCrm(fx, s)[i];
            && now.order == row.order && now.date == row.date && now.deliveryFee == row.deliveryFee
            && if Wanted(fx.rd, s.archive, row.order) && Within(fx.rd, row.date)
               then Prefers(fx.rd, row.fields, DbSays(fx.db, d),
                            Fields("", "", "", "", fx.rd.number(row.deliveryFee)), now.fields)
               else now.fields == row.fields
  {
    var row := s.crm[i];
    TargetsAreWanted(fx.rd, s.archive, row.order);
    if row.order != "" {
      DbPatch(fx.db, row.order, d);
    }
    Preferred(fx.rd, row.fields, DbSays(fx.db, d), Fields("", "", "", "", fx.rd.number(row.deliveryFee)));
  }

  /** `date` is the latest the sheet has for the order. */
  ghost predicate LatestDate(rows: seq<CrmRow>, order: string, date: Option<nat>) {
    && (date.Some? ==> exists k :: 0 <= k < |rows| && rows[k].order == order && rows[k].date == date)
    && forall k :: 0 <= k < |rows| && rows[k].order == order && rows[k].date.Some? ==>
         date.Some? && rows[k].date.value <= date.value
  }

  lemma {:induction false} SendDateIsLatest(rows: seq<CrmRow>, order: string)
    requires order != ""
    ensures LatestDate(rows, order, SendDate(rows, order))
  {
    if rows != [] {
      var init := rows[..|rows| - 1];
      SendDateIsLatest(init, order);
      assert forall k :: 0 <= k < |init| ==> init[k] == rows[k];
      var before := SendDate(init, order);
      if before.Some? {
        var k :| 0 <= k < |init| && init[k].order == order && init[k].date == before;
        assert rows[k].date == before;
      }
    }
  }

  /** The send date of an archive row after a run: its own, else the latest CRM date of the order, else the
      sales-truth file's. */
  lemma SendDateAfter(fx: Fixed, s: State, i: nat, date: Option<nat>)
    requires i < |s.archive| && s.archive[i].order != "" && LatestDate(s.crm, s.archive[i].order, date)
    ensures var order := s.archive[i].order;
            RunArchive(fx, s)[i].sendDate
            == FirstGiven([s.archive[i].sendDate, if date.Some? then fx.rd.day(date.value) else "",
                           if order in fx.truth then fx.truth[order] else ""])
  {
    var order, crm := s.archive[i].order, RunCrm(fx, s);
    RunFillsOnly(fx, s);
    SendDateIsLatest(crm, order);
    SameDates(s.crm, crm, order, date);
    OneLatestDate(crm, order, date, SendDate(crm, order));
    FirstOfThree(s.archive[i].sendDate, if date.Some? then fx.rd.day(date.value) else "",
                 if order in fx.truth then fx.truth[order] else "");
  }

  lemma SameDates(rows: seq<CrmRow>, now: seq<CrmRow>, order: string, date: Option<nat>)
    requires |rows| == |now| && LatestDate(rows, order, date)
    requires forall k :: 0 <= k < |rows| ==> now[k].order == rows[k].order && now[k].date == rows[k].date
    ensures LatestDate(now, order, date)
  {
    if date.Some? {
      var k :| 0 <= k < |rows| && rows[k].order == order && rows[k].date == date;
      assert now[k].order == order;
    }
  }

  lemma OneLatestDate(rows: seq<CrmRow>, order: string, a: Option<nat>, b: Option<nat>)
    requires LatestDate(rows, order, a) && LatestDate(rows, order, b)
    ensures a == b
  {
  }
}
