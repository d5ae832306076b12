/** scripts/activate_board_split_v1.py: appending the five split-v1 header columns to the two board
    tabs, exactly once and only to the exact legacy headers. Header cells are stripped text. */
module BoardSplit {
  import opened ColumnLetters
  import opened Wrappers

  /** Row 1 of every tab. */
  type Headers = map<string, seq<string>>

  datatype TabColumns = TabColumns(tab: string, columns: seq<string>)

  const REQUIRED: seq<TabColumns> := [
    TabColumns("SalesRaw_Today", ["AUTO_SIZE_SUGGESTION"]),
    TabColumns("Run_Control", ["employee_ready_observed_at", "auto_ready_for_closeout",
                               "auto_ready_set_by", "auto_ready_set_at"])]

  type ColumnName = s: string | s != "" && AllLetters(s) witness "A"

  datatype Update = Update(tab: string, column: ColumnName, value: string)

  function RowOf(h: Headers, tab: string): seq<string> {
    if tab in h then h[tab] else []
  }

  /** `_normalize_header_row`: trailing blank cells do not count. */
  function Normalize(row: seq<string>): seq<string> {
    if row != [] && row[|row| - 1] == "" then Normalize(row[..|row| - 1]) else row
  }

  /** `contract_for_ownership_mode(contract, legacy_v3)` for one tab. */
  function Legacy(full: seq<string>, columns: seq<string>): seq<string> {
    if full == [] then []
    else
      var init, last := Legacy(full[..|full| - 1], columns), full[|full| - 1];
      if last in columns then init else init + [last]
  }

  /** The legacy headers are the contract's without the split-v1 columns, in the contract's order. */
  lemma {:induction false} LegacyMeaning(full: seq<string>, columns: seq<string>)
    ensures forall text :: text in Legacy(full, columns) <==> text in full && text !in columns
    ensures (forall text :: text in full ==> text !in columns) ==> Legacy(full, columns) == full
  {
    if full != [] {
      LegacyMeaning(full[..|full| - 1], columns);
      assert full == full[..|full| - 1] + [full[|full| - 1]];
    }
  }

  lemma {:induction false} LegacyOfBoth(a: seq<string>, b: seq<string>, columns: seq<string>)
    ensures Legacy(a + b, columns) == Legacy(a, columns) + Legacy(b, columns)
  {
    if b == [] {
      assert a + b == a;
    } else {
      LegacyOfBoth(a, b[..|b| - 1], columns);
      assert (a + b)[..|a + b| - 1] == a + b[..|b| - 1];
    }
  }

  ghost predicate SameCells(a: seq<string>, b: seq<string>) {
    forall j: nat :: Cell(a, j) == Cell(b, j)
  }

  lemma {:induction false} NormalizeKeepsCells(row: seq<string>)
    ensures SameCells(row, Normalize(row))
  {
    if row != [] && row[|row| - 1] == "" {
      NormalizeKeepsCells(row[..|row| - 1]);
      assert forall j: nat :: Cell(row, j) == Cell(row[..|row| - 1], j);
    }
  }

  lemma {:induction false} NormalizeEndsNonBlank(row: seq<string>)
    ensures Normalize(row) == [] || Normalize(row)[|Normalize(row)| - 1] != ""
  {
    if row != [] && row[|row| - 1] == "" {
      NormalizeEndsNonBlank(row[..|row| - 1]);
    }
  }

  lemma SameCellsSameHeader(a: seq<string>, b: seq<string>)
    requires SameCells(a, b)
    ensures Normalize(a) == Normalize(b)
  {
    var x, y := Normalize(a), Normalize(b);
    NormalizeKeepsCells(a);
    NormalizeKeepsCells(b);
    NormalizeEndsNonBlank(a);
    NormalizeEndsNonBlank(b);
    assert SameCells(x, y) by {
      forall j: nat ensures Cell(x, j) == Cell(y, j) {
        assert Cell(x, j) == Cell(a, j) == Cell(b, j);
      }
    }
    assert x != [] ==> Cell(x, |x| - 1) == Cell(y, |x| - 1);
    assert y != [] ==> Cell(x, |y| - 1) == Cell(y, |y| - 1);
    assert |x| == |y|;
    forall j | 0 <= j < |x| ensures x[j] == y[j] {
      assert Cell(x, j) == Cell(y, j);
    }
  }

  // ---------------------------------------------------------------- the plan and its effect

  function TabUpdates(tab: string, from: nat, columns: seq<string>): seq<Update> {
    if columns == [] then []
    else
      TabUpdates(tab, from, columns[..|columns| - 1])
      + [At(tab, from + |columns|, columns[|columns| - 1])]
  }

  function At(tab: string, n: nat, value: string): (u: Update)
    requires n > 0
    ensures u.tab == tab && Decode(u.column) == n && u.value == value
  {
    DecodeLetters(n);
    Update(tab, Letters(n), value)
  }

  function Plan(h: Headers, required: seq<TabColumns>): seq<Update> {
    if required == [] then []
    else
      var last := required[|required| - 1];
      Plan(h, required[..|required| - 1]) + TabUpdates(last.tab, |Normalize(RowOf(h, last.tab))|, last.columns)
  }

  /** Every tab shows exactly its legacy headers. */
  predicate AllLegacy(contract: Headers, h: Headers, required: seq<TabColumns>) {
    required == []
    || (var last := required[|required| - 1];
        && AllLegacy(contract, h, required[..|required| - 1])
        && Normalize(RowOf(h, last.tab)) == Legacy(RowOf(contract, last.tab), last.columns))
  }

  /** One cell of a `values:batchUpdate`, addressed by its letters. */
  function Write(h: Headers, u: Update): Headers {
    h[u.tab := SetCell(RowOf(h, u.tab), Decode(u.column) - 1, u.value)]
  }

  function WriteAll(h: Headers, us: seq<Update>): Headers {
    if us == [] then h else Write(WriteAll(h, us[..|us| - 1]), us[|us| - 1])
  }

  lemma {:induction false} WriteBoth(h: Headers, us: seq<Update>, vs: seq<Update>)
    ensures WriteAll(h, us + vs) == WriteAll(WriteAll(h, us), vs)
  {
    if vs == [] {
      assert us + vs == us;
    } else {
      assert (us + vs)[..|us + vs| - 1] == us + vs[..|vs| - 1];
      WriteBoth(h, us, vs[..|vs| - 1]);
    }
  }

  /** The updates of one tab put its columns right behind what the row shows. */
  lemma {:induction false} TabWritten(h: Headers, tab: string, legacy: seq<string>, columns: seq<string>)
    requires SameCells(RowOf(h, tab), legacy)
    ensures SameCells(RowOf(WriteAll(h, TabUpdates(tab, |legacy|, columns)), tab), legacy + columns)
  {
    if columns == [] {
      assert legacy + columns == legacy;
    } else {
      var init, n := columns[..|columns| - 1], |legacy| + |columns|;
      TabWritten(h, tab, legacy, init);
      LastWritten(h, tab, |legacy|, columns);
      NextCell(RowOf(WriteAll(h, TabUpdates(tab, |legacy|, init)), tab), legacy, columns);
    }
  }

  lemma WriteOne(h: Headers, us: seq<Update>, u: Update)
    ensures WriteAll(h, us + [u]) == Write(WriteAll(h, us), u)
  {
    assert (us + [u])[..|us|] == us;
  }

  lemma LastWritten(h: Headers, tab: string, from: nat, columns: seq<string>)
    requires columns != []
    ensures var before := WriteAll(h, TabUpdates(tab, from, columns[..|columns| - 1]));
            WriteAll(h, TabUpdates(tab, from, columns))
            == before[tab := SetCell(RowOf(before, tab), from + |columns| - 1, columns[|columns| - 1])]
  {
    WriteOne(h, TabUpdates(tab, from, columns[..|columns| - 1]), At(tab, from + |columns|, columns[|columns| - 1]));
  }

  lemma NextCell(row: seq<string>, legacy: seq<string>, columns: seq<string>)
    requires columns != [] && SameCells(row, legacy + columns[..|columns| - 1])
    ensures SameCells(SetCell(row, |legacy| + |columns| - 1, columns[|columns| - 1]), legacy + columns)
  {
    var init, n := columns[..|columns| - 1], |legacy| + |columns|;
    forall j: nat ensures Cell(SetCell(row, n - 1, columns[|columns| - 1]), j) == Cell(legacy + columns, j) {
      assert Cell(row, j) == Cell(legacy + init, j);
    }
  }

  lemma {:induction false} OtherTabKept(h: Headers, tab: string, from: nat, columns: seq<string>, other: string)
    requires other != tab
    ensures RowOf(WriteAll(h, TabUpdates(tab, from, columns)), other) == RowOf(h, other)
  {
    if columns != [] {
      OtherTabKept(h, tab, from, columns[..|columns| - 1], other);
      LastWritten(h, tab, from, columns);
    }
  }

  /** No tab twice, and every tab gets a column; the columns have names. */
  ghost predicate Proper(required: seq<TabColumns>) {
    required == []
    || (var init, last := required[..|required| - 1], required[|required| - 1];
        Proper(init) && !Names(init, last.tab) && last.columns != [] && "" !in last.columns)
  }

  lemma {:induction false} ProperAt(required: seq<TabColumns>, i: nat)
    requires i < |required| && Proper(required)
    ensures required[i].columns != [] && "" !in required[i].columns
    decreases |required|
  {
    if i < |required| - 1 {
      ProperAt(required[..|required| - 1], i);
    }
  }

  lemma RequiredIsProper()
    ensures Proper(REQUIRED) && CellCount(REQUIRED) == 5
  {
    var s, r := REQUIRED[0], REQUIRED[1];
    assert s.tab[0] != r.tab[0];
    assert forall i :: 0 <= i < |r.columns| ==> r.columns[i] != "";
    assert forall i :: 0 <= i < |s.columns| ==> s.columns[i] != "";
    assert REQUIRED[..1] == [s] && [s][..0] == [];
    assert CellCount([]) == 0 && CellCount([s]) == 1;
    assert Proper([]) && Proper([s]);
    assert !Names([s], r.tab);
  }

  predicate Names(required: seq<TabColumns>, tab: string) {
    exists i :: 0 <= i < |required| && required[i].tab == tab
  }

  ghost predicate Appended(contract: Headers, after: Headers, t: TabColumns) {
    SameCells(RowOf(after, t.tab), Legacy(RowOf(contract, t.tab), t.columns) + t.columns)
  }

  lemma PlanStep(h: Headers, required: seq<TabColumns>)
    requires required != []
    ensures var last := required[|required| - 1];
            WriteAll(h, Plan(h, required))
            == WriteAll(WriteAll(h, Plan(h, required[..|required| - 1])),
                        TabUpdates(last.tab, |Normalize(RowOf(h, last.tab))|, last.columns))
  {
    var last := required[|required| - 1];
    WriteBoth(h, Plan(h, required[..|required| - 1]),
              TabUpdates(last.tab, |Normalize(RowOf(h, last.tab))|, last.columns));
  }

  /** The plan touches no tab but the required ones. */
  lemma {:induction false} PlanKeepsOthers(h: Headers, required: seq<TabColumns>, tab: string)
    requires !Names(required, tab)
    ensures RowOf(WriteAll(h, Plan(h, required)), tab) == RowOf(h, tab)
  {
    if required != [] {
      var init, last := required[..|required| - 1], required[|required| - 1];
      assert forall i :: 0 <= i < |required| ==> required[i].tab != tab;
      assert forall i :: 0 <= i < |init| ==> init[i] == required[i];
      PlanKeepsOthers(h, init, tab);
      PlanStep(h, required);
      OtherTabKept(WriteAll(h, Plan(h, init)), last.tab, |Normalize(RowOf(h, last.tab))|, last.columns, tab);
    }
  }

  /** On the exact legacy headers the plan yields the legacy row followed by the required columns in
      order. */
  lemma {:induction false} PlanWritten(contract: Headers, h: Headers, required: seq<TabColumns>, i: nat)
    requires i < |required| && AllLegacy(contract, h, required) && Proper(required)
    ensures Appended(contract, WriteAll(h, Plan(h, required)), required[i])
    decreases |required|
  {
    if i < |required| - 1 {
      PlanWritten(contract, h, required[..|required| - 1], i);
      StepKeepsTab(contract, h, required, i);
    } else {
      LastTabWritten(contract, h, required);
    }
  }

  lemma StepKeepsTab(contract: Headers, h: Headers, required: seq<TabColumns>, i: nat)
    requires i < |required| - 1 && Proper(required)
    requires Appended(contract, WriteAll(h, Plan(h, required[..|required| - 1])), required[..|required| - 1][i])
    ensures Appended(contract, WriteAll(h, Plan(h, required)), required[i])
  {
    var init, last, t := required[..|required| - 1], required[|required| - 1], required[i];
    assert init[i] == t;
    var before, after := WriteAll(h, Plan(h, init)), WriteAll(h, Plan(h, required));
    PlanStep(h, required);
    OtherTabKept(before, last.tab, |Normalize(RowOf(h, last.tab))|, last.columns, t.tab);
    assert RowOf(after, t.tab) == RowOf(before, t.tab);
  }

  lemma LastTabWritten(contract: Headers, h: Headers, required: seq<TabColumns>)
    requires required != [] && AllLegacy(contract, h, required) && Proper(required)
    ensures Appended(contract, WriteAll(h, Plan(h, required)), required[|required| - 1])
  {
    var init, last := required[..|required| - 1], required[|required| - 1];
    PlanStep(h, required);
    PlanKeepsOthers(h, init, last.tab);
    NormalizeKeepsCells(RowOf(h, last.tab));
    TabWritten(WriteAll(h, Plan(h, init)), last.tab, Normalize(RowOf(h, last.tab)), last.columns);
  }

  function CellCount(required: seq<TabColumns>): nat {
    if required == [] then 0
    else CellCount(required[..|required| - 1]) + |required[|required| - 1].columns|
  }

  lemma {:induction false} TabUpdatesCount(tab: string, from: nat, columns: seq<string>)
    ensures |TabUpdates(tab, from, columns)| == |columns|
  {
    if columns != [] {
      TabUpdatesCount(tab, from, columns[..|columns| - 1]);
    }
  }

  /** One cell per required column. */
  lemma {:induction false} PlanCount(h: Headers, required: seq<TabColumns>)
    ensures |Plan(h, required)| == CellCount(required)
  {
    if required != [] {
      var last := required[|required| - 1];
      PlanCount(h, required[..|required| - 1]);
      TabUpdatesCount(last.tab, |Normalize(RowOf(h, last.tab))|, last.columns);
    }
  }

  lemma PlanOneMore(contract: Headers, h: Headers, required: seq<TabColumns>, i: nat)
    requires i < |required|
    ensures var t, observed := required[i], Normalize(RowOf(h, required[i].tab));
            && Plan(h, required[..i + 1]) == Plan(h, required[..i]) + TabUpdates(t.tab, |observed|, t.columns)
            && (observed == Legacy(RowOf(contract, t.tab), t.columns) && AllLegacy(contract, h, required[..i])
                ==> AllLegacy(contract, h, required[..i + 1]))
  {
    assert required[..i + 1][..i] == required[..i];
  }

  /** `_plan_header_updates` */
  method PlanHeaderUpdates(contract: Headers, h: Headers, required: seq<TabColumns>) returns (r: Option<seq<Update>>)
    ensures r.Some? <==> AllLegacy(contract, h, required)
    ensures r.Some? ==> r.value == Plan(h, required)
  {
    var updates := [];
    for i := 0 to |required|
      invariant AllLegacy(contract, h, required[..i])
      invariant updates == Plan(h, required[..i])
    {
      PlanOneMore(contract, h, required, i);
      var t := required[i];
      var observed := Normalize(RowOf(h, t.tab));
      if observed != Legacy(RowOf(contract, t.tab), t.columns) {
        NotAllLegacy(contract, h, required, i);
        return None;
      }
      var more := PlanTab(t.tab, |observed|, t.columns);
      updates := updates + more;
    }
    assert required[..|required|] == required;
    r := Some(updates);
  }

  method PlanTab(tab: string, from: nat, columns: seq<string>) returns (updates: seq<Update>)
    ensures updates == TabUpdates(tab, from, columns)
  {
    updates := [];
    for k := 0 to |columns|
      invariant updates == TabUpdates(tab, from, columns[..k])
    {
      assert columns[..k + 1][..k] == columns[..k];
      var letters := ColumnLetter(from + 1 + k);
      DecodeLetters(from + 1 + k);
      updates := updates + [Update(tab, letters, columns[k])];
    }
    assert columns[..|columns|] == columns;
  }

  lemma {:induction false} NotAllLegacy(contract: Headers, h: Headers, required: seq<TabColumns>, i: nat)
    requires i < |required|
    requires Normalize(RowOf(h, required[i].tab)) != Legacy(RowOf(contract, required[i].tab), required[i].columns)
    ensures !AllLegacy(contract, h, required)
    decreases |required|
  {
    if i < |required| - 1 {
      NotAllLegacy(contract, h, required[..|required| - 1], i);
    }
  }

  // ---------------------------------------------------------------- activation

  datatype Activation = ExistingColumns | NotLegacySource | DryRun | ReadbackMismatch | Activated

  /** Some required column already stands on its tab. */
  predicate HasExisting(h: Headers, required: seq<TabColumns>) {
    exists i, k :: 0 <= i < |required| && 0 <= k < |required[i].columns|
                   && required[i].columns[k] in Normalize(RowOf(h, required[i].tab))
  }

  /** The contract's own headers are its legacy headers followed by the required columns: no required
      column also stands earlier in the row. */
  ghost predicate AppendsOnly(contract: Headers, t: TabColumns) {
    RowOf(contract, t.tab) == Legacy(RowOf(contract, t.tab), t.columns) + t.columns
  }

  /** The row ends with the columns, and none of them stands before. */
  ghost predicate EndsInNew(row: seq<string>, columns: seq<string>) {
    var n := |row| - |columns|;
    n >= 0 && row[n..] == columns && forall text :: text in row[..n] ==> text !in columns
  }

  lemma AppendsOnlyMeaning(contract: Headers, t: TabColumns)
    ensures AppendsOnly(contract, t) <==> EndsInNew(RowOf(contract, t.tab), t.columns)
  {
    var row := RowOf(contract, t.tab);
    if AppendsOnly(contract, t) {
      LegacyMeaning(row, t.columns);
      assert row[..|row| - |t.columns|] == Legacy(row, t.columns);
    }
    if EndsInNew(row, t.columns) {
      NewAreAppended(row[..|row| - |t.columns|], t.columns);
      assert row == row[..|row| - |t.columns|] + t.columns;
    }
  }

  lemma NewAreAppended(front: seq<string>, columns: seq<string>)
    requires forall text :: text in front ==> text !in columns
    ensures Legacy(front + columns, columns) == front
  {
    LegacyOfBoth(front, columns, columns);
    LegacyMeaning(front, columns);
    assert front + [] == front;
    NoneLegacy(columns, columns);
  }

  lemma {:induction false} NoneLegacy(part: seq<string>, columns: seq<string>)
    requires forall i :: 0 <= i < |part| ==> part[i] in columns
    ensures Legacy(part, columns) == []
  {
    if part != [] {
      NoneLegacy(part[..|part| - 1], columns);
    }
  }

  ghost predicate AllAppendOnly(contract: Headers, required: seq<TabColumns>) {
    forall i :: 0 <= i < |required| ==> AppendsOnly(contract, required[i])
  }

  class Board {
    var headers: Headers

    constructor (headers: Headers)
      ensures this.headers == headers
    {
      this.headers := headers;
    }

    /** `_activate_while_locked`; the source calls it with `REQUIRED`. */
    method Activate(contract: Headers, required: seq<TabColumns>, apply: bool) returns (r: Activation)
      requires Proper(required) && required != []
      modifies this
      ensures r.ExistingColumns? <==> HasExisting(old(headers), required)
      ensures r.NotLegacySource? <==>
                !HasExisting(old(headers), required) && !AllLegacy(contract, old(headers), required)
      ensures r.ExistingColumns? || r.NotLegacySource? || r.DryRun? ==> headers == old(headers)
      ensures r.DryRun? ==> !apply
      ensures r.Activated? || r.ReadbackMismatch? ==>
                && apply
                && (forall i :: 0 <= i < |required| ==> Appended(contract, headers, required[i]))
                && (forall t :: !Names(required, t) ==> RowOf(headers, t) == RowOf(old(headers), t))
      // Once written, the readback holds if and only if the contract appends the columns and no more.
      ensures r.Activated? ==> AllAppendOnly(contract, required)
      ensures r.ReadbackMismatch? ==> !AllAppendOnly(contract, required)
      // A second attempt after a write is refused.
      ensures r.Activated? || r.ReadbackMismatch? ==> HasExisting(headers, required)
    {
      if HasExisting(headers, required) {
        return ExistingColumns;
      }
      var plan := PlanHeaderUpdates(contract, headers, required);
      if plan.None? {
        return NotLegacySource;
      }
      if !apply {
        return DryRun;
      }
      Written(contract, headers, required);
      headers := WriteAll(headers, plan.value);
      ProperAt(required, 0);
      WrittenHeader(contract, headers, required[0]);
      var exact := ReadBack(contract, headers, required);
      r := if exact then Activated else ReadbackMismatch;
    }
  }

  lemma Written(contract: Headers, h: Headers, required: seq<TabColumns>)
    requires AllLegacy(contract, h, required) && Proper(required)
    ensures forall i :: 0 <= i < |required| ==> Appended(contract, WriteAll(h, Plan(h, required)), required[i])
    ensures forall t :: !Names(required, t) ==> RowOf(WriteAll(h, Plan(h, required)), t) == RowOf(h, t)
  {
    forall i | 0 <= i < |required| ensures Appended(contract, WriteAll(h, Plan(h, required)), required[i]) {
      PlanWritten(contract, h, required, i);
    }
    forall t | !Names(required, t) ensures RowOf(WriteAll(h, Plan(h, required)), t) == RowOf(h, t) {
      PlanKeepsOthers(h, required, t);
    }
  }

  /** The readback of every tab against the contract. */
  method ReadBack(contract: Headers, after: Headers, required: seq<TabColumns>) returns (exact: bool)
    requires Proper(required) && forall i :: 0 <= i < |required| ==> Appended(contract, after, required[i])
    ensures exact <==> AllAppendOnly(contract, required)
  {
    for i := 0 to |required|
      invariant forall k :: 0 <= k < i ==> AppendsOnly(contract, required[k])
    {
      ProperAt(required, i);
      WrittenHeader(contract, after, required[i]);
      if Normalize(RowOf(after, required[i].tab)) != RowOf(contract, required[i].tab) {
        return false;
      }
    }
    exact := true;
  }

  lemma WrittenHeader(contract: Headers, after: Headers, t: TabColumns)
    requires Appended(contract, after, t) && t.columns != [] && "" !in t.columns
    ensures Normalize(RowOf(after, t.tab)) == Legacy(RowOf(contract, t.tab), t.columns) + t.columns
    ensures t.columns[0] in Normalize(RowOf(after, t.tab))
  {
    var row := Legacy(RowOf(contract, t.tab), t.columns) + t.columns;
    SameCellsSameHeader(RowOf(after, t.tab), row);
    assert row[|row| - 1] == t.columns[|t.columns| - 1];
    assert row[|row| - |t.columns|] == t.columns[0];
  }
}
