/** scripts/apply_kaspi_customer_size_google_board_my_size_patch.py: filling the MY_SIZE cells of the
    board rows named by key. Cells are stripped text; `clean` is what `_clean_key` makes of a key. */
module BoardPatch {
  import opened ColumnLetters
  import opened Wrappers

  type Matrix = seq<seq<string>>

  /** The tab's contract headers and where the key and size columns stand among them. */
  datatype Contract = Contract(headers: seq<string>, keyPos: nat, sizePos: nat)

  ghost predicate ValidContract(c: Contract) {
    c.keyPos < |c.headers| && c.sizePos < |c.headers| && c.keyPos != c.sizePos
  }

  /** `_resolve_header_mapping`: whether row 1 is a header, and the sheet column of each contract header. */
  datatype Mapping = Mapping(header: bool, columns: seq<nat>)

  function Identity(n: nat): (r: seq<nat>)
    ensures |r| == n && forall i :: 0 <= i < n ==> r[i] == i
  {
    seq(n, i requires 0 <= i < n => i)
  }

  function NonBlankAt(row: seq<string>): seq<nat> {
    if row == [] then []
    else if row[|row| - 1] == "" then NonBlankAt(row[..|row| - 1])
    else NonBlankAt(row[..|row| - 1]) + [|row| - 1]
  }

  function NonBlank(row: seq<string>): seq<string> {
    if row == [] then []
    else if row[|row| - 1] == "" then NonBlank(row[..|row| - 1])
    else NonBlank(row[..|row| - 1]) + [row[|row| - 1]]
  }

  lemma {:induction false} NonBlankIndices(row: seq<string>)
    ensures |NonBlankAt(row)| == |NonBlank(row)|
    ensures forall i :: 0 <= i < |NonBlankAt(row)| ==> i <= NonBlankAt(row)[i] < |row|
    ensures forall i, j :: 0 <= i < j < |NonBlankAt(row)| ==> NonBlankAt(row)[i] < NonBlankAt(row)[j]
  {
    if row != [] {
      NonBlankIndices(row[..|row| - 1]);
      var init := NonBlankAt(row[..|row| - 1]);
      assert init != [] ==> |init| - 1 <= init[|init| - 1] < |row| - 1;
    }
  }

  function Resolve(expected: seq<string>, observed: seq<string>): (m: Mapping)
    ensures |m.columns| == |expected|
    ensures forall i, j :: 0 <= i < j < |m.columns| ==> m.columns[i] < m.columns[j]
  {
    if expected <= observed || (observed != [] && observed <= expected) then Mapping(true, Identity(|expected|))
    else if NonBlank(observed) == expected then
      NonBlankIndices(observed);
      Mapping(true, NonBlankAt(observed))
    else Mapping(false, Identity(|expected|))
  }

  function MapOf(c: Contract, m: Matrix): (r: Mapping)
    ensures |r.columns| == |c.headers|
    ensures forall i, j :: 0 <= i < j < |r.columns| ==> r.columns[i] < r.columns[j]
  {
    if m == [] then Mapping(false, Identity(|c.headers|)) else Resolve(c.headers, m[0])
  }

  predicate BlankRow(row: seq<string>) {
    forall j :: 0 <= j < |row| ==> row[j] == ""
  }

  // ---------------------------------------------------------------- planning

  /** A patch row: whether it names the right tab and columns, its cleaned key, its planned value. */
  datatype Patch = Patch(inScope: bool, key: string, value: string)

  /** `validate_patch_rows_scope` finds nothing. */
  predicate GoodScope(patches: seq<Patch>) {
    && (forall i :: 0 <= i < |patches| ==> patches[i].inScope && patches[i].key != "" && patches[i].value != "")
    && (forall i, j :: 0 <= i < j < |patches| ==> patches[i].key != patches[j].key)
  }

  predicate InRange(rows: map<string, nat>, m: Matrix) {
    forall k <- rows.Keys :: rows[k] < |m|
  }

  /** Which row a key stands on: of several, the last one read wins. `first` is the first data row. */
  function RowOfKey(m: Matrix, first: nat, keyCol: nat, clean: string -> string, n: nat): (r: map<string, nat>)
    requires n <= |m|
    ensures InRange(r, m)
    decreases n
  {
    if n <= first then map[]
    else
      var above, row := RowOfKey(m, first, keyCol, clean, n - 1), m[n - 1];
      var key := clean(Cell(row, keyCol));
      if BlankRow(row) || key == "" then above else above[key := n - 1]
  }

  datatype Update = Update(key: string, row: nat, column: string, value: string)

  datatype Blocker = BadScope | RowMissing(key: string) | Conflict(key: string)

  datatype Decision = Missing | Current | Clash | Fill(row: nat)

  function Decide(rows: map<string, nat>, m: Matrix, sizeCol: nat, p: Patch): Decision
    requires InRange(rows, m)
  {
    if p.key !in rows then Missing
    else
      var current := Cell(m[rows[p.key]], sizeCol);
      if current == p.value then Current
      else if current != "" then Clash
      else Fill(rows[p.key])
  }

  function Updates(rows: map<string, nat>, m: Matrix, sizeCol: nat, column: string, ps: seq<Patch>): seq<Update>
    requires InRange(rows, m)
  {
    if ps == [] then []
    else
      var init, p := Updates(rows, m, sizeCol, column, ps[..|ps| - 1]), ps[|ps| - 1];
      var d := Decide(rows, m, sizeCol, p);
      if d.Fill? then init + [Update(p.key, d.row, column, p.value)] else init
  }

  predicate Unblocked(rows: map<string, nat>, m: Matrix, sizeCol: nat, ps: seq<Patch>)
    requires InRange(rows, m)
  {
    ps == []
    || (var d := Decide(rows, m, sizeCol, ps[|ps| - 1]);
        Unblocked(rows, m, sizeCol, ps[..|ps| - 1]) && !d.Missing? && !d.Clash?)
  }

  function Blockers(rows: map<string, nat>, m: Matrix, sizeCol: nat, ps: seq<Patch>): seq<Blocker>
    requires InRange(rows, m)
  {
    if ps == [] then []
    else
      var init, p := Blockers(rows, m, sizeCol, ps[..|ps| - 1]), ps[|ps| - 1];
      match Decide(rows, m, sizeCol, p)
      case Missing => init + [RowMissing(p.key)]
      case Clash => init + [Conflict(p.key)]
      case Current => init
      case Fill(_) => init
  }

  lemma {:induction false} NoBlockerMeansUnblocked(rows: map<string, nat>, m: Matrix, sizeCol: nat, ps: seq<Patch>)
    requires InRange(rows, m)
    ensures Blockers(rows, m, sizeCol, ps) == [] <==> Unblocked(rows, m, sizeCol, ps)
  {
    if ps != [] {
      NoBlockerMeansUnblocked(rows, m, sizeCol, ps[..|ps| - 1]);
    }
  }

  /** What the planner looks up before its loop over the patches. */
  datatype View = View(rows: map<string, nat>, sizeCol: nat)

  function ViewOf(c: Contract, clean: string -> string, m: Matrix): (v: View)
    requires ValidContract(c)
    ensures InRange(v.rows, m)
  {
    var map0 := MapOf(c, m);
    View(RowOfKey(m, if map0.header then 1 else 0, map0.columns[c.keyPos], clean, |m|), map0.columns[c.sizePos])
  }

  /** The written column is the contract's, whatever column the header mapping read. */
  function WriteColumn(c: Contract): string {
    Letters(c.sizePos + 1)
  }

  function PlanOf(c: Contract, clean: string -> string, m: Matrix, ps: seq<Patch>): seq<Update>
    requires ValidContract(c)
  {
    var v := ViewOf(c, clean, m);
    Updates(v.rows, m, v.sizeCol, WriteColumn(c), ps)
  }

  predicate NoBlockers(c: Contract, clean: string -> string, m: Matrix, ps: seq<Patch>)
    requires ValidContract(c)
  {
    var v := ViewOf(c, clean, m);
    GoodScope(ps) && Unblocked(v.rows, m, v.sizeCol, ps)
  }

  /** `plan_board_cell_updates` */
  method Plan(c: Contract, clean: string -> string, m: Matrix, ps: seq<Patch>)
    returns (updates: seq<Update>, blockers: seq<Blocker>)
    requires ValidContract(c)
    ensures blockers == [] <==> NoBlockers(c, clean, m, ps)
    ensures GoodScope(ps) ==>
              blockers == Blockers(ViewOf(c, clean, m).rows, m, ViewOf(c, clean, m).sizeCol, ps)
    ensures updates == if GoodScope(ps) then PlanOf(c, clean, m, ps) else []
  {
    if !GoodScope(ps) {
      return [], [BadScope];
    }
    var mapping := MapOf(c, m);
    var byKey := IndexRows(m, if mapping.header then 1 else 0, mapping.columns[c.keyPos], clean);
    updates, blockers := DecideAll(byKey, m, mapping.columns[c.sizePos], c.sizePos, ps);
    NoBlockerMeansUnblocked(byKey, m, mapping.columns[c.sizePos], ps);
  }

  /** `by_key`: the keys of the data rows, each mapped to the last row that carries it. */
  method IndexRows(m: Matrix, first: nat, keyCol: nat, clean: string -> string) returns (byKey: map<string, nat>)
    ensures byKey == RowOfKey(m, first, keyCol, clean, |m|)
    ensures forall k :: k in byKey ==> LastCarries(m, keyCol, clean, k, byKey[k])
    ensures forall r :: first <= r < |m| && clean(Cell(m[r], keyCol)) != "" && !BlankRow(m[r]) ==>
              clean(Cell(m[r], keyCol)) in byKey
  {
    byKey := map[];
    var n := if first <= |m| then first else |m|;
    while n < |m|
      invariant n <= |m| && byKey == RowOfKey(m, first, keyCol, clean, n)
    {
      var key := clean(Cell(m[n], keyCol));
      if !BlankRow(m[n]) && key != "" {
        byKey := byKey[key := n];
      }
      n := n + 1;
    }
    forall k | k in byKey ensures LastCarries(m, keyCol, clean, k, byKey[k]) {
      KeyStandsOnRow(m, first, keyCol, clean, |m|, k);
    }
    forall r | first <= r < |m| && Carries(m, keyCol, clean, clean(Cell(m[r], keyCol)), r)
      ensures clean(Cell(m[r], keyCol)) in byKey
    {
      CarriedKeyIsIndexed(m, first, keyCol, clean, |m|, r);
    }
  }

  method DecideAll(rows: map<string, nat>, m: Matrix, sizeCol: nat, sizePos: nat, ps: seq<Patch>)
    returns (updates: seq<Update>, blockers: seq<Blocker>)
    requires InRange(rows, m)
    ensures updates == Updates(rows, m, sizeCol, Letters(sizePos + 1), ps)
    ensures blockers == Blockers(rows, m, sizeCol, ps)
  {
    var letters := ColumnLetter(sizePos + 1);
    updates, blockers := [], [];
    for i := 0 to |ps|
      invariant updates == Updates(rows, m, sizeCol, letters, ps[..i])
      invariant blockers == Blockers(rows, m, sizeCol, ps[..i])
    {
      assert ps[..i + 1][..i] == ps[..i];
      match Decide(rows, m, sizeCol, ps[i])
      case Missing => blockers := blockers + [RowMissing(ps[i].key)];
      case Clash => blockers := blockers + [Conflict(ps[i].key)];
      case Current =>
      case Fill(row) => updates := updates + [Update(ps[i].key, row, letters, ps[i].value)];
    }
    assert ps[..|ps|] == ps;
  }

  // ---------------------------------------------------------------- what the plan hits

  /** Row `r` has some text, and the key in its key cell. */
  ghost predicate Carries(m: Matrix, keyCol: nat, clean: string -> string, k: string, r: nat) {
    r < |m| && (exists j :: 0 <= j < |m[r]| && m[r][j] != "") && k != "" && clean(Cell(m[r], keyCol)) == k
  }

  /** Row `r` carries the key and no later row does. */
  ghost predicate LastCarries(m: Matrix, keyCol: nat, clean: string -> string, k: string, r: nat) {
    Carries(m, keyCol, clean, k, r) && forall later :: r < later < |m| ==> !Carries(m, keyCol, clean, k, later)
  }

  lemma {:induction false} KeyStandsOnRow(
    m: Matrix, first: nat, keyCol: nat, clean: string -> string, n: nat, k: string)
    requires n <= |m| && k in RowOfKey(m, first, keyCol, clean, n)
    ensures var r := RowOfKey(m, first, keyCol, clean, n)[k];
            && first <= r < n && Carries(m, keyCol, clean, k, r)
            && forall later :: r < later < n ==> !Carries(m, keyCol, clean, k, later)
    decreases n
  {
    if n > first {
      var key := clean(Cell(m[n - 1], keyCol));
      if BlankRow(m[n - 1]) || key == "" || k != key {
        KeyStandsOnRow(m, first, keyCol, clean, n - 1, k);
      }
    }
  }

  lemma {:induction false} CarriedKeyIsIndexed(
    m: Matrix, first: nat, keyCol: nat, clean: string -> string, n: nat, r: nat)
    requires first <= r < n <= |m| && Carries(m, keyCol, clean, clean(Cell(m[r], keyCol)), r)
    ensures clean(Cell(m[r], keyCol)) in RowOfKey(m, first, keyCol, clean, n)
    decreases n
  {
    if r < n - 1 {
      CarriedKeyIsIndexed(m, first, keyCol, clean, n - 1, r);
    }
  }

  /** Every update comes from a patch whose cell was read as blank. */
  lemma {:induction false} UpdateSource(
    rows: map<string, nat>, m: Matrix, sizeCol: nat, column: string, ps: seq<Patch>, i: nat)
    returns (p: nat)
    requires InRange(rows, m) && i < |Updates(rows, m, sizeCol, column, ps)|
    ensures p < |ps| && i <= p && Decide(rows, m, sizeCol, ps[p]).Fill?
    ensures Updates(rows, m, sizeCol, column, ps)[i] == Update(ps[p].key, rows[ps[p].key], column, ps[p].value)
  {
    var init := ps[..|ps| - 1];
    if i < |Updates(rows, m, sizeCol, column, init)| {
      p := UpdateSource(rows, m, sizeCol, column, init, i);
    } else {
      UpdatesNoMore(rows, m, sizeCol, column, init);
      p := |ps| - 1;
    }
  }

  lemma {:induction false} UpdatesNoMore(
    rows: map<string, nat>, m: Matrix, sizeCol: nat, column: string, ps: seq<Patch>)
    requires InRange(rows, m)
    ensures |Updates(rows, m, sizeCol, column, ps)| <= |ps|
  {
    if ps != [] {
      UpdatesNoMore(rows, m, sizeCol, column, ps[..|ps| - 1]);
    }
  }

  predicate DistinctKeys(ps: seq<Patch>) {
    forall i, j :: 0 <= i < j < |ps| ==> ps[i].key != ps[j].key
  }

  predicate Hits(us: seq<Update>, row: nat) {
    exists i :: 0 <= i < |us| && us[i].row == row
  }

  /** No two updates share a row. */
  predicate DistinctRows(us: seq<Update>) {
    us == [] || (DistinctRows(us[..|us| - 1]) && !Hits(us[..|us| - 1], us[|us| - 1].row))
  }

  ghost predicate OneKeyPerRow(rows: map<string, nat>) {
    forall j, k :: j in rows && k in rows && rows[j] == rows[k] ==> j == k
  }

  lemma {:induction false} UpdatesHitDistinctRows(
    rows: map<string, nat>, m: Matrix, sizeCol: nat, column: string, ps: seq<Patch>)
    requires InRange(rows, m) && OneKeyPerRow(rows) && DistinctKeys(ps)
    ensures DistinctRows(Updates(rows, m, sizeCol, column, ps))
  {
    if ps != [] {
      var init, p := ps[..|ps| - 1], ps[|ps| - 1];
      UpdatesHitDistinctRows(rows, m, sizeCol, column, init);
      var us := Updates(rows, m, sizeCol, column, init);
      if Decide(rows, m, sizeCol, p).Fill? {
        var u := Update(p.key, rows[p.key], column, p.value);
        assert (us + [u])[..|us|] == us;
        forall i | 0 <= i < |us| ensures us[i].row != u.row {
          var q := UpdateSource(rows, m, sizeCol, column, init, i);
          assert init[q] == ps[q] && ps[q].key != p.key;
        }
      }
    }
  }

  lemma ViewHasOneKeyPerRow(c: Contract, clean: string -> string, m: Matrix)
    requires ValidContract(c)
    ensures OneKeyPerRow(ViewOf(c, clean, m).rows)
  {
    var mapping, rows := MapOf(c, m), ViewOf(c, clean, m).rows;
    var first := if mapping.header then 1 else 0;
    forall j, k | j in rows && k in rows && rows[j] == rows[k] ensures j == k {
      KeyStandsOnRow(m, first, mapping.columns[c.keyPos], clean, |m|, j);
      KeyStandsOnRow(m, first, mapping.columns[c.keyPos], clean, |m|, k);
    }
  }

  /** The plan hits pairwise distinct rows, each the last that carries the patch's key, and every size
      cell it means to fill was blank. */
  lemma PlanHitsDistinctBlankCells(c: Contract, clean: string -> string, m: Matrix, ps: seq<Patch>)
    requires ValidContract(c) && GoodScope(ps)
    ensures DistinctRows(PlanOf(c, clean, m, ps))
    ensures forall i :: 0 <= i < |PlanOf(c, clean, m, ps)| ==>
              var u := PlanOf(c, clean, m, ps)[i];
              && u.row < |m| && Cell(m[u.row], ViewOf(c, clean, m).sizeCol) == ""
              && LastCarries(m, MapOf(c, m).columns[c.keyPos], clean, u.key, u.row) && u.value != ""
  {
    var v, mapping := ViewOf(c, clean, m), MapOf(c, m);
    ViewHasOneKeyPerRow(c, clean, m);
    UpdatesHitDistinctRows(v.rows, m, v.sizeCol, WriteColumn(c), ps);
    var us := PlanOf(c, clean, m, ps);
    forall i | 0 <= i < |us|
      ensures us[i].row < |m| && Cell(m[us[i].row], v.sizeCol) == ""
      ensures LastCarries(m, mapping.columns[c.keyPos], clean, us[i].key, us[i].row) && us[i].value != ""
    {
      var p := UpdateSource(v.rows, m, v.sizeCol, WriteColumn(c), ps, i);
      KeyStandsOnRow(m, if mapping.header then 1 else 0, mapping.columns[c.keyPos], clean, |m|, ps[p].key);
    }
  }

  // ---------------------------------------------------------------- the plan in words

  ghost predicate Begins(row: seq<string>, with: seq<string>) {
    |with| <= |row| && forall i :: 0 <= i < |with| ==> row[i] == with[i]
  }

  /** The cells at `columns`, from left to right, are `texts`; every other cell of the row is blank. */
  ghost predicate ReadsAt(texts: seq<string>, row: seq<string>, columns: seq<nat>) {
    && |columns| == |texts|
    && (forall i, j :: 0 <= i < j < |columns| ==> columns[i] < columns[j])
    && (forall i :: 0 <= i < |columns| ==> columns[i] < |row| && row[columns[i]] == texts[i] && texts[i] != "")
    && forall j :: 0 <= j < |row| && row[j] != "" ==> j in columns
  }

  lemma {:induction false} NonBlankReads(row: seq<string>)
    ensures ReadsAt(NonBlank(row), row, NonBlankAt(row))
  {
    NonBlankIndices(row);
    if row != [] {
      NonBlankReads(row[..|row| - 1]);
    }
  }

  lemma ReadsBeforeBlank(texts: seq<string>, row: seq<string>, columns: seq<nat>)
    requires ReadsAt(texts, row, columns) && row != [] && row[|row| - 1] == ""
    ensures ReadsAt(texts, row[..|row| - 1], columns)
  {
  }

  lemma ReadsLast(texts: seq<string>, row: seq<string>, columns: seq<nat>)
    requires ReadsAt(texts, row, columns) && row != [] && row[|row| - 1] != ""
    ensures columns != [] && columns[|columns| - 1] == |row| - 1 && texts[|texts| - 1] == row[|row| - 1]
    ensures ReadsAt(texts[..|texts| - 1], row[..|row| - 1], columns[..|columns| - 1])
  {
    var n := |columns|;
    var i :| 0 <= i < n && columns[i] == |row| - 1;
    assert columns[n - 1] < |row|;
    forall j | 0 <= j < |row| - 1 && row[j] != "" ensures j in columns[..n - 1] {
      var k :| 0 <= k < n && columns[k] == j;
    }
  }

  lemma LastAdded<T>(s: seq<T>, init: seq<T>, last: T)
    requires s != [] && init == s[..|s| - 1] && last == s[|s| - 1]
    ensures s == init + [last]
  {
  }

  lemma NonBlankLast(row: seq<string>, texts: seq<string>, columns: seq<nat>)
    requires row != [] && row[|row| - 1] != "" && texts != [] && columns != []
    requires NonBlank(row[..|row| - 1]) == texts[..|texts| - 1] && texts[|texts| - 1] == row[|row| - 1]
    requires NonBlankAt(row[..|row| - 1]) == columns[..|columns| - 1] && columns[|columns| - 1] == |row| - 1
    ensures NonBlank(row) == texts && NonBlankAt(row) == columns
  {
    LastAdded(texts, NonBlank(row[..|row| - 1]), row[|row| - 1]);
    LastAdded(columns, NonBlankAt(row[..|row| - 1]), |row| - 1);
  }

  lemma {:induction false} ReadsMeansNonBlank(texts: seq<string>, row: seq<string>, columns: seq<nat>)
    requires ReadsAt(texts, row, columns)
    ensures NonBlank(row) == texts && NonBlankAt(row) == columns
  {
    if row == [] {
      assert columns == [] && texts == [];
    } else if row[|row| - 1] == "" {
      ReadsBeforeBlank(texts, row, columns);
      ReadsMeansNonBlank(texts, row[..|row| - 1], columns);
    } else {
      ReadsLast(texts, row, columns);
      ReadsMeansNonBlank(texts[..|texts| - 1], row[..|row| - 1], columns[..|columns| - 1]);
      NonBlankLast(row, texts, columns);
    }
  }

  /** Row 1 is a header when it begins with the contract headers, is a beginning of them, or has them with
      blank columns between; each header is then read where it stands. */
  lemma ResolveMeaning(expected: seq<string>, observed: seq<string>)
    ensures var m, plain := Resolve(expected, observed),
                            Begins(observed, expected) || (observed != [] && Begins(expected, observed));
            && (m.header <==> plain || exists columns :: ReadsAt(expected, observed, columns))
            && (m.header && !plain ==> ReadsAt(expected, observed, m.columns))
            && (!m.header || plain ==> forall i :: 0 <= i < |m.columns| ==> m.columns[i] == i)
  {
    assert expected <= observed <==> Begins(observed, expected);
    assert observed <= expected <==> Begins(expected, observed);
    NonBlankReads(observed);
    if columns :| ReadsAt(expected, observed, columns) {
      ReadsMeansNonBlank(expected, observed, columns);
    }
  }

  /** `r` is the data row of the key: the last that carries it. */
  ghost predicate StandsOn(c: Contract, clean: string -> string, m: Matrix, key: string, r: nat)
    requires ValidContract(c)
  {
    (MapOf(c, m).header ==> r > 0) && LastCarries(m, MapOf(c, m).columns[c.keyPos], clean, key, r)
  }

  lemma KeyIndexed(c: Contract, clean: string -> string, m: Matrix, key: string)
    requires ValidContract(c)
    ensures key in ViewOf(c, clean, m).rows <==> exists r: nat :: StandsOn(c, clean, m, key, r)
    ensures forall r: nat :: StandsOn(c, clean, m, key, r) ==>
              key in ViewOf(c, clean, m).rows && ViewOf(c, clean, m).rows[key] == r
  {
    var mapping, rows := MapOf(c, m), ViewOf(c, clean, m).rows;
    var first, keyCol := if mapping.header then 1 else 0, mapping.columns[c.keyPos];
    if key in rows {
      KeyStandsOnRow(m, first, keyCol, clean, |m|, key);
      assert StandsOn(c, clean, m, key, rows[key]);
    }
    forall r: nat | StandsOn(c, clean, m, key, r) ensures key in rows && rows[key] == r {
      CarriedKeyIsIndexed(m, first, keyCol, clean, |m|, r);
      KeyStandsOnRow(m, first, keyCol, clean, |m|, key);
      assert !(r < rows[key]) && !(rows[key] < r);
    }
  }

  /** The MY_SIZE cell of the row, as the planner reads it. */
  ghost function SizeRead(c: Contract, m: Matrix, r: nat): string
    requires ValidContract(c) && r < |m|
  {
    Cell(m[r], MapOf(c, m).columns[c.sizePos])
  }

  /** What a patch comes to: no row has its key, the size is there, another size is there, or it is blank. */
  lemma DecideMeaning(c: Contract, clean: string -> string, m: Matrix, p: Patch)
    requires ValidContract(c) && p.value != ""
    ensures var v := ViewOf(c, clean, m);
            var d := Decide(v.rows, m, v.sizeCol, p);
            && (d.Missing? <==> forall r: nat :: !StandsOn(c, clean, m, p.key, r))
            && (d.Current? <==> exists r: nat :: StandsOn(c, clean, m, p.key, r) && SizeRead(c, m, r) == p.value)
            && (d.Clash? <==> exists r: nat :: StandsOn(c, clean, m, p.key, r) && SizeRead(c, m, r) !in ["", p.value])
            && forall r :: d == Fill(r) <==> StandsOn(c, clean, m, p.key, r) && SizeRead(c, m, r) == ""
  {
    KeyIndexed(c, clean, m, p.key);
  }

  /** Patches that may be planned: of this tab and column, with a key and a size, and no key twice. */
  ghost predicate Plannable(ps: seq<Patch>) {
    && (forall p :: p in ps ==> p.inScope && |p.key| > 0 && |p.value| > 0)
    && forall i, j :: 0 <= i < j < |ps| ==> ps[i].key != ps[j].key
  }

  lemma {:induction false} BlockersMeaning(rows: map<string, nat>, m: Matrix, sizeCol: nat, ps: seq<Patch>, b: Blocker)
    requires InRange(rows, m)
    ensures b in Blockers(rows, m, sizeCol, ps) <==>
            exists p :: p in ps && match b
                                   case BadScope => false
                                   case RowMissing(key) => p.key == key && Decide(rows, m, sizeCol, p).Missing?
                                   case Conflict(key) => p.key == key && Decide(rows, m, sizeCol, p).Clash?
  {
    if ps != [] {
      BlockersMeaning(rows, m, sizeCol, ps[..|ps| - 1], b);
      assert ps == ps[..|ps| - 1] + [ps[|ps| - 1]];
    }
  }

  /** A plan is blocked exactly when a patch is out of scope, names no data row, or names a row that holds
      another size; each blocker says which key. */
  lemma BlockedMeaning(c: Contract, clean: string -> string, m: Matrix, ps: seq<Patch>)
    requires ValidContract(c)
    ensures GoodScope(ps) <==> Plannable(ps)
    ensures Plannable(ps) ==>
              var blockers := Blockers(ViewOf(c, clean, m).rows, m, ViewOf(c, clean, m).sizeCol, ps);
              && (forall key :: RowMissing(key) in blockers <==>
                    exists p :: p in ps && p.key == key && forall r: nat :: !StandsOn(c, clean, m, key, r))
              && (forall key :: Conflict(key) in blockers <==>
                    exists p, r: nat :: p in ps && p.key == key && StandsOn(c, clean, m, key, r)
                                        && SizeRead(c, m, r) != "" && SizeRead(c, m, r) != p.value)
              && BadScope !in blockers
              && (blockers == [] <==> NoBlockers(c, clean, m, ps))
  {
    ScopeMeaning(ps);
    if Plannable(ps) {
      var v := ViewOf(c, clean, m);
      NoBlockerMeansUnblocked(v.rows, m, v.sizeCol, ps);
      BlockersMeaning(v.rows, m, v.sizeCol, ps, BadScope);
      forall key ensures RowMissing(key) in Blockers(v.rows, m, v.sizeCol, ps) <==>
                         exists p :: p in ps && p.key == key && forall r: nat :: !StandsOn(c, clean, m, key, r)
      {
        MissingMeaning(c, clean, m, ps, key);
      }
      forall key ensures Conflict(key) in Blockers(v.rows, m, v.sizeCol, ps) <==>
                         exists p, r: nat :: p in ps && p.key == key && StandsOn(c, clean, m, key, r)
                                             && SizeRead(c, m, r) != "" && SizeRead(c, m, r) != p.value
      {
        ClashMeaning(c, clean, m, ps, key);
      }
    }
  }

  lemma ScopeMeaning(ps: seq<Patch>)
    ensures GoodScope(ps) <==> Plannable(ps)
  {
    if Plannable(ps) {
      assert forall i :: 0 <= i < |ps| ==> ps[i] in ps;
    }
  }

  lemma MissingMeaning(c: Contract, clean: string -> string, m: Matrix, ps: seq<Patch>, key: string)
    requires ValidContract(c) && Plannable(ps)
    ensures RowMissing(key) in Blockers(ViewOf(c, clean, m).rows, m, ViewOf(c, clean, m).sizeCol, ps) <==>
            exists p :: p in ps && p.key == key && forall r: nat :: !StandsOn(c, clean, m, key, r)
  {
    var v := ViewOf(c, clean, m);
    BlockersMeaning(v.rows, m, v.sizeCol, ps, RowMissing(key));
    forall p | p in ps && p.key == key
      ensures Decide(v.rows, m, v.sizeCol, p).Missing? <==> forall r: nat :: !StandsOn(c, clean, m, key, r)
    {
      DecideMeaning(c, clean, m, p);
    }
  }

  lemma ClashMeaning(c: Contract, clean: string -> string, m: Matrix, ps: seq<Patch>, key: string)
    requires ValidContract(c) && Plannable(ps)
    ensures Conflict(key) in Blockers(ViewOf(c, clean, m).rows, m, ViewOf(c, clean, m).sizeCol, ps) <==>
            exists p, r: nat :: p in ps && p.key == key && StandsOn(c, clean, m, key, r)
                                && SizeRead(c, m, r) != "" && SizeRead(c, m, r) != p.value
  {
    var v := ViewOf(c, clean, m);
    BlockersMeaning(v.rows, m, v.sizeCol, ps, Conflict(key));
    forall p | p in ps && p.key == key
      ensures Decide(v.rows, m, v.sizeCol, p).Clash? <==>
              exists r: nat :: StandsOn(c, clean, m, key, r) && SizeRead(c, m, r) != "" && SizeRead(c, m, r) != p.value
    {
      DecideMeaning(c, clean, m, p);
    }
  }

  /** A planned update: the patch's size, for the row of its key, whose size cell is read as blank. */
  ghost predicate Planned(c: Contract, clean: string -> string, m: Matrix, p: Patch, u: Update)
    requires ValidContract(c)
  {
    && StandsOn(c, clean, m, p.key, u.row) && SizeRead(c, m, u.row) == ""
    && u.key == p.key && u.value == p.value && u.column == Letters(c.sizePos + 1)
  }

  /** The plan is exactly the updates that the patches call for. */
  lemma PlanMeaning(c: Contract, clean: string -> string, m: Matrix, ps: seq<Patch>, u: Update)
    requires ValidContract(c) && Plannable(ps)
    ensures u in PlanOf(c, clean, m, ps) <==> exists p :: p in ps && Planned(c, clean, m, p, u)
  {
    var v, us := ViewOf(c, clean, m), PlanOf(c, clean, m, ps);
    if u in us {
      var i :| 0 <= i < |us| && us[i] == u;
      var q := UpdateSource(v.rows, m, v.sizeCol, WriteColumn(c), ps, i);
      DecideMeaning(c, clean, m, ps[q]);
      assert ps[q] in ps && Planned(c, clean, m, ps[q], u);
    }
    if p :| p in ps && Planned(c, clean, m, p, u) {
      var q :| 0 <= q < |ps| && ps[q] == p;
      DecideMeaning(c, clean, m, p);
      var i := UpdateOf(v.rows, m, v.sizeCol, WriteColumn(c), ps, q);
    }
  }

  // ---------------------------------------------------------------- after the write

  /** One cell of `update_cells`, addressed by its letters. */
  function Write(m: Matrix, u: Update): (r: Matrix)
    ensures |r| == |m|
  {
    if u.row < |m| && AllLetters(u.column) && Decode(u.column) > 0 then
      m[u.row := SetCell(m[u.row], Decode(u.column) - 1, u.value)]
    else m
  }

  function WriteAll(m: Matrix, us: seq<Update>): (r: Matrix)
    ensures |r| == |m|
  {
    if us == [] then m else Write(WriteAll(m, us[..|us| - 1]), us[|us| - 1])
  }

  lemma {:induction false} RowNotHit(m: Matrix, us: seq<Update>, row: nat)
    requires row < |m| && !Hits(us, row)
    ensures WriteAll(m, us)[row] == m[row]
  {
    if us != [] {
      assert us[|us| - 1].row != row;
      assert forall i :: 0 <= i < |us| - 1 ==> us[..|us| - 1][i] == us[i];
      RowNotHit(m, us[..|us| - 1], row);
    }
  }

  lemma {:induction false} RowHit(m: Matrix, us: seq<Update>, i: nat, col: nat)
    requires i < |us| && DistinctRows(us) && us[i].row < |m| && us[i].column == Letters(col + 1)
    ensures WriteAll(m, us)[us[i].row] == SetCell(m[us[i].row], col, us[i].value)
  {
    var init, last := us[..|us| - 1], us[|us| - 1];
    if i == |us| - 1 {
      RowNotHit(m, init, last.row);
      WriteHere(WriteAll(m, init), last, col);
    } else {
      assert init[i] == us[i];
      RowHit(m, init, i, col);
      assert last.row != us[i].row;
      WriteElsewhere(WriteAll(m, init), last, us[i].row);
    }
  }

  lemma WriteHere(m: Matrix, u: Update, col: nat)
    requires u.row < |m| && u.column == Letters(col + 1)
    ensures Write(m, u)[u.row] == SetCell(m[u.row], col, u.value)
  {
    DecodeLetters(col + 1);
  }

  lemma WriteElsewhere(m: Matrix, u: Update, row: nat)
    requires row < |m| && row != u.row
    ensures Write(m, u)[row] == m[row]
  {
  }

  /** An update writes the contract's column of a data row that is not blank. */
  lemma UpdateRow(c: Contract, clean: string -> string, m: Matrix, ps: seq<Patch>, i: nat)
    requires ValidContract(c) && GoodScope(ps) && i < |PlanOf(c, clean, m, ps)|
    ensures Proper(m, PlanOf(c, clean, m, ps)[i], c.sizePos)
    ensures MapOf(c, m).header ==> PlanOf(c, clean, m, ps)[i].row > 0
  {
    var v, mapping := ViewOf(c, clean, m), MapOf(c, m);
    var p := UpdateSource(v.rows, m, v.sizeCol, WriteColumn(c), ps, i);
    KeyStandsOnRow(m, if mapping.header then 1 else 0, mapping.columns[c.keyPos], clean, |m|, ps[p].key);
  }

  /** Every row after the plan is the row before, or the row before with its MY_SIZE cell of the
      contract's column filled. */
  ghost predicate RowFilled(before: seq<string>, after: seq<string>, col: nat) {
    after == before || (!BlankRow(before) && exists v :: v != "" && after == SetCell(before, col, v))
  }

  lemma PlannedRow(c: Contract, clean: string -> string, m: Matrix, ps: seq<Patch>, row: nat)
    requires ValidContract(c) && GoodScope(ps) && row < |m|
    ensures RowFilled(m[row], WriteAll(m, PlanOf(c, clean, m, ps))[row], c.sizePos)
  {
    var us, v := PlanOf(c, clean, m, ps), ViewOf(c, clean, m);
    ViewHasOneKeyPerRow(c, clean, m);
    UpdatesHitDistinctRows(v.rows, m, v.sizeCol, WriteColumn(c), ps);
    forall i | 0 <= i < |us| ensures Proper(m, us[i], c.sizePos) {
      UpdateRow(c, clean, m, ps, i);
    }
    WrittenRow(m, us, row, c.sizePos);
  }

  ghost predicate Proper(m: Matrix, u: Update, col: nat) {
    u.row < |m| && !BlankRow(m[u.row]) && u.value != "" && u.column == Letters(col + 1)
  }

  lemma WrittenRow(m: Matrix, us: seq<Update>, row: nat, col: nat)
    requires row < |m| && DistinctRows(us) && forall i :: 0 <= i < |us| ==> Proper(m, us[i], col)
    ensures RowFilled(m[row], WriteAll(m, us)[row], col)
  {
    if Hits(us, row) {
      var i :| 0 <= i < |us| && us[i].row == row;
      RowHit(m, us, i, col);
      Filled(m[row], col, us[i].value);
    } else {
      RowNotHit(m, us, row);
    }
  }

  lemma Filled(row: seq<string>, col: nat, v: string)
    requires !BlankRow(row) && v != ""
    ensures RowFilled(row, SetCell(row, col, v), col)
  {
  }

  lemma {:induction false} SameKeysSameRows(
    m: Matrix, m': Matrix, first: nat, keyCol: nat, col: nat, clean: string -> string, n: nat)
    requires |m| == |m'| && n <= |m| && keyCol != col
    requires forall r :: 0 <= r < |m| ==> RowFilled(m[r], m'[r], col)
    ensures RowOfKey(m', first, keyCol, clean, n) == RowOfKey(m, first, keyCol, clean, n)
    decreases n
  {
    if n > first {
      SameKeysSameRows(m, m', first, keyCol, col, clean, n - 1);
      FilledRowReads(m[n - 1], m'[n - 1], col, keyCol);
    }
  }

  lemma FilledRowReads(before: seq<string>, after: seq<string>, col: nat, other: nat)
    requires RowFilled(before, after, col) && other != col
    ensures Cell(after, other) == Cell(before, other)
    ensures BlankRow(after) <==> BlankRow(before)
  {
    if after != before {
      var v :| v != "" && after == SetCell(before, col, v);
      assert Cell(after, col) == v;
      assert after[col] != "";
    }
  }

  /** The board after the plan: where the size of a patch's row was read as blank, its size stands in the
      contract's column. */
  lemma SizeWritten(c: Contract, clean: string -> string, m: Matrix, ps: seq<Patch>, p: Patch, r: nat)
    requires ValidContract(c) && Plannable(ps) && p in ps
    requires StandsOn(c, clean, m, p.key, r) && SizeRead(c, m, r) == ""
    ensures Cell(WriteAll(m, PlanOf(c, clean, m, ps))[r], c.sizePos) == p.value
  {
    var us, u := PlanOf(c, clean, m, ps), Update(p.key, r, Letters(c.sizePos + 1), p.value);
    ScopeMeaning(ps);
    assert Planned(c, clean, m, p, u);
    PlanMeaning(c, clean, m, ps, u);
    var k :| 0 <= k < |us| && us[k] == u;
    HitRowWritten(c, clean, m, ps, k);
  }

  /** And nothing else changes: no other column, and no row that is not such a row. */
  lemma RestKept(c: Contract, clean: string -> string, m: Matrix, ps: seq<Patch>, r: nat)
    requires ValidContract(c) && Plannable(ps) && r < |m|
    ensures var after := WriteAll(m, PlanOf(c, clean, m, ps));
            && (forall j: nat :: j != c.sizePos ==> Cell(after[r], j) == Cell(m[r], j))
            && (after[r] != m[r] ==>
                  exists p :: p in ps && StandsOn(c, clean, m, p.key, r) && SizeRead(c, m, r) == "")
  {
    var us := PlanOf(c, clean, m, ps);
    ScopeMeaning(ps);
    if Hits(us, r) {
      var i :| 0 <= i < |us| && us[i].row == r;
      HitRowWritten(c, clean, m, ps, i);
      PlanMeaning(c, clean, m, ps, us[i]);
    } else {
      RowNotHit(m, us, r);
    }
  }

  lemma HitRowWritten(c: Contract, clean: string -> string, m: Matrix, ps: seq<Patch>, i: nat)
    requires ValidContract(c) && GoodScope(ps) && i < |PlanOf(c, clean, m, ps)|
    ensures var us := PlanOf(c, clean, m, ps);
            us[i].row < |m| && WriteAll(m, us)[us[i].row] == SetCell(m[us[i].row], c.sizePos, us[i].value)
  {
    PlanHitsDistinctBlankCells(c, clean, m, ps);
    UpdateRow(c, clean, m, ps, i);
    RowHit(m, PlanOf(c, clean, m, ps), i, c.sizePos);
  }

  /** The rows of the keys are found again after the plan is written. */
  lemma ViewStays(c: Contract, clean: string -> string, m: Matrix, ps: seq<Patch>)
    requires ValidContract(c) && GoodScope(ps)
    requires MapOf(c, WriteAll(m, PlanOf(c, clean, m, ps))) == MapOf(c, m)
    requires MapOf(c, m).columns[c.keyPos] != c.sizePos
    ensures ViewOf(c, clean, WriteAll(m, PlanOf(c, clean, m, ps))) == ViewOf(c, clean, m)
  {
    var m', mapping := WriteAll(m, PlanOf(c, clean, m, ps)), MapOf(c, m);
    forall r | 0 <= r < |m| ensures RowFilled(m[r], m'[r], c.sizePos) {
      PlannedRow(c, clean, m, ps, r);
    }
    SameKeysSameRows(m, m', if mapping.header then 1 else 0, mapping.columns[c.keyPos], c.sizePos, clean, |m|);
  }

  /** With a header row the column mapping survives the write: data rows only are written. */
  lemma HeaderStays(c: Contract, clean: string -> string, m: Matrix, ps: seq<Patch>)
    requires ValidContract(c) && GoodScope(ps) && MapOf(c, m).header
    ensures MapOf(c, WriteAll(m, PlanOf(c, clean, m, ps))) == MapOf(c, m)
  {
    var us := PlanOf(c, clean, m, ps);
    forall i | 0 <= i < |us| ensures us[i].row != 0 {
      UpdateRow(c, clean, m, ps, i);
    }
    RowNotHit(m, us, 0);
  }

  /** The value completes a first row that is none to a header row. */
  predicate Completes(c: Contract, row: seq<string>, value: string) {
    Resolve(c.headers, SetCell(row, c.sizePos, value)).header
  }

  /** Row 1 is a header, or no planned update of row 1 completes it to one. */
  ghost predicate KeepsMapping(c: Contract, clean: string -> string, m: Matrix, ps: seq<Patch>)
    requires ValidContract(c)
  {
    m == [] || MapOf(c, m).header
    || forall u :: u in PlanOf(c, clean, m, ps) && u.row == 0 ==> !Completes(c, m[0], u.value)
  }

  lemma OneUpdatePerRow(us: seq<Update>, u: Update)
    requires DistinctRows(us) && u in us
    ensures forall w :: w in us && w.row == u.row ==> w == u
  {
    var i :| 0 <= i < |us| && us[i] == u;
    forall w | w in us && w.row == u.row ensures w == u {
      var j :| 0 <= j < |us| && us[j] == w;
      assert i == j || i < j || j < i;
    }
  }

  lemma FirstRowHit(c: Contract, clean: string -> string, m: Matrix, ps: seq<Patch>, u: Update)
    requires ValidContract(c) && GoodScope(ps) && u in PlanOf(c, clean, m, ps) && u.row == 0
    ensures m != [] && WriteAll(m, PlanOf(c, clean, m, ps))[0] == SetCell(m[0], c.sizePos, u.value)
    ensures DistinctRows(PlanOf(c, clean, m, ps))
  {
    var us := PlanOf(c, clean, m, ps);
    var i :| 0 <= i < |us| && us[i] == u;
    PlanHitsDistinctBlankCells(c, clean, m, ps);
    UpdateRow(c, clean, m, ps, i);
    RowHit(m, us, i, c.sizePos);
  }

  /** The column mapping survives the write if and only if that is so. */
  lemma MappingStaysIff(c: Contract, clean: string -> string, m: Matrix, ps: seq<Patch>)
    requires ValidContract(c) && GoodScope(ps)
    ensures MapOf(c, WriteAll(m, PlanOf(c, clean, m, ps))) == MapOf(c, m) <==> KeepsMapping(c, clean, m, ps)
  {
    var us := PlanOf(c, clean, m, ps);
    if m != [] {
      if MapOf(c, m).header {
        HeaderStays(c, clean, m, ps);
      } else if u :| u in us && u.row == 0 {
        FirstRowHit(c, clean, m, ps, u);
        OneUpdatePerRow(us, u);
      } else {
        RowNotHit(m, us, 0);
      }
    }
  }

  lemma {:induction false} NonBlankHas(row: seq<string>, i: nat)
    requires i < |row| && row[i] != ""
    ensures row[i] in NonBlank(row)
  {
    if i < |row| - 1 {
      NonBlankHas(row[..|row| - 1], i);
    }
  }

  /** So it survives whenever no patch writes the text of a header. */
  lemma SizesKeepMapping(c: Contract, clean: string -> string, m: Matrix, ps: seq<Patch>)
    requires ValidContract(c) && GoodScope(ps)
    requires forall p :: 0 <= p < |ps| ==> ps[p].value !in c.headers
    ensures KeepsMapping(c, clean, m, ps)
  {
    var us, v := PlanOf(c, clean, m, ps), ViewOf(c, clean, m);
    forall u | u in us && u.row == 0 && m != [] ensures !Completes(c, m[0], u.value) {
      var i :| 0 <= i < |us| && us[i] == u;
      var p := UpdateSource(v.rows, m, v.sizeCol, WriteColumn(c), ps, i);
      NoHeaderText(c.headers, SetCell(m[0], c.sizePos, u.value), c.sizePos);
    }
  }

  lemma NoHeaderText(headers: seq<string>, row: seq<string>, col: nat)
    requires col < |headers| && col < |row| && row[col] != "" && row[col] !in headers
    ensures !Resolve(headers, row).header
  {
    NonBlankHas(row, col);
    assert headers[col] in headers;
  }

  lemma {:induction false} UnblockedAt(rows: map<string, nat>, m: Matrix, sizeCol: nat, ps: seq<Patch>, i: nat)
    requires InRange(rows, m) && i < |ps| && Unblocked(rows, m, sizeCol, ps)
    ensures Decide(rows, m, sizeCol, ps[i]).Fill? || Decide(rows, m, sizeCol, ps[i]).Current?
  {
    if i < |ps| - 1 {
      UnblockedAt(rows, m, sizeCol, ps[..|ps| - 1], i);
    }
  }

  lemma {:induction false} NothingLeft(rows: map<string, nat>, m: Matrix, sizeCol: nat, column: string, ps: seq<Patch>)
    requires InRange(rows, m) && forall i :: 0 <= i < |ps| ==> Decide(rows, m, sizeCol, ps[i]).Current?
    ensures Updates(rows, m, sizeCol, column, ps) == [] && Unblocked(rows, m, sizeCol, ps)
  {
    if ps != [] {
      NothingLeft(rows, m, sizeCol, column, ps[..|ps| - 1]);
    }
  }

  lemma {:induction false} UpdateOf(
    rows: map<string, nat>, m: Matrix, sizeCol: nat, column: string, ps: seq<Patch>, p: nat)
    returns (i: nat)
    requires InRange(rows, m) && p < |ps| && Decide(rows, m, sizeCol, ps[p]).Fill?
    ensures i < |Updates(rows, m, sizeCol, column, ps)|
    ensures Updates(rows, m, sizeCol, column, ps)[i] == Update(ps[p].key, rows[ps[p].key], column, ps[p].value)
  {
    var init := ps[..|ps| - 1];
    if p < |init| {
      i := UpdateOf(rows, m, sizeCol, column, init, p);
    } else {
      i := |Updates(rows, m, sizeCol, column, init)|;
    }
  }

  /** When the column read is the column written, replanning finds nothing to do and nothing in the
      way, even if a key stands on several rows. */
  lemma ReplanIsEmpty(c: Contract, clean: string -> string, m: Matrix, ps: seq<Patch>)
    requires ValidContract(c) && NoBlockers(c, clean, m, ps)
    requires MapOf(c, WriteAll(m, PlanOf(c, clean, m, ps))) == MapOf(c, m)
    requires MapOf(c, m).columns[c.sizePos] == c.sizePos
    ensures var after := WriteAll(m, PlanOf(c, clean, m, ps));
            PlanOf(c, clean, after, ps) == [] && NoBlockers(c, clean, after, ps)
  {
    var us, v := PlanOf(c, clean, m, ps), ViewOf(c, clean, m);
    var after := WriteAll(m, us);
    ViewStays(c, clean, m, ps);
    ViewHasOneKeyPerRow(c, clean, m);
    PlanHitsDistinctBlankCells(c, clean, m, ps);
    forall p | 0 <= p < |ps| ensures Decide(v.rows, after, v.sizeCol, ps[p]).Current? {
      UnblockedAt(v.rows, m, v.sizeCol, ps, p);
      if Decide(v.rows, m, v.sizeCol, ps[p]).Fill? {
        var i := UpdateOf(v.rows, m, v.sizeCol, WriteColumn(c), ps, p);
        RowHit(m, us, i, c.sizePos);
        assert Cell(after[us[i].row], c.sizePos) == ps[p].value;
      } else {
        CurrentRowNotHit(c, clean, m, ps, p);
      }
    }
    NothingLeft(v.rows, after, v.sizeCol, WriteColumn(c), ps);
  }

  lemma CurrentRowNotHit(c: Contract, clean: string -> string, m: Matrix, ps: seq<Patch>, p: nat)
    requires ValidContract(c) && GoodScope(ps) && p < |ps|
    requires Decide(ViewOf(c, clean, m).rows, m, ViewOf(c, clean, m).sizeCol, ps[p]).Current?
    ensures var row := ViewOf(c, clean, m).rows[ps[p].key];
            WriteAll(m, PlanOf(c, clean, m, ps))[row] == m[row]
  {
    var us, v := PlanOf(c, clean, m, ps), ViewOf(c, clean, m);
    var row := v.rows[ps[p].key];
    ViewHasOneKeyPerRow(c, clean, m);
    forall i | 0 <= i < |us| ensures us[i].row != row {
      var q := UpdateSource(v.rows, m, v.sizeCol, WriteColumn(c), ps, i);
      assert p != q;
      assert ps[p].key != ps[q].key;
    }
    RowNotHit(m, us, row);
  }

  lemma {:induction false} SameDecisions(
    rows: map<string, nat>, m: Matrix, m': Matrix, sizeCol: nat, column: string, ps: seq<Patch>)
    requires InRange(rows, m) && |m| == |m'|
    requires forall r :: 0 <= r < |m| ==> Cell(m'[r], sizeCol) == Cell(m[r], sizeCol)
    ensures InRange(rows, m')
    ensures Updates(rows, m', sizeCol, column, ps) == Updates(rows, m, sizeCol, column, ps)
  {
    if ps != [] {
      SameDecisions(rows, m, m', sizeCol, column, ps[..|ps| - 1]);
    }
  }

  /** When it is not, because a blank column stands before MY_SIZE in the header row, the same plan comes
      back after every write. */
  lemma MisplacedPlanRepeats(c: Contract, clean: string -> string, m: Matrix, ps: seq<Patch>)
    requires ValidContract(c) && GoodScope(ps)
    requires MapOf(c, WriteAll(m, PlanOf(c, clean, m, ps))) == MapOf(c, m)
    requires MapOf(c, m).columns[c.sizePos] != c.sizePos && MapOf(c, m).columns[c.keyPos] != c.sizePos
    ensures PlanOf(c, clean, WriteAll(m, PlanOf(c, clean, m, ps)), ps) == PlanOf(c, clean, m, ps)
  {
    var us, v := PlanOf(c, clean, m, ps), ViewOf(c, clean, m);
    var after := WriteAll(m, us);
    ViewStays(c, clean, m, ps);
    forall r | 0 <= r < |m| ensures Cell(after[r], v.sizeCol) == Cell(m[r], v.sizeCol) {
      PlannedRow(c, clean, m, ps, r);
      FilledRowReads(m[r], after[r], c.sizePos, v.sizeCol);
    }
    SameDecisions(v.rows, m, after, v.sizeCol, WriteColumn(c), ps);
  }

  /** The contract headers with one blank column put in. */
  function WithBlank(headers: seq<string>, k: nat): seq<string>
    requires k <= |headers|
  {
    headers[..k] + [""] + headers[k..]
  }

  /** The contract column that a sheet column of such a row holds. */
  function Shifted(i: nat, k: nat): nat {
    if i < k then i else i + 1
  }

  function FirstShifted(n: nat, k: nat): (r: seq<nat>)
    ensures |r| == n && forall i :: 0 <= i < n ==> r[i] == Shifted(i, k)
  {
    if n == 0 then [] else FirstShifted(n - 1, k) + [Shifted(n - 1, k)]
  }

  lemma {:induction false} ScanWithBlank(headers: seq<string>, k: nat, j: nat)
    requires k <= |headers| && "" !in headers && j <= |headers| + 1
    ensures var row, n := WithBlank(headers, k)[..j], if j <= k then j else j - 1;
            NonBlank(row) == headers[..n] && NonBlankAt(row) == FirstShifted(n, k)
  {
    if j > 0 {
      ScanWithBlank(headers, k, j - 1);
      var all := WithBlank(headers, k);
      var row := all[..j];
      assert row[..j - 1] == all[..j - 1];
      if j <= k {
        ScanOne(headers, k, row, j - 1);
      } else if j > k + 1 {
        ScanOne(headers, k, row, j - 2);
      }
    }
  }

  lemma ScanOne(headers: seq<string>, k: nat, row: seq<string>, n: nat)
    requires n < |headers| && "" !in headers && |row| == Shifted(n, k) + 1 && row[|row| - 1] == headers[n]
    requires NonBlank(row[..|row| - 1]) == headers[..n] && NonBlankAt(row[..|row| - 1]) == FirstShifted(n, k)
    ensures NonBlank(row) == headers[..n + 1] && NonBlankAt(row) == FirstShifted(n + 1, k)
  {
    assert headers[..n + 1] == headers[..n] + [headers[n]];
    assert headers[n] in headers;
  }

  /** One blank column in front of MY_SIZE is enough: the header is still recognised, the sizes are read
      one column to the right of where they are written. */
  lemma BlankColumnMisplaces(c: Contract, m: Matrix, k: nat)
    requires ValidContract(c) && "" !in c.headers && k <= c.sizePos
    requires m != [] && m[0] == WithBlank(c.headers, k)
    ensures MapOf(c, m).header && MapOf(c, m).columns[c.sizePos] == c.sizePos + 1
    ensures MapOf(c, m).columns[c.keyPos] == if c.keyPos < k then c.keyPos else c.keyPos + 1
  {
    var row := m[0];
    ScanWithBlank(c.headers, k, |c.headers| + 1);
    assert row[..|c.headers| + 1] == row && c.headers[..|c.headers|] == c.headers;
    assert row[k] == "" != c.headers[k];
    assert !(c.headers <= row) && !(row <= c.headers);
  }

  /** Where the key stands behind MY_SIZE, as in the shipped contract, no header row makes the written
      column the key's. */
  lemma KeyColumnIsNeverWritten(c: Contract, m: Matrix)
    requires ValidContract(c) && c.sizePos < c.keyPos
    ensures MapOf(c, m).columns[c.keyPos] != c.sizePos
  {
    ColumnsOnlyShiftRight(MapOf(c, m).columns, c.sizePos);
    assert MapOf(c, m).columns[c.sizePos] < MapOf(c, m).columns[c.keyPos];
  }

  lemma {:induction false} ColumnsOnlyShiftRight(columns: seq<nat>, i: nat)
    requires i < |columns| && forall j, k :: 0 <= j < k < |columns| ==> columns[j] < columns[k]
    ensures i <= columns[i]
  {
    if i > 0 {
      ColumnsOnlyShiftRight(columns, i - 1);
    }
  }

  lemma ShiftedFill()
    ensures var c, ps := Contract(["K", "S"], 0, 1), [Patch(true, "k", "v")];
            NoBlockers(c, Same, ShiftedBoard("k"), ps)
            && PlanOf(c, Same, ShiftedBoard("k"), ps) == [Update("k", 2, "B", "v")]
  {
    var c, p, m := Contract(["K", "S"], 0, 1), Patch(true, "k", "v"), ShiftedBoard("k");
    ShiftedView(c, "k");
    assert ViewOf(c, Same, m) == View(map["k" := 2], 2);
    assert Decide(map["k" := 2], m, 2, p) == Fill(2);
    OnePatch(map["k" := 2], m, 2, WriteColumn(c), p);
    assert WriteColumn(c) == Letters(2) == "B";
  }

  lemma ShiftedCurrent()
    ensures var c, ps := Contract(["K", "S"], 0, 1), [Patch(true, "k", "v")];
            NoBlockers(c, Same, ShiftedBoard("v"), ps) && PlanOf(c, Same, ShiftedBoard("v"), ps) == []
  {
    var c, p, m := Contract(["K", "S"], 0, 1), Patch(true, "k", "v"), ShiftedBoard("v");
    ShiftedView(c, "v");
    var rows := map["k" := 1]["v" := 2];
    assert rows["k"] == 1 && Cell(m[1], 2) == "v";
    assert Decide(rows, m, 2, p) == Current;
    OnePatch(rows, m, 2, WriteColumn(c), p);
  }

  lemma ShiftedWrite()
    ensures WriteAll(ShiftedBoard("k"), [Update("k", 2, "B", "v")]) == ShiftedBoard("v")
  {
    var u, m := Update("k", 2, "B", "v"), ShiftedBoard("k");
    assert [u][..0] == [];
    assert WriteAll(m, []) == m && WriteAll(m, [u]) == Write(m, u);
    assert "B"[..0] == "" && Decode("B") == 2;
    assert SetCell(m[2], 1, "v") == ["", "v", ""];
  }

  function ShiftedBoard(last: string): Matrix {
    [["", "K", "S"], ["", "k", "v"], ["", last, ""]]
  }

  lemma OnePatch(rows: map<string, nat>, m: Matrix, sizeCol: nat, column: string, p: Patch)
    requires InRange(rows, m)
    ensures var d := Decide(rows, m, sizeCol, p);
            && Updates(rows, m, sizeCol, column, [p])
               == (if d.Fill? then [Update(p.key, d.row, column, p.value)] else [])
            && (Unblocked(rows, m, sizeCol, [p]) <==> !d.Missing? && !d.Clash?)
  {
    assert [p][..0] == [];
  }

  function Same(s: string): string { s }

  /** What the planner sees on such a board. */
  lemma ShiftedView(c: Contract, last: string)
    requires c == Contract(["K", "S"], 0, 1) && last != ""
    ensures ViewOf(c, Same, ShiftedBoard(last)) == View(map["k" := 1][last := 2], 2)
  {
    var m := ShiftedBoard(last);
    assert m[0] == WithBlank(c.headers, 0);
    BlankColumnMisplaces(c, m, 0);
    assert m[1][1] != "" && m[2][1] != "";
    assert RowOfKey(m, 1, 1, Same, 1) == map[];
    assert RowOfKey(m, 1, 1, Same, 2) == map["k" := 1];
    assert RowOfKey(m, 1, 1, Same, 3) == map["k" := 1][last := 2];
  }

  // ---------------------------------------------------------------- apply and read back

  datatype Gate = Blocked | AlreadyCurrent | Verified | ReadbackFailed

  class OpsBoard {
    var cells: Matrix

    constructor (cells: Matrix)
      ensures this.cells == cells
    {
      this.cells := cells;
    }

    /** The apply branch of `main`. */
    method Apply(c: Contract, clean: string -> string, ps: seq<Patch>) returns (gate: Gate)
      requires ValidContract(c)
      modifies this
      ensures gate.Blocked? <==> !NoBlockers(c, clean, old(cells), ps)
      ensures gate.Blocked? || gate.AlreadyCurrent? ==> cells == old(cells)
      ensures !gate.Blocked? ==> cells == WriteAll(old(cells), PlanOf(c, clean, old(cells), ps))
      ensures !gate.Blocked? ==> (gate.AlreadyCurrent? <==> PlanOf(c, clean, old(cells), ps) == [])
      // The readback is a second plan, and passes if and only if that finds nothing to do.
      ensures gate.Verified? || gate.ReadbackFailed? ==>
                (gate.Verified? <==> NoBlockers(c, clean, cells, ps) && PlanOf(c, clean, cells, ps) == [])
      // That is the case if and only if MY_SIZE is read where it is written, as long as the write
      // does not fall on the key column, which it cannot where the key stands behind MY_SIZE, and does not
      // turn a first row that is none into a header.
      ensures !gate.Blocked? ==> (MapOf(c, cells) == MapOf(c, old(cells)) <==> KeepsMapping(c, clean, old(cells), ps))
      ensures (gate.Verified? || gate.ReadbackFailed?) && KeepsMapping(c, clean, old(cells), ps)
              && (c.sizePos < c.keyPos || MapOf(c, old(cells)).columns[c.keyPos] != c.sizePos) ==>
                (gate.Verified? <==> MapOf(c, old(cells)).columns[c.sizePos] == c.sizePos)
    {
      ghost var was := cells;
      var updates, blockers := Plan(c, clean, cells, ps);
      if blockers != [] {
        return Blocked;
      }
      MappingStaysIff(c, clean, was, ps);
      if updates == [] {
        return AlreadyCurrent;
      }
      cells := WriteAll(cells, updates);
      var again, unmet := Plan(c, clean, cells, ps);
      if c.sizePos < c.keyPos {
        KeyColumnIsNeverWritten(c, was);
      }
      if MapOf(c, cells) == MapOf(c, was) && MapOf(c, was).columns[c.keyPos] != c.sizePos {
        if MapOf(c, was).columns[c.sizePos] == c.sizePos {
          ReplanIsEmpty(c, clean, was, ps);
        } else {
          MisplacedPlanRepeats(c, clean, was, ps);
        }
      }
      gate := if unmet == [] && again == [] then Verified else ReadbackFailed;
    }
  }

  /** Where the key stands in front, the write can fall on it: the last row loses its key, an earlier row
      of the key already has the size, and the readback finds nothing left to do. */
  method OverwrittenKeyFoolsReadback() returns (gate: Gate, after: Matrix)
    ensures gate.Verified? && after == ShiftedBoard("v")
  {
    var board := new OpsBoard(ShiftedBoard("k"));
    ShiftedFill();
    ShiftedWrite();
    ShiftedCurrent();
    gate := board.Apply(Contract(["K", "S"], 0, 1), Same, [Patch(true, "k", "v")]);
    after := board.cells;
  }
}
