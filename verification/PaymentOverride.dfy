/** The payment override of scripts/apply_opex_owner_input_schedule.py: a manifest whose obligations
    each supersede named schedule rows.

    `notes` of an inserted row is a function of its obligation and the manifest, so it travels with the
    obligation. */
module PaymentOverride {
  import opened Wrappers
  import opened Permutations
  import opened ScheduleRows

  datatype Selector = Selector(date: int, refId: string, amount: int)

  datatype Obligation = Obligation(
    complete: bool, date: int, amount: int, kind: string, refId: string, notes: string,
    loan: bool, withdrawal: Option<int>, supersedes: seq<Selector>)

  datatype Manifest = Manifest(
    windowStart: int, windowEnd: int, obligations: seq<Obligation>, expectedCount: int, expectedTotal: int)

  predicate Selects(s: Selector, row: Row) {
    row.date == s.date && row.refId == s.refId && row.amount == s.amount
  }

  // ---------------------------------------------------------------- selectors

  function MatchCount(rows: seq<Row>, s: Selector): nat {
    if rows == [] then 0 else MatchCount(rows[..|rows| - 1], s) + (if Selects(s, rows[|rows| - 1]) then 1 else 0)
  }

  predicate Selected(ss: seq<Selector>, row: Row) {
    exists k :: 0 <= k < |ss| && Selects(ss[k], row)
  }

  function Kept(rows: seq<Row>, ss: seq<Selector>): seq<Row> {
    if rows == [] then []
    else
      var init, last := Kept(rows[..|rows| - 1], ss), rows[|rows| - 1];
      if Selected(ss, last) then init else init + [last]
  }

  /** Selectors are pairwise distinct and each names exactly one row. */
  ghost predicate Exact(rows: seq<Row>, ss: seq<Selector>) {
    && (forall i, j :: 0 <= i < j < |ss| ==> ss[i] != ss[j])
    && forall i :: 0 <= i < |ss| ==> MatchCount(rows, ss[i]) == 1
  }

  /** Row `k`, and no other, has the date, ref id and amount that the selector gives. */
  ghost predicate NamesOnly(rows: seq<Row>, s: Selector, k: nat) {
    && k < |rows| && rows[k].date == s.date && rows[k].refId == s.refId && rows[k].amount == s.amount
    && forall j :: 0 <= j < |rows| && j != k ==>
         !(rows[j].date == s.date && rows[j].refId == s.refId && rows[j].amount == s.amount)
  }

  ghost predicate NamesOne(rows: seq<Row>, s: Selector) {
    exists k: nat :: NamesOnly(rows, s, k)
  }

  lemma {:induction false} NoneCounted(rows: seq<Row>, s: Selector)
    ensures MatchCount(rows, s) == 0 <==> forall k :: 0 <= k < |rows| ==> !Selects(s, rows[k])
  {
    if rows != [] {
      NoneCounted(rows[..|rows| - 1], s);
    }
  }

  lemma {:induction false} CountIsOneIff(rows: seq<Row>, s: Selector)
    ensures MatchCount(rows, s) == 1 <==> NamesOne(rows, s)
  {
    if rows != [] {
      var init := rows[..|rows| - 1];
      CountIsOneIff(init, s);
      NoneCounted(init, s);
      if Selects(s, rows[|init|]) {
        assert MatchCount(init, s) == 0 ==> NamesOnly(rows, s, |init|);
      } else {
        forall k: nat ensures NamesOnly(rows, s, k) <==> NamesOnly(init, s, k) {
        }
      }
    }
  }

  /** `matched` is the index set of the rows the selectors so far took out. */
  ghost predicate Marks(rows: seq<Row>, ss: seq<Selector>, matched: set<int>) {
    && (forall i :: i in matched ==> 0 <= i < |rows|)
    && forall i :: 0 <= i < |rows| ==> (i in matched <==> Selected(ss, rows[i]))
  }

  function Free(rows: seq<Row>, matched: set<int>, s: Selector, n: nat): (r: seq<int>)
    requires n <= |rows|
    ensures forall k :: 0 <= k < |r| ==> 0 <= r[k] < n && r[k] !in matched && Selects(s, rows[r[k]])
    ensures forall i :: 0 <= i < n && i !in matched && Selects(s, rows[i]) ==> i in r
  {
    if n == 0 then []
    else
      var rest := Free(rows, matched, s, n - 1);
      if n - 1 !in matched && Selects(s, rows[n - 1]) then rest + [n - 1] else rest
  }

  lemma {:induction false} FreeCounts(rows: seq<Row>, ss: seq<Selector>, matched: set<int>, s: Selector, n: nat)
    requires Marks(rows, ss, matched) && n <= |rows|
    ensures |Free(rows, matched, s, n)| == if s in ss then 0 else MatchCount(rows[..n], s)
  {
    if n > 0 {
      FreeCounts(rows, ss, matched, s, n - 1);
      assert rows[..n][..n - 1] == rows[..n - 1];
      if Selects(s, rows[n - 1]) {
        SelectedByItsKey(ss, s, rows[n - 1]);
      }
    }
  }

  lemma SelectedByItsKey(ss: seq<Selector>, s: Selector, row: Row)
    requires Selects(s, row)
    ensures Selected(ss, row) <==> s in ss
  {
    if k :| 0 <= k < |ss| && Selects(ss[k], row) {
      assert ss[k] == s;
    }
  }

  /** One selector: the index of the one free row it matches, or a refusal. */
  method MatchOne(rows: seq<Row>, matched: set<int>, s: Selector, ghost done: seq<Selector>) returns (r: Option<int>)
    requires Marks(rows, done, matched)
    ensures r.Some? <==> s !in done && MatchCount(rows, s) == 1
    ensures r.Some? ==> 0 <= r.value < |rows| && r.value !in matched && Selects(s, rows[r.value])
    ensures r.Some? ==> forall i :: 0 <= i < |rows| && Selects(s, rows[i]) ==> i == r.value
  {
    var matches := Free(rows, matched, s, |rows|);
    FreeCounts(rows, done, matched, s, |rows|);
    assert rows[..|rows|] == rows;
    if |matches| != 1 {
      return None;
    }
    forall i | 0 <= i < |rows| && Selects(s, rows[i]) ensures i == matches[0] {
      SelectedByItsKey(done, s, rows[i]);
    }
    r := Some(matches[0]);
  }

  lemma ExactOneMore(rows: seq<Row>, done: seq<Selector>, s: Selector)
    requires Exact(rows, done)
    ensures Exact(rows, done + [s]) <==> s !in done && MatchCount(rows, s) == 1
  {
    if Exact(rows, done + [s]) {
      assert (done + [s])[|done|] == s;
      assert forall k :: 0 <= k < |done| ==> (done + [s])[k] == done[k];
    }
  }

  lemma {:induction false} ExactPrefix(rows: seq<Row>, a: seq<Selector>, b: seq<Selector>)
    requires Exact(rows, a + b)
    ensures Exact(rows, a)
  {
    assert forall i :: 0 <= i < |a| ==> (a + b)[i] == a[i];
  }

  lemma MarksOneMore(rows: seq<Row>, done: seq<Selector>, matched: set<int>, s: Selector, i: int)
    requires Marks(rows, done, matched)
    requires 0 <= i < |rows| && Selects(s, rows[i])
    requires forall k :: 0 <= k < |rows| && Selects(s, rows[k]) ==> k == i
    ensures Marks(rows, done + [s], matched + {i})
  {
    forall k | 0 <= k < |rows| ensures k in matched + {i} <==> Selected(done + [s], rows[k]) {
      if Selected(done, rows[k]) {
        var p :| 0 <= p < |done| && Selects(done[p], rows[k]);
        assert Selects((done + [s])[p], rows[k]);
      }
      if k == i {
        assert Selects((done + [s])[|done|], rows[k]);
      }
      if p :| 0 <= p < |done + [s]| && Selects((done + [s])[p], rows[k]) {
        assert p == |done| || Selects(done[p], rows[k]);
      }
    }
  }

  // ---------------------------------------------------------------- what is kept and what is removed

  lemma {:induction false} KeptUnchanged(rows: seq<Row>, done: seq<Selector>, s: Selector)
    requires forall i :: 0 <= i < |rows| ==> !Selects(s, rows[i])
    ensures Kept(rows, done + [s]) == Kept(rows, done)
  {
    if rows != [] {
      KeptUnchanged(rows[..|rows| - 1], done, s);
      SelectedOneMore(done, s, rows[|rows| - 1]);
    }
  }

  lemma SelectedOneMore(done: seq<Selector>, s: Selector, row: Row)
    ensures Selected(done + [s], row) <==> Selected(done, row) || Selects(s, row)
  {
    if k :| 0 <= k < |done| && Selects(done[k], row) {
      assert Selects((done + [s])[k], row);
    }
    if Selects(s, row) {
      assert Selects((done + [s])[|done|], row);
    }
    if k :| 0 <= k < |done + [s]| && Selects((done + [s])[k], row) {
      assert k == |done| || Selects(done[k], row);
    }
  }

  /** One more selector takes exactly the row it names out of what is kept. */
  lemma {:induction false} KeptLosesTheRow(rows: seq<Row>, done: seq<Selector>, s: Selector, i: nat)
    requires i < |rows| && Selects(s, rows[i]) && !Selected(done, rows[i])
    requires forall k :: 0 <= k < |rows| && Selects(s, rows[k]) ==> k == i
    ensures multiset(Kept(rows, done)) == multiset(Kept(rows, done + [s])) + multiset{rows[i]}
  {
    var init, last := rows[..|rows| - 1], rows[|rows| - 1];
    SelectedOneMore(done, s, last);
    if i == |rows| - 1 {
      KeptUnchanged(init, done, s);
    } else {
      KeptLosesTheRow(init, done, s, i);
    }
  }

  lemma {:induction false} KeptOfNothing(rows: seq<Row>)
    ensures Kept(rows, []) == rows
  {
    if rows != [] {
      KeptOfNothing(rows[..|rows| - 1]);
    }
  }

  /** What is kept is what no selector describes. */
  lemma {:induction false} KeptMeaning(rows: seq<Row>, ss: seq<Selector>, row: Row)
    ensures row in Kept(rows, ss) <==> row in rows && Selector(row.date, row.refId, row.amount) !in ss
  {
    if rows != [] {
      KeptMeaning(rows[..|rows| - 1], ss, row);
      var last := rows[|rows| - 1];
      SelectedByItsKey(ss, Selector(last.date, last.refId, last.amount), last);
      assert rows == rows[..|rows| - 1] + [last];
    }
  }

  /** Kept rows and removed rows are the original rows. */
  ghost predicate Splits(rows: seq<Row>, ss: seq<Selector>, removed: seq<Row>) {
    multiset(rows) == multiset(Kept(rows, ss)) + multiset(removed)
  }

  lemma SplitsOneMore(rows: seq<Row>, done: seq<Selector>, removed: seq<Row>, s: Selector, i: nat)
    requires Splits(rows, done, removed)
    requires i < |rows| && Selects(s, rows[i]) && !Selected(done, rows[i])
    requires forall k :: 0 <= k < |rows| && Selects(s, rows[k]) ==> k == i
    ensures Splits(rows, done + [s], removed + [rows[i]])
  {
    KeptLosesTheRow(rows, done, s, i);
  }

  // ---------------------------------------------------------------- the manifest

  function Flat(obs: seq<Obligation>): seq<Selector> {
    if obs == [] then [] else Flat(obs[..|obs| - 1]) + obs[|obs| - 1].supersedes
  }

  function InsertedRow(o: Obligation): Row { Row(o.date, o.refId, o.amount, o.kind, o.notes) }

  function Inserted(obs: seq<Obligation>): (r: seq<Row>)
    ensures |r| == |obs| && forall i :: 0 <= i < |obs| ==> r[i] == InsertedRow(obs[i])
  {
    if obs == [] then [] else Inserted(obs[..|obs| - 1]) + [InsertedRow(obs[|obs| - 1])]
  }

  /** The checks on one obligation alone. */
  predicate ValidObligation(m: Manifest, o: Obligation) {
    && o.complete && o.refId != "" && o.supersedes != []
    && m.windowStart <= o.date <= m.windowEnd
    && o.amount > 0 && o.kind == "OPEX"
    && (o.loan ==> o.withdrawal.Some? && o.withdrawal.value - o.date >= 1)
  }

  predicate Loadable(m: Manifest) {
    && m.obligations != [] && |m.obligations| == m.expectedCount
    && Sum(Inserted(m.obligations)) == m.expectedTotal
    && m.windowStart <= m.windowEnd
  }

  predicate FreshRef(rows: seq<Row>, obs: seq<Obligation>, refId: string) {
    && (forall i :: 0 <= i < |obs| ==> obs[i].refId != refId)
    && forall k :: 0 <= k < |rows| ==> rows[k].refId != refId
  }

  ghost predicate AllFresh(rows: seq<Row>, obs: seq<Obligation>) {
    forall i :: 0 <= i < |obs| ==> FreshRef(rows, obs[..i], obs[i].refId)
  }

  /** What the loop over obligations demands of all of them together. */
  ghost predicate Acceptable(m: Manifest, rows: seq<Row>, obs: seq<Obligation>) {
    && (forall i :: 0 <= i < |obs| ==> ValidObligation(m, obs[i]))
    && AllFresh(rows, obs) && Exact(rows, Flat(obs))
  }

  lemma AcceptableOneMore(m: Manifest, rows: seq<Row>, obs: seq<Obligation>, o: Obligation)
    ensures Acceptable(m, rows, obs + [o])
            <==> Acceptable(m, rows, obs) && ValidObligation(m, o) && FreshRef(rows, obs, o.refId)
                 && Exact(rows, Flat(obs) + o.supersedes)
  {
    var all := obs + [o];
    assert all[..|obs|] == obs && all[|obs|] == o;
    if Acceptable(m, rows, all) {
      forall i | 0 <= i < |obs| ensures ValidObligation(m, obs[i]) && FreshRef(rows, obs[..i], obs[i].refId) {
        assert all[i] == obs[i] && all[..i] == obs[..i];
      }
      ExactPrefix(rows, Flat(obs), o.supersedes);
    } else if Acceptable(m, rows, obs) && ValidObligation(m, o) && FreshRef(rows, obs, o.refId)
              && Exact(rows, Flat(obs) + o.supersedes) {
      forall i | 0 <= i < |all| ensures ValidObligation(m, all[i]) && FreshRef(rows, all[..i], all[i].refId) {
        if i < |obs| {
          assert all[i] == obs[i] && all[..i] == obs[..i];
        }
      }
    }
  }

  lemma {:induction false} AcceptablePrefix(m: Manifest, rows: seq<Row>, obs: seq<Obligation>, n: nat)
    requires Acceptable(m, rows, obs) && n <= |obs|
    ensures Acceptable(m, rows, obs[..n])
    decreases |obs|
  {
    if n < |obs| {
      var init := obs[..|obs| - 1];
      assert obs == init + [obs[|obs| - 1]];
      AcceptableOneMore(m, rows, init, obs[|obs| - 1]);
      AcceptablePrefix(m, rows, init, n);
      assert init[..n] == obs[..n];
    } else {
      assert obs[..n] == obs;
    }
  }

  /** An obligation the manifest may hold: complete, inside the window, a positive OPEX amount, and for a
      loan payment a bank withdrawal at least a day later. */
  ghost predicate Permissible(m: Manifest, o: Obligation) {
    && o.complete && o.refId != "" && |o.supersedes| > 0
    && !(o.date < m.windowStart) && !(o.date > m.windowEnd) && !(o.amount <= 0) && o.kind == "OPEX"
    && (!o.loan || exists day :: o.withdrawal == Some(day) && o.date < day)
  }

  /** Ref ids that no row has and no two obligations share. */
  ghost predicate NewRefs(rows: seq<Row>, obs: seq<Obligation>) {
    && (forall i, j :: 0 <= i < j < |obs| ==> obs[i].refId != obs[j].refId)
    && forall i, k :: 0 <= i < |obs| && 0 <= k < |rows| ==> rows[k].refId != obs[i].refId
  }

  /** Selectors that are pairwise different and name one row each. */
  ghost predicate OneRowEach(rows: seq<Row>, ss: seq<Selector>) {
    && (forall i, j :: 0 <= i < j < |ss| ==> ss[i] != ss[j])
    && forall i :: 0 <= i < |ss| ==> NamesOne(rows, ss[i])
  }

  /** A manifest is refused as a whole without obligations, on a count or total other than the declared one, or
      with a window that ends before it starts. The loop accepts the obligations exactly when each is
      permissible, the ref ids are new and pairwise different, and the selectors are pairwise different and each
      names exactly one row. */
  lemma AcceptableMeaning(m: Manifest, rows: seq<Row>, obs: seq<Obligation>)
    ensures !Loadable(m) <==>
            || |m.obligations| == 0 || |m.obligations| != m.expectedCount || m.windowEnd < m.windowStart
            || Sum(Inserted(m.obligations)) != m.expectedTotal
    ensures Acceptable(m, rows, obs) <==>
              && (forall o :: o in obs ==> Permissible(m, o))
              && NewRefs(rows, obs) && OneRowEach(rows, Flat(obs))
  {
    forall i | 0 <= i < |obs| ensures ValidObligation(m, obs[i]) <==> Permissible(m, obs[i]) {
      ValidMeaning(m, obs[i]);
    }
    ExactInWords(rows, Flat(obs));
    FreshInWords(rows, obs);
  }

  lemma ValidMeaning(m: Manifest, o: Obligation)
    ensures ValidObligation(m, o) <==> Permissible(m, o)
  {
    if o.withdrawal.Some? {
      assert o.withdrawal == Some(o.withdrawal.value);
    }
  }

  lemma ExactInWords(rows: seq<Row>, ss: seq<Selector>)
    ensures Exact(rows, ss) <==> OneRowEach(rows, ss)
  {
    forall i | 0 <= i < |ss| ensures MatchCount(rows, ss[i]) == 1 <==> NamesOne(rows, ss[i]) {
      CountIsOneIff(rows, ss[i]);
    }
  }

  lemma FreshInWords(rows: seq<Row>, obs: seq<Obligation>)
    ensures AllFresh(rows, obs) <==> NewRefs(rows, obs)
  {
    if AllFresh(rows, obs) {
      forall i, j | 0 <= i < j < |obs| ensures obs[i].refId != obs[j].refId {
        assert FreshRef(rows, obs[..j], obs[j].refId) && obs[..j][i] == obs[i];
      }
      forall i, k | 0 <= i < |obs| && 0 <= k < |rows| ensures rows[k].refId != obs[i].refId {
        assert FreshRef(rows, obs[..i], obs[i].refId);
      }
    }
  }

  datatype OverrideError =
    | BadManifest
    | BadObligation(index: nat)
    | RefNotUnique(index: nat)
    | PreimageMismatch(index: nat)

  /** The state of the selector loops after the selectors `done`. */
  ghost predicate Progress(rows: seq<Row>, done: seq<Selector>, matched: set<int>, removed: seq<Row>) {
    Exact(rows, done) && Marks(rows, done, matched) && Splits(rows, done, removed) && Describe(done, removed)
  }

  /** The removed rows are those the selectors describe, selector by selector. */
  ghost predicate Describe(ss: seq<Selector>, removed: seq<Row>) {
    if ss == [] || removed == [] then ss == [] && removed == []
    else
      var s, row := ss[|ss| - 1], removed[|removed| - 1];
      && row.date == s.date && row.refId == s.refId && row.amount == s.amount
      && Describe(ss[..|ss| - 1], removed[..|removed| - 1])
  }

  lemma DescribeOneMore(ss: seq<Selector>, removed: seq<Row>, s: Selector, row: Row)
    requires Describe(ss, removed) && Selects(s, row)
    ensures Describe(ss + [s], removed + [row])
  {
    assert (ss + [s])[..|ss|] == ss && (removed + [row])[..|removed|] == removed;
  }

  lemma ProgressOneMore(
    rows: seq<Row>, done: seq<Selector>, matched: set<int>, removed: seq<Row>, s: Selector, i: nat)
    requires Progress(rows, done, matched, removed)
    requires s !in done && MatchCount(rows, s) == 1
    requires i < |rows| && i !in matched && Selects(s, rows[i])
    requires forall k :: 0 <= k < |rows| && Selects(s, rows[k]) ==> k == i
    ensures Progress(rows, done + [s], matched + {i}, removed + [rows[i]])
  {
    ExactOneMore(rows, done, s);
    MarksOneMore(rows, done, matched, s, i);
    SplitsOneMore(rows, done, removed, s, i);
    DescribeOneMore(done, removed, s, rows[i]);
  }

  lemma TakeOneMore(done: seq<Selector>, ss: seq<Selector>, j: nat)
    requires j < |ss|
    ensures done + ss[..j + 1] == (done + ss[..j]) + [ss[j]]
  {
  }

  lemma SelectorTaken(
    rows: seq<Row>, done: seq<Selector>, ss: seq<Selector>, j: nat, matched: set<int>, removed: seq<Row>, i: nat)
    requires j < |ss| && Progress(rows, done + ss[..j], matched, removed)
    requires ss[j] !in done + ss[..j] && MatchCount(rows, ss[j]) == 1
    requires i < |rows| && i !in matched && Selects(ss[j], rows[i])
    requires forall k :: 0 <= k < |rows| && Selects(ss[j], rows[k]) ==> k == i
    ensures Progress(rows, done + ss[..j + 1], matched + {i}, removed + [rows[i]])
  {
    TakeOneMore(done, ss, j);
    ProgressOneMore(rows, done + ss[..j], matched, removed, ss[j], i);
  }

  lemma SelectorRefused(rows: seq<Row>, done: seq<Selector>, ss: seq<Selector>, j: nat)
    requires j < |ss| && Exact(rows, done + ss[..j])
    requires !(ss[j] !in done + ss[..j] && MatchCount(rows, ss[j]) == 1)
    ensures !Exact(rows, done + ss)
  {
    var so := done + ss[..j];
    ExactOneMore(rows, so, ss[j]);
    assert done + ss == (so + [ss[j]]) + ss[j + 1..];
    if Exact(rows, done + ss) {
      ExactPrefix(rows, so + [ss[j]], ss[j + 1..]);
    }
  }

  /** The loop over one obligation's selectors. */
  method MatchAll(rows: seq<Row>, matched0: set<int>, removed0: seq<Row>, ss: seq<Selector>, ghost done: seq<Selector>)
    returns (ok: bool, matched: set<int>, removed: seq<Row>)
    requires Progress(rows, done, matched0, removed0)
    ensures ok <==> Exact(rows, done + ss)
    ensures ok ==> Progress(rows, done + ss, matched, removed)
  {
    matched, removed := matched0, removed0;
    assert done + ss[..0] == done;
    for j := 0 to |ss|
      invariant Progress(rows, done + ss[..j], matched, removed)
    {
      var i := MatchOne(rows, matched, ss[j], done + ss[..j]);
      if i.None? {
        SelectorRefused(rows, done, ss, j);
        return false, matched, removed;
      }
      SelectorTaken(rows, done, ss, j, matched, removed, i.value);
      matched := matched + {i.value};
      removed := removed + [rows[i.value]];
    }
    assert ss[..|ss|] == ss;
    ok := true;
  }

  /** `[row for index, row in enumerate(rows) if index not in matched_indexes]` */
  method Unmatched(rows: seq<Row>, matched: set<int>, ghost ss: seq<Selector>) returns (kept: seq<Row>)
    requires Marks(rows, ss, matched)
    ensures kept == Kept(rows, ss)
  {
    kept := [];
    for i := 0 to |rows|
      invariant kept == Kept(rows[..i], ss)
    {
      assert rows[..i + 1][..i] == rows[..i];
      if i !in matched {
        kept := kept + [rows[i]];
      }
    }
    assert rows[..|rows|] == rows;
  }

  datatype Override = Override(output: seq<Row>, removed: seq<Row>, inserted: seq<Row>)

  /** One obligation: its own checks, its ref id, its selectors. */
  method TakeObligation(rows: seq<Row>, m: Manifest, k: nat, matched0: set<int>, removed0: seq<Row>)
    returns (error: Option<OverrideError>, matched: set<int>, removed: seq<Row>)
    requires k < |m.obligations| && Acceptable(m, rows, m.obligations[..k])
    requires Progress(rows, Flat(m.obligations[..k]), matched0, removed0)
    ensures error.None? <==> Acceptable(m, rows, m.obligations[..k + 1])
    ensures error.None? ==> Progress(rows, Flat(m.obligations[..k + 1]), matched, removed)
  {
    matched, removed := matched0, removed0;
    var obs, o := m.obligations, m.obligations[k];
    assert obs[..k + 1] == obs[..k] + [o];
    AcceptableOneMore(m, rows, obs[..k], o);
    FlatLast(obs[..k], o);
    if !ValidObligation(m, o) {
      return Some(BadObligation(k)), matched, removed;
    }
    if !FreshRef(rows, obs[..k], o.refId) {
      return Some(RefNotUnique(k)), matched, removed;
    }
    var ok;
    ok, matched, removed := MatchAll(rows, matched, removed, o.supersedes, Flat(obs[..k]));
    error := if ok then None else Some(PreimageMismatch(k));
  }

  lemma NothingTakenYet(m: Manifest, rows: seq<Row>)
    ensures Acceptable(m, rows, []) && Progress(rows, Flat([]), {}, [])
  {
    KeptOfNothing(rows);
  }

  /** `_apply_payment_override_manifest`. It succeeds exactly when the manifest loads, every obligation
      is valid with a ref id of its own, and the selectors are pairwise distinct and each names exactly
      one row of the original schedule. */
  method ApplyOverride(rows: seq<Row>, m: Manifest) returns (r: Result<Override, OverrideError>)
    ensures r.Ok? <==> Loadable(m) && Acceptable(m, rows, m.obligations)
    ensures r.Ok? ==>
              && r.value.inserted == Inserted(m.obligations)
              && r.value.output == Sort(Kept(rows, Flat(m.obligations)) + r.value.inserted)
              && Splits(rows, Flat(m.obligations), r.value.removed)
              && Describe(Flat(m.obligations), r.value.removed)
  {
    if !Loadable(m) {
      return Err(BadManifest);
    }
    var obs := m.obligations;
    var matched, removed, inserted := {}, [], [];
    NothingTakenYet(m, rows);
    for k := 0 to |obs|
      invariant Acceptable(m, rows, obs[..k])
      invariant Progress(rows, Flat(obs[..k]), matched, removed)
      invariant inserted == Inserted(obs[..k])
    {
      var error;
      error, matched, removed := TakeObligation(rows, m, k, matched, removed);
      if error.Some? {
        if Acceptable(m, rows, obs) {
          AcceptablePrefix(m, rows, obs, k + 1);
        }
        return Err(error.value);
      }
      assert obs[..k + 1][..k] == obs[..k];
      inserted := inserted + [InsertedRow(obs[k])];
    }
    assert obs[..|obs|] == obs;
    var kept := Unmatched(rows, matched, Flat(obs));
    r := Ok(Override(Sort(kept + inserted), removed, inserted));
  }

  /** The schedule of an accepted manifest: the rows no selector describes, and one row for each obligation
      with its date, ref id, amount, type and notes. */
  lemma OverrideRows(rows: seq<Row>, m: Manifest)
    ensures var inserted := Inserted(m.obligations);
            && |inserted| == |m.obligations|
            && (forall i :: 0 <= i < |inserted| ==>
                  var row, o := inserted[i], m.obligations[i];
                  && row.date == o.date && row.refId == o.refId && row.amount == o.amount && row.kind == o.kind
                  && row.notes == o.notes)
            && forall row :: row in Sort(Kept(rows, Flat(m.obligations)) + inserted) <==>
                 || row in inserted
                 || (row in rows && Selector(row.date, row.refId, row.amount) !in Flat(m.obligations))
  {
    var ss, inserted := Flat(m.obligations), Inserted(m.obligations);
    var all := Kept(rows, ss) + inserted;
    SortedAnew(all);
    SameElements(Sort(all), all);
    forall row
      ensures row in all <==> row in inserted || (row in rows && Selector(row.date, row.refId, row.amount) !in ss)
    {
      KeptMeaning(rows, ss, row);
    }
  }

  lemma SortedAnew(rows: seq<Row>)
    ensures Sorted(Sort(rows)) && multiset(Sort(rows)) == multiset(rows) && Sum(Sort(rows)) == Sum(rows)
  {
    FoldSorted([], rows);
    FoldContents([], rows);
    SumPermuted(Sort(rows), rows);
  }

  /** The published schedule is the original one with the removed rows replaced by the inserted ones,
      in order, and its total moves by the declared total less what was removed. */
  lemma OverrideConserves(rows: seq<Row>, m: Manifest, removed: seq<Row>)
    requires Loadable(m) && Splits(rows, Flat(m.obligations), removed)
    ensures var output := Sort(Kept(rows, Flat(m.obligations)) + Inserted(m.obligations));
            && Sorted(output)
            && multiset(output) + multiset(removed) == multiset(rows) + multiset(Inserted(m.obligations))
            && Sum(output) == Sum(rows) - Sum(removed) + m.expectedTotal
  {
    var kept, ins := Kept(rows, Flat(m.obligations)), Inserted(m.obligations);
    SortedAnew(kept + ins);
    SumConcat(kept, ins);
    SumPermuted(rows, kept + removed);
    SumConcat(kept, removed);
  }

  // ---------------------------------------------------------------- the order of obligations is irrelevant

  lemma Associative<T>(a: seq<T>, b: seq<T>, c: seq<T>)
    ensures (a + b) + c == a + (b + c)
  {
  }

  lemma {:induction false} FlatConcat(a: seq<Obligation>, b: seq<Obligation>)
    ensures Flat(a + b) == Flat(a) + Flat(b)
  {
    if b == [] {
      assert a + b == a;
    } else {
      var init, last := b[..|b| - 1], b[|b| - 1];
      FlatConcat(a, init);
      FlatLast(a + init, last);
      assert a + b == (a + init) + [last];
      Associative(Flat(a), Flat(init), last.supersedes);
    }
  }

  lemma FlatLast(obs: seq<Obligation>, o: Obligation)
    ensures Flat(obs + [o]) == Flat(obs) + o.supersedes
  {
    assert (obs + [o])[..|obs|] == obs;
  }

  lemma InsertedLast(obs: seq<Obligation>, o: Obligation)
    ensures Inserted(obs + [o]) == Inserted(obs) + [InsertedRow(o)]
  {
    assert (obs + [o])[..|obs|] == obs;
  }

  lemma {:induction false} InsertedConcat(a: seq<Obligation>, b: seq<Obligation>)
    ensures Inserted(a + b) == Inserted(a) + Inserted(b)
  {
  }

  lemma FlatWithout(pre: seq<Obligation>, x: Obligation, suf: seq<Obligation>)
    ensures multiset(Flat(pre + [x] + suf)) == multiset(Flat(pre + suf)) + multiset(x.supersedes)
  {
    FlatConcat(pre, suf);
    FlatConcat(pre + [x], suf);
    FlatLast(pre, x);
    Regroup(multiset(Flat(pre)), multiset(x.supersedes), multiset(Flat(suf)));
  }

  lemma InsertedWithout(pre: seq<Obligation>, x: Obligation, suf: seq<Obligation>)
    ensures multiset(Inserted(pre + [x] + suf)) == multiset(Inserted(pre + suf)) + multiset{InsertedRow(x)}
  {
    InsertedConcat(pre, suf);
    InsertedConcat(pre + [x], suf);
    InsertedLast(pre, x);
    Regroup(multiset(Inserted(pre)), multiset{InsertedRow(x)}, multiset(Inserted(suf)));
  }

  lemma {:induction false} FlatPermuted(a: seq<Obligation>, b: seq<Obligation>)
    requires multiset(a) == multiset(b)
    ensures multiset(Flat(a)) == multiset(Flat(b))
    decreases |b|
  {
    SameElements(a, b);
    if b != [] {
      var pre, suf := TakeOut(a, b);
      FlatWithout(pre, b[|b| - 1], suf);
      FlatPermuted(pre + suf, b[..|b| - 1]);
    }
  }

  lemma {:induction false} InsertedPermuted(a: seq<Obligation>, b: seq<Obligation>)
    requires multiset(a) == multiset(b)
    ensures multiset(Inserted(a)) == multiset(Inserted(b))
    decreases |b|
  {
    SameElements(a, b);
    if b != [] {
      var pre, suf := TakeOut(a, b);
      InsertedWithout(pre, b[|b| - 1], suf);
      InsertedPermuted(pre + suf, b[..|b| - 1]);
    }
  }

  lemma {:induction false} KeptDependsOnSet(rows: seq<Row>, ss: seq<Selector>, tt: seq<Selector>)
    requires forall s :: s in ss <==> s in tt
    ensures Kept(rows, ss) == Kept(rows, tt)
  {
    if rows != [] {
      KeptDependsOnSet(rows[..|rows| - 1], ss, tt);
      var last := rows[|rows| - 1];
      var s := Selector(last.date, last.refId, last.amount);
      SelectedByItsKey(ss, s, last);
      SelectedByItsKey(tt, s, last);
    }
  }

  lemma ExactPermuted(rows: seq<Row>, ss: seq<Selector>, tt: seq<Selector>)
    requires multiset(ss) == multiset(tt) && Exact(rows, ss)
    ensures Exact(rows, tt)
  {
    SameElements(ss, tt);
    assert NoRepeat(ss);
    assert NoRepeat(tt);
    forall i | 0 <= i < |tt| ensures MatchCount(rows, tt[i]) == 1 {
      assert tt[i] in ss;
    }
  }

  ghost predicate RefsFresh(rows: seq<Row>, obs: seq<Obligation>) {
    && (forall o, p :: o in obs && p in obs && o != p ==> o.refId != p.refId)
    && NoRepeat(obs)
    && forall o, k :: o in obs && 0 <= k < |rows| ==> rows[k].refId != o.refId
  }

  lemma FreshMeansDistinct(rows: seq<Row>, obs: seq<Obligation>)
    ensures AllFresh(rows, obs) <==> RefsFresh(rows, obs)
  {
    if AllFresh(rows, obs) {
      forall i, j | 0 <= i < j < |obs| ensures obs[i].refId != obs[j].refId {
        assert FreshRef(rows, obs[..j], obs[j].refId) && obs[..j][i] == obs[i];
      }
      forall o, k | o in obs && 0 <= k < |rows| ensures rows[k].refId != o.refId {
        var i :| 0 <= i < |obs| && obs[i] == o;
        assert FreshRef(rows, obs[..i], obs[i].refId);
      }
    }
    if RefsFresh(rows, obs) {
      forall i | 0 <= i < |obs| ensures FreshRef(rows, obs[..i], obs[i].refId) {
        forall j | 0 <= j < i ensures obs[..i][j].refId != obs[i].refId {
          assert obs[j] != obs[i] && obs[j] in obs && obs[i] in obs;
        }
        assert obs[i] in obs;
      }
    }
  }

  lemma AcceptablePermuted(m: Manifest, rows: seq<Row>, a: seq<Obligation>, b: seq<Obligation>)
    requires multiset(a) == multiset(b) && Acceptable(m, rows, a)
    ensures Acceptable(m, rows, b)
  {
    SameElements(a, b);
    FreshMeansDistinct(rows, a);
    FreshMeansDistinct(rows, b);
    FlatPermuted(a, b);
    ExactPermuted(rows, Flat(a), Flat(b));
    forall i | 0 <= i < |b| ensures ValidObligation(m, b[i]) {
      assert b[i] in a;
    }
  }

  /** Listing the obligations in another order changes nothing: the same manifests are accepted, and
      the published schedule is the same list, row by row. */
  lemma ObligationOrderIrrelevant(rows: seq<Row>, m: Manifest, obs: seq<Obligation>)
    requires multiset(obs) == multiset(m.obligations)
    requires Loadable(m) && Acceptable(m, rows, m.obligations)
    ensures Loadable(m.(obligations := obs)) && Acceptable(m.(obligations := obs), rows, obs)
    ensures Sort(Kept(rows, Flat(obs)) + Inserted(obs))
            == Sort(Kept(rows, Flat(m.obligations)) + Inserted(m.obligations))
  {
    SameElements(m.obligations, obs);
    InsertedPermuted(m.obligations, obs);
    SumPermuted(Inserted(m.obligations), Inserted(obs));
    AcceptablePermuted(m, rows, m.obligations, obs);
    SameManifest(m, rows, obs);
    FlatPermuted(m.obligations, obs);
    SameElements(Flat(m.obligations), Flat(obs));
    KeptDependsOnSet(rows, Flat(m.obligations), Flat(obs));
    InsertedKeysDiffer(m, rows);
    var kept := Kept(rows, Flat(obs));
    FoldConcat([], kept, Inserted(obs));
    FoldConcat([], kept, Inserted(m.obligations));
    FoldPermuted(Fold([], kept), Inserted(m.obligations), Inserted(obs));
  }

  lemma SameManifest(m: Manifest, rows: seq<Row>, obs: seq<Obligation>)
    requires Acceptable(m, rows, obs)
    ensures Acceptable(m.(obligations := obs), rows, obs)
  {
    forall i | 0 <= i < |obs| ensures ValidObligation(m.(obligations := obs), obs[i]) {
      assert ValidObligation(m, obs[i]);
    }
  }

  lemma InsertedKeysDiffer(m: Manifest, rows: seq<Row>)
    requires Acceptable(m, rows, m.obligations)
    ensures DistinctKeys(Inserted(m.obligations))
  {
    var obs := m.obligations;
    forall i, j | 0 <= i < j < |obs| ensures !SameKey(Inserted(obs)[i], Inserted(obs)[j]) {
      assert FreshRef(rows, obs[..j], obs[j].refId) && obs[..j][i] == obs[i];
    }
  }

  // ---------------------------------------------------------------- publishing the schedule

  /** The rows a publication replaces: OPEX commitments on or after the boundary. */
  predicate Replaceable(boundary: int, row: Row) {
    row.kind == "OPEX" && row.date >= boundary
  }

  function History(boundary: int, table: seq<Row>): seq<Row> {
    if table == [] then []
    else
      var init, last := History(boundary, table[..|table| - 1]), table[|table| - 1];
      if Replaceable(boundary, last) then init else init + [last]
  }

  lemma {:induction false} HistoryRows(boundary: int, table: seq<Row>)
    ensures forall row :: row in History(boundary, table) <==>
              row in table && (row.kind != "OPEX" || row.date < boundary)
  {
    if table != [] {
      HistoryRows(boundary, table[..|table| - 1]);
      assert table == table[..|table| - 1] + [table[|table| - 1]];
    }
  }

  class Commitments {
    var rows: seq<Row>

    constructor (initial: seq<Row>)
      ensures rows == initial
    {
      rows := initial;
    }

    /** The DELETE and the INSERT loop of `apply_opex_owner_input_schedule`. */
    method Publish(boundary: int, schedule: seq<Row>) returns (deleted: nat, inserted: nat)
      modifies this
      ensures rows == History(boundary, old(rows)) + schedule
      ensures deleted == |old(rows)| - |History(boundary, old(rows))| && inserted == |schedule|
      ensures forall row :: row in rows <==>
                row in schedule || (row in old(rows) && (row.kind != "OPEX" || row.date < boundary))
    {
      var kept := [];
      for i := 0 to |rows|
        invariant rows == old(rows) && kept == History(boundary, rows[..i])
        invariant |kept| <= i
      {
        assert rows[..i + 1][..i] == rows[..i];
        if !Replaceable(boundary, rows[i]) {
          kept := kept + [rows[i]];
        }
      }
      assert rows[..|rows|] == rows;
      deleted := |rows| - |kept|;
      rows, inserted := kept, 0;
      for i := 0 to |schedule|
        invariant rows == kept + schedule[..i] && inserted == i
      {
        rows := rows + [schedule[i]];
        inserted := inserted + 1;
      }
      HistoryRows(boundary, old(rows));
    }
  }

  lemma {:induction false} HistoryConcat(boundary: int, a: seq<Row>, b: seq<Row>)
    ensures History(boundary, a + b) == History(boundary, a) + History(boundary, b)
  {
    if b == [] {
      assert a + b == a;
    } else {
      HistoryConcat(boundary, a, b[..|b| - 1]);
      assert (a + b)[..|a + b| - 1] == a + b[..|b| - 1];
    }
  }

  lemma {:induction false} HistoryIsStable(boundary: int, table: seq<Row>)
    ensures History(boundary, History(boundary, table)) == History(boundary, table)
  {
    if table != [] {
      var init, last := History(boundary, table[..|table| - 1]), table[|table| - 1];
      HistoryIsStable(boundary, table[..|table| - 1]);
      if !Replaceable(boundary, last) {
        assert (init + [last])[..|init|] == init;
      }
    }
  }

  lemma {:induction false} NoHistoryIffReplaceable(boundary: int, schedule: seq<Row>)
    ensures History(boundary, schedule) == []
            <==> forall i :: 0 <= i < |schedule| ==> Replaceable(boundary, schedule[i])
  {
    if schedule != [] {
      NoHistoryIffReplaceable(boundary, schedule[..|schedule| - 1]);
    }
  }

  /** Publishing the same schedule twice equals publishing it once exactly when every row of it is OPEX
      and dated on or after the boundary; otherwise the rows that are not would pile up. */
  lemma PublishTwiceIffReplaceable(boundary: int, table: seq<Row>, schedule: seq<Row>)
    ensures var once := History(boundary, table) + schedule;
            History(boundary, once) + schedule == once
            <==> forall row :: row in schedule ==> row.kind == "OPEX" && row.date >= boundary
  {
    var h := History(boundary, table);
    HistoryConcat(boundary, h, schedule);
    HistoryIsStable(boundary, table);
    NoHistoryIffReplaceable(boundary, schedule);
    assert |History(boundary, h + schedule) + schedule| == |h| + |History(boundary, schedule)| + |schedule|;
    if History(boundary, schedule) == [] {
      assert h + [] == h;
    }
  }

  /** What a publication never touches stays, in order, ahead of the new rows. */
  lemma PublishKeepsHistory(boundary: int, table: seq<Row>, schedule: seq<Row>)
    ensures History(boundary, table) <= History(boundary, table) + schedule
    ensures History(boundary, History(boundary, table) + schedule)
            == History(boundary, table) + History(boundary, schedule)
  {
    HistoryConcat(boundary, History(boundary, table), schedule);
    HistoryIsStable(boundary, table);
  }
}
