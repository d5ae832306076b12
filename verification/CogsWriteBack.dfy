/** The write-back of scripts/apply_sales_fact_v2_cogs_identity_repair.py and the unique key of its table.
    `sales_fact_v2` is declared with UNIQUE(order_id, sku_id, store_code, kaspi_offer_name), which migration
    032 drops; the script runs on either table. */
module CogsWriteBack {
  import opened Wrappers
  import opened CogsIdentity
  import opened CogsCollisions

  // ---------------------------------------------------------------- _apply_candidates

  function SetIdentity(row: SaleRow, c: Candidate): SaleRow {
    if row.saleId == c.saleId
    then row.(skuKey := c.newSkuKey, skuId := c.newSkuId, mySize := c.newSize, cogs := None, profit := None)
    else row
  }

  function UpdateOne(rows: seq<SaleRow>, c: Candidate): (r: seq<SaleRow>)
    ensures |r| == |rows| && forall k :: 0 <= k < |rows| ==> r[k] == SetIdentity(rows[k], c)
  {
    seq(|rows|, k requires 0 <= k < |rows| => SetIdentity(rows[k], c))
  }

  function RowCount(rows: seq<SaleRow>, id: int): nat {
    if rows == [] then 0 else RowCount(rows[..|rows| - 1], id) + (if rows[|rows| - 1].saleId == id then 1 else 0)
  }

  lemma {:induction false} NoRowCount(rows: seq<SaleRow>, id: int)
    requires forall k :: 0 <= k < |rows| ==> rows[k].saleId != id
    ensures RowCount(rows, id) == 0
  {
    if rows != [] {
      NoRowCount(rows[..|rows| - 1], id);
    }
  }

  lemma {:induction false} OneRowCount(rows: seq<SaleRow>, k: nat)
    requires Keyed(rows) && k < |rows|
    ensures RowCount(rows, rows[k].saleId) == 1
  {
    var init := rows[..|rows| - 1];
    if k < |init| {
      OneRowCount(init, k);
    } else {
      NoRowCount(init, rows[k].saleId);
    }
  }

  /** The row a list of candidates leaves: the identity of the candidate that names it. */
  ghost predicate Rewritten(rows: seq<SaleRow>, cs: seq<Candidate>, r: seq<SaleRow>) {
    && |r| == |rows|
    && (forall k :: 0 <= k < |rows| && !HasSale(cs, rows[k].saleId) ==> r[k] == rows[k])
    && forall k, c :: 0 <= k < |rows| && c in cs && c.saleId == rows[k].saleId ==> r[k] == SetIdentity(rows[k], c)
  }

  /** In words: a row that a candidate names has its new identity and neither cost nor profit any more; its
      sale, order, store and offer stay, and so does every row that no candidate names. */
  lemma RewrittenMeaning(rows: seq<SaleRow>, cs: seq<Candidate>, r: seq<SaleRow>, k: nat)
    requires k < |rows| && Rewritten(rows, cs, r)
    ensures r[k].saleId == rows[k].saleId && r[k].orderId == rows[k].orderId && r[k].store == rows[k].store
    ensures r[k].offer == rows[k].offer
    ensures forall c :: c in cs && c.saleId == rows[k].saleId ==>
              && r[k].skuKey == c.newSkuKey && r[k].skuId == c.newSkuId && r[k].mySize == c.newSize
              && r[k].cogs == None && r[k].profit == None
    ensures (forall c :: c in cs ==> c.saleId != rows[k].saleId) ==> r[k] == rows[k]
  {
    if HasSale(cs, rows[k].saleId) {
      var c :| c in cs && c.saleId == rows[k].saleId;
    }
  }

  lemma RewrittenOneMore(rows: seq<SaleRow>, cs: seq<Candidate>, r: seq<SaleRow>, c: Candidate)
    requires Rewritten(rows, cs, r) && !HasSale(cs, c.saleId)
    ensures Rewritten(rows, cs + [c], UpdateOne(r, c))
  {
    var next := UpdateOne(r, c);
    assert c in cs + [c];
    assert forall d :: d in cs ==> d in cs + [c];
    forall k | 0 <= k < |rows| && !HasSale(cs + [c], rows[k].saleId) ensures next[k] == rows[k] {
    }
    forall k, d | 0 <= k < |rows| && d in cs + [c] && d.saleId == rows[k].saleId
      ensures next[k] == SetIdentity(rows[k], d)
    {
    }
  }

  lemma RewrittenKeepsIds(rows: seq<SaleRow>, cs: seq<Candidate>, r: seq<SaleRow>, k: nat)
    requires Rewritten(rows, cs, r) && k < |rows|
    ensures r[k].saleId == rows[k].saleId
  {
    if HasSale(cs, rows[k].saleId) {
      var c :| c in cs && c.saleId == rows[k].saleId;
    }
  }

  lemma CountAfter(rows: seq<SaleRow>, cs: seq<Candidate>, r: seq<SaleRow>, id: int)
    requires Keyed(rows) && Rewritten(rows, cs, r)
    requires exists k :: 0 <= k < |rows| && rows[k].saleId == id
    ensures RowCount(r, id) == 1
  {
    forall k | 0 <= k < |rows| ensures r[k].saleId == rows[k].saleId {
      RewrittenKeepsIds(rows, cs, r, k);
    }
    var k :| 0 <= k < |rows| && rows[k].saleId == id;
    OneRowCount(r, k);
  }

  ghost predicate OnTable(rows: seq<SaleRow>, cs: seq<Candidate>) {
    forall c :: c in cs ==> exists k :: 0 <= k < |rows| && rows[k].saleId == c.saleId
  }

  /** What UNIQUE(order_id, sku_id, store_code, kaspi_offer_name) compares: the stored values as they are;
      a NULL store code equals nothing. */
  predicate Clash(a: SaleRow, b: SaleRow) {
    a.store.Some? && a.store == b.store && a.orderId == b.orderId && a.skuId == b.skuId && a.offer == b.offer
  }

  ghost predicate NoClash(rows: seq<SaleRow>) {
    forall i, j :: 0 <= i < j < |rows| ==> !Clash(rows[i], rows[j])
  }

  /** The row of `c` takes no stored key that a row still holds which no earlier candidate rewrote. */
  ghost predicate FreeOfOthers(rows: seq<SaleRow>, earlier: seq<Candidate>, c: Candidate) {
    forall i, j ::
      0 <= i < |rows| && 0 <= j < |rows| && i != j && c.saleId == rows[i].saleId && !HasSale(earlier, rows[j].saleId)
      ==> !Clash(SetIdentity(rows[i], c), rows[j])
  }

  /** Nor one that an earlier candidate gave to its row. */
  ghost predicate ApartFrom(rows: seq<SaleRow>, earlier: seq<Candidate>, c: Candidate) {
    forall i, j, d ::
      0 <= i < |rows| && 0 <= j < |rows| && i != j && d in earlier
      && c.saleId == rows[i].saleId && d.saleId == rows[j].saleId
      ==> !Clash(SetIdentity(rows[i], c), SetIdentity(rows[j], d))
  }

  /** The updates go through under the constraint, one after another in this order: new keys are distinct, and
      none is taken while a row that comes later, or not at all, still holds it. */
  ghost predicate Applicable(rows: seq<SaleRow>, cs: seq<Candidate>) {
    cs == []
    || (var earlier, c := cs[..|cs| - 1], cs[|cs| - 1];
        Applicable(rows, earlier) && FreeOfOthers(rows, earlier, c) && ApartFrom(rows, earlier, c))
  }

  lemma ApplicableOneMore(rows: seq<SaleRow>, cs: seq<Candidate>, n: nat)
    requires n < |cs|
    ensures Applicable(rows, cs[..n + 1]) <==>
            Applicable(rows, cs[..n]) && FreeOfOthers(rows, cs[..n], cs[n]) && ApartFrom(rows, cs[..n], cs[n])
  {
    assert cs[..n + 1][..n] == cs[..n];
  }

  lemma {:induction false} StaysInapplicable(rows: seq<SaleRow>, cs: seq<Candidate>, n: nat, m: nat)
    requires n <= m <= |cs| && !Applicable(rows, cs[..n])
    ensures !Applicable(rows, cs[..m])
    decreases m
  {
    if n < m {
      StaysInapplicable(rows, cs, n, m - 1);
      ApplicableOneMore(rows, cs, m - 1);
    }
  }

  /** SQLite's test of one UPDATE: another row has the key that the row would take. */
  predicate Rejected(r: seq<SaleRow>, c: Candidate) {
    exists i, j ::
      0 <= i < |r| && 0 <= j < |r| && i != j && r[i].saleId == c.saleId && Clash(SetIdentity(r[i], c), r[j])
  }

  lemma HeldNow(rows: seq<SaleRow>, earlier: seq<Candidate>, r: seq<SaleRow>, c: Candidate, i: nat, j: nat)
    requires Rewritten(rows, earlier, r) && !HasSale(earlier, c.saleId)
    requires i < |rows| && j < |rows| && i != j && rows[i].saleId == c.saleId
    requires FreeOfOthers(rows, earlier, c) && ApartFrom(rows, earlier, c)
    ensures !Clash(SetIdentity(r[i], c), r[j])
  {
    if HasSale(earlier, rows[j].saleId) {
      var d :| d in earlier && d.saleId == rows[j].saleId;
      assert r[j] == SetIdentity(rows[j], d);
    }
  }

  /** An update is rejected exactly when its key is held by a row not rewritten before, or was given to one
      that was. */
  lemma RejectedIff(rows: seq<SaleRow>, earlier: seq<Candidate>, r: seq<SaleRow>, c: Candidate)
    requires Rewritten(rows, earlier, r) && !HasSale(earlier, c.saleId)
    ensures Rejected(r, c) <==> !(FreeOfOthers(rows, earlier, c) && ApartFrom(rows, earlier, c))
  {
    forall k | 0 <= k < |rows| ensures r[k].saleId == rows[k].saleId {
      RewrittenKeepsIds(rows, earlier, r, k);
    }
    if FreeOfOthers(rows, earlier, c) && ApartFrom(rows, earlier, c) {
      forall i, j | 0 <= i < |r| && 0 <= j < |r| && i != j && r[i].saleId == c.saleId
        ensures !Clash(SetIdentity(r[i], c), r[j])
      {
        HeldNow(rows, earlier, r, c, i, j);
      }
    } else if !FreeOfOthers(rows, earlier, c) {
      var i, j :| 0 <= i < |rows| && 0 <= j < |rows| && i != j && c.saleId == rows[i].saleId
                  && !HasSale(earlier, rows[j].saleId) && Clash(SetIdentity(rows[i], c), rows[j]);
      assert r[i] == rows[i] && r[j] == rows[j];
    } else {
      var i, j, d :| 0 <= i < |rows| && 0 <= j < |rows| && i != j && d in earlier
                     && c.saleId == rows[i].saleId && d.saleId == rows[j].saleId
                     && Clash(SetIdentity(rows[i], c), SetIdentity(rows[j], d));
      assert r[i] == rows[i] && r[j] == SetIdentity(rows[j], d);
    }
  }

  /** Update `n` is the first that the constraint rejects. */
  ghost predicate FirstRejected(rows: seq<SaleRow>, cs: seq<Candidate>, n: nat) {
    n < |cs| && Applicable(rows, cs[..n]) && !Applicable(rows, cs[..n + 1])
  }

  /** `_apply_candidates`, on a table that still has its UNIQUE constraint or on one whose constraint was
      dropped. The constraint stops the loop at the first update it rejects, and nothing is committed. */
  method ApplyCandidates(constrained: bool, rows: seq<SaleRow>, cs: seq<Candidate>)
    returns (r: seq<SaleRow>, count: Result<nat, nat>)
    requires Keyed(rows) && DistinctSales(cs)
    requires OnTable(rows, cs)
    ensures count.Ok? <==> (constrained ==> Applicable(rows, cs))
    ensures count.Ok? ==> Rewritten(rows, cs, r) && count.value == |cs|
    ensures count.Err? ==> r == rows && FirstRejected(rows, cs, count.error)
  {
    r := rows;
    var updated := 0;
    for n := 0 to |cs|
      invariant Rewritten(rows, cs[..n], r) && updated == n
      invariant constrained ==> Applicable(rows, cs[..n])
    {
      NextUpdate(rows, cs, n, r);
      if constrained && Rejected(r, cs[n]) {
        StaysInapplicable(rows, cs, n + 1, |cs|);
        assert cs[..|cs|] == cs;
        return rows, Err(n);
      }
      updated := updated + RowCount(r, cs[n].saleId);
      r := UpdateOne(r, cs[n]);
    }
    assert cs[..|cs|] == cs;
    count := Ok(updated);
  }

  lemma NextRewritten(rows: seq<SaleRow>, cs: seq<Candidate>, n: nat, r: seq<SaleRow>)
    requires DistinctSales(cs) && n < |cs| && Rewritten(rows, cs[..n], r)
    ensures Rewritten(rows, cs[..n + 1], UpdateOne(r, cs[n]))
  {
    assert cs[..n + 1] == cs[..n] + [cs[n]];
    RewrittenOneMore(rows, cs[..n], r, cs[n]);
  }

  lemma NextUpdate(rows: seq<SaleRow>, cs: seq<Candidate>, n: nat, r: seq<SaleRow>)
    requires Keyed(rows) && DistinctSales(cs) && n < |cs| && Rewritten(rows, cs[..n], r)
    requires OnTable(rows, cs)
    ensures RowCount(r, cs[n].saleId) == 1
    ensures Rewritten(rows, cs[..n + 1], UpdateOne(r, cs[n]))
    ensures Applicable(rows, cs[..n]) ==> (Rejected(r, cs[n]) <==> !Applicable(rows, cs[..n + 1]))
  {
    assert cs[n] in cs;
    CountAfter(rows, cs[..n], r, cs[n].saleId);
    NextRewritten(rows, cs, n, r);
    RejectedIff(rows, cs[..n], r, cs[n]);
    ApplicableOneMore(rows, cs, n);
  }

  /** The table after the updates, one after another. */
  function TableAfter(rows: seq<SaleRow>, cs: seq<Candidate>): seq<SaleRow> {
    if cs == [] then rows else UpdateOne(TableAfter(rows, cs[..|cs| - 1]), cs[|cs| - 1])
  }

  lemma TableOneMore(rows: seq<SaleRow>, cs: seq<Candidate>, n: nat)
    requires n < |cs|
    ensures TableAfter(rows, cs[..n + 1]) == UpdateOne(TableAfter(rows, cs[..n]), cs[n])
  {
    assert cs[..n + 1][..n] == cs[..n];
  }

  lemma NothingRewritten(rows: seq<SaleRow>)
    ensures Rewritten(rows, [], TableAfter(rows, []))
  {
  }

  lemma {:induction false} TableAfterIsRewritten(rows: seq<SaleRow>, cs: seq<Candidate>, n: nat)
    requires DistinctSales(cs) && n <= |cs|
    ensures Rewritten(rows, cs[..n], TableAfter(rows, cs[..n]))
  {
    if n == 0 {
      NothingRewritten(rows);
      assert cs[..0] == [];
    } else {
      TableAfterIsRewritten(rows, cs, n - 1);
      NextRewritten(rows, cs, n - 1, TableAfter(rows, cs[..n - 1]));
      TableOneMore(rows, cs, n - 1);
    }
  }

  lemma IdsDiffer(rows: seq<SaleRow>, i: nat, j: nat)
    requires Keyed(rows) && i < |rows| && j < |rows| && i != j
    ensures rows[i].saleId != rows[j].saleId
  {
    assert i < j || j < i;
  }

  lemma UpdateKeepsUnique(r: seq<SaleRow>, c: Candidate)
    requires Keyed(r) && NoClash(r)
    ensures NoClash(UpdateOne(r, c)) <==> !Rejected(r, c)
  {
    var next := UpdateOne(r, c);
    if Rejected(r, c) {
      var i, j :| 0 <= i < |r| && 0 <= j < |r| && i != j && r[i].saleId == c.saleId
                  && Clash(SetIdentity(r[i], c), r[j]);
      IdsDiffer(r, i, j);
      assert Clash(next[i], next[j]) && Clash(next[j], next[i]);
      assert i < j || j < i;
    } else {
      forall i, j | 0 <= i < j < |r| ensures !Clash(next[i], next[j]) {
        IdsDiffer(r, i, j);
        if r[i].saleId == c.saleId {
          assert !Clash(SetIdentity(r[i], c), r[j]);
        } else if r[j].saleId == c.saleId {
          assert !Clash(SetIdentity(r[j], c), r[i]);
        }
      }
    }
  }

  /** Every table on the way, up to the first `n` updates, keeps its rows apart. */
  ghost predicate EachTableUnique(rows: seq<SaleRow>, cs: seq<Candidate>, n: nat)
    requires n <= |cs|
  {
    NoClash(TableAfter(rows, cs[..n])) && (n > 0 ==> EachTableUnique(rows, cs, n - 1))
  }

  lemma {:induction false} EachTableMeans(rows: seq<SaleRow>, cs: seq<Candidate>, n: nat)
    requires n <= |cs|
    ensures EachTableUnique(rows, cs, n) <==> forall m :: 0 <= m <= n ==> NoClash(TableAfter(rows, cs[..m]))
  {
    if n > 0 {
      EachTableMeans(rows, cs, n - 1);
    }
  }

  lemma NextTable(rows: seq<SaleRow>, cs: seq<Candidate>, n: nat)
    requires Keyed(rows) && DistinctSales(cs) && n < |cs|
    requires OnTable(rows, cs)
    requires Applicable(rows, cs[..n]) && EachTableUnique(rows, cs, n)
    ensures Applicable(rows, cs[..n + 1]) <==> EachTableUnique(rows, cs, n + 1)
  {
    var r := TableAfter(rows, cs[..n]);
    TableOneMore(rows, cs, n);
    TableAfterIsRewritten(rows, cs, n);
    NextUpdate(rows, cs, n, r);
    forall k | 0 <= k < |rows| ensures r[k].saleId == rows[k].saleId {
      RewrittenKeepsIds(rows, cs[..n], r, k);
    }
    UpdateKeepsUnique(r, cs[n]);
  }

  /** The condition says what the constraint is for: the updates go through if and only if every table on
      the way keeps its rows apart. */
  lemma {:induction false} ApplicableIffEachTableUnique(rows: seq<SaleRow>, cs: seq<Candidate>, n: nat)
    requires Keyed(rows) && NoClash(rows) && DistinctSales(cs) && n <= |cs|
    requires OnTable(rows, cs)
    ensures Applicable(rows, cs[..n]) <==> EachTableUnique(rows, cs, n)
  {
    if n == 0 {
      NothingToApply(rows, cs);
    } else {
      ApplicableIffEachTableUnique(rows, cs, n - 1);
      if Applicable(rows, cs[..n - 1]) {
        NextTable(rows, cs, n - 1);
      } else {
        NextTableToo(rows, cs, n - 1);
      }
    }
  }

  lemma NothingToApply(rows: seq<SaleRow>, cs: seq<Candidate>)
    requires NoClash(rows)
    ensures Applicable(rows, cs[..0]) && EachTableUnique(rows, cs, 0)
  {
    assert cs[..0] == [];
  }

  lemma NextTableToo(rows: seq<SaleRow>, cs: seq<Candidate>, n: nat)
    requires n < |cs| && !Applicable(rows, cs[..n]) && !EachTableUnique(rows, cs, n)
    ensures !Applicable(rows, cs[..n + 1]) && !EachTableUnique(rows, cs, n + 1)
  {
    ApplicableOneMore(rows, cs, n);
  }

  // ---------------------------------------------------------------- uniqueness of the table

  predicate SameKey(norm: Norm, c: Candidate, d: Candidate) {
    KeyOf(norm, c) == KeyOf(norm, d)
  }

  ghost predicate DistinctKeys(norm: Norm, cs: seq<Candidate>) {
    forall c, d :: c in cs && d in cs && c.saleId != d.saleId ==> !SameKey(norm, c, d)
  }

  /** No target row has an empty store code, which COALESCE and `or` treat differently. */
  ghost predicate StoresSet(rows: seq<SaleRow>) {
    forall row :: row in rows ==> row.store != Some("")
  }

  ghost predicate Belong(rows: seq<SaleRow>, cs: seq<Candidate>) {
    forall c :: c in cs ==> exists k :: 0 <= k < |rows| && For(c, rows[k])
  }

  lemma RewrittenKey(norm: Norm, rows: seq<SaleRow>, cs: seq<Candidate>, r: seq<SaleRow>, k: nat, c: Candidate)
    requires Keyed(rows) && StoresSet(rows) && Belong(rows, cs) && Rewritten(rows, cs, r)
    requires k < |rows| && c in cs && c.saleId == rows[k].saleId
    ensures RowKey(norm, r[k]) == KeyOf(norm, c)
  {
    var p :| 0 <= p < |rows| && For(c, rows[p]);
    assert p == k;
    assert rows[k] in rows;
  }

  lemma OccupantIsInside(norm: Norm, rows: seq<SaleRow>, cs: seq<Candidate>, c: Candidate)
    requires !Blocked(norm, rows, cs, c) && Occupant(norm, rows, c).Some?
    ensures HasSale(cs, Occupant(norm, rows, c).value.saleId)
  {
    var i :| 0 <= i < |cs| && cs[i].saleId == Occupant(norm, rows, c).value.saleId;
    assert cs[i] in cs;
  }

  /** A row outside the repair does not share a key with a row inside it, by the second loop's check. */
  lemma OutsiderKeepsClear(norm: Norm, rows: seq<SaleRow>, cs: seq<Candidate>, c: Candidate, k: nat)
    requires UniqueKeys(norm, rows)
    requires c in cs && NoneBlocked(norm, rows, cs)
    requires k < |rows| && !HasSale(cs, rows[k].saleId)
    ensures RowKey(norm, rows[k]) != KeyOf(norm, c)
  {
    assert rows[k] in rows && rows[k].saleId != c.saleId;
    var o := Occupant(norm, rows, c);
    if o.Some? {
      OccupantIsInside(norm, rows, cs, c);
      var p :| 0 <= p < |rows| && rows[p] == o.value;
      assert RowKey(norm, rows[p]) == KeyOf(norm, c);
    }
  }

  lemma KeyOnTable(norm: Norm, rows: seq<SaleRow>, cs: seq<Candidate>, r: seq<SaleRow>, c: Candidate)
    returns (i: nat)
    requires Keyed(rows) && StoresSet(rows) && Belong(rows, cs) && Rewritten(rows, cs, r) && c in cs
    ensures i < |r| && |r| == |rows| && rows[i].saleId == c.saleId && RowKey(norm, r[i]) == KeyOf(norm, c)
  {
    var p: nat :| p < |rows| && For(c, rows[p]);
    RewrittenKey(norm, rows, cs, r, p, c);
    i := p;
  }

  lemma SharedKeyShows(norm: Norm, rows: seq<SaleRow>, cs: seq<Candidate>, r: seq<SaleRow>, c: Candidate, d: Candidate)
    requires Keyed(rows) && StoresSet(rows) && Belong(rows, cs) && Rewritten(rows, cs, r)
    requires c in cs && d in cs && c.saleId != d.saleId && SameKey(norm, c, d)
    ensures !UniqueKeys(norm, r)
  {
    var i := KeyOnTable(norm, rows, cs, r, c);
    var j := KeyOnTable(norm, rows, cs, r, d);
    assert i < j || j < i;
  }

  /** After the whole list is applied, (order, store, offer, SKU id) is unique over the table exactly
      when the candidates' own new keys are distinct and no row outside holds one of them. */
  lemma TableUniqueIff(norm: Norm, rows: seq<SaleRow>, cs: seq<Candidate>, r: seq<SaleRow>)
    requires Keyed(rows) && StoresSet(rows) && UniqueKeys(norm, rows)
    requires Belong(rows, cs) && Rewritten(rows, cs, r)
    ensures UniqueKeys(norm, r) <==> DistinctKeys(norm, cs) && NoneBlocked(norm, rows, cs)
  {
    if !DistinctKeys(norm, cs) {
      var c, d :| c in cs && d in cs && c.saleId != d.saleId && SameKey(norm, c, d);
      SharedKeyShows(norm, rows, cs, r, c, d);
    } else if !NoneBlocked(norm, rows, cs) {
      var c :| c in cs && Blocked(norm, rows, cs, c);
      HeldKeyShows(norm, rows, cs, r, c);
    } else {
      forall i, j | 0 <= i < j < |r| ensures RowKey(norm, r[i]) != RowKey(norm, r[j]) {
        KeysDiffer(norm, rows, cs, r, i, j);
      }
    }
  }

  lemma HeldKeyShows(norm: Norm, rows: seq<SaleRow>, cs: seq<Candidate>, r: seq<SaleRow>, c: Candidate)
    requires Keyed(rows) && StoresSet(rows) && Belong(rows, cs) && Rewritten(rows, cs, r)
    requires c in cs && Blocked(norm, rows, cs, c)
    ensures !UniqueKeys(norm, r)
  {
    var o := Occupant(norm, rows, c).value;
    var j :| 0 <= j < |rows| && rows[j] == o;
    var i := KeyOnTable(norm, rows, cs, r, c);
    assert !HasSale(cs, o.saleId) && r[j] == rows[j];
    assert RowKey(norm, r[i]) == RowKey(norm, r[j]);
    assert i < j || j < i;
  }

  lemma KeysDiffer(norm: Norm, rows: seq<SaleRow>, cs: seq<Candidate>, r: seq<SaleRow>, i: nat, j: nat)
    requires Keyed(rows) && StoresSet(rows) && UniqueKeys(norm, rows)
    requires Belong(rows, cs) && Rewritten(rows, cs, r) && DistinctKeys(norm, cs)
    requires NoneBlocked(norm, rows, cs)
    requires i < |rows| && j < |rows| && i != j
    ensures RowKey(norm, r[i]) != RowKey(norm, r[j])
  {
    if HasSale(cs, rows[i].saleId) && HasSale(cs, rows[j].saleId) {
      InsidersDiffer(norm, rows, cs, r, i, j);
    } else if HasSale(cs, rows[i].saleId) {
      InsiderOutsiderDiffer(norm, rows, cs, r, i, j);
    } else if HasSale(cs, rows[j].saleId) {
      InsiderOutsiderDiffer(norm, rows, cs, r, j, i);
    } else {
      assert i < j || j < i;
    }
  }

  lemma InsidersDiffer(norm: Norm, rows: seq<SaleRow>, cs: seq<Candidate>, r: seq<SaleRow>, i: nat, j: nat)
    requires Keyed(rows) && StoresSet(rows)
    requires Belong(rows, cs) && Rewritten(rows, cs, r) && DistinctKeys(norm, cs)
    requires i < |rows| && j < |rows| && i != j
    requires HasSale(cs, rows[i].saleId) && HasSale(cs, rows[j].saleId)
    ensures RowKey(norm, r[i]) != RowKey(norm, r[j])
  {
    var c :| c in cs && c.saleId == rows[i].saleId;
    var d :| d in cs && d.saleId == rows[j].saleId;
    RewrittenKey(norm, rows, cs, r, i, c);
    RewrittenKey(norm, rows, cs, r, j, d);
    assert i < j || j < i;
    assert !SameKey(norm, c, d);
  }

  lemma InsiderOutsiderDiffer(norm: Norm, rows: seq<SaleRow>, cs: seq<Candidate>, r: seq<SaleRow>, i: nat, j: nat)
    requires Keyed(rows) && StoresSet(rows) && UniqueKeys(norm, rows)
    requires Belong(rows, cs) && Rewritten(rows, cs, r) && NoneBlocked(norm, rows, cs)
    requires i < |rows| && j < |rows|
    requires HasSale(cs, rows[i].saleId) && !HasSale(cs, rows[j].saleId)
    ensures RowKey(norm, r[i]) != RowKey(norm, r[j])
  {
    var c :| c in cs && c.saleId == rows[i].saleId;
    RewrittenKey(norm, rows, cs, r, i, c);
    OutsiderKeepsClear(norm, rows, cs, c, j);
  }

  // ---------------------------------------------------------------- the missing recheck

  predicate Alone(norm: Norm, cs: seq<Candidate>, c: Candidate) {
    |Group(norm, cs, KeyOf(norm, c))| == 1
  }

  /** What a candidate's group makes of it. */
  function ResultOf(norm: Norm, sizes: SizeMap, cs: seq<Candidate>, c: Candidate): Candidate {
    if Alone(norm, cs, c) then c else Divide(sizes, c)
  }

  /** Different sizes of one SKU key have different, non-empty SKU ids. */
  ghost predicate InjectiveSizes(sizes: SizeMap) {
    && (forall k :: k in sizes ==> sizes[k] != "")
    && forall k, l :: k in sizes && l in sizes && k.0 == l.0 && k != l ==> sizes[k] != sizes[l]
  }

  /** The division of `c` takes the key that the candidate `d` of another group ends with. */
  predicate Lands(norm: Norm, sizes: SizeMap, cs: seq<Candidate>, c: Candidate, d: Candidate) {
    && !SameKey(norm, c, d) && !Alone(norm, cs, c)
    && SameKey(norm, Divide(sizes, c), ResultOf(norm, sizes, cs, d))
  }

  /** No division lands on the key of a candidate of another group. The code does not check this. */
  ghost predicate NoLanding(norm: Norm, sizes: SizeMap, cs: seq<Candidate>) {
    forall c, d :: c in cs && d in cs ==> !Lands(norm, sizes, cs, c, d)
  }

  lemma SettledIsResult(norm: Norm, sizes: SizeMap, cs: seq<Candidate>, c: Candidate, x: Candidate)
    requires SettledAs(norm, sizes, cs, c, x)
    ensures c in cs && x == ResultOf(norm, sizes, cs, c) && x.saleId == c.saleId
  {
  }

  lemma SplitSizesDiffer(sizes: SizeMap, items: seq<Candidate>, i: nat, j: nat)
    requires InjectiveSizes(sizes) && Splittable(sizes, items) && i < |items| && j < |items| && i != j
    ensures Divide(sizes, items[i]).newSkuId != Divide(sizes, items[j]).newSkuId
  {
    var c, d := items[i], items[j];
    assert SkuIdFor(sizes, c.newSkuKey, OldSizeOf(c)) == sizes[(c.newSkuKey, OldSizeOf(c))];
    assert SkuIdFor(sizes, d.newSkuKey, OldSizeOf(d)) == sizes[(d.newSkuKey, OldSizeOf(d))];
    if i < j {
      assert items[i].newSkuKey == items[j].newSkuKey && OldSizeOf(items[i]) != OldSizeOf(items[j]);
    } else {
      assert items[j].newSkuKey == items[i].newSkuKey && OldSizeOf(items[j]) != OldSizeOf(items[i]);
    }
  }

  lemma SameGroupDiffers(
    norm: Norm, sizes: SizeMap, cs: seq<Candidate>, c: Candidate, d: Candidate, x: Candidate, y: Candidate)
    requires InjectiveSizes(sizes) && c.saleId != d.saleId && SameKey(norm, c, d)
    requires SettledAs(norm, sizes, cs, c, x) && SettledAs(norm, sizes, cs, d, y)
    ensures !SameKey(norm, x, y)
  {
    var items := Group(norm, cs, KeyOf(norm, c));
    GroupMembers(norm, cs, KeyOf(norm, c));
    var i :| 0 <= i < |items| && items[i] == c;
    var j :| 0 <= j < |items| && items[j] == d;
    SplitSizesDiffer(sizes, items, i, j);
  }

  lemma AloneKeepsKey(norm: Norm, sizes: SizeMap, cs: seq<Candidate>, c: Candidate, d: Candidate)
    requires c in cs && d in cs && !SameKey(norm, c, d)
    requires !Lands(norm, sizes, cs, c, d) && !Lands(norm, sizes, cs, d, c)
    ensures !SameKey(norm, ResultOf(norm, sizes, cs, c), ResultOf(norm, sizes, cs, d))
  {
  }

  lemma NoLandingKeepsApart(
    norm: Norm, sizes: SizeMap, cs: seq<Candidate>, c: Candidate, d: Candidate, x: Candidate, y: Candidate)
    requires InjectiveSizes(sizes) && NoLanding(norm, sizes, cs)
    requires SettledAs(norm, sizes, cs, c, x) && SettledAs(norm, sizes, cs, d, y) && x.saleId != y.saleId
    ensures !SameKey(norm, x, y)
  {
    SettledIsResult(norm, sizes, cs, c, x);
    SettledIsResult(norm, sizes, cs, d, y);
    if SameKey(norm, c, d) {
      SameGroupDiffers(norm, sizes, cs, c, d, x, y);
    } else {
      AloneKeepsKey(norm, sizes, cs, c, d);
    }
  }

  lemma OneCandidatePerSale(cs: seq<Candidate>, a: Candidate, b: Candidate)
    requires DistinctSales(cs) && a in cs && b in cs && a.saleId == b.saleId
    ensures a == b
  {
  }

  lemma FinalIsResult(norm: Norm, sizes: SizeMap, cs: seq<Candidate>, final: seq<Candidate>, c: Candidate)
    requires DistinctSales(cs) && AllSettled(norm, sizes, cs, final) && c in cs && HasSale(final, c.saleId)
    ensures ResultOf(norm, sizes, cs, c) in final && ResultOf(norm, sizes, cs, c).saleId == c.saleId
  {
    var f :| f in final && f.saleId == c.saleId;
    var b :| SettledAs(norm, sizes, cs, b, f);
    SettledIsResult(norm, sizes, cs, b, f);
    OneCandidatePerSale(cs, b, c);
  }

  lemma KeysApartMeansNoLanding(norm: Norm, sizes: SizeMap, cs: seq<Candidate>, final: seq<Candidate>)
    requires DistinctSales(cs) && AllSettled(norm, sizes, cs, final) && KeepsAll(cs, final)
    requires DistinctKeys(norm, final)
    ensures NoLanding(norm, sizes, cs)
  {
    forall c, d | c in cs && d in cs ensures !Lands(norm, sizes, cs, c, d) {
      assert HasSale(final, c.saleId) && HasSale(final, d.saleId);
      FinalIsResult(norm, sizes, cs, final, c);
      FinalIsResult(norm, sizes, cs, final, d);
      if c.saleId == d.saleId {
        OneCandidatePerSale(cs, c, d);
      }
    }
  }

  lemma NoLandingMeansKeysApart(norm: Norm, sizes: SizeMap, cs: seq<Candidate>, final: seq<Candidate>)
    requires InjectiveSizes(sizes) && AllSettled(norm, sizes, cs, final) && NoLanding(norm, sizes, cs)
    ensures DistinctKeys(norm, final)
  {
    forall x, y | x in final && y in final && x.saleId != y.saleId ensures !SameKey(norm, x, y) {
      var c :| SettledAs(norm, sizes, cs, c, x);
      var d :| SettledAs(norm, sizes, cs, d, y);
      NoLandingKeepsApart(norm, sizes, cs, c, d, x, y);
    }
  }

  /** The settled keys are pairwise distinct exactly when no division lands on another group. */
  lemma KeysDistinctIffNoLanding(norm: Norm, sizes: SizeMap, cs: seq<Candidate>, final: seq<Candidate>)
    requires DistinctSales(cs) && InjectiveSizes(sizes) && AllSettled(norm, sizes, cs, final) && KeepsAll(cs, final)
    ensures DistinctKeys(norm, final) <==> NoLanding(norm, sizes, cs)
  {
    if NoLanding(norm, sizes, cs) {
      NoLandingMeansKeysApart(norm, sizes, cs, final);
    }
    if DistinctKeys(norm, final) {
      KeysApartMeansNoLanding(norm, sizes, cs, final);
    }
  }

  // ---------------------------------------------------------------- the run

  datatype RepairError = CountMismatch | ExcludedRemain(records: seq<Excluded>) | UniqueViolated(update: nat)

  lemma MadeForRows(
    targets: seq<SaleRow>, rows: seq<SaleRow>, norm: Norm, sizes: SizeMap, cs: seq<Candidate>, final: seq<Candidate>)
    requires forall t :: t in targets ==> t in rows
    requires AllMadeFor(targets, |targets|, cs) && AllSettled(norm, sizes, cs, final)
    ensures Belong(rows, final)
    ensures forall c :: c in final ==> exists p :: 0 <= p < |targets| && For(c, targets[p])
  {
    forall d | d in final
      ensures exists k :: 0 <= k < |rows| && For(d, rows[k])
      ensures exists p :: 0 <= p < |targets| && For(d, targets[p])
    {
      var c :| SettledAs(norm, sizes, cs, c, d);
      assert MadeFor(targets, |targets|, c);
      var p :| 0 <= p < |targets| && For(c, targets[p]);
      assert For(d, targets[p]) && targets[p] in rows;
      var k :| 0 <= k < |rows| && rows[k] == targets[p];
    }
  }

  lemma {:induction false} DistinctCount(ids: seq<int>)
    requires forall i, j :: 0 <= i < j < |ids| ==> ids[i] != ids[j]
    ensures |set id | id in ids| == |ids|
  {
    if ids != [] {
      var init, last := ids[..|ids| - 1], ids[|ids| - 1];
      DistinctCount(init);
      assert ids == init + [last];
      assert (set id | id in ids) == (set id | id in init) + {last};
    }
  }

  function TargetIds(targets: seq<SaleRow>): (r: seq<int>)
    ensures |r| == |targets| && forall i :: 0 <= i < |targets| ==> r[i] == targets[i].saleId
  {
    seq(|targets|, i requires 0 <= i < |targets| => targets[i].saleId)
  }

  /** A list that covers the targets, each once, is as long as the targets. */
  lemma CoverCounts(targets: seq<SaleRow>, cs: seq<Candidate>)
    requires Keyed(targets) && DistinctSales(cs)
    requires forall p :: 0 <= p < |targets| ==> HasSale(cs, targets[p].saleId)
    requires forall c :: c in cs ==> exists p :: 0 <= p < |targets| && For(c, targets[p])
    ensures |cs| == |targets|
  {
    var a, b := TargetIds(targets), SaleIds(cs);
    DistinctCount(a);
    DistinctCount(b);
    forall id | id in a ensures id in b {
      var p :| 0 <= p < |a| && a[p] == id;
      var c :| c in cs && c.saleId == targets[p].saleId;
      var j :| 0 <= j < |cs| && cs[j] == c;
      assert b[j] == id;
    }
    forall id | id in b ensures id in a {
      var j :| 0 <= j < |b| && b[j] == id;
      assert cs[j] in cs;
      var p :| 0 <= p < |targets| && For(cs[j], targets[p]);
      assert a[p] == id;
    }
    assert (set id | id in a) == (set id | id in b);
  }

  /** What a clean `build_candidates` leaves, and nothing else. */
  ghost predicate Covering(
    norm: Norm, sizes: SizeMap, targets: seq<SaleRow>, rows: seq<SaleRow>, combined: seq<Candidate>,
    final: seq<Candidate>)
  {
    && AllMadeFor(targets, |targets|, combined) && AllSettled(norm, sizes, combined, final)
    && KeepsAll(combined, final) && NoneBlocked(norm, rows, final)
    && forall p :: 0 <= p < |targets| ==> HasSale(final, targets[p].saleId)
  }

  /** Every row has a store code, spelled as the collision query compares it. */
  ghost predicate PlainStores(norm: Norm, rows: seq<SaleRow>) {
    forall row :: row in rows ==> row.store.Some? && row.store.value != "" && norm(row.store.value) == row.store.value
  }

  lemma PlainStoresClash(norm: Norm, rows: seq<SaleRow>, cs: seq<Candidate>, r: seq<SaleRow>)
    requires PlainStores(norm, rows) && Rewritten(rows, cs, r)
    ensures NoClash(r) <==> UniqueKeys(norm, r)
  {
    forall k | 0 <= k < |rows| ensures r[k].store == rows[k].store && rows[k] in rows {
      if HasSale(cs, rows[k].saleId) {
        var c :| c in cs && c.saleId == rows[k].saleId;
      }
    }
    forall i, j | 0 <= i < j < |rows| ensures Clash(r[i], r[j]) <==> RowKey(norm, r[i]) == RowKey(norm, r[j]) {
    }
  }

  /** The keys after a run that rewrote everything: unique if and only if there was no landing. */
  lemma CleanRun(
    norm: Norm, sizes: SizeMap, targets: seq<SaleRow>, rows: seq<SaleRow>,
    combined: seq<Candidate>, final: seq<Candidate>, after: seq<SaleRow>)
    requires Keyed(rows) && Keyed(targets) && forall t :: t in targets ==> t in rows
    requires Covering(norm, sizes, targets, rows, combined, final) && Rewritten(rows, final, after)
    requires UniqueKeys(norm, rows) && StoresSet(rows) && InjectiveSizes(sizes)
    ensures UniqueKeys(norm, after) <==> NoLanding(norm, sizes, combined)
  {
    MadeForRows(targets, rows, norm, sizes, combined, final);
    TableUniqueIff(norm, rows, final, after);
    KeysDistinctIffNoLanding(norm, sizes, combined, final);
  }

  /** Where stores are spelled plainly, the updates go through if and only if for every first part of the
      list its new keys are distinct and no row outside that part holds one. */
  lemma ApplicableIffPrefixesFree(norm: Norm, rows: seq<SaleRow>, cs: seq<Candidate>)
    requires Keyed(rows) && DistinctSales(cs) && Belong(rows, cs)
    requires PlainStores(norm, rows) && UniqueKeys(norm, rows)
    ensures Applicable(rows, cs) <==>
            forall n :: 0 <= n <= |cs| ==> DistinctKeys(norm, cs[..n]) && NoneBlocked(norm, rows, cs[..n])
  {
    BelongNames(rows, cs);
    PlainStoresClash(norm, rows, [], rows);
    ApplicableIffEachTableUnique(rows, cs, |cs|);
    EachTableMeans(rows, cs, |cs|);
    assert cs[..|cs|] == cs;
    forall n | 0 <= n <= |cs|
      ensures NoClash(TableAfter(rows, cs[..n])) <==> DistinctKeys(norm, cs[..n]) && NoneBlocked(norm, rows, cs[..n])
    {
      PrefixTable(norm, rows, cs, n);
    }
  }

  lemma BelongNames(rows: seq<SaleRow>, cs: seq<Candidate>)
    requires Belong(rows, cs)
    ensures OnTable(rows, cs)
  {
    forall c | c in cs ensures exists k :: 0 <= k < |rows| && rows[k].saleId == c.saleId {
      var k :| 0 <= k < |rows| && For(c, rows[k]);
    }
  }

  lemma PrefixTable(norm: Norm, rows: seq<SaleRow>, cs: seq<Candidate>, n: nat)
    requires Keyed(rows) && DistinctSales(cs) && Belong(rows, cs) && n <= |cs|
    requires PlainStores(norm, rows) && UniqueKeys(norm, rows)
    ensures NoClash(TableAfter(rows, cs[..n])) <==> DistinctKeys(norm, cs[..n]) && NoneBlocked(norm, rows, cs[..n])
  {
    BelongNames(rows, cs);
    TableAfterIsRewritten(rows, cs, n);
    PlainStoresClash(norm, rows, cs[..n], TableAfter(rows, cs[..n]));
    assert forall c :: c in cs[..n] ==> c in cs;
    TableUniqueIff(norm, rows, cs[..n], TableAfter(rows, cs[..n]));
  }

  /** So a clean run commits under the constraint if and only if there is no landing and no candidate takes
      a key that a later one still holds. */
  lemma CommitsIffNoLandingNorHeldKey(
    norm: Norm, sizes: SizeMap, targets: seq<SaleRow>, rows: seq<SaleRow>,
    combined: seq<Candidate>, final: seq<Candidate>)
    requires Keyed(rows) && Keyed(targets) && forall t :: t in targets ==> t in rows
    requires Covering(norm, sizes, targets, rows, combined, final)
    requires UniqueKeys(norm, rows) && PlainStores(norm, rows) && InjectiveSizes(sizes)
    ensures Applicable(rows, final) <==>
            && NoLanding(norm, sizes, combined)
            && forall n :: 0 <= n <= |final| ==> NoneBlocked(norm, rows, final[..n])
  {
    MadeForRows(targets, rows, norm, sizes, combined, final);
    ApplicableIffPrefixesFree(norm, rows, final);
    KeysDistinctIffNoLanding(norm, sizes, combined, final);
    PrefixesDistinct(norm, final);
  }

  lemma PrefixesDistinct(norm: Norm, cs: seq<Candidate>)
    ensures DistinctKeys(norm, cs) <==> forall n :: 0 <= n <= |cs| ==> DistinctKeys(norm, cs[..n])
  {
    assert cs[..|cs|] == cs;
    if DistinctKeys(norm, cs) {
      forall n | 0 <= n <= |cs| ensures DistinctKeys(norm, cs[..n]) {
        assert forall c :: c in cs[..n] ==> c in cs;
      }
    }
  }

  /** The script's own checks pass: nothing is excluded and the expected count is right. */
  ghost predicate Checked(
    lk: Lookups, norm: Norm, targets: seq<SaleRow>, rows: seq<SaleRow>, combined: seq<Candidate>,
    final: seq<Candidate>, expected: Option<nat>)
  {
    Clean(lk, norm, targets, rows, combined, final) && (expected.Some? ==> expected.value == |targets|)
  }

  /** `_run_on_path` with `apply`, on a table with its UNIQUE constraint or without. It succeeds exactly when
      there is no exclusion record, the expected count, if given, is that of the targets, and the constraint,
      if there, rejects no update. A successful run gave every target exactly one new identity and changed no
      other row; any other leaves the table as it was. The order of the updates is that of the targets,
      those with primary evidence first, group after group. */
  method RunOnPath(
    constrained: bool, lk: Lookups, norm: Norm, targets: seq<SaleRow>, rows: seq<SaleRow>, expected: Option<nat>)
    returns (result: Result<nat, RepairError>, after: seq<SaleRow>, ghost combined: seq<Candidate>,
             ghost final: seq<Candidate>)
    requires Keyed(rows) && Keyed(targets) && forall t :: t in targets ==> t in rows
    ensures Planned(lk, norm, targets, combined, final)
    ensures result.Ok? <==>
              && Checked(lk, norm, targets, rows, combined, final, expected)
              && (constrained ==> Applicable(rows, final))
    ensures result.Err? ==> after == rows
    ensures result.Err? && result.error.UniqueViolated? <==>
              && Checked(lk, norm, targets, rows, combined, final, expected)
              && constrained && !Applicable(rows, final)
    ensures result.Err? && result.error.UniqueViolated? ==> FirstRejected(rows, final, result.error.update)
    ensures result.Ok? ==> result.value == |targets| == |final| && Rewritten(rows, final, after)
    ensures Checked(lk, norm, targets, rows, combined, final, expected) ==>
              Covering(norm, lk.sizes, targets, rows, combined, final)
  {
    var candidates, excluded, cs, split := BuildCandidates(lk, norm, targets, rows);
    combined, final, after := cs, split, rows;
    if excluded == [] {
      CleanCovers(lk, norm, targets, rows, cs, split);
      CoveringCounts(norm, lk.sizes, targets, rows, cs, split);
    }
    if expected.Some? && |candidates| != expected.value {
      return Err(CountMismatch), after, combined, final;
    }
    if excluded != [] {
      return Err(ExcludedRemain(excluded)), after, combined, final;
    }
    Writable(lk, norm, targets, rows, combined, candidates);
    var count;
    after, count := ApplyCandidates(constrained, rows, candidates);
    result := if count.Ok? then Ok(count.value) else Err(UniqueViolated(count.error));
  }

  lemma Writable(
    lk: Lookups, norm: Norm, targets: seq<SaleRow>, rows: seq<SaleRow>, combined: seq<Candidate>, final: seq<Candidate>)
    requires (forall t :: t in targets ==> t in rows) && Planned(lk, norm, targets, combined, final)
    ensures DistinctSales(final) && OnTable(rows, final)
  {
    MadeForRows(targets, rows, norm, lk.sizes, combined, final);
    BelongNames(rows, final);
  }

  lemma CleanCovers(
    lk: Lookups, norm: Norm, targets: seq<SaleRow>, rows: seq<SaleRow>, combined: seq<Candidate>, final: seq<Candidate>)
    requires forall p :: 0 <= p < |targets| ==> Accounted(final, [], targets[p].saleId)
    requires AllMadeFor(targets, |targets|, combined) && AllSettled(norm, lk.sizes, combined, final)
    requires Clean(lk, norm, targets, rows, combined, final) && KeepsAll(combined, final)
    ensures Covering(norm, lk.sizes, targets, rows, combined, final)
  {
    NoRecordMeansSale(targets, final);
  }

  lemma CoveringCounts(
    norm: Norm, sizes: SizeMap, targets: seq<SaleRow>, rows: seq<SaleRow>, combined: seq<Candidate>,
    final: seq<Candidate>)
    requires Keyed(targets) && Covering(norm, sizes, targets, rows, combined, final)
    ensures |final| == |targets|
  {
    MadeForRows(targets, targets, norm, sizes, combined, final);
    CoverCounts(targets, final);
  }
}
