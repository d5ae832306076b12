/** Three inputs on which scripts/apply_sales_fact_v2_cogs_identity_repair.py passes all its own checks and
    the unique key of `sales_fact_v2` gets in the way: with the constraint the run aborts, without it two
    of them leave duplicate keys. All texts are already normal. */
module CogsFailures {
  import opened Wrappers
  import opened CogsCollisions
  import opened CogsIdentity
  import opened CogsWriteBack

  // ---------------------------------------------------------------- a division lands on another group

  /** Three rows of one order and offer: two generic ones of sizes L and M, and one old identity. */
  function LandingRows(): seq<SaleRow> {
    [SaleRow(1, "O", Some("S"), "F", "CL", "CL_L", "L", "", "L", "L", None, None),
     SaleRow(2, "O", Some("S"), "F", "CL", "CL_M", "M", "", "M", "M", None, None),
     SaleRow(3, "O", Some("S"), "F", "116515378", "116515378_L", "L", "", "L", "L", None, None)]
  }

  /** The offer name maps to K_X; one entry of the order maps the old identity to K_L. */
  function LandingLookups(): Lookups {
    Lookups(
      map[("116515378_L", "S") := ("K", "K_L")], map[("F", "S") := ("K", "K_X")],
      map[("O", "S") := [Entry("116515378_L", "", "L"), Entry("Z", "", "")]],
      map[], {}, map[("K", "L") := "K_L", ("K", "M") := "K_M"])
  }

  function LandingCandidate(p: nat): Candidate
    requires p < 3
  {
    if p == 2 then Candidate(3, "O", "S", "F", "K", "K_L", "L", 5, "", "L")
    else if p == 1 then Candidate(2, "O", "S", "F", "K", "K_X", "M", 20, "", "M")
    else Candidate(1, "O", "S", "F", "K", "K_X", "L", 20, "", "L")
  }

  function Same(s: string): string { s }

  lemma LandingOldIdentity(p: nat)
    requires p < 3
    ensures var lk, row := LandingLookups(), LandingRows()[p];
            && EntriesOf(lk, row) == [Entry("116515378_L", "", "L"), Entry("Z", "", "")]
            && OldIdentityEvidence(lk, Same, row, EntriesOf(lk, row)) == if p == 2 then [LandingCandidate(2)] else []
  {
    var lk, row := LandingLookups(), LandingRows()[p];
    var es := EntriesOf(lk, row);
    assert es[..1] == [es[0]] && [es[0]][..0] == [];
    assert OldIdentityEvidence(lk, Same, row, []) == [];
    assert OldIdentityEvidence(lk, Same, row, [es[0]]) == if p == 2 then [LandingCandidate(2)] else [];
    assert es[1].offerId != "116515378_L";
  }

  lemma LandingEvidence(p: nat)
    requires p < 3
    ensures var evidence := Evidence(LandingLookups(), Same, LandingRows()[p]);
            TopsAgree(evidence) && forall c :: Top(evidence, c) <==> c == LandingCandidate(p)
  {
    var lk, row := LandingLookups(), LandingRows()[p];
    LandingOldIdentity(p);
    var named := Make(row, "K", "K_X", row.mySize, 20, "");
    assert OrdersOf(lk, Same, row) == [] && OfferNameEvidence(lk, Same, row) == [named];
    assert Evidence(lk, Same, row) == if p == 2 then [LandingCandidate(2), named] else [named];
    assert LandingCandidate(p) in Evidence(lk, Same, row);
  }

  /** What `RunOnPath` combines on these rows. */
  ghost predicate LandingCombined(cs: seq<Candidate>) {
    DistinctSales(cs) && forall c :: c in cs ==> exists p :: 0 <= p < 3 && c == LandingCandidate(p)
  }

  lemma LandingIsCombined(cs: seq<Candidate>)
    requires AllMadeFor(LandingRows(), 3, cs)
    requires forall c :: c in cs ==> RightfulSome(LandingLookups(), Same, LandingRows(), c)
    ensures LandingCombined(cs)
  {
    forall c | c in cs ensures exists p :: 0 <= p < 3 && c == LandingCandidate(p) {
      var p :| 0 <= p < 3 && Rightful(LandingLookups(), Same, LandingRows()[p], c);
      LandingEvidence(p);
    }
  }

  lemma LandingGroup(cs: seq<Candidate>, c: Candidate)
    requires LandingCombined(cs) && c in cs
    ensures var items := Group(Same, cs, KeyOf(Same, c));
            && DistinctSales(items) && c in items
            && forall d :: d in items <==> d in cs && (d.saleId == 3 <==> c.saleId == 3)
  {
    var items := Group(Same, cs, KeyOf(Same, c));
    GroupDistinct(Same, cs, KeyOf(Same, c));
    GroupMembers(Same, cs, KeyOf(Same, c));
    assert "K_X"[2] != "K_L"[2];
  }

  /** The two generic candidates divide by size. */
  lemma GenericRowsDivide(items: seq<Candidate>)
    requires DistinctSales(items)
    requires forall i :: 0 <= i < |items| ==> items[i] == LandingCandidate(0) || items[i] == LandingCandidate(1)
    ensures Splittable(LandingLookups().sizes, items)
  {
    assert "L" != "M";
  }

  lemma OneSale(items: seq<Candidate>, id: int)
    requires DistinctSales(items) && items != []
    requires forall i :: 0 <= i < |items| ==> items[i].saleId == id
    ensures |items| == 1
  {
    assert items[0].saleId == items[|items| - 1].saleId;
  }

  lemma LandingSettles(cs: seq<Candidate>)
    requires LandingCombined(cs)
    ensures AllGroupsSettle(Same, LandingLookups().sizes, cs)
  {
    forall c | c in cs ensures Settled(LandingLookups().sizes, Group(Same, cs, KeyOf(Same, c))) != [] {
      var items := Group(Same, cs, KeyOf(Same, c));
      LandingGroup(cs, c);
      if c.saleId == 3 {
        forall i | 0 <= i < |items| ensures items[i].saleId == 3 {
          assert items[i] in items;
        }
        OneSale(items, 3);
      } else {
        forall i | 0 <= i < |items|
          ensures items[i] == LandingCandidate(0) || items[i] == LandingCandidate(1)
        {
          assert items[i] in items;
        }
        GenericRowsDivide(items);
      }
    }
  }

  lemma NewIdsStartWithK(cs: seq<Candidate>, c: Candidate, d: Candidate)
    requires LandingCombined(cs) && SettledAs(Same, LandingLookups().sizes, cs, c, d)
    ensures c in cs && d.saleId == c.saleId && d.newSkuId != "" && d.newSkuId[0] == 'K'
  {
    var p :| 0 <= p < 3 && c == LandingCandidate(p);
  }

  lemma LandingNotBlocked(cs: seq<Candidate>, split: seq<Candidate>)
    requires LandingCombined(cs) && AllSettled(Same, LandingLookups().sizes, cs, split)
    ensures NoneBlocked(Same, LandingRows(), split)
  {
    forall d | d in split ensures Occupant(Same, LandingRows(), d).None? {
      var c :| SettledAs(Same, LandingLookups().sizes, cs, c, d);
      NewIdsStartWithK(cs, c, d);
      OldIdsDoNot(d);
    }
  }

  lemma OldIdsDoNot(d: Candidate)
    requires d.newSkuId != "" && d.newSkuId[0] == 'K'
    ensures forall row :: row in LandingRows() ==> !Occupies(Same, row, d)
  {
    assert forall row :: row in LandingRows() ==> row.skuId[0] != 'K';
  }

  lemma LandingLands(cs: seq<Candidate>)
    requires LandingCombined(cs) && forall p :: 0 <= p < 3 ==> LandingCandidate(p) in cs
    ensures !NoLanding(Same, LandingLookups().sizes, cs)
  {
    var a, b, c := LandingCandidate(0), LandingCandidate(1), LandingCandidate(2);
    LandingGroup(cs, a);
    LandingGroup(cs, c);
    var items := Group(Same, cs, KeyOf(Same, c));
    forall i | 0 <= i < |items| ensures items[i].saleId == 3 {
      assert items[i] in items;
    }
    OneSale(items, 3);
    var pair := Group(Same, cs, KeyOf(Same, a));
    assert a in pair && b in pair && a != b;
    assert |pair| != 1;
    assert "K_X"[2] != "K_L"[2];
    assert Lands(Same, LandingLookups().sizes, cs, a, c);
  }

  lemma LandingTable()
    ensures Keyed(LandingRows()) && UniqueKeys(Same, LandingRows()) && NoClash(LandingRows())
    ensures StoresSet(LandingRows()) && PlainStores(Same, LandingRows())
    ensures InjectiveSizes(LandingLookups().sizes)
  {
    var rows := LandingRows();
    assert rows[0].skuId[3] != rows[1].skuId[3] && rows[2].skuId[0] != rows[0].skuId[0] == rows[1].skuId[0];
    assert "K_L"[2] != "K_M"[2];
  }

  /** Every candidate of these rows is combined when the final list covers them. */
  lemma LandingCovered(combined: seq<Candidate>, final: seq<Candidate>, p: nat)
    requires LandingCombined(combined) && AllSettled(Same, LandingLookups().sizes, combined, final)
    requires p < 3 && HasSale(final, LandingRows()[p].saleId)
    ensures LandingCandidate(p) in combined
  {
    var d :| d in final && d.saleId == LandingRows()[p].saleId;
    var c :| SettledAs(Same, LandingLookups().sizes, combined, c, d);
    NewIdsStartWithK(combined, c, d);
    CandidateOfSale(c, p);
  }

  lemma CandidateOfSale(c: Candidate, p: nat)
    requires p < 3 && c.saleId == LandingRows()[p].saleId
    requires exists q :: 0 <= q < 3 && c == LandingCandidate(q)
    ensures c == LandingCandidate(p)
  {
    assert LandingRows()[p].saleId == p + 1;
    var q :| 0 <= q < 3 && c == LandingCandidate(q);
  }

  /** The run of these rows passes every check. */
  lemma LandingIsClean(combined: seq<Candidate>, final: seq<Candidate>)
    requires LandingCombined(combined) && AllSettled(Same, LandingLookups().sizes, combined, final)
    ensures Clean(LandingLookups(), Same, LandingRows(), LandingRows(), combined, final)
  {
    LandingSettles(combined);
    LandingNotBlocked(combined, final);
    forall p | 0 <= p < 3 ensures Decided(LandingLookups(), Same, LandingRows()[p]) {
      LandingEvidence(p);
    }
  }

  /** A repair of a table with unique keys that passes every check: the generic rows share K_X, each row's own
      size divides them, and size L is the key the third takes. Without the constraint two rows end with one
      key; with it an update is rejected and nothing is written. */
  method LandingRun(constrained: bool) returns (result: Result<nat, RepairError>, after: seq<SaleRow>)
    ensures UniqueKeys(Same, LandingRows()) && NoClash(LandingRows())
    ensures !constrained ==> result == Ok(3) && !UniqueKeys(Same, after)
    ensures constrained ==> result.Err? && result.error.UniqueViolated? && after == LandingRows()
  {
    var rows := LandingRows();
    LandingTable();
    ghost var combined, final;
    result, after, combined, final := RunOnPath(constrained, LandingLookups(), Same, rows, rows, None);
    LandingPasses(combined, final);
    LandingRejected(combined, final);
    if result.Ok? {
      LandingCollides(combined, final, after);
    }
  }

  lemma LandingPasses(combined: seq<Candidate>, final: seq<Candidate>)
    requires Planned(LandingLookups(), Same, LandingRows(), combined, final)
    ensures Checked(LandingLookups(), Same, LandingRows(), LandingRows(), combined, final, None)
    ensures LandingCombined(combined)
  {
    LandingIsCombined(combined);
    LandingIsClean(combined, final);
  }

  lemma LandingRejected(combined: seq<Candidate>, final: seq<Candidate>)
    requires LandingCombined(combined)
    requires Covering(Same, LandingLookups().sizes, LandingRows(), LandingRows(), combined, final)
    ensures !Applicable(LandingRows(), final)
  {
    LandingTable();
    LandingHasLanding(combined, final);
    CommitsIffNoLandingNorHeldKey(Same, LandingLookups().sizes, LandingRows(), LandingRows(), combined, final);
  }

  lemma LandingHasLanding(combined: seq<Candidate>, final: seq<Candidate>)
    requires LandingCombined(combined)
    requires Covering(Same, LandingLookups().sizes, LandingRows(), LandingRows(), combined, final)
    ensures !NoLanding(Same, LandingLookups().sizes, combined)
  {
    forall p | 0 <= p < 3 ensures LandingCandidate(p) in combined {
      LandingCovered(combined, final, p);
    }
    LandingLands(combined);
  }

  lemma LandingCollides(combined: seq<Candidate>, final: seq<Candidate>, after: seq<SaleRow>)
    requires LandingCombined(combined) && Rewritten(LandingRows(), final, after)
    requires Covering(Same, LandingLookups().sizes, LandingRows(), LandingRows(), combined, final)
    ensures !UniqueKeys(Same, after)
  {
    LandingTable();
    LandingHasLanding(combined, final);
    CleanRun(Same, LandingLookups().sizes, LandingRows(), LandingRows(), combined, final, after);
  }

  // ---------------------------------------------------------------- a key that a later candidate still holds

  /** A generic row, and a row with an old identity whose SKU id is the one the first row gets. */
  function ChainRows(): seq<SaleRow> {
    [SaleRow(1, "O", Some("S"), "F", "CL", "CL_L", "L", "", "L", "L", None, None),
     SaleRow(2, "O", Some("S"), "F", "116515378", "K_X", "L", "", "L", "L", None, None)]
  }

  /** The offer name maps to K_X; one entry of the order maps the old identity to K_Y. */
  function ChainLookups(): Lookups {
    Lookups(
      map[("116515378_L", "S") := ("K", "K_Y")], map[("F", "S") := ("K", "K_X")],
      map[("O", "S") := [Entry("116515378_L", "", "L"), Entry("Z", "", "")]],
      map[], {}, map[])
  }

  function ChainCandidate(p: nat): Candidate
    requires p < 2
  {
    if p == 0 then Candidate(1, "O", "S", "F", "K", "K_X", "L", 20, "", "L")
    else Candidate(2, "O", "S", "F", "K", "K_Y", "L", 5, "", "L")
  }

  lemma ChainOldIdentity(p: nat)
    requires p < 2
    ensures var lk, row := ChainLookups(), ChainRows()[p];
            && EntriesOf(lk, row) == [Entry("116515378_L", "", "L"), Entry("Z", "", "")]
            && OldIdentityEvidence(lk, Same, row, EntriesOf(lk, row)) == if p == 1 then [ChainCandidate(1)] else []
  {
    var lk, row := ChainLookups(), ChainRows()[p];
    var es := EntriesOf(lk, row);
    assert es[..1] == [es[0]] && [es[0]][..0] == [];
    assert OldIdentityEvidence(lk, Same, row, []) == [];
    assert OldIdentityEvidence(lk, Same, row, [es[0]]) == if p == 1 then [ChainCandidate(1)] else [];
    assert es[1].offerId != "116515378_L";
  }

  lemma ChainEvidence(p: nat)
    requires p < 2
    ensures var evidence := Evidence(ChainLookups(), Same, ChainRows()[p]);
            TopsAgree(evidence) && forall c :: Top(evidence, c) <==> c == ChainCandidate(p)
  {
    ChainEvidenceList(p);
    assert ChainCandidate(p) in Evidence(ChainLookups(), Same, ChainRows()[p]);
  }

  lemma ChainEvidenceList(p: nat)
    requires p < 2
    ensures Evidence(ChainLookups(), Same, ChainRows()[p])
            == if p == 1 then [ChainCandidate(1), Make(ChainRows()[1], "K", "K_X", "L", 20, "")]
               else [ChainCandidate(0)]
  {
    var lk, row := ChainLookups(), ChainRows()[p];
    ChainOldIdentity(p);
    assert OrdersOf(lk, Same, row) == [] && OfferNameEvidence(lk, Same, row) == [Make(row, "K", "K_X", "L", 20, "")];
  }

  lemma ChainFrom(c: Candidate)
    requires RightfulSome(ChainLookups(), Same, ChainRows(), c)
    ensures exists p :: 0 <= p < 2 && c == ChainCandidate(p)
  {
    var p :| 0 <= p < 2 && Rightful(ChainLookups(), Same, ChainRows()[p], c);
    ChainEvidence(p);
  }

  lemma ChainDecided()
    ensures AllDecided(ChainLookups(), Same, ChainRows())
  {
    forall p | 0 <= p < 2 ensures Decided(ChainLookups(), Same, ChainRows()[p]) {
      ChainEvidence(p);
    }
  }

  lemma OneOf(cs: seq<Candidate>, a: Candidate)
    requires DistinctSales(cs) && cs != [] && forall c :: c in cs ==> c == a
    ensures cs == [a]
  {
    assert cs[0] in cs && cs[|cs| - 1] in cs;
    assert |cs| == 1;
  }

  lemma TwoOf(cs: seq<Candidate>, a: Candidate, b: Candidate)
    requires DistinctSales(cs) && a.saleId != b.saleId && a in cs && b in cs
    requires forall c :: c in cs ==> c == a || c == b
    requires forall i, j :: 0 <= i < j < |cs| ==> !(cs[i] == b && cs[j] == a)
    ensures cs == [a, b]
  {
    var i :| 0 <= i < |cs| && cs[i] == a;
    var j :| 0 <= j < |cs| && cs[j] == b;
    assert cs[0] in cs && cs[1] in cs;
    assert cs[0] == a && cs[1] == b;
    var last := |cs| - 1;
    assert cs[last] in cs;
    assert last == 1;
  }

  /** The candidates of these rows, in the order of the rows. */
  lemma ChainCombined(combined: seq<Candidate>, final: seq<Candidate>)
    requires Planned(ChainLookups(), Same, ChainRows(), combined, final)
    ensures combined == [ChainCandidate(0), ChainCandidate(1)]
  {
    ChainDecided();
    forall c | c in combined ensures c == ChainCandidate(0) || c == ChainCandidate(1) {
      ChainFrom(c);
    }
    ChainHas(combined, 0);
    ChainHas(combined, 1);
    ChainInOrder(combined);
    TwoOf(combined, ChainCandidate(0), ChainCandidate(1));
  }

  lemma ChainHas(combined: seq<Candidate>, p: nat)
    requires p < 2 && HasSale(combined, ChainRows()[p].saleId)
    requires forall c :: c in combined ==> c == ChainCandidate(0) || c == ChainCandidate(1)
    ensures ChainCandidate(p) in combined
  {
    var c :| c in combined && c.saleId == ChainRows()[p].saleId;
  }

  lemma ChainInOrder(combined: seq<Candidate>)
    requires Sequenced(ChainLookups(), Same, ChainRows(), combined)
    ensures forall i, j :: 0 <= i < j < |combined| ==>
              !(combined[i] == ChainCandidate(1) && combined[j] == ChainCandidate(0))
  {
    ChainEvidence(0);
    ChainEvidence(1);
    forall i, j | 0 <= i < j < |combined|
      ensures !(combined[i] == ChainCandidate(1) && combined[j] == ChainCandidate(0))
    {
      assert For(ChainCandidate(1), ChainRows()[1]) && For(ChainCandidate(0), ChainRows()[0]);
      assert !Earlier(ChainLookups(), Same, ChainRows(), 1, 0);
    }
  }

  /** Two candidates with different keys are two groups of one. */
  lemma TwoAlone(norm: Norm, sizes: SizeMap, a: Candidate, b: Candidate)
    requires KeyOf(norm, a) != KeyOf(norm, b)
    ensures Alone(norm, [a, b], a) && Alone(norm, [a, b], b) && AllGroupsSettle(norm, sizes, [a, b])
  {
    TwoGroups(norm, a, b);
  }

  lemma TwoKeys(norm: Norm, a: Candidate, b: Candidate)
    requires KeyOf(norm, a) != KeyOf(norm, b)
    ensures KeysOf(norm, [a, b]) == [KeyOf(norm, a), KeyOf(norm, b)]
  {
    assert [a, b][..1] == [a] && [a][..0] == [];
    assert KeysOf(norm, []) == [] && KeysOf(norm, [a]) == [KeyOf(norm, a)];
  }

  lemma TwoSettle(norm: Norm, sizes: SizeMap, a: Candidate, b: Candidate)
    requires KeyOf(norm, a) != KeyOf(norm, b)
    ensures SettleAll(norm, sizes, [a, b], KeysOf(norm, [a, b])) == [a, b]
  {
    var k, l, cs := KeyOf(norm, a), KeyOf(norm, b), [a, b];
    TwoKeys(norm, a, b);
    TwoGroups(norm, a, b);
    assert [k, l][..1] == [k] && [k][..0] == [];
    assert SettleAll(norm, sizes, cs, []) == [] && SettleAll(norm, sizes, cs, [k]) == [a];
  }

  lemma TwoGroups(norm: Norm, a: Candidate, b: Candidate)
    requires KeyOf(norm, a) != KeyOf(norm, b)
    ensures Group(norm, [a, b], KeyOf(norm, a)) == [a] && Group(norm, [a, b], KeyOf(norm, b)) == [b]
  {
    var k, l := KeyOf(norm, a), KeyOf(norm, b);
    assert [a, b][..1] == [a] && [a][..0] == [];
    assert Group(norm, [], k) == [] && Group(norm, [], l) == [];
    assert Group(norm, [a], k) == [a] && Group(norm, [a], l) == [];
  }

  lemma ChainKeysDiffer()
    ensures KeyOf(Same, ChainCandidate(0)) != KeyOf(Same, ChainCandidate(1))
  {
    assert "K_X"[2] != "K_Y"[2];
  }

  lemma ChainNotBlocked()
    ensures NoneBlocked(Same, ChainRows(), [ChainCandidate(0), ChainCandidate(1)])
  {
    var cs := [ChainCandidate(0), ChainCandidate(1)];
    assert "K_X"[2] != "K_Y"[2];
    forall c | c in cs ensures !Blocked(Same, ChainRows(), cs, c) {
      var o := Occupant(Same, ChainRows(), c);
      if o.Some? {
        assert o.value.saleId == 1 || o.value.saleId == 2;
        assert cs[0].saleId == 1 && cs[1].saleId == 2;
      }
    }
  }

  lemma ChainRejected()
    ensures !Applicable(ChainRows(), [ChainCandidate(0), ChainCandidate(1)][..1])
  {
    var cs := [ChainCandidate(0), ChainCandidate(1)];
    assert cs[..1] == [cs[0]] && [cs[0]][..0] == [];
    var rows := ChainRows();
    assert rows[0].saleId == 1 && rows[1].saleId == 2 && !HasSale([], 2);
    assert Clash(SetIdentity(rows[0], cs[0]), rows[1]);
    assert !FreeOfOthers(rows, [], cs[0]);
  }

  lemma ChainTable()
    ensures Keyed(ChainRows()) && UniqueKeys(Same, ChainRows()) && NoClash(ChainRows())
    ensures StoresSet(ChainRows()) && PlainStores(Same, ChainRows())
    ensures InjectiveSizes(map[])
  {
    assert ChainRows()[0].skuId[0] != ChainRows()[1].skuId[0];
  }

  /** Every group is one candidate, nothing lands, and the keys are unique before and after; but the first update
      takes the key that the second row has yet to give up, so under the constraint the run aborts there. */
  method ChainRun(constrained: bool) returns (result: Result<nat, RepairError>, after: seq<SaleRow>)
    ensures UniqueKeys(Same, ChainRows()) && NoClash(ChainRows())
    ensures !constrained ==> result == Ok(2) && UniqueKeys(Same, after)
    ensures constrained ==> result == Err(UniqueViolated(0)) && after == ChainRows()
  {
    var rows := ChainRows();
    ChainTable();
    ghost var combined, final;
    result, after, combined, final := RunOnPath(constrained, ChainLookups(), Same, rows, rows, None);
    ChainPlan(combined, final);
    ChainPasses();
    ChainInapplicable(final);
    if result.Ok? {
      ChainEndsUnique(combined, final, after);
    } else {
      ChainRejectedFirst(final, result.error.update);
    }
  }

  lemma ChainPlan(combined: seq<Candidate>, final: seq<Candidate>)
    requires Planned(ChainLookups(), Same, ChainRows(), combined, final)
    ensures combined == final == [ChainCandidate(0), ChainCandidate(1)]
  {
    ChainCombined(combined, final);
    ChainKeysDiffer();
    TwoSettle(Same, map[], ChainCandidate(0), ChainCandidate(1));
  }

  lemma ChainPasses()
    ensures var cs := [ChainCandidate(0), ChainCandidate(1)];
            && Checked(ChainLookups(), Same, ChainRows(), ChainRows(), cs, cs, None)
            && NoLanding(Same, map[], cs)
  {
    ChainKeysDiffer();
    TwoAlone(Same, map[], ChainCandidate(0), ChainCandidate(1));
    ChainDecided();
    ChainNotBlocked();
  }

  lemma ChainInapplicable(final: seq<Candidate>)
    requires final == [ChainCandidate(0), ChainCandidate(1)]
    ensures !Applicable(ChainRows(), final)
  {
    ChainRejected();
    assert final[..|final|] == final;
    StaysInapplicable(ChainRows(), final, 1, |final|);
  }

  lemma ChainEndsUnique(combined: seq<Candidate>, final: seq<Candidate>, after: seq<SaleRow>)
    requires Covering(Same, map[], ChainRows(), ChainRows(), combined, final)
    requires Rewritten(ChainRows(), final, after) && NoLanding(Same, map[], combined)
    ensures UniqueKeys(Same, after)
  {
    ChainTable();
    CleanRun(Same, map[], ChainRows(), ChainRows(), combined, final, after);
  }

  lemma ChainRejectedFirst(final: seq<Candidate>, n: nat)
    requires final == [ChainCandidate(0), ChainCandidate(1)] && FirstRejected(ChainRows(), final, n)
    ensures n == 0
  {
    ChainRejected();
    if n > 0 {
      StaysInapplicable(ChainRows(), final, 1, n);
    }
  }

  // ---------------------------------------------------------------- an empty store code

  /** A generic row and a row that already has the new identity, both with an empty store code. */
  function EmptyStoreRows(): seq<SaleRow> {
    [SaleRow(1, "O", Some(""), "F", "CL", "CL_L", "L", "", "L", "L", None, None),
     SaleRow(2, "O", Some(""), "F", "K", "K_X", "L", "", "L", "L", None, None)]
  }

  function EmptyStoreLookups(): Lookups {
    Lookups(map[], map[("F", "UNIVERSAL") := ("K", "K_X")], map[], map[], {}, map[])
  }

  const EMPTY_STORE_CANDIDATE := Candidate(1, "O", "UNIVERSAL", "F", "K", "K_X", "L", 20, "", "L")

  lemma EmptyStoreEvidence()
    ensures Evidence(EmptyStoreLookups(), Same, EmptyStoreRows()[0]) == [EMPTY_STORE_CANDIDATE]
    ensures Decided(EmptyStoreLookups(), Same, EmptyStoreRows()[0])
  {
    var lk, row := EmptyStoreLookups(), EmptyStoreRows()[0];
    assert EntriesOf(lk, row) == [] && OrdersOf(lk, Same, row) == [];
    assert OfferNameEvidence(lk, Same, row) == [EMPTY_STORE_CANDIDATE];
    var evidence := Evidence(lk, Same, row);
    assert evidence == [EMPTY_STORE_CANDIDATE];
    assert forall c :: Top(evidence, c) ==> c == EMPTY_STORE_CANDIDATE;
  }

  ghost predicate OnlyEmptyStore(cs: seq<Candidate>) {
    DistinctSales(cs) && forall c :: c in cs ==> c == EMPTY_STORE_CANDIDATE
  }

  lemma EmptyStoreGroup(cs: seq<Candidate>, c: Candidate)
    requires OnlyEmptyStore(cs) && c in cs
    ensures |Group(Same, cs, KeyOf(Same, c))| == 1
  {
    var items := Group(Same, cs, KeyOf(Same, c));
    GroupDistinct(Same, cs, KeyOf(Same, c));
    GroupMembers(Same, cs, KeyOf(Same, c));
    forall i | 0 <= i < |items| ensures items[i].saleId == 1 {
      assert items[i] in items;
    }
    assert c in items;
    OneSale(items, 1);
  }

  lemma EmptyStoreSettles(combined: seq<Candidate>, final: seq<Candidate>)
    requires OnlyEmptyStore(combined) && AllSettled(Same, EmptyStoreLookups().sizes, combined, final)
    ensures AllGroupsSettle(Same, EmptyStoreLookups().sizes, combined)
    ensures forall d :: d in final ==> d == EMPTY_STORE_CANDIDATE
  {
    forall c | c in combined ensures |Group(Same, combined, KeyOf(Same, c))| == 1 {
      EmptyStoreGroup(combined, c);
    }
    forall d | d in final ensures d == EMPTY_STORE_CANDIDATE {
      var c :| SettledAs(Same, EmptyStoreLookups().sizes, combined, c, d);
    }
  }

  lemma EmptyStoreNotBlocked(final: seq<Candidate>)
    requires forall d :: d in final ==> d == EMPTY_STORE_CANDIDATE
    ensures NoneBlocked(Same, EmptyStoreRows(), final)
  {
    assert forall row :: row in EmptyStoreRows() ==> !Occupies(Same, row, EMPTY_STORE_CANDIDATE) by {
      assert RowKey(Same, EmptyStoreRows()[0]).store == "" == RowKey(Same, EmptyStoreRows()[1]).store;
      assert KeyOf(Same, EMPTY_STORE_CANDIDATE).store == "UNIVERSAL" != "";
    }
  }

  lemma EmptyStoreOnly(combined: seq<Candidate>)
    requires DistinctSales(combined)
    requires forall c :: c in combined ==> RightfulSome(EmptyStoreLookups(), Same, EmptyStoreRows()[..1], c)
    ensures OnlyEmptyStore(combined)
  {
    EmptyStoreEvidence();
    forall c | c in combined ensures c == EMPTY_STORE_CANDIDATE {
      var p :| 0 <= p < 1 && Rightful(EmptyStoreLookups(), Same, EmptyStoreRows()[..1][p], c);
    }
  }

  lemma EmptyStoreIsClean(combined: seq<Candidate>, final: seq<Candidate>)
    requires forall c :: c in combined ==> RightfulSome(EmptyStoreLookups(), Same, EmptyStoreRows()[..1], c)
    requires DistinctSales(combined) && AllSettled(Same, EmptyStoreLookups().sizes, combined, final)
    ensures forall d :: d in final ==> d == EMPTY_STORE_CANDIDATE
    ensures Clean(EmptyStoreLookups(), Same, EmptyStoreRows()[..1], EmptyStoreRows(), combined, final)
  {
    EmptyStoreEvidence();
    EmptyStoreOnly(combined);
    EmptyStoreSettles(combined, final);
    EmptyStoreNotBlocked(final);
  }

  lemma EmptyStoreTable()
    ensures Keyed(EmptyStoreRows()) && Keyed(EmptyStoreRows()[..1])
    ensures UniqueKeys(Same, EmptyStoreRows()) && NoClash(EmptyStoreRows())
    ensures forall t :: t in EmptyStoreRows()[..1] ==> t in EmptyStoreRows()
  {
    assert EmptyStoreRows()[0].skuId[0] != EmptyStoreRows()[1].skuId[0];
  }

  lemma EmptyStoreCollides(final: seq<Candidate>, after: seq<SaleRow>)
    requires HasSale(final, 1) && forall d :: d in final ==> d == EMPTY_STORE_CANDIDATE
    requires Rewritten(EmptyStoreRows(), final, after)
    ensures !UniqueKeys(Same, after)
  {
    var rows := EmptyStoreRows();
    assert EMPTY_STORE_CANDIDATE in final && rows[0].saleId == 1 && rows[1].saleId == 2;
    assert after[0] == SetIdentity(rows[0], EMPTY_STORE_CANDIDATE) && after[1] == rows[1];
    assert RowKey(Same, after[0]) == RowKey(Same, after[1]);
  }

  /** The candidate carries the store UNIVERSAL while the table's key keeps the empty code: the check looks
      beside the row that already has the identity, and the update repeats its key. */
  method EmptyStoreRun(constrained: bool) returns (result: Result<nat, RepairError>, after: seq<SaleRow>)
    ensures UniqueKeys(Same, EmptyStoreRows()) && NoClash(EmptyStoreRows())
    ensures !constrained ==> result == Ok(1) && !UniqueKeys(Same, after)
    ensures constrained ==> result.Err? && result.error.UniqueViolated? && after == EmptyStoreRows()
  {
    var rows := EmptyStoreRows();
    EmptyStoreTable();
    ghost var combined, final;
    result, after, combined, final := RunOnPath(constrained, EmptyStoreLookups(), Same, rows[..1], rows, None);
    EmptyStoreIsClean(combined, final);
    assert HasSale(final, rows[..1][0].saleId);
    EmptyStoreRejected(final);
    if result.Ok? {
      EmptyStoreCollides(final, after);
    }
  }

  lemma EmptyStoreRejected(final: seq<Candidate>)
    requires HasSale(final, 1) && forall d :: d in final ==> d == EMPTY_STORE_CANDIDATE
    requires DistinctSales(final)
    ensures !Applicable(EmptyStoreRows(), final)
  {
    var rows := EmptyStoreRows();
    OneOf(final, EMPTY_STORE_CANDIDATE);
    assert final[..0] == [];
    assert rows[0].saleId == 1 && rows[1].saleId == 2 && !HasSale([], 2);
    assert Clash(SetIdentity(rows[0], EMPTY_STORE_CANDIDATE), rows[1]);
    assert !FreeOfOthers(rows, [], EMPTY_STORE_CANDIDATE);
  }
}
