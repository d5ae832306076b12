/** Which evidence decides a row in scripts/apply_sales_fact_v2_cogs_identity_repair.py, said on the lookups
    and the row alone. */
module CogsLadder {
  import opened Wrappers
  import opened CogsIdentity
  import LexOrder

  /** Where an identity can be read from, the strongest first. */
  datatype Source = OldIdentity | OnlyEntry | OfferName | OrderOfThatName | OnlyOrder

  ghost function Rank(s: Source): int {
    match s
    case OldIdentity => 5
    case OnlyEntry => 10
    case OfferName => 20
    case OrderOfThatName => 30
    case OnlyOrder => 40
  }

  /** A row without a store code is sold under "UNIVERSAL". */
  ghost predicate SoldAt(row: SaleRow, store: string) {
    (row.store == Some(store) && store != "") || ((row.store == None || row.store == Some("")) && store == "UNIVERSAL")
  }

  /** The offer id is the old SKU key or id, or the key with a suffix. */
  ghost predicate IsOldIdentity(norm: Norm, row: SaleRow, offer: string) {
    offer == norm(row.skuKey) || offer == norm(row.skuId) || exists rest :: offer == norm(row.skuKey) + "_" + rest
  }

  /** An order row that names a real and costed SKU. */
  ghost predicate Specific(lk: Lookups, norm: Norm, o: OrderRow) {
    && o.skuKey in lk.ready
    && norm(o.skuKey) != "" && norm(o.skuKey) != "CL" && norm(o.skuKey) != "UNKNOWN"
    && norm(o.skuKey) != "116515378" && norm(o.skuKey) != "132822924"
  }

  ghost predicate OnlySpecific(lk: Lookups, norm: Norm, os: seq<OrderRow>, i: nat) {
    i < |os| && forall j :: 0 <= j < |os| ==> (Specific(lk, norm, os[j]) <==> j == i)
  }

  ghost predicate Gives(row: SaleRow, o: OrderRow, id: Identity) {
    && id.0 == o.skuKey && id.1 == o.skuId
    && (o.size != "" ==> id.2 == o.size) && (o.size == "" ==> id.2 == row.mySize)
  }

  ghost predicate Maps(from: map<(string, string), (string, string)>, key: (string, string), id: Identity) {
    key in from && from[key] == (id.0, id.1)
  }

  /** `s` names the identity `id` for the row. */
  ghost predicate Says(lk: Lookups, norm: Norm, row: SaleRow, store: string, s: Source, id: Identity) {
    var k := (row.orderId, store);
    match s
    case OldIdentity =>
      && (row.skuKey == "116515378" || row.skuKey == "132822924") && k in lk.entries && id.2 == row.mySize
      && exists e :: e in lk.entries[k] && IsOldIdentity(norm, row, norm(e.offerId))
                     && Maps(lk.articles, (norm(e.offerId), norm(store)), id)
    case OnlyEntry =>
      && k in lk.entries && |lk.entries[k]| == 1 && id.2 == row.mySize
      && Maps(lk.articles, (norm(lk.entries[k][0].offerId), norm(store)), id)
    case OfferName =>
      id.2 == row.mySize && Maps(lk.offerNames, (norm(row.offer), norm(store)), id)
    case OrderOfThatName =>
      && k in lk.orders
      && exists o :: o in lk.orders[k] && Specific(lk, norm, o) && norm(o.offer) == norm(row.offer) && Gives(row, o, id)
    case OnlyOrder =>
      k in lk.orders && exists i: nat :: OnlySpecific(lk, norm, lk.orders[k], i) && Gives(row, lk.orders[k][i], id)
  }

  ghost predicate Speaks(lk: Lookups, norm: Norm, row: SaleRow, store: string, s: Source) {
    exists id :: Says(lk, norm, row, store, s, id)
  }

  /** `s` is the strongest source that has anything to say about the row. */
  ghost predicate Decides(lk: Lookups, norm: Norm, row: SaleRow, store: string, s: Source) {
    && Speaks(lk, norm, row, store, s)
    && forall t :: Rank(t) < Rank(s) ==> !Speaks(lk, norm, row, store, t)
  }

  ghost function IdentityIn(c: Candidate): Identity { (c.newSkuKey, c.newSkuId, c.newSize) }

  /** What every piece of primary evidence carries of its row. */
  ghost predicate Carries(row: SaleRow, store: string, c: Candidate) {
    && c.saleId == row.saleId && c.orderId == row.orderId && c.storeCode == store && c.offer == row.offer
    && c.normOldSize == row.normOldSize
  }

  // ---------------------------------------------------------------- the evidence is what the sources say

  /** `cs` is all that the one source says. */
  ghost predicate Voices(
    lk: Lookups, norm: Norm, row: SaleRow, store: string, s: Source, cs: seq<Candidate>)
  {
    && (forall c :: c in cs ==>
          && c.priority == Rank(s) && Says(lk, norm, row, store, s, IdentityIn(c))
          && Carries(row, store, c) && c.oldSize == "")
    && forall id :: Says(lk, norm, row, store, s, id) ==> exists c :: c in cs && IdentityIn(c) == id
  }

  /** One entry's contribution at the old identity rung. */
  ghost predicate SaysEntry(lk: Lookups, norm: Norm, row: SaleRow, store: string, e: Entry, id: Identity) {
    && (row.skuKey == "116515378" || row.skuKey == "132822924") && id.2 == row.mySize
    && IsOldIdentity(norm, row, norm(e.offerId)) && Maps(lk.articles, (norm(e.offerId), norm(store)), id)
  }

  lemma PrefixMeans(p: string, s: string)
    ensures IsPrefix(p, s) <==> exists rest :: s == p + rest
  {
    if IsPrefix(p, s) {
      assert s == p + s[|p|..];
    }
  }

  lemma {:induction false} OldIdentityVoiced(
    lk: Lookups, norm: Norm, row: SaleRow, store: string, es: seq<Entry>)
    requires SoldAt(row, store)
    ensures var cs := OldIdentityEvidence(lk, norm, row, es);
            && (forall c :: c in cs ==>
                  && c.priority == 5 && Carries(row, store, c) && c.oldSize == ""
                  && exists e :: e in es && SaysEntry(lk, norm, row, store, e, IdentityIn(c)))
            && forall e, id :: e in es && SaysEntry(lk, norm, row, store, e, id) ==>
                 exists c :: c in cs && IdentityIn(c) == id
  {
    if es != [] {
      var init, last := es[..|es| - 1], es[|es| - 1];
      OldIdentityVoiced(lk, norm, row, store, init);
      PrefixMeans(norm(row.skuKey) + "_", norm(last.offerId));
      assert es == init + [last];
      var was, cs := OldIdentityEvidence(lk, norm, row, init), OldIdentityEvidence(lk, norm, row, es);
      forall c | c in cs
        ensures c.priority == 5 && Carries(row, store, c) && c.oldSize == ""
        ensures exists e :: e in es && SaysEntry(lk, norm, row, store, e, IdentityIn(c))
      {
        if c !in was {
          assert SaysEntry(lk, norm, row, store, last, IdentityIn(c));
        }
      }
      forall e, id | e in es && SaysEntry(lk, norm, row, store, e, id)
        ensures exists c :: c in cs && IdentityIn(c) == id
      {
        if e in init {
          var c :| c in was && IdentityIn(c) == id;
          assert c in cs;
        } else {
          assert IdentityIn(cs[|cs| - 1]) == id;
        }
      }
    }
  }

  lemma {:induction false} NonGenericIsSpecific(lk: Lookups, norm: Norm, os: seq<OrderRow>)
    ensures forall o :: o in NonGeneric(lk, norm, os) <==> o in os && Specific(lk, norm, o)
  {
    if os != [] {
      NonGenericIsSpecific(lk, norm, os[..|os| - 1]);
      assert os == os[..|os| - 1] + [os[|os| - 1]];
    }
  }

  lemma {:induction false} OnlySpecificIsKept(lk: Lookups, norm: Norm, os: seq<OrderRow>, i: nat)
    requires OnlySpecific(lk, norm, os, i)
    ensures NonGeneric(lk, norm, os) == [os[i]]
  {
    var init := os[..|os| - 1];
    assert Specific(lk, norm, os[|os| - 1]) <==> i == |init|;
    if i == |init| {
      NothingBefore(lk, norm, init);
    } else {
      OnlySpecificIsKept(lk, norm, init, i);
    }
  }

  lemma {:induction false} OneKept(lk: Lookups, norm: Norm, os: seq<OrderRow>) returns (i: nat)
    requires |NonGeneric(lk, norm, os)| == 1
    ensures OnlySpecific(lk, norm, os, i)
  {
    var init := os[..|os| - 1];
    if Specific(lk, norm, os[|os| - 1]) {
      NothingBefore(lk, norm, init);
      i := |init|;
    } else {
      i := OneKept(lk, norm, init);
    }
  }

  lemma NothingBefore(lk: Lookups, norm: Norm, os: seq<OrderRow>)
    ensures NonGeneric(lk, norm, os) == [] <==> forall j :: 0 <= j < |os| ==> !Specific(lk, norm, os[j])
  {
    NonGenericIsSpecific(lk, norm, os);
    if NonGeneric(lk, norm, os) != [] {
      assert NonGeneric(lk, norm, os)[0] in NonGeneric(lk, norm, os);
    }
  }

  lemma {:induction false} OrderOfThatNameVoiced(norm: Norm, row: SaleRow, store: string, os: seq<OrderRow>)
    requires SoldAt(row, store)
    ensures var cs := OrderNameEvidence(norm, row, os);
            && (forall c :: c in cs ==>
                  && c.priority == 30 && Carries(row, store, c) && c.oldSize == ""
                  && exists o :: o in os && norm(o.offer) == norm(row.offer) && Gives(row, o, IdentityIn(c)))
            && forall o, id :: o in os && norm(o.offer) == norm(row.offer) && Gives(row, o, id) ==>
                 exists c :: c in cs && IdentityIn(c) == id
  {
    if os != [] {
      var init, last := os[..|os| - 1], os[|os| - 1];
      OrderOfThatNameVoiced(norm, row, store, init);
      assert os == init + [last];
      var was, cs := OrderNameEvidence(norm, row, init), OrderNameEvidence(norm, row, os);
      forall c | c in cs
        ensures c.priority == 30 && Carries(row, store, c) && c.oldSize == ""
        ensures exists o :: o in os && norm(o.offer) == norm(row.offer) && Gives(row, o, IdentityIn(c))
      {
        if c !in was {
          assert Gives(row, last, IdentityIn(c));
        }
      }
      forall o, id | o in os && norm(o.offer) == norm(row.offer) && Gives(row, o, id)
        ensures exists c :: c in cs && IdentityIn(c) == id
      {
        if o in init {
          var c :| c in was && IdentityIn(c) == id;
          assert c in cs;
        } else {
          assert IdentityIn(cs[|cs| - 1]) == id;
        }
      }
    }
  }

  lemma OldIdentityIsVoiced(lk: Lookups, norm: Norm, row: SaleRow, store: string)
    requires SoldAt(row, store)
    ensures Voices(lk, norm, row, store, OldIdentity, OldIdentityEvidence(lk, norm, row, EntriesOf(lk, row)))
  {
    OldIdentityVoiced(lk, norm, row, store, EntriesOf(lk, row));
    var cs := OldIdentityEvidence(lk, norm, row, EntriesOf(lk, row));
    forall id | Says(lk, norm, row, store, OldIdentity, id) ensures exists c :: c in cs && IdentityIn(c) == id {
      var e :| e in EntriesOf(lk, row) && SaysEntry(lk, norm, row, store, e, id);
    }
  }

  lemma OnlyEntryIsVoiced(lk: Lookups, norm: Norm, row: SaleRow, store: string)
    requires SoldAt(row, store)
    ensures Voices(lk, norm, row, store, OnlyEntry, SingleEntryEvidence(lk, norm, row))
  {
    var cs := SingleEntryEvidence(lk, norm, row);
    forall id | Says(lk, norm, row, store, OnlyEntry, id) ensures exists c :: c in cs && IdentityIn(c) == id {
      assert IdentityIn(cs[0]) == id;
    }
  }

  lemma OfferNameIsVoiced(lk: Lookups, norm: Norm, row: SaleRow, store: string)
    requires SoldAt(row, store)
    ensures Voices(lk, norm, row, store, OfferName, OfferNameEvidence(lk, norm, row))
  {
    var cs := OfferNameEvidence(lk, norm, row);
    forall id | Says(lk, norm, row, store, OfferName, id) ensures exists c :: c in cs && IdentityIn(c) == id {
      assert IdentityIn(cs[0]) == id;
    }
  }

  lemma OrderOfThatNameIsVoiced(lk: Lookups, norm: Norm, row: SaleRow, store: string)
    requires SoldAt(row, store)
    ensures Voices(lk, norm, row, store, OrderOfThatName, OrderNameEvidence(norm, row, OrdersOf(lk, norm, row)))
  {
    var os := OrdersOf(lk, norm, row);
    OrderOfThatNameVoiced(norm, row, store, os);
    if (row.orderId, store) in lk.orders {
      NonGenericIsSpecific(lk, norm, lk.orders[(row.orderId, store)]);
    }
    var cs := OrderNameEvidence(norm, row, os);
    forall id | Says(lk, norm, row, store, OrderOfThatName, id) ensures exists c :: c in cs && IdentityIn(c) == id {
      var o :| o in os && norm(o.offer) == norm(row.offer) && Gives(row, o, id);
    }
  }

  lemma OnlyOrderIsVoiced(lk: Lookups, norm: Norm, row: SaleRow, store: string)
    requires SoldAt(row, store)
    ensures Voices(lk, norm, row, store, OnlyOrder, SingleOrderEvidence(lk, norm, row))
  {
    if (row.orderId, store) in lk.orders {
      var all := lk.orders[(row.orderId, store)];
      if |OrdersOf(lk, norm, row)| == 1 {
        TheOrderIsVoiced(lk, norm, row, store);
      } else {
        forall i: nat ensures !OnlySpecific(lk, norm, all, i) {
          if OnlySpecific(lk, norm, all, i) {
            OnlySpecificIsKept(lk, norm, all, i);
          }
        }
      }
    }
  }

  lemma TheOrderIsVoiced(lk: Lookups, norm: Norm, row: SaleRow, store: string)
    requires SoldAt(row, store) && (row.orderId, store) in lk.orders && |OrdersOf(lk, norm, row)| == 1
    ensures Voices(lk, norm, row, store, OnlyOrder, SingleOrderEvidence(lk, norm, row))
  {
    var all := lk.orders[(row.orderId, store)];
    var i := OneKept(lk, norm, all);
    OnlySpecificIsKept(lk, norm, all, i);
    var c := FromOrder(row, all[i], 40);
    assert SingleOrderEvidence(lk, norm, row) == [c] && Gives(row, all[i], IdentityIn(c));
    forall id | Says(lk, norm, row, store, OnlyOrder, id) ensures IdentityIn(c) == id {
      var j: nat :| OnlySpecific(lk, norm, all, j) && Gives(row, all[j], id);
      assert j == i;
    }
  }

  lemma InFive(
    c: Candidate, p: seq<Candidate>, q: seq<Candidate>, r: seq<Candidate>, s: seq<Candidate>, t: seq<Candidate>)
    ensures c in p + q + r + s + t <==> c in p || c in q || c in r || c in s || c in t
  {
  }

  /** `cs` is exactly what the sources say, each with its own priority. */
  ghost predicate Collected(lk: Lookups, norm: Norm, row: SaleRow, store: string, cs: seq<Candidate>) {
    && (forall c :: c in cs ==> SaidBySome(lk, norm, row, store, c))
    && forall s, id :: Says(lk, norm, row, store, s, id) ==> Heard(cs, s, id)
  }

  ghost predicate SaidBySome(lk: Lookups, norm: Norm, row: SaleRow, store: string, c: Candidate) {
    && Carries(row, store, c) && c.oldSize == ""
    && exists s :: c.priority == Rank(s) && Says(lk, norm, row, store, s, IdentityIn(c))
  }

  ghost predicate Heard(cs: seq<Candidate>, s: Source, id: Identity) {
    exists c :: c in cs && c.priority == Rank(s) && IdentityIn(c) == id
  }

  lemma VoicesCollected(
    lk: Lookups, norm: Norm, row: SaleRow, store: string,
    p: seq<Candidate>, q: seq<Candidate>, r: seq<Candidate>, s: seq<Candidate>, t: seq<Candidate>)
    requires Voices(lk, norm, row, store, OldIdentity, p) && Voices(lk, norm, row, store, OnlyEntry, q)
    requires Voices(lk, norm, row, store, OfferName, r) && Voices(lk, norm, row, store, OrderOfThatName, s)
    requires Voices(lk, norm, row, store, OnlyOrder, t)
    ensures Collected(lk, norm, row, store, p + q + r + s + t)
  {
    var cs := p + q + r + s + t;
    forall c | c in cs ensures SaidBySome(lk, norm, row, store, c) {
      InFive(c, p, q, r, s, t);
    }
    forall u, id | Says(lk, norm, row, store, u, id) ensures Heard(cs, u, id) {
      var c :| (c in p || c in q || c in r || c in s || c in t) && c.priority == Rank(u) && IdentityIn(c) == id;
      InFive(c, p, q, r, s, t);
    }
  }

  lemma EvidenceIsCollected(lk: Lookups, norm: Norm, row: SaleRow, store: string)
    requires SoldAt(row, store)
    ensures Collected(lk, norm, row, store, Evidence(lk, norm, row))
  {
    OldIdentityIsVoiced(lk, norm, row, store);
    OnlyEntryIsVoiced(lk, norm, row, store);
    OfferNameIsVoiced(lk, norm, row, store);
    OrderOfThatNameIsVoiced(lk, norm, row, store);
    OnlyOrderIsVoiced(lk, norm, row, store);
    VoicesCollected(
      lk, norm, row, store, OldIdentityEvidence(lk, norm, row, EntriesOf(lk, row)),
      SingleEntryEvidence(lk, norm, row), OfferNameEvidence(lk, norm, row),
      OrderNameEvidence(norm, row, OrdersOf(lk, norm, row)), SingleOrderEvidence(lk, norm, row));
  }

  // ---------------------------------------------------------------- the strongest source decides

  /** What a deciding source says is strongest evidence. */
  lemma DecidingIsTop(
    lk: Lookups, norm: Norm, row: SaleRow, store: string, cs: seq<Candidate>, s: Source, id: Identity)
    returns (c: Candidate)
    requires Collected(lk, norm, row, store, cs)
    requires Decides(lk, norm, row, store, s) && Says(lk, norm, row, store, s, id)
    ensures Top(cs, c) && c.priority == Rank(s) && IdentityIn(c) == id
  {
    assert Heard(cs, s, id);
    c :| c in cs && c.priority == Rank(s) && IdentityIn(c) == id;
    forall d | d in cs ensures c.priority <= d.priority {
      assert SaidBySome(lk, norm, row, store, d);
      var t :| d.priority == Rank(t) && Says(lk, norm, row, store, t, IdentityIn(d));
      assert Speaks(lk, norm, row, store, t);
    }
  }

  /** The strongest evidence comes from the deciding source. */
  lemma TopIsDeciding(
    lk: Lookups, norm: Norm, row: SaleRow, store: string, cs: seq<Candidate>, c: Candidate) returns (s: Source)
    requires Collected(lk, norm, row, store, cs) && Top(cs, c)
    ensures c.priority == Rank(s) && Decides(lk, norm, row, store, s) && Says(lk, norm, row, store, s, IdentityIn(c))
  {
    assert SaidBySome(lk, norm, row, store, c);
    s :| c.priority == Rank(s) && Says(lk, norm, row, store, s, IdentityIn(c));
    forall t, id | Says(lk, norm, row, store, t, id) ensures Rank(s) <= Rank(t) {
      assert Heard(cs, t, id);
    }
  }

  lemma OneDecides(lk: Lookups, norm: Norm, row: SaleRow, store: string, s: Source, t: Source)
    requires Decides(lk, norm, row, store, s) && Decides(lk, norm, row, store, t)
    ensures s == t
  {
    assert Rank(s) == Rank(t);
  }

  /** A chosen primary candidate: the strongest source that says anything decides, everything it says has
      the one SKU key, and of its SKU ids the least is taken. A weaker source never overrules a stronger. */
  lemma StrongestSourceDecides(lk: Lookups, norm: Norm, row: SaleRow, store: string, c: Candidate)
    requires SoldAt(row, store) && Best(Evidence(lk, norm, row), c)
    ensures Carries(row, store, c) && c.oldSize == ""
    ensures exists s :: Decides(lk, norm, row, store, s) && Says(lk, norm, row, store, s, IdentityIn(c))
    ensures forall s, id :: Decides(lk, norm, row, store, s) && Says(lk, norm, row, store, s, id) ==>
              id.0 == c.newSkuKey && !LexOrder.Less(id.1, c.newSkuId)
  {
    EvidenceIsCollected(lk, norm, row, store);
    var cs := Evidence(lk, norm, row);
    assert SaidBySome(lk, norm, row, store, c);
    var s := TopIsDeciding(lk, norm, row, store, cs, c);
    forall t, id | Decides(lk, norm, row, store, t) && Says(lk, norm, row, store, t, id)
      ensures id.0 == c.newSkuKey && !LexOrder.Less(id.1, c.newSkuId)
    {
      var d := DecidingIsTop(lk, norm, row, store, cs, t, id);
    }
  }

  /** A row has no primary evidence exactly when no source says anything. */
  lemma NoEvidenceIffSilent(lk: Lookups, norm: Norm, row: SaleRow, store: string)
    requires SoldAt(row, store)
    ensures Evidence(lk, norm, row) == [] <==> forall s :: !Speaks(lk, norm, row, store, s)
  {
    EvidenceIsCollected(lk, norm, row, store);
    EmptyIffSilent(lk, norm, row, store, Evidence(lk, norm, row));
  }

  lemma EmptyIffSilent(lk: Lookups, norm: Norm, row: SaleRow, store: string, cs: seq<Candidate>)
    requires Collected(lk, norm, row, store, cs)
    ensures cs == [] <==> forall s :: !Speaks(lk, norm, row, store, s)
  {
    if cs != [] {
      assert SaidBySome(lk, norm, row, store, cs[0]);
      var s :| cs[0].priority == Rank(s) && Says(lk, norm, row, store, s, IdentityIn(cs[0]));
      assert Speaks(lk, norm, row, store, s);
    } else {
      forall s, id ensures !Says(lk, norm, row, store, s, id) {
        assert !Heard(cs, s, id);
      }
    }
  }

  ghost predicate Contradicts(lk: Lookups, norm: Norm, row: SaleRow, store: string, s: Source) {
    exists id: Identity, other: Identity ::
      Says(lk, norm, row, store, s, id) && Says(lk, norm, row, store, s, other) && id.0 != other.0
  }

  /** The first pass records a conflict exactly when the deciding source names two SKU keys; what weaker
      sources say does not matter. */
  lemma ConflictIffDecidingContradicts(lk: Lookups, norm: Norm, row: SaleRow, store: string)
    requires SoldAt(row, store)
    ensures Conflicted(Evidence(lk, norm, row)) <==>
            exists s :: Decides(lk, norm, row, store, s) && Contradicts(lk, norm, row, store, s)
  {
    EvidenceIsCollected(lk, norm, row, store);
    TopsDisagreeIff(lk, norm, row, store, Evidence(lk, norm, row));
  }

  lemma TopsDisagreeIff(lk: Lookups, norm: Norm, row: SaleRow, store: string, cs: seq<Candidate>)
    requires Collected(lk, norm, row, store, cs)
    ensures Conflicted(cs) <==> exists s :: Decides(lk, norm, row, store, s) && Contradicts(lk, norm, row, store, s)
  {
    if Conflicted(cs) {
      var c, d :| Top(cs, c) && Top(cs, d) && c.newSkuKey != d.newSkuKey;
      var s := DisagreementDecides(lk, norm, row, store, cs, c, d);
    }
    if s :| Decides(lk, norm, row, store, s) && Contradicts(lk, norm, row, store, s) {
      ContradictionTops(lk, norm, row, store, cs, s);
    }
  }

  lemma DisagreementDecides(
    lk: Lookups, norm: Norm, row: SaleRow, store: string, cs: seq<Candidate>, c: Candidate, d: Candidate)
    returns (s: Source)
    requires Collected(lk, norm, row, store, cs) && Top(cs, c) && Top(cs, d) && c.newSkuKey != d.newSkuKey
    ensures Decides(lk, norm, row, store, s) && Contradicts(lk, norm, row, store, s)
  {
    s := TopIsDeciding(lk, norm, row, store, cs, c);
    var t := TopIsDeciding(lk, norm, row, store, cs, d);
    OneDecides(lk, norm, row, store, s, t);
    assert IdentityIn(c).0 != IdentityIn(d).0;
  }

  lemma ContradictionTops(lk: Lookups, norm: Norm, row: SaleRow, store: string, cs: seq<Candidate>, s: Source)
    requires Collected(lk, norm, row, store, cs)
    requires Decides(lk, norm, row, store, s) && Contradicts(lk, norm, row, store, s)
    ensures Conflicted(cs)
  {
    var id: Identity, other: Identity :|
      Says(lk, norm, row, store, s, id) && Says(lk, norm, row, store, s, other) && id.0 != other.0;
    var c := DecidingIsTop(lk, norm, row, store, cs, s, id);
    var d := DecidingIsTop(lk, norm, row, store, cs, s, other);
  }

  // ---------------------------------------------------------------- the derived identity

  /** The sizes of `key` are tried in turn for a SKU id that is known and not blank. */
  ghost predicate FirstKnown(sizes: SizeMap, key: string, tries: seq<string>, id: string) {
    exists i :: 0 <= i < |tries| && Known(sizes, key, tries[i], id) && NoneKnown(sizes, key, tries[..i])
  }

  ghost predicate Known(sizes: SizeMap, key: string, size: string, id: string) {
    (key, size) in sizes && sizes[(key, size)] == id && id != ""
  }

  ghost predicate NoneKnown(sizes: SizeMap, key: string, tries: seq<string>) {
    forall size, id :: size in tries ==> !Known(sizes, key, size, id)
  }

  /** The SKU id of a size: the known id of the size itself, else of "NAN", else of "0"; with none known it
      is made of the key and the size. */
  lemma SkuIdMeaning(sizes: SizeMap, key: string, size: string)
    ensures var tries, id := [size, "NAN", "0"], SkuIdFor(sizes, key, size);
            || FirstKnown(sizes, key, tries, id)
            || (NoneKnown(sizes, key, tries) && id == (if size == "" then key else key + "_" + size))
  {
    var tries, id := [size, "NAN", "0"], SkuIdFor(sizes, key, size);
    if Known(sizes, key, size, id) {
      assert NoneKnown(sizes, key, tries[..0]);
    } else if Known(sizes, key, "NAN", id) {
      assert tries[..1] == [size] && tries[1] == "NAN";
    } else if Known(sizes, key, "0", id) {
      assert tries[..2] == [size, "NAN"] && tries[2] == "0";
    }
  }

  /** An entry has a say unless its offer names no ready SKU, or it is one of several and its size is not
      the one the row asks for. */
  ghost predicate HasASay(row: SaleRow, es: seq<Entry>, e: Entry) {
    && e.readyKey != ""
    && (|es| <= 1 || e.offerSize == "" || FirstGiven([row.nameSize, row.parsedOldSize]) == ""
        || FirstGiven([row.nameSize, row.parsedOldSize]) == e.offerSize)
  }

  /** The identity an entry stands for: its ready SKU, with the size of the offer name before that of the
      offer id before that of the old row. */
  ghost predicate StandsFor(lk: Lookups, row: SaleRow, e: Entry, id: Identity) {
    var sizes := [row.nameSize, e.offerSize, row.parsedOldSize];
    && id.0 == e.readyKey && id.1 == SkuIdFor(lk.sizes, e.readyKey, FirstGiven(sizes))
    && id.2 == FirstGiven(sizes + [row.mySize])
  }

  /** Some entry of the order has a say, and every one that has stands for `id`. */
  ghost predicate Unanimous(lk: Lookups, row: SaleRow, store: string, id: Identity) {
    var k := (row.orderId, store);
    && k in lk.entries
    && (exists e :: e in lk.entries[k] && HasASay(row, lk.entries[k], e))
    && forall e :: e in lk.entries[k] && HasASay(row, lk.entries[k], e) ==> StandsFor(lk, row, e, id)
  }

  lemma FirstOfFour(a: string, b: string, c: string, d: string)
    ensures FirstGiven([a, b, c] + [d]) == Or(Or(a, Or(b, c)), d)
  {
    FirstOf(a, [b, c, d]);
    FirstOfThree(b, c, d);
    assert [a] + [b, c, d] == [a, b, c] + [d];
  }

  lemma EntryMeaning(lk: Lookups, row: SaleRow, es: seq<Entry>, e: Entry, id: Identity)
    ensures Usable(row, es, e) <==> HasASay(row, es, e)
    ensures IdentityOf(lk, row, e) == id <==> StandsFor(lk, row, e, id)
  {
    FirstOfTwo(row.nameSize, row.parsedOldSize);
    FirstOfThree(row.nameSize, e.offerSize, row.parsedOldSize);
    FirstOfFour(row.nameSize, e.offerSize, row.parsedOldSize, row.mySize);
  }

  lemma AgreedIffUnanimous(lk: Lookups, row: SaleRow, store: string, id: Identity)
    requires SoldAt(row, store)
    ensures Agreed(lk, row, id) <==> Unanimous(lk, row, store, id)
  {
    forall e ensures Usable(row, EntriesOf(lk, row), e) <==> HasASay(row, EntriesOf(lk, row), e) {
      EntryMeaning(lk, row, EntriesOf(lk, row), e, id);
    }
    forall e ensures IdentityOf(lk, row, e) == id <==> StandsFor(lk, row, e, id) {
      EntryMeaning(lk, row, EntriesOf(lk, row), e, id);
    }
  }

  /** Primary evidence that does not contradict itself. */
  ghost predicate Settles(lk: Lookups, norm: Norm, row: SaleRow, store: string) {
    exists s :: Decides(lk, norm, row, store, s) && !Contradicts(lk, norm, row, store, s)
  }

  /** Whose identity the combined list gives a row: the deciding source's if it names one SKU key, and else
      the one the order's entries agree on. */
  lemma RightfulMeaning(lk: Lookups, norm: Norm, row: SaleRow, store: string, c: Candidate)
    requires SoldAt(row, store) && Rightful(lk, norm, row, c)
    ensures Carries(row, store, c)
    ensures if Settles(lk, norm, row, store) then
              && c.oldSize == ""
              && exists s :: Decides(lk, norm, row, store, s) && Says(lk, norm, row, store, s, IdentityIn(c))
            else c.oldSize == row.parsedOldSize && Unanimous(lk, row, store, IdentityIn(c))
  {
    TopsAgreeIffSettles(lk, norm, row, store);
    if TopsAgree(Evidence(lk, norm, row)) {
      StrongestSourceDecides(lk, norm, row, store, c);
    } else {
      AgreedIffUnanimous(lk, row, store, IdentityIn(c));
    }
  }

  lemma TopsAgreeIffSettles(lk: Lookups, norm: Norm, row: SaleRow, store: string)
    requires SoldAt(row, store)
    ensures TopsAgree(Evidence(lk, norm, row)) <==> Settles(lk, norm, row, store)
  {
    ConflictIffDecidingContradicts(lk, norm, row, store);
    NoEvidenceIffSilent(lk, norm, row, store);
    EvidenceIsCollected(lk, norm, row, store);
    var cs := Evidence(lk, norm, row);
    if cs != [] {
      var c := SomeTop(cs);
      var s := TopIsDeciding(lk, norm, row, store, cs, c);
      forall t | Decides(lk, norm, row, store, t) ensures t == s {
        OneDecides(lk, norm, row, store, s, t);
      }
    }
  }

  lemma {:induction false} SomeTop(cs: seq<Candidate>) returns (c: Candidate)
    requires cs != []
    ensures Top(cs, c)
  {
    c := cs[|cs| - 1];
    if |cs| > 1 {
      var d := SomeTop(cs[..|cs| - 1]);
      assert cs == cs[..|cs| - 1] + [c];
      c := if d.priority <= c.priority then d else c;
    }
  }
}
