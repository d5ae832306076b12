/** scripts/apply_sales_fact_v2_cogs_identity_repair.py: choosing a new SKU identity for every target
    row, splitting rows that would collide, and what is then true of the table.

    `norm` is the `upper().strip()` normalisation, any function here. Sizes parsed out of free text
    arrive as fields. */
module CogsIdentity {
  import opened Wrappers
  import LexOrder

  datatype SaleRow = SaleRow(
    saleId: int, orderId: string, store: Option<string>, offer: string,
    skuKey: string, skuId: string, mySize: string,
    nameSize: string, parsedOldSize: string, normOldSize: string,
    cogs: Option<int>, profit: Option<int>)

  datatype Entry = Entry(offerId: string, readyKey: string, offerSize: string)
  datatype OrderRow = OrderRow(skuKey: string, skuId: string, offer: string, size: string)

  datatype Candidate = Candidate(
    saleId: int, orderId: string, storeCode: string, offer: string,
    newSkuKey: string, newSkuId: string, newSize: string, priority: int,
    oldSize: string, normOldSize: string)

  type Norm = string -> string
  type SizeMap = map<(string, string), string>

  datatype Lookups = Lookups(
    articles: map<(string, string), (string, string)>,
    offerNames: map<(string, string), (string, string)>,
    entries: map<(string, string), seq<Entry>>,
    orders: map<(string, string), seq<OrderRow>>,
    ready: set<string>,
    sizes: SizeMap)

  function Or(a: string, b: string): string { if a != "" then a else b }

  function StoreCode(row: SaleRow): string {
    if row.store.Some? && row.store.value != "" then row.store.value else "UNIVERSAL"
  }

  function Make(row: SaleRow, skuKey: string, skuId: string, size: string, priority: int, oldSize: string): Candidate {
    Candidate(
      row.saleId, row.orderId, StoreCode(row), row.offer, skuKey, skuId, size, priority, oldSize, row.normOldSize)
  }

  // ---------------------------------------------------------------- primary evidence

  function EntriesOf(lk: Lookups, row: SaleRow): seq<Entry> {
    var k := (row.orderId, StoreCode(row));
    if k in lk.entries then lk.entries[k] else []
  }

  predicate IsPrefix(p: string, s: string) { p <= s }

  /** Priority 5: an entry whose offer id is the old identity itself. */
  function OldIdentityEvidence(lk: Lookups, norm: Norm, row: SaleRow, es: seq<Entry>): seq<Candidate> {
    if es == [] then []
    else
      var init := OldIdentityEvidence(lk, norm, row, es[..|es| - 1]);
      var offer := norm(es[|es| - 1].offerId);
      var k := (offer, norm(StoreCode(row)));
      if row.skuKey in {"116515378", "132822924"} && k in lk.articles
         && (offer == norm(row.skuKey) || offer == norm(row.skuId) || IsPrefix(norm(row.skuKey) + "_", offer))
      then init + [Make(row, lk.articles[k].0, lk.articles[k].1, row.mySize, 5, "")]
      else init
  }

  /** Priority 10: the order has one entry and the article map knows it. */
  function SingleEntryEvidence(lk: Lookups, norm: Norm, row: SaleRow): seq<Candidate> {
    var es := EntriesOf(lk, row);
    if |es| == 1 then
      var k := (norm(es[0].offerId), norm(StoreCode(row)));
      if k in lk.articles then [Make(row, lk.articles[k].0, lk.articles[k].1, row.mySize, 10, "")] else []
    else []
  }

  /** Priority 20: the offer name map knows the row. */
  function OfferNameEvidence(lk: Lookups, norm: Norm, row: SaleRow): seq<Candidate> {
    var k := (norm(row.offer), norm(StoreCode(row)));
    if k in lk.offerNames then [Make(row, lk.offerNames[k].0, lk.offerNames[k].1, row.mySize, 20, "")] else []
  }

  function NonGeneric(lk: Lookups, norm: Norm, os: seq<OrderRow>): seq<OrderRow> {
    if os == [] then []
    else
      var init, last := NonGeneric(lk, norm, os[..|os| - 1]), os[|os| - 1];
      if norm(last.skuKey) !in {"", "CL", "UNKNOWN", "116515378", "132822924"} && last.skuKey in lk.ready
      then init + [last] else init
  }

  function OrdersOf(lk: Lookups, norm: Norm, row: SaleRow): seq<OrderRow> {
    var k := (row.orderId, StoreCode(row));
    if k in lk.orders then NonGeneric(lk, norm, lk.orders[k]) else []
  }

  function FromOrder(row: SaleRow, o: OrderRow, priority: int): Candidate {
    Make(row, o.skuKey, o.skuId, Or(o.size, row.mySize), priority, "")
  }

  /** Priority 30: order rows with the same offer name. */
  function OrderNameEvidence(norm: Norm, row: SaleRow, os: seq<OrderRow>): seq<Candidate> {
    if os == [] then []
    else
      var init, last := OrderNameEvidence(norm, row, os[..|os| - 1]), os[|os| - 1];
      if norm(last.offer) == norm(row.offer) then init + [FromOrder(row, last, 30)] else init
  }

  /** Priority 40: the only order row there is. */
  function SingleOrderEvidence(lk: Lookups, norm: Norm, row: SaleRow): seq<Candidate> {
    var os := OrdersOf(lk, norm, row);
    if |os| == 1 then [FromOrder(row, os[0], 40)] else []
  }

  function Evidence(lk: Lookups, norm: Norm, row: SaleRow): seq<Candidate> {
    OldIdentityEvidence(lk, norm, row, EntriesOf(lk, row))
    + SingleEntryEvidence(lk, norm, row)
    + OfferNameEvidence(lk, norm, row)
    + OrderNameEvidence(norm, row, OrdersOf(lk, norm, row))
    + SingleOrderEvidence(lk, norm, row)
  }

  /** What any candidate made for `row` carries over from it. */
  predicate For(c: Candidate, row: SaleRow) {
    && c.saleId == row.saleId && c.orderId == row.orderId && c.storeCode == StoreCode(row)
    && c.offer == row.offer && c.normOldSize == row.normOldSize
  }

  lemma {:induction false} EntryEvidenceIsForRow(lk: Lookups, norm: Norm, row: SaleRow, es: seq<Entry>)
    ensures forall c :: c in OldIdentityEvidence(lk, norm, row, es) ==> For(c, row)
  {
    if es != [] {
      EntryEvidenceIsForRow(lk, norm, row, es[..|es| - 1]);
    }
  }

  lemma {:induction false} OrderEvidenceIsForRow(norm: Norm, row: SaleRow, os: seq<OrderRow>)
    ensures forall c :: c in OrderNameEvidence(norm, row, os) ==> For(c, row)
  {
    if os != [] {
      OrderEvidenceIsForRow(norm, row, os[..|os| - 1]);
    }
  }

  lemma EvidenceIsForRow(lk: Lookups, norm: Norm, row: SaleRow)
    ensures forall c :: c in Evidence(lk, norm, row) ==> For(c, row)
  {
    EntryEvidenceIsForRow(lk, norm, row, EntriesOf(lk, row));
    OrderEvidenceIsForRow(norm, row, OrdersOf(lk, norm, row));
  }

  // ---------------------------------------------------------------- choice

  predicate Top(cs: seq<Candidate>, c: Candidate) {
    c in cs && forall d :: d in cs ==> c.priority <= d.priority
  }

  /** The strongest evidence, agreed on the SKU key, with the least SKU id; of several the first found. */
  ghost predicate Best(cs: seq<Candidate>, c: Candidate) {
    && Top(cs, c)
    && (forall d :: Top(cs, d) ==> d.newSkuKey == c.newSkuKey && !LexOrder.Less(d.newSkuId, c.newSkuId))
    && exists i :: 0 <= i < |cs| && FirstWithId(cs, c, i)
  }

  ghost predicate FirstWithId(cs: seq<Candidate>, c: Candidate, i: nat)
    requires i < |cs|
  {
    cs[i] == c && forall k :: 0 <= k < i && Top(cs, cs[k]) ==> cs[k].newSkuId != c.newSkuId
  }

  datatype Choice = NoEvidence | Conflict | Chosen(candidate: Candidate)

  /** The choice among one row's evidence: the strongest, if the strongest agree on the SKU key, and of
      those the one with the least SKU id. */
  method Choose(cs: seq<Candidate>) returns (r: Choice)
    ensures r.NoEvidence? <==> cs == []
    ensures r.Conflict? <==> exists c, d :: Top(cs, c) && Top(cs, d) && c.newSkuKey != d.newSkuKey
    ensures r.Chosen? ==> Best(cs, r.candidate)
  {
    if cs == [] {
      return NoEvidence;
    }
    var b: nat := FirstStrongest(cs);
    for i := 0 to |cs|
      invariant b < |cs| && Top(cs, cs[b]) && FirstWithId(cs, cs[b], b)
      invariant forall k :: 0 <= k < i && Top(cs, cs[k]) ==>
                  cs[k].newSkuKey == cs[b].newSkuKey && !LexOrder.Less(cs[k].newSkuId, cs[b].newSkuId)
    {
      if cs[i].priority == cs[b].priority {
        assert Top(cs, cs[i]);
        if cs[i].newSkuKey != cs[b].newSkuKey {
          return Conflict;
        }
        LexOrder.Trichotomy(cs[i].newSkuId, cs[b].newSkuId);
        LexOrder.Trichotomy(cs[i].newSkuId, cs[i].newSkuId);
        if LexOrder.Less(cs[i].newSkuId, cs[b].newSkuId) {
          forall k | 0 <= k < i && Top(cs, cs[k]) ensures !LexOrder.Less(cs[k].newSkuId, cs[i].newSkuId) {
            if LexOrder.Less(cs[k].newSkuId, cs[i].newSkuId) {
              LexOrder.Transitive(cs[k].newSkuId, cs[i].newSkuId, cs[b].newSkuId);
            }
          }
          b := i;
        }
      }
    }
    r := Chosen(cs[b]);
  }

  /** `min(candidate.priority ...)` and the first candidate that has it. */
  method FirstStrongest(cs: seq<Candidate>) returns (b: nat)
    requires cs != []
    ensures b < |cs| && Top(cs, cs[b]) && forall k :: 0 <= k < b ==> !Top(cs, cs[k])
  {
    b := 0;
    for i := 1 to |cs|
      invariant b < i
      invariant forall k :: 0 <= k < i ==> cs[b].priority <= cs[k].priority
      invariant forall k :: 0 <= k < b ==> cs[b].priority < cs[k].priority
    {
      if cs[i].priority < cs[b].priority {
        b := i;
      }
    }
    assert cs[b] in cs;
  }

  // ---------------------------------------------------------------- derived identity

  function Get(sizes: SizeMap, key: string, size: string): string {
    if (key, size) in sizes then sizes[(key, size)] else ""
  }

  /** `_sku_id_for` */
  function SkuIdFor(sizes: SizeMap, key: string, size: string): string {
    Or(Get(sizes, key, size),
       Or(Get(sizes, key, "NAN"),
          Or(Get(sizes, key, "0"), if size != "" then key + "_" + size else key)))
  }

  predicate Usable(row: SaleRow, es: seq<Entry>, e: Entry) {
    var desired := Or(row.nameSize, row.parsedOldSize);
    && e.readyKey != ""
    && !(|es| > 1 && desired != "" && e.offerSize != "" && e.offerSize != desired)
  }

  function IdentityOf(lk: Lookups, row: SaleRow, e: Entry): (string, string, string) {
    var size := Or(row.nameSize, Or(e.offerSize, row.parsedOldSize));
    (e.readyKey, SkuIdFor(lk.sizes, e.readyKey, size), Or(size, row.mySize))
  }

  type Identity = (string, string, string)

  /** Some entry is usable, and every usable entry gives `id`. */
  ghost predicate Agreed(lk: Lookups, row: SaleRow, id: Identity) {
    var es := EntriesOf(lk, row);
    && (exists e :: e in es && Usable(row, es, e))
    && forall e :: e in es && Usable(row, es, e) ==> IdentityOf(lk, row, e) == id
  }

  /** `c` is the candidate derived from that agreement; it keeps the size read off the old row. */
  ghost predicate AgreedFor(lk: Lookups, row: SaleRow, c: Candidate) {
    Agreed(lk, row, (c.newSkuKey, c.newSkuId, c.newSize)) && c.oldSize == row.parsedOldSize && c.priority == 50
  }

  method AgreedIdentity(lk: Lookups, row: SaleRow) returns (found: Option<Identity>)
    ensures found.Some? ==> Agreed(lk, row, found.value)
    ensures found.None? ==> forall id :: !Agreed(lk, row, id)
  {
    var es := EntriesOf(lk, row);
    found := None;
    for i := 0 to |es|
      invariant found.None? ==> forall k :: 0 <= k < i ==> !Usable(row, es, es[k])
      invariant found.Some? ==> exists e :: e in es && Usable(row, es, e) && IdentityOf(lk, row, e) == found.value
      invariant found.Some? ==>
                  forall k :: 0 <= k < i && Usable(row, es, es[k]) ==> IdentityOf(lk, row, es[k]) == found.value
    {
      if Usable(row, es, es[i]) {
        var id := IdentityOf(lk, row, es[i]);
        if found.Some? && found.value != id {
          assert es[i] in es;
          return None;
        }
        found := Some(id);
      }
    }
  }

  /** `_derived_candidate`: the one identity all usable entries agree on. */
  method Derive(lk: Lookups, row: SaleRow) returns (r: Option<Candidate>)
    ensures r.Some? ==> For(r.value, row) && AgreedFor(lk, row, r.value)
    ensures r.None? ==> forall id :: !Agreed(lk, row, id)
  {
    var found := AgreedIdentity(lk, row);
    if found.None? {
      return None;
    }
    var (key, id, size) := found.value;
    r := Some(Make(row, key, id, size, 50, row.parsedOldSize));
  }

  // ---------------------------------------------------------------- build_candidates, first half

  datatype Excluded =
    | PrimaryConflict(saleId: int)
    | Unresolved(saleId: int)
    | CandidateCollision(saleIds: seq<int>)
    | ExistingCollision(saleId: int, existing: int)

  ghost predicate Names(x: Excluded, id: int) {
    match x
    case PrimaryConflict(i) => i == id
    case Unresolved(i) => i == id
    case CandidateCollision(ids) => id in ids
    case ExistingCollision(i, _) => i == id
  }

  ghost predicate Named(xs: seq<Excluded>, id: int) {
    exists x :: x in xs && Names(x, id)
  }

  ghost predicate Keyed(rows: seq<SaleRow>) {
    forall i, j :: 0 <= i < j < |rows| ==> rows[i].saleId != rows[j].saleId
  }

  ghost predicate DistinctSales(cs: seq<Candidate>) {
    forall i, j :: 0 <= i < j < |cs| ==> cs[i].saleId != cs[j].saleId
  }

  ghost predicate HasSale(cs: seq<Candidate>, id: int) {
    exists c :: c in cs && c.saleId == id
  }

  lemma HasSaleIn(cs: seq<Candidate>, ds: seq<Candidate>, id: int)
    requires HasSale(cs, id) || HasSale(ds, id)
    ensures HasSale(cs + ds, id)
  {
    var c :| (c in cs || c in ds) && c.saleId == id;
    assert c in cs + ds;
  }

  lemma NamedIn(xs: seq<Excluded>, ys: seq<Excluded>, id: int)
    requires Named(xs, id) || Named(ys, id)
    ensures Named(xs + ys, id)
  {
    var x :| (x in xs || x in ys) && Names(x, id);
    assert x in xs + ys;
  }

  /** `c` was made for one of the first `k` targets. */
  ghost predicate MadeFor(targets: seq<SaleRow>, k: nat, c: Candidate)
    requires k <= |targets|
  {
    exists p :: 0 <= p < k && For(c, targets[p])
  }

  ghost predicate AllMadeFor(targets: seq<SaleRow>, k: nat, cs: seq<Candidate>)
    requires k <= |targets|
  {
    && DistinctSales(cs)
    && forall c :: c in cs ==> MadeFor(targets, k, c)
  }

  lemma OneMore(targets: seq<SaleRow>, k: nat, cs: seq<Candidate>, c: Candidate)
    requires Keyed(targets) && k < |targets|
    requires AllMadeFor(targets, k, cs) && For(c, targets[k])
    ensures AllMadeFor(targets, k + 1, cs + [c])
  {
    forall i | 0 <= i < |cs| ensures cs[i].saleId != c.saleId {
      assert MadeFor(targets, k, cs[i]);
    }
    forall d | d in cs + [c] ensures MadeFor(targets, k + 1, d) {
      if d in cs {
        assert MadeFor(targets, k, d);
      }
    }
  }

  lemma StillMadeFor(targets: seq<SaleRow>, k: nat, cs: seq<Candidate>)
    requires k < |targets| && AllMadeFor(targets, k, cs)
    ensures AllMadeFor(targets, k + 1, cs)
  {
    forall c | c in cs ensures MadeFor(targets, k + 1, c) {
      assert MadeFor(targets, k, c);
    }
  }

  /** A row has a candidate, or a record that names it. */
  ghost predicate Accounted(cs: seq<Candidate>, xs: seq<Excluded>, id: int) {
    HasSale(cs, id) || Named(xs, id)
  }

  lemma StillAccounted(cs: seq<Candidate>, more: seq<Candidate>, xs: seq<Excluded>, ys: seq<Excluded>, id: int)
    requires Accounted(cs, xs, id) || Accounted(more, ys, id)
    ensures Accounted(cs + more, xs + ys, id)
  {
    if HasSale(cs, id) || HasSale(more, id) {
      HasSaleIn(cs, more, id);
    } else {
      NamedIn(xs, ys, id);
    }
  }

  /** There is evidence, and the strongest of it agrees on the SKU key. */
  ghost predicate TopsAgree(cs: seq<Candidate>) {
    cs != [] && forall c, d :: Top(cs, c) && Top(cs, d) ==> c.newSkuKey == d.newSkuKey
  }

  /** The strongest evidence names two SKU keys. */
  ghost predicate Conflicted(cs: seq<Candidate>) {
    cs != [] && !TopsAgree(cs)
  }

  /** What the first pass owes a row: a candidate exactly when its strongest evidence agrees, and a
      conflict record when it does not. */
  ghost predicate Passed(
    lk: Lookups, norm: Norm, row: SaleRow, primary: seq<Candidate>, conflicts: seq<Excluded>)
  {
    var evidence := Evidence(lk, norm, row);
    && (HasSale(primary, row.saleId) <==> TopsAgree(evidence))
    && (Conflicted(evidence) ==> Named(conflicts, row.saleId))
  }

  lemma StillPassed(
    lk: Lookups, norm: Norm, row: SaleRow, primary: seq<Candidate>, conflicts: seq<Excluded>,
    more: seq<Candidate>, records: seq<Excluded>)
    requires Passed(lk, norm, row, primary, conflicts)
    requires forall c :: c in more ==> c.saleId != row.saleId
    ensures Passed(lk, norm, row, primary + more, conflicts + records)
  {
    if HasSale(primary, row.saleId) {
      HasSaleIn(primary, more, row.saleId);
    }
    if Named(conflicts, row.saleId) {
      NamedIn(conflicts, records, row.saleId);
    }
  }

  /** One row of the first pass. */
  method PrimaryRow(lk: Lookups, norm: Norm, row: SaleRow) returns (more: seq<Candidate>, records: seq<Excluded>)
    ensures |more| <= 1 && forall c :: c in more ==> For(c, row) && Best(Evidence(lk, norm, row), c)
    ensures Passed(lk, norm, row, more, records)
    ensures records == if Conflicted(Evidence(lk, norm, row)) then [PrimaryConflict(row.saleId)] else []
  {
    var evidence := Evidence(lk, norm, row);
    EvidenceIsForRow(lk, norm, row);
    var choice := Choose(evidence);
    match choice
    case Chosen(c) =>
      more, records := [c], [];
      assert c in more;
    case Conflict =>
      more, records := [], [PrimaryConflict(row.saleId)];
      assert PrimaryConflict(row.saleId) in records;
    case NoEvidence =>
      more, records := [], [];
  }

  lemma RowPassed(
    lk: Lookups, norm: Norm, targets: seq<SaleRow>, k: nat, primary: seq<Candidate>, conflicts: seq<Excluded>,
    more: seq<Candidate>, records: seq<Excluded>)
    requires Keyed(targets) && k < |targets| && AllMadeFor(targets, k, primary)
    requires Passed(lk, norm, targets[k], more, records)
    ensures Passed(lk, norm, targets[k], primary + more, conflicts + records)
  {
    forall c | c in primary ensures c.saleId != targets[k].saleId {
      assert MadeFor(targets, k, c);
    }
    if HasSale(more, targets[k].saleId) {
      HasSaleIn(primary, more, targets[k].saleId);
    }
    if Named(records, targets[k].saleId) {
      NamedIn(conflicts, records, targets[k].saleId);
    }
  }

  /** The candidates come in the order of their targets. */
  ghost predicate InOrder(targets: seq<SaleRow>, cs: seq<Candidate>) {
    forall i, j, p, q ::
      0 <= i < j < |cs| && 0 <= p < |targets| && 0 <= q < |targets| && For(cs[i], targets[p]) && For(cs[j], targets[q])
      ==> p < q
  }

  lemma InOrderOneMore(targets: seq<SaleRow>, k: nat, cs: seq<Candidate>, more: seq<Candidate>)
    requires Keyed(targets) && k < |targets| && AllMadeFor(targets, k, cs) && InOrder(targets, cs)
    requires |more| <= 1 && forall c :: c in more ==> For(c, targets[k])
    ensures InOrder(targets, cs + more)
  {
    var all := cs + more;
    forall i, j, p, q | 0 <= i < j < |all| && 0 <= p < |targets| && 0 <= q < |targets|
                        && For(all[i], targets[p]) && For(all[j], targets[q])
      ensures p < q
    {
      if j >= |cs| {
        assert MadeFor(targets, k, cs[i]) && all[j] in more;
      }
    }
  }

  ghost predicate FirstPassed(
    lk: Lookups, norm: Norm, targets: seq<SaleRow>, k: nat, primary: seq<Candidate>, conflicts: seq<Excluded>)
    requires k <= |targets|
  {
    && AllMadeFor(targets, k, primary) && InOrder(targets, primary)
    && forall p :: 0 <= p < k ==> Passed(lk, norm, targets[p], primary, conflicts)
  }

  lemma EarlierRowsStayPassed(
    lk: Lookups, norm: Norm, targets: seq<SaleRow>, k: nat, primary: seq<Candidate>, conflicts: seq<Excluded>,
    more: seq<Candidate>, records: seq<Excluded>, p: nat)
    requires Keyed(targets) && p < k < |targets| && Passed(lk, norm, targets[p], primary, conflicts)
    requires forall c :: c in more ==> For(c, targets[k])
    ensures Passed(lk, norm, targets[p], primary + more, conflicts + records)
  {
    assert targets[p].saleId != targets[k].saleId;
    StillPassed(lk, norm, targets[p], primary, conflicts, more, records);
  }

  lemma AtMostOneMore(targets: seq<SaleRow>, k: nat, cs: seq<Candidate>, more: seq<Candidate>)
    requires Keyed(targets) && k < |targets| && AllMadeFor(targets, k, cs)
    requires |more| <= 1 && forall c :: c in more ==> For(c, targets[k])
    ensures AllMadeFor(targets, k + 1, cs + more)
  {
    if more == [] {
      StillMadeFor(targets, k, cs);
      assert cs + more == cs;
    } else {
      assert more[0] in more && more == [more[0]];
      OneMore(targets, k, cs, more[0]);
    }
  }

  lemma PassOneMore(
    lk: Lookups, norm: Norm, targets: seq<SaleRow>, k: nat, primary: seq<Candidate>, conflicts: seq<Excluded>,
    more: seq<Candidate>, records: seq<Excluded>)
    requires Keyed(targets) && k < |targets| && FirstPassed(lk, norm, targets, k, primary, conflicts)
    requires |more| <= 1 && (forall c :: c in more ==> For(c, targets[k]))
    requires Passed(lk, norm, targets[k], more, records)
    ensures FirstPassed(lk, norm, targets, k + 1, primary + more, conflicts + records)
  {
    forall p | 0 <= p < k ensures Passed(lk, norm, targets[p], primary + more, conflicts + records) {
      EarlierRowsStayPassed(lk, norm, targets, k, primary, conflicts, more, records, p);
    }
    RowPassed(lk, norm, targets, k, primary, conflicts, more, records);
    AtMostOneMore(targets, k, primary, more);
    InOrderOneMore(targets, k, primary, more);
  }

  /** `c` is the best primary evidence of one of the first `k` targets. */
  ghost predicate ByEvidence(lk: Lookups, norm: Norm, targets: seq<SaleRow>, k: nat, c: Candidate)
    requires k <= |targets|
  {
    exists p :: 0 <= p < k && For(c, targets[p]) && Best(Evidence(lk, norm, targets[p]), c)
  }

  /** `c` is the identity all usable entries of one of the first `k` targets agree on. */
  ghost predicate ByEntries(lk: Lookups, targets: seq<SaleRow>, k: nat, c: Candidate)
    requires k <= |targets|
  {
    exists p :: 0 <= p < k && For(c, targets[p]) && AgreedFor(lk, targets[p], c)
  }

  lemma ByEvidenceOneMore(
    lk: Lookups, norm: Norm, targets: seq<SaleRow>, k: nat, primary: seq<Candidate>, more: seq<Candidate>)
    requires k < |targets| && forall c :: c in primary ==> ByEvidence(lk, norm, targets, k, c)
    requires forall c :: c in more ==> For(c, targets[k]) && Best(Evidence(lk, norm, targets[k]), c)
    ensures forall c :: c in primary + more ==> ByEvidence(lk, norm, targets, k + 1, c)
  {
    forall c | c in primary + more ensures ByEvidence(lk, norm, targets, k + 1, c) {
      if c in primary {
        assert ByEvidence(lk, norm, targets, k, c);
      }
    }
  }

  lemma ByEntriesOneMore(lk: Lookups, targets: seq<SaleRow>, k: nat, derived: seq<Candidate>, more: seq<Candidate>)
    requires k < |targets| && forall c :: c in derived ==> ByEntries(lk, targets, k, c)
    requires forall c :: c in more ==>
               For(c, targets[k]) && AgreedFor(lk, targets[k], c)
    ensures forall c :: c in derived + more ==> ByEntries(lk, targets, k + 1, c)
  {
    forall c | c in derived + more ensures ByEntries(lk, targets, k + 1, c) {
      if c in derived {
        assert ByEntries(lk, targets, k, c);
      }
    }
  }

  /** Primary evidence decides wherever its strongest agrees; only elsewhere do the entries decide. */
  ghost predicate Rightful(lk: Lookups, norm: Norm, row: SaleRow, c: Candidate) {
    && For(c, row)
    && var evidence := Evidence(lk, norm, row);
       if TopsAgree(evidence) then Best(evidence, c) else AgreedFor(lk, row, c)
  }

  ghost predicate RightfulSome(lk: Lookups, norm: Norm, targets: seq<SaleRow>, c: Candidate) {
    exists p :: 0 <= p < |targets| && Rightful(lk, norm, targets[p], c)
  }

  lemma PrimaryIsRightful(lk: Lookups, norm: Norm, targets: seq<SaleRow>, c: Candidate)
    requires ByEvidence(lk, norm, targets, |targets|, c)
    ensures RightfulSome(lk, norm, targets, c)
  {
    var p :| 0 <= p < |targets| && For(c, targets[p]) && Best(Evidence(lk, norm, targets[p]), c);
    assert TopsAgree(Evidence(lk, norm, targets[p]));
    assert Rightful(lk, norm, targets[p], c);
  }

  lemma DerivedIsRightful(
    lk: Lookups, norm: Norm, targets: seq<SaleRow>, primary: seq<Candidate>, conflicts: seq<Excluded>, c: Candidate)
    requires FirstPassed(lk, norm, targets, |targets|, primary, conflicts)
    requires ByEntries(lk, targets, |targets|, c) && !HasSale(primary, c.saleId)
    ensures RightfulSome(lk, norm, targets, c)
  {
    var p :| 0 <= p < |targets| && For(c, targets[p])
             && AgreedFor(lk, targets[p], c);
    assert Passed(lk, norm, targets[p], primary, conflicts);
    assert Rightful(lk, norm, targets[p], c);
  }

  /** `_primary_candidates`. */
  method Primary(lk: Lookups, norm: Norm, targets: seq<SaleRow>)
    returns (primary: seq<Candidate>, conflicts: seq<Excluded>)
    requires Keyed(targets)
    ensures FirstPassed(lk, norm, targets, |targets|, primary, conflicts)
    ensures forall c :: c in primary ==> ByEvidence(lk, norm, targets, |targets|, c)
    ensures conflicts == [] <==> forall p :: 0 <= p < |targets| ==> !Conflicted(Evidence(lk, norm, targets[p]))
  {
    primary, conflicts := [], [];
    for k := 0 to |targets|
      invariant FirstPassed(lk, norm, targets, k, primary, conflicts)
      invariant forall c :: c in primary ==> ByEvidence(lk, norm, targets, k, c)
      invariant conflicts == [] <==> forall p :: 0 <= p < k ==> !Conflicted(Evidence(lk, norm, targets[p]))
    {
      var more, records := PrimaryRow(lk, norm, targets[k]);
      ByEvidenceOneMore(lk, norm, targets, k, primary, more);
      PassOneMore(lk, norm, targets, k, primary, conflicts, more, records);
      primary, conflicts := primary + more, conflicts + records;
    }
  }

  ghost predicate EntriesAgree(lk: Lookups, row: SaleRow) {
    exists id :: Agreed(lk, row, id)
  }

  /** A row without a primary candidate has a derived one if its entries agree, and a record if not. */
  ghost predicate Resolved(
    lk: Lookups, row: SaleRow, primary: seq<Candidate>, derived: seq<Candidate>, unresolved: seq<Excluded>)
  {
    HasSale(primary, row.saleId)
    || if EntriesAgree(lk, row) then HasSale(derived, row.saleId) else Named(unresolved, row.saleId)
  }

  lemma StillResolved(
    lk: Lookups, row: SaleRow, primary: seq<Candidate>, derived: seq<Candidate>, unresolved: seq<Excluded>,
    more: seq<Candidate>, records: seq<Excluded>)
    requires Resolved(lk, row, primary, derived, unresolved)
    ensures Resolved(lk, row, primary, derived + more, unresolved + records)
  {
    if HasSale(derived, row.saleId) {
      HasSaleIn(derived, more, row.saleId);
    }
    if Named(unresolved, row.saleId) {
      NamedIn(unresolved, records, row.saleId);
    }
  }

  lemma ResolvedNow(
    lk: Lookups, row: SaleRow, primary: seq<Candidate>, derived: seq<Candidate>, unresolved: seq<Excluded>,
    more: seq<Candidate>, records: seq<Excluded>)
    requires Resolved(lk, row, primary, more, records)
    ensures Resolved(lk, row, primary, derived + more, unresolved + records)
  {
    if HasSale(more, row.saleId) {
      HasSaleIn(derived, more, row.saleId);
    }
    if Named(records, row.saleId) {
      NamedIn(unresolved, records, row.saleId);
    }
  }

  /** The state of the second pass after the first `k` targets. */
  ghost predicate SecondPassed(
    lk: Lookups, targets: seq<SaleRow>, k: nat, primary: seq<Candidate>, derived: seq<Candidate>,
    unresolved: seq<Excluded>)
    requires k <= |targets|
  {
    && AllMadeFor(targets, k, derived) && InOrder(targets, derived)
    && (forall c :: c in derived ==> !HasSale(primary, c.saleId) && ByEntries(lk, targets, k, c))
    && forall p :: 0 <= p < k ==> Resolved(lk, targets[p], primary, derived, unresolved)
  }

  lemma SecondOneMore(
    lk: Lookups, targets: seq<SaleRow>, k: nat, primary: seq<Candidate>, derived: seq<Candidate>,
    unresolved: seq<Excluded>, more: seq<Candidate>, records: seq<Excluded>)
    requires Keyed(targets) && k < |targets| && SecondPassed(lk, targets, k, primary, derived, unresolved)
    requires |more| <= 1 && Resolved(lk, targets[k], primary, more, records)
    requires forall c :: c in more ==>
               && For(c, targets[k]) && !HasSale(primary, c.saleId)
               && AgreedFor(lk, targets[k], c)
    ensures SecondPassed(lk, targets, k + 1, primary, derived + more, unresolved + records)
  {
    forall p | 0 <= p < k + 1 ensures Resolved(lk, targets[p], primary, derived + more, unresolved + records) {
      if p < k {
        StillResolved(lk, targets[p], primary, derived, unresolved, more, records);
      } else {
        ResolvedNow(lk, targets[k], primary, derived, unresolved, more, records);
      }
    }
    AtMostOneMore(targets, k, derived, more);
    InOrderOneMore(targets, k, derived, more);
    ByEntriesOneMore(lk, targets, k, derived, more);
  }

  /** One row of the second pass. */
  method DerivedRow(lk: Lookups, row: SaleRow, primary: seq<Candidate>)
    returns (more: seq<Candidate>, records: seq<Excluded>)
    ensures |more| <= 1 && Resolved(lk, row, primary, more, records)
    ensures forall c :: c in more ==>
              && For(c, row) && !HasSale(primary, c.saleId)
              && AgreedFor(lk, row, c)
    ensures records == if HasSale(primary, row.saleId) || EntriesAgree(lk, row) then [] else [Unresolved(row.saleId)]
  {
    more, records := [], [];
    if !exists c :: c in primary && c.saleId == row.saleId {
      var c := Derive(lk, row);
      if c.Some? {
        more := [c.value];
        assert c.value in more;
      } else {
        records := [Unresolved(row.saleId)];
        assert Unresolved(row.saleId) in records;
      }
    }
  }

  /** The second pass of `build_candidates`: a derived candidate, or an unresolved record, for every
      target the first pass left without one. */
  method Derived(lk: Lookups, targets: seq<SaleRow>, primary: seq<Candidate>)
    returns (derived: seq<Candidate>, unresolved: seq<Excluded>)
    requires Keyed(targets)
    ensures AllMadeFor(targets, |targets|, derived) && InOrder(targets, derived)
    ensures forall c :: c in derived ==> !HasSale(primary, c.saleId) && ByEntries(lk, targets, |targets|, c)
    ensures forall p :: 0 <= p < |targets| ==> Resolved(lk, targets[p], primary, derived, unresolved)
    ensures unresolved == [] <==>
              forall p :: 0 <= p < |targets| ==> HasSale(primary, targets[p].saleId) || EntriesAgree(lk, targets[p])
  {
    derived, unresolved := [], [];
    for k := 0 to |targets|
      invariant SecondPassed(lk, targets, k, primary, derived, unresolved)
      invariant unresolved == [] <==>
                  forall p :: 0 <= p < k ==> HasSale(primary, targets[p].saleId) || EntriesAgree(lk, targets[p])
    {
      var more, records := DerivedRow(lk, targets[k], primary);
      SecondOneMore(lk, targets, k, primary, derived, unresolved, more, records);
      derived, unresolved := derived + more, unresolved + records;
    }
  }

  /** The evidence settles every target: its strongest agrees, or there is none and the entries agree. */
  ghost predicate AllDecided(lk: Lookups, norm: Norm, targets: seq<SaleRow>) {
    forall p :: 0 <= p < |targets| ==> Decided(lk, norm, targets[p])
  }

  ghost predicate Decided(lk: Lookups, norm: Norm, row: SaleRow) {
    var evidence := Evidence(lk, norm, row);
    TopsAgree(evidence) || (evidence == [] && EntriesAgree(lk, row))
  }

  lemma CleanPassesDecide(
    lk: Lookups, norm: Norm, targets: seq<SaleRow>, primary: seq<Candidate>, conflicts: seq<Excluded>)
    requires FirstPassed(lk, norm, targets, |targets|, primary, conflicts)
    ensures AllDecided(lk, norm, targets) <==>
            && (forall p :: 0 <= p < |targets| ==> !Conflicted(Evidence(lk, norm, targets[p])))
            && forall p :: 0 <= p < |targets| ==> HasSale(primary, targets[p].saleId) || EntriesAgree(lk, targets[p])
  {
    forall p | 0 <= p < |targets|
      ensures Decided(lk, norm, targets[p]) <==>
              !Conflicted(Evidence(lk, norm, targets[p]))
              && (HasSale(primary, targets[p].saleId) || EntriesAgree(lk, targets[p]))
    {
      assert Passed(lk, norm, targets[p], primary, conflicts);
    }
  }

  /** `p` is handled before `q`: the targets that primary evidence decides come first. */
  ghost predicate Earlier(lk: Lookups, norm: Norm, targets: seq<SaleRow>, p: nat, q: nat)
    requires p < |targets| && q < |targets|
  {
    var a, b := TopsAgree(Evidence(lk, norm, targets[p])), TopsAgree(Evidence(lk, norm, targets[q]));
    if a != b then a else p < q
  }

  ghost predicate Sequenced(lk: Lookups, norm: Norm, targets: seq<SaleRow>, cs: seq<Candidate>) {
    forall i, j, p, q ::
      0 <= i < j < |cs| && 0 <= p < |targets| && 0 <= q < |targets| && For(cs[i], targets[p]) && For(cs[j], targets[q])
      ==> Earlier(lk, norm, targets, p, q)
  }

  /** `build_candidates` up to the collision check: every target has at most one candidate, the rightful
      one, and a target without any is named in a record. */
  method Combine(lk: Lookups, norm: Norm, targets: seq<SaleRow>) returns (combined: seq<Candidate>, xs: seq<Excluded>)
    requires Keyed(targets)
    ensures AllMadeFor(targets, |targets|, combined)
    ensures forall c :: c in combined ==> RightfulSome(lk, norm, targets, c)
    ensures forall p :: 0 <= p < |targets| ==> Accounted(combined, xs, targets[p].saleId)
    ensures xs == [] <==> AllDecided(lk, norm, targets)
    ensures Sequenced(lk, norm, targets, combined)
  {
    var primary, conflicts := Primary(lk, norm, targets);
    var derived, unresolved := Derived(lk, targets, primary);
    CleanPassesDecide(lk, norm, targets, primary, conflicts);
    combined, xs := primary + derived, conflicts + unresolved;
    CombinedOnce(targets, primary, derived);
    CombinedRightful(lk, norm, targets, primary, derived, conflicts);
    CombinedAccounts(lk, norm, targets, primary, derived, conflicts, unresolved);
    CombinedSequenced(lk, norm, targets, primary, derived, conflicts);
  }

  lemma CombinedSequenced(
    lk: Lookups, norm: Norm, targets: seq<SaleRow>, primary: seq<Candidate>, derived: seq<Candidate>,
    conflicts: seq<Excluded>)
    requires FirstPassed(lk, norm, targets, |targets|, primary, conflicts)
    requires InOrder(targets, derived)
    requires forall c :: c in derived ==> !HasSale(primary, c.saleId)
    ensures Sequenced(lk, norm, targets, primary + derived)
  {
    var all := primary + derived;
    forall i, p | 0 <= i < |all| && 0 <= p < |targets| && For(all[i], targets[p])
      ensures i < |primary| <==> TopsAgree(Evidence(lk, norm, targets[p]))
    {
      assert Passed(lk, norm, targets[p], primary, conflicts);
      if i < |primary| {
        assert all[i] in primary;
      } else {
        assert all[i] in derived;
      }
    }
  }

  lemma CombinedOnce(targets: seq<SaleRow>, primary: seq<Candidate>, derived: seq<Candidate>)
    requires AllMadeFor(targets, |targets|, primary) && AllMadeFor(targets, |targets|, derived)
    requires forall c :: c in derived ==> !HasSale(primary, c.saleId)
    ensures AllMadeFor(targets, |targets|, primary + derived)
  {
    forall i, j | 0 <= i < |primary| && 0 <= j < |derived| ensures primary[i].saleId != derived[j].saleId {
      assert derived[j] in derived && primary[i] in primary;
    }
  }

  lemma CombinedRightful(
    lk: Lookups, norm: Norm, targets: seq<SaleRow>, primary: seq<Candidate>, derived: seq<Candidate>,
    conflicts: seq<Excluded>)
    requires FirstPassed(lk, norm, targets, |targets|, primary, conflicts)
    requires forall c :: c in primary ==> ByEvidence(lk, norm, targets, |targets|, c)
    requires forall c :: c in derived ==> !HasSale(primary, c.saleId) && ByEntries(lk, targets, |targets|, c)
    ensures forall c :: c in primary + derived ==> RightfulSome(lk, norm, targets, c)
  {
    forall c | c in primary + derived ensures RightfulSome(lk, norm, targets, c) {
      if c in primary {
        PrimaryIsRightful(lk, norm, targets, c);
      } else {
        DerivedIsRightful(lk, norm, targets, primary, conflicts, c);
      }
    }
  }

  lemma CombinedAccounts(
    lk: Lookups, norm: Norm, targets: seq<SaleRow>, primary: seq<Candidate>, derived: seq<Candidate>,
    conflicts: seq<Excluded>, unresolved: seq<Excluded>)
    requires FirstPassed(lk, norm, targets, |targets|, primary, conflicts)
    requires forall p :: 0 <= p < |targets| ==> Resolved(lk, targets[p], primary, derived, unresolved)
    ensures forall p :: 0 <= p < |targets| ==> Accounted(primary + derived, conflicts + unresolved, targets[p].saleId)
  {
    forall p | 0 <= p < |targets| ensures Accounted(primary + derived, conflicts + unresolved, targets[p].saleId) {
      assert Resolved(lk, targets[p], primary, derived, unresolved);
      StillAccounted(primary, derived, conflicts, unresolved, targets[p].saleId);
    }
  }
}
