/** scripts/apply_kaspi_order_entry_sidecar.py: completing `fact_order_entries_kaspi` with the entries of
    a reviewed sidecar, from whatever consistent part of them is already there. */
module EntrySidecar {
  import opened Wrappers

  datatype OrderKey = OrderKey(order: string, store: string)

  /** A raw entry names the order it belongs to; `content` is its semantic columns and raw JSON. */
  datatype Entry = Entry(id: string, order: string, content: string)

  /** `dated` says that the planned date parses and is not after the target date, and that the entries
      hold no forbidden key. */
  datatype Record = Record(key: OrderKey, dated: bool, entries: seq<Entry>)

  datatype Parsed = Parsed(id: string, key: OrderKey, content: string)

  /** The table, by its primary key `entry_id`. */
  datatype Row = Row(key: OrderKey, content: string, updatedAt: string)

  type Table = map<string, Row>

  // ---------------------------------------------------------------- the sidecar

  function ParseAll(key: OrderKey, entries: seq<Entry>): (r: seq<Parsed>)
    ensures |r| == |entries|
    ensures forall i :: 0 <= i < |r| ==> r[i] == Parsed(entries[i].id, key, entries[i].content)
  {
    seq(|entries|, i requires 0 <= i < |entries| => Parsed(entries[i].id, key, entries[i].content))
  }

  function Flatten(records: seq<Record>): seq<Parsed> {
    if records == [] then []
    else Flatten(records[..|records| - 1])
         + ParseAll(records[|records| - 1].key, records[|records| - 1].entries)
  }

  predicate HasId(ps: seq<Parsed>, id: string) {
    exists i :: 0 <= i < |ps| && ps[i].id == id
  }

  predicate HasKey(ps: seq<Parsed>, key: OrderKey) {
    exists i :: 0 <= i < |ps| && ps[i].key == key
  }

  predicate DistinctIds(ps: seq<Parsed>) {
    ps == [] || (DistinctIds(ps[..|ps| - 1]) && !HasId(ps[..|ps| - 1], ps[|ps| - 1].id))
  }

  predicate HasOrder(records: seq<Record>, key: OrderKey) {
    exists i :: 0 <= i < |records| && records[i].key == key
  }

  predicate GoodEntries(r: Record) {
    r.entries != [] && forall i :: 0 <= i < |r.entries| ==> r.entries[i].id != "" && r.entries[i].order == r.key.order
  }

  predicate GoodRecords(stores: seq<string>, records: seq<Record>) {
    records == []
    || (var init, last := records[..|records| - 1], records[|records| - 1];
        && GoodRecords(stores, init) && last.key.order != "" && last.key.store in stores && last.dated
        && !HasOrder(init, last.key) && GoodEntries(last))
  }

  predicate WellFormed(stores: seq<string>, records: seq<Record>) {
    GoodRecords(stores, records) && DistinctIds(Flatten(records))
  }

  /** The loop of `load_validated_sidecar`. */
  method LoadSidecar(stores: seq<string>, records: seq<Record>) returns (r: Option<seq<Parsed>>)
    ensures r.Some? <==> WellFormed(stores, records)
    ensures r.Some? ==> r.value == Flatten(records)
  {
    var parsed: seq<Parsed> := [];
    for i := 0 to |records|
      invariant parsed == Flatten(records[..i]) && WellFormed(stores, records[..i])
    {
      assert records[..i + 1][..i] == records[..i];
      var record := records[i];
      if record.key.order == "" || record.key.store !in stores || !record.dated
         || HasOrder(records[..i], record.key) || !GoodEntries(record) {
        BadRecord(stores, records, i);
        return None;
      }
      var whole := ParseAll(record.key, record.entries);
      var added := AddEntries(parsed, whole);
      if !added {
        RepeatStays(stores, records, i + 1);
        return None;
      }
      parsed := parsed + whole;
    }
    assert records[..|records|] == records;
    r := Some(parsed);
  }

  /** The duplicate-id check over one order's entries. */
  method AddEntries(parsed: seq<Parsed>, whole: seq<Parsed>) returns (ok: bool)
    requires DistinctIds(parsed)
    ensures ok <==> DistinctIds(parsed + whole)
  {
    assert parsed + whole[..0] == parsed;
    for k := 0 to |whole|
      invariant DistinctIds(parsed + whole[..k])
    {
      assert (parsed + whole[..k + 1])[..|parsed| + k] == parsed + whole[..k];
      if HasId(parsed + whole[..k], whole[k].id) {
        PrefixDistinct(parsed + whole, |parsed| + k + 1);
        assert (parsed + whole)[..|parsed| + k + 1] == parsed + whole[..k + 1];
        return false;
      }
    }
    assert whole[..|whole|] == whole;
    ok := true;
  }

  lemma {:induction false} PrefixDistinct(ps: seq<Parsed>, n: nat)
    requires n <= |ps|
    ensures DistinctIds(ps) ==> DistinctIds(ps[..n])
    decreases |ps|
  {
    if n < |ps| {
      assert ps[..|ps| - 1][..n] == ps[..n];
      PrefixDistinct(ps[..|ps| - 1], n);
    } else {
      assert ps[..n] == ps;
    }
  }

  lemma {:induction false} BadRecord(stores: seq<string>, records: seq<Record>, i: nat)
    requires i < |records| && !GoodRecords(stores, records[..i + 1])
    ensures !GoodRecords(stores, records)
    decreases |records|
  {
    if i < |records| - 1 {
      assert records[..|records| - 1][..i + 1] == records[..i + 1];
      BadRecord(stores, records[..|records| - 1], i);
    } else {
      assert records[..i + 1] == records;
    }
  }

  lemma {:induction false} RepeatStays(stores: seq<string>, records: seq<Record>, n: nat)
    requires n <= |records| && !DistinctIds(Flatten(records[..n]))
    ensures !DistinctIds(Flatten(records))
    decreases |records|
  {
    if n < |records| {
      var init, last := records[..|records| - 1], records[|records| - 1];
      assert init[..n] == records[..n];
      RepeatStays(stores, init, n);
      var whole := ParseAll(last.key, last.entries);
      PrefixDistinct(Flatten(init) + whole, |Flatten(init)|);
      assert (Flatten(init) + whole)[..|Flatten(init)|] == Flatten(init);
    } else {
      assert records[..n] == records;
    }
  }

  /** What one order's record must be. */
  ghost predicate Sound(stores: seq<string>, r: Record) {
    && r.key.order != "" && r.key.store in stores && r.dated && r.entries != []
    && forall e :: e in r.entries ==> e.id != "" && e.order == r.key.order
  }

  ghost predicate KeysDiffer(records: seq<Record>) {
    forall i, j :: 0 <= i < j < |records| ==> records[i].key != records[j].key
  }

  ghost predicate AllSound(stores: seq<string>, records: seq<Record>) {
    forall r :: r in records ==> Sound(stores, r)
  }

  lemma OneMoreSound(stores: seq<string>, init: seq<Record>, last: Record)
    ensures AllSound(stores, init + [last]) <==> AllSound(stores, init) && Sound(stores, last)
  {
    assert forall r :: r in init + [last] <==> r in init || r == last;
  }

  lemma GoodEntriesMeaning(r: Record)
    ensures GoodEntries(r) <==> r.entries != [] && forall e :: e in r.entries ==> e.id != "" && e.order == r.key.order
  {
  }

  lemma NewKey(init: seq<Record>, last: Record)
    ensures KeysDiffer(init + [last]) <==> KeysDiffer(init) && !HasOrder(init, last.key)
  {
    var records := init + [last];
    if KeysDiffer(records) {
      forall i | 0 <= i < |init| ensures init[i].key != last.key {
        assert records[i].key != records[|init|].key;
      }
      forall i, j | 0 <= i < j < |init| ensures init[i].key != init[j].key {
        assert records[i].key != records[j].key;
      }
    }
  }

  lemma {:induction false} GoodMeaning(stores: seq<string>, records: seq<Record>)
    ensures GoodRecords(stores, records) <==> AllSound(stores, records) && KeysDiffer(records)
  {
    if records != [] {
      var init, last := records[..|records| - 1], records[|records| - 1];
      GoodMeaning(stores, init);
      NewKey(init, last);
      OneMoreSound(stores, init, last);
      GoodEntriesMeaning(last);
      assert records == init + [last];
    }
  }

  lemma {:induction false} DistinctMeaning(ps: seq<Parsed>)
    ensures DistinctIds(ps) <==> forall i, j :: 0 <= i < j < |ps| ==> ps[i].id != ps[j].id
  {
    if ps != [] {
      DistinctMeaning(ps[..|ps| - 1]);
    }
  }

  lemma {:induction false} FlattenMeaning(records: seq<Record>, p: Parsed)
    ensures p in Flatten(records) <==>
            exists r, e :: r in records && e in r.entries && p == Parsed(e.id, r.key, e.content)
  {
    if records != [] {
      var init, last := records[..|records| - 1], records[|records| - 1];
      FlattenMeaning(init, p);
      assert records == init + [last];
      var whole := ParseAll(last.key, last.entries);
      if p in whole {
        var i :| 0 <= i < |whole| && whole[i] == p;
        assert last in records && last.entries[i] in last.entries;
      }
      if r, e :| r in records && e in r.entries && p == Parsed(e.id, r.key, e.content) && r !in init {
        var i :| 0 <= i < |last.entries| && last.entries[i] == e;
        assert whole[i] == p;
      }
    }
  }

  /** A sidecar is accepted exactly when every record is sound, no order and store comes twice and no entry
      id comes twice; it then lists exactly the entries of its records, each under its record's key. */
  lemma AcceptedMeaning(stores: seq<string>, records: seq<Record>)
    ensures WellFormed(stores, records) <==>
              && AllSound(stores, records) && KeysDiffer(records)
              && forall i, j :: 0 <= i < j < |Flatten(records)| ==> Flatten(records)[i].id != Flatten(records)[j].id
    ensures forall p :: p in Flatten(records) <==>
              exists r, e :: r in records && e in r.entries && p == Parsed(e.id, r.key, e.content)
  {
    GoodMeaning(stores, records);
    DistinctMeaning(Flatten(records));
    forall p ensures p in Flatten(records) <==>
                     exists r, e :: r in records && e in r.entries && p == Parsed(e.id, r.key, e.content)
    {
      FlattenMeaning(records, p);
    }
  }

  // ---------------------------------------------------------------- the table

  /** Existing rows of the sidecar's orders are entries the sidecar lists for that order. */
  predicate NoExtras(rows: Table, ps: seq<Parsed>) {
    forall id <- rows.Keys :: HasKey(ps, rows[id].key) ==> Lists(ps, id, rows[id].key)
  }

  predicate Lists(ps: seq<Parsed>, id: string, key: OrderKey) {
    exists i :: 0 <= i < |ps| && ps[i].id == id && ps[i].key == key
  }

  /** `_validate_existing_row` */
  predicate Same(row: Row, p: Parsed) {
    row.key == p.key && row.content == p.content
  }

  predicate ExistingMatch(rows: Table, ps: seq<Parsed>) {
    forall i :: 0 <= i < |ps| && ps[i].id in rows ==> Same(rows[ps[i].id], ps[i])
  }

  function Missing(rows: Table, ps: seq<Parsed>): seq<Parsed> {
    if ps == [] then []
    else
      var init, p := Missing(rows, ps[..|ps| - 1]), ps[|ps| - 1];
      if p.id in rows then init else init + [p]
  }

  function Add(rows: Table, ps: seq<Parsed>, stamps: map<OrderKey, string>): Table {
    if ps == [] then rows
    else
      var p := ps[|ps| - 1];
      Add(rows, ps[..|ps| - 1], stamps)[p.id := Row(p.key, p.content, Stamp(stamps, p.key))]
  }

  function Stamp(stamps: map<OrderKey, string>, key: OrderKey): string {
    if key in stamps then stamps[key] else ""
  }

  predicate HaveHeaders(ps: seq<Parsed>, stamps: map<OrderKey, string>) {
    forall i :: 0 <= i < |ps| ==> ps[i].key in stamps
  }

  /** What is there is a consistent part of the sidecar, and every order has its header. */
  ghost predicate Completable(rows: Table, ps: seq<Parsed>, stamps: map<OrderKey, string>) {
    NoExtras(rows, ps) && ExistingMatch(rows, ps) && HaveHeaders(ps, stamps)
  }

  /** `row` is the entry `p` as the run inserts it. */
  ghost predicate NewRow(row: Row, p: Parsed, stamps: map<OrderKey, string>) {
    Same(row, p) && row.updatedAt == Stamp(stamps, p.key)
  }

  lemma {:induction false} Added(rows: Table, ps: seq<Parsed>, stamps: map<OrderKey, string>, id: string)
    ensures id in Add(rows, ps, stamps) <==> id in rows || HasId(ps, id)
    ensures id in rows && !HasId(ps, id) ==> Add(rows, ps, stamps)[id] == rows[id]
    ensures HasId(ps, id) ==>
              exists i :: 0 <= i < |ps| && ps[i].id == id && NewRow(Add(rows, ps, stamps)[id], ps[i], stamps)
  {
    if ps != [] {
      var init, last := ps[..|ps| - 1], ps[|ps| - 1];
      Added(rows, init, stamps, id);
      if id == last.id {
        assert ps[|ps| - 1].id == id;
      } else if HasId(init, id) {
        var i :| 0 <= i < |init| && init[i].id == id && NewRow(Add(rows, init, stamps)[id], init[i], stamps);
        assert ps[i].id == id;
      }
    }
  }

  lemma {:induction false} MissingMeaning(rows: Table, ps: seq<Parsed>)
    ensures forall i :: 0 <= i < |Missing(rows, ps)| ==> Missing(rows, ps)[i] in ps && Missing(rows, ps)[i].id !in rows
    ensures forall i :: 0 <= i < |ps| && ps[i].id !in rows ==> ps[i] in Missing(rows, ps)
  {
    if ps != [] {
      MissingMeaning(rows, ps[..|ps| - 1]);
      assert forall p :: p in ps <==> p in ps[..|ps| - 1] || p == ps[|ps| - 1];
    }
  }

  lemma {:induction false} IdNamesOne(ps: seq<Parsed>, i: nat, j: nat)
    requires DistinctIds(ps) && i <= j < |ps| && ps[i].id == ps[j].id
    ensures i == j
  {
    var init := ps[..|ps| - 1];
    if j < |init| {
      IdNamesOne(init, i, j);
    }
  }

  function Completed(rows: Table, ps: seq<Parsed>, stamps: map<OrderKey, string>): Table {
    Add(rows, Missing(rows, ps), stamps)
  }

  /** Every id of the completed table: an old row kept as it was, or the sidecar's entry. */
  lemma CompletedRow(rows: Table, ps: seq<Parsed>, stamps: map<OrderKey, string>, id: string)
    requires DistinctIds(ps)
    ensures id in Completed(rows, ps, stamps) <==> id in rows || HasId(ps, id)
    ensures id in rows ==> Completed(rows, ps, stamps)[id] == rows[id]
    ensures forall i :: 0 <= i < |ps| && ps[i].id == id && id !in rows ==>
              NewRow(Completed(rows, ps, stamps)[id], ps[i], stamps)
  {
    var missing := Missing(rows, ps);
    MissingMeaning(rows, ps);
    Added(rows, missing, stamps, id);
    if HasId(missing, id) {
      var m :| 0 <= m < |missing| && missing[m].id == id
               && NewRow(Completed(rows, ps, stamps)[id], missing[m], stamps);
      var k :| 0 <= k < |ps| && ps[k] == missing[m];
      assert ps[k].id == id;
      forall i | 0 <= i < |ps| && ps[i].id == id ensures i == k {
        if i <= k {
          IdNamesOne(ps, i, k);
        } else {
          IdNamesOne(ps, k, i);
        }
      }
    }
    forall i | 0 <= i < |ps| && ps[i].id == id && id !in rows ensures HasId(missing, id) {
      var m :| 0 <= m < |missing| && missing[m] == ps[i];
    }
  }

  ghost function IdsOf(rows: Table, key: OrderKey): set<string> {
    set id | id in rows && rows[id].key == key
  }

  ghost function SidecarIds(ps: seq<Parsed>, key: OrderKey): set<string> {
    set i | 0 <= i < |ps| && ps[i].key == key :: ps[i].id
  }

  /** From any consistent part of the sidecar: every sidecar order ends with exactly the sidecar's ids,
      every sidecar entry is there as listed, and rows that were there stay as they were. */
  lemma CompletionIsExact(rows: Table, ps: seq<Parsed>, stamps: map<OrderKey, string>)
    requires DistinctIds(ps) && Completable(rows, ps, stamps)
    ensures var after := Completed(rows, ps, stamps);
            && (forall key :: HasKey(ps, key) ==> IdsOf(after, key) == SidecarIds(ps, key))
            && (forall i :: 0 <= i < |ps| ==>
                  && ps[i].id in after && after[ps[i].id].key == ps[i].key && after[ps[i].id].content == ps[i].content)
            && (forall id :: id in rows ==> id in after && after[id] == rows[id])
            && (forall id :: id in after && id !in rows ==> exists i :: 0 <= i < |ps| && ps[i].id == id)
            && (forall i :: 0 <= i < |ps| && ps[i].id !in rows ==>
                  ps[i].key in stamps && after[ps[i].id].updatedAt == stamps[ps[i].key])
            && Completable(after, ps, stamps)
  {
    var after := Completed(rows, ps, stamps);
    forall id ensures id in rows ==> id in after && after[id] == rows[id]
      ensures id in after && id !in rows ==> HasId(ps, id)
    {
      CompletedRow(rows, ps, stamps, id);
    }
    forall i | 0 <= i < |ps|
      ensures ps[i].id in after && Same(after[ps[i].id], ps[i])
      ensures ps[i].id !in rows ==> after[ps[i].id].updatedAt == Stamp(stamps, ps[i].key)
    {
      CompletedRow(rows, ps, stamps, ps[i].id);
    }
    forall id | id in after && HasKey(ps, after[id].key) ensures Lists(ps, id, after[id].key) {
      ListedAfter(rows, ps, stamps, id);
    }
    forall key | HasKey(ps, key) ensures IdsOf(after, key) == SidecarIds(ps, key) {
      SameIds(after, ps, key);
    }
  }

  lemma SameIds(after: Table, ps: seq<Parsed>, key: OrderKey)
    requires HasKey(ps, key) && NoExtras(after, ps)
    requires forall i :: 0 <= i < |ps| ==> ps[i].id in after && Same(after[ps[i].id], ps[i])
    ensures IdsOf(after, key) == SidecarIds(ps, key)
  {
    forall id ensures id in IdsOf(after, key) <==> id in SidecarIds(ps, key) {
      if id in IdsOf(after, key) {
        assert Lists(ps, id, key);
      }
    }
  }

  lemma ListedAfter(rows: Table, ps: seq<Parsed>, stamps: map<OrderKey, string>, id: string)
    requires DistinctIds(ps) && NoExtras(rows, ps)
    requires id in Completed(rows, ps, stamps) && HasKey(ps, Completed(rows, ps, stamps)[id].key)
    ensures Lists(ps, id, Completed(rows, ps, stamps)[id].key)
  {
    CompletedRow(rows, ps, stamps, id);
    if id !in rows {
      var i :| 0 <= i < |ps| && ps[i].id == id;
      assert Same(Completed(rows, ps, stamps)[id], ps[i]);
    }
  }

  /** A second apply finds nothing missing and changes nothing. */
  lemma SecondApplyInsertsNothing(rows: Table, ps: seq<Parsed>, stamps: map<OrderKey, string>)
    requires DistinctIds(ps)
    ensures var after := Completed(rows, ps, stamps);
            Missing(after, ps) == [] && Completed(after, ps, stamps) == after
  {
    var after := Completed(rows, ps, stamps);
    MissingMeaning(after, ps);
    if Missing(after, ps) != [] {
      CompletedRow(rows, ps, stamps, Missing(after, ps)[0].id);
    }
  }

  // ---------------------------------------------------------------- the apply

  /** An existing row of a sidecar order that the sidecar does not list for it. */
  ghost predicate Extra(rows: Table, ps: seq<Parsed>, id: string)
    requires id in rows
  {
    && (exists i :: 0 <= i < |ps| && ps[i].key == rows[id].key)
    && forall i :: 0 <= i < |ps| ==> !(ps[i].id == id && ps[i].key == rows[id].key)
  }

  /** The entry is there under another order or with other content. */
  ghost predicate Differs(rows: Table, p: Parsed) {
    p.id in rows && (rows[p.id].key != p.key || rows[p.id].content != p.content)
  }

  datatype Refusal = HeaderMissing | ExtraEntries | EntryConflict | WriteFailed

  class OrderEntries {
    var rows: Table

    constructor (rows: Table)
      ensures this.rows == rows
    {
      this.rows := rows;
    }

    /** `apply_order_entry_sidecar` with `apply`. `broken` says that a statement inside the transaction
        raises, which rolls it back. */
    method Apply(ps: seq<Parsed>, stamps: map<OrderKey, string>, broken: bool) returns (r: Result<nat, Refusal>)
      requires DistinctIds(ps)
      modifies this
      ensures r.Ok? <==> Completable(old(rows), ps, stamps) && !(broken && Missing(old(rows), ps) != [])
      ensures r == Err(HeaderMissing) <==> exists i :: 0 <= i < |ps| && ps[i].key !in stamps
      ensures r == Err(ExtraEntries) <==>
                && (forall i :: 0 <= i < |ps| ==> ps[i].key in stamps)
                && exists id :: id in old(rows) && Extra(old(rows), ps, id)
      ensures r == Err(EntryConflict) <==>
                && (forall i :: 0 <= i < |ps| ==> ps[i].key in stamps)
                && (forall id :: id in old(rows) ==> !Extra(old(rows), ps, id))
                && exists i :: 0 <= i < |ps| && Differs(old(rows), ps[i])
      ensures rows == if r.Ok? then Completed(old(rows), ps, stamps) else old(rows)
      ensures r.Ok? ==> r.value == |Missing(old(rows), ps)|
      ensures r.Ok? ==> forall key :: HasKey(ps, key) ==> IdsOf(rows, key) == SidecarIds(ps, key)
    {
      if !HaveHeaders(ps, stamps) {
        return Err(HeaderMissing);
      }
      if !NoExtras(rows, ps) {
        return Err(ExtraEntries);
      }
      var found := FindMissing(ps);
      if found.None? {
        return Err(EntryConflict);
      }
      if found.value != [] && broken {
        return Err(WriteFailed);
      }
      CompletionIsExact(rows, ps, stamps);
      MissingMeaning(rows, ps);
      Insert(found.value, stamps);
      r := Ok(|found.value|);
    }

    method FindMissing(ps: seq<Parsed>) returns (r: Option<seq<Parsed>>)
      ensures r.Some? <==> forall i :: 0 <= i < |ps| ==> !Differs(rows, ps[i])
      ensures r.Some? ==> r.value == Missing(rows, ps)
    {
      var missing := [];
      for i := 0 to |ps|
        invariant missing == Missing(rows, ps[..i])
        invariant forall k :: 0 <= k < i && ps[k].id in rows ==> Same(rows[ps[k].id], ps[k])
      {
        assert ps[..i + 1][..i] == ps[..i];
        if ps[i].id !in rows {
          missing := missing + [ps[i]];
        } else if !Same(rows[ps[i].id], ps[i]) {
          return None;
        }
      }
      assert ps[..|ps|] == ps;
      r := Some(missing);
    }

    method Insert(missing: seq<Parsed>, stamps: map<OrderKey, string>)
      requires forall i :: 0 <= i < |missing| ==> missing[i].key in stamps
      modifies this
      ensures rows == Add(old(rows), missing, stamps)
    {
      for i := 0 to |missing|
        invariant rows == Add(old(rows), missing[..i], stamps)
      {
        assert missing[..i + 1][..i] == missing[..i];
        var p := missing[i];
        rows := rows[p.id := Row(p.key, p.content, stamps[p.key])];
      }
      assert missing[..|missing|] == missing;
    }
  }
}
