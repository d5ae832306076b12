/** scripts/apply_return_qc_events.py: booking warehouse checks of returned goods. Every event is split
    into buckets, carries an idempotency key, and is held against what came back; a batch is
    inserted as a whole or not at all. */
module ReturnQc {
  import opened Wrappers

  // ---------------------------------------------------------------- buckets

  datatype Buckets = Buckets(accepted: int, quarantine: int, rejected: int, writeoff: int) {
    function Sum(): int {
      accepted + quarantine + rejected + writeoff
    }
  }

  datatype QcStatus = Pass | Fail | Quarantine | PartialResult | Unsupported

  function StatusOf(text: string): QcStatus {
    if text in {"PASS", "PASSED", "SELLABLE", "ACCEPTED", "OK"} then Pass
    else if text in {"FAIL", "FAILED", "DEFECT", "DEFECTIVE", "WRITEOFF", "WRITE_OFF", "SCRAP"} then Fail
    else if text in {"QUARANTINE", "PENDING", "HOLD"} then Quarantine
    else if text in {"PARTIAL", "MIXED"} then PartialResult
    else Unsupported
  }

  /** One CSV row after number parsing; a blank bucket is `None`. */
  datatype Row = Row(
    store: string, order: string, entry: string, sku: string, quantity: int, qcStatus: string,
    accepted: Option<int>, quarantine: Option<int>, rejected: Option<int>, writeoff: Option<int>,
    ts: string, source: string)

  datatype BucketError = QuantityNotPositive | PartialNeedsBuckets | UnsupportedStatus | NegativeBucket | SumMismatch

  function OrZero(v: Option<int>): int {
    if v.Some? then v.value else 0
  }

  /** A bucket holds what the row gives for it, and a blank one nothing. */
  ghost predicate Given(v: Option<int>, bucket: int) {
    match v
    case None => bucket == 0
    case Some(n) => bucket == n
  }

  predicate AnyNegative(row: Row) {
    (row.accepted.Some? && row.accepted.value < 0) || (row.quarantine.Some? && row.quarantine.value < 0)
    || (row.rejected.Some? && row.rejected.value < 0) || (row.writeoff.Some? && row.writeoff.value < 0)
  }

  predicate HasExplicit(row: Row) {
    row.accepted.Some? || row.quarantine.Some? || row.rejected.Some? || row.writeoff.Some?
  }

  /** `_derive_buckets`: the pieces of an accepted row are non-negative and make up its quantity. */
  function DeriveBuckets(row: Row): (r: Result<Buckets, BucketError>)
    ensures r.Ok? ==>
              && row.quantity > 0 && r.value.Sum() == row.quantity
              && 0 <= r.value.accepted <= row.quantity && 0 <= r.value.quarantine <= row.quantity
              && 0 <= r.value.rejected <= row.quantity && 0 <= r.value.writeoff <= row.quantity
  {
    var status := StatusOf(row.qcStatus);
    if row.quantity <= 0 then Err(QuantityNotPositive)
    else if status.Pass? && !HasExplicit(row) then Ok(Buckets(row.quantity, 0, 0, 0))
    else if status.Fail? && !HasExplicit(row) then Ok(Buckets(0, 0, 0, row.quantity))
    else if status.Quarantine? && !HasExplicit(row) then Ok(Buckets(0, row.quantity, 0, 0))
    else if status.PartialResult? && !HasExplicit(row) then Err(PartialNeedsBuckets)
    else if status.Unsupported? then Err(UnsupportedStatus)
    else
      var b := Buckets(OrZero(row.accepted), OrZero(row.quarantine), OrZero(row.rejected), OrZero(row.writeoff));
      if AnyNegative(row) then Err(NegativeBucket)
      else if b.Sum() != row.quantity then Err(SumMismatch)
      else Ok(b)
  }

  /** The words for one bucket. */
  ghost predicate SoundWord(text: string) { text in ["PASS", "PASSED", "SELLABLE", "ACCEPTED", "OK"] }

  ghost predicate LossWord(text: string) {
    text in ["FAIL", "FAILED", "DEFECT", "DEFECTIVE", "WRITEOFF", "WRITE_OFF", "SCRAP"]
  }

  ghost predicate HoldWord(text: string) { text in ["QUARANTINE", "PENDING", "HOLD"] }

  ghost predicate WordForOne(text: string) { SoundWord(text) || LossWord(text) || HoldWord(text) }

  ghost predicate WordForSeveral(text: string) { text == "PARTIAL" || text == "MIXED" }

  lemma WordsKnown(text: string)
    ensures SoundWord(text) <==> StatusOf(text).Pass?
    ensures LossWord(text) <==> StatusOf(text).Fail?
    ensures HoldWord(text) <==> StatusOf(text).Quarantine?
    ensures WordForSeveral(text) <==> StatusOf(text).PartialResult?
  {
  }

  /** A row without buckets is accepted with a quantity and a word for one bucket, which gets it all. */
  lemma PlainRowAccepted(row: Row)
    requires row.accepted.None? && row.quarantine.None? && row.rejected.None? && row.writeoff.None?
    ensures DeriveBuckets(row).Ok? <==> row.quantity > 0 && WordForOne(row.qcStatus)
    ensures DeriveBuckets(row).Ok? ==>
              var b := DeriveBuckets(row).value;
              && (SoundWord(row.qcStatus) ==> b.accepted == row.quantity)
              && (LossWord(row.qcStatus) ==> b.writeoff == row.quantity)
              && (HoldWord(row.qcStatus) ==> b.quarantine == row.quantity)
    ensures DeriveBuckets(row) == Err(PartialNeedsBuckets) <==> row.quantity > 0 && WordForSeveral(row.qcStatus)
  {
    WordsKnown(row.qcStatus);
  }

  ghost predicate BelowZero(v: Option<int>) {
    match v
    case None => false
    case Some(n) => n < 0
  }

  ghost predicate SomeBelowZero(row: Row) {
    exists v :: v in [row.accepted, row.quarantine, row.rejected, row.writeoff] && BelowZero(v)
  }

  /** A row with buckets is accepted with any known word when none is below zero and they sum to the quantity; each
      bucket is then the given one. */
  lemma RowWithBucketsAccepted(row: Row)
    requires row.accepted.Some? || row.quarantine.Some? || row.rejected.Some? || row.writeoff.Some?
    ensures DeriveBuckets(row).Ok? <==>
              && row.quantity > 0 && (WordForOne(row.qcStatus) || WordForSeveral(row.qcStatus)) && !SomeBelowZero(row)
              && OrZero(row.accepted) + OrZero(row.quarantine) + OrZero(row.rejected) + OrZero(row.writeoff)
                 == row.quantity
    ensures DeriveBuckets(row).Ok? ==>
              var b := DeriveBuckets(row).value;
              && Given(row.accepted, b.accepted) && Given(row.quarantine, b.quarantine)
              && Given(row.rejected, b.rejected) && Given(row.writeoff, b.writeoff)
    ensures DeriveBuckets(row) == Err(NegativeBucket) <==>
              row.quantity > 0 && (WordForOne(row.qcStatus) || WordForSeveral(row.qcStatus)) && SomeBelowZero(row)
  {
    WordsKnown(row.qcStatus);
    NegativeMeans(row);
  }

  lemma NegativeMeans(row: Row)
    ensures AnyNegative(row) <==> SomeBelowZero(row)
  {
    var given := [row.accepted, row.quarantine, row.rejected, row.writeoff];
    assert row.accepted in given && row.quarantine in given && row.rejected in given && row.writeoff in given;
  }

  // ---------------------------------------------------------------- idempotency keys

  /** `"|".join(parts)`; equal SHA-256 means equal text, so the text stands for the digest. */
  function Join(parts: seq<string>): string {
    if parts == [] then ""
    else if |parts| == 1 then parts[0]
    else parts[0] + "|" + Join(parts[1..])
  }

  ghost predicate NoBar(s: string) {
    '|' !in s
  }

  /** As long as no part holds the separator, different parts have different keys. */
  lemma {:induction false} JoinInjective(a: seq<string>, b: seq<string>)
    requires |a| == |b| && Join(a) == Join(b)
    requires forall i :: 0 <= i < |a| ==> NoBar(a[i]) && NoBar(b[i])
    ensures a == b
  {
    if |a| == 1 {
      assert a == [a[0]] && b == [b[0]];
    } else if |a| > 1 {
      var x, y := Join(a[1..]), Join(b[1..]);
      var whole := a[0] + "|" + x;
      assert whole == b[0] + "|" + y;
      SameHead(a[0], x, b[0], y);
      JoinInjective(a[1..], b[1..]);
      assert a == [a[0]] + a[1..] && b == [b[0]] + b[1..];
    }
  }

  lemma SameHead(p: string, x: string, q: string, y: string)
    requires NoBar(p) && NoBar(q) && p + "|" + x == q + "|" + y
    ensures p == q && x == y
  {
    var left, right := p + "|" + x, q + "|" + y;
    assert left[|p|] == '|' && right[|q|] == '|';
    assert forall i :: 0 <= i < |p| ==> left[i] == p[i];
    assert forall i :: 0 <= i < |q| ==> right[i] == q[i];
    assert |p| == |q|;
    assert p == left[..|p|] && q == right[..|q|];
    assert x == left[|p| + 1..] && y == right[|q| + 1..];
  }

  /** One different part among equal ones gives a different key, bars or not. */
  lemma {:induction false} JoinAtOnePart(a: seq<string>, k: nat, other: string)
    requires k < |a| && Join(a) == Join(a[k := other])
    ensures a[k] == other
  {
    var b := a[k := other];
    if |a| > 1 {
      if k == 0 {
        assert a[1..] == b[1..];
        var tail := "|" + Join(a[1..]);
        assert a[0] + "|" + Join(a[1..]) == a[0] + tail && b[0] + "|" + Join(b[1..]) == b[0] + tail;
        assert |a[0]| == |other|;
        assert a[0] == (a[0] + tail)[..|other|] && other == (other + tail)[..|other|];
      } else {
        assert b[1..] == a[1..][k - 1 := other];
        var head := a[0] + "|";
        assert head + Join(a[1..]) == head + Join(b[1..]);
        assert Join(a[1..]) == (head + Join(a[1..]))[|head|..];
        assert Join(b[1..]) == (head + Join(b[1..]))[|head|..];
        JoinAtOnePart(a[1..], k - 1, other);
      }
    }
  }

  lemma {:induction false} JoinOfBoth(a: seq<string>, b: seq<string>)
    requires a != [] && b != []
    ensures Join(a + b) == Join(a) + "|" + Join(b)
  {
    if |a| == 1 {
      assert (a + b)[1..] == b;
    } else {
      assert (a + b)[1..] == a[1..] + b;
      JoinOfBoth(a[1..], b);
      assert a[0] + "|" + (Join(a[1..]) + "|" + Join(b)) == (a[0] + "|" + Join(a[1..])) + "|" + Join(b);
    }
  }

  lemma JoinInside(head: seq<string>, p: seq<string>, q: seq<string>, tail: seq<string>)
    requires p != [] && q != [] && Join(p) == Join(q)
    ensures Join(head + (p + tail)) == Join(head + (q + tail))
  {
    if tail == [] {
      assert p + tail == p && q + tail == q;
    } else {
      JoinOfBoth(p, tail);
      JoinOfBoth(q, tail);
    }
    if head == [] {
      assert head + (p + tail) == p + tail && head + (q + tail) == q + tail;
    } else {
      JoinOfBoth(head, p + tail);
      JoinOfBoth(head, q + tail);
    }
  }

  /** A bar may stand for the separator: a part that holds one can be cut there, the rest going to its
      neighbour. */
  lemma BarMoves(head: seq<string>, x: string, y: string, z: string, tail: seq<string>)
    ensures Join(head + ([x + "|" + y, z] + tail)) == Join(head + ([x, y + "|" + z] + tail))
  {
    var a, b := [x + "|" + y, z], [x, y + "|" + z];
    assert a[1..] == [z] && b[1..] == [y + "|" + z];
    assert Join(a) == x + "|" + y + "|" + z == x + "|" + (y + "|" + z) == Join(b);
    JoinInside(head, a, b, tail);
  }

  function Bars(s: string): nat {
    if s == "" then 0 else Bars(s[..|s| - 1]) + if s[|s| - 1] == '|' then 1 else 0
  }

  lemma {:induction false} BarsOfBoth(a: string, b: string)
    ensures Bars(a + b) == Bars(a) + Bars(b)
  {
    if b == "" {
      assert a + b == a;
    } else {
      assert (a + b)[..|a + b| - 1] == a + b[..|b| - 1];
      BarsOfBoth(a, b[..|b| - 1]);
    }
  }

  lemma {:induction false} NoBarIffNone(s: string)
    ensures NoBar(s) <==> Bars(s) == 0
  {
    if s != "" {
      NoBarIffNone(s[..|s| - 1]);
      assert s == s[..|s| - 1] + [s[|s| - 1]];
    }
  }

  ghost predicate BarFree(parts: seq<string>) {
    forall i :: 0 <= i < |parts| ==> NoBar(parts[i])
  }

  /** The joined text has one bar between parts, and no more exactly if the parts are bar-free. */
  lemma {:induction false} JoinBars(parts: seq<string>)
    requires parts != []
    ensures Bars(Join(parts)) >= |parts| - 1
    ensures Bars(Join(parts)) == |parts| - 1 <==> BarFree(parts)
  {
    NoBarIffNone(parts[0]);
    if |parts| > 1 {
      JoinBars(parts[1..]);
      BarsOfBoth(parts[0], "|");
      BarsOfBoth(parts[0] + "|", Join(parts[1..]));
      assert "|"[..0] == "" && Bars("|") == 1;
      assert BarFree(parts) <==> NoBar(parts[0]) && BarFree(parts[1..]) by {
        assert forall i :: 0 <= i < |parts| - 1 ==> parts[1..][i] == parts[i + 1];
      }
    }
  }

  /** No other list of as many parts has this key. */
  ghost predicate Identified(a: seq<string>) {
    forall b: seq<string> :: |b| == |a| && Join(b) == Join(a) ==> b == a
  }

  /** A key identifies its parts if and only if none of them holds a bar. */
  lemma IdentifiedIffBarFree(a: seq<string>)
    requires |a| >= 2
    ensures Identified(a) <==> BarFree(a)
  {
    if BarFree(a) {
      forall b: seq<string> | |b| == |a| && Join(b) == Join(a) ensures b == a {
        JoinBars(a);
        JoinBars(b);
        JoinInjective(a, b);
      }
    } else {
      var i :| 0 <= i < |a| && !NoBar(a[i]);
      var b := AnotherList(a, i);
    }
  }

  lemma AnotherList(a: seq<string>, i: nat) returns (b: seq<string>)
    requires |a| >= 2 && i < |a| && !NoBar(a[i])
    ensures |b| == |a| && Join(b) == Join(a) && b != a
  {
    var k :| 0 <= k < |a[i]| && a[i][k] == '|';
    var x, y := a[i][..k], a[i][k + 1..];
    assert a[i] == x + "|" + y;
    if i + 1 < |a| {
      BarMoves(a[..i], x, y, a[i + 1], a[i + 2..]);
      assert a == a[..i] + ([x + "|" + y, a[i + 1]] + a[i + 2..]);
      b := a[..i] + ([x, y + "|" + a[i + 1]] + a[i + 2..]);
      assert |b[i]| < |a[i]|;
    } else {
      BarMoves(a[..i - 1], a[i - 1], x, y, []);
      assert a == a[..i - 1] + ([a[i - 1], x + "|" + y] + []);
      b := a[..i - 1] + ([a[i - 1] + "|" + x, y] + []);
      assert |b[i]| < |a[i]|;
    }
  }

  datatype Key = Key(store: string, order: string, sku: string)
  datatype Event = Event(key: Key, quantity: int, buckets: Buckets, id: string)

  /** `_event_from_row`: `now` stands in for a blank `qc_ts`; `digits` is how Python prints an int. */
  function KeyParts(row: Row, b: Buckets, ts: string, source: string, digits: int -> string): seq<string> {
    ["return_qc_event_v1", row.store] + ([row.order, row.entry] + KeyTail(row, b, ts, source, digits))
  }

  function KeyTail(row: Row, b: Buckets, ts: string, source: string, digits: int -> string): seq<string> {
    [row.sku, digits(b.Sum()), row.qcStatus, digits(b.accepted), digits(b.quarantine), digits(b.rejected),
     digits(b.writeoff), ts, source]
  }

  function TsOf(row: Row, now: string): string {
    if row.ts == "" then now else row.ts
  }

  function SourceOf(row: Row, defaultSource: string): string {
    if row.source == "" then defaultSource else row.source
  }

  function EventFromRow(row: Row, defaultSource: string, now: string, digits: int -> string): (e: Option<Event>)
    ensures e.Some? <==> row.store != "" && row.order != "" && row.sku != "" && DeriveBuckets(row).Ok?
    ensures e.Some? ==>
              && e.value.key.store == row.store && e.value.key.order == row.order && e.value.key.sku == row.sku
              && e.value.quantity == row.quantity == e.value.buckets.Sum() && DeriveBuckets(row) == Ok(e.value.buckets)
  {
    var b := DeriveBuckets(row);
    if row.store == "" || row.order == "" || row.sku == "" || b.Err? then None
    else
      Some(Event(Key(row.store, row.order, row.sku), b.value.Sum(), b.value,
                 Join(KeyParts(row, b.value, TsOf(row, now), SourceOf(row, defaultSource), digits))))
  }

  /** Python prints different ints differently and without bars. */
  ghost predicate GoodDigits(digits: int -> string) {
    && (forall n :: NoBar(digits(n)))
    && forall m, n :: digits(m) == digits(n) ==> m == n
  }

  ghost predicate BarFreeRow(row: Row, defaultSource: string, now: string) {
    && NoBar(row.store) && NoBar(row.order) && NoBar(row.entry) && NoBar(row.sku) && NoBar(row.qcStatus)
    && NoBar(TsOf(row, now)) && NoBar(SourceOf(row, defaultSource))
  }

  /** A row without bars shares its key only with rows that say the same: order, entry, SKU, status,
      buckets, time and source. */
  lemma EqualIdsEqualFields(
    row: Row, other: Row, source: string, now: string, otherSource: string, otherNow: string, digits: int -> string)
    requires GoodDigits(digits) && BarFreeRow(row, source, now)
    requires EventFromRow(row, source, now, digits).Some?
    requires EventFromRow(other, otherSource, otherNow, digits).Some?
    requires EventFromRow(row, source, now, digits).value.id
             == EventFromRow(other, otherSource, otherNow, digits).value.id
    ensures EventFromRow(row, source, now, digits) == EventFromRow(other, otherSource, otherNow, digits)
    ensures row.entry == other.entry && row.qcStatus == other.qcStatus
    ensures TsOf(row, now) == TsOf(other, otherNow) && SourceOf(row, source) == SourceOf(other, otherSource)
  {
    var a := KeyParts(row, DeriveBuckets(row).value, TsOf(row, now), SourceOf(row, source), digits);
    var b := KeyParts(other, DeriveBuckets(other).value, TsOf(other, otherNow), SourceOf(other, otherSource), digits);
    KeyPartsBarFree(row, DeriveBuckets(row).value, source, now, digits);
    IdentifiedIffBarFree(a);
    assert b == a;
    SameParts(row, other, DeriveBuckets(row).value, DeriveBuckets(other).value, TsOf(row, now), TsOf(other, otherNow),
              SourceOf(row, source), SourceOf(other, otherSource), digits);
  }

  lemma KeyPartsBarFree(row: Row, b: Buckets, source: string, now: string, digits: int -> string)
    requires GoodDigits(digits) && BarFreeRow(row, source, now)
    ensures BarFree(KeyParts(row, b, TsOf(row, now), SourceOf(row, source), digits))
  {
    assert NoBar("return_qc_event_v1");
  }

  lemma SameParts(
    row: Row, other: Row, b: Buckets, c: Buckets, ts: string, ts': string, from: string, from': string,
    digits: int -> string)
    requires GoodDigits(digits) && KeyParts(row, b, ts, from, digits) == KeyParts(other, c, ts', from', digits)
    ensures row.store == other.store && row.order == other.order && row.entry == other.entry && row.sku == other.sku
    ensures row.qcStatus == other.qcStatus && b == c && ts == ts' && from == from'
  {
    var p, q := KeyParts(row, b, ts, from, digits), KeyParts(other, c, ts', from', digits);
    assert p[1] == q[1] && p[2] == q[2] && p[3] == q[3] && p[4] == q[4] && p[6] == q[6];
    assert p[7] == q[7] && p[8] == q[8] && p[9] == q[9] && p[10] == q[10] && p[11] == q[11] && p[12] == q[12];
  }

  /** The same row loaded at two times gives the same key if and only if it carries its own `qc_ts`. */
  lemma SameKeyAtAnyTimeIffStamped(row: Row, source: string, t1: string, t2: string, digits: int -> string)
    requires t1 != t2 && EventFromRow(row, source, t1, digits).Some?
    ensures EventFromRow(row, source, t2, digits).Some?
    ensures EventFromRow(row, source, t1, digits).value.id == EventFromRow(row, source, t2, digits).value.id
            <==> row.ts != ""
  {
    if row.ts == "" {
      var b := DeriveBuckets(row).value;
      var from := if row.source == "" then source else row.source;
      var parts := KeyParts(row, b, t1, from, digits);
      assert KeyParts(row, b, t2, from, digits) == parts[11 := t2];
      if Join(parts) == Join(parts[11 := t2]) {
        JoinAtOnePart(parts, 11, t2);
      }
    }
  }

  lemma SameBuckets(row: Row, order: string, entry: string)
    ensures DeriveBuckets(row.(order := order, entry := entry)) == DeriveBuckets(row)
  {
  }

  /** A bar in an order id lets another order have the same key, which then counts as already booked. */
  lemma BarMergesTwoOrders(row: Row, x: string, y: string, source: string, now: string, digits: int -> string)
    requires row.order == x + "|" + y && x != ""
    requires EventFromRow(row, source, now, digits).Some?
    ensures var other := EventFromRow(row.(order := x, entry := y + "|" + row.entry), source, now, digits);
            && other.Some?
            && other.value.id == EventFromRow(row, source, now, digits).value.id
            && other.value.key != EventFromRow(row, source, now, digits).value.key
  {
    var other := row.(order := x, entry := y + "|" + row.entry);
    SameBuckets(row, x, y + "|" + row.entry);
    var b := DeriveBuckets(row).value;
    var ts, from := TsOf(row, now), SourceOf(row, source);
    BarMoves(["return_qc_event_v1", row.store], x, y, row.entry, KeyTail(row, b, ts, from, digits));
    assert KeyTail(other, b, ts, from, digits) == KeyTail(row, b, ts, from, digits);
    assert |x| < |row.order|;
  }

  // ---------------------------------------------------------------- one batch

  /** A `fact_orders_kaspi` row of one key: its statuses name a return, its quantity, its warehouse flag. */
  datatype OrderRow = OrderRow(returned: bool, quantity: Option<int>, inWarehouse: bool)

  type Orders = map<Key, seq<OrderRow>>

  function RowsOf(orders: Orders, k: Key): seq<OrderRow> {
    if k in orders then orders[k] else []
  }

  function QtyBack(rows: seq<OrderRow>): nat {
    if rows == [] then 0
    else
      var last := rows[|rows| - 1];
      var q := if last.quantity.Some? then last.quantity.value else 1;
      QtyBack(rows[..|rows| - 1]) + (if last.returned && q > 0 then q else 0)
  }

  /** One more order row adds its quantity if it came back, one piece if the quantity is blank and nothing if
      that is negative; a row that did not come back adds nothing, whatever it holds. */
  lemma RowBack(rows: seq<OrderRow>, r: OrderRow)
    ensures !r.returned ==> QtyBack(rows + [r]) == QtyBack(rows)
    ensures r.returned && r.quantity.None? ==> QtyBack(rows + [r]) == QtyBack(rows) + 1
    ensures r.returned && r.quantity.Some? && r.quantity.value >= 0 ==>
              QtyBack(rows + [r]) == QtyBack(rows) + r.quantity.value
    ensures r.returned && r.quantity.Some? && r.quantity.value < 0 ==> QtyBack(rows + [r]) == QtyBack(rows)
  {
    assert (rows + [r])[..|rows|] == rows;
  }

  function OnlyReturned(rows: seq<OrderRow>): seq<OrderRow> {
    if rows == [] then []
    else
      var init, last := OnlyReturned(rows[..|rows| - 1]), rows[|rows| - 1];
      if last.returned then init + [last] else init
  }

  /** The quantities alone, without a look at the statuses. */
  function Pieces(rows: seq<OrderRow>): nat {
    if rows == [] then 0
    else
      match rows[|rows| - 1].quantity
      case None => Pieces(rows[..|rows| - 1]) + 1
      case Some(q) => Pieces(rows[..|rows| - 1]) + if q < 0 then 0 else q
  }

  lemma {:induction false} OnlyReturnedMeaning(rows: seq<OrderRow>)
    ensures forall x :: x in OnlyReturned(rows) <==> x in rows && x.returned
  {
    if rows != [] {
      OnlyReturnedMeaning(rows[..|rows| - 1]);
      assert rows == rows[..|rows| - 1] + [rows[|rows| - 1]];
    }
  }

  lemma PiecesLast(rows: seq<OrderRow>, r: OrderRow)
    ensures Pieces(rows + [r]) == Pieces(rows) + match r.quantity case None => 1 case Some(q) => if q < 0 then 0 else q
  {
    assert (rows + [r])[..|rows|] == rows;
  }

  /** What came back is the pieces of the returned rows. */
  lemma {:induction false} BackIsReturnedPieces(rows: seq<OrderRow>)
    ensures QtyBack(rows) == Pieces(OnlyReturned(rows))
  {
    if rows != [] {
      var init, last := rows[..|rows| - 1], rows[|rows| - 1];
      BackIsReturnedPieces(init);
      RowBack(init, last);
      PiecesLast(OnlyReturned(init), last);
      assert rows == init + [last];
    }
  }

  function Returned(orders: Orders, k: Key): nat {
    QtyBack(RowsOf(orders, k))
  }

  function Booked(table: seq<Event>, k: Key): int {
    if table == [] then 0
    else Booked(table[..|table| - 1], k) + (if table[|table| - 1].key == k then table[|table| - 1].quantity else 0)
  }

  predicate HasId(table: seq<Event>, id: string) {
    exists i :: 0 <= i < |table| && table[i].id == id
  }

  /** The events of a batch that are not booked yet. */
  function Fresh(table: seq<Event>, events: seq<Event>): seq<Event> {
    if events == [] then []
    else
      var init, last := Fresh(table, events[..|events| - 1]), events[|events| - 1];
      if HasId(table, last.id) then init else init + [last]
  }

  datatype QcError = NoOrder | NotReturned | NotConfirmed | ExceedsReturned

  /** Each event is held against the table as it was before the batch. */
  function Verdict(orders: Orders, table: seq<Event>, e: Event): Option<QcError> {
    var rows := RowsOf(orders, e.key);
    if rows == [] then Some(NoOrder)
    else if QtyBack(rows) <= 0 then Some(NotReturned)
    else if forall i :: 0 <= i < |rows| ==> !rows[i].inWarehouse then Some(NotConfirmed)
    else if Booked(table, e.key) + e.quantity > QtyBack(rows) then Some(ExceedsReturned)
    else None
  }

  /** When an event is planned, and which refusal it gets otherwise, in terms of its order rows. */
  lemma VerdictMeaning(orders: Orders, table: seq<Event>, e: Event)
    ensures var rows := if e.key in orders then orders[e.key] else [];
            var back := Pieces(OnlyReturned(rows));
            var confirmed := exists r :: r in rows && r.inWarehouse;
            var fits := Booked(table, e.key) + e.quantity <= back;
            && (Verdict(orders, table, e) == None <==> back > 0 && confirmed && fits)
            && (Verdict(orders, table, e) == Some(NoOrder) <==> rows == [])
            && (Verdict(orders, table, e) == Some(NotReturned) <==> rows != [] && back == 0)
            && (Verdict(orders, table, e) == Some(NotConfirmed) <==> back > 0 && !confirmed)
            && (Verdict(orders, table, e) == Some(ExceedsReturned) <==> back > 0 && confirmed && !fits)
  {
    var rows := RowsOf(orders, e.key);
    BackIsReturnedPieces(rows);
    if r :| r in rows && r.inWarehouse {
      var i :| 0 <= i < |rows| && rows[i] == r;
    }
    if rows == [] {
      assert OnlyReturned(rows) == [];
    }
  }

  predicate AllAcceptable(orders: Orders, table: seq<Event>, events: seq<Event>) {
    events == [] || (AllAcceptable(orders, table, events[..|events| - 1])
                     && Verdict(orders, table, events[|events| - 1]).None?)
  }

  /** What the errors list holds, and what is planned beside it. */
  function Refusals(orders: Orders, table: seq<Event>, events: seq<Event>): seq<QcError> {
    if events == [] then []
    else
      var init := Refusals(orders, table, events[..|events| - 1]);
      var verdict := Verdict(orders, table, events[|events| - 1]);
      if verdict.Some? then init + [verdict.value] else init
  }

  function Accepted(orders: Orders, table: seq<Event>, events: seq<Event>): seq<Event> {
    if events == [] then []
    else
      var init, last := Accepted(orders, table, events[..|events| - 1]), events[|events| - 1];
      if Verdict(orders, table, last).None? then init + [last] else init
  }

  lemma {:induction false} NoRefusalMeansAll(orders: Orders, table: seq<Event>, events: seq<Event>)
    ensures Refusals(orders, table, events) == [] <==> AllAcceptable(orders, table, events)
  {
    if events != [] {
      NoRefusalMeansAll(orders, table, events[..|events| - 1]);
    }
  }

  lemma {:induction false} AllAccepted(orders: Orders, table: seq<Event>, events: seq<Event>)
    requires AllAcceptable(orders, table, events)
    ensures Accepted(orders, table, events) == events
  {
    if events != [] {
      AllAccepted(orders, table, events[..|events| - 1]);
      assert events == events[..|events| - 1] + [events[|events| - 1]];
    }
  }

  predicate DistinctIds(events: seq<Event>) {
    events == [] || (DistinctIds(events[..|events| - 1]) && !HasId(events[..|events| - 1], events[|events| - 1].id))
  }

  datatype ApplyError = Rejected | UniqueKeyViolated

  /** One run: any error rejects the whole batch, and so does the unique index on the key. */
  function Apply(orders: Orders, table: seq<Event>, events: seq<Event>): Result<seq<Event>, ApplyError> {
    var added := Fresh(table, events);
    if !AllAcceptable(orders, table, added) then Err(Rejected)
    else if !DistinctIds(added) then Err(UniqueKeyViolated)
    else Ok(table + added)
  }

  /** What the next event of the list adds to the fresh ones, to the errors and to the plan. */
  lemma OneMore(orders: Orders, table: seq<Event>, events: seq<Event>, i: nat)
    requires i < |events|
    ensures var before, verdict := Fresh(table, events[..i]), Verdict(orders, table, events[i]);
            && Fresh(table, events[..i + 1]) == (if HasId(table, events[i].id) then before else before + [events[i]])
            && Refusals(orders, table, before + [events[i]])
               == Refusals(orders, table, before) + (if verdict.Some? then [verdict.value] else [])
            && Accepted(orders, table, before + [events[i]])
               == Accepted(orders, table, before) + (if verdict.Some? then [] else [events[i]])
  {
    assert events[..i + 1][..i] == events[..i];
    var before := Fresh(table, events[..i]);
    assert (before + [events[i]])[..|before|] == before;
  }

  /** The checks of one event, with their loop over its order rows. */
  method Judge(orders: Orders, table: seq<Event>, e: Event) returns (verdict: Option<QcError>)
    ensures verdict == Verdict(orders, table, e)
  {
    var rows := RowsOf(orders, e.key);
    if rows == [] {
      return Some(NoOrder);
    }
    var returnedQty, flags: nat := 0, 0;
    for i := 0 to |rows|
      invariant returnedQty == QtyBack(rows[..i])
      invariant flags > 0 <==> exists k :: 0 <= k < i && rows[k].inWarehouse
    {
      assert rows[..i + 1] == rows[..i] + [rows[i]];
      RowBack(rows[..i], rows[i]);
      if rows[i].returned {
        match rows[i].quantity
        case None => returnedQty := returnedQty + 1;
        case Some(q) => returnedQty := returnedQty + if q > 0 then q else 0;
      }
      if rows[i].inWarehouse {
        flags := flags + 1;
      }
    }
    assert rows[..|rows|] == rows;
    if returnedQty == 0 {
      return Some(NotReturned);
    }
    if flags == 0 {
      return Some(NotConfirmed);
    }
    verdict := if Booked(table, e.key) + e.quantity > returnedQty then Some(ExceedsReturned) else None;
  }

  class QcTable {
    var rows: seq<Event>

    constructor (rows: seq<Event>)
      ensures this.rows == rows
    {
      this.rows := rows;
    }

    /** `_validate_against_db` */
    method Validate(orders: Orders, events: seq<Event>)
      returns (planned: seq<Event>, skipped: nat, errors: seq<QcError>)
      ensures errors == Refusals(orders, rows, Fresh(rows, events))
      ensures planned == Accepted(orders, rows, Fresh(rows, events))
      ensures skipped == |events| - |Fresh(rows, events)|
    {
      planned, skipped, errors := [], 0, [];
      for i := 0 to |events|
        invariant errors == Refusals(orders, rows, Fresh(rows, events[..i]))
        invariant planned == Accepted(orders, rows, Fresh(rows, events[..i]))
        invariant skipped == i - |Fresh(rows, events[..i])|
      {
        var e := events[i];
        OneMore(orders, rows, events, i);
        if HasId(rows, e.id) {
          skipped := skipped + 1;
        } else {
          var verdict := Judge(orders, rows, e);
          if verdict.Some? {
            errors := errors + [verdict.value];
          } else {
            planned := planned + [e];
          }
        }
      }
      assert events[..|events|] == events;
    }

    /** `apply_return_qc_events --apply`: the inserts run in one transaction. */
    method ApplyBatch(orders: Orders, events: seq<Event>) returns (r: Result<nat, ApplyError>)
      modifies this
      ensures r.Ok? <==> Apply(orders, old(rows), events).Ok?
      ensures r.Ok? ==> rows == Apply(orders, old(rows), events).value && r.value == |rows| - |old(rows)|
      ensures r.Err? ==> rows == old(rows) && r == Err(Apply(orders, old(rows), events).error)
    {
      var planned, _, errors := Validate(orders, events);
      NoRefusalMeansAll(orders, rows, Fresh(rows, events));
      if errors != [] {
        return Err(Rejected);
      }
      AllAccepted(orders, rows, Fresh(rows, events));
      FreshIdsAreNew(rows, events);
      var ok := InsertAll(planned);
      r := if ok then Ok(|planned|) else Err(UniqueKeyViolated);
    }

    /** `_insert_events` under the unique index, in a transaction. */
    method InsertAll(planned: seq<Event>) returns (ok: bool)
      requires forall i :: 0 <= i < |planned| ==> !HasId(rows, planned[i].id)
      modifies this
      ensures ok <==> DistinctIds(planned)
      ensures rows == if ok then old(rows) + planned else old(rows)
    {
      var saved := rows;
      for i := 0 to |planned|
        invariant rows == saved + planned[..i]
        invariant DistinctIds(planned[..i])
      {
        assert planned[..i + 1][..i] == planned[..i];
        HasIdInBoth(saved, planned[..i], planned[i].id);
        if HasId(rows, planned[i].id) {
          RepeatSpoilsAll(planned, i);
          rows := saved;
          return false;
        }
        assert rows + [planned[i]] == saved + planned[..i + 1];
        rows := rows + [planned[i]];
      }
      assert planned[..|planned|] == planned;
      ok := true;
    }
  }

  lemma HasIdInBoth(a: seq<Event>, b: seq<Event>, id: string)
    ensures HasId(a + b, id) <==> HasId(a, id) || HasId(b, id)
  {
    if k :| 0 <= k < |a| && a[k].id == id {
      assert (a + b)[k].id == id;
    }
    if k :| 0 <= k < |b| && b[k].id == id {
      assert (a + b)[|a| + k].id == id;
    }
  }

  lemma {:induction false} FreshIdsAreNew(table: seq<Event>, events: seq<Event>)
    ensures forall i :: 0 <= i < |Fresh(table, events)| ==> !HasId(table, Fresh(table, events)[i].id)
  {
    if events != [] {
      FreshIdsAreNew(table, events[..|events| - 1]);
    }
  }

  lemma {:induction false} RepeatSpoilsAll(events: seq<Event>, i: nat)
    requires i < |events| && HasId(events[..i], events[i].id)
    ensures !DistinctIds(events)
    decreases |events|
  {
    if i < |events| - 1 {
      assert events[..|events| - 1][..i] == events[..i];
      RepeatSpoilsAll(events[..|events| - 1], i);
    }
  }

  // ---------------------------------------------------------------- no more than came back

  ghost predicate Within(orders: Orders, table: seq<Event>) {
    forall k :: Booked(table, k) <= Returned(orders, k)
  }

  predicate HasKey(events: seq<Event>, k: Key) {
    exists i :: 0 <= i < |events| && events[i].key == k
  }

  /** At most one event per (store, order, sku). */
  predicate OnePerKey(events: seq<Event>) {
    events == [] || (OnePerKey(events[..|events| - 1]) && !HasKey(events[..|events| - 1], events[|events| - 1].key))
  }

  lemma {:induction false} BookedTogether(a: seq<Event>, b: seq<Event>, k: Key)
    ensures Booked(a + b, k) == Booked(a, k) + Booked(b, k)
  {
    if b == [] {
      assert a + b == a;
    } else {
      assert (a + b)[..|a + b| - 1] == a + b[..|b| - 1];
      BookedTogether(a, b[..|b| - 1], k);
    }
  }

  lemma {:induction false} BookedWithoutKey(events: seq<Event>, k: Key)
    requires !HasKey(events, k)
    ensures Booked(events, k) == 0
  {
    if events != [] {
      var init := events[..|events| - 1];
      assert forall i :: 0 <= i < |init| ==> init[i] == events[i];
      BookedWithoutKey(init, k);
    }
  }

  /** An accepted batch with one event per key adds at most what is still open. */
  lemma {:induction false} FreshFits(orders: Orders, table: seq<Event>, added: seq<Event>, k: Key)
    requires AllAcceptable(orders, table, added) && OnePerKey(added)
    requires Booked(table, k) <= Returned(orders, k)
    ensures Booked(table, k) + Booked(added, k) <= Returned(orders, k)
  {
    if added != [] {
      FreshFits(orders, table, added[..|added| - 1], k);
      if added[|added| - 1].key == k {
        BookedWithoutKey(added[..|added| - 1], k);
      }
    }
  }

  lemma BatchStaysWithin(orders: Orders, table: seq<Event>, events: seq<Event>)
    requires Within(orders, table) && OnePerKey(Fresh(table, events))
    ensures Apply(orders, table, events).Ok? ==> Within(orders, Apply(orders, table, events).value)
    ensures Apply(orders, table, events).Ok? ==>
              forall k :: Booked(Apply(orders, table, events).value, k) <= Pieces(OnlyReturned(RowsOf(orders, k)))
  {
    var added := Fresh(table, events);
    if Apply(orders, table, events).Ok? {
      forall k ensures Returned(orders, k) == Pieces(OnlyReturned(RowsOf(orders, k))) {
        BackIsReturnedPieces(RowsOf(orders, k));
      }
      forall k ensures Booked(table + added, k) <= Returned(orders, k) {
        BookedTogether(table, added, k);
        FreshFits(orders, table, added, k);
      }
    }
  }

  /** A run of the script: the orders as synchronised by then, and the batch it was given. */
  datatype Step = Step(orders: Orders, events: seq<Event>)

  function After(table: seq<Event>, step: Step): seq<Event> {
    var r := Apply(step.orders, table, step.events);
    if r.Ok? then r.value else table
  }

  function AfterAll(table: seq<Event>, steps: seq<Step>): seq<Event> {
    if steps == [] then table else After(AfterAll(table, steps[..|steps| - 1]), steps[|steps| - 1])
  }

  /** A run whose batch is accepted leaves what `Apply` made of the table before it; any other leaves that. */
  lemma StepTaken(table: seq<Event>, steps: seq<Step>, i: nat)
    requires i < |steps|
    ensures AfterAll(table, []) == table
    ensures var before := AfterAll(table, steps[..i]);
            match Apply(steps[i].orders, before, steps[i].events)
            case Ok(after) => AfterAll(table, steps[..i + 1]) == after
            case Err(_) => AfterAll(table, steps[..i + 1]) == before
  {
    assert steps[..i + 1][..i] == steps[..i];
  }

  ghost predicate NeverLess(before: Orders, after: Orders) {
    forall k :: Returned(before, k) <= Returned(after, k)
  }

  /** Every batch has one fresh event per key, and what came back only grows. */
  ghost predicate Careful(orders: Orders, table: seq<Event>, steps: seq<Step>) {
    steps == []
    || (var init, last := steps[..|steps| - 1], steps[|steps| - 1];
        && Careful(orders, table, init)
        && NeverLess(if init == [] then orders else init[|init| - 1].orders, last.orders)
        && OnePerKey(Fresh(AfterAll(table, init), last.events)))
  }

  /** Over any number of runs, accepted or rejected, no key is booked beyond what came back. */
  lemma {:induction false} RunsStayWithin(orders: Orders, table: seq<Event>, steps: seq<Step>)
    requires Within(orders, table) && Careful(orders, table, steps)
    ensures Within(if steps == [] then orders else steps[|steps| - 1].orders, AfterAll(table, steps))
  {
    if steps != [] {
      var init, last := steps[..|steps| - 1], steps[|steps| - 1];
      RunsStayWithin(orders, table, init);
      var before := AfterAll(table, init);
      assert Within(last.orders, before);
      BatchStaysWithin(last.orders, before, last.events);
    }
  }

  // ---------------------------------------------------------------- one event per key is needed

  function Largest(events: seq<Event>, k: Key): int {
    if events == [] then 0
    else
      var init, last := Largest(events[..|events| - 1], k), events[|events| - 1];
      if last.key == k && last.quantity > init then last.quantity else init
  }

  ghost predicate AllPositive(events: seq<Event>) {
    forall i :: 0 <= i < |events| ==> events[i].quantity > 0
  }

  lemma {:induction false} LargestBounds(events: seq<Event>, k: Key)
    requires AllPositive(events)
    ensures 0 <= Largest(events, k) <= Booked(events, k)
    ensures HasKey(events, k) ==> Largest(events, k) > 0
    ensures forall i :: 0 <= i < |events| && events[i].key == k ==> events[i].quantity <= Largest(events, k)
  {
    if events != [] {
      var init := events[..|events| - 1];
      LargestBounds(init, k);
      if HasKey(events, k) && events[|events| - 1].key != k {
        var i :| 0 <= i < |events| && events[i].key == k;
        assert init[i].key == k;
      }
      forall i | 0 <= i < |events| && events[i].key == k ensures events[i].quantity <= Largest(events, k) {
        if i < |init| {
          assert init[i].key == k;
        }
      }
    }
  }

  /** A batch with two events of one key books more than its largest event. */
  lemma {:induction false} TwoExceedLargest(events: seq<Event>) returns (k: Key)
    requires AllPositive(events) && !OnePerKey(events)
    ensures HasKey(events, k) && Booked(events, k) > Largest(events, k)
  {
    var init, last := events[..|events| - 1], events[|events| - 1];
    if HasKey(init, last.key) {
      k := last.key;
      LargestBounds(init, k);
      assert events[|events| - 1].key == k;
    } else {
      k := TwoExceedLargest(init);
      var i :| 0 <= i < |init| && init[i].key == k;
      assert events[i].key == k;
    }
  }

  function IdCount(events: seq<Event>, id: string): nat {
    if events == [] then 0
    else IdCount(events[..|events| - 1], id) + (if events[|events| - 1].id == id then 1 else 0)
  }

  /** The events of a batch whose id the batch `all` lists once. */
  function Once(all: seq<Event>, events: seq<Event>): seq<Event> {
    if events == [] then []
    else
      var init, last := Once(all, events[..|events| - 1]), events[|events| - 1];
      if IdCount(all, last.id) == 1 then init + [last] else init
  }

  /** The first event of every id that `all` lists more than once. */
  function Repeated(all: seq<Event>, events: seq<Event>): seq<Event> {
    if events == [] then []
    else
      var init, last := Repeated(all, events[..|events| - 1]), events[|events| - 1];
      if IdCount(all, last.id) > 1 && !HasId(init, last.id) then init + [last] else init
  }

  lemma {:induction false} IdCountSome(events: seq<Event>, i: nat)
    requires i < |events|
    ensures IdCount(events, events[i].id) >= 1
  {
    if i < |events| - 1 {
      IdCountSome(events[..|events| - 1], i);
    }
  }

  lemma {:induction false} IdCountNone(events: seq<Event>, id: string)
    requires !HasId(events, id)
    ensures IdCount(events, id) == 0
  {
    if events != [] {
      var init := events[..|events| - 1];
      assert forall i :: 0 <= i < |init| ==> init[i] == events[i];
      IdCountNone(init, id);
    }
  }

  lemma {:induction false} DistinctCountsOne(events: seq<Event>, id: string)
    requires DistinctIds(events)
    ensures IdCount(events, id) <= 1
  {
    if events != [] {
      DistinctCountsOne(events[..|events| - 1], id);
      if events[|events| - 1].id == id {
        IdCountNone(events[..|events| - 1], id);
      }
    }
  }

  lemma {:induction false} FreshKeepsCount(table: seq<Event>, events: seq<Event>, id: string)
    requires !HasId(table, id)
    ensures IdCount(Fresh(table, events), id) == IdCount(events, id)
  {
    if events != [] {
      FreshKeepsCount(table, events[..|events| - 1], id);
      var init := Fresh(table, events[..|events| - 1]);
      assert (init + [events[|events| - 1]])[..|init|] == init;
    }
  }

  /** Where an id that the batch repeats is always booked already, only the others can be fresh. */
  lemma {:induction false} FreshAreOnce(table: seq<Event>, all: seq<Event>, n: nat)
    requires n <= |all|
    requires forall i :: 0 <= i < |all| ==> HasId(table, all[i].id) || IdCount(all, all[i].id) <= 1
    ensures Fresh(table, all[..n]) == Fresh(table, Once(all, all[..n]))
  {
    if n > 0 {
      assert all[..n][..n - 1] == all[..n - 1];
      FreshAreOnce(table, all, n - 1);
      IdCountSome(all, n - 1);
      var init := Once(all, all[..n - 1]);
      assert (init + [all[n - 1]])[..|init|] == init;
    }
  }

  lemma AcceptedAreOnce(orders: Orders, table: seq<Event>, events: seq<Event>)
    requires Apply(orders, table, events).Ok?
    ensures Fresh(table, events) == Fresh(table, Once(events, events))
  {
    forall i | 0 <= i < |events| ensures HasId(table, events[i].id) || IdCount(events, events[i].id) <= 1 {
      if !HasId(table, events[i].id) {
        FreshKeepsCount(table, events, events[i].id);
        DistinctCountsOne(Fresh(table, events), events[i].id);
      }
    }
    FreshAreOnce(table, events, |events|);
    assert events[..|events|] == events;
  }

  lemma {:induction false} RepeatedIds(all: seq<Event>, events: seq<Event>, id: string)
    ensures HasId(Repeated(all, events), id) <==> IdCount(all, id) > 1 && HasId(events, id)
  {
    if events != [] {
      var init, last := events[..|events| - 1], events[|events| - 1];
      RepeatedIds(all, init, id);
      HasIdInBoth(Repeated(all, init), [last], id);
      HasIdInBoth(init, [last], id);
      assert events == init + [last] && [last][0].id == last.id;
    }
  }

  lemma {:induction false} RepeatedIsLedger(all: seq<Event>, events: seq<Event>)
    requires AllPositive(events)
    ensures Ledger(Repeated(all, events))
  {
    if events != [] {
      RepeatedIsLedger(all, events[..|events| - 1]);
      var init := Repeated(all, events[..|events| - 1]);
      assert (init + [events[|events| - 1]])[..|init|] == init;
    }
  }

  lemma {:induction false} OnceArePositive(all: seq<Event>, events: seq<Event>)
    requires AllPositive(events)
    ensures AllPositive(Once(all, events))
  {
    if events != [] {
      OnceArePositive(all, events[..|events| - 1]);
    }
  }

  lemma {:induction false} OnceHasNew(all: seq<Event>, events: seq<Event>, i: nat)
    requires i < |Once(all, events)|
    ensures IdCount(all, Once(all, events)[i].id) == 1
  {
    if i < |Once(all, events[..|events| - 1])| {
      OnceHasNew(all, events[..|events| - 1], i);
    }
  }

  lemma {:induction false} OnceCounts(all: seq<Event>, events: seq<Event>, id: string)
    ensures IdCount(Once(all, events), id) <= IdCount(events, id)
  {
    if events != [] {
      OnceCounts(all, events[..|events| - 1], id);
      var init := Once(all, events[..|events| - 1]);
      assert (init + [events[|events| - 1]])[..|init|] == init;
    }
  }

  lemma {:induction false} CountedOnceIsDistinct(events: seq<Event>)
    requires forall i :: 0 <= i < |events| ==> IdCount(events, events[i].id) <= 1
    ensures DistinctIds(events)
  {
    if events != [] {
      var init, last := events[..|events| - 1], events[|events| - 1];
      forall i | 0 <= i < |init| ensures IdCount(init, init[i].id) <= 1 {
        assert init[i] == events[i];
      }
      CountedOnceIsDistinct(init);
      assert IdCount(events, events[|events| - 1].id) <= 1;
      forall i | 0 <= i < |init| ensures init[i].id != last.id {
        IdCountSome(init, i);
      }
    }
  }

  lemma OnceIsDistinct(events: seq<Event>)
    ensures DistinctIds(Once(events, events))
  {
    var once := Once(events, events);
    forall i | 0 <= i < |once| ensures IdCount(once, once[i].id) <= 1 {
      OnceHasNew(events, events, i);
      OnceCounts(events, events, once[i].id);
    }
    CountedOnceIsDistinct(once);
  }

  lemma {:induction false} DistinctAreOnce(all: seq<Event>, n: nat)
    requires DistinctIds(all) && n <= |all|
    ensures Once(all, all[..n]) == all[..n]
  {
    if n > 0 {
      assert all[..n][..n - 1] == all[..n - 1];
      DistinctAreOnce(all, n - 1);
      IdCountSome(all, n - 1);
      DistinctCountsOne(all, all[n - 1].id);
    }
  }

  /** The rows of the table have distinct ids, by its unique index, and positive quantities. */
  ghost predicate Ledger(table: seq<Event>) {
    DistinctIds(table) && AllPositive(table)
  }

  ghost predicate KeepsWithin(orders: Orders, table: seq<Event>, events: seq<Event>) {
    Within(orders, table) && Apply(orders, table, events).Ok? ==> Within(orders, Apply(orders, table, events).value)
  }

  ghost predicate SafeOnEveryLedger(events: seq<Event>) {
    forall orders: Orders, table: seq<Event> :: Ledger(table) ==> KeepsWithin(orders, table, events)
  }

  /** A batch cannot overbook whatever the ledger holds if and only if no two of the events it lists once
      share a key: the check does not add up the events of one batch. An id that it lists twice is
      skipped where it is booked, and stops the batch where it is not. */
  lemma SafeIffOneEventPerKey(events: seq<Event>)
    requires AllPositive(events)
    ensures SafeOnEveryLedger(events) <==> OnePerKey(Once(events, events))
    ensures DistinctIds(events) ==> (SafeOnEveryLedger(events) <==> OnePerKey(events))
  {
    if OnePerKey(Once(events, events)) {
      forall orders: Orders, table: seq<Event> ensures KeepsWithin(orders, table, events) {
        OneEventPerKeyKeeps(orders, table, events);
      }
    } else {
      var orders, table := SharedKeyOverbooks(events);
      assert !SafeOnEveryLedger(events);
    }
    if DistinctIds(events) {
      DistinctAreOnce(events, |events|);
      assert events[..|events|] == events;
    }
  }

  lemma OneEventPerKeyKeeps(orders: Orders, table: seq<Event>, events: seq<Event>)
    requires OnePerKey(Once(events, events))
    ensures KeepsWithin(orders, table, events)
  {
    if Within(orders, table) && Apply(orders, table, events).Ok? {
      AcceptedAreOnce(orders, table, events);
      FreshOnePerKey(table, Once(events, events));
      BatchStaysWithin(orders, table, events);
    }
  }

  lemma SharedKeyOverbooks(events: seq<Event>) returns (orders: Orders, table: seq<Event>)
    requires AllPositive(events) && !OnePerKey(Once(events, events))
    ensures Ledger(table) && !KeepsWithin(orders, table, events)
  {
    var once := Once(events, events);
    table := Repeated(events, events);
    RepeatedIsLedger(events, events);
    OnceArePositive(events, events);
    orders := Room(table, once);
    RoomOverbooks(table, once);
    OnceIsFresh(events, |events|);
    assert events[..|events|] == events;
    OnceIsDistinct(events);
  }

  /** Over a table that holds the repeated ids, exactly the others are fresh. */
  lemma {:induction false} OnceIsFresh(all: seq<Event>, n: nat)
    requires n <= |all|
    ensures Fresh(Repeated(all, all), all[..n]) == Once(all, all[..n])
  {
    if n > 0 {
      assert all[..n][..n - 1] == all[..n - 1];
      OnceIsFresh(all, n - 1);
      IdCountSome(all, n - 1);
      RepeatedIds(all, all, all[n - 1].id);
    }
  }

  lemma {:induction false} FreshOnePerKey(table: seq<Event>, events: seq<Event>)
    requires OnePerKey(events)
    ensures OnePerKey(Fresh(table, events))
    ensures forall i :: 0 <= i < |Fresh(table, events)| ==> HasKey(events, Fresh(table, events)[i].key)
  {
    if events != [] {
      var init, last := events[..|events| - 1], events[|events| - 1];
      FreshOnePerKey(table, init);
      var added := Fresh(table, init);
      assert (added + [last])[..|added|] == added;
      forall i | 0 <= i < |added| ensures HasKey(events, added[i].key) {
        var j :| 0 <= j < |init| && init[j].key == added[i].key;
        assert events[j].key == added[i].key;
      }
      assert events[|events| - 1].key == last.key;
    }
  }

  /** Just enough came back for what is booked and the largest event of every key. */
  function Room(table: seq<Event>, events: seq<Event>): Orders {
    map i | 0 <= i < |table + events| :: (table + events)[i].key := [RoomRow(table, events, (table + events)[i].key)]
  }

  function RoomRow(table: seq<Event>, events: seq<Event>, k: Key): OrderRow {
    OrderRow(true, Some(Booked(table, k) + Largest(events, k)), true)
  }

  lemma RoomReturns(table: seq<Event>, events: seq<Event>, i: nat)
    requires i < |table + events| && AllPositive(table) && AllPositive(events)
    ensures var k := (table + events)[i].key;
            && RowsOf(Room(table, events), k) == [RoomRow(table, events, k)]
            && Returned(Room(table, events), k) == Booked(table, k) + Largest(events, k)
  {
    var k := (table + events)[i].key;
    LargestBounds(table, k);
    LargestBounds(events, k);
    var row := RoomRow(table, events, k);
    assert [row][..0] == [];
    assert QtyBack([row]) == QtyBack([]) + row.quantity.value;
  }

  lemma RoomIsWithin(table: seq<Event>, events: seq<Event>)
    requires AllPositive(table) && AllPositive(events)
    ensures Within(Room(table, events), table)
  {
    forall k ensures Booked(table, k) <= Returned(Room(table, events), k) {
      if HasKey(table, k) {
        var i :| 0 <= i < |table| && table[i].key == k;
        assert (table + events)[i].key == k;
        RoomReturns(table, events, i);
        LargestBounds(events, k);
      } else {
        BookedWithoutKey(table, k);
      }
    }
  }

  lemma RoomTakes(table: seq<Event>, events: seq<Event>, i: nat)
    requires AllPositive(table) && AllPositive(events) && i < |events|
    ensures Verdict(Room(table, events), table, events[i]).None?
  {
    var k := events[i].key;
    assert (table + events)[|table| + i].key == k;
    RoomReturns(table, events, |table| + i);
    LargestBounds(table, k);
    LargestBounds(events, k);
    assert RowsOf(Room(table, events), k)[0].inWarehouse;
  }

  lemma {:induction false} RoomAccepts(table: seq<Event>, events: seq<Event>, n: nat)
    requires AllPositive(table) && AllPositive(events) && n <= |events|
    ensures AllAcceptable(Room(table, events), table, events[..n])
  {
    if n > 0 {
      RoomAccepts(table, events, n - 1);
      assert events[..n][..n - 1] == events[..n - 1];
      RoomTakes(table, events, n - 1);
    }
  }

  /** Two events of one key are both accepted there, and together they are too much. */
  lemma RoomOverbooks(table: seq<Event>, events: seq<Event>)
    requires AllPositive(table) && AllPositive(events) && !OnePerKey(events)
    ensures Within(Room(table, events), table) && AllAcceptable(Room(table, events), table, events)
    ensures !Within(Room(table, events), table + events)
  {
    RoomIsWithin(table, events);
    RoomAccepts(table, events, |events|);
    assert events[..|events|] == events;
    var k := TwoExceedLargest(events);
    var i :| 0 <= i < |events| && events[i].key == k;
    assert (table + events)[|table| + i].key == k;
    RoomReturns(table, events, |table| + i);
    BookedTogether(table, events, k);
    assert Booked(table + events, k) > Returned(Room(table, events), k);
  }

  // ---------------------------------------------------------------- replay

  lemma {:induction false} NothingFresh(table: seq<Event>, events: seq<Event>)
    requires forall i :: 0 <= i < |events| ==> HasId(table, events[i].id)
    ensures Fresh(table, events) == []
  {
    if events != [] {
      NothingFresh(table, events[..|events| - 1]);
    }
  }

  lemma {:induction false} BookedIdsStay(table: seq<Event>, steps: seq<Step>, id: string)
    requires HasId(table, id)
    ensures HasId(AfterAll(table, steps), id)
  {
    if steps != [] {
      BookedIdsStay(table, steps[..|steps| - 1], id);
      var before := AfterAll(table, steps[..|steps| - 1]);
      HasIdInBoth(before, Fresh(before, steps[|steps| - 1].events), id);
    }
  }

  lemma {:induction false} FreshCovers(table: seq<Event>, events: seq<Event>, i: nat)
    requires i < |events|
    ensures HasId(table, events[i].id) || HasId(Fresh(table, events), events[i].id)
  {
    var init, last := events[..|events| - 1], events[|events| - 1];
    if i < |init| {
      FreshCovers(table, init, i);
      HasIdInBoth(Fresh(table, init), [last], events[i].id);
    } else if !HasId(table, last.id) {
      assert Fresh(table, events)[|Fresh(table, init)|].id == last.id;
    }
  }

  /** Once a batch is in, giving it again, after any other runs and whatever became of the orders,
      succeeds and adds nothing. */
  lemma ReplayAddsNothing(orders: Orders, table: seq<Event>, events: seq<Event>, later: seq<Step>, now: Orders)
    requires Apply(orders, table, events).Ok?
    ensures var current := AfterAll(Apply(orders, table, events).value, later);
            Apply(now, current, events) == Ok(current)
  {
    var booked := table + Fresh(table, events);
    var current := AfterAll(booked, later);
    forall i | 0 <= i < |events| ensures HasId(current, events[i].id) {
      FreshCovers(table, events, i);
      HasIdInBoth(table, Fresh(table, events), events[i].id);
      BookedIdsStay(booked, later, events[i].id);
    }
    NothingFresh(current, events);
    assert current + [] == current;
  }
}
