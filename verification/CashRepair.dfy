/** scripts/apply_order_cash_repair_manifest.py: an append-only repair of `fact_cashflow_events`.
    What the transaction does to the ledger, when a rerun inserts and when it only replays, and what
    any number of runs, each possibly cut off anywhere, leaves behind. Amounts are hundredths. */
module CashRepair {
  import opened Wrappers
  import opened GuardedWrite

  datatype CashRow = CashRow(id: int, hash: string, amount: int, payload: string)
  datatype Event = Event(hash: string, amount: int, payload: string)
  datatype Reversal = Reversal(stale: CashRow, event: Event)

  /** The cash table in insertion order, and every other table. */
  datatype Db = Db(cash: seq<CashRow>, others: map<string, seq<string>>)

  /** `sealed` is the content whose SHA-256 is `db_sha256`; hashes are injective. */
  datatype Manifest = Manifest(
    sealed: Db, reversals: seq<Reversal>, replacements: seq<Event>, replacementTotal: int, expectedInsertCount: int)

  function ReversalEvents(rs: seq<Reversal>): (r: seq<Event>)
    ensures |r| == |rs| && forall i :: 0 <= i < |rs| ==> r[i] == rs[i].event
  {
    seq(|rs|, i requires 0 <= i < |rs| => rs[i].event)
  }

  /** `_expected_events` */
  function Events(m: Manifest): seq<Event> {
    ReversalEvents(m.reversals) + m.replacements
  }

  ghost predicate Keyed(cash: seq<CashRow>) {
    forall i, j :: 0 <= i < j < |cash| ==> cash[i].id != cash[j].id
  }

  ghost predicate DistinctHashes(events: seq<Event>) {
    forall i, j :: 0 <= i < j < |events| ==> events[i].hash != events[j].hash
  }

  function Count(cash: seq<CashRow>, hash: string): nat {
    if cash == [] then 0
    else Count(cash[..|cash| - 1], hash) + (if cash[|cash| - 1].hash == hash then 1 else 0)
  }

  // ---------------------------------------------------------------- the applied-state check

  predicate Expects(events: seq<Event>, hash: string) {
    exists i :: 0 <= i < |events| && events[i].hash == hash
  }

  /** `SELECT * ... WHERE event_hash IN (...)` */
  function Select(cash: seq<CashRow>, events: seq<Event>): seq<CashRow> {
    if cash == [] then []
    else
      var init, last := Select(cash[..|cash| - 1], events), cash[|cash| - 1];
      if Expects(events, last.hash) then init + [last] else init
  }

  predicate Matches(row: CashRow, e: Event) {
    row.hash == e.hash && row.amount == e.amount && row.payload == e.payload
  }

  datatype AppliedState = NotApplied | Exact | Partial | Drift

  /** `_exact_applied_state_conn`: nothing there, exactly there, or a raise. */
  method ExactAppliedState(cash: seq<CashRow>, events: seq<Event>) returns (r: AppliedState)
    ensures r == StateOf(cash, events)
  {
    var rows := Select(cash, events);
    if rows == [] {
      return NotApplied;
    }
    if |rows| != |events| {
      return Partial;
    }
    var byHash: map<string, CashRow> := map[];
    for k := 0 to |rows|
      invariant byHash == Last(rows[..k])
    {
      assert rows[..k + 1][..k] == rows[..k];
      byHash := byHash[rows[k].hash := rows[k]];
    }
    assert rows[..|rows|] == rows;
    for k := 0 to |events|
      invariant forall i :: 0 <= i < k ==> events[i].hash in byHash && Matches(byHash[events[i].hash], events[i])
    {
      var e := events[k];
      if e.hash !in byHash || !Matches(byHash[e.hash], e) {
        return Drift;
      }
    }
    r := Exact;
  }

  /** `by_hash`: a later row with the same hash replaces an earlier one. */
  function Last(rows: seq<CashRow>): map<string, CashRow> {
    if rows == [] then map[]
    else Last(rows[..|rows| - 1])[rows[|rows| - 1].hash := rows[|rows| - 1]]
  }

  function StateOf(cash: seq<CashRow>, events: seq<Event>): AppliedState {
    var rows := Select(cash, events);
    if rows == [] then NotApplied
    else if |rows| != |events| then Partial
    else if forall i :: 0 <= i < |events| ==>
              events[i].hash in Last(rows) && Matches(Last(rows)[events[i].hash], events[i])
    then Exact else Drift
  }

  function TotalCount(cash: seq<CashRow>, events: seq<Event>): nat {
    if events == [] then 0
    else TotalCount(cash, events[..|events| - 1]) + Count(cash, events[|events| - 1].hash)
  }

  lemma {:induction false} TotalCountExtends(cash: seq<CashRow>, events: seq<Event>)
    requires cash != [] && DistinctHashes(events)
    ensures TotalCount(cash, events)
            == TotalCount(cash[..|cash| - 1], events) + (if Expects(events, cash[|cash| - 1].hash) then 1 else 0)
  {
    if events != [] {
      var n := |events| - 1;
      var init, h := events[..n], cash[|cash| - 1].hash;
      TotalCountExtends(cash, init);
      if Expects(init, h) {
        var i :| 0 <= i < |init| && init[i].hash == h;
        assert events[i].hash == h != events[n].hash;
      } else if Expects(events, h) {
        var i :| 0 <= i < |events| && events[i].hash == h;
        assert i == n;
      } else {
        assert events[n].hash != h;
      }
    }
  }

  lemma {:induction false} TotalCountOfNothing(events: seq<Event>)
    ensures TotalCount([], events) == 0
  {
    if events != [] {
      TotalCountOfNothing(events[..|events| - 1]);
    }
  }

  lemma {:induction false} SelectedIsCounted(cash: seq<CashRow>, events: seq<Event>)
    requires DistinctHashes(events)
    ensures |Select(cash, events)| == TotalCount(cash, events)
  {
    if cash == [] {
      TotalCountOfNothing(events);
    } else {
      SelectedIsCounted(cash[..|cash| - 1], events);
      TotalCountExtends(cash, events);
    }
  }

  lemma {:induction false} AllAtLeastOne(cash: seq<CashRow>, events: seq<Event>)
    requires forall i :: 0 <= i < |events| ==> Count(cash, events[i].hash) >= 1
    ensures TotalCount(cash, events) >= |events|
    ensures TotalCount(cash, events) == |events| ==> forall i :: 0 <= i < |events| ==> Count(cash, events[i].hash) == 1
  {
    if events != [] {
      var init := events[..|events| - 1];
      assert forall i :: 0 <= i < |init| ==> init[i] == events[i];
      AllAtLeastOne(cash, init);
    }
  }

  lemma {:induction false} AllExactlyOne(cash: seq<CashRow>, events: seq<Event>)
    requires forall i :: 0 <= i < |events| ==> Count(cash, events[i].hash) == 1
    ensures TotalCount(cash, events) == |events|
  {
    if events != [] {
      var init := events[..|events| - 1];
      assert forall i :: 0 <= i < |init| ==> init[i] == events[i];
      AllExactlyOne(cash, init);
    }
  }

  lemma {:induction false} CountPositiveIffPresent(cash: seq<CashRow>, hash: string)
    ensures Count(cash, hash) >= 1 <==> exists k :: 0 <= k < |cash| && cash[k].hash == hash
  {
    if cash != [] {
      var init := cash[..|cash| - 1];
      CountPositiveIffPresent(init, hash);
      if k :| 0 <= k < |cash| && cash[k].hash == hash {
        assert k == |cash| - 1 || init[k].hash == hash;
      }
      if k :| 0 <= k < |init| && init[k].hash == hash {
        assert cash[k].hash == hash;
      }
    }
  }

  lemma {:induction false} SelectMembers(cash: seq<CashRow>, events: seq<Event>, row: CashRow)
    ensures row in Select(cash, events) <==> row in cash && Expects(events, row.hash)
  {
    if cash != [] {
      var init, last := cash[..|cash| - 1], cash[|cash| - 1];
      SelectMembers(init, events, row);
      assert cash == init + [last];
    }
  }

  lemma {:induction false} LastIsARow(rows: seq<CashRow>, hash: string)
    ensures hash in Last(rows) <==> exists row :: row in rows && row.hash == hash
    ensures hash in Last(rows) ==> Last(rows)[hash] in rows && Last(rows)[hash].hash == hash
  {
    if rows != [] {
      var init, last := rows[..|rows| - 1], rows[|rows| - 1];
      LastIsARow(init, hash);
      assert rows == init + [last];
    }
  }

  ghost predicate OnlyRowIs(cash: seq<CashRow>, e: Event) {
    Count(cash, e.hash) == 1
    && exists row :: row in cash && row.hash == e.hash && row.amount == e.amount && row.payload == e.payload
  }

  lemma {:induction false} OneRowPerHash(cash: seq<CashRow>, a: CashRow, b: CashRow)
    requires a in cash && b in cash && a.hash == b.hash && Count(cash, a.hash) == 1
    ensures a == b
  {
    var init, last := cash[..|cash| - 1], cash[|cash| - 1];
    assert cash == init + [last];
    if last.hash == a.hash {
      CountPositiveIffPresent(init, a.hash);
    } else {
      OneRowPerHash(init, a, b);
    }
  }

  /** The check is a strict trichotomy: no expected event is in the table, or every expected event is
      there exactly once and unaltered, or it raises. */
  lemma AppliedStateMeaning(cash: seq<CashRow>, events: seq<Event>)
    requires DistinctHashes(events) && events != []
    ensures StateOf(cash, events).NotApplied? <==> forall i :: 0 <= i < |events| ==> Count(cash, events[i].hash) == 0
    ensures StateOf(cash, events).Exact? <==> forall i :: 0 <= i < |events| ==> OnlyRowIs(cash, events[i])
  {
    var rows := Select(cash, events);
    SelectedIsCounted(cash, events);
    NothingSelected(cash, events);
    if StateOf(cash, events).Exact? {
      forall i | 0 <= i < |events|
        ensures Count(cash, events[i].hash) >= 1
        ensures exists row :: row in cash && row.hash == events[i].hash
                              && row.amount == events[i].amount && row.payload == events[i].payload
      {
        LastIsARow(rows, events[i].hash);
        var row := Last(rows)[events[i].hash];
        SelectMembers(cash, events, row);
        CountPositiveIffPresent(cash, row.hash);
      }
      AllAtLeastOne(cash, events);
    } else if forall i :: 0 <= i < |events| ==> OnlyRowIs(cash, events[i]) {
      AllExactlyOne(cash, events);
      forall i | 0 <= i < |events|
        ensures events[i].hash in Last(rows) && Matches(Last(rows)[events[i].hash], events[i])
      {
        var row :| row in cash && row.hash == events[i].hash
                   && row.amount == events[i].amount && row.payload == events[i].payload;
        SelectMembers(cash, events, row);
        LastIsARow(rows, events[i].hash);
        SelectMembers(cash, events, Last(rows)[events[i].hash]);
        OneRowPerHash(cash, row, Last(rows)[events[i].hash]);
      }
    }
  }

  lemma NothingSelected(cash: seq<CashRow>, events: seq<Event>)
    ensures Select(cash, events) == [] <==> forall i :: 0 <= i < |events| ==> Count(cash, events[i].hash) == 0
  {
    if Select(cash, events) == [] {
      forall i | 0 <= i < |events| ensures Count(cash, events[i].hash) == 0 {
        CountPositiveIffPresent(cash, events[i].hash);
        if k :| 0 <= k < |cash| && cash[k].hash == events[i].hash {
          SelectMembers(cash, events, cash[k]);
        }
      }
    } else {
      var row := Select(cash, events)[0];
      SelectMembers(cash, events, row);
      var i :| 0 <= i < |events| && events[i].hash == row.hash;
      CountPositiveIffPresent(cash, row.hash);
    }
  }

  // ---------------------------------------------------------------- the transaction

  /** AUTOINCREMENT: the next after the greatest id in the table, and at least 1. */
  function NextId(cash: seq<CashRow>): (r: int)
    ensures forall k :: 0 <= k < |cash| ==> cash[k].id < r
  {
    if cash == [] then 1
    else
      var rest := NextId(cash[..|cash| - 1]);
      if cash[|cash| - 1].id < rest then rest else cash[|cash| - 1].id + 1
  }

  lemma {:induction false} NextAfterGreatest(cash: seq<CashRow>)
    ensures NextId(cash) == 1 || exists k :: 0 <= k < |cash| && cash[k].id == NextId(cash) - 1
    ensures NextId(cash) >= 1
  {
    if cash != [] {
      var init := cash[..|cash| - 1];
      NextAfterGreatest(init);
      if cash[|init|].id < NextId(init) && NextId(init) != 1 {
        var k :| 0 <= k < |init| && init[k].id == NextId(init) - 1;
        assert cash[k].id == NextId(cash) - 1;
      } else if cash[|init|].id >= NextId(init) {
        assert cash[|init|].id == NextId(cash) - 1;
      }
    }
  }

  function Insert(cash: seq<CashRow>, e: Event): seq<CashRow> {
    cash + [CashRow(NextId(cash), e.hash, e.amount, e.payload)]
  }

  function InsertAll(cash: seq<CashRow>, events: seq<Event>): seq<CashRow> {
    if events == [] then cash else Insert(InsertAll(cash, events[..|events| - 1]), events[|events| - 1])
  }

  /** Every event has one row, and that has the event's amount and all its other columns. */
  ghost predicate AllUnaltered(cash: seq<CashRow>, events: seq<Event>) {
    forall i :: 0 <= i < |events| ==> Count(cash, events[i].hash) == 1 && Unaltered(cash, events[i])
  }

  ghost predicate Unaltered(cash: seq<CashRow>, e: Event) {
    forall row :: row in cash && row.hash == e.hash ==> row.amount == e.amount && row.payload == e.payload
  }

  /** A state that counts as applied holds every event unaltered: an altered row is never taken for a replay. */
  lemma ExactIsUnaltered(cash: seq<CashRow>, events: seq<Event>)
    ensures DistinctHashes(events) && events != [] && StateOf(cash, events).Exact? ==> AllUnaltered(cash, events)
  {
    if DistinctHashes(events) && events != [] && StateOf(cash, events).Exact? {
      AppliedStateMeaning(cash, events);
      forall i | 0 <= i < |events| ensures Count(cash, events[i].hash) == 1 && Unaltered(cash, events[i]) {
        assert OnlyRowIs(cash, events[i]);
        var it :| it in cash && it.hash == events[i].hash
                  && it.amount == events[i].amount && it.payload == events[i].payload;
        forall row | row in cash && row.hash == events[i].hash ensures row == it {
          OneRowPerHash(cash, row, it);
        }
      }
    }
  }

  lemma {:induction false} InsertOnlyAppends(cash: seq<CashRow>, events: seq<Event>)
    ensures |InsertAll(cash, events)| == |cash| + |events|
    ensures forall k :: 0 <= k < |cash| ==> InsertAll(cash, events)[k] == cash[k]
    ensures forall i :: 0 <= i < |events| ==>
              var row := InsertAll(cash, events)[|cash| + i];
              row.hash == events[i].hash && row.amount == events[i].amount && row.payload == events[i].payload
  {
    if events != [] {
      InsertOnlyAppends(cash, events[..|events| - 1]);
    }
  }

  lemma InsertLast(cash: seq<CashRow>, events: seq<Event>, e: Event)
    ensures InsertAll(cash, events + [e]) == Insert(InsertAll(cash, events), e)
  {
    assert (events + [e])[..|events|] == events;
  }

  function PairCount(cash: seq<CashRow>, id: int, hash: string): nat {
    if cash == [] then 0
    else
      var last := cash[|cash| - 1];
      PairCount(cash[..|cash| - 1], id, hash) + (if last.id == id || last.hash == hash then 1 else 0)
  }

  function PairNet(cash: seq<CashRow>, id: int, hash: string): int {
    if cash == [] then 0
    else
      var last := cash[|cash| - 1];
      PairNet(cash[..|cash| - 1], id, hash) + (if last.id == id || last.hash == hash then last.amount else 0)
  }

  function Total(cash: seq<CashRow>): int {
    if cash == [] then 0 else Total(cash[..|cash| - 1]) + cash[|cash| - 1].amount
  }

  function EventTotal(events: seq<Event>): int {
    if events == [] then 0 else EventTotal(events[..|events| - 1]) + events[|events| - 1].amount
  }

  predicate PairsNet(cash: seq<CashRow>, reversals: seq<Reversal>) {
    forall i :: 0 <= i < |reversals| ==>
      && PairCount(cash, reversals[i].stale.id, reversals[i].event.hash) == 2
      && PairNet(cash, reversals[i].stale.id, reversals[i].event.hash) == 0
  }

  // SUM over no rows is NULL and float(None) raises, so an empty replacement list is refused.
  predicate ReplacementsTotal(cash: seq<CashRow>, m: Manifest) {
    var rows := Select(cash, m.replacements);
    m.replacements != [] && |rows| == |m.replacements| && Total(rows) == m.replacementTotal
  }

  /** The checks between BEGIN and COMMIT. */
  predicate TransactionPasses(m: Manifest, db: Db) {
    var cash := InsertAll(db.cash, Events(m));
    && StateOf(cash, Events(m)).Exact?
    && |Events(m)| == m.expectedInsertCount
    && PairsNet(cash, m.reversals)
    && ReplacementsTotal(cash, m)
  }

  function PostImage(m: Manifest, db: Db): Db {
    Db(InsertAll(db.cash, Events(m)), db.others)
  }

  /** `_insert_events` */
  method InsertEvents(cash0: seq<CashRow>, events: seq<Event>) returns (cash: seq<CashRow>)
    ensures cash == InsertAll(cash0, events)
  {
    cash := cash0;
    for k := 0 to |events|
      invariant cash == InsertAll(cash0, events[..k])
    {
      InsertLast(cash0, events[..k], events[k]);
      assert events[..k + 1] == events[..k] + [events[k]];
      cash := Insert(cash, events[k]);
    }
    assert events[..|events|] == events;
  }

  method CheckPairs(cash: seq<CashRow>, reversals: seq<Reversal>) returns (ok: bool)
    ensures ok <==> PairsNet(cash, reversals)
  {
    for k := 0 to |reversals|
      invariant PairsNet(cash, reversals[..k])
    {
      var r := reversals[k];
      if PairCount(cash, r.stale.id, r.event.hash) != 2 || PairNet(cash, r.stale.id, r.event.hash) != 0 {
        return false;
      }
    }
    assert reversals[..|reversals|] == reversals;
    ok := true;
  }

  /** The statements between BEGIN and COMMIT, on the uncommitted state. */
  method Transact(m: Manifest, db: Db) returns (post: Option<Db>)
    ensures post == if TransactionPasses(m, db) then Some(PostImage(m, db)) else None
    // A manifest without replacements is never committed: the sum over no rows raises.
    ensures post.Some? ==> |m.replacements| > 0
  {
    var cash := InsertEvents(db.cash, Events(m));
    var state := ExactAppliedState(cash, Events(m));
    if !state.Exact? || |Select(cash, Events(m))| != m.expectedInsertCount {
      return None;
    }
    var pairs := CheckPairs(cash, m.reversals);
    if !pairs || !ReplacementsTotal(cash, m) {
      return None;
    }
    // Table counts: only the cash table grew, and by the expected count.
    InsertOnlyAppends(db.cash, Events(m));
    if |cash| != |db.cash| + m.expectedInsertCount {
      return None;
    }
    post := Some(Db(cash, db.others));
  }

  lemma {:induction false} InsertedTotal(cash: seq<CashRow>, events: seq<Event>)
    ensures Total(InsertAll(cash, events)) == Total(cash) + EventTotal(events)
  {
    if events != [] {
      var init := InsertAll(cash, events[..|events| - 1]);
      InsertedTotal(cash, events[..|events| - 1]);
      assert Insert(init, events[|events| - 1])[..|init|] == init;
    }
  }

  lemma {:induction false} InsertedCount(cash: seq<CashRow>, events: seq<Event>, hash: string)
    ensures Count(InsertAll(cash, events), hash) == Count(cash, hash) + EventCount(events, hash)
  {
    if events != [] {
      var init := InsertAll(cash, events[..|events| - 1]);
      InsertedCount(cash, events[..|events| - 1], hash);
      assert Insert(init, events[|events| - 1])[..|init|] == init;
    }
  }

  function EventCount(events: seq<Event>, hash: string): nat {
    if events == [] then 0
    else EventCount(events[..|events| - 1], hash) + (if events[|events| - 1].hash == hash then 1 else 0)
  }

  lemma {:induction false} EventCountOne(events: seq<Event>, i: nat)
    requires DistinctHashes(events) && i < |events|
    ensures EventCount(events, events[i].hash) == 1
  {
    var init := events[..|events| - 1];
    if i < |init| {
      EventCountOne(init, i);
    } else {
      EventCountNone(init, events[i].hash);
    }
  }

  lemma {:induction false} EventCountNone(events: seq<Event>, hash: string)
    requires !Expects(events, hash)
    ensures EventCount(events, hash) == 0
  {
    if events != [] {
      var init := events[..|events| - 1];
      assert forall i :: 0 <= i < |init| ==> init[i] == events[i];
      EventCountNone(init, hash);
    }
  }

  lemma {:induction false} InsertKeepsKeys(cash: seq<CashRow>, events: seq<Event>)
    requires Keyed(cash)
    ensures Keyed(InsertAll(cash, events))
  {
    if events != [] {
      InsertKeepsKeys(cash, events[..|events| - 1]);
    }
  }

  // ---------------------------------------------------------------- conservation

  /** The superseded rows of `db`, by id, summed. */
  function StaleTotal(cash: seq<CashRow>, reversals: seq<Reversal>): int {
    if reversals == [] then 0
    else StaleTotal(cash, reversals[..|reversals| - 1]) + AmountOfId(cash, reversals[|reversals| - 1].stale.id)
  }

  function AmountOfId(cash: seq<CashRow>, id: int): int {
    if cash == [] then 0
    else AmountOfId(cash[..|cash| - 1], id) + (if cash[|cash| - 1].id == id then cash[|cash| - 1].amount else 0)
  }

  lemma {:induction false} AmountOfIdIsTheRow(cash: seq<CashRow>, k: nat)
    requires Keyed(cash) && k < |cash|
    ensures AmountOfId(cash, cash[k].id) == cash[k].amount
  {
    var init := cash[..|cash| - 1];
    if k < |init| {
      AmountOfIdIsTheRow(init, k);
    } else {
      AmountOfNoRow(init, cash[k].id);
    }
  }

  lemma {:induction false} AmountOfNoRow(cash: seq<CashRow>, id: int)
    requires forall k :: 0 <= k < |cash| ==> cash[k].id != id
    ensures AmountOfId(cash, id) == 0
  {
    if cash != [] {
      AmountOfNoRow(cash[..|cash| - 1], id);
    }
  }

  lemma {:induction false} PairOfNoRow(cash: seq<CashRow>, id: int, hash: string)
    requires PairCount(cash, id, hash) == 0
    ensures PairNet(cash, id, hash) == 0
    ensures forall k :: 0 <= k < |cash| ==> cash[k].id != id && cash[k].hash != hash
  {
    if cash != [] {
      PairOfNoRow(cash[..|cash| - 1], id, hash);
    }
  }

  lemma {:induction false} PairOfOneRow(cash: seq<CashRow>, id: int, hash: string, i: nat)
    requires i < |cash| && (cash[i].id == id || cash[i].hash == hash)
    requires PairCount(cash, id, hash) == 1
    ensures PairNet(cash, id, hash) == cash[i].amount
  {
    var init := cash[..|cash| - 1];
    if i < |init| {
      if PairCount(init, id, hash) == 0 {
        PairOfNoRow(init, id, hash);
      }
      PairOfOneRow(init, id, hash, i);
    } else {
      PairOfNoRow(init, id, hash);
    }
  }

  lemma {:induction false} PairOfTwoRows(cash: seq<CashRow>, id: int, hash: string, i: nat, j: nat)
    requires i < j < |cash|
    requires (cash[i].id == id || cash[i].hash == hash) && (cash[j].id == id || cash[j].hash == hash)
    requires PairCount(cash, id, hash) == 2
    ensures PairNet(cash, id, hash) == cash[i].amount + cash[j].amount
  {
    var init := cash[..|cash| - 1];
    if j < |init| {
      if PairCount(init, id, hash) == 1 {
        PairOfOneRow(init, id, hash, i);
        OneMatchOnly(init, id, hash, i, j);
      } else {
        PairOfTwoRows(init, id, hash, i, j);
      }
    } else {
      PairOfOneRow(init, id, hash, i);
    }
  }

  lemma {:induction false} OneMatchOnly(cash: seq<CashRow>, id: int, hash: string, i: nat, j: nat)
    requires i < j < |cash|
    requires (cash[i].id == id || cash[i].hash == hash) && (cash[j].id == id || cash[j].hash == hash)
    ensures PairCount(cash, id, hash) >= 2
  {
    var init := cash[..|cash| - 1];
    if j < |init| {
      OneMatchOnly(init, id, hash, i, j);
    } else if PairCount(init, id, hash) == 0 {
      PairOfNoRow(init, id, hash);
    }
  }

  ghost predicate StaleRowsPresent(cash: seq<CashRow>, reversals: seq<Reversal>) {
    forall i :: 0 <= i < |reversals| ==> exists k :: 0 <= k < |cash| && cash[k].id == reversals[i].stale.id
  }

  lemma PairAt(cash0: seq<CashRow>, events: seq<Event>, id: int, k: nat, i: nat)
    requires Keyed(cash0) && k < |cash0| && cash0[k].id == id && i < |events|
    requires PairCount(InsertAll(cash0, events), id, events[i].hash) == 2
    ensures PairNet(InsertAll(cash0, events), id, events[i].hash) == cash0[k].amount + events[i].amount
  {
    InsertOnlyAppends(cash0, events);
    var cash := InsertAll(cash0, events);
    assert Matches(cash[|cash0| + i], events[i]);
    PairOfTwoRows(cash, id, events[i].hash, k, |cash0| + i);
  }

  /** A pair that passed the check is a row that was there and its inserted reversal, and cancels. */
  lemma PairCancels(m: Manifest, db: Db, i: nat)
    requires Keyed(db.cash) && StaleRowsPresent(db.cash, m.reversals)
    requires TransactionPasses(m, db) && i < |m.reversals|
    ensures AmountOfId(db.cash, m.reversals[i].stale.id) + m.reversals[i].event.amount == 0
  {
    var id := m.reversals[i].stale.id;
    var k :| 0 <= k < |db.cash| && db.cash[k].id == id;
    AmountOfIdIsTheRow(db.cash, k);
    assert Events(m)[i] == m.reversals[i].event;
    PairAt(db.cash, Events(m), id, k, i);
  }

  /** Reversals that each cancel their row cancel all of them together. */
  lemma {:induction false} PairsCancel(cash: seq<CashRow>, reversals: seq<Reversal>)
    requires forall i :: 0 <= i < |reversals| ==>
               AmountOfId(cash, reversals[i].stale.id) + reversals[i].event.amount == 0
    ensures StaleTotal(cash, reversals) + EventTotal(ReversalEvents(reversals)) == 0
  {
    if reversals != [] {
      var init := reversals[..|reversals| - 1];
      PairsCancel(cash, init);
      assert ReversalEvents(reversals)[..|reversals| - 1] == ReversalEvents(init);
    }
  }

  lemma {:induction false} NoneExpected(cash: seq<CashRow>, events: seq<Event>)
    requires forall k :: 0 <= k < |cash| ==> !Expects(events, cash[k].hash)
    ensures Select(cash, events) == []
  {
    if cash != [] {
      NoneExpected(cash[..|cash| - 1], events);
    }
  }

  lemma SelectInserted(cash: seq<CashRow>, e: Event, all: seq<Event>)
    requires Expects(all, e.hash)
    ensures Total(Select(Insert(cash, e), all)) == Total(Select(cash, all)) + e.amount
  {
    var row := CashRow(NextId(cash), e.hash, e.amount, e.payload);
    assert Insert(cash, e)[..|cash|] == cash;
    assert (Select(cash, all) + [row])[..|Select(cash, all)|] == Select(cash, all);
  }

  lemma {:induction false} InsertBoth(cash: seq<CashRow>, a: seq<Event>, b: seq<Event>)
    ensures InsertAll(cash, a + b) == InsertAll(InsertAll(cash, a), b)
  {
    if b == [] {
      assert a + b == a;
    } else {
      assert (a + b)[..|a + b| - 1] == a + b[..|b| - 1];
      InsertBoth(cash, a, b[..|b| - 1]);
    }
  }

  /** Where nothing expected stood before, inserting expected events selects exactly them. */
  lemma {:induction false} SelectedTotal(base: seq<CashRow>, events: seq<Event>, all: seq<Event>)
    requires Select(base, all) == []
    requires forall i :: 0 <= i < |events| ==> Expects(all, events[i].hash)
    ensures Total(Select(InsertAll(base, events), all)) == EventTotal(events)
  {
    if events != [] {
      var init, e := events[..|events| - 1], events[|events| - 1];
      assert forall i :: 0 <= i < |init| ==> init[i] == events[i];
      SelectedTotal(base, init, all);
      SelectInserted(InsertAll(base, init), e, all);
    }
  }

  lemma ReplacementsSelectedTotal(m: Manifest, db: Db)
    requires DistinctHashes(Events(m)) && StateOf(InsertAll(db.cash, Events(m)), Events(m)).Exact?
    ensures Total(Select(InsertAll(db.cash, Events(m)), m.replacements)) == EventTotal(m.replacements)
  {
    OnlyReplacementsSelected(m, db);
    InsertBoth(db.cash, ReversalEvents(m.reversals), m.replacements);
    SelectedTotal(InsertAll(db.cash, ReversalEvents(m.reversals)), m.replacements, m.replacements);
  }

  lemma ExpectedOnce(m: Manifest, db: Db, i: nat)
    requires DistinctHashes(Events(m)) && StateOf(InsertAll(db.cash, Events(m)), Events(m)).Exact?
    requires i < |Events(m)|
    ensures Count(db.cash, Events(m)[i].hash) == 0
  {
    var events := Events(m);
    AppliedStateMeaning(InsertAll(db.cash, events), events);
    assert OnlyRowIs(InsertAll(db.cash, events), events[i]);
    InsertedCount(db.cash, events, events[i].hash);
    EventCountOne(events, i);
  }

  lemma ReversalIsNoReplacement(m: Manifest, p: nat)
    requires DistinctHashes(Events(m)) && p < |m.reversals|
    ensures !Expects(m.replacements, m.reversals[p].event.hash)
  {
    assert Events(m)[p] == m.reversals[p].event;
    assert forall i :: 0 <= i < |m.replacements| ==> Events(m)[|m.reversals| + i] == m.replacements[i];
  }

  lemma OldRowIsNoReplacement(m: Manifest, db: Db, k: nat)
    requires DistinctHashes(Events(m)) && StateOf(InsertAll(db.cash, Events(m)), Events(m)).Exact?
    requires k < |db.cash|
    ensures !Expects(m.replacements, db.cash[k].hash)
  {
    CountPositiveIffPresent(db.cash, db.cash[k].hash);
    if i :| 0 <= i < |m.replacements| && m.replacements[i].hash == db.cash[k].hash {
      assert Events(m)[|m.reversals| + i] == m.replacements[i];
      ExpectedOnce(m, db, |m.reversals| + i);
    }
  }

  lemma OnlyReplacementsSelected(m: Manifest, db: Db)
    requires DistinctHashes(Events(m)) && StateOf(InsertAll(db.cash, Events(m)), Events(m)).Exact?
    ensures Select(InsertAll(db.cash, ReversalEvents(m.reversals)), m.replacements) == []
  {
    var revs := ReversalEvents(m.reversals);
    var cash := InsertAll(db.cash, revs);
    InsertOnlyAppends(db.cash, revs);
    forall k | 0 <= k < |cash| ensures !Expects(m.replacements, cash[k].hash) {
      if k < |db.cash| {
        OldRowIsNoReplacement(m, db, k);
      } else {
        var p := k - |db.cash|;
        assert Matches(cash[|db.cash| + p], revs[p]);
        ReversalIsNoReplacement(m, p);
      }
    }
    NoneExpected(cash, m.replacements);
  }

  lemma ReplacementsAddUp(m: Manifest, db: Db)
    requires DistinctHashes(Events(m)) && TransactionPasses(m, db)
    ensures EventTotal(m.replacements) == m.replacementTotal
  {
    ReplacementsSelectedTotal(m, db);
  }

  /** A committed repair only appends. */
  lemma CommittedRepairAppends(m: Manifest, db: Db)
    requires Keyed(db.cash) && TransactionPasses(m, db)
    ensures var post := PostImage(m, db);
            && post.others == db.others && Keyed(post.cash)
            && |post.cash| == |db.cash| + |Events(m)| && |Events(m)| == m.expectedInsertCount
            && post.cash[..|db.cash|] == db.cash
    ensures forall i :: 0 <= i < |Events(m)| ==>
              var row, e := PostImage(m, db).cash[|db.cash| + i], Events(m)[i];
              row.hash == e.hash && row.amount == e.amount && row.payload == e.payload
  {
    InsertOnlyAppends(db.cash, Events(m));
    InsertKeepsKeys(db.cash, Events(m));
  }

  /** A committed repair conserves: every superseded row nets to zero with its reversal; superseded,
      reversals and replacements together come to the declared total; and the table total moves by
      exactly that declared total less what was superseded. */
  lemma CommittedRepairConserves(m: Manifest, db: Db)
    requires Keyed(db.cash) && StaleRowsPresent(db.cash, m.reversals) && DistinctHashes(Events(m))
    requires TransactionPasses(m, db)
    ensures forall i :: 0 <= i < |m.reversals| ==>
              AmountOfId(db.cash, m.reversals[i].stale.id) + m.reversals[i].event.amount == 0
    ensures StaleTotal(db.cash, m.reversals) + EventTotal(ReversalEvents(m.reversals)) + EventTotal(m.replacements)
            == m.replacementTotal
    ensures Total(PostImage(m, db).cash) == Total(db.cash) - StaleTotal(db.cash, m.reversals) + m.replacementTotal
  {
    forall i | 0 <= i < |m.reversals|
      ensures AmountOfId(db.cash, m.reversals[i].stale.id) + m.reversals[i].event.amount == 0
    {
      PairCancels(m, db, i);
    }
    PairsCancel(db.cash, m.reversals);
    ReplacementsAddUp(m, db);
    InsertedTotal(db.cash, Events(m));
    EventTotalConcat(ReversalEvents(m.reversals), m.replacements);
  }

  lemma {:induction false} EventTotalConcat(a: seq<Event>, b: seq<Event>)
    ensures EventTotal(a + b) == EventTotal(a) + EventTotal(b)
  {
    if b == [] {
      assert a + b == a;
    } else {
      EventTotalConcat(a, b[..|b| - 1]);
      assert (a + b)[..|a + b| - 1] == a + b[..|b| - 1];
    }
  }

  // ---------------------------------------------------------------- a reviewed manifest

  /** What scripts/build_order_cash_repair_manifest.py establishes against the sealed database; the
      writer rebuilds the manifest and requires equality before it writes. */
  ghost predicate Built(m: Manifest) {
    && Keyed(m.sealed.cash)
    && m.reversals != [] && m.replacements != []
    && StaleRowsPresent(m.sealed.cash, m.reversals)
    && (forall i :: 0 <= i < |m.reversals| ==>
         m.reversals[i].event.amount == -AmountOfId(m.sealed.cash, m.reversals[i].stale.id))
    && DistinctHashes(Events(m))
    && (forall i :: 0 <= i < |Events(m)| ==> Count(m.sealed.cash, Events(m)[i].hash) == 0)
    && m.replacementTotal == EventTotal(m.replacements)
    && m.expectedInsertCount == |Events(m)|
  }

  lemma InsertedExactly(m: Manifest)
    requires Built(m)
    ensures StateOf(m.sealed.cash, Events(m)).NotApplied?
    ensures StateOf(PostImage(m, m.sealed).cash, Events(m)).Exact?
  {
    var cash, events := m.sealed.cash, Events(m);
    AppliedStateMeaning(cash, events);
    AppliedStateMeaning(InsertAll(cash, events), events);
    forall i | 0 <= i < |events| ensures OnlyRowIs(InsertAll(cash, events), events[i]) {
      InsertedCount(cash, events, events[i].hash);
      EventCountOne(events, i);
      InsertOnlyAppends(cash, events);
      var row := InsertAll(cash, events)[|cash| + i];
      assert row in InsertAll(cash, events);
    }
  }

  lemma {:induction false} PairCountInserted(cash: seq<CashRow>, events: seq<Event>, id: int, hash: string)
    requires id < NextId(cash)
    ensures PairCount(InsertAll(cash, events), id, hash) == PairCount(cash, id, hash) + EventCount(events, hash)
    ensures id < NextId(InsertAll(cash, events))
  {
    if events != [] {
      var init, e := events[..|events| - 1], events[|events| - 1];
      PairCountInserted(cash, init, id, hash);
      var before := InsertAll(cash, init);
      assert Insert(before, e)[..|before|] == before;
    }
  }

  lemma {:induction false} PairCountOfOne(cash: seq<CashRow>, k: nat, hash: string)
    requires Keyed(cash) && k < |cash| && Count(cash, hash) == 0
    ensures PairCount(cash, cash[k].id, hash) == 1
  {
    var init := cash[..|cash| - 1];
    if k < |init| {
      PairCountOfOne(init, k, hash);
    } else {
      PairCountOfNone(init, cash[k].id, hash);
    }
  }

  lemma {:induction false} PairCountOfNone(cash: seq<CashRow>, id: int, hash: string)
    requires Count(cash, hash) == 0 && forall k :: 0 <= k < |cash| ==> cash[k].id != id
    ensures PairCount(cash, id, hash) == 0
  {
    if cash != [] {
      PairCountOfNone(cash[..|cash| - 1], id, hash);
    }
  }

  lemma BuiltPairsNet(m: Manifest, i: nat)
    requires Built(m) && i < |m.reversals|
    ensures var cash := InsertAll(m.sealed.cash, Events(m));
            && PairCount(cash, m.reversals[i].stale.id, m.reversals[i].event.hash) == 2
            && PairNet(cash, m.reversals[i].stale.id, m.reversals[i].event.hash) == 0
  {
    var cash, id := m.sealed.cash, m.reversals[i].stale.id;
    var k :| 0 <= k < |cash| && cash[k].id == id;
    assert Events(m)[i] == m.reversals[i].event;
    AmountOfIdIsTheRow(cash, k);
    PairCountInserted(cash, Events(m), id, Events(m)[i].hash);
    PairCountOfOne(cash, k, Events(m)[i].hash);
    EventCountOne(Events(m), i);
    PairAt(cash, Events(m), id, k, i);
  }

  lemma ReplacementCountedOnce(m: Manifest, i: nat)
    requires Built(m) && i < |m.replacements|
    ensures Count(InsertAll(m.sealed.cash, Events(m)), m.replacements[i].hash) == 1
  {
    var p := |m.reversals| + i;
    assert Events(m)[p] == m.replacements[i];
    InsertedCount(m.sealed.cash, Events(m), m.replacements[i].hash);
    EventCountOne(Events(m), p);
  }

  lemma DistinctReplacements(m: Manifest)
    requires DistinctHashes(Events(m))
    ensures DistinctHashes(m.replacements)
  {
    assert forall i :: 0 <= i < |m.replacements| ==> m.replacements[i] == Events(m)[|m.reversals| + i];
  }

  lemma BuiltReplacementsTotal(m: Manifest)
    requires Built(m)
    ensures ReplacementsTotal(InsertAll(m.sealed.cash, Events(m)), m)
  {
    var cash := InsertAll(m.sealed.cash, Events(m));
    InsertedExactly(m);
    ReplacementsSelectedTotal(m, m.sealed);
    forall i | 0 <= i < |m.replacements| ensures Count(cash, m.replacements[i].hash) == 1 {
      ReplacementCountedOnce(m, i);
    }
    AllExactlyOne(cash, m.replacements);
    DistinctReplacements(m);
    SelectedIsCounted(cash, m.replacements);
  }

  /** On the database it was built from, a reviewed manifest passes every check of the transaction. */
  lemma BuiltManifestPasses(m: Manifest)
    requires Built(m)
    ensures TransactionPasses(m, m.sealed)
  {
    InsertedExactly(m);
    forall i | 0 <= i < |m.reversals|
      ensures PairCount(InsertAll(m.sealed.cash, Events(m)), m.reversals[i].stale.id, m.reversals[i].event.hash) == 2
      ensures PairNet(InsertAll(m.sealed.cash, Events(m)), m.reversals[i].stale.id, m.reversals[i].event.hash) == 0
    {
      BuiltPairsNet(m, i);
    }
    BuiltReplacementsTotal(m);
  }

  // ---------------------------------------------------------------- one run

  /** The arguments and surroundings of one run. `externalOk` stands for the manifest hash, the
      target path and the publication binding; `rebuilt` for the equality of the rebuilt manifest. */
  datatype Request = Request(
    externalOk: bool, expectedInsertCount: int, expectedPre: Option<Db>, rebuilt: bool,
    apply: bool, gate: bool, backupDir: bool, plainReport: Fault)

  datatype RunResult = Refused | ReportRaised | Replayed | DryRun | Wrote(outcome: Outcome)

  /** What a run finds: the target, and whether SQLite has a sidecar file beside it. */
  datatype Found = Found(file: File<Db>, sidecar: bool)

  /** Every state one run can leave, wherever it is cut off, when it found `f`: with a sidecar nothing
      changes, and a sidecar of its own stands only inside the transaction, with backup and record. */
  ghost predicate RunLeaves(m: Manifest, f: Found, w: World<Db>) {
    if f.sidecar then w.target == f.file && w.sidecar
    else
      && (w.sidecar ==> CoveredSealed(m, f, w))
      && (w.target == f.file
          || (CoveredSealed(m, f, w)
              && (w.target == Torn || (TransactionPasses(m, m.sealed) && w.target == Whole(PostImage(m, m.sealed))))))
  }

  ghost predicate CoveredSealed(m: Manifest, f: Found, w: World<Db>) {
    f.file == Whole(m.sealed) && w.backup == Some(f.file) && w.record.Some?
  }

  predicate Quiet(s: Schedule) {
    && s.backupCopy.Fine? && !s.backupCheckFails && s.prepare.Fine?
    && !s.openRaises && !s.statementRaises && s.commit.Fine?
    && !s.barrierRaises && s.ready.Fine? && s.reportWrite.Fine?
    && !s.sidecars
  }

  predicate Willing(m: Manifest, req: Request) {
    && req.externalOk && req.expectedInsertCount == |Events(m)| == m.expectedInsertCount && req.rebuilt
    && req.expectedPre.None? && req.apply && req.gate && req.backupDir && req.plainReport.Fine?
  }

  /** The checks that do not look at the database. */
  predicate Sound(m: Manifest, req: Request) {
    req.externalOk && |Events(m)| == req.expectedInsertCount == m.expectedInsertCount
  }

  /** The target is the sealed database, the one the caller expects, and the manifest rebuilds equal. */
  predicate OnSealed(target: File<Db>, m: Manifest, req: Request) {
    target == Whole(m.sealed) && (req.expectedPre.Some? ==> req.expectedPre.value == m.sealed) && req.rebuilt
  }

  datatype Plan = Refuse | Replay | Report | Write

  /** Everything `apply_manifest` decides before it touches a file. */
  method Preflight(target: File<Db>, report: bool, sidecar: bool, m: Manifest, req: Request) returns (plan: Plan)
    ensures plan.Replay? <==>
              && Sound(m, req) && !report && !sidecar && target.Whole? && target.content != m.sealed
              && StateOf(target.content.cash, Events(m)).Exact? && (req.apply ==> req.gate)
    ensures plan.Report? <==> Sound(m, req) && !report && !sidecar && OnSealed(target, m, req) && !req.apply
    ensures plan.Write? <==>
              && Sound(m, req) && !report && !sidecar && OnSealed(target, m, req)
              && req.apply && req.gate && req.backupDir
  {
    // `_assert_copied_target` refuses a target with a sidecar before anything is compared.
    if report || sidecar || !req.externalOk {
      return Refuse;
    }
    if |Events(m)| != req.expectedInsertCount || m.expectedInsertCount != req.expectedInsertCount {
      return Refuse;
    }
    var replay := false;
    if target != Whole(m.sealed) {
      if target.Torn? {
        return Refuse;
      }
      var state := ExactAppliedState(target.content.cash, Events(m));
      if !state.Exact? {
        return Refuse;
      }
      replay := true;
    }
    if !replay && req.expectedPre.Some? && target != Whole(req.expectedPre.value) {
      return Refuse;
    }
    if !replay && !req.rebuilt {
      return Refuse;
    }
    if replay {
      return if req.apply && !req.gate then Refuse else Replay;
    }
    if !req.apply {
      return Report;
    }
    plan := if req.gate && req.backupDir then Write else Refuse;
  }

  /** `apply_manifest`. */
  method ApplyManifest(disk: Disk<Db>, m: Manifest, req: Request, s: Schedule) returns (r: RunResult)
    requires disk.Valid() && disk.trace == [disk.Now()] && disk.backup.None? && disk.record.None?
    modifies disk
    ensures disk.Valid()
    ensures forall i :: 0 <= i < |disk.trace| ==>
              RunLeaves(m, Found(old(disk.target), old(disk.sidecar)), disk.trace[i])
    // Only a run that wrote can have changed the target, and only from the sealed database.
    ensures !r.Wrote? ==> disk.target == old(disk.target)
    ensures r.Wrote? <==>
              && Sound(m, req) && !old(disk.report) && !old(disk.sidecar) && OnSealed(old(disk.target), m, req)
              && req.apply && req.gate && req.backupDir
    ensures r.Refused? ==> disk.Now() == old(disk.Now())
    ensures r.DryRun? ==> disk.Now() == old(disk.Now()).(report := true)
    ensures r == Wrote(Applied) ==>
              old(disk.target) == Whole(m.sealed) && TransactionPasses(m, m.sealed)
              && disk.Now()
                 == World(Whole(PostImage(m, m.sealed)), Some(old(disk.target)), Some(Ready), true, s.sidecars)
    // A run that opens its transaction can be cut off inside it, leaving a sidecar.
    ensures r.Wrote? && Started(s) && !s.openRaises ==> CanStopInside(old(disk.target), disk.trace)
    // A sidecar refuses every run.
    ensures old(disk.sidecar) ==> r.Refused?
    // A replay inserts nothing and found every event there once, unaltered.
    ensures r.Replayed? ==>
              disk.target == old(disk.target) && disk.target.Whole? && disk.report
              && StateOf(disk.target.content.cash, Events(m)).Exact?
              && (DistinctHashes(Events(m)) && Events(m) != [] ==>
                    AllUnaltered(disk.target.content.cash, Events(m)))
    // What a rerun that meets no fault does is decided by the database it finds.
    ensures Willing(m, req) && Quiet(s) && !old(disk.report) && !old(disk.sidecar) ==>
              && !disk.sidecar
              && match old(disk.target)
              case Torn => r.Refused?
              case Whole(db) =>
                if db == m.sealed then r.Wrote? && (r.outcome.Applied? <==> TransactionPasses(m, db))
                else if StateOf(db.cash, Events(m)).Exact? then r.Replayed?
                else r.Refused?
  {
    var plan := Preflight(disk.target, disk.report, disk.sidecar, m, req);
    if plan.Refuse? {
      return Refused;
    }
    if plan.Replay? || plan.Report? {
      if plan.Replay? {
        ExactIsUnaltered(disk.target.content.cash, Events(m));
      }
      if !req.plainReport.Fails? {
        disk.SetReport(true);
      }
      return if !req.plainReport.Fine? then ReportRaised else if plan.Replay? then Replayed else DryRun;
    }
    var post := Transact(m, m.sealed);
    var outcome := disk.GuardedApply(post, s, Wrapped);
    r := Wrote(outcome);
  }

  // ---------------------------------------------------------------- any number of runs

  /** `found` is what each run found and the last one left; every run may have been cut off. */
  ghost predicate Runs(m: Manifest, found: seq<Found>) {
    && found != [] && found[0] == Found(Whole(m.sealed), false)
    && forall i :: 0 <= i < |found| - 1 ==> Leads(m, found[i], found[i + 1])
  }

  ghost predicate Leads(m: Manifest, before: Found, after: Found) {
    exists w :: RunLeaves(m, before, w) && after == Found(w.target, w.sidecar)
  }

  lemma PostIsNotPre(m: Manifest)
    requires Built(m)
    ensures PostImage(m, m.sealed) != m.sealed
  {
    InsertedExactly(m);
  }

  /** After any number of runs the database is untouched, or holds the whole repair, or is a torn
      restore copy. The last two are final, and so is any state with a sidecar. */
  lemma {:induction false} RunsEndInThreeStates(m: Manifest, found: seq<Found>, i: nat)
    requires Built(m) && Runs(m, found) && i < |found|
    ensures found[i].file == Whole(m.sealed) || found[i].file == Torn || found[i].file == Whole(PostImage(m, m.sealed))
    ensures i > 0 && (found[i - 1].file != Whole(m.sealed) || found[i - 1].sidecar) ==> found[i] == found[i - 1]
  {
    PostIsNotPre(m);
    if i > 0 {
      RunsEndInThreeStates(m, found, i - 1);
      assert Leads(m, found[i - 1], found[i - 1 + 1]);
    }
  }

  /** So no event is ever inserted twice, and the applied-state check never meets a partial or
      drifted set. */
  lemma RunsInsertOnce(m: Manifest, found: seq<Found>, i: nat, k: nat)
    requires Built(m) && Runs(m, found) && i < |found| && k < |Events(m)|
    requires found[i].file.Whole?
    ensures Count(found[i].file.content.cash, Events(m)[k].hash) <= 1
    ensures var state := StateOf(found[i].file.content.cash, Events(m)); state.NotApplied? || state.Exact?
  {
    RunsEndInThreeStates(m, found, i);
    InsertedExactly(m);
    AppliedStateMeaning(PostImage(m, m.sealed).cash, Events(m));
    assert OnlyRowIs(PostImage(m, m.sealed).cash, Events(m)[k]);
  }

  /** Every run that opens its transaction on the sealed database passes a state with the target untouched and a
      sidecar; cut off there, that is what the next run finds. */
  method SidecarCanStay(m: Manifest, req: Request, s: Schedule) returns (disk: Disk<Db>, ghost i: nat)
    requires Willing(m, req) && Started(s) && !s.openRaises
    ensures i < |disk.trace| && disk.trace[i].target == Whole(m.sealed) && disk.trace[i].sidecar
    ensures Runs(m, [Found(Whole(m.sealed), false), Found(disk.trace[i].target, disk.trace[i].sidecar)])
  {
    disk := new Disk<Db>(Whole(m.sealed));
    var before := Found(Whole(m.sealed), false);
    var _ := ApplyManifest(disk, m, req, s);
    assert CanStopInside(Whole(m.sealed), disk.trace);
    ghost var k: nat :| k < |disk.trace| && disk.trace[k].target == Whole(m.sealed)
                        && disk.trace[k].backup == Some(Whole(m.sealed)) && disk.trace[k].record.Some?
                        && disk.trace[k].sidecar;
    i := k;
    assert RunLeaves(m, before, disk.trace[i]);
    assert Leads(m, before, Found(disk.trace[i].target, disk.trace[i].sidecar));
  }

  /** After any number of cut-off runs, with a whole target one undisturbed rerun ends with the repair in
      place exactly once (it inserts everything, or replays and inserts nothing) if and only if no
      sidecar is left; with a sidecar or a torn target it is refused and changes nothing. */
  method RerunConverges(disk: Disk<Db>, m: Manifest, req: Request, s: Schedule, ghost found: seq<Found>)
    returns (r: RunResult)
    requires Built(m) && Runs(m, found) && found[|found| - 1] == Found(disk.target, disk.sidecar)
    requires disk.Valid() && disk.trace == [disk.Now()] && disk.backup.None? && disk.record.None? && !disk.report
    requires Willing(m, req) && Quiet(s)
    modifies disk
    ensures old(disk.target).Whole? ==> (r.Replayed? || r == Wrote(Applied) <==> !old(disk.sidecar))
    ensures old(disk.target).Torn? || old(disk.sidecar) ==> r.Refused? && disk.Now() == old(disk.Now())
    ensures old(disk.target).Whole? && !old(disk.sidecar) ==>
              disk.target == Whole(PostImage(m, m.sealed)) && !disk.sidecar
    ensures r == Wrote(Applied) <==> old(disk.target) == Whole(m.sealed) && !old(disk.sidecar)
    ensures r.Replayed? <==> old(disk.target) == Whole(PostImage(m, m.sealed)) && !old(disk.sidecar)
  {
    RunsEndInThreeStates(m, found, |found| - 1);
    BuiltManifestPasses(m);
    InsertedExactly(m);
    PostIsNotPre(m);
    r := ApplyManifest(disk, m, req, s);
  }
}
