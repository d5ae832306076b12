/** Schedule rows of scripts/apply_opex_owner_input_schedule.py and the stable sort that orders them.
    Dates are day ordinals, amounts integers. */
module ScheduleRows {
  import LexOrder
  import opened Permutations

  datatype Row = Row(date: int, refId: string, amount: int, kind: string, notes: string)

  function Sum(rows: seq<Row>): int {
    if rows == [] then 0 else Sum(rows[..|rows| - 1]) + rows[|rows| - 1].amount
  }

  /** `(commit_date, ref_id, amount_kzt)` */
  predicate Before(a: Row, b: Row) {
    if a.date != b.date then a.date < b.date
    else if a.refId != b.refId then LexOrder.Less(a.refId, b.refId)
    else a.amount < b.amount
  }

  predicate SameKey(a: Row, b: Row) {
    a.date == b.date && a.refId == b.refId && a.amount == b.amount
  }

  lemma BeforeIsOrder(a: Row, b: Row, c: Row)
    ensures Before(a, b) || SameKey(a, b) || Before(b, a)
    ensures !(Before(a, b) && Before(b, a)) && !(Before(a, b) && SameKey(a, b))
    ensures Before(a, b) && Before(b, c) ==> Before(a, c)
    ensures Before(a, b) && SameKey(b, c) ==> Before(a, c)
    ensures SameKey(a, b) && Before(b, c) ==> Before(a, c)
  {
    LexOrder.Trichotomy(a.refId, b.refId);
    LexOrder.Trichotomy(b.refId, c.refId);
    LexOrder.Trichotomy(a.refId, c.refId);
    if LexOrder.Less(a.refId, b.refId) && LexOrder.Less(b.refId, c.refId) {
      LexOrder.Transitive(a.refId, b.refId, c.refId);
    }
  }

  /** Puts a row after every row it is not before. */
  function Insert(sorted: seq<Row>, x: Row): seq<Row> {
    if sorted == [] || !Before(x, sorted[|sorted| - 1]) then sorted + [x]
    else Insert(sorted[..|sorted| - 1], x) + [sorted[|sorted| - 1]]
  }

  /** Inserts rows one after another: the stable sort of `acc + rows` when `acc` is sorted. */
  function Fold(acc: seq<Row>, rows: seq<Row>): seq<Row> {
    if rows == [] then acc else Insert(Fold(acc, rows[..|rows| - 1]), rows[|rows| - 1])
  }

  function Sort(rows: seq<Row>): seq<Row> { Fold([], rows) }

  lemma InsertIntoLonger(l: seq<Row>, last: Row, x: Row)
    ensures Insert(l + [last], x) == if Before(x, last) then Insert(l, x) + [last] else l + [last] + [x]
  {
    assert (l + [last])[..|l|] == l;
  }

  /** Rows with different keys can be inserted in either order. */
  lemma {:induction false} InsertsCommute(l: seq<Row>, a: Row, b: Row)
    requires !SameKey(a, b)
    ensures Insert(Insert(l, a), b) == Insert(Insert(l, b), a)
  {
    BeforeIsOrder(a, b, a);
    if l == [] {
      InsertIntoLonger([], a, b);
      InsertIntoLonger([], b, a);
      assert Insert([], a) == [] + [a] && Insert([], b) == [] + [b];
    } else {
      var init, last := l[..|l| - 1], l[|l| - 1];
      assert l == init + [last];
      BeforeIsOrder(a, b, last);
      BeforeIsOrder(b, a, last);
      BeforeIsOrder(a, last, b);
      BeforeIsOrder(b, last, a);
      InsertsCommute(init, a, b);
      InsertIntoLonger(init, last, a);
      InsertIntoLonger(init, last, b);
      InsertIntoLonger(Insert(init, a), last, b);
      InsertIntoLonger(Insert(init, b), last, a);
      InsertIntoLonger(l, a, b);
      InsertIntoLonger(l, b, a);
    }
  }

  lemma FoldLast(acc: seq<Row>, rows: seq<Row>, x: Row)
    ensures Fold(acc, rows + [x]) == Insert(Fold(acc, rows), x)
  {
    assert (rows + [x])[..|rows|] == rows;
  }

  lemma {:induction false} FoldConcat(acc: seq<Row>, a: seq<Row>, b: seq<Row>)
    ensures Fold(acc, a + b) == Fold(Fold(acc, a), b)
  {
    if b == [] {
      assert a + b == a;
    } else {
      FoldConcat(acc, a, b[..|b| - 1]);
      LastOfBoth(a, b);
    }
  }

  /** A row whose key no later row shares may as well come last. */
  lemma {:induction false} FoldMovesToEnd(acc: seq<Row>, x: Row, suf: seq<Row>)
    requires forall i :: 0 <= i < |suf| ==> !SameKey(x, suf[i])
    ensures Fold(Insert(acc, x), suf) == Insert(Fold(acc, suf), x)
  {
    if suf != [] {
      var init := suf[..|suf| - 1];
      FoldMovesToEnd(acc, x, init);
      InsertsCommute(Fold(acc, init), x, suf[|suf| - 1]);
    }
  }

  lemma FoldTakesOut(acc: seq<Row>, pre: seq<Row>, x: Row, suf: seq<Row>)
    requires forall i :: 0 <= i < |suf| ==> !SameKey(x, suf[i])
    ensures Fold(acc, pre + [x] + suf) == Insert(Fold(acc, pre + suf), x)
  {
    FoldConcat(acc, pre + [x], suf);
    FoldLast(acc, pre, x);
    FoldMovesToEnd(Fold(acc, pre), x, suf);
    FoldConcat(acc, pre, suf);
  }

  ghost predicate DistinctKeys(rows: seq<Row>) {
    forall i, j :: 0 <= i < j < |rows| ==> !SameKey(rows[i], rows[j])
  }

  lemma DistinctWithout(pre: seq<Row>, x: Row, suf: seq<Row>)
    requires DistinctKeys(pre + [x] + suf)
    ensures DistinctKeys(pre + suf)
    ensures forall i :: 0 <= i < |suf| ==> !SameKey(x, suf[i])
  {
    var all := pre + [x] + suf;
    forall i, j | 0 <= i < j < |pre + suf| ensures !SameKey((pre + suf)[i], (pre + suf)[j]) {
      assert (pre + suf)[i] == all[if i < |pre| then i else i + 1];
      assert (pre + suf)[j] == all[if j < |pre| then j else j + 1];
    }
    forall i | 0 <= i < |suf| ensures !SameKey(x, suf[i]) {
      assert all[|pre|] == x && all[|pre| + 1 + i] == suf[i];
    }
  }

  /** Rows with pairwise different keys sort the same in whatever order they come. */
  lemma {:induction false} FoldPermuted(acc: seq<Row>, a: seq<Row>, b: seq<Row>)
    requires multiset(a) == multiset(b) && DistinctKeys(a)
    ensures Fold(acc, a) == Fold(acc, b)
    decreases |b|
  {
    SameElements(a, b);
    if b != [] {
      var pre, suf := TakeOut(a, b);
      var init, x := b[..|b| - 1], b[|b| - 1];
      DistinctWithout(pre, x, suf);
      FoldTakesOut(acc, pre, x, suf);
      FoldPermuted(acc, pre + suf, init);
    }
  }

  /** Earlier date first, then lesser ref id, then smaller amount; rows with all three equal in any order. */
  ghost predicate Ordered(a: Row, b: Row) {
    || a.date < b.date
    || (a.date == b.date && LexOrder.Less(a.refId, b.refId))
    || (a.date == b.date && a.refId == b.refId && a.amount <= b.amount)
  }

  lemma OrderedMeansNotBefore(a: Row, b: Row)
    ensures Ordered(a, b) <==> !Before(b, a)
  {
    LexOrder.Trichotomy(a.refId, b.refId);
  }

  ghost predicate Sorted(rows: seq<Row>) {
    forall i :: 0 < i < |rows| ==> Ordered(rows[i - 1], rows[i])
  }

  lemma {:induction false} InsertSorted(l: seq<Row>, x: Row)
    requires Sorted(l)
    ensures Sorted(Insert(l, x)) && |Insert(l, x)| == |l| + 1
    ensures var last := Insert(l, x)[|l|]; last == x || (l != [] && last == l[|l| - 1])
  {
    if l != [] {
      OrderedMeansNotBefore(l[|l| - 1], x);
      if Before(x, l[|l| - 1]) {
        InsertSorted(l[..|l| - 1], x);
        BeforeIsOrder(x, l[|l| - 1], x);
        OrderedMeansNotBefore(x, l[|l| - 1]);
      }
    }
  }

  lemma {:induction false} FoldSorted(acc: seq<Row>, rows: seq<Row>)
    requires Sorted(acc)
    ensures Sorted(Fold(acc, rows))
  {
    if rows != [] {
      FoldSorted(acc, rows[..|rows| - 1]);
      InsertSorted(Fold(acc, rows[..|rows| - 1]), rows[|rows| - 1]);
    }
  }

  lemma {:induction false} InsertContents(l: seq<Row>, x: Row)
    ensures multiset(Insert(l, x)) == multiset(l) + multiset{x}
  {
    if l != [] && Before(x, l[|l| - 1]) {
      InsertContents(l[..|l| - 1], x);
      assert l == l[..|l| - 1] + [l[|l| - 1]];
    }
  }

  lemma {:induction false} FoldContents(acc: seq<Row>, rows: seq<Row>)
    ensures multiset(Fold(acc, rows)) == multiset(acc) + multiset(rows)
  {
    if rows != [] {
      var init, last := rows[..|rows| - 1], rows[|rows| - 1];
      FoldContents(acc, init);
      InsertContents(Fold(acc, init), last);
      LastCounted(rows);
      Regroup(multiset(acc), multiset(init), multiset{last});
    }
  }

  lemma SumLast(rows: seq<Row>, x: Row)
    ensures Sum(rows + [x]) == Sum(rows) + x.amount
  {
    assert (rows + [x])[..|rows|] == rows;
  }

  lemma {:induction false} SumConcat(a: seq<Row>, b: seq<Row>)
    ensures Sum(a + b) == Sum(a) + Sum(b)
  {
    if b == [] {
      assert a + b == a;
    } else {
      SumConcat(a, b[..|b| - 1]);
      assert a + b == (a + b[..|b| - 1]) + [b[|b| - 1]];
      SumLast(a + b[..|b| - 1], b[|b| - 1]);
    }
  }

  lemma {:induction false} SumPermuted(a: seq<Row>, b: seq<Row>)
    requires multiset(a) == multiset(b)
    ensures Sum(a) == Sum(b)
    decreases |b|
  {
    SameElements(a, b);
    if b != [] {
      var pre, suf := TakeOut(a, b);
      SumPermuted(pre + suf, b[..|b| - 1]);
      SumConcat(pre + [b[|b| - 1]], suf);
      SumLast(pre, b[|b| - 1]);
      SumConcat(pre, suf);
    }
  }
}
