/** The date-drift allocator of scripts/apply_workbook_anchor_date_drift_repair.py: which
    candidate orders move off a day that exceeds its workbook total, and to which day.

    Amounts are integers in hundredths, so `_round2` of a sum is the sum. The tolerance
    multiplier `1 + tol_pct/100` is any real. Dates are day ordinals (ISO dates order alike). */
module DateDriftSelect {
  import LexOrder

  datatype Amount = Amount(units: int, net: int) {
    function Plus(b: Amount): Amount { Amount(units + b.units, net + b.net) }
    function Minus(b: Amount): Amount { Amount(units - b.units, net - b.net) }
  }

  datatype Candidate = Candidate(
    index: nat, sourceDate: int, orderId: string, storeCode: string,
    amount: Amount, workbookDates: seq<int>, saleIds: seq<int>)

  datatype Move = Move(candidate: Candidate, target: int)

  type Totals = map<int, Amount>

  datatype Window = Window(days: seq<int>, workbook: Totals, multiplier: real)

  /** The day maps cover exactly the window, and the window lists each day once. */
  ghost predicate Covers(win: Window, t: Totals) {
    && t.Keys == win.workbook.Keys == (set d | d in win.days)
    && forall i, j :: 0 <= i < j < |win.days| ==> win.days[i] != win.days[j]
  }

  // ---------------------------------------------------------------- tolerance tests

  function RoundHalfEven(x: real): int {
    var f := x.Floor;
    var rest := x - f as real;
    if rest < 0.5 then f
    else if rest > 0.5 then f + 1
    else if f % 2 == 0 then f else f + 1
  }

  function Over(published: int, workbook: int, multiplier: real): nat {
    var r := RoundHalfEven(published as real - workbook as real * multiplier);
    if r > 0 then r else 0
  }

  function Overage(win: Window, t: Totals, day: int): (nat, nat)
    requires day in t && day in win.workbook
  {
    (Over(t[day].units, win.workbook[day].units, win.multiplier),
     Over(t[day].net, win.workbook[day].net, win.multiplier))
  }

  predicate Failing(win: Window, t: Totals, day: int)
    requires day in t && day in win.workbook
  {
    Overage(win, t, day).0 > 0 || Overage(win, t, day).1 > 0
  }

  // The capacity test: 1e-6 in the source's unit is one ten-thousandth of a hundredth.
  predicate FitsOne(next: int, workbook: int, multiplier: real) {
    next as real <= workbook as real * multiplier + 0.0001
  }

  predicate Fits(win: Window, t: Totals, amount: Amount, day: int)
    requires day in t && day in win.workbook
  {
    && FitsOne(t[day].units + amount.units, win.workbook[day].units, win.multiplier)
    && FitsOne(t[day].net + amount.net, win.workbook[day].net, win.multiplier)
  }

  /** The two tests are written differently in the source, one with `+ 1e-6` and one with
      `round(..., 2)`. A day that passes the first never fails the second. */
  lemma FitsIsNotOver(next: int, workbook: int, multiplier: real)
    ensures Over(next, workbook, multiplier) > 0
            <==> next as real - workbook as real * multiplier > 0.5
    ensures FitsOne(next, workbook, multiplier) ==> Over(next, workbook, multiplier) == 0
  {
    var x := next as real - workbook as real * multiplier;
    var f := x.Floor;
    assert f as real <= x < (f + 1) as real;
    if x > 0.5 {
      assert f >= 0;
    } else {
      assert f <= 0;
    }
  }

  // ---------------------------------------------------------------- one move

  predicate Feasible(win: Window, t: Totals, c: Candidate, day: int)
    requires t.Keys == win.workbook.Keys
  {
    day !in t || Fits(win, t, c.amount, day)
  }

  // Days outside the window sort before days inside it; then the earlier day wins.
  predicate TargetBefore(t: Totals, a: int, b: int) {
    if (a in t) != (b in t) then a !in t else a < b
  }

  predicate IsTarget(win: Window, t: Totals, c: Candidate, day: int)
    requires t.Keys == win.workbook.Keys
  {
    && day in c.workbookDates && Feasible(win, t, c, day)
    && forall e :: e in c.workbookDates && Feasible(win, t, c, e) ==> !TargetBefore(t, e, day)
  }

  predicate HasTarget(win: Window, t: Totals, c: Candidate)
    requires t.Keys == win.workbook.Keys
  {
    exists day :: day in c.workbookDates && Feasible(win, t, c, day)
  }

  function Min(a: int, b: int): int { if a <= b then a else b }

  const UNIT_OVERAGE_WEIGHT_KZT := 10000

  function Contribution(c: Candidate, over: (nat, nat)): int {
    Min(c.amount.net, over.1) + UNIT_OVERAGE_WEIGHT_KZT * Min(c.amount.units, over.0)
  }

  /** The sort key `(-contribution, -net, order_id, store_code)`. */
  predicate RanksBefore(a: Candidate, b: Candidate, over: (nat, nat)) {
    if Contribution(a, over) != Contribution(b, over) then Contribution(a, over) > Contribution(b, over)
    else if a.amount.net != b.amount.net then a.amount.net > b.amount.net
    else if a.orderId != b.orderId then LexOrder.Less(a.orderId, b.orderId)
    else LexOrder.Less(a.storeCode, b.storeCode)
  }

  predicate SameRank(a: Candidate, b: Candidate, over: (nat, nat)) {
    && Contribution(a, over) == Contribution(b, over) && a.amount.net == b.amount.net
    && a.orderId == b.orderId && a.storeCode == b.storeCode
  }

  lemma RankOrder(a: Candidate, b: Candidate, c: Candidate, over: (nat, nat))
    ensures RanksBefore(a, b, over) || SameRank(a, b, over) || RanksBefore(b, a, over)
    ensures !(RanksBefore(a, b, over) && RanksBefore(b, a, over))
    ensures RanksBefore(a, b, over) && RanksBefore(b, c, over) ==> RanksBefore(a, c, over)
  {
    LexOrder.Trichotomy(a.orderId, b.orderId);
    LexOrder.Trichotomy(a.storeCode, b.storeCode);
    LexOrder.Trichotomy(b.orderId, c.orderId);
    LexOrder.Trichotomy(a.orderId, c.orderId);
    if LexOrder.Less(a.orderId, b.orderId) && LexOrder.Less(b.orderId, c.orderId) {
      LexOrder.Transitive(a.orderId, b.orderId, c.orderId);
    }
    if LexOrder.Less(a.storeCode, b.storeCode) && LexOrder.Less(b.storeCode, c.storeCode) {
      LexOrder.Transitive(a.storeCode, b.storeCode, c.storeCode);
    }
  }

  function Bump(t: Totals, day: int, a: Amount): Totals {
    if day in t then t[day := t[day].Plus(a)] else t
  }

  function Drop(t: Totals, day: int, a: Amount): Totals {
    if day in t then t[day := t[day].Minus(a)] else t
  }

  function ApplyMove(t: Totals, m: Move): (r: Totals)
    ensures r.Keys == t.Keys
  {
    Bump(Drop(t, m.candidate.sourceDate, m.candidate.amount), m.target, m.candidate.amount)
  }

  function After(t: Totals, moves: seq<Move>): (r: Totals)
    ensures r.Keys == t.Keys
  {
    if moves == [] then t else ApplyMove(After(t, moves[..|moves| - 1]), moves[|moves| - 1])
  }

  predicate Used(done: seq<Move>, c: Candidate) {
    exists k :: 0 <= k < |done| && done[k].candidate.index == c.index
  }

  /** `c` is scored in the pass over `day`: an unmoved candidate of that day with a feasible target. */
  predicate Scored(cands: seq<Candidate>, win: Window, t: Totals, done: seq<Move>, day: int, c: Candidate)
    requires t.Keys == win.workbook.Keys
  {
    c in cands && c.sourceDate == day && !Used(done, c) && HasTarget(win, t, c)
  }

  /** No candidate dated before `day` still has a failing source day. */
  ghost predicate ClearedBefore(cands: seq<Candidate>, win: Window, t: Totals, day: int)
    requires t.Keys == win.workbook.Keys
  {
    forall c :: c in cands && c.sourceDate < day && c.sourceDate in t ==> !Failing(win, t, c.sourceDate)
  }

  /** Two scored candidates share the whole sort key, so that `sorted` compares the candidates and raises. */
  ghost predicate Tied(cands: seq<Candidate>, win: Window, t: Totals, done: seq<Move>, day: int)
    requires t.Keys == win.workbook.Keys && day in t
  {
    exists a, b :: Scored(cands, win, t, done, day, a) && Scored(cands, win, t, done, day, b)
                   && a != b && SameRank(a, b, Overage(win, t, day))
  }

  /** One iteration of the `while True` loop that moves a candidate. */
  ghost predicate GreedyStep(cands: seq<Candidate>, win: Window, t: Totals, done: seq<Move>, m: Move)
    requires t.Keys == win.workbook.Keys
  {
    var day := m.candidate.sourceDate;
    && day in t && Failing(win, t, day)
    && ClearedBefore(cands, win, t, day)
    && Scored(cands, win, t, done, day, m.candidate)
    && IsTarget(win, t, m.candidate, m.target)
    && !Tied(cands, win, t, done, day)
    && forall c :: Scored(cands, win, t, done, day, c) && c != m.candidate
         ==> RanksBefore(m.candidate, c, Overage(win, t, day))
  }

  /** Every prefix of `moves` was followed by a greedy step. */
  ghost predicate GreedyRun(cands: seq<Candidate>, win: Window, t: Totals, moves: seq<Move>)
    requires t.Keys == win.workbook.Keys
  {
    moves != [] ==>
      var init := moves[..|moves| - 1];
      && GreedyRun(cands, win, t, init)
      && GreedyStep(cands, win, After(t, init), init, moves[|moves| - 1])
  }

  ghost predicate SourcesClear(cands: seq<Candidate>, win: Window, t: Totals)
    requires t.Keys == win.workbook.Keys
  {
    forall c :: c in cands && c.sourceDate in t ==> !Failing(win, t, c.sourceDate)
  }

  ghost predicate DistinctIndexes(cands: seq<Candidate>) {
    forall i, j :: 0 <= i < j < |cands| ==> cands[i].index != cands[j].index
  }

  // ---------------------------------------------------------------- what a step chooses

  function Max0(x: int): nat { if x > 0 then x else 0 }

  /** What is left of an overage, units weighted, when `a` has gone. */
  function Remainder(a: Amount, over: (nat, nat)): nat {
    Max0(over.1 - a.net) + 10000 * Max0(over.0 - a.units)
  }

  /** Each overage is what its own dimension exceeds its own tolerance by, rounded to a whole hundredth. */
  lemma OverageIsExcess(win: Window, t: Totals, day: int)
    requires day in t && day in win.workbook
    ensures var units := t[day].units as real - win.workbook[day].units as real * win.multiplier;
            var net := t[day].net as real - win.workbook[day].net as real * win.multiplier;
            && RoundsExcess(Overage(win, t, day).0, units) && RoundsExcess(Overage(win, t, day).1, net)
            && (Failing(win, t, day) <==> units > 0.5 || net > 0.5)
  {
    OverIsExcess(t[day].units, win.workbook[day].units, win.multiplier);
    OverIsExcess(t[day].net, win.workbook[day].net, win.multiplier);
  }

  lemma OverIsExcess(published: int, workbook: int, multiplier: real)
    ensures var excess := published as real - workbook as real * multiplier;
            && RoundsExcess(Over(published, workbook, multiplier), excess)
            && (Over(published, workbook, multiplier) > 0 <==> excess > 0.5)
  {
    FitsIsNotOver(published, workbook, multiplier);
    RoundedWithinHalf(published as real - workbook as real * multiplier);
  }

  predicate RoundsExcess(over: nat, excess: real) {
    if excess <= 0.5 then over == 0 else excess - 0.5 <= over as real <= excess + 0.5
  }

  /** To the nearest whole, and of two equally near ones to the even. */
  lemma RoundedWithinHalf(x: real)
    ensures x - 0.5 <= RoundHalfEven(x) as real <= x + 0.5
    ensures RoundHalfEven(x) as real == x - 0.5 || RoundHalfEven(x) as real == x + 0.5 ==> RoundHalfEven(x) % 2 == 0
  {
    var f := x.Floor;
    assert f as real <= x < (f + 1) as real;
  }

  /** The candidate that moves leaves the least weighted overage on its day; of equals it is the one with the
      higher net, then the lesser order, then the lesser store. */
  lemma StepLeavesLeast(cands: seq<Candidate>, win: Window, t: Totals, done: seq<Move>, m: Move, c: Candidate)
    requires t.Keys == win.workbook.Keys && GreedyStep(cands, win, t, done, m)
    requires Scored(cands, win, t, done, m.candidate.sourceDate, c) && c != m.candidate
    ensures var a, over := m.candidate, Overage(win, t, m.candidate.sourceDate);
            && Remainder(a.amount, over) <= Remainder(c.amount, over)
            && (Remainder(a.amount, over) == Remainder(c.amount, over) ==>
                  || a.amount.net > c.amount.net
                  || (a.amount.net == c.amount.net
                      && (LexOrder.Less(a.orderId, c.orderId)
                          || (a.orderId == c.orderId && LexOrder.Less(a.storeCode, c.storeCode)))))
  {
  }

  /** The sort cannot tell two candidates apart exactly when they leave the same and agree on net, order and
      store; then it compares the candidates themselves and raises. */
  lemma TieMeaning(a: Candidate, b: Candidate, over: (nat, nat))
    ensures SameRank(a, b, over) <==>
              && Remainder(a.amount, over) == Remainder(b.amount, over)
              && a.amount.net == b.amount.net && a.orderId == b.orderId && a.storeCode == b.storeCode
  {
  }

  /** `c` may go to `day`: both totals there, with its amount, stay within tolerance, up to a ten-thousandth
      of a hundredth. */
  predicate HasRoom(win: Window, t: Totals, c: Candidate, day: int)
    requires day in t && day in win.workbook
  {
    var book := win.workbook[day];
    && t[day].units as real + c.amount.units as real - book.units as real * win.multiplier <= 0.0001
    && t[day].net as real + c.amount.net as real - book.net as real * win.multiplier <= 0.0001
  }

  /** A candidate that lists days outside the window goes to the earliest of them, and else to the earliest
      listed day that has room for it. */
  lemma StepTakesEarliest(cands: seq<Candidate>, win: Window, t: Totals, done: seq<Move>, m: Move)
    requires t.Keys == win.workbook.Keys && GreedyStep(cands, win, t, done, m)
    ensures var listed := m.candidate.workbookDates;
            if exists d :: d in listed && d !in t
            then m.target in listed && m.target !in t && forall d :: d in listed && d !in t ==> m.target <= d
            else
              && m.target in listed && m.target in t && HasRoom(win, t, m.candidate, m.target)
              && forall d :: d in listed && HasRoom(win, t, m.candidate, d) ==> m.target <= d
  {
    forall d | d in m.candidate.workbookDates && d in t
      ensures Feasible(win, t, m.candidate, d) <==> HasRoom(win, t, m.candidate, d)
    {
    }
  }

  /** A candidate is passed over only if it was moved already or lists no day outside and none with room. */
  lemma UnscoredHasNoDay(cands: seq<Candidate>, win: Window, t: Totals, done: seq<Move>, c: Candidate)
    requires t.Keys == win.workbook.Keys && c in cands
    ensures Scored(cands, win, t, done, c.sourceDate, c) <==>
            && (forall k :: 0 <= k < |done| ==> done[k].candidate.index != c.index)
            && exists d :: d in c.workbookDates && (d in t ==> HasRoom(win, t, c, d))
  {
    if d :| d in c.workbookDates && (d in t ==> HasRoom(win, t, c, d)) {
      assert Feasible(win, t, c, d);
    }
    if d :| d in c.workbookDates && Feasible(win, t, c, d) {
      assert d in t ==> HasRoom(win, t, c, d);
    }
  }

  // ---------------------------------------------------------------- what every run keeps

  /** A selected move never makes a within-tolerance day fail. No sign hypothesis is needed. */
  lemma StepBreaksNoDay(cands: seq<Candidate>, win: Window, t: Totals, done: seq<Move>, m: Move, day: int)
    requires t.Keys == win.workbook.Keys
    requires GreedyStep(cands, win, t, done, m)
    requires day in t && !Failing(win, t, day)
    ensures !Failing(win, ApplyMove(t, m), day)
  {
    var next := ApplyMove(t, m);
    if day == m.target {
      FitsIsNotOver(next[day].units, win.workbook[day].units, win.multiplier);
      FitsIsNotOver(next[day].net, win.workbook[day].net, win.multiplier);
    }
  }

  /** Once a day is within tolerance it stays so for the rest of the run: no cleared day breaks again. */
  lemma {:induction false} RunNeverRebreaks(
    cands: seq<Candidate>, win: Window, t: Totals, moves: seq<Move>, i: nat, day: int)
    requires t.Keys == win.workbook.Keys
    requires GreedyRun(cands, win, t, moves)
    requires i <= |moves| && day in t
    requires !Failing(win, After(t, moves[..i]), day)
    ensures !Failing(win, After(t, moves), day)
    decreases |moves|
  {
    if i < |moves| {
      var init := moves[..|moves| - 1];
      assert init[..i] == moves[..i];
      RunNeverRebreaks(cands, win, t, init, i, day);
      StepBreaksNoDay(cands, win, After(t, init), init, moves[|moves| - 1], day);
    } else {
      assert moves[..i] == moves;
    }
  }

  /** A failing day is no candidate's target while it fails, unless the candidate's amount is
      negative in a failing dimension; so with amounts of at least zero no move stays on its day. */
  lemma TargetLeavesSource(cands: seq<Candidate>, win: Window, t: Totals, done: seq<Move>, m: Move)
    requires t.Keys == win.workbook.Keys
    requires GreedyStep(cands, win, t, done, m)
    requires m.candidate.amount.units >= 0 && m.candidate.amount.net >= 0
    ensures m.target != m.candidate.sourceDate
    ensures m.target in t ==> !Failing(win, t, m.target)
  {
    if m.target in t {
      var before, after := t[m.target], t[m.target].Plus(m.candidate.amount);
      var book := win.workbook[m.target];
      FitsIsNotOver(before.units, book.units, win.multiplier);
      FitsIsNotOver(before.net, book.net, win.multiplier);
    }
  }

  /** This run of the allocator ends with a move that leaves `c` on its day. */
  ghost predicate StaysIn(cands: seq<Candidate>, win: Window, start: Totals, done: seq<Move>, c: Candidate) {
    Covers(win, start) && DistinctIndexes(cands) && GreedyRun(cands, win, start, done + [Move(c, c.sourceDate)])
  }

  /** Some run on an input that `_select_moves` can be given moves `c` to the day it is on. */
  ghost predicate CanStay(c: Candidate) {
    exists cands: seq<Candidate>, win: Window, start: Totals, done: seq<Move> :: StaysIn(cands, win, start, done, c)
  }

  /** Totals under which `c` alone fits on its own day and on no other: its day holds what `c` takes
      away, every other listed day one unit more. */
  function StayTotals(c: Candidate): Totals {
    map d | d in c.workbookDates ::
      if d == c.sourceDate then Amount(-c.amount.units, -c.amount.net) else Amount(1 - c.amount.units, 0)
  }

  /** A window of exactly the listed days, with nothing in the workbook. */
  function StayWindow(c: Candidate): Window {
    Window(DistinctDays(c.workbookDates), map d | d in c.workbookDates :: Amount(0, 0), 1.0)
  }

  function DistinctDays(days: seq<int>): (r: seq<int>)
    ensures forall i, j :: 0 <= i < j < |r| ==> r[i] < r[j]
    ensures forall d :: d in r <==> d in days
  {
    if days == [] then [] else InsertDay(DistinctDays(days[1..]), days[0])
  }

  /** A candidate listed on its own day can be left there if and only if one of its amounts is negative. */
  lemma CanStayIffNegative(c: Candidate)
    requires c.sourceDate in c.workbookDates
    ensures CanStay(c) <==> c.amount.units < 0 || c.amount.net < 0
  {
    if CanStay(c) {
      var cands: seq<Candidate>, win: Window, start: Totals, done: seq<Move> :| StaysIn(cands, win, start, done, c);
      var m := Move(c, c.sourceDate);
      assert (done + [m])[..|done|] == done;
      if c.amount.units >= 0 && c.amount.net >= 0 {
        TargetLeavesSource(cands, win, After(start, done), done, m);
      }
    }
    if c.amount.units < 0 || c.amount.net < 0 {
      NegativeStays(c);
    }
  }

  lemma NegativeStays(c: Candidate)
    requires c.sourceDate in c.workbookDates && (c.amount.units < 0 || c.amount.net < 0)
    ensures StaysIn([c], StayWindow(c), StayTotals(c), [], c)
  {
    var win, t, m := StayWindow(c), StayTotals(c), Move(c, c.sourceDate);
    assert t.Keys == win.workbook.Keys == (set d | d in win.days);
    FirstStepStays(c, win, t);
    OneStep([c], win, t, m);
    assert [] + [m] == [m];
  }

  lemma OneStep(cands: seq<Candidate>, win: Window, t: Totals, m: Move)
    requires t.Keys == win.workbook.Keys && GreedyStep(cands, win, t, [], m)
    ensures GreedyRun(cands, win, t, [m])
  {
    assert [m][..0] == [] && After(t, []) == t && GreedyRun(cands, win, t, []);
  }

  lemma FirstStepStays(c: Candidate, win: Window, t: Totals)
    requires c.sourceDate in c.workbookDates && (c.amount.units < 0 || c.amount.net < 0)
    requires win == StayWindow(c) && t == StayTotals(c)
    ensures t.Keys == win.workbook.Keys && GreedyStep([c], win, t, [], Move(c, c.sourceDate))
  {
    StayIsFeasible(c, win, t);
    assert Scored([c], win, t, [], c.sourceDate, c);
  }

  lemma StayIsFeasible(c: Candidate, win: Window, t: Totals)
    requires c.sourceDate in c.workbookDates && (c.amount.units < 0 || c.amount.net < 0)
    requires win == StayWindow(c) && t == StayTotals(c)
    ensures t.Keys == win.workbook.Keys && c.sourceDate in t && Failing(win, t, c.sourceDate)
    ensures IsTarget(win, t, c, c.sourceDate)
  {
    FitsIsNotOver(-c.amount.units, 0, 1.0);
    FitsIsNotOver(-c.amount.net, 0, 1.0);
    assert Feasible(win, t, c, c.sourceDate);
    forall e | e in c.workbookDates && Feasible(win, t, c, e) ensures e == c.sourceDate {
      assert e in t;
    }
  }

  /** Every candidate moves at most once, and a run is no longer than the candidate list: the
      number of candidates not yet moved is what makes the loop end. */
  lemma {:induction false} RunUsesCandidatesOnce(cands: seq<Candidate>, win: Window, t: Totals, moves: seq<Move>)
    requires t.Keys == win.workbook.Keys
    requires GreedyRun(cands, win, t, moves)
    ensures forall k :: 0 <= k < |moves| ==> moves[k].candidate in cands
    ensures forall i, j :: 0 <= i < j < |moves| ==> moves[i].candidate.index != moves[j].candidate.index
    ensures |moves| <= |cands|
  {
    if moves != [] {
      var n := |moves| - 1;
      var init := moves[..n];
      RunUsesCandidatesOnce(cands, win, t, init);
      forall i, j | 0 <= i < j < |moves|
        ensures moves[i].candidate.index != moves[j].candidate.index
      {
        assert init[i] == moves[i];
        if j < n {
          assert init[j] == moves[j];
        }
      }
      forall k | 0 <= k < |moves| ensures moves[k].candidate in cands {
        if k < n {
          assert init[k] == moves[k];
        }
      }
      DistinctPicksFit(cands, moves);
    }
  }

  lemma {:induction false} DistinctPicksFit(cands: seq<Candidate>, moves: seq<Move>)
    requires forall k :: 0 <= k < |moves| ==> moves[k].candidate in cands
    requires forall i, j :: 0 <= i < j < |moves| ==> moves[i].candidate.index != moves[j].candidate.index
    ensures |moves| <= |cands|
  {
    if moves != [] {
      var init := moves[..|moves| - 1];
      var last := moves[|moves| - 1].candidate;
      var k :| 0 <= k < |cands| && cands[k] == last;
      var rest := cands[..k] + cands[k + 1..];
      forall i | 0 <= i < |init| ensures init[i].candidate in rest {
        var p :| 0 <= p < |cands| && cands[p] == moves[i].candidate;
        assert p != k;
        assert rest[if p < k then p else p - 1] == cands[p];
      }
      DistinctPicksFit(rest, init);
    }
  }

  // ---------------------------------------------------------------- conservation

  function Sum(days: seq<int>, t: Totals): (r: Amount)
    requires forall k :: 0 <= k < |days| ==> days[k] in t
    ensures |days| == 1 ==> r == t[days[0]]
  {
    if days == [] then Amount(0, 0) else t[days[0]].Plus(Sum(days[1..], t))
  }

  function MovedOut(t: Totals, moves: seq<Move>): Amount {
    if moves == [] then Amount(0, 0)
    else
      var m := moves[|moves| - 1];
      var rest := MovedOut(t, moves[..|moves| - 1]);
      if m.target in t then rest else rest.Plus(m.candidate.amount)
  }

  lemma {:induction false} SumBump(days: seq<int>, t: Totals, day: int, a: Amount)
    requires forall k :: 0 <= k < |days| ==> days[k] in t
    requires forall i, j :: 0 <= i < j < |days| ==> days[i] != days[j]
    requires day in t
    ensures Sum(days, t[day := a])
            == if day in days then Sum(days, t).Plus(a).Minus(t[day]) else Sum(days, t)
  {
    if days != [] {
      SumBump(days[1..], t, day, a);
      assert day in days <==> day == days[0] || day in days[1..];
    }
  }

  lemma StepConserves(win: Window, t: Totals, m: Move)
    requires Covers(win, t) && m.candidate.sourceDate in t
    ensures Sum(win.days, ApplyMove(t, m))
            == if m.target in t then Sum(win.days, t) else Sum(win.days, t).Minus(m.candidate.amount)
  {
    var src, a := m.candidate.sourceDate, m.candidate.amount;
    var mid := Drop(t, src, a);
    SumBump(win.days, t, src, t[src].Minus(a));
    if m.target in mid {
      SumBump(win.days, mid, m.target, mid[m.target].Plus(a));
    }
  }

  /** Nothing is lost: the window total plus what left the window is the starting total. */
  lemma {:induction false} RunConserves(cands: seq<Candidate>, win: Window, t: Totals, moves: seq<Move>)
    requires Covers(win, t)
    requires GreedyRun(cands, win, t, moves)
    ensures Sum(win.days, After(t, moves)).Plus(MovedOut(t, moves)) == Sum(win.days, t)
  {
    if moves != [] {
      var init := moves[..|moves| - 1];
      RunConserves(cands, win, t, init);
      StepConserves(win, After(t, init), moves[|moves| - 1]);
    }
  }

  /** A failing day that no candidate is dated on stays failing through the whole run (amounts of
      at least zero), so clearing the window needs a candidate on every failing day. */
  lemma {:induction false} UnsourcedDayStaysFailing(
    cands: seq<Candidate>, win: Window, t: Totals, moves: seq<Move>, day: int)
    requires t.Keys == win.workbook.Keys
    requires GreedyRun(cands, win, t, moves)
    requires forall c :: c in cands ==> c.amount.units >= 0 && c.amount.net >= 0
    requires forall c :: c in cands ==> c.sourceDate != day
    requires day in t && Failing(win, t, day)
    ensures After(t, moves)[day] == t[day]
  {
    if moves != [] {
      var init, last := moves[..|moves| - 1], moves[|moves| - 1];
      UnsourcedDayStaysFailing(cands, win, t, init, day);
      TargetLeavesSource(cands, win, After(t, init), init, last);
    }
  }

  // ---------------------------------------------------------------- the allocator

  function FailingDays(win: Window, t: Totals, days: seq<int>): (r: seq<int>)
    requires t.Keys == win.workbook.Keys
    requires forall k :: 0 <= k < |days| ==> days[k] in t
    ensures forall d :: d in r <==> d in days && d in t && Failing(win, t, d)
  {
    if days == [] then []
    else (if Failing(win, t, days[0]) then [days[0]] else []) + FailingDays(win, t, days[1..])
  }

  function InsertDay(s: seq<int>, d: int): (r: seq<int>)
    requires forall i, j :: 0 <= i < j < |s| ==> s[i] < s[j]
    ensures forall i, j :: 0 <= i < j < |r| ==> r[i] < r[j]
    ensures forall e :: e in r <==> e == d || e in s
  {
    if s == [] || d < s[0] then [d] + s
    else if d == s[0] then s
    else
      var rest := InsertDay(s[1..], d);
      assert forall k :: 0 <= k < |rest| ==> rest[k] in rest && s[0] < rest[k];
      [s[0]] + rest
  }

  /** `sorted({candidate.source_date for candidate in candidates})` */
  function SourceDays(cands: seq<Candidate>): (r: seq<int>)
    ensures forall i, j :: 0 <= i < j < |r| ==> r[i] < r[j]
  {
    if cands == [] then [] else InsertDay(SourceDays(cands[1..]), cands[0].sourceDate)
  }

  lemma {:induction false} SourceDaysCover(cands: seq<Candidate>)
    ensures forall c :: c in cands ==> c.sourceDate in SourceDays(cands)
    ensures forall d :: d in SourceDays(cands) ==> exists c :: c in cands && c.sourceDate == d
  {
    if cands != [] {
      SourceDaysCover(cands[1..]);
    }
  }

  datatype Target = Nowhere | On(day: int)

  method PickTarget(win: Window, t: Totals, c: Candidate) returns (r: Target)
    requires t.Keys == win.workbook.Keys
    ensures r.Nowhere? <==> !HasTarget(win, t, c)
    ensures r.On? ==> IsTarget(win, t, c, r.day)
  {
    r := Nowhere;
    for i := 0 to |c.workbookDates|
      invariant r.Nowhere? ==> forall e :: e in c.workbookDates[..i] ==> !Feasible(win, t, c, e)
      invariant r.On? ==> r.day in c.workbookDates && Feasible(win, t, c, r.day)
      invariant r.On? ==> forall e :: e in c.workbookDates[..i] && Feasible(win, t, c, e) ==> !TargetBefore(t, e, r.day)
    {
      var day := c.workbookDates[i];
      if Feasible(win, t, c, day) && (r.Nowhere? || TargetBefore(t, day, r.day)) {
        r := On(day);
      }
    }
    assert c.workbookDates[..|c.workbookDates|] == c.workbookDates;
  }

  /** The scored list of one pass: exactly the scored candidates, in list order. */
  method ScoreDay(cands: seq<Candidate>, win: Window, t: Totals, done: seq<Move>, day: int)
    returns (scored: seq<Candidate>)
    requires t.Keys == win.workbook.Keys && day in t
    requires DistinctIndexes(cands)
    ensures forall c :: c in scored <==> Scored(cands, win, t, done, day, c)
    ensures DistinctIndexes(scored)
  {
    scored := [];
    for i := 0 to |cands|
      invariant forall c :: c in scored <==> c in cands[..i] && Scored(cands, win, t, done, day, c)
      invariant DistinctIndexes(scored)
    {
      var c := cands[i];
      if c.sourceDate == day && !Used(done, c) {
        var target := PickTarget(win, t, c);
        if target.On? {
          assert forall k :: 0 <= k < |scored| ==> scored[k] in cands[..i];
          scored := scored + [c];
        }
      }
      assert cands[..i + 1] == cands[..i] + [c];
    }
    assert cands[..|cands|] == cands;
  }

  datatype First = FirstIs(candidate: Candidate) | Unorderable

  ghost predicate Leads(scored: seq<Candidate>, best: Candidate, over: (nat, nat)) {
    best in scored && forall c :: c in scored && c != best ==> RanksBefore(best, c, over)
  }

  lemma LeadsOneMore(scored: seq<Candidate>, best: Candidate, c: Candidate, over: (nat, nat))
    requires Leads(scored, best, over) && !SameRank(best, c, over)
    ensures Leads(scored + [c], if RanksBefore(c, best, over) then c else best, over)
  {
    RankOrder(c, best, best, over);
    forall d | d in scored && d != best && RanksBefore(c, best, over) ensures RanksBefore(c, d, over) {
      RankOrder(c, best, d, over);
    }
  }

  /** `sorted(scored)[0]`: candidates themselves have no order, so two equal keys raise. */
  method SortedFirst(scored: seq<Candidate>, over: (nat, nat)) returns (r: First)
    requires scored != [] && DistinctIndexes(scored)
    ensures r.Unorderable? <==> exists a, b :: a in scored && b in scored && a != b && SameRank(a, b, over)
    ensures r.FirstIs? ==> r.candidate in scored
    ensures r.FirstIs? ==> forall c :: c in scored && c != r.candidate ==> RanksBefore(r.candidate, c, over)
  {
    var best := scored[0];
    for i := 1 to |scored|
      invariant Leads(scored[..i], best, over)
      invariant forall a, b :: 0 <= a < b < i ==> !SameRank(scored[a], scored[b], over)
    {
      for j := 0 to i
        invariant forall k :: 0 <= k < j ==> !SameRank(scored[k], scored[i], over)
      {
        if SameRank(scored[j], scored[i], over) {
          return Unorderable;
        }
      }
      assert scored[..i + 1] == scored[..i] + [scored[i]];
      LeadsOneMore(scored[..i], best, scored[i], over);
      if RanksBefore(scored[i], best, over) {
        best := scored[i];
      }
    }
    assert scored[..|scored|] == scored;
    r := FirstIs(best);
  }

  datatype Outcome =
    | Selected(moves: seq<Move>, before: seq<int>, after: seq<int>)
    | NoCapacity(day: int)
    | UnorderableTie(day: int)
    | NotCleared(failing: seq<int>)
    | EmptySelection

  /** The pass over one source day ends clear, or stuck for one of two reasons. */
  ghost predicate Stuck(cands: seq<Candidate>, win: Window, t: Totals, run: seq<Move>, day: int)
    requires t.Keys == win.workbook.Keys
  {
    && day in t && Failing(win, t, day) && ClearedBefore(cands, win, t, day)
    && (exists c :: c in cands && c.sourceDate == day)
    && forall c :: c in cands ==> !Scored(cands, win, t, run, day, c)
  }

  datatype Choice = Move1(move: Move) | NoScore | Tie

  /** One iteration of the inner loop up to the choice. */
  method ChooseMove(cands: seq<Candidate>, win: Window, t: Totals, done: seq<Move>, day: int, over: (nat, nat))
    returns (r: Choice)
    requires t.Keys == win.workbook.Keys && DistinctIndexes(cands)
    requires day in t && Failing(win, t, day) && over == Overage(win, t, day)
    requires ClearedBefore(cands, win, t, day) && exists c :: c in cands && c.sourceDate == day
    ensures r.NoScore? ==> Stuck(cands, win, t, done, day)
    ensures r.Tie? ==> Tied(cands, win, t, done, day)
    ensures r.Move1? ==> GreedyStep(cands, win, t, done, r.move) && r.move.candidate.sourceDate == day
  {
    var scored := ScoreDay(cands, win, t, done, day);
    if scored == [] {
      return NoScore;
    }
    var first := SortedFirst(scored, over);
    if first.Unorderable? {
      return Tie;
    }
    var target := PickTarget(win, t, first.candidate);
    r := Move1(Move(first.candidate, target.day));
  }

  /** The state of the loops: `moved` is a greedy run, `t` its totals, and every source day of the
      finished passes is clear. */
  ghost predicate Passed(
    cands: seq<Candidate>, win: Window, start: Totals, t: Totals, moved: seq<Move>, done: seq<int>)
    requires start.Keys == win.workbook.Keys
  {
    && GreedyRun(cands, win, start, moved) && t == After(start, moved)
    && forall d :: d in done && d in start ==> !Failing(win, t, d)
  }

  lemma StepPasses(
    cands: seq<Candidate>, win: Window, start: Totals, t: Totals, moved: seq<Move>, done: seq<int>, m: Move)
    requires start.Keys == win.workbook.Keys
    requires Passed(cands, win, start, t, moved, done)
    requires GreedyStep(cands, win, t, moved, m)
    ensures Passed(cands, win, start, ApplyMove(t, m), moved + [m], done)
    ensures |moved| < |cands|
  {
    assert (moved + [m])[..|moved|] == moved;
    forall d | d in done && d in start ensures !Failing(win, ApplyMove(t, m), d) {
      StepBreaksNoDay(cands, win, t, moved, m, d);
    }
    RunUsesCandidatesOnce(cands, win, start, moved + [m]);
  }

  datatype Stop = Cleared | NoFeasibleTarget | TieRaised

  /** `done` holds every source day before `day`. */
  ghost predicate SourcesBefore(cands: seq<Candidate>, day: int, done: seq<int>) {
    forall c :: c in cands && c.sourceDate < day ==> c.sourceDate in done
  }

  /** The `while True` loop over one source day. */
  method ClearDay(
    cands: seq<Candidate>, win: Window, ghost start: Totals, t0: Totals, moved0: seq<Move>, day: int,
    ghost done: seq<int>)
    returns (stop: Stop, t: Totals, moved: seq<Move>)
    requires start.Keys == win.workbook.Keys && DistinctIndexes(cands)
    requires Passed(cands, win, start, t0, moved0, done)
    requires day in start && SourceDay(cands, day, done)
    ensures Passed(cands, win, start, t, moved, done)
    ensures Stopped(cands, win, t, moved, day, stop)
    ensures stop.Cleared? ==> !Failing(win, t, day)
    ensures moved0 <= moved
  {
    t, moved := t0, moved0;
    var over := Overage(win, t, day);
    while over.0 > 0 || over.1 > 0
      invariant Passed(cands, win, start, t, moved, done)
      invariant over == Overage(win, t, day) && moved0 <= moved
      decreases |cands| - |moved|
    {
      var choice := ChooseMove(cands, win, t, moved, day, over);
      if !choice.Move1? {
        return if choice.NoScore? then NoFeasibleTarget else TieRaised, t, moved;
      }
      var m := choice.move;
      StepPasses(cands, win, start, t, moved, done, m);
      t := Bump(Drop(t, day, m.candidate.amount), m.target, m.candidate.amount);
      moved := moved + [m];
      over := Overage(win, t, day);
    }
    stop := Cleared;
  }

  /** Each way `_select_moves` ends, with the run `moved` it ends on. */
  ghost predicate Ends(cands: seq<Candidate>, win: Window, start: Totals, r: Outcome, run: seq<Move>)
    requires Covers(win, start)
  {
    var t := After(start, run);
    match r
    case Selected(moves, before, after) =>
      && moves == run != [] && before == FailingDays(win, start, win.days) && after == []
      && forall d :: d in start ==> !Failing(win, t, d)
    case NoCapacity(day) => Stuck(cands, win, t, run, day)
    case UnorderableTie(day) =>
      day in t && Failing(win, t, day) && ClearedBefore(cands, win, t, day) && Tied(cands, win, t, run, day)
    case NotCleared(failing) =>
      && SourcesClear(cands, win, t) && failing == FailingDays(win, t, win.days) != []
      && (forall d :: d in start && Failing(win, t, d) ==> d in failing)
      && forall d :: d in failing ==>
           && d in start && Failing(win, start, d) && Failing(win, t, d)
           && forall c :: c in cands ==> c.sourceDate != d
    case EmptySelection => run == [] && forall d :: d in start ==> !Failing(win, start, d)
  }

  method Finish(cands: seq<Candidate>, win: Window, start: Totals, t: Totals, moved: seq<Move>)
    returns (r: Outcome)
    requires Covers(win, start)
    requires GreedyRun(cands, win, start, moved) && t == After(start, moved)
    requires SourcesClear(cands, win, t)
    ensures Ends(cands, win, start, r, moved)
  {
    var before := FailingDays(win, start, win.days);
    var after := FailingDays(win, t, win.days);
    if after != [] {
      assert forall d :: d in start ==> d in win.days;
      forall d | d in after ensures Failing(win, start, d) {
        FailingAtStart(cands, win, start, moved, d);
      }
      return NotCleared(after);
    }
    forall d | d in start ensures !Failing(win, t, d) {
      assert d in win.days;
    }
    if moved == [] {
      return EmptySelection;
    }
    r := Selected(moved, before, after);
  }

  /** One source day of the outer loop: nothing to do outside the window. */
  method PassDay(
    cands: seq<Candidate>, win: Window, ghost start: Totals, t0: Totals, moved0: seq<Move>, day: int,
    ghost done: seq<int>)
    returns (stop: Stop, t: Totals, moved: seq<Move>)
    requires start.Keys == win.workbook.Keys && DistinctIndexes(cands)
    requires Passed(cands, win, start, t0, moved0, done) && SourceDay(cands, day, done)
    ensures Passed(cands, win, start, t, moved, if stop.Cleared? then done + [day] else done)
    ensures Stopped(cands, win, t, moved, day, stop)
  {
    stop, t, moved := Cleared, t0, moved0;
    if day in t {
      stop, t, moved := ClearDay(cands, win, start, t0, moved0, day, done);
    }
    if stop.Cleared? {
      DayPassed(cands, win, start, t, moved, done, day);
    }
  }

  /** Why a pass over `day` stopped the loop, if it did. */
  ghost predicate Stopped(cands: seq<Candidate>, win: Window, t: Totals, moved: seq<Move>, day: int, stop: Stop)
    requires t.Keys == win.workbook.Keys
  {
    && (stop.NoFeasibleTarget? ==> Stuck(cands, win, t, moved, day))
    && (stop.TieRaised? ==>
          day in t && Failing(win, t, day) && ClearedBefore(cands, win, t, day) && Tied(cands, win, t, moved, day))
  }

  lemma EarlierSourcesDone(cands: seq<Candidate>, bySource: seq<int>, i: nat)
    requires bySource == SourceDays(cands) && i < |bySource|
    ensures SourcesBefore(cands, bySource[i], bySource[..i])
  {
    SourceDaysCover(cands);
  }

  lemma SourceOfSome(cands: seq<Candidate>, bySource: seq<int>, i: nat)
    requires bySource == SourceDays(cands) && i < |bySource|
    ensures exists c :: c in cands && c.sourceDate == bySource[i]
  {
    SourceDaysCover(cands);
    assert bySource[i] in SourceDays(cands);
  }

  lemma DayPassed(
    cands: seq<Candidate>, win: Window, start: Totals, t: Totals, moved: seq<Move>, done: seq<int>, day: int)
    requires start.Keys == win.workbook.Keys && Passed(cands, win, start, t, moved, done)
    requires day in start ==> !Failing(win, t, day)
    ensures Passed(cands, win, start, t, moved, done + [day])
  {
  }

  lemma PassedOnly(
    cands: seq<Candidate>, win: Window, start: Totals, t: Totals, moved: seq<Move>, done: seq<int>)
    requires start.Keys == win.workbook.Keys && Passed(cands, win, start, t, moved, done)
    ensures Passed(cands, win, start, t, moved, [])
  {
  }

  lemma AllPassed(cands: seq<Candidate>, win: Window, start: Totals, t: Totals, moved: seq<Move>)
    requires start.Keys == win.workbook.Keys
    requires Passed(cands, win, start, t, moved, SourceDays(cands))
    ensures SourcesClear(cands, win, t)
  {
    SourceDaysCover(cands);
  }

  /** The outer loop: one pass over each in-window source day, in date order. */
  method ClearDays(cands: seq<Candidate>, win: Window, start: Totals)
    returns (stop: Stop, day: int, t: Totals, moved: seq<Move>)
    requires start.Keys == win.workbook.Keys && DistinctIndexes(cands)
    ensures GreedyRun(cands, win, start, moved) && t == After(start, moved)
    ensures stop.Cleared? ==> SourcesClear(cands, win, t)
    ensures Stopped(cands, win, t, moved, day, stop)
  {
    var bySource := SourceDays(cands);
    forall i | 0 <= i < |bySource| ensures SourceDay(cands, bySource[i], bySource[..i]) {
      EarlierSourcesDone(cands, bySource, i);
      SourceOfSome(cands, bySource, i);
    }
    stop, day, t, moved := PassDays(cands, win, start, bySource);
    if stop.Cleared? {
      AllPassed(cands, win, start, t, moved);
    }
  }

  /** `day` is the day of some candidate, and `done` holds every earlier one. */
  ghost predicate SourceDay(cands: seq<Candidate>, day: int, done: seq<int>) {
    SourcesBefore(cands, day, done) && exists c :: c in cands && c.sourceDate == day
  }

  lemma OneDayMore(days: seq<int>, i: nat)
    requires i < |days|
    ensures days[..i + 1] == days[..i] + [days[i]]
  {
  }

  method PassDays(cands: seq<Candidate>, win: Window, start: Totals, days: seq<int>)
    returns (stop: Stop, day: int, t: Totals, moved: seq<Move>)
    requires start.Keys == win.workbook.Keys && DistinctIndexes(cands)
    requires forall i :: 0 <= i < |days| ==> SourceDay(cands, days[i], days[..i])
    ensures Passed(cands, win, start, t, moved, if stop.Cleared? then days else [])
    ensures Stopped(cands, win, t, moved, day, stop)
  {
    stop, day, t, moved := Cleared, 0, start, [];
    ghost var done := [];
    for i := 0 to |days|
      invariant done == days[..i] && stop.Cleared? && Passed(cands, win, start, t, moved, done)
    {
      day := days[i];
      stop, t, moved := PassDay(cands, win, start, t, moved, day, done);
      if !stop.Cleared? {
        PassedOnly(cands, win, start, t, moved, done);
        return;
      }
      OneDayMore(days, i);
      done := done + [day];
    }
    assert done == days;
  }

  /** `_select_moves`. `run` is the list `moved` at the point of return or raise. */
  method SelectMoves(cands: seq<Candidate>, win: Window, start: Totals) returns (r: Outcome, run: seq<Move>)
    requires Covers(win, start) && DistinctIndexes(cands)
    ensures GreedyRun(cands, win, start, run)
    ensures Ends(cands, win, start, r, run)
  {
    var stop, day, t, moved := ClearDays(cands, win, start);
    run := moved;
    match stop
    case NoFeasibleTarget => r := NoCapacity(day);
    case TieRaised => r := UnorderableTie(day);
    case Cleared => r := Finish(cands, win, start, t, moved);
  }

  lemma FailingAtStart(cands: seq<Candidate>, win: Window, start: Totals, moves: seq<Move>, day: int)
    requires start.Keys == win.workbook.Keys
    requires GreedyRun(cands, win, start, moves)
    requires day in start && Failing(win, After(start, moves), day)
    ensures Failing(win, start, day)
  {
    if !Failing(win, start, day) {
      assert moves[..0] == [];
      RunNeverRebreaks(cands, win, start, moves, 0, day);
    }
  }

  ghost predicate NonNegative(cands: seq<Candidate>) {
    forall c :: c in cands ==> c.amount.units >= 0 && c.amount.net >= 0
  }

  ghost predicate Unsourced(cands: seq<Candidate>, win: Window, start: Totals, d: int)
    requires start.Keys == win.workbook.Keys
  {
    d in start && Failing(win, start, d) && forall c :: c in cands ==> c.sourceDate != d
  }

  /** The outcome in terms of the input. Nothing is selected exactly when no day fails. With amounts
      of at least zero, a run that empties every source day is accepted exactly when every failing
      day was some candidate's source day, and otherwise reports exactly the days that were not. */
  lemma OutcomeMeaning(cands: seq<Candidate>, win: Window, start: Totals, r: Outcome, run: seq<Move>)
    requires Covers(win, start)
    requires GreedyRun(cands, win, start, run) && Ends(cands, win, start, r, run)
    ensures r.EmptySelection? <==> forall d :: d in start ==> !Failing(win, start, d)
    ensures NonNegative(cands) && r.Selected? ==> forall d :: !Unsourced(cands, win, start, d)
    ensures NonNegative(cands) && r.NotCleared? ==>
              forall d :: d in r.failing <==> Unsourced(cands, win, start, d)
  {
    if run == [] {
      assert After(start, run) == start;
      match r
      case Selected(_, _, _) =>
      case NoCapacity(day) => assert Failing(win, start, day);
      case UnorderableTie(day) => assert Failing(win, start, day);
      case NotCleared(failing) => assert Failing(win, start, failing[0]);
      case EmptySelection =>
    } else {
      var init, last := run[..|run| - 1], run[|run| - 1];
      FailingAtStart(cands, win, start, init, last.candidate.sourceDate);
      assert Failing(win, start, last.candidate.sourceDate);
    }
    if NonNegative(cands) {
      forall d | Unsourced(cands, win, start, d) ensures Failing(win, After(start, run), d) {
        UnsourcedDayStaysFailing(cands, win, start, run, d);
      }
    }
  }

  // ---------------------------------------------------------------- the run is determined

  /** At most one move can follow: the day, the candidate and the target are all forced. */
  lemma StepIsDetermined(cands: seq<Candidate>, win: Window, t: Totals, done: seq<Move>, m: Move, n: Move)
    requires t.Keys == win.workbook.Keys
    requires GreedyStep(cands, win, t, done, m) && GreedyStep(cands, win, t, done, n)
    ensures m == n
  {
    var a, b := m.candidate, n.candidate;
    assert a.sourceDate == b.sourceDate;
    RankOrder(a, b, b, Overage(win, t, a.sourceDate));
    assert a == b;
  }

  /** A first part of a run is a run, and the next move is a greedy step from it. */
  lemma {:induction false} RunUpTo(cands: seq<Candidate>, win: Window, t: Totals, moves: seq<Move>, n: nat)
    requires t.Keys == win.workbook.Keys && GreedyRun(cands, win, t, moves) && n <= |moves|
    ensures GreedyRun(cands, win, t, moves[..n])
    ensures n < |moves| ==> GreedyStep(cands, win, After(t, moves[..n]), moves[..n], moves[n])
    decreases |moves|
  {
    if n < |moves| {
      var init := moves[..|moves| - 1];
      assert init[..n] == moves[..n];
      RunUpTo(cands, win, t, init, n);
    } else {
      assert moves[..n] == moves;
    }
  }

  ghost predicate Agree(run: seq<Move>, other: seq<Move>, n: nat)
    requires n <= |run| && n <= |other|
  {
    n == 0 || (Agree(run, other, n - 1) && run[n - 1] == other[n - 1])
  }

  lemma {:induction false} AgreeMeans(run: seq<Move>, other: seq<Move>, n: nat)
    requires n <= |run| && n <= |other| && Agree(run, other, n)
    ensures run[..n] == other[..n]
  {
    if n > 0 {
      AgreeMeans(run, other, n - 1);
      assert run[..n] == run[..n - 1] + [run[n - 1]] && other[..n] == other[..n - 1] + [other[n - 1]];
    }
  }

  /** Two runs from the same totals make the same moves as far as both go. */
  lemma {:induction false} RunsAgree(
    cands: seq<Candidate>, win: Window, t: Totals, run: seq<Move>, other: seq<Move>, n: nat)
    requires t.Keys == win.workbook.Keys && GreedyRun(cands, win, t, run) && GreedyRun(cands, win, t, other)
    requires n <= |run| && n <= |other|
    ensures Agree(run, other, n)
  {
    if n > 0 {
      RunsAgree(cands, win, t, run, other, n - 1);
      NextAgrees(cands, win, t, run, other, n - 1);
    }
  }

  lemma NextAgrees(cands: seq<Candidate>, win: Window, t: Totals, run: seq<Move>, other: seq<Move>, n: nat)
    requires t.Keys == win.workbook.Keys && GreedyRun(cands, win, t, run) && GreedyRun(cands, win, t, other)
    requires n < |run| && n < |other| && Agree(run, other, n)
    ensures run[n] == other[n]
  {
    AgreeMeans(run, other, n);
    RunUpTo(cands, win, t, run, n);
    RunUpTo(cands, win, t, other, n);
    StepIsDetermined(cands, win, After(t, run[..n]), run[..n], run[n], other[n]);
  }

  /** Where the function ends, no greedy step is left. */
  lemma NothingFollows(cands: seq<Candidate>, win: Window, start: Totals, r: Outcome, run: seq<Move>, m: Move)
    requires Covers(win, start) && Ends(cands, win, start, r, run)
    ensures !GreedyStep(cands, win, After(start, run), run, m)
  {
    var t := After(start, run);
    assert run == [] ==> t == start;
    if GreedyStep(cands, win, t, run, m) {
      var day := m.candidate.sourceDate;
      match r
      case Selected(_, _, _) =>
      case EmptySelection =>
      case NotCleared(_) =>
      case NoCapacity(d) => OneStopDay(cands, win, t, d, day);
      case UnorderableTie(d) => OneStopDay(cands, win, t, d, day);
    }
  }

  /** The first failing source day: only one day fails with all earlier source days clear. */
  lemma OneStopDay(cands: seq<Candidate>, win: Window, t: Totals, d: int, e: int)
    requires t.Keys == win.workbook.Keys && d in t && e in t && Failing(win, t, d) && Failing(win, t, e)
    requires ClearedBefore(cands, win, t, d) && ClearedBefore(cands, win, t, e)
    requires exists c :: c in cands && c.sourceDate == d
    requires exists c :: c in cands && c.sourceDate == e
    ensures d == e
  {
  }

  /** The run and the outcome are a function of the input: whatever meets what `SelectMoves` promises is the
      same. */
  lemma OutcomeIsDetermined(
    cands: seq<Candidate>, win: Window, start: Totals, r: Outcome, run: seq<Move>, r': Outcome, run': seq<Move>)
    requires Covers(win, start)
    requires GreedyRun(cands, win, start, run) && Ends(cands, win, start, r, run)
    requires GreedyRun(cands, win, start, run') && Ends(cands, win, start, r', run')
    ensures run == run' && r == r'
  {
    NoLonger(cands, win, start, r, run, run');
    NoLonger(cands, win, start, r', run', run);
    SameRun(cands, win, start, run, run');
    SameEnd(cands, win, start, r, r', run);
  }

  lemma SameRun(cands: seq<Candidate>, win: Window, start: Totals, run: seq<Move>, other: seq<Move>)
    requires start.Keys == win.workbook.Keys && |run| == |other|
    requires GreedyRun(cands, win, start, run) && GreedyRun(cands, win, start, other)
    ensures run == other
  {
    RunsAgree(cands, win, start, run, other, |run|);
    AgreeMeans(run, other, |run|);
    assert run[..|run|] == run && other[..|run|] == other;
  }

  lemma Continues(cands: seq<Candidate>, win: Window, start: Totals, run: seq<Move>, other: seq<Move>)
    requires start.Keys == win.workbook.Keys && |run| < |other|
    requires GreedyRun(cands, win, start, run) && GreedyRun(cands, win, start, other)
    ensures GreedyStep(cands, win, After(start, run), run, other[|run|])
  {
    RunsAgree(cands, win, start, run, other, |run|);
    AgreeMeans(run, other, |run|);
    RunUpTo(cands, win, start, other, |run|);
    assert other[..|run|] == run[..|run|] == run;
  }

  lemma NoLonger(cands: seq<Candidate>, win: Window, start: Totals, r: Outcome, run: seq<Move>, other: seq<Move>)
    requires Covers(win, start) && Ends(cands, win, start, r, run)
    requires GreedyRun(cands, win, start, run) && GreedyRun(cands, win, start, other)
    ensures |other| <= |run|
  {
    if |other| > |run| {
      Continues(cands, win, start, run, other);
      NothingFollows(cands, win, start, r, run, other[|run|]);
    }
  }

  predicate StopsShort(r: Outcome) {
    r.NoCapacity? || r.UnorderableTie?
  }

  /** The function stops short exactly when some source day still fails. */
  lemma StopsShortIff(cands: seq<Candidate>, win: Window, start: Totals, r: Outcome, run: seq<Move>)
    requires Covers(win, start) && Ends(cands, win, start, r, run)
    ensures StopsShort(r) <==> !SourcesClear(cands, win, After(start, run))
  {
    assert run == [] ==> After(start, run) == start;
  }

  lemma SameStop(cands: seq<Candidate>, win: Window, start: Totals, r: Outcome, r': Outcome, run: seq<Move>)
    requires Covers(win, start) && Ends(cands, win, start, r, run) && Ends(cands, win, start, r', run)
    requires StopsShort(r) && StopsShort(r')
    ensures r == r'
  {
    OneStopDay(cands, win, After(start, run), r.day, r'.day);
  }

  lemma SameEnd(cands: seq<Candidate>, win: Window, start: Totals, r: Outcome, r': Outcome, run: seq<Move>)
    requires Covers(win, start) && Ends(cands, win, start, r, run) && Ends(cands, win, start, r', run)
    ensures r == r'
  {
    StopsShortIff(cands, win, start, r, run);
    StopsShortIff(cands, win, start, r', run);
    if StopsShort(r) {
      SameStop(cands, win, start, r, r', run);
    } else {
      FullPassFails(cands, win, start, r, run);
      FullPassFails(cands, win, start, r', run);
    }
  }

  /** What a full pass ends with, by the days that fail then. */
  lemma FullPassFails(cands: seq<Candidate>, win: Window, start: Totals, r: Outcome, run: seq<Move>)
    requires Covers(win, start) && Ends(cands, win, start, r, run) && !StopsShort(r)
    ensures var failing := FailingDays(win, After(start, run), win.days);
            r == if failing != [] then NotCleared(failing)
                 else if run == [] then EmptySelection
                 else Selected(run, FailingDays(win, start, win.days), [])
  {
    assert run == [] ==> After(start, run) == start;
    if !r.NotCleared? {
      assert forall k :: 0 <= k < |win.days| ==> win.days[k] in start;
      NoFailingDays(win, After(start, run), win.days);
    }
  }

  lemma {:induction false} NoFailingDays(win: Window, t: Totals, days: seq<int>)
    requires t.Keys == win.workbook.Keys
    requires forall k :: 0 <= k < |days| ==> days[k] in t && !Failing(win, t, days[k])
    ensures FailingDays(win, t, days) == []
  {
    if days != [] {
      NoFailingDays(win, t, days[1..]);
    }
  }

  // ---------------------------------------------------------------- a staying move that is written

  const STAYING := Candidate(0, 5, "A", "S", Amount(-1, 30000), [5], [1])
  const LEAVING := Candidate(1, 5, "B", "S", Amount(1, -30000), [9], [2])

  /** Day 5 is one unit over. The candidate that would take a unit back ranks first, for its amount, and stays;
      then the other one leaves the window, and the run is selected. */
  lemma StayingMoveIsSelected()
    ensures var cands, win := [STAYING, LEAVING], Window([5], map[5 := Amount(0, 0)], 1.0);
            var start, run := map[5 := Amount(1, -30000)], [Move(STAYING, 5), Move(LEAVING, 9)];
            && Covers(win, start) && DistinctIndexes(cands)
            && GreedyRun(cands, win, start, run) && Ends(cands, win, start, Selected(run, [5], []), run)
  {
    var cands, win := [STAYING, LEAVING], Window([5], map[5 := Amount(0, 0)], 1.0);
    var start: Totals := map[5 := Amount(1, -30000)];
    var stay, leave := Move(STAYING, 5), Move(LEAVING, 9);
    assert 5 in win.days && start.Keys == (set d | d in win.days);
    FitsIsNotOver(1, 0, 1.0);
    FitsIsNotOver(-30000, 0, 1.0);
    FitsIsNotOver(0, 0, 1.0);
    StayingStep(cands, win, start, stay);
    assert ApplyMove(start, stay) == start;
    LeavingStep(cands, win, start, [stay], leave);
    assert After(start, []) == start && [stay][..0] == [] && After(start, [stay]) == start;
    assert [stay, leave][..1] == [stay];
    assert ApplyMove(start, leave)[5] == Amount(0, 0);
    assert After(start, [stay, leave]) == ApplyMove(start, leave);
  }

  lemma StayingStep(cands: seq<Candidate>, win: Window, t: Totals, m: Move)
    requires cands == [STAYING, LEAVING] && win == Window([5], map[5 := Amount(0, 0)], 1.0)
    requires t == map[5 := Amount(1, -30000)] && m == Move(STAYING, 5)
    ensures GreedyStep(cands, win, t, [], m)
  {
    FitsIsNotOver(1, 0, 1.0);
    FitsIsNotOver(-30000, 0, 1.0);
    assert Overage(win, t, 5) == (1, 0);
    assert Feasible(win, t, STAYING, 5) && Feasible(win, t, LEAVING, 9);
    assert Scored(cands, win, t, [], 5, STAYING);
    assert Contribution(STAYING, (1, 0)) == -10000 && Contribution(LEAVING, (1, 0)) == -20000;
  }

  lemma LeavingStep(cands: seq<Candidate>, win: Window, t: Totals, done: seq<Move>, m: Move)
    requires cands == [STAYING, LEAVING] && win == Window([5], map[5 := Amount(0, 0)], 1.0)
    requires t == map[5 := Amount(1, -30000)] && done == [Move(STAYING, 5)] && m == Move(LEAVING, 9)
    ensures GreedyStep(cands, win, t, done, m)
  {
    FitsIsNotOver(1, 0, 1.0);
    assert done[0].candidate.index == STAYING.index && Used(done, STAYING) && !Used(done, LEAVING);
    assert Feasible(win, t, LEAVING, 9);
    assert Scored(cands, win, t, done, 5, LEAVING);
  }
}
