/** The staging-and-swap wrappers, scripts/apply_rebuild_snapshot_production_safe.py and
    scripts/apply_storeb_product_identity_quarantine_production_safe.py: check the target's SHA-256,
    copy it to a backup and to a staging file, work on the staging file, check the SHA-256 again,
    replace the target.

    Other processes may write the target at any time. A read or copy that overlaps their writes sees
    one of the contents the target had meanwhile, or a mixture; a mixture of different contents equals
    no whole content. */
module StagingSwap {
  import opened Wrappers
  import opened GuardedWrite

  /** One read of the target: what others write while it runs, and which of the contents it sees. */
  datatype Window<+D> = Window(writes: seq<D>, sees: Option<nat>)

  function Observe<D(==)>(start: D, w: Window<D>): File<D> {
    if forall i :: 0 <= i < |w.writes| ==> w.writes[i] == start then Whole(start)
    else if w.sees.Some? && w.sees.value <= |w.writes| then Whole(([start] + w.writes)[w.sees.value])
    else Torn
  }

  /** Everything other processes write in one run, step by step. */
  datatype Rivals<+D> = Rivals(
    firstCheck: Window<D>, planning: seq<D>, backupCopy: Window<D>, stagingCopy: Window<D>,
    rebuilding: seq<D>, lastCheck: Window<D>, beforeReplace: seq<D>, afterReplace: seq<D>)

  /** How the checks that do not compare contents end: integrity, row counts, sidecar files. */
  datatype Gates = Gates(before: bool, copies: bool, staged: bool, final: bool)

  datatype SwapOutcome = ChangedBeforeStart | GateClosed | RebuildRefused | ChangedMeanwhile | LeftUnverified | Applied

  predicate Replaced(r: SwapOutcome) {
    r.LeftUnverified? || r.Applied?
  }

  /** A content that is replaced by another never comes back. Writing the same content again is no change. */
  ghost predicate NoReturn<D(!new)>(s: seq<D>) {
    forall i, k, j :: 0 <= i < k < j < |s| && s[i] == s[j] ==> s[k] == s[i]
  }

  /** What others write between the two checks. */
  function Between<D>(rv: Rivals<D>): seq<D> {
    rv.planning + rv.backupCopy.writes + rv.stagingCopy.writes + rv.rebuilding
  }

  function UpToLastCheck<D>(rv: Rivals<D>): seq<D> {
    Earlier(rv) + rv.lastCheck.writes
  }

  function Earlier<D>(rv: Rivals<D>): seq<D> {
    rv.firstCheck.writes + Between(rv)
  }

  function BeforeStaging<D>(start: D, rv: Rivals<D>): D {
    Last(start, rv.firstCheck.writes + rv.planning + rv.backupCopy.writes)
  }

  /** The contents of the target up to the end of the last check. */
  function Contents<D>(start: D, rv: Rivals<D>): seq<D> {
    [start] + UpToLastCheck(rv)
  }

  /** `now` extends `was` by some first part of `writes` and nothing else. */
  ghost predicate OnlyThese<D(!new)>(was: seq<D>, writes: seq<D>, now: seq<D>) {
    |was| <= |now| <= |was| + |writes| && now == was + writes[..|now| - |was|]
  }

  /** The target holds `expected` from the end of the first check to the start of the last one. */
  ghost predicate Steady<D>(start: D, rv: Rivals<D>, expected: D) {
    Last(start, rv.firstCheck.writes) == expected && All(Between(rv), expected)
  }

  ghost predicate All<D>(writes: seq<D>, x: D) {
    forall i :: 0 <= i < |writes| ==> writes[i] == x
  }

  /** Both checks of a run see `expected`. */
  predicate ChecksPass<D(==)>(start: D, rv: Rivals<D>, expected: D) {
    && Observe(start, rv.firstCheck) == Whole(expected)
    && Observe(Last(start, Earlier(rv)), rv.lastCheck) == Whole(expected)
  }

  function BackupOf<D(==)>(start: D, rv: Rivals<D>): File<D> {
    Observe(Last(start, rv.firstCheck.writes + rv.planning), rv.backupCopy)
  }

  function StagingOf<D(==)>(start: D, rv: Rivals<D>): File<D> {
    Observe(BeforeStaging(start, rv), rv.stagingCopy)
  }

  function Last<D>(start: D, writes: seq<D>): D {
    if writes == [] then start else writes[|writes| - 1]
  }

  /** Where in `[start] + writes` a read that returned a whole content looked. */
  ghost function Seen<D>(start: D, w: Window<D>): (k: nat)
    ensures k <= |w.writes|
  {
    if !(forall i :: 0 <= i < |w.writes| ==> w.writes[i] == start) && w.sees.Some? && w.sees.value <= |w.writes|
    then w.sees.value else 0
  }

  lemma SeenInContents<D(!new)>(start: D, w: Window<D>, before: seq<D>, after: seq<D>, expected: D)
    requires Observe(start, w) == Whole(expected)
    ensures var all := before + [start] + w.writes + after;
            |before| + Seen(start, w) < |all| && all[|before| + Seen(start, w)] == expected
  {
    var all := before + [start] + w.writes + after;
    assert ([start] + w.writes)[Seen(start, w)] == expected;
    assert all[|before| + Seen(start, w)] == ([start] + w.writes)[Seen(start, w)];
  }

  ghost predicate Holds<D>(all: seq<D>, from: nat, to: nat, expected: D) {
    to < |all| && forall k :: from <= k <= to ==> all[k] == expected
  }

  /** Two equal reads of a file no content returns to enclose that content only. */
  lemma EqualReadsEncloseNoChange<D(!new)>(
    start: D, first: Window<D>, between: seq<D>, last: Window<D>, expected: D)
    requires NoReturn([start] + (first.writes + between + last.writes))
    requires Observe(start, first) == Whole(expected)
    requires Observe(Last(start, first.writes + between), last) == Whole(expected)
    ensures Last(start, first.writes) == expected && All(between, expected)
    ensures Last(start, first.writes + between) == expected
    ensures All(last.writes[..Seen(expected, last)], expected)
  {
    var all := [start] + (first.writes + between + last.writes);
    BetweenTheReads(start, first, between, last, expected);
    Positions(start, first.writes, between, last.writes, all);
    HeldInside(start, first.writes, between, last.writes, all, Seen(expected, last), expected);
  }

  lemma BetweenTheReads<D(!new)>(start: D, first: Window<D>, between: seq<D>, last: Window<D>, expected: D)
    requires NoReturn([start] + (first.writes + between + last.writes))
    requires Observe(start, first) == Whole(expected)
    requires Observe(Last(start, first.writes + between), last) == Whole(expected)
    ensures var earlier := first.writes + between;
            Holds([start] + (earlier + last.writes), |first.writes|,
                  |earlier| + Seen(Last(start, earlier), last), expected)
  {
    var earlier := first.writes + between;
    var all := [start] + (earlier + last.writes);
    var current := Last(start, earlier);
    var before := ([start] + earlier)[..|earlier|];
    assert [start] + earlier == before + [current];
    assert all == [] + [start] + first.writes + (between + last.writes);
    assert all == before + [current] + last.writes + [];
    SeenInContents(start, first, [], between + last.writes, expected);
    SeenInContents(current, last, before, [], expected);
    SameBetween(all, Seen(start, first), |before| + Seen(current, last));
  }

  lemma HeldInside<D>(start: D, first: seq<D>, between: seq<D>, last: seq<D>, all: seq<D>, seen: nat, expected: D)
    requires all == [start] + (first + between + last) && seen <= |last|
    requires Holds(all, |first|, |first + between| + seen, expected)
    ensures All(between, expected) && All(last[..seen], expected)
  {
    forall k | 0 <= k < |between| ensures between[k] == expected {
      assert all[|first| + 1 + k] == between[k];
    }
    forall k | 0 <= k < seen ensures last[..seen][k] == expected {
      assert all[|first + between| + 1 + k] == last[k];
    }
  }

  lemma SameBetween<D(!new)>(all: seq<D>, i: nat, j: nat)
    requires NoReturn(all) && i <= j < |all| && all[i] == all[j]
    ensures forall k :: i <= k <= j ==> all[k] == all[i]
  {
  }

  lemma Positions<D>(start: D, first: seq<D>, between: seq<D>, last: seq<D>, all: seq<D>)
    requires all == [start] + (first + between + last)
    ensures all[|first|] == Last(start, first)
    ensures all[|first + between|] == Last(start, first + between)
  {
  }

  lemma MatchingChecksMeanSteady<D(!new)>(start: D, rv: Rivals<D>, expected: D)
    requires NoReturn(Contents(start, rv)) && ChecksPass(start, rv, expected)
    ensures Steady(start, rv, expected)
    ensures Last(start, Earlier(rv)) == expected && All(rv.lastCheck.writes[..Seen(expected, rv.lastCheck)], expected)
  {
    EqualReadsEncloseNoChange(start, rv.firstCheck, Between(rv), rv.lastCheck, expected);
  }

  /** Copies made while the target holds `expected` are copies of it. */
  lemma SteadyCopies<D>(start: D, rv: Rivals<D>, expected: D)
    requires Steady(start, rv, expected)
    ensures BackupOf(start, rv) == Whole(expected) && StagingOf(start, rv) == Whole(expected)
    ensures Last(start, Earlier(rv)) == expected
  {
    var fc, pl, bc, sc := rv.firstCheck.writes, rv.planning, rv.backupCopy.writes, rv.stagingCopy.writes;
    var all := Between(rv);
    assert all == pl + (bc + sc + rv.rebuilding) && all == (pl + bc) + (sc + rv.rebuilding);
    assert forall i :: 0 <= i < |pl| ==> pl[i] == all[i];
    assert forall i :: 0 <= i < |bc| ==> bc[i] == all[|pl| + i];
    assert forall i :: 0 <= i < |sc| ==> sc[i] == all[|pl| + |bc| + i];
    LastSteady(start, fc, pl, expected);
    LastSteady(start, fc + pl, bc, expected);
    LastSteady(start, fc, all, expected);
  }

  lemma LastSteady<D>(start: D, first: seq<D>, second: seq<D>, expected: D)
    requires Last(start, first) == expected && All(second, expected)
    ensures Last(start, first + second) == expected
  {
    LastOfBoth(start, first, second);
  }

  /** `rv` places the steps of a run in the history `h` so that both checks pass. */
  ghost predicate Passes<D(!new)>(h: seq<D>, rv: Rivals<D>, expected: D) {
    h != [] && Contents(h[0], rv) == h && ChecksPass(h[0], rv, expected)
  }

  /** Wherever the steps fall in `h`, checks that pass mean copies of the expected content. */
  ghost predicate AlwaysSound<D(!new)>(h: seq<D>) {
    forall rv: Rivals<D>, expected: D :: Passes(h, rv, expected) ==>
      BackupOf(h[0], rv) == Whole(expected) && StagingOf(h[0], rv) == Whole(expected)
  }

  /** The two checks are sound on a history if and only if no content of it is left and returned to. */
  lemma SoundIffNoReturn<D(!new)>(h: seq<D>)
    requires h != []
    ensures AlwaysSound(h) <==> NoReturn(h)
  {
    if NoReturn(h) {
      forall rv: Rivals<D>, expected: D | Passes(h, rv, expected)
        ensures BackupOf(h[0], rv) == Whole(expected) && StagingOf(h[0], rv) == Whole(expected)
      {
        MatchingChecksMeanSteady(h[0], rv, expected);
        SteadyCopies(h[0], rv, expected);
      }
    } else {
      var i, k, j :| 0 <= i < k < j < |h| && h[i] == h[j] && h[k] != h[i];
      ReturnFoolsBothChecks(h, i, k, j);
    }
  }

  /** A run whose checks look at the two ends of a return and whose backup is made in between. */
  ghost function Fooled<D>(h: seq<D>, i: nat, k: nat, j: nat): Rivals<D>
    requires i < k < j < |h|
  {
    var quiet := Window([], None);
    Rivals(Window(h[1..i + 1], Some(i)), h[i + 1..k + 1], quiet, quiet, h[k + 1..j + 1],
           Window(h[j + 1..], Some(0)), [], [])
  }

  lemma FooledParts<D>(h: seq<D>, i: nat, k: nat, j: nat)
    requires i < k < j < |h|
    ensures var rv := Fooled(h, i, k, j);
            && rv.firstCheck.writes + rv.planning == h[1..k + 1]
            && Earlier(rv) == h[1..j + 1]
            && Contents(h[0], rv) == h
  {
    var rv := Fooled(h, i, k, j);
    Adjacent(h, 1, i + 1, k + 1);
    Adjacent(h, i + 1, k + 1, j + 1);
    Adjacent(h, 1, i + 1, j + 1);
    Adjacent(h, 1, j + 1, |h|);
    assert Between(rv) == h[i + 1..k + 1] + h[k + 1..j + 1];
    assert [h[0]] + h[1..|h|] == h && h[j + 1..|h|] == h[j + 1..];
  }

  lemma Adjacent<D>(h: seq<D>, a: nat, b: nat, c: nat)
    requires a <= b <= c <= |h|
    ensures h[a..b] + h[b..c] == h[a..c]
  {
  }

  lemma FooledPasses<D(!new)>(h: seq<D>, i: nat, k: nat, j: nat)
    requires i < k < j < |h| && h[i] == h[j]
    ensures Passes(h, Fooled(h, i, k, j), h[i]) && BackupOf(h[0], Fooled(h, i, k, j)) == Whole(h[k])
  {
    FooledParts(h, i, k, j);
    assert ([h[0]] + h[1..i + 1])[i] == h[i];
  }

  lemma ReturnFoolsBothChecks<D(!new)>(h: seq<D>, i: nat, k: nat, j: nat)
    requires i < k < j < |h| && h[i] == h[j] && h[k] != h[i]
    ensures !AlwaysSound(h)
  {
    FooledPasses(h, i, k, j);
  }

  /** The database file, as every process sees it. */
  class SharedTarget<D(==, !new)> {
    var content: D
    /** Every content so far, oldest first. */
    ghost var history: seq<D>

    ghost predicate Valid()
      reads this
    {
      history != [] && history[|history| - 1] == content
    }

    constructor (start: D)
      ensures Valid() && content == start && history == [start]
    {
      content, history := start, [start];
    }

    /** Since it held `start` with history `was`, the target went through exactly `writes`. */
    ghost predicate Since(was: seq<D>, start: D, writes: seq<D>)
      reads this
    {
      Valid() && history == was + writes && content == Last(start, writes)
    }

    method Write(writes: seq<D>, ghost was: seq<D>, ghost start: D, ghost before: seq<D>)
      requires Since(was, start, before)
      modifies this
      ensures Since(was, start, before + writes)
    {
      LastOfBoth(start, before, writes);
      assert was + before + writes == was + (before + writes);
      if writes != [] {
        content := writes[|writes| - 1];
        history := history + writes;
      }
    }

    /** `_sha256(target_db)` or `_copy_or_raise(target_db, ...)` while others write. */
    method Read(w: Window<D>, ghost was: seq<D>, ghost start: D, ghost before: seq<D>) returns (seen: File<D>)
      requires Since(was, start, before)
      modifies this
      ensures Since(was, start, before + w.writes)
      ensures seen == Observe(Last(start, before), w)
    {
      seen := Observe(content, w);
      Write(w.writes, was, start, before);
    }

    /** From the first check to the checked staging file. `rebuild` is the work on the staging file:
        `None` when it raises or a staging check refuses its result. */
    method Stage(expected: D, rebuild: File<D> -> Option<D>, rv: Rivals<D>, gates: Gates)
      returns (stop: Option<SwapOutcome>, backup: Option<File<D>>, staged: Option<D>)
      requires Valid()
      modifies this
      ensures Valid()
      ensures stop.Some? ==> !Replaced(stop.value) && OnlyThese(old(history), UpToLastCheck(rv), history)
      ensures stop.None? ==>
                && Observe(old(content), rv.firstCheck) == Whole(expected)
                && Since(old(history), old(content), Earlier(rv))
                && backup == Some(BackupOf(old(content), rv))
                && staged == rebuild(StagingOf(old(content), rv)) && staged.Some?
      ensures stop.None? <==>
                && Observe(old(content), rv.firstCheck) == Whole(expected)
                && gates.before && gates.copies && gates.staged
                && rebuild(StagingOf(old(content), rv)).Some?
    {
      backup, staged := None, None;
      ghost var was, start := history, content;
      ghost var first, second, third, fourth := Parts(was, rv);
      var seen := Read(rv.firstCheck, was, start, []);
      assert [] + first == first;
      if seen != Whole(expected) || !gates.before {
        return Some(if seen != Whole(expected) then ChangedBeforeStart else GateClosed), backup, staged;
      }
      Write(rv.planning, was, start, first);
      var copied := Read(rv.backupCopy, was, start, second);
      backup := Some(copied);
      var staging := Read(rv.stagingCopy, was, start, third);
      if !gates.copies {
        return Some(GateClosed), backup, staged;
      }
      staged := rebuild(staging);
      Write(rv.rebuilding, was, start, fourth);
      if staged.None? || !gates.staged {
        return Some(RebuildRefused), backup, staged;
      }
      stop := None;
    }

    /** The wrapper with `--apply`. */
    method SwapIn(expected: D, rebuild: File<D> -> Option<D>, rv: Rivals<D>, gates: Gates)
      returns (r: SwapOutcome, backup: Option<File<D>>, staged: Option<D>)
      requires Valid()
      modifies this
      ensures Valid()
      // Nothing but others' writes happens to the target unless it is replaced.
      ensures !Replaced(r) ==> OnlyThese(old(history), UpToLastCheck(rv), history)
      // A replacement is the validated work on the pre-image, the backup is the pre-image, and what is
      // overwritten is the pre-image and what others wrote after the last check looked.
      ensures Replaced(r) && NoReturn(Contents(old(content), rv)) ==>
                && Steady(old(content), rv, expected)
                && backup == Some(Whole(expected))
                && staged.Some? && staged == rebuild(Whole(expected))
                && All(rv.lastCheck.writes[..Seen(expected, rv.lastCheck)], expected)
      ensures Replaced(r) ==>
                && staged.Some?
                && history == old(history) + (UpToLastCheck(rv) + rv.beforeReplace + [staged.value] + rv.afterReplace)
      ensures Replaced(r) <==>
                && Observe(old(content), rv.firstCheck) == Whole(expected)
                && gates.before && gates.copies && gates.staged
                && rebuild(StagingOf(old(content), rv)).Some?
                && Observe(Last(old(content), Earlier(rv)), rv.lastCheck) == Whole(expected)
      ensures r.Applied? ==> gates.final
      ensures r.LeftUnverified? ==> !gates.final
      // A run whose target holds still goes through.
      ensures (&& Steady(old(content), rv, expected) && ChecksPass(old(content), rv, expected)
               && gates == Gates(true, true, true, true) && rebuild(Whole(expected)).Some?)
              ==> r.Applied?
    {
      ghost var was, start := history, content;
      if Steady(start, rv, expected) {
        SteadyCopies(start, rv, expected);
      }
      var stop;
      stop, backup, staged := Stage(expected, rebuild, rv, gates);
      if stop.Some? {
        return stop.value, backup, staged;
      }
      var seen := Read(rv.lastCheck, was, start, Earlier(rv));
      if seen != Whole(expected) {
        PartOnly(was, UpToLastCheck(rv), [], UpToLastCheck(rv));
        return ChangedMeanwhile, backup, staged;
      }
      if NoReturn(Contents(start, rv)) {
        MatchingChecksMeanSteady(start, rv, expected);
        SteadyCopies(start, rv, expected);
      }
      ghost var before := UpToLastCheck(rv) + rv.beforeReplace;
      Write(rv.beforeReplace, was, start, UpToLastCheck(rv));
      Write([staged.value], was, start, before);
      Write(rv.afterReplace, was, start, before + [staged.value]);
      r := if gates.final then SwapOutcome.Applied else LeftUnverified;
    }
  }

  /** Where in the sequence of others' writes each step of the wrapper stands. */
  lemma Parts<D(!new)>(was: seq<D>, rv: Rivals<D>)
    returns (first: seq<D>, second: seq<D>, third: seq<D>, fourth: seq<D>)
    ensures first == rv.firstCheck.writes && second == first + rv.planning
    ensures third == second + rv.backupCopy.writes && fourth == third + rv.stagingCopy.writes
    ensures Earlier(rv) == fourth + rv.rebuilding
    ensures OnlyThese(was, UpToLastCheck(rv), was + first)
    ensures OnlyThese(was, UpToLastCheck(rv), was + fourth)
    ensures OnlyThese(was, UpToLastCheck(rv), was + Earlier(rv))
  {
    first := rv.firstCheck.writes;
    second := first + rv.planning;
    third := second + rv.backupCopy.writes;
    fourth := third + rv.stagingCopy.writes;
    assert Earlier(rv) == fourth + rv.rebuilding;
    PartOnly(was, first, Between(rv) + rv.lastCheck.writes, UpToLastCheck(rv));
    PartOnly(was, fourth, rv.rebuilding + rv.lastCheck.writes, UpToLastCheck(rv));
    PartOnly(was, Earlier(rv), rv.lastCheck.writes, UpToLastCheck(rv));
  }

  lemma PartOnly<D(!new)>(was: seq<D>, part: seq<D>, rest: seq<D>, all: seq<D>)
    requires all == part + rest
    ensures OnlyThese(was, all, was + part)
  {
    assert all[..|part|] == part;
  }

  lemma LastOfBoth<D>(start: D, first: seq<D>, second: seq<D>)
    ensures Last(start, first + second) == Last(Last(start, first), second)
  {
  }
}
