/** Spreadsheet column letters, as scripts/activate_board_split_v1.py and
    core/integrations/google_ops_board.py compute them, and the cells of one row. */
module ColumnLetters {
  /** The reference: bijective base 26, `A` being one. */
  function Letters(n: nat): (s: string)
    ensures s == "" <==> n == 0
  {
    if n == 0 then "" else Letters((n - 1) / 26) + [(65 + (n - 1) % 26) as char]
  }

  predicate IsLetter(c: char) {
    'A' <= c <= 'Z'
  }

  predicate AllLetters(s: string) {
    forall i :: 0 <= i < |s| ==> IsLetter(s[i])
  }

  function Decode(s: string): nat
    requires AllLetters(s)
  {
    if s == "" then 0 else Decode(s[..|s| - 1]) * 26 + (s[|s| - 1] as int - 64)
  }

  /** `_column_letter` */
  method ColumnLetter(columnNumber: nat) returns (letters: string)
    ensures letters == Letters(columnNumber)
  {
    letters := "";
    var value := columnNumber;
    while value != 0
      invariant Letters(columnNumber) == Letters(value) + letters
    {
      var remainder := (value - 1) % 26;
      letters := [(65 + remainder) as char] + letters;
      value := (value - 1) / 26;
    }
  }

  /** Reading the letters back gives the number. */
  lemma {:induction false} DecodeLetters(n: nat)
    ensures AllLetters(Letters(n)) && Decode(Letters(n)) == n
  {
    if n > 0 {
      var s, q := Letters(n), (n - 1) / 26;
      DecodeLetters(q);
      assert s[..|s| - 1] == Letters(q);
    }
  }

  /** Every word over `A`..`Z` is the name of its number, so the names are all such words, once each. */
  lemma {:induction false} LettersDecode(s: string)
    requires AllLetters(s)
    ensures Letters(Decode(s)) == s
  {
    if s != "" {
      LettersDecode(s[..|s| - 1]);
      var q, d := Decode(s[..|s| - 1]), s[|s| - 1] as int - 64;
      assert (q * 26 + d - 1) / 26 == q && (q * 26 + d - 1) % 26 == d - 1;
      assert s == s[..|s| - 1] + [s[|s| - 1]];
    }
  }

  /** Shorter first, then by the first letter that differs. */
  ghost predicate Shortlex(s: string, t: string) {
    |s| < |t| || (|s| == |t| && exists k :: FirstDifference(s, t, k))
  }

  ghost predicate FirstDifference(s: string, t: string, k: nat) {
    k < |s| && k < |t| && s[..k] == t[..k] && s[k] < t[k]
  }

  lemma NotBothWays(s: string, t: string)
    requires Shortlex(s, t)
    ensures !Shortlex(t, s)
  {
    if |s| == |t| {
      var k: nat :| FirstDifference(s, t, k);
      forall j: nat ensures !FirstDifference(t, s, j) {
        if j < k {
          assert s[..k][j] == s[j] && t[..k][j] == t[j];
        } else if k < j < |s| {
          assert s[..j][k] == s[k] && t[..j][k] == t[k];
        }
      }
    }
  }

  /** Columns stand in the sheet in the order of their names. */
  lemma ShortlexMonotone(m: nat, n: nat)
    ensures m < n <==> Shortlex(Letters(m), Letters(n))
  {
    if m < n {
      Increasing(m, n);
    } else if n < m {
      Increasing(n, m);
      NotBothWays(Letters(n), Letters(m));
    }
  }

  lemma {:induction false} Increasing(m: nat, n: nat)
    requires m < n
    ensures Shortlex(Letters(m), Letters(n))
  {
    if m > 0 {
      var p, q := (m - 1) / 26, (n - 1) / 26;
      var s, t := Letters(m), Letters(n);
      var a, b := Letters(p), Letters(q);
      assert s == a + [s[|a|]] && t == b + [t[|b|]];
      if p == q {
        assert FirstDifference(s, t, |a|);
      } else {
        assert p < q;
        Increasing(p, q);
        if |a| == |b| {
          var k: nat :| FirstDifference(a, b, k);
          assert s[..k] == a[..k] && t[..k] == b[..k];
          assert FirstDifference(s, t, k);
        }
      }
    }
  }

  // ---------------------------------------------------------------- cells

  /** A cell beyond the end of a row is blank. */
  function Cell(row: seq<string>, i: nat): string {
    if i < |row| then row[i] else ""
  }

  function Blanks(n: nat): (r: seq<string>)
    ensures |r| == n && forall i :: 0 <= i < n ==> r[i] == ""
  {
    seq(n, _ => "")
  }

  /** Writing one cell pads the row with blanks when it is too short. */
  function SetCell(row: seq<string>, i: nat, value: string): (r: seq<string>)
    ensures |r| >= |row| && |r| > i
    ensures forall j: nat :: Cell(r, j) == if j == i then value else Cell(row, j)
  {
    if i < |row| then row[i := value] else row + Blanks(i - |row|) + [value]
  }
}
