/** Lists with the same elements in another order. */
module Permutations {
  ghost predicate NoRepeat<T>(s: seq<T>) {
    forall i, j :: 0 <= i < j < |s| ==> s[i] != s[j]
  }

  lemma {:induction false} RepeatIsCounted<T>(s: seq<T>)
    ensures NoRepeat(s) <==> forall x :: x in s ==> multiset(s)[x] == 1
  {
    if s != [] {
      var init, last := s[..|s| - 1], s[|s| - 1];
      assert s == init + [last];
      RepeatIsCounted(init);
      if NoRepeat(s) {
        assert last !in init;
      } else if forall x :: x in s ==> multiset(s)[x] == 1 {
        assert multiset(s)[last] == multiset(init)[last] + 1;
        assert last !in multiset(init);
        forall x | x in init ensures multiset(init)[x] == 1 {
          assert x in s;
        }
      }
    }
  }

  lemma LastOfBoth<T>(a: seq<T>, b: seq<T>)
    requires b != []
    ensures (a + b)[..|a + b| - 1] == a + b[..|b| - 1] && (a + b)[|a + b| - 1] == b[|b| - 1]
  {
  }

  lemma LastCounted<T>(s: seq<T>)
    requires s != []
    ensures multiset(s) == multiset(s[..|s| - 1]) + multiset{s[|s| - 1]}
  {
    assert s == s[..|s| - 1] + [s[|s| - 1]];
  }

  lemma SameElements<T>(a: seq<T>, b: seq<T>)
    requires multiset(a) == multiset(b)
    ensures NoRepeat(a) <==> NoRepeat(b)
    ensures forall x :: x in a <==> x in b
    ensures |a| == |b|
  {
    RepeatIsCounted(a);
    RepeatIsCounted(b);
    forall x ensures x in a <==> x in b {
      assert x in a <==> x in multiset(a);
      assert x in b <==> x in multiset(b);
    }
    assert |a| == |multiset(a)| == |multiset(b)| == |b|;
  }

  /** The last element of `b`, taken out of `a`. */
  lemma TakeOut<T>(a: seq<T>, b: seq<T>) returns (pre: seq<T>, suf: seq<T>)
    requires multiset(a) == multiset(b) && b != []
    ensures a == pre + [b[|b| - 1]] + suf
    ensures multiset(pre + suf) == multiset(b[..|b| - 1])
  {
    var init, last := b[..|b| - 1], b[|b| - 1];
    assert b == init + [last];
    SameElements(a, b);
    assert last in b;
    var k :| 0 <= k < |a| && a[k] == last;
    pre, suf := a[..k], a[k + 1..];
    assert a == pre + [last] + suf;
    Cancel(multiset(pre) + multiset(suf), multiset(init), last);
  }

  lemma Cancel<T>(a: multiset<T>, b: multiset<T>, x: T)
    requires a + multiset{x} == b + multiset{x}
    ensures a == b
  {
    forall y ensures a[y] == b[y] {
      assert (a + multiset{x})[y] == (b + multiset{x})[y];
    }
  }

  lemma Regroup<T>(a: multiset<T>, b: multiset<T>, c: multiset<T>)
    ensures (a + b) + c == a + (b + c) == (a + c) + b
  {
  }
}
