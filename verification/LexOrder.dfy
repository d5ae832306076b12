/** The order Python puts on strings: code point by code point, a proper prefix first. */
module LexOrder {
  predicate Less(a: string, b: string) {
    b != [] && (a == [] || a[0] < b[0] || (a[0] == b[0] && Less(a[1..], b[1..])))
  }

  lemma {:induction false} Trichotomy(a: string, b: string)
    ensures Less(a, b) || a == b || Less(b, a)
    ensures !(Less(a, b) && Less(b, a)) && !(a == b && Less(a, b))
  {
    if a != [] && b != [] {
      Trichotomy(a[1..], b[1..]);
      if a[0] == b[0] && a[1..] == b[1..] {
        assert a == [a[0]] + a[1..] && b == [b[0]] + b[1..];
      }
    }
  }

  lemma {:induction false} Transitive(a: string, b: string, c: string)
    requires Less(a, b) && Less(b, c)
    ensures Less(a, c)
  {
    if a != [] && a[0] == b[0] == c[0] {
      Transitive(a[1..], b[1..], c[1..]);
    }
  }

  /** `a` comes first: it is a proper prefix, or has the smaller character at the first difference. */
  ghost predicate FirstDifferenceAt(a: string, b: string, k: nat) {
    k <= |a| && k < |b| && (forall i :: 0 <= i < k ==> a[i] == b[i]) && (k == |a| || a[k] < b[k])
  }

  lemma {:induction false} LessMeaning(a: string, b: string)
    ensures Less(a, b) <==> exists k: nat :: FirstDifferenceAt(a, b, k)
  {
    if a == [] || b == [] || a[0] != b[0] {
      if Less(a, b) {
        assert FirstDifferenceAt(a, b, 0);
      }
      if k: nat :| FirstDifferenceAt(a, b, k) {
        assert k == 0;
      }
    } else {
      LessMeaning(a[1..], b[1..]);
      if k: nat :| FirstDifferenceAt(a[1..], b[1..], k) {
        assert forall i :: 0 < i <= k ==> a[i] == a[1..][i - 1] && b[i] == b[1..][i - 1];
        assert FirstDifferenceAt(a, b, k + 1);
      }
      if k: nat :| FirstDifferenceAt(a, b, k) {
        assert FirstDifferenceAt(a[1..], b[1..], k - 1);
      }
    }
  }
}
