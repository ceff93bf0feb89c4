/** The order in which JavaScript's `sort` puts strings: code unit by code unit,
    a proper prefix first. */
module Ordering {

  predicate Before(a: string, b: string) {
    if a == [] then b != []
    else b != [] && (a[0] < b[0] || (a[0] == b[0] && Before(a[1..], b[1..])))
  }

  /** The first place where the two differ decides. */
  lemma {:induction false} BeforeExactly(a: string, b: string)
    ensures Before(a, b) <==>
              exists k :: 0 <= k <= |a| && k < |b| && DiffersAt(a, b, k) && (k == |a| || a[k] < b[k])
  {
    if a != [] && b != [] && a[0] == b[0] {
      BeforeExactly(a[1..], b[1..]);
      if k :| 0 <= k <= |a[1..]| && k < |b[1..]| && DiffersAt(a[1..], b[1..], k) && (k == |a[1..]| || a[1..][k] < b[1..][k]) {
        assert DiffersAt(a, b, k + 1);
      }
      if k :| 0 <= k <= |a| && k < |b| && DiffersAt(a, b, k) && (k == |a| || a[k] < b[k]) {
        assert DiffersAt(a[1..], b[1..], k - 1);
      }
    } else if b != [] {
      assert DiffersAt(a, b, 0);
    }
  }

  /** Both have k characters before this place, and they are the same. */
  predicate DiffersAt(a: string, b: string, k: int) {
    0 <= k <= |a| && k <= |b| && (forall i :: 0 <= i < k ==> a[i] == b[i]) && (k < |a| && k < |b| ==> a[k] != b[k])
  }

  lemma {:induction false} BeforeIrreflexive(a: string)
    ensures !Before(a, a)
  {
    if a != [] { BeforeIrreflexive(a[1..]); }
  }

  lemma {:induction false} BeforeTransitive(a: string, b: string, c: string)
    requires Before(a, b) && Before(b, c)
    ensures Before(a, c)
  {
    if a != [] && a[0] == b[0] == c[0] { BeforeTransitive(a[1..], b[1..], c[1..]); }
  }

  lemma {:induction false} BeforeTotal(a: string, b: string)
    ensures a == b || Before(a, b) || Before(b, a)
  {
    if a != [] && b != [] && a[0] == b[0] {
      BeforeTotal(a[1..], b[1..]);
      assert a == [a[0]] + a[1..] && b == [b[0]] + b[1..];
    }
  }

  /** `[a, b].sort()` */
  function SortPair(a: string, b: string): (r: seq<string>)
    ensures |r| == 2 && multiset(r) == multiset{a, b}
    ensures a != b ==> Before(r[0], r[1])
  {
    BeforeTotal(a, b);
    if Before(b, a) then [b, a] else [a, b]
  }
}
