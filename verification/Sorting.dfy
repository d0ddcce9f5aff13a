/** Keys in ascending order, as an ordered map iterates them. */
module Sorting {

  ghost predicate TotalOrder<K(!new)>(less: (K, K) -> bool) {
    && (forall a :: !less(a, a))
    && (forall a, b, c :: less(a, b) && less(b, c) ==> less(a, c))
    && (forall a, b :: a == b || less(a, b) || less(b, a))
  }

  predicate Least<K>(k: K, s: set<K>, less: (K, K) -> bool) {
    k in s && forall j :: j in s && j != k ==> less(k, j)
  }

  lemma {:induction false} LeastExists<K(!new)>(s: set<K>, less: (K, K) -> bool)
    requires TotalOrder(less) && s != {}
    ensures exists k :: Least(k, s, less)
  {
    var some :| some in s;
    if s == {some} {
      assert Least(some, s, less);
    } else {
      LeastExists(s - {some}, less);
      var k :| Least(k, s - {some}, less);
      if less(k, some) {
        assert Least(k, s, less);
      } else {
        forall j | j in s && j != some
          ensures less(some, j)
        {
          assert j in s - {some};
        }
        assert Least(some, s, less);
      }
    }
  }

  ghost function Min<K(!new)>(s: set<K>, less: (K, K) -> bool): (k: K)
    requires TotalOrder(less) && s != {}
    ensures Least(k, s, less)
  {
    LeastExists(s, less);
    var k :| Least(k, s, less);
    k
  }

  ghost function Ascending<K(!new)>(s: set<K>, less: (K, K) -> bool): (r: seq<K>)
    requires TotalOrder(less)
    ensures forall k :: k in r <==> k in s
  {
    if s == {} then [] else
      var k := Min(s, less);
      [k] + Ascending(s - {k}, less)
  }

  ghost predicate Sorted<K(!new)>(r: seq<K>, less: (K, K) -> bool) {
    forall i, j :: 0 <= i < j < |r| ==> less(r[i], r[j])
  }

  /** Each key once, in order. */
  lemma {:induction false} AscendingSorted<K(!new)>(s: set<K>, less: (K, K) -> bool)
    requires TotalOrder(less)
    ensures Sorted(Ascending(s, less), less)
  {
    if s != {} {
      var k := Min(s, less);
      var tail := Ascending(s - {k}, less);
      AscendingSorted(s - {k}, less);
      SortedCons(k, tail, s, less);
    }
  }

  lemma SortedCons<K(!new)>(k: K, tail: seq<K>, s: set<K>, less: (K, K) -> bool)
    requires Least(k, s, less) && Sorted(tail, less) && forall x :: x in tail ==> x in s - {k}
    ensures Sorted([k] + tail, less)
  {
    var r := [k] + tail;
    forall i, j | 0 <= i < j < |r|
      ensures less(r[i], r[j])
    {
      assert r[j] == tail[j - 1] && tail[j - 1] in tail;
      if i > 0 { assert less(tail[i - 1], tail[j - 1]); }
    }
  }

  lemma TakeLeast<K(!new)>(r: seq<K>, k: K, rest: set<K>, less: (K, K) -> bool)
    requires TotalOrder(less) && Least(k, rest, less)
    ensures r + Ascending(rest, less) == (r + [k]) + Ascending(rest - {k}, less)
  {
    assert k == Min(rest, less);
    assert r + ([k] + Ascending(rest - {k}, less)) == (r + [k]) + Ascending(rest - {k}, less);
  }

  /** The walk over an ordered map's keys: each once, ascending. */
  method Walk<K(!new,==)>(s: set<K>, less: (K, K) -> bool) returns (r: seq<K>)
    requires TotalOrder(less)
    ensures r == Ascending(s, less) && Sorted(r, less)
    ensures forall k :: k in r <==> k in s
  {
    r := [];
    var rest := s;
    while rest != {}
      invariant r + Ascending(rest, less) == Ascending(s, less)
      decreases rest
    {
      LeastExists(rest, less);
      var k :| k in rest && Least(k, rest, less);
      TakeLeast(r, k, rest, less);
      r := r + [k];
      rest := rest - {k};
    }
    assert r + [] == r;
    AscendingSorted(s, less);
  }

  predicate NatLess(a: nat, b: nat) { a < b }

  /** Lexicographic order of strings. */
  predicate StringLess(a: string, b: string) {
    b != [] && (a == [] || a[0] < b[0] || (a[0] == b[0] && StringLess(a[1..], b[1..])))
  }

  /** The strings agree up to `i`, where `a` ends or has the smaller character. */
  ghost predicate Parts(a: string, b: string, i: nat) {
    && i <= |a| && i < |b| && a[..i] == b[..i]
    && (i == |a| || a[i] < b[i])
  }

  /** Dictionary order: the first difference decides, and a prefix comes first. */
  lemma {:induction false} StringLessExact(a: string, b: string)
    ensures StringLess(a, b) <==> exists i: nat :: Parts(a, b, i)
    decreases |a|
  {
    if a == [] || b == [] || a[0] != b[0] {
      if StringLess(a, b) { assert Parts(a, b, 0); }
      forall i: nat | Parts(a, b, i) ensures i == 0 {
        assert forall j :: 0 <= j < i ==> a[..i][j] == a[j] && b[..i][j] == b[j];
      }
    } else {
      StringLessExact(a[1..], b[1..]);
      if i: nat :| Parts(a[1..], b[1..], i) {
        assert a[..i + 1] == [a[0]] + a[1..][..i] && b[..i + 1] == [b[0]] + b[1..][..i];
        assert Parts(a, b, i + 1);
      }
      if i: nat :| Parts(a, b, i) {
        assert a[1..][..i - 1] == a[..i][1..] && b[1..][..i - 1] == b[..i][1..];
        assert Parts(a[1..], b[1..], i - 1);
      }
    }
  }

  lemma {:induction false} StringTotal(a: string, b: string)
    ensures !StringLess(a, a) && (a == b || StringLess(a, b) || StringLess(b, a))
    decreases |a|
  {
    if a != [] {
      StringTotal(a[1..], if b == [] then [] else b[1..]);
      if b != [] && a[0] == b[0] && a[1..] == b[1..] {
        assert a == [a[0]] + a[1..] && b == [b[0]] + b[1..];
      }
    }
  }

  lemma {:induction false} StringTransitive(a: string, b: string, c: string)
    requires StringLess(a, b) && StringLess(b, c)
    ensures StringLess(a, c)
    decreases |a|
  {
    if a != [] && a[0] == b[0] == c[0] { StringTransitive(a[1..], b[1..], c[1..]); }
  }

  lemma NatOrder()
    ensures TotalOrder(NatLess)
  {
  }
}
