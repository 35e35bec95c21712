/** Sequences without repetition. */
module Seqs {

  ghost predicate Distinct<T>(q: seq<T>) {
    forall i, j :: 0 <= i < j < |q| ==> q[i] != q[j]
  }

  /** At most `n` different numbers lie below `n`. */
  lemma {:induction false} DistinctBelow(q: seq<int>, n: nat)
    requires Distinct(q) && forall i :: 0 <= i < |q| ==> 0 <= q[i] < n
    ensures |q| <= n
    decreases n
  {
    assert q != [] ==> q[0] < n;
    if n > 0 {
      if i :| 0 <= i < |q| && q[i] == n - 1 {
        DistinctBelow(q[..i] + q[i + 1..], n - 1);
      } else {
        DistinctBelow(q, n - 1);
      }
    }
  }

  /** `list_rm`: unlinks `x`. */
  function Without<T(==)>(q: seq<T>, x: T): seq<T> {
    if q == [] then [] else if q[0] == x then q[1..] else [q[0]] + Without(q[1..], x)
  }

  lemma {:induction false} WithoutElements<T>(q: seq<T>, x: T)
    requires Distinct(q)
    ensures Distinct(Without(q, x))
    ensures forall y :: y in Without(q, x) <==> y in q && y != x
  {
    if q != [] {
      assert Distinct(q[1..]);
      WithoutElements(q[1..], x);
      assert q == [q[0]] + q[1..];
      assert q[0] !in q[1..];
      if q[0] != x {
        var r := Without(q[1..], x);
        assert Without(q, x) == [q[0]] + r;
        assert q[0] !in r;
      }
    }
  }

  lemma Prepend<T>(q: seq<T>, x: T)
    requires Distinct(q) && x !in q
    ensures Distinct([x] + q) && forall y :: y in [x] + q <==> y == x || y in q
  {
  }

  lemma Tail<T>(q: seq<T>)
    requires Distinct(q) && q != []
    ensures Distinct(q[1..]) && forall y :: y in q[1..] <==> y in q && y != q[0]
  {
    assert q == [q[0]] + q[1..];
  }
}
