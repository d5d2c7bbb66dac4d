/** What several parts of the model share. */
module Util {

  datatype Option<T> = None | Some(value: T)

  function Min(a: nat, b: nat): nat { if a < b then a else b }

  ghost predicate NoDup<T>(s: seq<T>) {
    forall i, j :: 0 <= i < j < |s| ==> s[i] != s[j]
  }

  /** A queue without `t`. */
  function Without(q: seq<nat>, t: nat): (r: seq<nat>)
    ensures forall u :: u in r <==> u in q && u != t
  {
    if q == [] then [] else (if q[0] == t then [] else [q[0]]) + Without(q[1..], t)
  }

  lemma {:induction false} WithoutNoDup(q: seq<nat>, t: nat)
    requires NoDup(q)
    ensures NoDup(Without(q, t))
  {
    if q != [] {
      assert forall i, j :: 0 <= i < j < |q[1..]| ==> q[1..][i] == q[i + 1] && q[1..][j] == q[j + 1];
      WithoutNoDup(q[1..], t);
      assert q[0] !in q[1..];
    }
  }

  lemma {:induction false} WithoutAbsent(q: seq<nat>, t: nat)
    requires t !in q
    ensures Without(q, t) == q && Without(q + [t], t) == q
  {
    if q == [] {
      assert Without([t], t) == [] && q + [t] == [t];
    } else {
      assert t !in q[1..] && q == [q[0]] + q[1..] && (q + [t])[1..] == q[1..] + [t];
      WithoutAbsent(q[1..], t);
    }
  }

  lemma AtLeastOnce(k: int, m: int)
    requires k >= 1 && m >= 0
    ensures k * m >= m
  {
  }

  lemma LessMeansBelow(q: int, d: int, q': int, m: int)
    requires 0 <= d < m
    ensures q < q' ==> q * m + d < q' * m
  {
    if q < q' {
      AtLeastOnce(q' - q, m);
      assert (q' - q) * m == q' * m - q * m;
    }
  }

  /** Quotient and remainder are the only ones. */
  lemma SameParts(q: int, d: int, q': int, d': int, m: int)
    requires q * m + d == q' * m + d' && 0 <= d < m && 0 <= d' < m
    ensures q == q' && d == d'
  {
    LessMeansBelow(q, d, q', m);
    LessMeansBelow(q', d', q, m);
  }
}
