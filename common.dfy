/** Small shared vocabulary: optional values, board positions and listings. */
module Common {

  /** Python's `None` or a value. */
  datatype Option<T> = None | Some(value: T)

  /** A `(row, col)` tuple. */
  type Pos = (int, int)

  /** No element occurs twice. */
  predicate Distinct<T(==)>(s: seq<T>) {
    forall i, j :: 0 <= i < j < |s| ==> s[i] != s[j]
  }

  /** `s` lists every element of `of` exactly once: what `list(a_set)` produces, in some order. */
  predicate IsListing<T(==)>(s: seq<T>, of: set<T>) {
    Distinct(s) && (set i | 0 <= i < |s| :: s[i]) == of
  }

  function Max(a: int, b: int): int { if a >= b then a else b }

  function Min(a: int, b: int): int { if a <= b then a else b }

  /** Python's `xs[:n]` for a non-negative `n`. */
  function Take<T>(xs: seq<T>, n: nat): (r: seq<T>)
    ensures |r| == Min(n, |xs|)
    ensures forall i :: 0 <= i < |r| ==> r[i] == xs[i]
  {
    if |xs| <= n then xs else xs[..n]
  }

  /** A prefix of a duplicate-free sequence is duplicate-free and lists only elements of the original. */
  lemma TakeDistinct<T>(xs: seq<T>, n: nat)
    requires Distinct(xs)
    ensures Distinct(Take(xs, n))
    ensures forall x :: x in Take(xs, n) ==> x in xs
  {
    var r := Take(xs, n);
    forall x | x in r ensures x in xs {
      var i :| 0 <= i < |r| && r[i] == x;
      assert xs[i] == x;
    }
  }

  /** In a duplicate-free sequence every element occurs once. */
  lemma {:induction false} DistinctOccursOnce<T>(a: seq<T>)
    requires Distinct(a)
    ensures forall x :: multiset(a)[x] == if x in a then 1 else 0
  {
    if |a| > 0 {
      var init := a[..|a| - 1];
      assert a == init + [a[|a| - 1]];
      DistinctOccursOnce(init);
      assert a[|a| - 1] !in init;
    }
  }

  /** Two duplicate-free sequences with the same elements are permutations of each other. */
  lemma DistinctSameElements<T>(a: seq<T>, b: seq<T>)
    requires Distinct(a) && Distinct(b)
    requires forall x :: x in a <==> x in b
    ensures multiset(a) == multiset(b)
  {
    DistinctOccursOnce(a);
    DistinctOccursOnce(b);
  }
}
