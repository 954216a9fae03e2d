/** Matrices of integers, dot products and two's complement wrap-around. */
module Matrices {

  type Matrix = seq<seq<int>>

  predicate Square(m: Matrix, n: nat) {
    |m| == n && forall i | 0 <= i < n :: |m[i]| == n
  }

  /** The sum of x[i] * w[i][j] over the first k rows of w. */
  function Dot(x: seq<int>, w: Matrix, j: nat, k: nat): (r: int)
    requires k <= |x| && k <= |w|
    requires forall i | 0 <= i < k :: j < |w[i]|
  {
    if k == 0 then 0 else Dot(x, w, j, k - 1) + w[k - 1][j] * x[k - 1]
  }

  /** The row vector x times the matrix w. */
  function RowProduct(x: seq<int>, w: Matrix): (r: seq<int>)
    requires Square(w, |x|)
  {
    seq(|x|, j requires 0 <= j < |x| => Dot(x, w, j, |x|))
  }

  /** The register contents that a value leaves in an accumulator holding m values. */
  function Wrap(v: int, m: int): (r: int)
    requires m > 0
    ensures 0 <= r < m
  {
    v % m
  }

  lemma WrapShift(v: int, k: int, m: int)
    requires m > 0
    ensures Wrap(v + k * m, m) == Wrap(v, m)
  {
    var q, r := v / m, v % m;
    assert v + k * m == (q + k) * m + r;
    QuotientUnique(v + k * m, q + k, r, m);
  }

  lemma QuotientUnique(v: int, q: int, r: int, m: int)
    requires m > 0 && 0 <= r < m && v == q * m + r
    ensures v / m == q && v % m == r
  {
    var d := v / m - q;
    assert d * m == r - v % m;
  }

  /** Wrapping a partial sum before the next addition does not change the wrapped total. */
  lemma WrapAdd(a: int, b: int, m: int)
    requires m > 0
    ensures Wrap(Wrap(a, m) + b, m) == Wrap(a + b, m)
  {
    assert a + b == (Wrap(a, m) + b) + (a / m) * m;
    WrapShift(Wrap(a, m) + b, a / m, m);
  }
}
