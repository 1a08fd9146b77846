/** Finite sums of real-valued terms indexed by 0 .. n-1, summed in index order. */
module Sums {

  /** f(0) + f(1) + ... + f(n-1) */
  function Sum(n: nat, f: nat -> real): real
  {
    if n == 0 then 0.0 else Sum(n - 1, f) + f(n - 1)
  }

  /** Sums of pointwise-equal terms are equal. */
  lemma {:induction false} SumExt(n: nat, f: nat -> real, g: nat -> real)
    requires forall k :: 0 <= k < n ==> f(k) == g(k)
    ensures Sum(n, f) == Sum(n, g)
  {
    if n > 0 {
      SumExt(n - 1, f, g);
    }
  }

  /** A sum of zeros is zero. */
  lemma {:induction false} SumZero(n: nat, f: nat -> real)
    requires forall k :: 0 <= k < n ==> f(k) == 0.0
    ensures Sum(n, f) == 0.0
  {
    if n > 0 {
      SumZero(n - 1, f);
    }
  }

  /** The sum of pointwise sums is the sum of the two sums. */
  lemma {:induction false} SumAdd(n: nat, f: nat -> real, g: nat -> real, h: nat -> real)
    requires forall k :: 0 <= k < n ==> h(k) == f(k) + g(k)
    ensures Sum(n, h) == Sum(n, f) + Sum(n, g)
  {
    if n > 0 {
      SumAdd(n - 1, f, g, h);
    }
  }

  /** A common factor comes out of a sum. */
  lemma {:induction false} SumScale(n: nat, f: nat -> real, c: real, g: nat -> real)
    requires forall k :: 0 <= k < n ==> g(k) == c * f(k)
    ensures Sum(n, g) == c * Sum(n, f)
  {
    if n > 0 {
      SumScale(n - 1, f, c, g);
    }
  }

  /** Every term of h is c times the matching term of f. */
  predicate ScaledBy(n: nat, f: nat -> real, c: real, h: nat -> real)
  {
    forall k :: 0 <= k < n ==> h(k) == c * f(k)
  }

  /** SumScale, for totals already known under other names a and b. */
  lemma ScaledTotal(n: nat, f: nat -> real, c: real, h: nat -> real, a: real, b: real)
    requires ScaledBy(n, f, c, h)
    requires a == Sum(n, f) && b == Sum(n, h)
    ensures b == c * a
  {
    SumScale(n, f, c, h);
  }

  /** When only the term at k0 can be non-zero, the sum is that term. */
  lemma {:induction false} SumSingle(n: nat, f: nat -> real, k0: nat)
    requires k0 < n
    requires forall k :: 0 <= k < n && k != k0 ==> f(k) == 0.0
    ensures Sum(n, f) == f(k0)
  {
    if n - 1 == k0 {
      SumZero(n - 1, f);
    } else {
      SumSingle(n - 1, f, k0);
    }
  }

  /** Row a of f: the terms b |-> f(a, b). */
  function Row(f: (nat, nat) -> real, a: nat): nat -> real
  {
    (b: nat) => f(a, b)
  }

  /** Column b of f: the terms a |-> f(a, b). */
  function Column(f: (nat, nat) -> real, b: nat): nat -> real
  {
    (a: nat) => f(a, b)
  }

  /** The terms a |-> sum over b < m of f(a, b): the row sums of f. */
  function RowSums(m: nat, f: (nat, nat) -> real): nat -> real
  {
    (a: nat) => Sum(m, Row(f, a))
  }

  /** The terms b |-> sum over a < n of f(a, b): the column sums of f. */
  function ColumnSums(n: nat, f: (nat, nat) -> real): nat -> real
  {
    (b: nat) => Sum(n, Column(f, b))
  }

  /** Two nested sums may be exchanged. */
  lemma {:induction false} SumSwap(n: nat, m: nat, f: (nat, nat) -> real)
    ensures Sum(n, RowSums(m, f)) == Sum(m, ColumnSums(n, f))
  {
    if n > 0 {
      SumSwap(n - 1, m, f);
      // peel the last a off every column sum
      SumAdd(m, ColumnSums(n - 1, f), Row(f, n - 1), ColumnSums(n, f));
    } else {
      SumZero(m, ColumnSums(n, f));
    }
  }

  /** The sum of f over the n x m index rectangle, row by row. */
  function Sum2(n: nat, m: nat, f: (nat, nat) -> real): real
  {
    Sum(n, RowSums(m, f))
  }

  /** Double sums of pointwise-equal terms are equal. */
  lemma Sum2Ext(n: nat, m: nat, f: (nat, nat) -> real, g: (nat, nat) -> real)
    requires forall a, b :: 0 <= a < n && 0 <= b < m ==> f(a, b) == g(a, b)
    ensures Sum2(n, m, f) == Sum2(n, m, g)
  {
    forall a | 0 <= a < n
      ensures RowSums(m, f)(a) == RowSums(m, g)(a)
    {
      SumExt(m, Row(f, a), Row(g, a));
    }
    SumExt(n, RowSums(m, f), RowSums(m, g));
  }

  /** The double sum of pointwise sums is the sum of the two double sums. */
  lemma Sum2Add(n: nat, m: nat, f: (nat, nat) -> real, g: (nat, nat) -> real, h: (nat, nat) -> real)
    requires forall a, b :: 0 <= a < n && 0 <= b < m ==> h(a, b) == f(a, b) + g(a, b)
    ensures Sum2(n, m, h) == Sum2(n, m, f) + Sum2(n, m, g)
  {
    forall a | 0 <= a < n
      ensures RowSums(m, h)(a) == RowSums(m, f)(a) + RowSums(m, g)(a)
    {
      SumAdd(m, Row(f, a), Row(g, a), Row(h, a));
    }
    SumAdd(n, RowSums(m, f), RowSums(m, g), RowSums(m, h));
  }

  /** When only the term at (a0, b0) can be non-zero, the double sum is that term. */
  lemma Sum2Single(n: nat, m: nat, f: (nat, nat) -> real, a0: nat, b0: nat)
    requires a0 < n && b0 < m
    requires forall a, b :: 0 <= a < n && 0 <= b < m && (a != a0 || b != b0) ==> f(a, b) == 0.0
    ensures Sum2(n, m, f) == f(a0, b0)
  {
    forall a | 0 <= a < n && a != a0
      ensures RowSums(m, f)(a) == 0.0
    {
      SumZero(m, Row(f, a));
    }
    SumSingle(m, Row(f, a0), b0);
    SumSingle(n, RowSums(m, f), a0);
  }

  /** A double sum of zeros is zero. */
  lemma Sum2Zero(n: nat, m: nat, f: (nat, nat) -> real)
    requires forall a, b :: 0 <= a < n && 0 <= b < m ==> f(a, b) == 0.0
    ensures Sum2(n, m, f) == 0.0
  {
    forall a | 0 <= a < n
      ensures RowSums(m, f)(a) == 0.0
    {
      SumZero(m, Row(f, a));
    }
    SumZero(n, RowSums(m, f));
  }

  /** partial(0) is zero on the n x m cells, and partial(t + 1) adds step(t) to partial(t) for t < k. */
  predicate Accumulates(n: nat, m: nat, partial: nat -> ((nat, nat) -> real), step: nat -> ((nat, nat) -> real), k: nat)
  {
    && (forall a, b :: 0 <= a < n && 0 <= b < m ==> partial(0)(a, b) == 0.0)
    && (forall t: nat, a, b {:trigger step(t)(a, b)} :: t < k && 0 <= a < n && 0 <= b < m ==>
          partial(t + 1)(a, b) == partial(t)(a, b) + step(t)(a, b))
  }

  /**
    Accumulating the grids step(0), step(1), ... into partial(0) = 0 adds
    their double sums: after k steps the double sum is total(0) + ... + total(k-1).
  */
  lemma {:induction false} Sum2OfAccumulation(n: nat, m: nat, partial: nat -> ((nat, nat) -> real),
                                              step: nat -> ((nat, nat) -> real), total: nat -> real, k: nat)
    requires Accumulates(n, m, partial, step, k)
    requires forall t: nat :: t < k ==> Sum2(n, m, step(t)) == total(t)
    ensures Sum2(n, m, partial(k)) == Sum(k, total)
  {
    if k == 0 {
      Sum2Zero(n, m, partial(0));
    } else {
      Sum2OfAccumulation(n, m, partial, step, total, k - 1);
      Sum2Add(n, m, partial(k - 1), step(k - 1), partial(k));
    }
  }
}
