/** Finite sums over the indices below n, used for the reserved and requested quantities. */
module Sums {
  function Sum(n: nat, f: nat -> nat): nat {
    if n == 0 then 0 else Sum(n - 1, f) + f(n - 1)
  }

  lemma {:induction false} SumMonotone(n: nat, f: nat -> nat, g: nat -> nat)
    requires forall i: nat :: i < n ==> f(i) <= g(i)
    ensures Sum(n, f) <= Sum(n, g)
  {
    if n > 0 {
      SumMonotone(n - 1, f, g);
    }
  }

  lemma {:induction false} SumEqual(n: nat, f: nat -> nat, g: nat -> nat)
    requires forall i: nat :: i < n ==> f(i) == g(i)
    ensures Sum(n, f) == Sum(n, g)
  {
    if n > 0 {
      SumEqual(n - 1, f, g);
    }
  }

  /** Two families that agree except at k differ by their difference at k. */
  lemma {:induction false} SumChangedAt(n: nat, f: nat -> nat, g: nat -> nat, k: nat)
    requires k < n && forall i: nat :: i < n && i != k ==> f(i) == g(i)
    ensures Sum(n, g) + f(k) == Sum(n, f) + g(k)
  {
    if k == n - 1 {
      SumEqual(n - 1, f, g);
    } else {
      SumChangedAt(n - 1, f, g, k);
    }
  }

  lemma {:induction false} SumAdds(n: nat, f: nat -> nat, g: nat -> nat, h: nat -> nat)
    requires forall i: nat :: i < n ==> h(i) == f(i) + g(i)
    ensures Sum(n, h) == Sum(n, f) + Sum(n, g)
  {
    if n > 0 {
      SumAdds(n - 1, f, g, h);
    }
  }

  lemma {:induction false} SumZero(n: nat, f: nat -> nat)
    requires forall i: nat :: i < n ==> f(i) == 0
    ensures Sum(n, f) == 0
  {
    if n > 0 {
      SumZero(n - 1, f);
    }
  }

  /** Every term is at most the sum. */
  lemma {:induction false} SumContains(n: nat, f: nat -> nat, k: nat)
    requires k < n
    ensures f(k) <= Sum(n, f)
  {
    if k < n - 1 {
      SumContains(n - 1, f, k);
    }
  }

  /** Two different terms together are at most the sum. */
  lemma {:induction false} SumContainsTwo(n: nat, f: nat -> nat, j: nat, k: nat)
    requires j < k < n
    ensures f(j) + f(k) <= Sum(n, f)
  {
    if k < n - 1 {
      SumContainsTwo(n - 1, f, j, k);
    } else {
      SumContains(n - 1, f, j);
    }
  }

  lemma {:induction false} SumOfOne(n: nat, f: nat -> nat, k: nat)
    requires k < n && forall i: nat :: i < n && i != k ==> f(i) == 0
    ensures Sum(n, f) == f(k)
  {
    if k == n - 1 {
      SumZero(n - 1, f);
    } else {
      SumOfOne(n - 1, f, k);
    }
  }
}
