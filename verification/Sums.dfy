/** Finite sums, and how they may be re-indexed. */
module Sums {

  function Sum(f: int -> nat, n: nat): nat {
    if n == 0 then 0 else Sum(f, n - 1) + f(n - 1)
  }

  lemma {:induction false} SumSame(f: int -> nat, g: int -> nat, n: nat)
    requires forall i :: 0 <= i < n ==> f(i) == g(i)
    ensures Sum(f, n) == Sum(g, n)
  {
    if n > 0 {
      SumSame(f, g, n - 1);
    }
  }

  lemma {:induction false} SumAdd(f: int -> nat, g: int -> nat, h: int -> nat, n: nat)
    requires forall i :: 0 <= i < n ==> h(i) == f(i) + g(i)
    ensures Sum(h, n) == Sum(f, n) + Sum(g, n)
  {
    if n > 0 {
      SumAdd(f, g, h, n - 1);
    }
  }

  lemma {:induction false} SumZero(f: int -> nat, n: nat)
    requires forall i :: 0 <= i < n ==> f(i) == 0
    ensures Sum(f, n) == 0
  {
    if n > 0 {
      SumZero(f, n - 1);
    }
  }

  /** Taking the first term off. */
  lemma {:induction false} SumFirst(f: int -> nat, g: int -> nat, n: nat)
    requires forall i :: 0 <= i < n ==> g(i) == f(i + 1)
    ensures Sum(f, n + 1) == f(0) + Sum(g, n)
  {
    if n > 0 {
      SumFirst(f, g, n - 1);
    }
  }

  lemma {:induction false} SumReverse(f: int -> nat, g: int -> nat, n: nat)
    requires forall i :: 0 <= i < n ==> g(i) == f(n - 1 - i)
    ensures Sum(g, n) == Sum(f, n)
  {
    if n > 0 {
      var h := (i: int) => g(i + 1);
      SumFirst(g, h, n - 1);
      SumReverse(f, h, n - 1);
    }
  }

  /** Summing rows first or columns first. */
  lemma {:induction false} SumSwap(f: int -> nat, g: int -> nat, h: (int, int) -> nat, m: nat, n: nat)
    requires forall i :: 0 <= i < m ==> f(i) == Sum(j => h(i, j), n)
    requires forall j :: 0 <= j < n ==> g(j) == Sum(i => h(i, j), m)
    ensures Sum(f, m) == Sum(g, n)
  {
    if m == 0 {
      SumZero(g, n);
    } else {
      var g' := (j: int) => Sum(i => h(i, j), m - 1);
      var last := (j: int) => h(m - 1, j);
      SumSwap(f, g', h, m - 1, n);
      SumSame(j => h(m - 1, j), last, n);
      forall j | 0 <= j < n
        ensures g(j) == g'(j) + last(j)
      {
        SumSame(i => h(i, j), i => h(i, j), m - 1);
      }
      SumAdd(g', last, g, n);
    }
  }
}
