/**
  Finite sums of integer functions. Every summand function is a named function applied to its
  parameters, so that two mentions of one sum are the same term.
 */
module Sums {
  import opened Arithmetic

  function Sum(n: nat, f: int -> int): int {
    if n == 0 then 0 else Sum(n - 1, f) + f(n - 1)
  }

  lemma {:induction false} SumExt(n: nat, f: int -> int, g: int -> int)
    requires forall i :: 0 <= i < n ==> f(i) == g(i)
    ensures Sum(n, f) == Sum(n, g)
  {
    if n != 0 {
      SumExt(n - 1, f, g);
    }
  }

  lemma {:induction false} SumAdd(n: nat, f: int -> int, g: int -> int, h: int -> int)
    requires forall i :: 0 <= i < n ==> h(i) == f(i) + g(i)
    ensures Sum(n, h) == Sum(n, f) + Sum(n, g)
  {
    if n != 0 {
      SumAdd(n - 1, f, g, h);
    }
  }

  lemma {:induction false} SumScale(n: nat, c: int, f: int -> int, h: int -> int)
    requires forall i :: 0 <= i < n ==> h(i) == c * f(i)
    ensures Sum(n, h) == c * Sum(n, f)
  {
    if n != 0 {
      SumScale(n - 1, c, f, h);
      assert c * (Sum(n - 1, f) + f(n - 1)) == c * Sum(n - 1, f) + c * f(n - 1);
    }
  }

  lemma {:induction false} SumZero(n: nat, f: int -> int)
    requires forall i :: 0 <= i < n ==> f(i) == 0
    ensures Sum(n, f) == 0
  {
    if n != 0 {
      SumZero(n - 1, f);
    }
  }

  /** A sum with at most one non-zero term. */
  lemma {:induction false} SumSingle(n: nat, f: int -> int, j: int)
    requires 0 <= j < n
    requires forall i :: 0 <= i < n && i != j ==> f(i) == 0
    ensures Sum(n, f) == f(j)
  {
    if j == n - 1 {
      SumZero(n - 1, f);
    } else {
      SumSingle(n - 1, f, j);
    }
  }

  // ---------------------------------------------------------------------------
  // Double sums
  // ---------------------------------------------------------------------------

  function Row(F: (int, int) -> int, i: int): int -> int {
    j => F(i, j)
  }

  function Col(F: (int, int) -> int, j: int): int -> int {
    i => F(i, j)
  }

  function RowSums(F: (int, int) -> int, m: nat): int -> int {
    i => Sum(m, Row(F, i))
  }

  function ColSums(F: (int, int) -> int, n: nat): int -> int {
    j => Sum(n, Col(F, j))
  }

  /** The order of summation does not matter. */
  lemma {:induction false} SumSwap(n: nat, m: nat, F: (int, int) -> int)
    ensures Sum(n, RowSums(F, m)) == Sum(m, ColSums(F, n))
  {
    if n == 0 {
      SumZero(m, ColSums(F, 0));
    } else {
      SumSwap(n - 1, m, F);
      SumAdd(m, ColSums(F, n - 1), Row(F, n - 1), ColSums(F, n));
    }
  }

  // ---------------------------------------------------------------------------
  // Sums over a full period
  // ---------------------------------------------------------------------------

  ghost predicate Periodic(P: int -> int, N: nat)
    requires 0 < N
  {
    forall i: int, j: int {:trigger P(i), P(j)} :: i % N == j % N ==> P(i) == P(j)
  }

  ghost function Indicator(P: int -> int, pi: int -> int, N: nat): (int, int) -> int
    requires 0 < N
  {
    (i, j) => if pi(i) % N == j then P(j) else 0
  }

  ghost function Compose(P: int -> int, pi: int -> int): int -> int {
    i => P(pi(i))
  }

  /** Summing a periodic function along any bijection of the residues gives the same value. */
  lemma SumPermute(N: nat, P: int -> int, pi: int -> int, rho: int -> int)
    requires 0 < N && Periodic(P, N)
    requires forall i :: 0 <= i < N ==> rho(pi(i) % N) % N == i
    requires forall j :: 0 <= j < N ==> pi(rho(j) % N) % N == j
    ensures Sum(N, Compose(P, pi)) == Sum(N, P)
  {
    var F := Indicator(P, pi, N);
    forall i | 0 <= i < N
      ensures RowSums(F, N)(i) == Compose(P, pi)(i)
    {
      var j := pi(i) % N;
      SumSingle(N, Row(F, i), j);
      ModMod(pi(i), N);
    }
    SumExt(N, RowSums(F, N), Compose(P, pi));
    forall j | 0 <= j < N
      ensures ColSums(F, N)(j) == P(j)
    {
      SumSingle(N, Col(F, j), rho(j) % N);
    }
    SumExt(N, ColSums(F, N), P);
    SumSwap(N, N, F);
  }

  // ---------------------------------------------------------------------------
  // Bounds
  // ---------------------------------------------------------------------------

  function AbsTerm(c: int -> int): int -> int {
    i => if c(i) < 0 then -c(i) else c(i)
  }

  function Prod(c: int -> int, x: int -> int): int -> int {
    i => c(i) * x(i)
  }

  lemma {:induction false} SumNonNeg(n: nat, f: int -> int)
    requires forall i :: 0 <= i < n ==> 0 <= f(i)
    ensures 0 <= Sum(n, f)
  {
    if n != 0 {
      SumNonNeg(n - 1, f);
    }
  }

  lemma {:induction false} SumBound(n: nat, f: int -> int, b: int)
    requires forall i :: 0 <= i < n ==> f(i) <= b
    ensures Sum(n, f) <= n * b
  {
    if n != 0 {
      SumBound(n - 1, f, b);
      assert n * b == (n - 1) * b + b;
    }
  }

  lemma SumAbsBound(n: nat, c: int -> int, b: int)
    requires forall i :: 0 <= i < n ==> -b <= c(i) <= b
    ensures Sum(n, AbsTerm(c)) <= n * b
  {
    SumBound(n, AbsTerm(c), b);
  }

  /** Weighted sums of close values are close, the distance growing by the total weight. */
  lemma {:induction false} SumClose(n: nat, c: int -> int, x: int -> int, y: int -> int, b: int, M: int)
    requires 0 < M && 0 <= b
    requires forall i :: 0 <= i < n ==> Close(x(i), y(i), b, M)
    ensures Close(Sum(n, Prod(c, x)), Sum(n, Prod(c, y)), Sum(n, AbsTerm(c)) * b, M)
  {
    if n == 0 {
      CloseSelf(0, 0, M);
    } else {
      SumClose(n - 1, c, x, y, b, M);
      CloseStep(Sum(n - 1, Prod(c, x)), Sum(n - 1, Prod(c, y)), Sum(n - 1, AbsTerm(c)), c(n - 1), x(n - 1), y(n - 1),
                Sum(n, Prod(c, x)), Sum(n, Prod(c, y)), Sum(n, AbsTerm(c)), b, M);
    }
  }

  // ---------------------------------------------------------------------------
  // Norms
  // ---------------------------------------------------------------------------

  lemma {:induction false} AbsSumIs(s: seq<int>, n: nat, c: int -> int)
    requires n <= |s| && forall i :: 0 <= i < n ==> c(i) == s[i]
    ensures AbsSum(s, n) == Sum(n, AbsTerm(c))
  {
    if n != 0 {
      AbsSumIs(s, n - 1, c);
    }
  }
}
