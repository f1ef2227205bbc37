/**
  The ring Z[X]/(X^N + 1): addition, multiplication, monomial rotation and the automorphisms
  X -> X^t, with their algebraic laws, and the relation Near, which compares two elements
  coefficient by coefficient on the circle Z/Q (Near with bound 0 is equality in Z_Q[X]/(X^N+1)).
 */
module NegacyclicRing {
  import opened Arithmetic
  import opened Sums

  /** Coefficients of 1, X, ..., X^(N-1). */
  type Poly = seq<int>

  /** The coefficient of X^i for any integer i, with X^N = -1. */
  function Coef(f: Poly, i: int): int {
    if |f| == 0 then 0
    else
      var r := i % (2 * |f|);
      if r < |f| then f[r] else -f[r - |f|]
  }

  lemma CoefInRange(f: Poly, i: int)
    requires 0 <= i < |f|
    ensures Coef(f, i) == f[i]
  {
    ModSmall(i, 2 * |f|);
  }

  lemma CoefPeriod(f: Poly, i: int, k: int)
    ensures Coef(f, i + k * (2 * |f|)) == Coef(f, i)
  {
    if |f| != 0 {
      ModPlusMultiple(i, k, 2 * |f|);
    }
  }

  lemma CoefAnti(f: Poly, i: int)
    ensures Coef(f, i + |f|) == -Coef(f, i)
    ensures Coef(f, i - |f|) == -Coef(f, i)
  {
    if |f| != 0 {
      HalfTurnIndex(i, |f|);
    }
  }

  /** Half a period further or back the other half of the indices is reached. */
  lemma HalfTurnIndex(i: int, N: int)
    requires 0 < N
    ensures var r := i % (2 * N);
            (i + N) % (2 * N) == (i - N) % (2 * N) == if r < N then r + N else r - N
  {
    var r, d, M := i % (2 * N), i / (2 * N), 2 * N;
    assert i == d * M + r;
    NextMultiples(d, M);
    if r < N {
      DivModIs(i + N, M, d, r + N);
      DivModIs(i - N, M, d - 1, r + N);
    } else {
      DivModIs(i + N, M, d + 1, r - N);
      DivModIs(i - N, M, d, r - N);
    }
  }

  lemma NextMultiples(d: int, M: int)
    ensures (d + 1) * M == d * M + M && (d - 1) * M == d * M - M
  {}

  // ---------------------------------------------------------------------------
  // Operations
  // ---------------------------------------------------------------------------

  function Zero(N: nat): (r: Poly)
    ensures |r| == N
  {
    seq(N, _ => 0)
  }

  function Add(f: Poly, g: Poly): (r: Poly)
    requires |f| == |g|
    ensures |r| == |f|
  {
    seq(|f|, k requires 0 <= k < |f| => f[k] + g[k])
  }

  function Sub(f: Poly, g: Poly): (r: Poly)
    requires |f| == |g|
    ensures |r| == |f|
  {
    seq(|f|, k requires 0 <= k < |f| => f[k] - g[k])
  }

  function Scale(c: int, f: Poly): (r: Poly)
    ensures |r| == |f|
  {
    seq(|f|, k requires 0 <= k < |f| => c * f[k])
  }

  function MulTerm(f: Poly, g: Poly, k: int): int -> int {
    i => Coef(f, i) * Coef(g, k - i)
  }

  function MulCoef(f: Poly, g: Poly, k: int): int {
    Sum(|f|, MulTerm(f, g, k))
  }

  function Mul(f: Poly, g: Poly): (r: Poly)
    ensures |r| == |f|
  {
    seq(|f|, k => MulCoef(f, g, k))
  }

  /** f * X^m, for any integer m. */
  function Rot(f: Poly, m: int): (r: Poly)
    ensures |r| == |f|
  {
    seq(|f|, k => Coef(f, k - m))
  }

  /** The monomial X^m. */
  function Mono(N: nat, m: int): (r: Poly)
    ensures |r| == N
  {
    Rot(One(N), m)
  }

  function One(N: nat): (r: Poly)
    ensures |r| == N
  {
    seq(N, k => if k == 0 then 1 else 0)
  }

  // ---------------------------------------------------------------------------
  // Coefficients of results, at every integer index
  // ---------------------------------------------------------------------------

  lemma CoefAdd(f: Poly, g: Poly, k: int)
    requires |f| == |g|
    ensures Coef(Add(f, g), k) == Coef(f, k) + Coef(g, k)
    ensures Coef(Sub(f, g), k) == Coef(f, k) - Coef(g, k)
  {}

  lemma CoefScale(c: int, f: Poly, k: int)
    ensures Coef(Scale(c, f), k) == c * Coef(f, k)
  {
    if |f| != 0 {
      var r := k % (2 * |f|);
      if r >= |f| {
        assert c * -f[r - |f|] == -(c * f[r - |f|]);
      }
    }
  }

  lemma CoefZero(N: nat, k: int)
    ensures Coef(Zero(N), k) == 0
  {}

  lemma CoefRot(f: Poly, m: int, k: int)
    ensures Coef(Rot(f, m), k) == Coef(f, k - m)
  {
    var N := |f|;
    if N != 0 {
      var r, d := k % (2 * N), k / (2 * N);
      assert k == d * (2 * N) + r;
      CoefPeriod(f, r - m, d);
      assert r - m + d * (2 * N) == k - m;
      if r >= N {
        CoefAnti(f, r - m);
        assert r - N - m == r - m - N;
      }
    }
  }

  lemma CoefMul(f: Poly, g: Poly, k: int)
    requires |f| == |g|
    ensures Coef(Mul(f, g), k) == MulCoef(f, g, k)
  {
    var N := |f|;
    if N != 0 {
      var r, d := k % (2 * N), k / (2 * N);
      assert k == d * (2 * N) + r;
      if r < N {
        forall i | 0 <= i < N
          ensures MulTerm(f, g, k)(i) == MulTerm(f, g, r)(i)
        {
          CoefPeriod(g, r - i, d);
          assert r - i + d * (2 * N) == k - i;
        }
        SumExt(N, MulTerm(f, g, k), MulTerm(f, g, r));
      } else {
        forall i | 0 <= i < N
          ensures MulTerm(f, g, k)(i) == -1 * MulTerm(f, g, r - N)(i)
        {
          CoefPeriod(g, r - i, d);
          assert r - i + d * (2 * N) == k - i;
          CoefAnti(g, r - i);
          assert r - N - i == r - i - N;
          assert Coef(f, i) * -Coef(g, k - i) == -(Coef(f, i) * Coef(g, k - i));
        }
        SumScale(N, -1, MulTerm(f, g, r - N), MulTerm(f, g, k));
      }
    }
  }

  // ---------------------------------------------------------------------------
  // Full-period sums
  // ---------------------------------------------------------------------------

  lemma {:induction false} CoefSteps(f: Poly, i: int, j: int, c: nat)
    requires j == i + c * |f|
    ensures Coef(f, j) == if c % 2 == 0 then Coef(f, i) else -Coef(f, i)
    decreases c
  {
    hide Coef;
    if c == 0 {
      assert i == j;
    } else {
      NextMultiples(c, |f|);
      CoefSteps(f, i, j - |f|, c - 1);
      CoefAnti(f, j);
    }
  }

  lemma ProductSteps(f: Poly, g: Poly, k: int, i: int, j: int, c: nat)
    requires |f| == |g| && j == i + c * |f|
    ensures MulTerm(f, g, k)(j) == MulTerm(f, g, k)(i)
  {
    CoefSteps(f, i, j, c);
    CoefSteps(g, k - j, k - i, c);
    assert -Coef(f, i) * -Coef(g, k - i) == Coef(f, i) * Coef(g, k - i);
  }

  /** The two sign changes of a convolution term cancel over one period. */
  lemma MulTermPeriodic(f: Poly, g: Poly, k: int)
    requires |f| == |g| && 0 < |f|
    ensures Periodic(MulTerm(f, g, k), |f|)
  {
    var P := MulTerm(f, g, k);
    forall i: int, j: int {:trigger P(i), P(j)} | i % |f| == j % |f|
      ensures P(i) == P(j)
    {
      MulTermCong(f, g, k, i, j);
    }
  }

  lemma MulTermCong(f: Poly, g: Poly, k: int, i: int, j: int)
    requires |f| == |g| && 0 < |f| && i % |f| == j % |f|
    ensures MulTerm(f, g, k)(i) == MulTerm(f, g, k)(j)
  {
    var c := ModEqualWitness(i, j, |f|);
    if 0 <= c {
      ProductSteps(f, g, k, j, i, c);
    } else {
      assert j == i + -c * |f|;
      ProductSteps(f, g, k, i, j, -c);
    }
  }

  function Reflect(k: int): int -> int {
    i => k - i
  }

  function Translate(d: int): int -> int {
    i => i + d
  }

  lemma ReflectTwice(k: int, i: int, N: int)
    requires 0 <= i < N
    ensures Reflect(k)(Reflect(k)(i) % N) % N == i
  {
    ModMod(k - i, N);
    ModAddCong(k, k, (k - i) % N, k - i, N);
    ModSmall(i, N);
  }

  lemma TranslateBack(d: int, i: int, N: int)
    requires 0 <= i < N
    ensures Translate(-d)(Translate(d)(i) % N) % N == i
    ensures Translate(d)(Translate(-d)(i) % N) % N == i
  {
    ModMod(i + d, N);
    ModMod(i - d, N);
    ModAddCong((i + d) % N, i + d, d, d, N);
    ModAddCong((i - d) % N, i - d, d, d, N);
    ModSmall(i, N);
  }

  lemma SumReflected(N: nat, P: int -> int, k: int)
    requires 0 < N && Periodic(P, N)
    ensures Sum(N, Compose(P, Reflect(k))) == Sum(N, P)
  {
    forall i | 0 <= i < N
      ensures Reflect(k)(Reflect(k)(i) % N) % N == i
    {
      ReflectTwice(k, i, N);
    }
    SumPermute(N, P, Reflect(k), Reflect(k));
  }

  lemma SumTranslated(N: nat, P: int -> int, d: int)
    requires 0 < N && Periodic(P, N)
    ensures Sum(N, Compose(P, Translate(d))) == Sum(N, P)
  {
    var there, back := Translate(d), Translate(-d);
    forall i | 0 <= i < N
      ensures back(there(i) % N) % N == i
    {
      TranslateBack(d, i, N);
    }
    forall i | 0 <= i < N
      ensures there(back(i) % N) % N == i
    {
      TranslateBack(d, i, N);
    }
    SumPermute(N, P, there, back);
  }

  // ---------------------------------------------------------------------------
  // Commutativity
  // ---------------------------------------------------------------------------

  lemma MulTermReflected(f: Poly, g: Poly, k: int, i: int)
    ensures MulTerm(g, f, k)(i) == Compose(MulTerm(f, g, k), Reflect(k))(i)
  {
    hide Coef;
    var x, y := Coef(f, k - i), Coef(g, i);
    assert k - (k - i) == i;
    assert x * y == y * x;
  }

  lemma MulCoefComm(f: Poly, g: Poly, k: int)
    requires |f| == |g| && 0 < |f|
    ensures MulCoef(f, g, k) == MulCoef(g, f, k)
  {
    var P := MulTerm(f, g, k);
    MulTermPeriodic(f, g, k);
    SumReflected(|f|, P, k);
    forall i | 0 <= i < |f|
      ensures MulTerm(g, f, k)(i) == Compose(P, Reflect(k))(i)
    {
      MulTermReflected(f, g, k, i);
    }
    SumExt(|f|, MulTerm(g, f, k), Compose(P, Reflect(k)));
  }

  lemma MulComm(f: Poly, g: Poly)
    requires |f| == |g|
    ensures Mul(f, g) == Mul(g, f)
  {
    forall k | 0 <= k < |f|
      ensures MulCoef(f, g, k) == MulCoef(g, f, k)
    {
      MulCoefComm(f, g, k);
    }
  }

  // ---------------------------------------------------------------------------
  // Associativity: exchange the two sums of a triple convolution
  // ---------------------------------------------------------------------------

  function TripleTerm(f: Poly, g: Poly, h: Poly, k: int): (int, int) -> int {
    (i, j) => Coef(f, i) * (Coef(g, j - i) * Coef(h, k - j))
  }

  lemma TripleRowTerm(f: Poly, g: Poly, h: Poly, k: int, i: int, j: int)
    ensures Row(TripleTerm(f, g, h, k), i)(j)
         == Coef(f, i) * Compose(MulTerm(g, h, k - i), Translate(-i))(j)
  {
    hide Coef;
    assert j + -i == j - i && k - i - (j + -i) == k - j;
  }

  /** One row of the triple convolution is a coefficient of f times a coefficient of g * h. */
  lemma TripleRow(f: Poly, g: Poly, h: Poly, k: int, i: int)
    requires |f| == |g| == |h| && 0 < |f|
    ensures RowSums(TripleTerm(f, g, h, k), |f|)(i) == MulTerm(f, Mul(g, h), k)(i)
  {
    var F := TripleTerm(f, g, h, k);
    var P := MulTerm(g, h, k - i);
    MulTermPeriodic(g, h, k - i);
    SumTranslated(|f|, P, -i);
    forall j | 0 <= j < |f|
      ensures Row(F, i)(j) == Coef(f, i) * Compose(P, Translate(-i))(j)
    {
      TripleRowTerm(f, g, h, k, i, j);
    }
    SumScale(|f|, Coef(f, i), Compose(P, Translate(-i)), Row(F, i));
    CoefMul(g, h, k - i);
  }

  lemma TripleColumnTerm(f: Poly, g: Poly, h: Poly, k: int, i: int, j: int)
    ensures Col(TripleTerm(f, g, h, k), j)(i) == Coef(h, k - j) * MulTerm(f, g, j)(i)
  {
    MulAssoc(Coef(f, i), Coef(g, j - i), Coef(h, k - j));
  }

  lemma TripleColumn(f: Poly, g: Poly, h: Poly, k: int, j: int)
    requires |f| == |g| == |h| && 0 < |f|
    ensures ColSums(TripleTerm(f, g, h, k), |f|)(j) == MulTerm(Mul(f, g), h, k)(j)
  {
    var F := TripleTerm(f, g, h, k);
    var c, d := Coef(h, k - j), MulCoef(f, g, j);
    forall i | 0 <= i < |f|
      ensures Col(F, j)(i) == c * MulTerm(f, g, j)(i)
    {
      TripleColumnTerm(f, g, h, k, i, j);
    }
    SumScale(|f|, c, MulTerm(f, g, j), Col(F, j));
    assert ColSums(F, |f|)(j) == c * d;
    MulTermValue(f, g, h, k, j);
  }

  lemma MulTermValue(f: Poly, g: Poly, h: Poly, k: int, j: int)
    requires |f| == |g|
    ensures MulTerm(Mul(f, g), h, k)(j) == Coef(h, k - j) * MulCoef(f, g, j)
  {
    CoefMul(f, g, j);
  }

  lemma MulCoefAssociative(f: Poly, g: Poly, h: Poly, k: int)
    requires |f| == |g| == |h| && 0 < |f|
    ensures MulCoef(Mul(f, g), h, k) == MulCoef(f, Mul(g, h), k)
  {
    var N := |f|;
    var F := TripleTerm(f, g, h, k);
    forall i | 0 <= i < N
      ensures RowSums(F, N)(i) == MulTerm(f, Mul(g, h), k)(i)
    {
      TripleRow(f, g, h, k, i);
    }
    forall j | 0 <= j < N
      ensures ColSums(F, N)(j) == MulTerm(Mul(f, g), h, k)(j)
    {
      TripleColumn(f, g, h, k, j);
    }
    SumExt(N, RowSums(F, N), MulTerm(f, Mul(g, h), k));
    SumExt(N, ColSums(F, N), MulTerm(Mul(f, g), h, k));
    SumSwap(N, N, F);
  }

  lemma MulAssociative(f: Poly, g: Poly, h: Poly)
    requires |f| == |g| == |h|
    ensures Mul(Mul(f, g), h) == Mul(f, Mul(g, h))
  {
    forall k | 0 <= k < |f|
      ensures MulCoef(Mul(f, g), h, k) == MulCoef(f, Mul(g, h), k)
    {
      MulCoefAssociative(f, g, h, k);
    }
  }

  // ---------------------------------------------------------------------------
  // Linearity
  // ---------------------------------------------------------------------------

  lemma MulTermAdd(f: Poly, g: Poly, h: Poly, k: int, i: int)
    requires |g| == |h|
    ensures MulTerm(f, Add(g, h), k)(i) == MulTerm(f, g, k)(i) + MulTerm(f, h, k)(i)
    ensures MulTerm(f, g, k)(i) == MulTerm(f, Sub(g, h), k)(i) + MulTerm(f, h, k)(i)
  {
    CoefAdd(g, h, k - i);
    assert Coef(f, i) * (Coef(g, k - i) - Coef(h, k - i)) == Coef(f, i) * Coef(g, k - i) - Coef(f, i) * Coef(h, k - i);
  }

  lemma MulCoefAdd(f: Poly, g: Poly, h: Poly, k: int)
    requires |f| == |g| == |h|
    ensures MulCoef(f, Add(g, h), k) == MulCoef(f, g, k) + MulCoef(f, h, k)
    ensures MulCoef(f, Sub(g, h), k) == MulCoef(f, g, k) - MulCoef(f, h, k)
  {
    forall i | 0 <= i < |f|
      ensures MulTerm(f, Add(g, h), k)(i) == MulTerm(f, g, k)(i) + MulTerm(f, h, k)(i)
    {
      MulTermAdd(f, g, h, k, i);
    }
    SumAdd(|f|, MulTerm(f, g, k), MulTerm(f, h, k), MulTerm(f, Add(g, h), k));
    forall i | 0 <= i < |f|
      ensures MulTerm(f, g, k)(i) == MulTerm(f, Sub(g, h), k)(i) + MulTerm(f, h, k)(i)
    {
      MulTermAdd(f, g, h, k, i);
    }
    SumAdd(|f|, MulTerm(f, Sub(g, h), k), MulTerm(f, h, k), MulTerm(f, g, k));
  }

  lemma MulDistributes(f: Poly, g: Poly, h: Poly)
    requires |f| == |g| == |h|
    ensures Mul(f, Add(g, h)) == Add(Mul(f, g), Mul(f, h))
    ensures Mul(f, Sub(g, h)) == Sub(Mul(f, g), Mul(f, h))
  {
    hide MulCoef;
    forall k: nat | k < |f|
      ensures Mul(f, Add(g, h))[k] == Add(Mul(f, g), Mul(f, h))[k]
      ensures Mul(f, Sub(g, h))[k] == Sub(Mul(f, g), Mul(f, h))[k]
    {
      MulCoefAdd(f, g, h, k);
    }
  }

  lemma MulDistributesLeft(f: Poly, g: Poly, h: Poly)
    requires |f| == |g| == |h|
    ensures Mul(Add(g, h), f) == Add(Mul(g, f), Mul(h, f))
    ensures Mul(Sub(g, h), f) == Sub(Mul(g, f), Mul(h, f))
  {
    MulDistributes(f, g, h);
    MulComm(f, Add(g, h));
    MulComm(f, Sub(g, h));
    MulComm(f, g);
    MulComm(f, h);
  }

  lemma MulCoefScale(c: int, f: Poly, g: Poly, k: int)
    requires |f| == |g|
    ensures MulCoef(Scale(c, f), g, k) == c * MulCoef(f, g, k)
  {
    forall i | 0 <= i < |f|
      ensures MulTerm(Scale(c, f), g, k)(i) == c * MulTerm(f, g, k)(i)
    {
      MulTermScale(c, f, g, k, i);
    }
    SumScale(|f|, c, MulTerm(f, g, k), MulTerm(Scale(c, f), g, k));
  }

  lemma MulTermScale(c: int, f: Poly, g: Poly, k: int, i: int)
    ensures MulTerm(Scale(c, f), g, k)(i) == c * MulTerm(f, g, k)(i)
  {
    CoefScale(c, f, i);
    MulAssoc(c, Coef(f, i), Coef(g, k - i));
  }

  lemma MulScale(c: int, f: Poly, g: Poly)
    requires |f| == |g|
    ensures Mul(Scale(c, f), g) == Scale(c, Mul(f, g))
    ensures Mul(g, Scale(c, f)) == Scale(c, Mul(g, f))
  {
    forall k | 0 <= k < |f|
      ensures MulCoef(Scale(c, f), g, k) == c * MulCoef(f, g, k)
    {
      MulCoefScale(c, f, g, k);
    }
    assert Mul(Scale(c, f), g) == Scale(c, Mul(f, g));
    MulComm(Scale(c, f), g);
    MulComm(f, g);
  }

  // ---------------------------------------------------------------------------
  // Rotation by monomials
  // ---------------------------------------------------------------------------

  lemma RotRot(f: Poly, a: int, b: int)
    ensures Rot(Rot(f, a), b) == Rot(f, a + b)
  {
    forall k: nat | k < |f|
      ensures Rot(Rot(f, a), b)[k] == Rot(f, a + b)[k]
    {
      CoefRot(f, a, k - b);
      assert k - b - a == k - (a + b);
    }
  }

  lemma CoefCong(f: Poly, i: int, j: int)
    requires 0 < |f| && i % (2 * |f|) == j % (2 * |f|)
    ensures Coef(f, i) == Coef(f, j)
  {}

  /** X^2N = 1. */
  lemma RotCong(f: Poly, a: int, b: int)
    requires 0 < |f| && a % (2 * |f|) == b % (2 * |f|)
    ensures Rot(f, a) == Rot(f, b)
  {
    forall k: nat | k < |f|
      ensures Rot(f, a)[k] == Rot(f, b)[k]
    {
      ModAddCong(k, k, a, b, 2 * |f|);
      CoefCong(f, k - a, k - b);
    }
  }

  lemma RotZero(f: Poly)
    ensures Rot(f, 0) == f
  {
    forall k: nat | k < |f|
      ensures Rot(f, 0)[k] == f[k]
    {
      CoefInRange(f, k);
    }
  }

  lemma RotAdd(f: Poly, g: Poly, m: int)
    requires |f| == |g|
    ensures Rot(Add(f, g), m) == Add(Rot(f, m), Rot(g, m))
    ensures Rot(Sub(f, g), m) == Sub(Rot(f, m), Rot(g, m))
  {
    forall k: nat | k < |f|
      ensures Rot(Add(f, g), m)[k] == Rot(f, m)[k] + Rot(g, m)[k]
    {
      CoefAdd(f, g, k - m);
    }
    forall k: nat | k < |f|
      ensures Rot(Sub(f, g), m)[k] == Rot(f, m)[k] - Rot(g, m)[k]
    {
      CoefAdd(f, g, k - m);
    }
  }

  lemma MulTermRot(f: Poly, g: Poly, m: int, k: int, i: int)
    ensures MulTerm(f, Rot(g, m), k)(i) == MulTerm(f, g, k - m)(i)
  {
    CoefRot(g, m, k - i);
    assert k - i - m == k - m - i;
  }

  lemma MulRotRight(f: Poly, g: Poly, m: int)
    requires |f| == |g|
    ensures Mul(f, Rot(g, m)) == Rot(Mul(f, g), m)
  {
    forall k: nat | k < |f|
      ensures Mul(f, Rot(g, m))[k] == Rot(Mul(f, g), m)[k]
    {
      forall i | 0 <= i < |f|
        ensures MulTerm(f, Rot(g, m), k)(i) == MulTerm(f, g, k - m)(i)
      {
        MulTermRot(f, g, m, k, i);
      }
      SumExt(|f|, MulTerm(f, Rot(g, m), k), MulTerm(f, g, k - m));
      CoefMul(f, g, k - m);
    }
  }

  lemma MulRotLeft(f: Poly, g: Poly, m: int)
    requires |f| == |g|
    ensures Mul(Rot(f, m), g) == Rot(Mul(f, g), m)
  {
    MulRotRight(g, f, m);
    MulComm(Rot(f, m), g);
    MulComm(f, g);
  }

  lemma MulTermOne(f: Poly, k: int, i: int)
    requires 0 <= k < |f| && 0 <= i < |f|
    ensures MulTerm(f, One(|f|), k)(i) == if i == k then f[k] else 0
  {
    CoefInRange(f, i);
    if i <= k {
      CoefInRange(One(|f|), k - i);
    } else {
      CoefAnti(One(|f|), k - i);
      CoefInRange(One(|f|), k - i + |f|);
    }
  }

  lemma MulOne(f: Poly)
    ensures Mul(f, One(|f|)) == f
  {
    forall k: nat | k < |f|
      ensures Mul(f, One(|f|))[k] == f[k]
    {
      forall i | 0 <= i < |f|
        ensures MulTerm(f, One(|f|), k)(i) == if i == k then f[k] else 0
      {
        MulTermOne(f, k, i);
      }
      SumSingle(|f|, MulTerm(f, One(|f|), k), k);
    }
  }

  /** Multiplication by the monomial X^m is rotation by m. */
  lemma MulMonomial(f: Poly, m: int)
    ensures Mul(f, Mono(|f|, m)) == Rot(f, m)
    ensures Mul(Mono(|f|, m), f) == Rot(f, m)
  {
    MulRotRight(f, One(|f|), m);
    MulOne(f);
    MulComm(f, Mono(|f|, m));
  }
}
