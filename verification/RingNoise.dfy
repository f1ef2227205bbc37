/**
  Noise in Z_Q[X]/(X^N + 1): the relation Near, the norm that governs its growth under
  multiplication, and its invariance under rotations and automorphisms.
 */
module RingNoise {
  import opened Arithmetic
  import opened Sums
  import opened NegacyclicRing
  import opened Automorphisms

  /** Every coefficient of f is within b of that of g, modulo Q. */
  ghost predicate Near(f: Poly, g: Poly, b: int, Q: int)
    requires 0 < Q
  {
    |f| == |g| && 0 <= b && forall k :: 0 <= k < |f| ==> Close(f[k], g[k], b, Q)
  }

  /** Coefficients reduced to [0, Q), the form in which they are stored. */
  function Reduce(f: Poly, Q: int): (r: Poly)
    requires 0 < Q
    ensures |r| == |f|
  {
    seq(|f|, k requires 0 <= k < |f| => f[k] % Q)
  }

  ghost predicate Reduced(f: Poly, Q: int) {
    forall k :: 0 <= k < |f| ==> 0 <= f[k] < Q
  }

  ghost predicate Bounded(f: Poly, b: int) {
    forall k :: 0 <= k < |f| ==> -b <= f[k] <= b
  }

  lemma ReduceNear(f: Poly, Q: int)
    requires 0 < Q
    ensures Near(Reduce(f, Q), f, 0, Q) && Reduced(Reduce(f, Q), Q)
  {
    forall k | 0 <= k < |f|
      ensures Close(f[k] % Q, f[k], 0, Q)
    {
      ModMod(f[k], Q);
      CloseZero(f[k] % Q, f[k], Q);
    }
  }

  lemma NearSelf(f: Poly, b: int, Q: int)
    requires 0 < Q && 0 <= b
    ensures Near(f, f, b, Q)
  {
    forall k | 0 <= k < |f|
      ensures Close(f[k], f[k], b, Q)
    {
      CloseSelf(f[k], b, Q);
    }
  }

  lemma NearSym(f: Poly, g: Poly, b: int, Q: int)
    requires 0 < Q && Near(f, g, b, Q)
    ensures Near(g, f, b, Q)
  {
    forall k | 0 <= k < |f|
      ensures Close(g[k], f[k], b, Q)
    {
      CloseSym(f[k], g[k], b, Q);
    }
  }

  lemma NearTrans(f: Poly, g: Poly, h: Poly, b: int, c: int, Q: int)
    requires 0 < Q && Near(f, g, b, Q) && Near(g, h, c, Q)
    ensures Near(f, h, b + c, Q)
  {
    forall k | 0 <= k < |f|
      ensures Close(f[k], h[k], b + c, Q)
    {
      CloseTrans(f[k], g[k], h[k], b, c, Q);
    }
  }

  lemma NearWiden(f: Poly, g: Poly, b: int, c: int, Q: int)
    requires 0 < Q && Near(f, g, b, Q) && b <= c
    ensures Near(f, g, c, Q)
  {
    forall k | 0 <= k < |f|
      ensures Close(f[k], g[k], c, Q)
    {
      CloseMono(f[k], g[k], b, c, Q);
    }
  }

  lemma NearAdd(f: Poly, g: Poly, f': Poly, g': Poly, b: int, c: int, Q: int)
    requires 0 < Q && |f| == |f'| && Near(f, g, b, Q) && Near(f', g', c, Q)
    ensures Near(Add(f, f'), Add(g, g'), b + c, Q)
    ensures Near(Sub(f, f'), Sub(g, g'), b + c, Q)
  {
    forall k | 0 <= k < |f|
      ensures Close(f[k] + f'[k], g[k] + g'[k], b + c, Q)
      ensures Close(f[k] - f'[k], g[k] - g'[k], b + c, Q)
    {
      CloseAdd(f[k], g[k], f'[k], g'[k], b, c, Q);
    }
  }

  lemma NearCoef(f: Poly, g: Poly, b: int, Q: int, k: int)
    requires 0 < Q && 0 < |f| && Near(f, g, b, Q)
    ensures Close(Coef(f, k), Coef(g, k), b, Q)
  {
    var r := k % (2 * |f|);
    if r >= |f| {
      CloseNeg(f[r - |f|], g[r - |f|], b, Q);
    }
  }

  lemma NearRot(f: Poly, g: Poly, m: int, b: int, Q: int)
    requires 0 < Q && Near(f, g, b, Q)
    ensures Near(Rot(f, m), Rot(g, m), b, Q)
  {
    forall k: nat | k < |f|
      ensures Close(Rot(f, m)[k], Rot(g, m)[k], b, Q)
    {
      NearCoef(f, g, b, Q, k - m);
    }
  }

  lemma NearPullback(f: Poly, g: Poly, u: int, b: int, Q: int)
    requires 0 < Q && Near(f, g, b, Q)
    ensures Near(Pullback(f, u), Pullback(g, u), b, Q)
  {
    forall k: nat | k < |f|
      ensures Close(Pullback(f, u)[k], Pullback(g, u)[k], b, Q)
    {
      NearCoef(f, g, b, Q, k * u);
    }
  }

  /** An automorphism permutes coefficients up to sign, so it keeps distances. */
  lemma NearAuto(f: Poly, g: Poly, t: int, b: int, Q: int)
    requires 0 < Q && Near(f, g, b, Q)
    ensures Near(Auto(f, t), Auto(g, t), b, Q)
  {
    if |f| != 0 {
      NearPullback(f, g, Inverse(t, 2 * |f|), b, Q);
    }
  }

  // ---------------------------------------------------------------------------
  // Multiplication
  // ---------------------------------------------------------------------------

  function CoefFn(f: Poly): int -> int {
    i => Coef(f, i)
  }

  function Facing(g: Poly, k: int): int -> int {
    i => Coef(g, k - i)
  }

  /** Sum of the absolute values of the coefficients. */
  function Norm1(f: Poly): int {
    AbsSum(f, |f|)
  }

  lemma Norm1NonNeg(f: Poly)
    ensures 0 <= Norm1(f)
  {}

  lemma Norm1Is(f: Poly)
    ensures Norm1(f) == Sum(|f|, AbsTerm(CoefFn(f)))
  {
    hide Coef;
    forall i | 0 <= i < |f|
      ensures CoefFn(f)(i) == f[i]
    {
      CoefInRange(f, i);
    }
    AbsSumIs(f, |f|, CoefFn(f));
  }

  lemma Norm1Bound(f: Poly, b: int)
    requires Bounded(f, b)
    ensures Norm1(f) <= |f| * b
  {
    forall i | 0 <= i < |f|
      ensures CoefFn(f)(i) == f[i]
    {
      CoefInRange(f, i);
    }
    Norm1Is(f);
    SumAbsBound(|f|, CoefFn(f), b);
  }

  /** Products of bounded elements are bounded. */
  lemma MulBounded(f: Poly, g: Poly, b: int)
    requires |f| == |g| && Bounded(g, b) && 0 <= b
    ensures Bounded(Mul(f, g), Norm1(f) * b)
  {
    hide Close, Coef, Norm1;
    Norm1NonNeg(f);
    MulNonNeg(Norm1(f), b);
    forall k: nat | k < |f|
      ensures -(Norm1(f) * b) <= Mul(f, g)[k] <= Norm1(f) * b
    {
      var x, w := MulCoef(f, g, k), Norm1(f) * b;
      var M := Abs(x) + w + 1;
      BoundedNear(g, b, M);
      MulCoefClose(f, g, Zero(|g|), b, M, k);
      MulCoefZero(f, k);
      CloseBound(x, w, M);
    }
  }

  lemma BoundedNear(g: Poly, b: int, M: int)
    requires 0 < M && 0 <= b && Bounded(g, b)
    ensures Near(g, Zero(|g|), b, M)
  {
    forall k | 0 <= k < |g|
      ensures Close(g[k], 0, b, M)
    {
      CloseIntro(g[k], 0, b, M, 0);
    }
  }

  lemma MulCoefZero(f: Poly, k: int)
    ensures MulCoef(f, Zero(|f|), k) == 0
  {
    forall i | 0 <= i < |f|
      ensures MulTerm(f, Zero(|f|), k)(i) == 0
    {
      CoefZero(|f|, k - i);
    }
    SumZero(|f|, MulTerm(f, Zero(|f|), k));
  }

  lemma BoundedRot(f: Poly, m: int, b: int)
    requires Bounded(f, b)
    ensures Bounded(Rot(f, m), b)
  {
    forall k: nat | k < |f|
      ensures -b <= Rot(f, m)[k] <= b
    {
      BoundedCoef(f, k - m, b);
    }
  }

  lemma BoundedCoef(f: Poly, i: int, b: int)
    requires Bounded(f, b) && 0 < |f|
    ensures -b <= Coef(f, i) <= b
  {
    var r := i % (2 * |f|);
    assert r < |f| ==> -b <= f[r] <= b;
    assert r >= |f| ==> -b <= f[r - |f|] <= b;
  }

  lemma BoundedAuto(f: Poly, t: int, b: int)
    requires Bounded(f, b)
    ensures Bounded(Auto(f, t), b)
  {
    forall k: nat | k < |f|
      ensures -b <= Auto(f, t)[k] <= b
    {
      BoundedCoef(f, k * Inverse(t, 2 * |f|), b);
    }
  }

  lemma BoundedAdd(f: Poly, g: Poly, b: int, c: int)
    requires |f| == |g| && Bounded(f, b) && Bounded(g, c)
    ensures Bounded(Add(f, g), b + c) && Bounded(Sub(f, g), b + c)
  {}

  lemma BoundedWiden(f: Poly, b: int, c: int)
    requires Bounded(f, b) && b <= c
    ensures Bounded(f, c)
  {}

  /** A bounded exact error gives closeness. */
  lemma NearBounded(f: Poly, g: Poly, e: Poly, b: int, Q: int)
    requires 0 < Q && |g| == |e| && Near(f, Add(g, e), 0, Q) && Bounded(e, b) && 0 <= b
    ensures Near(f, g, b, Q)
  {
    hide Close;
    forall k | 0 <= k < |f|
      ensures Close(f[k], g[k], b, Q)
    {
      CloseIntro(g[k] + e[k], g[k], b, Q, 0);
      CloseTrans(f[k], g[k] + e[k], g[k], 0, b, Q);
    }
  }

  /** Coefficientwise representatives of least absolute value. */
  function CentrePoly(f: Poly, Q: int): (r: Poly)
    requires 0 < Q
    ensures |r| == |f|
  {
    seq(|f|, k requires 0 <= k < |f| => Centre(f[k], Q))
  }

  /** The centred difference is an exact error, and within the distance of the two elements. */
  lemma CentredDifference(f: Poly, g: Poly, b: int, Q: int)
    requires 0 < Q && |f| == |g|
    ensures Near(f, Add(g, CentrePoly(Sub(f, g), Q)), 0, Q)
    ensures Near(f, g, b, Q) ==> Bounded(CentrePoly(Sub(f, g), Q), b)
  {
    hide Centre, Close;
    forall k | 0 <= k < |f|
      ensures Close(f[k], g[k] + Centre(f[k] - g[k], Q), 0, Q)
      ensures Close(f[k], g[k], b, Q) ==> -b <= Centre(f[k] - g[k], Q) <= b
    {
      CentreCong(f[k] - g[k], Q);
      ModAddCong(g[k], g[k], Centre(f[k] - g[k], Q), f[k] - g[k], Q);
      CloseZero(f[k], g[k] + Centre(f[k] - g[k], Q), Q);
      if Close(f[k], g[k], b, Q) {
        CentreClose(f[k], g[k], b, Q);
      }
    }
  }

  lemma MulCoefClose(f: Poly, g: Poly, h: Poly, b: int, Q: int, k: int)
    requires 0 < Q && |f| == |g| && 0 < |f| && Near(g, h, b, Q)
    ensures Close(MulCoef(f, g, k), MulCoef(f, h, k), Norm1(f) * b, Q)
  {
    forall i | 0 <= i < |f|
      ensures Close(Facing(g, k)(i), Facing(h, k)(i), b, Q)
    {
      NearCoef(g, h, b, Q, k - i);
    }
    Norm1Is(f);
    SumClose(|f|, CoefFn(f), Facing(g, k), Facing(h, k), b, Q);
    SumExt(|f|, MulTerm(f, g, k), Prod(CoefFn(f), Facing(g, k)));
    SumExt(|f|, MulTerm(f, h, k), Prod(CoefFn(f), Facing(h, k)));
  }

  /** Multiplying by f spreads an error of size b to at most Norm1(f) * b. */
  lemma NearMul(f: Poly, g: Poly, h: Poly, b: int, Q: int)
    requires 0 < Q && |f| == |g| && Near(g, h, b, Q)
    ensures Near(Mul(f, g), Mul(f, h), Norm1(f) * b, Q)
    ensures Near(Mul(g, f), Mul(h, f), Norm1(f) * b, Q)
  {
    Norm1NonNeg(f);
    MulNonNeg(Norm1(f), b);
    forall k: nat | k < |f|
      ensures Close(Mul(f, g)[k], Mul(f, h)[k], Norm1(f) * b, Q)
    {
      MulCoefClose(f, g, h, b, Q, k);
    }
    MulComm(f, g);
    MulComm(f, h);
  }

  lemma NearMulCong(f: Poly, g: Poly, h: Poly, Q: int)
    requires 0 < Q && |f| == |g| && Near(g, h, 0, Q)
    ensures Near(Mul(f, g), Mul(f, h), 0, Q)
    ensures Near(Mul(g, f), Mul(h, f), 0, Q)
  {
    var w := Norm1(f);
    NearMul(f, g, h, 0, Q);
    assert w * 0 == 0;
  }

  lemma NearScale(c: int, f: Poly, g: Poly, b: int, Q: int)
    requires 0 < Q && Near(f, g, b, Q)
    ensures Near(Scale(c, f), Scale(c, g), Abs(c) * b, Q)
  {
    MulNonNeg(Abs(c), b);
    forall k | 0 <= k < |f|
      ensures Close(c * f[k], c * g[k], Abs(c) * b, Q)
    {
      CloseTimes(c, f[k], g[k], b, Q);
    }
  }

  /** Scaling by congruent integers gives the same element modulo Q. */
  lemma NearScaleCong(c: int, d: int, f: Poly, Q: int)
    requires 0 < Q && c % Q == d % Q
    ensures Near(Scale(c, f), Scale(d, f), 0, Q)
  {
    forall k | 0 <= k < |f|
      ensures Close(c * f[k], d * f[k], 0, Q)
    {
      ModMulCong(c, d, f[k], f[k], Q);
      CloseZero(c * f[k], d * f[k], Q);
    }
  }

  lemma AbsCoefCong(f: Poly, i: int, j: int)
    requires 0 < |f| && i % |f| == j % |f|
    ensures AbsTerm(CoefFn(f))(i) == AbsTerm(CoefFn(f))(j)
  {
    var c := ModEqualWitness(i, j, |f|);
    if 0 <= c {
      AbsCoefSteps(f, j, i, c);
    } else {
      assert j == i + -c * |f|;
      AbsCoefSteps(f, i, j, -c);
    }
  }

  lemma AbsCoefSteps(f: Poly, i: int, j: int, c: nat)
    requires j == i + c * |f|
    ensures AbsTerm(CoefFn(f))(i) == AbsTerm(CoefFn(f))(j)
  {
    CoefSteps(f, i, j, c);
    var x, y := Coef(f, i), Coef(f, j);
    assert CoefFn(f)(i) == x && CoefFn(f)(j) == y;
  }

  lemma AbsCoefPeriodic(f: Poly)
    requires 0 < |f|
    ensures Periodic(AbsTerm(CoefFn(f)), |f|)
  {
    var P := AbsTerm(CoefFn(f));
    forall i: int, j: int {:trigger P(i), P(j)} | i % |f| == j % |f|
      ensures P(i) == P(j)
    {
      AbsCoefCong(f, i, j);
    }
  }

  lemma AbsCoefPullback(f: Poly, u: int, i: int)
    requires u % 2 == 1
    ensures AbsTerm(CoefFn(Pullback(f, u)))(i) == Compose(AbsTerm(CoefFn(f)), Multiply(u))(i)
  {
    CoefPullback(f, u, i);
    assert i * u == u * i;
  }

  lemma Norm1Auto(f: Poly, t: int)
    requires IsPow2(|f|) && t % 2 == 1
    ensures Norm1(Auto(f, t)) == Norm1(f)
  {
    OddInverse(t, |f|);
    Norm1Pullback(f, t, Inverse(t, 2 * |f|));
  }

  lemma Norm1Pullback(f: Poly, t: int, u: int)
    requires 0 < |f| && u % 2 == 1 && (t * u) % (2 * |f|) == 1
    ensures Norm1(Pullback(f, u)) == Norm1(f)
  {
    hide Norm1, AbsTerm, CoefFn, Compose, Multiply;
    var P, R, C := AbsTerm(CoefFn(f)), AbsTerm(CoefFn(Pullback(f, u))), Compose(AbsTerm(CoefFn(f)), Multiply(u));
    AbsCoefPeriodic(f);
    SumMultiplied(|f|, P, t, u);
    forall i | 0 <= i < |f|
      ensures R(i) == C(i)
    {
      AbsCoefPullback(f, u, i);
    }
    Norm1Is(f);
    Norm1Is(Pullback(f, u));
    SumExt(|f|, R, C);
  }
}
