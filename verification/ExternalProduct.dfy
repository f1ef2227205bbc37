/**
  Phases of RingGSW products in Z_Q[X]/(X^N + 1): what a sum of digits times key rows encrypts,
  as an exact ring identity and then with its noise.
 */
module ExternalProduct {
  import opened Arithmetic
  import opened NegacyclicRing
  import opened Automorphisms
  import opened RingNoise
  import opened Gadget

  /** Rows of an evaluation key, each a pair of ring elements. */
  type EvalKey = seq<seq<Poly>>

  /** What the pair (el0, el1) encrypts under the ring secret z, noise included. */
  function Phase(el0: Poly, el1: Poly, z: Poly): (r: Poly)
    requires |el0| == |el1| == |z|
    ensures |r| == |z|
  {
    Sub(el1, Mul(el0, z))
  }

  ghost predicate Polys(v: seq<Poly>, N: nat) {
    forall i :: 0 <= i < |v| ==> |v[i]| == N
  }

  ghost predicate KeyShape(ek: EvalKey, rows: nat, N: nat) {
    |ek| == rows && forall i :: 0 <= i < rows ==> |ek[i]| == 2 && |ek[i][0]| == N && |ek[i][1]| == N
  }

  function Column(ek: EvalKey, c: nat, N: nat): (r: seq<Poly>)
    requires KeyShape(ek, |ek|, N) && c < 2
    ensures |r| == |ek| && Polys(r, N)
  {
    seq(|ek|, i requires 0 <= i < |ek| => ek[i][c])
  }

  function RowPhases(ek: EvalKey, z: Poly): (r: seq<Poly>)
    requires KeyShape(ek, |ek|, |z|)
    ensures |r| == |ek| && Polys(r, |z|)
  {
    seq(|ek|, i requires 0 <= i < |ek| => Phase(ek[i][0], ek[i][1], z))
  }

  /** Sum of ds[i] * cs[i] over the first n rows. */
  function Dot(ds: seq<Poly>, cs: seq<Poly>, N: nat, n: nat): (r: Poly)
    requires n <= |ds| && n <= |cs| && Polys(ds, N) && Polys(cs, N)
    ensures |r| == N
  {
    if n == 0 then Zero(N) else Add(Dot(ds, cs, N, n - 1), Mul(ds[n - 1], cs[n - 1]))
  }

  // ---------------------------------------------------------------------------
  // The phase of a product is the product with the row phases
  // ---------------------------------------------------------------------------

  lemma PhaseStep(A0: Poly, A1: Poly, d: Poly, a: Poly, b: Poly, z: Poly)
    requires |A0| == |A1| == |d| == |a| == |b| == |z|
    ensures Phase(Add(A0, Mul(d, a)), Add(A1, Mul(d, b)), z) == Add(Phase(A0, A1, z), Mul(d, Phase(a, b, z)))
  {
    MulDistributesLeft(z, A0, Mul(d, a));
    MulAssociative(d, a, z);
    MulDistributes(d, b, Mul(a, z));
    Rearrange(A1, Mul(d, b), Mul(A0, z), Mul(d, Mul(a, z)));
  }

  lemma Rearrange(p: Poly, q: Poly, r: Poly, s: Poly)
    requires |p| == |q| == |r| == |s|
    ensures Sub(Add(p, q), Add(r, s)) == Add(Sub(p, r), Sub(q, s))
  {}

  lemma ZeroMul(f: Poly)
    ensures Mul(Zero(|f|), f) == Zero(|f|) && Mul(f, Zero(|f|)) == Zero(|f|)
  {
    assert Zero(|f|) == Scale(0, f);
    MulScale(0, f, f);
    assert Scale(0, Mul(f, f)) == Zero(|f|);
  }

  lemma {:induction false} DotPhase(ds: seq<Poly>, ek: EvalKey, z: Poly, n: nat)
    requires KeyShape(ek, |ek|, |z|) && Polys(ds, |z|) && n <= |ds| && n <= |ek|
    ensures Phase(Dot(ds, Column(ek, 0, |z|), |z|, n), Dot(ds, Column(ek, 1, |z|), |z|, n), z)
         == Dot(ds, RowPhases(ek, z), |z|, n)
  {
    hide Mul, Coef, Close;
    var N := |z|;
    if n == 0 {
      ZeroMul(z);
      assert Phase(Zero(N), Zero(N), z) == Zero(N);
    } else {
      DotPhase(ds, ek, z, n - 1);
      PhaseStep(Dot(ds, Column(ek, 0, N), N, n - 1), Dot(ds, Column(ek, 1, N), N, n - 1),
                ds[n - 1], ek[n - 1][0], ek[n - 1][1], z);
    }
  }

  /** The phase of the product of digits with a whole key. */
  function ProductPhase(ds: seq<Poly>, ek: EvalKey, z: Poly): (r: Poly)
    requires KeyShape(ek, |ds|, |z|) && Polys(ds, |z|)
    ensures |r| == |z|
  {
    Phase(Dot(ds, Column(ek, 0, |z|), |z|, |ds|), Dot(ds, Column(ek, 1, |z|), |z|, |ds|), z)
  }

  /** Sum of ds[i] * cs[i] over all rows. */
  function FullDot(ds: seq<Poly>, cs: seq<Poly>, N: nat): (r: Poly)
    requires |ds| == |cs| && Polys(ds, N) && Polys(cs, N)
    ensures |r| == N
  {
    Dot(ds, cs, N, |ds|)
  }

  lemma ProductOfPhases(ds: seq<Poly>, ek: EvalKey, z: Poly)
    requires KeyShape(ek, |ds|, |z|) && Polys(ds, |z|)
    ensures ProductPhase(ds, ek, z) == FullDot(ds, RowPhases(ek, z), |z|)
  {
    DotPhase(ds, ek, z, |ds|);
  }

  // ---------------------------------------------------------------------------
  // Errors of a digit product
  // ---------------------------------------------------------------------------

  /** What the row phases of a key miss of the rows they stand for, as least representatives. */
  ghost function RowErrors(phases: seq<Poly>, rows: seq<Poly>, N: nat, Q: int): (r: seq<Poly>)
    requires 0 < Q && |phases| == |rows| && Polys(phases, N) && Polys(rows, N)
    ensures |r| == |rows| && Polys(r, N)
  {
    seq(|rows|, i requires 0 <= i < |rows| => CentrePoly(Sub(phases[i], rows[i]), Q))
  }

  /** One row: stored digit times row phase is stored digit times row plus signed digit times row error. */
  lemma RowProductExact(d: Poly, s: Poly, f: Poly, g: Poly, e: Poly, Q: int)
    requires 0 < Q && |d| == |f| == |g| == |e| && Near(d, s, 0, Q) && Near(f, Add(g, e), 0, Q)
    ensures |s| == |d| && Near(Mul(d, f), Add(Mul(d, g), Mul(s, e)), 0, Q)
  {
    hide Mul, Coef, Close;
    NearMulCong(d, f, Add(g, e), Q);
    MulDistributes(d, g, e);
    NearMulCong(e, d, s, Q);
    NearSelf(Mul(d, g), 0, Q);
    NearAdd(Mul(d, g), Mul(d, g), Mul(d, e), Mul(s, e), 0, 0, Q);
    NearTrans(Mul(d, f), Add(Mul(d, g), Mul(d, e)), Add(Mul(d, g), Mul(s, e)), 0, 0, Q);
  }

  lemma AddSwap(p: Poly, q: Poly, r: Poly, s: Poly)
    requires |p| == |q| == |r| == |s|
    ensures Add(Add(p, q), Add(r, s)) == Add(Add(p, r), Add(q, s))
  {}

  /** Digits times row phases, exactly modulo Q. */
  lemma {:induction false} DotExact(ds: seq<Poly>, small: seq<Poly>, phases: seq<Poly>, rows: seq<Poly>, N: nat, n: nat,
                                    Q: int)
    requires 0 < Q && n <= |ds| == |small| == |phases| == |rows|
    requires Polys(ds, N) && Polys(small, N) && Polys(phases, N) && Polys(rows, N)
    requires forall i :: 0 <= i < |ds| ==> Near(ds[i], small[i], 0, Q)
    ensures Near(Dot(ds, phases, N, n), Add(Dot(ds, rows, N, n), Dot(small, RowErrors(phases, rows, N, Q), N, n)), 0, Q)
  {
    hide Mul, Coef, Close, Near, Add;
    var es := RowErrors(phases, rows, N, Q);
    if n == 0 {
      ZeroSum(N);
      NearSelf(Zero(N), 0, Q);
    } else {
      DotExact(ds, small, phases, rows, N, n - 1, Q);
      CentredDifference(phases[n - 1], rows[n - 1], 0, Q);
      var d, s, f, g, e := ds[n - 1], small[n - 1], phases[n - 1], rows[n - 1], es[n - 1];
      RowProductExact(d, s, f, g, e, Q);
      var x, y := Dot(ds, rows, N, n - 1), Dot(small, es, N, n - 1);
      NearAdd(Dot(ds, phases, N, n - 1), Add(x, y), Mul(d, f), Add(Mul(d, g), Mul(s, e)), 0, 0, Q);
      AddSwap(x, y, Mul(d, g), Mul(s, e));
    }
  }

  lemma ZeroSum(N: nat)
    ensures Add(Zero(N), Zero(N)) == Zero(N)
  {}

  /** Bounded digits times bounded errors. */
  lemma {:induction false} DotBounded(small: seq<Poly>, es: seq<Poly>, N: nat, n: nat, h: int, b: int)
    requires 0 <= h && 0 <= b && n <= |small| && n <= |es| && Polys(small, N) && Polys(es, N)
    requires forall i :: 0 <= i < n ==> Bounded(small[i], h) && Bounded(es[i], b)
    ensures Bounded(Dot(small, es, N, n), n * (N * h * b))
  {
    hide Mul, Coef, Bounded;
    if n == 0 {
      ZeroBounded(N);
    } else {
      DotBounded(small, es, N, n - 1, h, b);
      DigitMulBounded(small[n - 1], es[n - 1], N, h, b);
      BoundedAdd(Dot(small, es, N, n - 1), Mul(small[n - 1], es[n - 1]), (n - 1) * (N * h * b), N * h * b);
      assert (n - 1) * (N * h * b) + N * h * b == n * (N * h * b);
    }
  }

  lemma ZeroBounded(N: nat)
    ensures Bounded(Zero(N), 0)
  {}

  lemma DigitMulBounded(s: Poly, e: Poly, N: nat, h: int, b: int)
    requires |s| == |e| == N && Bounded(s, h) && Bounded(e, b) && 0 <= h && 0 <= b
    ensures Bounded(Mul(s, e), N * h * b)
  {
    hide Mul, Norm1, Bounded;
    MulBounded(s, e, b);
    Norm1Bound(s, h);
    Arithmetic.MulMonotone(b, Norm1(s), N * h);
    assert b * Norm1(s) == Norm1(s) * b && b * (N * h) == N * h * b;
    BoundedWiden(Mul(s, e), Norm1(s) * b, N * h * b);
  }

  // ---------------------------------------------------------------------------
  // External product: rows with the gadget in el0 (even) and in el1 (odd)
  // ---------------------------------------------------------------------------

  /** Noise-free phase of row i of a key for the message mu. */
  function GadgetRow(i: nat, mu: Poly, z: Poly, B: nat): (r: Poly)
    requires |mu| == |z|
    ensures |r| == |z|
  {
    if i % 2 == 0 then Scale(-Pow(B, i / 2 + 1), Mul(mu, z)) else Scale(Pow(B, i / 2 + 1), mu)
  }

  function GadgetRows(n: nat, mu: Poly, z: Poly, B: nat): (r: seq<Poly>)
    requires |mu| == |z|
    ensures |r| == n && Polys(r, |z|)
  {
    seq(n, i requires 0 <= i < n => GadgetRow(i, mu, z, B))
  }

  /** The key encrypts mu under z: every row phase is within noise of its gadget multiple. */
  ghost predicate EncryptsMessage(ek: EvalKey, mu: Poly, z: Poly, B: nat, L: nat, noise: int, Q: int)
    requires 0 < Q
  {
    && 1 <= L && 0 <= noise && |mu| == |z| && KeyShape(ek, 2 * (L - 1), |z|)
    && forall i :: 0 <= i < 2 * (L - 1) ==> Near(RowPhases(ek, z)[i], GadgetRow(i, mu, z, B), noise, Q)
  }

  lemma PairIdentity(x: Poly, y: Poly, u: Poly, v: Poly, p: int)
    requires |x| == |y| == |u| == |v|
    ensures Add(Add(Sub(x, y), Scale(-p, u)), Scale(p, v)) == Sub(Add(x, Scale(p, v)), Add(y, Scale(p, u)))
  {
    forall k | 0 <= k < |x|
      ensures -p * u[k] == -(p * u[k])
    {}
  }

  lemma PairStep(X: Poly, Y: Poly, d0: Poly, d1: Poly, mu: Poly, muz: Poly, p: int)
    requires |X| == |Y| == |d0| == |d1| == |mu| == |muz|
    ensures Add(Add(Sub(Mul(mu, X), Mul(muz, Y)), Mul(d0, Scale(-p, muz))), Mul(d1, Scale(p, mu)))
         == Sub(Mul(mu, Add(X, Scale(p, d1))), Mul(muz, Add(Y, Scale(p, d0))))
  {
    MulScale(-p, muz, d0);
    MulScale(p, mu, d1);
    MulScale(p, d1, mu);
    MulScale(p, d0, muz);
    MulComm(d0, muz);
    MulComm(d1, mu);
    MulDistributes(mu, X, Scale(p, d1));
    MulDistributes(muz, Y, Scale(p, d0));
    PairIdentity(Mul(mu, X), Mul(muz, Y), Mul(muz, d0), Mul(mu, d1), p);
  }

  ghost predicate Interleaves(ds: seq<Poly>, ds0: seq<Poly>, ds1: seq<Poly>) {
    && |ds| == 2 * |ds0| && |ds0| == |ds1|
    && forall j :: 0 <= j < |ds0| ==> ds[2 * j] == ds0[j] && ds[2 * j + 1] == ds1[j]
  }

  lemma DotTwice(ds: seq<Poly>, rows: seq<Poly>, N: nat, e: nat)
    requires e + 2 <= |ds| && |rows| == |ds| && Polys(ds, N) && Polys(rows, N)
    ensures Dot(ds, rows, N, e + 2) == Add(Add(Dot(ds, rows, N, e), Mul(ds[e], rows[e])), Mul(ds[e + 1], rows[e + 1]))
  {
    hide Mul, Add, Dot;
    DotNext(ds, rows, N, e);
    DotNext(ds, rows, N, e + 1);
  }

  lemma DotNext(ds: seq<Poly>, cs: seq<Poly>, N: nat, n: nat)
    requires n < |ds| && n < |cs| && Polys(ds, N) && Polys(cs, N)
    ensures Dot(ds, cs, N, n + 1) == Add(Dot(ds, cs, N, n), Mul(ds[n], cs[n]))
  {}

  /** Digits times noise-free rows recompose mu * f1 - mu * z * f0. */
  lemma {:induction false} GadgetDot(ds: seq<Poly>, ds0: seq<Poly>, ds1: seq<Poly>, mu: Poly, z: Poly, B: nat, m: nat)
    requires |mu| == |z| && Interleaves(ds, ds0, ds1) && m <= |ds0|
    requires Polys(ds, |z|) && Polys(ds0, |z|) && Polys(ds1, |z|)
    ensures Dot(ds, GadgetRows(|ds|, mu, z, B), |z|, 2 * m)
         == Sub(Mul(mu, PowerSum(ds1, B, |z|, m)), Mul(Mul(mu, z), PowerSum(ds0, B, |z|, m)))
  {
    hide Mul, Coef, Close, Scale, GadgetRows;
    var N := |z|;
    if m == 0 {
      ZeroMul(mu);
      ZeroMul(Mul(mu, z));
      assert Sub(Zero(N), Zero(N)) == Zero(N);
    } else {
      hide Dot, PowerSum, Sub;
      GadgetDot(ds, ds0, ds1, mu, z, B, m - 1);
      assert ds[2 * (m - 1)] == ds0[m - 1] && ds[2 * (m - 1) + 1] == ds1[m - 1];
      GadgetStep(ds, ds0, ds1, mu, z, B, m, 2 * (m - 1));
    }
  }

  lemma GadgetStep(ds: seq<Poly>, ds0: seq<Poly>, ds1: seq<Poly>, mu: Poly, z: Poly, B: nat, m: nat, e: nat)
    requires |mu| == |z| && 1 <= m <= |ds0| && m <= |ds1| && e == 2 * (m - 1) && e + 2 <= |ds|
    requires Polys(ds, |z|) && Polys(ds0, |z|) && Polys(ds1, |z|) && ds[e] == ds0[m - 1] && ds[e + 1] == ds1[m - 1]
    requires Dot(ds, GadgetRows(|ds|, mu, z, B), |z|, e)
          == Sub(Mul(mu, PowerSum(ds1, B, |z|, m - 1)), Mul(Mul(mu, z), PowerSum(ds0, B, |z|, m - 1)))
    ensures Dot(ds, GadgetRows(|ds|, mu, z, B), |z|, e + 2)
         == Sub(Mul(mu, PowerSum(ds1, B, |z|, m)), Mul(Mul(mu, z), PowerSum(ds0, B, |z|, m)))
  {
    hide Mul, Add, Sub, Scale, Dot, GadgetRows, PowerSum, Pow;
    var N, rows := |z|, GadgetRows(|ds|, mu, z, B);
    GadgetRowPair(|ds|, mu, z, B, m, e);
    DotTwice(ds, rows, N, e);
    PowerSumNext(ds0, B, N, m);
    PowerSumNext(ds1, B, N, m);
    PairSum(Dot(ds, rows, N, e), Dot(ds, rows, N, e + 2), ds[e], ds[e + 1], rows[e], rows[e + 1],
            PowerSum(ds1, B, N, m - 1), PowerSum(ds0, B, N, m - 1), PowerSum(ds1, B, N, m), PowerSum(ds0, B, N, m),
            mu, Mul(mu, z), Pow(B, m));
  }

  lemma PairSum(D: Poly, D': Poly, d0: Poly, d1: Poly, r0: Poly, r1: Poly, X: Poly, Y: Poly, X': Poly, Y': Poly,
                mu: Poly, muz: Poly, p: int)
    requires |D| == |X| == |Y| == |d0| == |d1| == |mu| == |muz| == |r0| == |r1|
    requires D == Sub(Mul(mu, X), Mul(muz, Y)) && D' == Add(Add(D, Mul(d0, r0)), Mul(d1, r1))
    requires r0 == Scale(-p, muz) && r1 == Scale(p, mu) && X' == Add(X, Scale(p, d1)) && Y' == Add(Y, Scale(p, d0))
    ensures |X'| == |Y'| == |mu| && D' == Sub(Mul(mu, X'), Mul(muz, Y'))
  {
    hide Mul, Add, Sub, Scale;
    PairStep(X, Y, d0, d1, mu, muz, p);
  }

  lemma GadgetRowPair(n: nat, mu: Poly, z: Poly, B: nat, m: nat, e: nat)
    requires |mu| == |z| && 1 <= m && e == 2 * (m - 1) && e + 2 <= n
    ensures GadgetRows(n, mu, z, B)[e] == Scale(-Pow(B, m), Mul(mu, z))
    ensures GadgetRows(n, mu, z, B)[e + 1] == Scale(Pow(B, m), mu)
  {
    hide Mul, Scale, Pow;
    assert e % 2 == 0 && e / 2 + 1 == m && (e + 1) % 2 == 1 && (e + 1) / 2 + 1 == m;
  }

  lemma PowerSumNext(ds: seq<Poly>, B: nat, N: nat, m: nat)
    requires 1 <= m <= |ds| && Polys(ds, N)
    ensures PowerSum(ds, B, N, m) == Add(PowerSum(ds, B, N, m - 1), Scale(Pow(B, m), ds[m - 1]))
  {}

  /** Multiplication by mu does not enlarge coefficients: mu is a monomial or zero. */
  ghost predicate UnitMessage(mu: Poly) {
    mu == Zero(|mu|) || exists m: int :: mu == Mono(|mu|, m)
  }

  lemma UnitBounded(mu: Poly, f: Poly, b: int)
    requires UnitMessage(mu) && |mu| == |f| && Bounded(f, b) && 0 <= b
    ensures Bounded(Mul(mu, f), b)
  {
    hide Mul, Coef;
    if mu == Zero(|mu|) {
      ZeroMul(f);
    } else {
      var m: int :| mu == Mono(|mu|, m);
      MulMonomial(f, m);
      BoundedRot(f, m, b);
    }
  }

  /** Noise added by one external product. */
  function ProductNoise(N: nat, Q: int, B: nat, L: nat, noise: int, zNorm: int): int {
    RowsNoise(2 * (L - 1), N, B, noise) + Widened(GadgetError(Q, B, L), zNorm)
  }

  /** Digits times row errors, over n rows. */
  function RowsNoise(n: int, N: nat, B: nat, noise: int): int {
    n * (N * (B / 2) * noise)
  }

  /** Decomposition error of one half, and of the other half times the secret. */
  function Widened(e: int, zNorm: int): int {
    e * (1 + zNorm)
  }

  /** The interleaved digits as signed integers. */
  function SignedInterleaved(f0: Poly, f1: Poly, Q: int, B: int, L: nat): (r: seq<Poly>)
    requires 0 < B && 1 <= L && |f0| == |f1|
    ensures |r| == 2 * (L - 1) && Polys(r, |f0|)
  {
    seq(2 * (L - 1), d requires 0 <= d < 2 * (L - 1) => SignedDigitPoly(if d % 2 == 0 then f0 else f1, Q, B, d / 2 + 1))
  }

  lemma InterleavedSmall(f0: Poly, f1: Poly, Q: int, B: nat, L: nat, d: nat)
    requires 0 < B && B % 2 == 0 && 0 < Q && 1 <= L && |f0| == |f1| && d < 2 * (L - 1)
    ensures Near(Interleaved(f0, f1, Q, B, L)[d], SignedInterleaved(f0, f1, Q, B, L)[d], 0, Q)
    ensures Bounded(SignedInterleaved(f0, f1, Q, B, L)[d], B / 2)
  {
    hide Near, Bounded;
    DigitPolySmall(if d % 2 == 0 then f0 else f1, Q, B, d / 2 + 1);
  }

  /**
    The exact error of one external product: signed digits times row errors, and mu times the phase
    of the two decomposition defects.
   */
  ghost function ProductError(el0: Poly, el1: Poly, ek: EvalKey, mu: Poly, z: Poly, B: nat, L: nat, Q: int): (r: Poly)
    requires 0 < B && 1 <= L && 0 < Q && |el0| == |el1| == |mu| == |z| && KeyShape(ek, 2 * (L - 1), |z|)
    ensures |r| == |z|
  {
    Add(FullDot(SignedInterleaved(el0, el1, Q, B, L),
                RowErrors(RowPhases(ek, z), GadgetRows(2 * (L - 1), mu, z, B), |z|, Q), |z|),
        Mul(mu, Phase(DefectPoly(el0, Q, B, L), DefectPoly(el1, Q, B, L), z)))
  }

  /** Noise-free rows recompose mu times the phase of the elements with their defects. */
  lemma RecomposedExact(el0: Poly, el1: Poly, X0: Poly, X1: Poly, d0: Poly, d1: Poly, mu: Poly, z: Poly, Q: int)
    requires 0 < Q && |el0| == |el1| == |d0| == |d1| == |mu| == |z|
    requires Near(X0, Add(el0, d0), 0, Q) && Near(X1, Add(el1, d1), 0, Q)
    ensures |X0| == |X1| == |z|
    ensures Near(Sub(Mul(mu, X1), Mul(Mul(mu, z), X0)), Add(Mul(mu, Phase(el0, el1, z)), Mul(mu, Phase(d0, d1, z))), 0,
                 Q)
  {
    hide Mul, Coef, Close, Near, Add, Sub;
    RecomposedLengths(X0, X1, el0, el1, d0, d1, Q);
    MuPhase(X0, X1, mu, z);
    NearMulCong(z, X0, Add(el0, d0), Q);
    NearAdd(X1, Add(el1, d1), Mul(X0, z), Mul(Add(el0, d0), z), 0, 0, Q);
    NearMulCong(mu, Sub(X1, Mul(X0, z)), Sub(Add(el1, d1), Mul(Add(el0, d0), z)), Q);
    MulDistributesLeft(z, el0, d0);
    Rearrange(el1, d1, Mul(el0, z), Mul(d0, z));
    MulDistributes(mu, Sub(el1, Mul(el0, z)), Sub(d1, Mul(d0, z)));
  }

  lemma RecomposedLengths(X0: Poly, X1: Poly, el0: Poly, el1: Poly, d0: Poly, d1: Poly, Q: int)
    requires 0 < Q && |el0| == |el1| == |d0| == |d1|
    requires Near(X0, Add(el0, d0), 0, Q) && Near(X1, Add(el1, d1), 0, Q)
    ensures |X0| == |X1| == |el0|
  {}

  lemma MuPhase(X0: Poly, X1: Poly, mu: Poly, z: Poly)
    requires |X0| == |X1| == |mu| == |z|
    ensures Sub(Mul(mu, X1), Mul(Mul(mu, z), X0)) == Mul(mu, Sub(X1, Mul(X0, z)))
  {
    hide Mul, Coef, Sub;
    MulAssociative(mu, z, X0);
    MulComm(z, X0);
    MulDistributes(mu, X1, Mul(X0, z));
  }

  lemma GadgetExact(el0: Poly, el1: Poly, mu: Poly, z: Poly, B: nat, L: nat, Q: int)
    requires 0 < B && B % 2 == 0 && 1 <= L && 1 < Q <= Pow(B, L)
    requires |el0| == |el1| == |z| == |mu| && Reduced(el0, Q) && Reduced(el1, Q)
    ensures var ds := Interleaved(el0, el1, Q, B, L);
            Near(FullDot(ds, GadgetRows(|ds|, mu, z, B), |z|),
                 Add(Mul(mu, Phase(el0, el1, z)),
                     Mul(mu, Phase(DefectPoly(el0, Q, B, L), DefectPoly(el1, Q, B, L), z))), 0, Q)
  {
    hide Mul, Coef, Close, Near, Dot, Phase, GadgetError, GadgetRows, Defect, DefectPoly, PowerSum;
    var ds, ds0, ds1 := Interleaved(el0, el1, Q, B, L), Decomposition(el0, Q, B, L), Decomposition(el1, Q, B, L);
    forall j | 0 <= j < |ds0|
      ensures ds[2 * j] == ds0[j] && ds[2 * j + 1] == ds1[j]
    {
      OverloadsAgree(el0, el1, Q, B, L, j);
    }
    GadgetDot(ds, ds0, ds1, mu, z, B, L - 1);
    DecompositionExact(el0, Q, B, L);
    DecompositionExact(el1, Q, B, L);
    RecomposedExact(el0, el1, PowerSum(ds0, B, |z|, L - 1), PowerSum(ds1, B, |z|, L - 1),
                    DefectPoly(el0, Q, B, L), DefectPoly(el1, Q, B, L), mu, z, Q);
  }

  lemma AddedErrors(f: Poly, g: Poly, e: Poly, h: Poly, x: Poly, Q: int)
    requires 0 < Q && |g| == |e| && |h| == |x| == |e| && Near(f, Add(g, e), 0, Q) && Near(g, Add(h, x), 0, Q)
    ensures Near(f, Add(h, Add(e, x)), 0, Q)
  {
    hide Close;
    NearSelf(e, 0, Q);
    NearAdd(g, Add(h, x), e, e, 0, 0, Q);
    NearTrans(f, Add(g, e), Add(Add(h, x), e), 0, 0, Q);
    assert Add(Add(h, x), e) == Add(h, Add(e, x));
  }

  /**
    External product, exactly: multiplying the digits of (el0, el1) into any key yields mu times the
    old phase plus ProductError, in Z_Q[X]/(X^N + 1), for every mu and whatever the key's errors are.
   */
  lemma ExternalProductExact(el0: Poly, el1: Poly, ek: EvalKey, mu: Poly, z: Poly, B: nat, L: nat, Q: int)
    requires 0 < B && B % 2 == 0 && 1 <= L && 1 < Q <= Pow(B, L) && KeyShape(ek, 2 * (L - 1), |z|)
    requires |el0| == |el1| == |mu| == |z| && Reduced(el0, Q) && Reduced(el1, Q)
    ensures Near(ProductPhase(Interleaved(el0, el1, Q, B, L), ek, z),
                 Add(Mul(mu, Phase(el0, el1, z)), ProductError(el0, el1, ek, mu, z, B, L, Q)), 0, Q)
  {
    hide Mul, Coef, Close, Near, Dot, Phase, Add, ProductPhase, SignedInterleaved, RowErrors, RowPhases, Defect,
         DefectPoly;
    var N, ds, rows := |z|, Interleaved(el0, el1, Q, B, L), GadgetRows(2 * (L - 1), mu, z, B);
    var small := SignedInterleaved(el0, el1, Q, B, L);
    ProductOfPhases(ds, ek, z);
    forall i | 0 <= i < |ds|
      ensures Near(ds[i], small[i], 0, Q)
    {
      InterleavedSmall(el0, el1, Q, B, L, i);
    }
    DotExact(ds, small, RowPhases(ek, z), rows, N, |ds|, Q);
    GadgetExact(el0, el1, mu, z, B, L, Q);
    AddedErrors(FullDot(ds, RowPhases(ek, z), N), FullDot(ds, rows, N),
                FullDot(small, RowErrors(RowPhases(ek, z), rows, N, Q), N),
                Mul(mu, Phase(el0, el1, z)), Mul(mu, Phase(DefectPoly(el0, Q, B, L), DefectPoly(el1, Q, B, L), z)), Q);
  }

  /** For a key with bounded row errors and a monomial or zero message the error is at most ProductNoise. */
  lemma ProductErrorBounded(el0: Poly, el1: Poly, ek: EvalKey, mu: Poly, z: Poly, B: nat, L: nat, noise: int, Q: int)
    requires 0 < B && B % 2 == 0 && 1 <= L && 1 < Q <= Pow(B, L)
    requires |el0| == |el1| == |z| && Reduced(el0, Q) && Reduced(el1, Q)
    requires UnitMessage(mu) && EncryptsMessage(ek, mu, z, B, L, noise, Q)
    ensures Bounded(ProductError(el0, el1, ek, mu, z, B, L, Q), ProductNoise(|z|, Q, B, L, noise, Norm1(z)))
  {
    hide Mul, Coef, Close, Near, Dot, Phase, Add, Bounded, GadgetError, SignedInterleaved, RowErrors, RowPhases,
         Defect, DefectPoly, Norm1,
         UnitMessage, GadgetRow;
    var N, e := |z|, GadgetError(Q, B, L);
    var small, es := SignedInterleaved(el0, el1, Q, B, L),
                     RowErrors(RowPhases(ek, z), GadgetRows(2 * (L - 1), mu, z, B), N, Q);
    forall i | 0 <= i < 2 * (L - 1)
      ensures Bounded(small[i], B / 2) && Bounded(es[i], noise)
    {
      InterleavedSmall(el0, el1, Q, B, L, i);
      RowErrorBounded(RowPhases(ek, z), GadgetRows(2 * (L - 1), mu, z, B), N, Q, i, noise);
    }
    DotBounded(small, es, N, 2 * (L - 1), B / 2, noise);
    DefectPhaseBounded(el0, el1, z, B, L, Q);
    GadgetErrorNonNeg(Q, B, L);
    Norm1NonNeg(z);
    MulNonNeg(e, 1 + Norm1(z));
    var d := Phase(DefectPoly(el0, Q, B, L), DefectPoly(el1, Q, B, L), z);
    UnitBounded(mu, d, Widened(e, Norm1(z)));
    BoundedAdd(FullDot(small, es, N), Mul(mu, d), RowsNoise(2 * (L - 1), N, B, noise), Widened(e, Norm1(z)));
  }

  lemma GadgetErrorNonNeg(Q: int, B: nat, L: nat)
    requires Q <= Pow(B, L)
    ensures 0 <= GadgetError(Q, B, L)
  {}

  lemma RowErrorBounded(phases: seq<Poly>, rows: seq<Poly>, N: nat, Q: int, i: nat, noise: int)
    requires 0 < Q && |phases| == |rows| && Polys(phases, N) && Polys(rows, N) && i < |rows|
    requires Near(phases[i], rows[i], noise, Q)
    ensures Bounded(RowErrors(phases, rows, N, Q)[i], noise)
  {
    hide Near, Bounded, Sub, CentrePoly;
    CentredDifference(phases[i], rows[i], noise, Q);
  }

  lemma DefectPhaseBounded(el0: Poly, el1: Poly, z: Poly, B: nat, L: nat, Q: int)
    requires 0 < B && B % 2 == 0 && 1 <= L && 1 < Q <= Pow(B, L) && |el0| == |el1| == |z| && Reduced(el0, Q)
    requires Reduced(el1, Q)
    ensures Bounded(Phase(DefectPoly(el0, Q, B, L), DefectPoly(el1, Q, B, L), z),
                    Widened(GadgetError(Q, B, L), Norm1(z)))
  {
    hide Mul, Coef, Near, Bounded, GadgetError, Defect, DefectPoly, Norm1, Add, Sub, PowerSum, Decomposition;
    var d0, d1, e, w := DefectPoly(el0, Q, B, L), DefectPoly(el1, Q, B, L), GadgetError(Q, B, L), Norm1(z);
    DecompositionExact(el0, Q, B, L);
    DecompositionExact(el1, Q, B, L);
    GadgetErrorNonNeg(Q, B, L);
    MulComm(d0, z);
    MulBounded(z, d0, e);
    BoundedAdd(d1, Mul(d0, z), e, w * e);
    assert e * (1 + w) == e + w * e;
  }

  /** The worst case: mu times the old phase up to ProductNoise. */
  lemma ExternalProductPhase(el0: Poly, el1: Poly, ek: EvalKey, mu: Poly, z: Poly, B: nat, L: nat, noise: int, Q: int)
    requires 0 < B && B % 2 == 0 && 1 <= L && 1 < Q <= Pow(B, L)
    requires |el0| == |el1| == |z| && Reduced(el0, Q) && Reduced(el1, Q)
    requires UnitMessage(mu) && EncryptsMessage(ek, mu, z, B, L, noise, Q)
    ensures Near(ProductPhase(Interleaved(el0, el1, Q, B, L), ek, z), Mul(mu, Phase(el0, el1, z)),
                 ProductNoise(|z|, Q, B, L, noise, Norm1(z)), Q)
  {
    hide Mul, Coef, Close, Near, Phase, Bounded, ProductPhase, ProductError, ProductNoise, Norm1, UnitMessage;
    ExternalProductExact(el0, el1, ek, mu, z, B, L, Q);
    ProductErrorBounded(el0, el1, ek, mu, z, B, L, noise, Q);
    ProductNoiseNonNeg(|z|, Q, B, L, noise, z);
    NearBounded(ProductPhase(Interleaved(el0, el1, Q, B, L), ek, z), Mul(mu, Phase(el0, el1, z)),
                ProductError(el0, el1, ek, mu, z, B, L, Q), ProductNoise(|z|, Q, B, L, noise, Norm1(z)), Q);
  }

  lemma ProductNoiseNonNeg(N: nat, Q: int, B: nat, L: nat, noise: int, z: Poly)
    requires 1 <= L && 0 <= noise && Q <= Pow(B, L)
    ensures 0 <= ProductNoise(N, Q, B, L, noise, Norm1(z)) && 0 <= AutoNoise(N, Q, B, L, noise, Norm1(z))
  {
    hide GadgetError, Norm1;
    var g, w := GadgetError(Q, B, L), Norm1(z);
    GadgetErrorNonNeg(Q, B, L);
    Norm1NonNeg(z);
    MulNonNeg(g, 1 + w);
    MulNonNeg(w, g);
    MulNonNeg(N, B / 2);
    MulNonNeg(N * (B / 2), noise);
    MulNonNeg(2 * (L - 1), N * (B / 2) * noise);
    MulNonNeg(L - 1, N * (B / 2) * noise);
  }

  // ---------------------------------------------------------------------------
  // Automorphism keys
  // ---------------------------------------------------------------------------

  /** The key re-encrypts from z(X^t) to z: row i carries -z(X^t) times the (i+1)st gadget power. */
  ghost predicate SwitchesAuto(ak: EvalKey, t: int, z: Poly, B: nat, L: nat, noise: int, Q: int)
    requires 0 < Q
  {
    && 1 <= L && 0 <= noise && KeyShape(ak, L - 1, |z|)
    && forall i :: 0 <= i < L - 1 ==> Near(RowPhases(ak, z)[i], Scale(-Pow(B, i + 1), Auto(z, t)), noise, Q)
  }

  function ScaledRows(n: nat, f: Poly, B: nat): (r: seq<Poly>)
    ensures |r| == n && Polys(r, |f|)
  {
    seq(n, i requires 0 <= i < n => Scale(-Pow(B, i + 1), f))
  }

  lemma SubStep(x: Poly, u: Poly, p: int)
    requires |x| == |u|
    ensures Add(Scale(-1, x), Scale(-p, u)) == Scale(-1, Add(x, Scale(p, u)))
  {
    forall k | 0 <= k < |x|
      ensures -1 * x[k] + -p * u[k] == -1 * (x[k] + p * u[k])
    {}
  }

  lemma {:induction false} ScaledDot(ds: seq<Poly>, f: Poly, B: nat, n: nat)
    requires Polys(ds, |f|) && n <= |ds|
    ensures Dot(ds, ScaledRows(|ds|, f, B), |f|, n) == Scale(-1, Mul(PowerSum(ds, B, |f|, n), f))
  {
    hide Mul, Coef, Close;
    var N := |f|;
    if n == 0 {
      ZeroMul(f);
      assert Scale(-1, Zero(N)) == Zero(N);
    } else {
      ScaledDot(ds, f, B, n - 1);
      var X, d, p := PowerSum(ds, B, N, n - 1), ds[n - 1], Pow(B, n);
      MulScale(-p, f, d);
      MulDistributesLeft(f, X, Scale(p, d));
      MulScale(p, d, f);
      SubStep(Mul(X, f), Mul(d, f), p);
    }
  }

  function Spread(e: int, zNorm: int): int {
    zNorm * e
  }

  function AutoNoise(N: nat, Q: int, B: nat, L: nat, noise: int, zNorm: int): int {
    RowsNoise(L - 1, N, B, noise) + Spread(GadgetError(Q, B, L), zNorm)
  }

  function SignedDecomposition(f: Poly, Q: int, B: int, L: nat): (r: seq<Poly>)
    requires 0 < B && 1 <= L
    ensures |r| == L - 1 && Polys(r, |f|)
  {
    seq(L - 1, d requires 0 <= d < L - 1 => SignedDigitPoly(f, Q, B, d + 1))
  }

  lemma DecompositionSmall(f: Poly, Q: int, B: nat, L: nat, d: nat)
    requires 0 < B && B % 2 == 0 && 0 < Q && 1 <= L && d < L - 1
    ensures Near(Decomposition(f, Q, B, L)[d], SignedDecomposition(f, Q, B, L)[d], 0, Q)
    ensures Bounded(SignedDecomposition(f, Q, B, L)[d], B / 2)
  {
    hide Near, Bounded;
    DigitPolySmall(f, Q, B, d + 1);
  }

  /**
    The exact error of one key-switched automorphism: signed digits times row errors, minus the
    defect times w = z(X^t).
   */
  ghost function AutoError(f: Poly, ak: EvalKey, w: Poly, z: Poly, B: nat, L: nat, Q: int): (r: Poly)
    requires 0 < B && 1 <= L && 0 < Q && |f| == |w| == |z| && KeyShape(ak, L - 1, |z|)
    ensures |r| == |z|
  {
    Sub(FullDot(SignedDecomposition(f, Q, B, L), RowErrors(RowPhases(ak, z), ScaledRows(L - 1, w, B), |z|, Q), |z|),
        Mul(DefectPoly(f, Q, B, L), w))
  }

  /** Digits of f times an automorphism key encrypt -f * w, exactly. */
  lemma AutoRowsExact(f: Poly, ak: EvalKey, w: Poly, z: Poly, B: nat, L: nat, Q: int)
    requires 0 < B && B % 2 == 0 && 1 <= L && 1 < Q <= Pow(B, L) && |f| == |w| == |z| && Reduced(f, Q)
    requires KeyShape(ak, L - 1, |z|)
    ensures Near(ProductPhase(Decomposition(f, Q, B, L), ak, z),
                 Add(Scale(-1, Mul(f, w)), AutoError(f, ak, w, z, B, L, Q)), 0, Q)
  {
    hide Mul, Coef, Close, Near, Dot, Phase, Add, ProductPhase, SignedDecomposition, RowErrors, RowPhases, Defect,
         DefectPoly, ScaledRows, Sub, Scale,
         Decomposition, PowerSum;
    var N, ds, rows, small := |z|, Decomposition(f, Q, B, L), ScaledRows(L - 1, w, B), SignedDecomposition(f, Q, B, L);
    ProductOfPhases(ds, ak, z);
    forall i | 0 <= i < |ds|
      ensures Near(ds[i], small[i], 0, Q)
    {
      DecompositionSmall(f, Q, B, L, i);
    }
    DotExact(ds, small, RowPhases(ak, z), rows, N, |ds|, Q);
    ScaledDot(ds, w, B, L - 1);
    DecompositionExact(f, Q, B, L);
    NegatedRecomposed(f, PowerSum(ds, B, N, L - 1), DefectPoly(f, Q, B, L), w, Q);
    var e := FullDot(small, RowErrors(RowPhases(ak, z), rows, N, Q), N);
    AddedErrors(FullDot(ds, RowPhases(ak, z), N), FullDot(ds, rows, N), e, Scale(-1, Mul(f, w)),
                Scale(-1, Mul(DefectPoly(f, Q, B, L), w)), Q);
    AddNegated(e, Mul(DefectPoly(f, Q, B, L), w));
  }

  lemma AddNegated(x: Poly, y: Poly)
    requires |x| == |y|
    ensures Add(x, Scale(-1, y)) == Sub(x, y)
  {}

  lemma NegatedRecomposed(f: Poly, X: Poly, d: Poly, w: Poly, Q: int)
    requires 0 < Q && |f| == |d| == |w| && Near(X, Add(f, d), 0, Q)
    ensures |X| == |f| && Near(Scale(-1, Mul(X, w)), Add(Scale(-1, Mul(f, w)), Scale(-1, Mul(d, w))), 0, Q)
  {
    hide Mul, Coef, Close;
    NearMulCong(w, X, Add(f, d), Q);
    NearScale(-1, Mul(X, w), Mul(Add(f, d), w), 0, Q);
    MulDistributesLeft(w, f, d);
    assert Scale(-1, Add(Mul(f, w), Mul(d, w))) == Add(Scale(-1, Mul(f, w)), Scale(-1, Mul(d, w)));
  }

  /**
    Automorphism with key switching, exactly: el1(X^t) plus the product of the digits of el0(X^t)
    with any key has the old phase with X replaced by X^t, plus AutoError.
   */
  lemma AutomorphismExact(el0: Poly, el1: Poly, f: Poly, ak: EvalKey, t: int, z: Poly, B: nat, L: nat, Q: int)
    requires 0 < B && B % 2 == 0 && 1 <= L && 1 < Q <= Pow(B, L) && |el0| == |el1| == |z| && KeyShape(ak, L - 1, |z|)
    requires IsPow2(|z|) && t % 2 == 1 && f == Reduce(Auto(el0, t), Q)
    ensures Near(Add(Auto(el1, t), ProductPhase(Decomposition(f, Q, B, L), ak, z)),
                 Add(Auto(Phase(el0, el1, z), t), AutoError(f, ak, Auto(z, t), z, B, L, Q)), 0, Q)
  {
    hide Mul, Coef, Close, Near, Dot, Phase, FullDot, ProductPhase, AutoError, Auto, Add, Scale, Reduce, Reduced;
    var w, target := Auto(z, t), Scale(-1, Mul(f, Auto(z, t)));
    ReduceNear(Auto(el0, t), Q);
    AutoRowsExact(f, ak, w, z, B, L, Q);
    AutoTarget(el0, el1, f, t, z, Q);
    AddedTarget(Auto(el1, t), ProductPhase(Decomposition(f, Q, B, L), ak, z), target, AutoError(f, ak, w, z, B, L, Q),
                Auto(Phase(el0, el1, z), t), Q);
  }

  lemma AddedTarget(h: Poly, f: Poly, g: Poly, e: Poly, target: Poly, Q: int)
    requires 0 < Q && |h| == |g| == |e| && Near(f, Add(g, e), 0, Q) && Near(Add(h, g), target, 0, Q)
    ensures |f| == |h| == |target| && Near(Add(h, f), Add(target, e), 0, Q)
  {
    hide Close;
    NearSelf(h, 0, Q);
    NearSelf(e, 0, Q);
    NearAdd(h, h, f, Add(g, e), 0, 0, Q);
    NearAdd(Add(h, g), target, e, e, 0, 0, Q);
    assert Add(h, Add(g, e)) == Add(Add(h, g), e);
    NearTrans(Add(h, f), Add(h, Add(g, e)), Add(target, e), 0, 0, Q);
  }

  /** For a key with bounded row errors the error of an automorphism is at most AutoNoise. */
  lemma AutoErrorBounded(f: Poly, ak: EvalKey, t: int, z: Poly, B: nat, L: nat, noise: int, Q: int)
    requires 0 < B && B % 2 == 0 && 1 <= L && 1 < Q <= Pow(B, L) && |f| == |z| && Reduced(f, Q)
    requires IsPow2(|z|) && t % 2 == 1 && SwitchesAuto(ak, t, z, B, L, noise, Q)
    ensures Bounded(AutoError(f, ak, Auto(z, t), z, B, L, Q), AutoNoise(|z|, Q, B, L, noise, Norm1(z)))
  {
    hide Mul, Coef, Close, Near, Dot, Add, Sub, Bounded, GadgetError, SignedDecomposition, RowErrors, RowPhases,
         Defect, DefectPoly, Norm1, Auto,
         ScaledRows, Scale, Pow, PowerSum, Decomposition, Reduced;
    var N, e, w := |z|, GadgetError(Q, B, L), Auto(z, t);
    var small, es := SignedDecomposition(f, Q, B, L), RowErrors(RowPhases(ak, z), ScaledRows(L - 1, w, B), N, Q);
    forall i | 0 <= i < L - 1
      ensures Bounded(small[i], B / 2) && Bounded(es[i], noise)
    {
      DecompositionSmall(f, Q, B, L, i);
      ScaledRowAt(L - 1, w, B, i);
      RowErrorBounded(RowPhases(ak, z), ScaledRows(L - 1, w, B), N, Q, i, noise);
    }
    DotBounded(small, es, N, L - 1, B / 2, noise);
    DecompositionExact(f, Q, B, L);
    GadgetErrorNonNeg(Q, B, L);
    Norm1Auto(z, t);
    MulComm(DefectPoly(f, Q, B, L), w);
    MulBounded(w, DefectPoly(f, Q, B, L), e);
    BoundedAdd(FullDot(small, es, N), Mul(DefectPoly(f, Q, B, L), w), RowsNoise(L - 1, N, B, noise),
               Spread(e, Norm1(z)));
  }

  lemma ScaledRowAt(n: nat, f: Poly, B: nat, i: nat)
    requires i < n
    ensures ScaledRows(n, f, B)[i] == Scale(-Pow(B, i + 1), f)
  {}

  /** The worst case: the old phase with X replaced by X^t, up to AutoNoise. */
  lemma AutomorphismPhase(el0: Poly, el1: Poly, f: Poly, ak: EvalKey, t: int, z: Poly, B: nat, L: nat, noise: int,
                          Q: int)
    requires 0 < B && B % 2 == 0 && 1 <= L && 1 < Q <= Pow(B, L) && |el0| == |el1| == |z|
    requires IsPow2(|z|) && t % 2 == 1 && SwitchesAuto(ak, t, z, B, L, noise, Q) && f == Reduce(Auto(el0, t), Q)
    ensures Near(Add(Auto(el1, t), ProductPhase(Decomposition(f, Q, B, L), ak, z)), Auto(Phase(el0, el1, z), t),
                 AutoNoise(|z|, Q, B, L, noise, Norm1(z)), Q)
  {
    hide Mul, Coef, Close, Near, Phase, ProductPhase, AutoError, AutoNoise, Norm1, Auto, Reduce, Bounded,
         Decomposition, Reduced;
    ReduceNear(Auto(el0, t), Q);
    AutomorphismExact(el0, el1, f, ak, t, z, B, L, Q);
    AutoErrorBounded(f, ak, t, z, B, L, noise, Q);
    ProductNoiseNonNeg(|z|, Q, B, L, noise, z);
    NearBounded(Add(Auto(el1, t), ProductPhase(Decomposition(f, Q, B, L), ak, z)), Auto(Phase(el0, el1, z), t),
                AutoError(f, ak, Auto(z, t), z, B, L, Q), AutoNoise(|z|, Q, B, L, noise, Norm1(z)), Q);
  }

  lemma AutoTarget(el0: Poly, el1: Poly, f: Poly, t: int, z: Poly, Q: int)
    requires 0 < Q && |el0| == |el1| == |z| && IsPow2(|z|) && t % 2 == 1 && Near(f, Auto(el0, t), 0, Q)
    ensures Near(Add(Auto(el1, t), Scale(-1, Mul(f, Auto(z, t)))), Auto(Phase(el0, el1, z), t), 0, Q)
  {
    hide Mul, Auto, Near, IsPow2, Add, Sub, Scale;
    var w := Auto(z, t);
    AutoAdd(el1, Mul(el0, z), t);
    AutoMul(el0, z, t);
    NearSize(f, Auto(el0, t), 0, Q);
    NearMulCong(w, f, Auto(el0, t), Q);
    NearSelf(Auto(el1, t), 0, Q);
    NearAdd(Auto(el1, t), Auto(el1, t), Mul(f, w), Mul(Auto(el0, t), w), 0, 0, Q);
    AddNegated(Auto(el1, t), Mul(f, w));
  }

  lemma NearSize(f: Poly, g: Poly, b: int, Q: int)
    requires 0 < Q && Near(f, g, b, Q)
    ensures |f| == |g|
  {
    hide Close;
  }
}
