/**
  The automorphisms X -> X^t of Z[X]/(X^N + 1) for odd t and N a power of two.
 */
module Automorphisms {
  import opened Arithmetic
  import opened Sums
  import opened NegacyclicRing

  // ---------------------------------------------------------------------------
  // Inverses of odd numbers modulo a power of two
  // ---------------------------------------------------------------------------

  /** Least u in [from, M) with t * u = 1 modulo M, or M when there is none. */
  function InverseFrom(t: int, M: int, from: nat): (u: nat)
    requires 1 < M && from <= M
    ensures from <= u <= M
    ensures u < M ==> (t * u) % M == 1
    ensures forall v :: from <= v < u ==> (t * v) % M != 1
    decreases M - from
  {
    if from == M then M else if (t * from) % M == 1 then from else InverseFrom(t, M, from + 1)
  }

  function Inverse(t: int, M: int): (u: nat)
    requires 1 < M
  {
    InverseFrom(t, M, 0)
  }

  lemma {:induction false} OddInverseExists(t: int, e: nat) returns (u: int)
    requires t % 2 == 1
    ensures (t * u) % Pow(2, e + 1) == 1
  {
    if e == 0 {
      u := 1;
    } else {
      var v := OddInverseExists(t, e - 1);
      u := LiftInverse(t, v, Pow(2, e));
    }
  }

  /** An inverse modulo m is one modulo 2m, or becomes one when m is added to it. */
  lemma LiftInverse(t: int, v: int, m: int) returns (u: int)
    requires t % 2 == 1 && 1 < m && (t * v) % m == 1
    ensures (t * u) % (2 * m) == 1
  {
    var c := t * v / m;
    assert t * v == c * m + 1;
    if c % 2 == 0 {
      u := v;
      OneMore(t * u, c, c / 2, m);
    } else {
      u := v + m;
      NextRow(t, v, c, m);
      OneMore(t * u, c + t, (c + t) / 2, m);
    }
  }

  lemma NextRow(t: int, v: int, c: int, m: int)
    requires t * v == c * m + 1 && t % 2 == 1 && c % 2 == 1
    ensures t * (v + m) == (c + t) * m + 1 && c + t == 2 * ((c + t) / 2)
  {
    assert t * (v + m) == t * v + t * m;
    assert (c + t) * m == c * m + t * m;
    DivModIs(c + t, 2, c / 2 + t / 2 + 1, 0);
  }

  lemma OneMore(x: int, c: int, d: int, m: int)
    requires 0 < m && x == c * m + 1 && c == 2 * d
    ensures x % (2 * m) == 1
  {
    assert x == d * (2 * m) + 1;
    DivModIs(x, 2 * m, d, 1);
  }

  /** What the automorphisms need: u is an odd inverse of t modulo 2N. */
  lemma OddInverse(t: int, N: int)
    requires IsPow2(N) && t % 2 == 1
    ensures 0 < N
    ensures (t * Inverse(t, 2 * N)) % (2 * N) == 1
    ensures Inverse(t, 2 * N) % 2 == 1
  {
    var e: nat :| N == Pow(2, e);
    var v := OddInverseExists(t, e);
    assert 2 * N == Pow(2, e + 1);
    var u := v % (2 * N);
    ModMod(v, 2 * N);
    ModMulCong(t, t, u, v, 2 * N);
    assert Inverse(t, 2 * N) <= u;
    OddProduct(t, Inverse(t, 2 * N), N);
  }

  lemma OddProduct(t: int, u: int, N: int)
    requires 0 < N && (t * u) % (2 * N) == 1
    ensures u % 2 == 1
  {
    assert 2 * N == N * 2;
    ModOfMultiple(t * u, N, 2);
    ModMulCong(t, t, u, u % 2, 2);
  }

  lemma InverseUnique(t: int, u: int, v: int, M: int)
    requires 1 < M && (t * u) % M == 1 && (t * v) % M == 1
    ensures u % M == v % M
  {
    ModSmall(1, M);
    ModMulCong(u, u, t * v, 1, M);
    ModMulCong(v, v, t * u, 1, M);
    Rotated(u, t, v);
  }

  lemma Rotated(u: int, t: int, v: int)
    ensures u * (t * v) == v * (t * u)
  {
    MulAssoc(u, t, v);
    MulAssoc(v, t, u);
  }

  // ---------------------------------------------------------------------------
  // Pulling indices back along multiplication by an odd number
  // ---------------------------------------------------------------------------

  /** The element whose coefficient at k is that of f at k * u. */
  function Pullback(f: Poly, u: int): (r: Poly)
    ensures |r| == |f|
  {
    seq(|f|, k => Coef(f, k * u))
  }

  /** f(X^t). */
  function Auto(f: Poly, t: int): (r: Poly)
    ensures |r| == |f|
  {
    if |f| == 0 then f else Pullback(f, Inverse(t, 2 * |f|))
  }

  lemma CoefOddShift(f: Poly, i: int, j: int, u: int)
    requires u % 2 == 1 && j == i - |f| * u
    ensures Coef(f, j) == -Coef(f, i)
  {
    var w := u / 2;
    assert u == 2 * w + 1;
    assert i == j + |f| + w * (2 * |f|) by {
      assert |f| * (2 * w + 1) == w * (2 * |f|) + |f|;
    }
    CoefPeriod(f, j + |f|, w);
    CoefAnti(f, j);
  }

  lemma CoefPullback(f: Poly, u: int, k: int)
    requires u % 2 == 1
    ensures Coef(Pullback(f, u), k) == Coef(f, k * u)
  {
    var N := |f|;
    if N != 0 {
      var r, d := k % (2 * N), k / (2 * N);
      assert k == d * (2 * N) + r;
      assert k * u == r * u + (d * u) * (2 * N);
      CoefPeriod(f, r * u, d * u);
      if r >= N {
        assert (r - N) * u == r * u - N * u;
        CoefOddShift(f, r * u, (r - N) * u, u);
      }
    }
  }

  lemma PullbackCong(f: Poly, u: int, v: int)
    requires 0 < |f| && u % (2 * |f|) == v % (2 * |f|)
    ensures Pullback(f, u) == Pullback(f, v)
  {
    forall k: nat | k < |f|
      ensures Pullback(f, u)[k] == Pullback(f, v)[k]
    {
      ModMulCong(k, k, u, v, 2 * |f|);
      CoefCong(f, k * u, k * v);
    }
  }

  lemma PullbackTwice(f: Poly, u: int, v: int)
    requires u % 2 == 1
    ensures Pullback(Pullback(f, u), v) == Pullback(f, v * u)
  {
    forall k: nat | k < |f|
      ensures Pullback(Pullback(f, u), v)[k] == Pullback(f, v * u)[k]
    {
      CoefPullback(f, u, k * v);
      MulAssoc(k, v, u);
    }
  }

  lemma PullbackAdd(f: Poly, g: Poly, u: int)
    requires |f| == |g|
    ensures Pullback(Add(f, g), u) == Add(Pullback(f, u), Pullback(g, u))
    ensures Pullback(Sub(f, g), u) == Sub(Pullback(f, u), Pullback(g, u))
  {
    forall k: nat | k < |f|
      ensures Pullback(Add(f, g), u)[k] == Pullback(f, u)[k] + Pullback(g, u)[k]
    {
      CoefAdd(f, g, k * u);
    }
    forall k: nat | k < |f|
      ensures Pullback(Sub(f, g), u)[k] == Pullback(f, u)[k] - Pullback(g, u)[k]
    {
      CoefAdd(f, g, k * u);
    }
  }

  function Multiply(c: int): int -> int {
    i => c * i
  }

  lemma MultiplyBack(t: int, u: int, i: int, N: int)
    requires 0 <= i < N && (t * u) % (2 * N) == 1
    ensures Multiply(t)(Multiply(u)(i) % N) % N == i
  {
    ModMod(u * i, N);
    ModMulCong(t, t, (u * i) % N, u * i, N);
    var d := t * u / (2 * N);
    assert t * u == d * (2 * N) + 1;
    assert t * (u * i) == i + (d * 2 * i) * N by {
      MulAssoc(t, u, i);
      assert (d * (2 * N) + 1) * i == d * (2 * N) * i + i;
    }
    ModEqualIntro(t * (u * i), i, d * 2 * i, N);
    ModSmall(i, N);
  }

  lemma MulTermPullback(f: Poly, g: Poly, u: int, k: int, i: int)
    requires u % 2 == 1
    ensures MulTerm(Pullback(f, u), Pullback(g, u), k)(i) == Compose(MulTerm(f, g, k * u), Multiply(u))(i)
  {
    CoefPullback(f, u, i);
    CoefPullback(g, u, k - i);
    assert (k - i) * u == k * u - u * i && i * u == u * i;
  }

  lemma SumMultiplied(N: nat, P: int -> int, t: int, u: int)
    requires 0 < N && Periodic(P, N) && (t * u) % (2 * N) == 1
    ensures Sum(N, Compose(P, Multiply(u))) == Sum(N, P)
  {
    var there, back := Multiply(u), Multiply(t);
    forall i | 0 <= i < N
      ensures back(there(i) % N) % N == i
    {
      MultiplyBack(t, u, i, N);
    }
    assert u * t == t * u;
    forall i | 0 <= i < N
      ensures there(back(i) % N) % N == i
    {
      MultiplyBack(u, t, i, N);
    }
    SumPermute(N, P, there, back);
  }

  lemma MulCoefPullback(f: Poly, g: Poly, t: int, u: int, k: int)
    requires |f| == |g| && 0 < |f| && u % 2 == 1 && (t * u) % (2 * |f|) == 1
    ensures MulCoef(Pullback(f, u), Pullback(g, u), k) == MulCoef(f, g, k * u)
  {
    var N := |f|;
    var P, Q := MulTerm(f, g, k * u), MulTerm(Pullback(f, u), Pullback(g, u), k);
    MulTermPeriodic(f, g, k * u);
    SumMultiplied(N, P, t, u);
    forall i | 0 <= i < N
      ensures Q(i) == Compose(P, Multiply(u))(i)
    {
      MulTermPullback(f, g, u, k, i);
    }
    SumExt(N, Q, Compose(P, Multiply(u)));
  }

  lemma PullbackMul(f: Poly, g: Poly, t: int, u: int)
    requires |f| == |g| && 0 < |f| && u % 2 == 1 && (t * u) % (2 * |f|) == 1
    ensures Pullback(Mul(f, g), u) == Mul(Pullback(f, u), Pullback(g, u))
  {
    forall k: nat | k < |f|
      ensures Pullback(Mul(f, g), u)[k] == Mul(Pullback(f, u), Pullback(g, u))[k]
    {
      MulCoefPullback(f, g, t, u, k);
      CoefMul(f, g, k * u);
    }
  }

  lemma PullbackRot(f: Poly, m: int, t: int, u: int)
    requires 0 < |f| && u % 2 == 1 && (t * u) % (2 * |f|) == 1
    ensures Pullback(Rot(f, m), u) == Rot(Pullback(f, u), m * t)
  {
    forall k: nat | k < |f|
      ensures Pullback(Rot(f, m), u)[k] == Rot(Pullback(f, u), m * t)[k]
    {
      CoefRot(f, m, k * u);
      CoefPullback(f, u, k - m * t);
      RotIndex(k, m, t, u, 2 * |f|);
      CoefCong(f, k * u - m, (k - m * t) * u);
    }
  }

  lemma RotIndex(k: int, m: int, t: int, u: int, M: int)
    requires 1 < M && (t * u) % M == 1
    ensures (k * u - m) % M == ((k - m * t) * u) % M
  {
    var d := t * u / M;
    assert t * u == d * M + 1;
    assert (k - m * t) * u == k * u - m * (t * u);
    assert m * (t * u) == m + (m * d) * M;
    ModEqualIntro(k * u - m, (k - m * t) * u, m * d, M);
  }

  // ---------------------------------------------------------------------------
  // The automorphisms
  // ---------------------------------------------------------------------------

  /** Coefficient i of f moves to index i * t. */
  lemma CoefAuto(f: Poly, t: int, i: int)
    requires IsPow2(|f|) && t % 2 == 1
    ensures Coef(Auto(f, t), i * t) == Coef(f, i)
  {
    OddInverse(t, |f|);
    var u, M := Inverse(t, 2 * |f|), 2 * |f|;
    CoefPullback(f, u, i * t);
    IndexBack(i, t, u, M);
    CoefCong(f, i * t * u, i);
  }

  lemma IndexBack(i: int, t: int, u: int, M: int)
    requires 1 < M && (t * u) % M == 1
    ensures (i * t * u) % M == i % M
  {
    MulAssoc(i, t, u);
    ModSmall(1, M);
    ModMulCong(i, i, t * u, 1, M);
  }

  lemma AutoCong(f: Poly, s: int, t: int)
    requires IsPow2(|f|) && s % 2 == 1 && t % 2 == 1 && s % (2 * |f|) == t % (2 * |f|)
    ensures Auto(f, s) == Auto(f, t)
  {
    OddInverse(s, |f|);
    OddInverse(t, |f|);
    var M := 2 * |f|;
    var u, v := Inverse(s, M), Inverse(t, M);
    ModMulCong(s, t, u, u, M);
    InverseUnique(t, u, v, M);
    PullbackCong(f, u, v);
  }

  lemma AutoOne(f: Poly)
    requires IsPow2(|f|)
    ensures Auto(f, 1) == f
  {
    OddInverse(1, |f|);
    var u, M := Inverse(1, 2 * |f|), 2 * |f|;
    ModSmall(1, M);
    InverseUnique(1, u, 1, M);
    PullbackCong(f, u, 1);
    forall k: nat | k < |f|
      ensures Pullback(f, 1)[k] == f[k]
    {
      CoefInRange(f, k);
    }
  }

  lemma AutoAuto(f: Poly, s: int, t: int)
    requires IsPow2(|f|) && s % 2 == 1 && t % 2 == 1
    ensures (s * t) % 2 == 1
    ensures Auto(Auto(f, s), t) == Auto(f, s * t)
  {
    hide IsPow2, Pullback;
    OddInverse(s, |f|);
    OddInverse(t, |f|);
    var M := 2 * |f|;
    var u, v := Inverse(s, M), Inverse(t, M);
    ModMulCong(s, 1, t, 1, 2);
    OddInverse(s * t, |f|);
    PullbackTwice(f, u, v);
    InverseProduct(s, t, u, v, M);
    InverseUnique(s * t, v * u, Inverse(s * t, M), M);
    PullbackCong(f, v * u, Inverse(s * t, M));
  }

  lemma InverseProduct(s: int, t: int, u: int, v: int, M: int)
    requires 1 < M && (s * u) % M == 1 && (t * v) % M == 1
    ensures ((s * t) * (v * u)) % M == 1
  {
    ModSmall(1, M);
    ModMulCong(s * u, 1, t * v, 1, M);
    MulAssoc(s, t, v * u);
    MulAssoc(t, v, u);
    assert s * ((t * v) * u) == (s * u) * (t * v) by {
      assert (t * v) * u == u * (t * v);
      MulAssoc(s, u, t * v);
    }
  }

  lemma AutoRot(f: Poly, m: int, t: int)
    requires IsPow2(|f|) && t % 2 == 1
    ensures Auto(Rot(f, m), t) == Rot(Auto(f, t), m * t)
  {
    OddInverse(t, |f|);
    PullbackRot(f, m, t, Inverse(t, 2 * |f|));
  }

  lemma AutoMul(f: Poly, g: Poly, t: int)
    requires |f| == |g| && IsPow2(|f|) && t % 2 == 1
    ensures Auto(Mul(f, g), t) == Mul(Auto(f, t), Auto(g, t))
  {
    OddInverse(t, |f|);
    PullbackMul(f, g, t, Inverse(t, 2 * |f|));
  }

  lemma AutoAdd(f: Poly, g: Poly, t: int)
    requires |f| == |g|
    ensures Auto(Add(f, g), t) == Add(Auto(f, t), Auto(g, t))
    ensures Auto(Sub(f, g), t) == Sub(Auto(f, t), Auto(g, t))
  {
    if |f| != 0 {
      PullbackAdd(f, g, Inverse(t, 2 * |f|));
    }
  }
}
