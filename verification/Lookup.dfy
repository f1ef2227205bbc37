/**
  The two facts a bootstrap rests on: coefficient 0 of a rotated test vector is the tabulated
  value at the phase, and the transposed accumulator read as an LWE ciphertext has that
  coefficient as its phase (src/binfhe/lib/binfhe-base-scheme.cpp:107-119, 511-602, 620-624).
 */
module Lookup {
  import opened Arithmetic
  import opened Sums
  import opened NegacyclicRing
  import opened Automorphisms
  import opened RingNoise
  import opened ExternalProduct
  import opened LweBasics
  import opened Lwe
  import opened AccumulatorDM

  // ---------------------------------------------------------------------------
  // Looking up
  // ---------------------------------------------------------------------------

  /** F(b - j modulo q) stands at coefficient j * 2N/q for every j below q/2, and zero elsewhere. */
  ghost predicate TestVector(m: Poly, N: nat, q: int, b: int, F: int -> int, Q: int) {
    && 0 < q && 0 < Q && |m| == N
    && (forall j :: 0 <= j < q / 2 ==> Placed(m, Stretch(N, q) * j, F((b - j) % q), Q))
    && (forall i :: 0 <= i < N && (Stretch(N, q) == 0 || i % Stretch(N, q) != 0) ==> m[i] == 0)
  }

  ghost predicate Placed(m: Poly, i: int, v: int, Q: int)
    requires 0 < Q
  {
    0 <= i < |m| && m[i] == v % Q
  }

  /** The half-circle shift changes the sign of F, up to slack. */
  ghost predicate Antiperiodic(F: int -> int, q: int, slack: int, Q: int) {
    0 <= slack && 0 < Q && forall x :: 0 <= x < q / 2 ==> Close(F(x + q / 2), -F(x), slack, Q)
  }

  lemma AntiperiodicAt(F: int -> int, q: int, slack: int, Q: int, x: int, y: int)
    requires 0 < q && q % 2 == 0 && Antiperiodic(F, q, slack, Q) && 0 <= x < q
    requires y == if x < q / 2 then x + q / 2 else x - q / 2
    ensures Close(-F(y), F(x), slack, Q)
  {
    if x < q / 2 {
      CloseNeg(F(x + q / 2), -F(x), slack, Q);
    } else {
      assert Close(F(y + q / 2), -F(y), slack, Q);
      CloseSym(F(x), -F(y), slack, Q);
    }
  }

  /**
    What a table of F over half of the circle yields at b + X: the tabulated value, or its negation
    across the circle.
   */
  function TableValue(F: int -> int, q: int, b: int, X: int): int
    requires 0 < q
  {
    var j := (-X) % q;
    if j < q / 2 then F((b - j) % q) else -F((b - (j - q / 2)) % q)
  }

  /** Rotating the test vector by (2N/q)*X brings the table's value at b + X to coefficient 0, exactly. */
  lemma LookupExact(m: Poly, N: nat, q: int, b: int, F: int -> int, X: int, Q: int)
    requires 0 < N && 0 < q && q % 2 == 0 && (2 * N) % q == 0 && TestVector(m, N, q, b, F, Q)
    ensures Close(Rot(m, Stretch(N, q) * X)[0], TableValue(F, q, b, X), 0, Q)
  {
    hide Close, Stretch, Rot;
    var c, j := Stretch(N, q), (-X) % q;
    StretchExact(N, q);
    LookupIndex(m, c, q, X, j);
    if j < q / 2 {
      HalfIndex(c, q, N, j);
      assert Placed(m, c * j, F((b - j) % q), Q);
      CoefInRange(m, c * j);
      StoredValue(m[c * j], F((b - j) % q), 0, Q);
    } else {
      var i := j - q / 2;
      HalfIndex(c, q, N, i);
      assert Placed(m, c * i, F((b - i) % q), Q);
      CoefInRange(m, c * i);
      CoefAnti(m, c * i);
      assert c * j == c * i + N;
      StoredNegated(m[c * i], F((b - i) % q), Q);
    }
  }

  /** For a function that changes sign across the circle the table's value is the function's, up to its slack. */
  lemma TableValueClose(F: int -> int, q: int, b: int, X: int, slack: int, Q: int)
    requires 0 < q && q % 2 == 0 && Antiperiodic(F, q, slack, Q)
    ensures Close(TableValue(F, q, b, X), F((b + X) % q), slack, Q)
  {
    hide Close;
    var j := (-X) % q;
    LookupPoints(b, X, q, j);
    if j < q / 2 {
      CloseSelf(F((b + X) % q), slack, Q);
    } else {
      AntiperiodicAt(F, q, slack, Q, (b + X) % q, (b - (j - q / 2)) % q);
    }
  }

  /** Rotating the test vector by (2N/q)*X brings the value at b + X to coefficient 0. */
  lemma LookupAt(m: Poly, N: nat, q: int, b: int, F: int -> int, X: int, slack: int, Q: int)
    requires 0 < N && 0 < q && q % 2 == 0 && (2 * N) % q == 0
    requires TestVector(m, N, q, b, F, Q) && Antiperiodic(F, q, slack, Q)
    ensures Close(Rot(m, Stretch(N, q) * X)[0], F((b + X) % q), slack, Q)
  {
    hide Close, Stretch, Rot, TableValue;
    LookupExact(m, N, q, b, F, X, Q);
    TableValueClose(F, q, b, X, slack, Q);
    CloseTrans(Rot(m, Stretch(N, q) * X)[0], TableValue(F, q, b, X), F((b + X) % q), 0, slack, Q);
  }

  lemma LookupIndex(m: Poly, c: int, q: int, X: int, j: int)
    requires 0 < |m| && 0 < c && 0 < q && 2 * |m| == c * q && j == (-X) % q
    ensures Rot(m, c * X)[0] == Coef(m, c * j)
  {
    ModMod(-X, q);
    ModScale(-X, j, c, q);
    assert c * -X == 0 - c * X;
    CoefCong(m, 0 - c * X, c * j);
  }

  lemma LookupPoints(b: int, X: int, q: int, j: int)
    requires 0 < q && q % 2 == 0 && j == (-X) % q
    ensures 0 <= j < q
    ensures (b - j) % q == (b + X) % q
    ensures var x, y := (b + X) % q, (b - (j - q / 2)) % q; y == if x < q / 2 then x + q / 2 else x - q / 2
  {
    ModMod(-X, q);
    ModAddCong(b, b, j, -X, q);
    assert b - -X == b + X;
    var x := (b + X) % q;
    var k := ModEqualWitness(b - j, b + X, q);
    var d := (b + X) / q;
    assert b + X == d * q + x;
    assert b - j + q / 2 == (d + k) * q + (x + q / 2);
    if x < q / 2 {
      DivModIs(b - j + q / 2, q, d + k, x + q / 2);
    } else {
      assert (d + k + 1) * q == (d + k) * q + q;
      DivModIs(b - j + q / 2, q, d + k + 1, x - q / 2);
    }
  }

  lemma HalfIndex(c: int, q: int, N: int, j: int)
    requires 0 < c && 0 < q && q % 2 == 0 && 2 * N == c * q && 0 <= j < q / 2
    ensures 0 <= c * j < N && c * (j + q / 2) == c * j + N
  {
    MulNonNeg(c, j);
    assert c * (q / 2) == N by {
      assert 2 * (c * (q / 2)) == c * (2 * (q / 2));
    }
    MulMonotone(c, j, q / 2 - 1);
    assert c * (q / 2 - 1) == c * (q / 2) - c;
    assert c * (j + q / 2) == c * j + c * (q / 2);
  }

  lemma StoredValue(s: int, v: int, slack: int, Q: int)
    requires 0 < Q && 0 <= slack && s == v % Q
    ensures Close(s, v, slack, Q)
  {
    ModMod(v, Q);
    CloseSelf(v, slack, Q);
    CloseCong(v, v, s, v, slack, Q);
  }

  lemma StoredNegated(s: int, v: int, Q: int)
    requires 0 < Q && s == v % Q
    ensures Close(-s, -v, 0, Q)
  {
    StoredValue(s, v, 0, Q);
    CloseNeg(s, v, 0, Q);
  }

  // ---------------------------------------------------------------------------
  // Reading coefficient 0 as an LWE ciphertext
  // ---------------------------------------------------------------------------

  /** f(1/X), stored modulo Q. */
  function Transpose(f: Poly, Q: int): (r: Poly)
    requires 0 < Q
    ensures |r| == |f|
  {
    Reduce(Auto(f, 2 * |f| - 1), Q)
  }

  lemma TransposeAt(f: Poly, i: nat)
    requires IsPow2(|f|) && i < |f|
    ensures Auto(f, 2 * |f| - 1)[i] == Coef(f, 0 - i)
  {
    hide Coef, IsPow2, Auto;
    var N := |f|;
    var t := 2 * N - 1;
    CoefAuto(f, t, 0 - i);
    ReflectedIndex(i, N);
    CoefPeriod(Auto(f, t), i, 0 - i);
    CoefInRange(Auto(f, t), i);
  }

  lemma ReflectedIndex(i: int, N: int)
    ensures (0 - i) * (2 * N - 1) == i + (0 - i) * (2 * N)
  {}

  lemma {:induction false} InnerIsCoefficient(a: seq<int>, z: Poly, f: Poly, n: nat)
    requires |a| == |z| && |z| == |f| && n <= |z| && forall i :: 0 <= i < n ==> a[i] == Coef(f, 0 - i)
    ensures Inner(a, z, n) == Sum(n, MulTerm(z, f, 0))
  {
    hide Coef;
    if n != 0 {
      InnerIsCoefficient(a, z, f, n - 1);
      CoefInRange(z, n - 1);
      assert MulTerm(z, f, 0)(n - 1) == z[n - 1] * a[n - 1];
      assert z[n - 1] * a[n - 1] == a[n - 1] * z[n - 1];
    }
  }

  lemma PhaseConstant(el0: Poly, el1: Poly, z: Poly)
    requires |el0| == |el1| == |z| && 1 <= |z|
    ensures Phase(el0, el1, z)[0] == el1[0] - Sum(|z|, MulTerm(z, el0, 0))
  {
    hide Sum, MulTerm;
    MulComm(el0, z);
  }

  /** The transposed first half and the constant coefficient of the second encrypt coefficient 0 of the phase. */
  lemma ExtractedPhase(el0: Poly, el1: Poly, z: Poly, Q: int)
    requires 0 < Q && IsPow2(|z|) && |el0| == |el1| == |z| && 1 <= |z|
    ensures PhaseOf(Transpose(el0, Q), el1[0], z) % Q == Phase(el0, el1, z)[0] % Q
  {
    hide Auto, Coef, IsPow2, Phase, Sum, MulTerm;
    var exact := Auto(el0, 2 * |z| - 1);
    forall i: nat | i < |z|
      ensures exact[i] == Coef(el0, 0 - i)
    {
      TransposeAt(el0, i);
    }
    InnerIsCoefficient(exact, z, el0, |z|);
    PhaseConstant(el0, el1, z);
    forall i | 0 <= i < |z|
      ensures Transpose(el0, Q)[i] % Q == exact[i] % Q
    {
      ModMod(exact[i], Q);
    }
    InnerCong(Transpose(el0, Q), exact, z, |z|, Q);
    ModAddCong(el1[0], el1[0], Inner(Transpose(el0, Q), z, |z|), Inner(exact, z, |z|), Q);
  }
}
