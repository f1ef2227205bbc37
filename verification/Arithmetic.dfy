/**
  Integer facts shared by every layer: Euclidean quotients, powers, and closeness on the
  circle Z/M, the relation in which all noise statements of the project are phrased.
 */
module Arithmetic {

  function Abs(x: int): (r: nat) {
    if x < 0 then -x else x
  }

  // ---------------------------------------------------------------------------
  // Quotient and remainder
  // ---------------------------------------------------------------------------

  lemma MulNonNeg(x: int, y: int)
    requires 0 <= x && 0 <= y
    ensures 0 <= x * y
  {}

  lemma MulAssoc(x: int, y: int, z: int)
    ensures x * (y * z) == (x * y) * z
  {}

  lemma MulMonotone(a: int, x: int, y: int)
    requires 0 <= a && x <= y
    ensures a * x <= a * y
  {}

  lemma FactorLess(c: int, d: int, e: int)
    requires 0 < c && c * d < c * e
    ensures d < e
  {
    if e <= d {
      MulMonotone(c, e, d);
    }
  }

  lemma DivModIs(x: int, m: int, k: int, r: int)
    requires 0 < m && 0 <= r < m && x == k * m + r
    ensures x / m == k && x % m == r
  {
    var d := x / m;
    assert m * d == x - x % m && m * k == x - r;
    FactorLess(m, d, k + 1);
    FactorLess(m, k, d + 1);
  }

  /** Dividing twice is dividing by the product. */
  lemma DivDiv(m: int, P: int, p: int)
    requires 0 < P && 0 < p && 0 < P * p
    ensures m / P / p == m / (P * p)
  {
    var cur, r := m / P, m % P;
    var a, b := cur / p, cur % p;
    DivDivSum(m, P, p, cur, r, a, b);
    DivDivRest(P, p, b, r);
    DivModIs(m, P * p, a, b * P + r);
  }

  lemma DivDivRest(P: int, p: int, b: int, r: int)
    requires 0 < P && 0 <= b < p && 0 <= r < P
    ensures 0 <= b * P + r < P * p
  {
    MulNonNeg(b, P);
    MulMonotone(P, b, p - 1);
    assert P * (p - 1) == P * p - P && P * b == b * P;
  }

  lemma DivDivSum(m: int, P: int, p: int, cur: int, r: int, a: int, b: int)
    requires m == cur * P + r && cur == a * p + b
    ensures m == a * (P * p) + (b * P + r)
  {
    assert (a * p + b) * P == a * p * P + b * P;
    assert a * (P * p) == a * p * P;
  }

  /** Distributing a factor over a difference with a multiple. */
  lemma ScaledGap(p: int, x: int, v: int, k: int, Q: int)
    ensures p * (x - v - k * Q) == p * x - p * v - k * (p * Q)
  {
    assert p * (k * Q) == k * (p * Q);
    assert p * (x - v - k * Q) == p * x - p * v - p * (k * Q);
  }

  lemma ModPlusMultiple(x: int, k: int, m: int)
    requires 0 < m
    ensures (x + k * m) % m == x % m
  {
    assert x + k * m == (x / m + k) * m + x % m;
    DivModIs(x + k * m, m, x / m + k, x % m);
  }

  lemma ModSmall(x: int, m: int)
    requires 0 <= x < m
    ensures x % m == x
  {
    DivModIs(x, m, 0, x);
  }

  /** A multiple of 4 is made of quarters, two of which are a half. */
  lemma Quarters(x: int)
    requires x % 4 == 0
    ensures x == 4 * (x / 4) && x / 2 == 2 * (x / 4) && x % 2 == 0
  {
    DivModIs(x, 2, 2 * (x / 4), 0);
  }

  /** Multiples of 8 are multiples of 4 and of 2. */
  lemma EightDivides(x: int)
    requires x % 8 == 0
    ensures x % 4 == 0 && x % 2 == 0 && (0 < x ==> 8 <= x)
  {
    DivModIs(x, 4, 2 * (x / 8), 0);
    DivModIs(x, 2, 4 * (x / 8), 0);
  }

  /** Two integers have the same remainder exactly when they differ by a multiple. */
  lemma ModEqualWitness(x: int, y: int, m: int) returns (k: int)
    requires 0 < m && x % m == y % m
    ensures x == y + k * m
  {
    k := x / m - y / m;
  }

  lemma ModEqualIntro(x: int, y: int, k: int, m: int)
    requires 0 < m && x == y + k * m
    ensures x % m == y % m
  {
    ModPlusMultiple(y, k, m);
  }

  lemma ModAddCong(x: int, x': int, y: int, y': int, m: int)
    requires 0 < m && x % m == x' % m && y % m == y' % m
    ensures (x + y) % m == (x' + y') % m
    ensures (x - y) % m == (x' - y') % m
  {
    var k := ModEqualWitness(x, x', m);
    var l := ModEqualWitness(y, y', m);
    ModEqualIntro(x + y, x' + y', k + l, m);
    ModEqualIntro(x - y, x' - y', k - l, m);
  }

  lemma ModMulCong(x: int, x': int, y: int, y': int, m: int)
    requires 0 < m && x % m == x' % m && y % m == y' % m
    ensures (x * y) % m == (x' * y') % m
  {
    ModFactorCong(x, x', y, m);
    ModFactorCong(y, y', x', m);
    assert y * x' == x' * y && y' * x' == x' * y';
  }

  lemma ModFactorCong(x: int, x': int, y: int, m: int)
    requires 0 < m && x % m == x' % m
    ensures (x * y) % m == (x' * y) % m
  {
    var k := ModEqualWitness(x, x', m);
    MultipleTimes(x', k, m, y, k * m);
    ModEqualIntro(x * y, x' * y, k * y, m);
  }

  lemma MultipleTimes(x: int, k: int, m: int, y: int, e: int)
    requires e == k * m
    ensures (x + e) * y == x * y + (k * y) * m
  {
    assert (x + e) * y == x * y + e * y;
    assert (k * m) * y == (k * y) * m;
  }

  lemma ModMod(x: int, m: int)
    requires 0 < m
    ensures (x % m) % m == x % m
  {
    ModSmall(x % m, m);
  }

  /** Reducing modulo a multiple first does not change the remainder. */
  lemma ModOfMultiple(x: int, c: int, m: int)
    requires 0 < m && 0 < c && 0 < c * m
    ensures (x % (c * m)) % m == x % m
  {
    ModOfDivisor(x, c, m, c * m);
  }

  lemma ModOfDivisor(x: int, c: int, m: int, M: int)
    requires 0 < m && 0 < M && M == c * m
    ensures (x % M) % m == x % m
  {
    var d := x / M;
    assert x == d * M + x % M;
    MulAssoc(d, c, m);
    ModEqualIntro(x, x % M, d * c, m);
  }

  /** A congruence scales together with its modulus, in both directions. */
  lemma ModScale(x: int, y: int, c: int, m: int)
    requires 0 < m && 0 < c && 0 < c * m
    ensures x % m == y % m <==> (c * x) % (c * m) == (c * y) % (c * m)
  {
    if x % m == y % m {
      var k := ModEqualWitness(x, y, m);
      ScaledWitness(x, y, k, c, m, k * m, c * m);
      ModEqualIntro(c * x, c * y, k, c * m);
    }
    if (c * x) % (c * m) == (c * y) % (c * m) {
      var k := ModEqualWitness(c * x, c * y, c * m);
      ScaledWitness(x, y, k, c, m, k * m, c * m);
      ModEqualIntro(x, y, k, m);
    }
  }

  lemma ScaledWitness(x: int, y: int, k: int, c: int, m: int, e: int, M: int)
    requires 0 < c && e == k * m && M == c * m
    ensures x == y + e <==> c * x == c * y + k * M
  {
    assert c * (y + e) == c * y + c * e;
    assert c * (k * m) == k * (c * m);
    if c * x == c * (y + e) {
      SameFactor(c, x, y + e);
    }
  }

  lemma SameFactor(c: int, x: int, y: int)
    requires 0 < c && c * x == c * y
    ensures x == y
  {
    assert c * (x + 1) == c * x + c && c * (y + 1) == c * y + c;
    FactorLess(c, x, y + 1);
    FactorLess(c, y, x + 1);
  }

  // ---------------------------------------------------------------------------
  // Powers
  // ---------------------------------------------------------------------------

  function Pow(b: nat, e: nat): (r: int)
    ensures 0 <= r && (0 < b ==> 0 < r)
  {
    if e == 0 then 1 else
      var p := Pow(b, e - 1);
      MulNonNeg(b, p);
      b * p
  }

  lemma {:induction false} PowAdd(b: nat, e: nat, f: nat)
    ensures Pow(b, e + f) == Pow(b, e) * Pow(b, f)
  {
    if e != 0 {
      PowAdd(b, e - 1, f);
      MulAssoc(b, Pow(b, e - 1), Pow(b, f));
      assert e + f - 1 == e - 1 + f;
    }
  }

  lemma {:induction false} PowMonotone(b: nat, e: nat, f: nat)
    requires 1 <= b && e <= f
    ensures Pow(b, e) <= Pow(b, f)
  {
    if e < f {
      PowMonotone(b, e, f - 1);
      MulMonotone(Pow(b, f - 1), 1, b);
    }
  }

  ghost predicate IsPow2(x: int) {
    exists k: nat :: x == Pow(2, k)
  }

  lemma PowerIsEven(x: int)
    requires IsPow2(x) && 1 < x
    ensures x % 2 == 0
  {
    var k: nat :| x == Pow(2, k);
    assert k != 0;
    assert Pow(2, k) == 2 * Pow(2, k - 1);
  }

  /** A power of two divides every larger one, and the quotient is a power of two. */
  lemma PowersDivide(x: int, y: int)
    requires IsPow2(x) && IsPow2(y) && y <= x
    ensures 0 < y && x % y == 0 && IsPow2(x / y) && x == x / y * y
  {
    var i: nat :| x == Pow(2, i);
    var j: nat :| y == Pow(2, j);
    if i < j {
      assert Pow(2, i + 1) == 2 * Pow(2, i);
      PowMonotone(2, i + 1, j);
      assert false;
    }
    PowAdd(2, i - j, j);
    DivModIs(x, y, Pow(2, i - j), 0);
  }

  lemma TwiceIsPower(x: int)
    requires IsPow2(x)
    ensures IsPow2(2 * x)
  {
    var k: nat :| x == Pow(2, k);
    assert 2 * x == Pow(2, k + 1);
  }

  /** Every divisor of a power of two above 1 is even. */
  lemma PowerDivisor(q: int, c: int, x: int)
    requires IsPow2(x) && x == q * c && 1 < q
    ensures q % 2 == 0
  {
    var k: nat :| x == Pow(2, k);
    OddDivisor(q, c, k);
  }

  lemma {:induction false} OddDivisor(q: int, c: int, k: nat)
    requires Pow(2, k) == q * c && 1 < q
    ensures q % 2 == 0
  {
    hide Pow;
    PowTwoStart();
    if k == 0 {
      FactorLess(q, 0, c);
      MulMonotone(q, 1, c);
    } else if q % 2 == 1 {
      PowTwoStep(k - 1);
      HalfFactor(q, c, Pow(2, k - 1));
      OddDivisor(q, c / 2, k - 1);
    }
  }

  lemma HalfFactor(q: int, c: int, y: int)
    requires 2 * y == q * c && q % 2 == 1
    ensures y == q * (c / 2)
  {
    var h := q / 2;
    var d := y - h * c;
    OddCofactor(q, h, c, y, h * c);
    DivModIs(c, 2, d, 0);
  }

  lemma OddCofactor(q: int, h: int, c: int, y: int, e: int)
    requires q == 2 * h + 1 && e == h * c && 2 * y == q * c
    ensures c == 2 * (y - e) && y == q * (y - e)
  {
    assert (2 * h + 1) * c == 2 * (h * c) + c;
    assert q * (2 * (y - e)) == 2 * (q * (y - e));
  }

  lemma PowTwoStart()
    ensures Pow(2, 0) == 1 && Pow(2, 1) == 2
  {
    assert Pow(2, 1) == 2 * Pow(2, 0);
  }

  lemma PowTwoStep(k: nat)
    ensures Pow(2, k + 1) == 2 * Pow(2, k)
  {}

  // ---------------------------------------------------------------------------
  // Closeness on the circle of circumference M
  // ---------------------------------------------------------------------------

  /** x and y differ by at most b once a suitable multiple of M is taken off; b = 0 is congruence. */
  predicate Close(x: int, y: int, b: int, M: int)
    requires 0 < M
  {
    0 <= b && (x - y + b) % M <= 2 * b
  }

  lemma CloseIntro(x: int, y: int, b: int, M: int, k: int)
    requires 0 < M && -b <= x - y - k * M <= b
    ensures Close(x, y, b, M)
  {
    var t := x - y - k * M + b;
    var d := t / M;
    assert t == d * M + t % M;
    FactorLess(M, -1, d);
    MulNonNeg(d, M);
    assert x - y + b == (k + d) * M + t % M;
    DivModIs(x - y + b, M, k + d, t % M);
  }

  /** The representative of x modulo M of least absolute value. */
  function Centre(x: int, M: int): int
    requires 0 < M
  {
    var r := x % M;
    if 2 * r < M then r else r - M
  }

  lemma CentreCong(x: int, M: int)
    requires 0 < M
    ensures Centre(x, M) % M == x % M
  {
    ModMod(x, M);
    ModPlusMultiple(x % M, -1, M);
  }

  /** The centred difference of two close numbers is within their distance. */
  lemma CentreClose(x: int, y: int, b: int, M: int)
    requires 0 < M && Close(x, y, b, M)
    ensures -b <= Centre(x - y, M) <= b
  {
    var k := CloseWitness(x, y, b, M);
    var d := x - y - k * M;
    if 2 * b < M {
      if 0 <= d {
        DivModIs(x - y, M, k, d);
      } else {
        assert (k - 1) * M == k * M - M;
        DivModIs(x - y, M, k - 1, d + M);
      }
    }
  }

  /** For a large modulus closeness to 0 is a bound. */
  lemma CloseBound(x: int, b: int, M: int)
    requires 0 < M && Abs(x) + b < M && Close(x, 0, b, M)
    ensures -b <= x <= b
  {
    var k := CloseWitness(x, 0, b, M);
    if k <= -1 {
      MulMonotone(M, k, -1);
    } else if 1 <= k {
      MulMonotone(M, 1, k);
    }
  }

  lemma CloseWitness(x: int, y: int, b: int, M: int) returns (k: int)
    requires 0 < M && Close(x, y, b, M)
    ensures -b <= x - y - k * M <= b
  {
    k := (x - y + b) / M;
  }

  /** Closeness is exactly the existence of a nearby representative. */
  lemma CloseIff(x: int, y: int, b: int, M: int, k: int)
    requires 0 < M && -b <= x - y - k * M <= b
    ensures Close(x, y, b, M)
    ensures Close(y, x, b, M)
  {
    CloseIntro(x, y, b, M, k);
    assert y - x - (-k) * M == -(x - y - k * M);
    CloseIntro(y, x, b, M, -k);
  }

  lemma CloseSym(x: int, y: int, b: int, M: int)
    requires 0 < M && Close(x, y, b, M)
    ensures Close(y, x, b, M)
  {
    var k := CloseWitness(x, y, b, M);
    CloseIff(x, y, b, M, k);
  }

  lemma CloseZero(x: int, y: int, M: int)
    requires 0 < M
    ensures Close(x, y, 0, M) <==> x % M == y % M
  {
    if Close(x, y, 0, M) {
      var k := CloseWitness(x, y, 0, M);
      ModEqualIntro(x, y, k, M);
    }
    if x % M == y % M {
      var k := ModEqualWitness(x, y, M);
      CloseIntro(x, y, 0, M, k);
    }
  }

  lemma CloseSelf(x: int, b: int, M: int)
    requires 0 < M && 0 <= b
    ensures Close(x, x, b, M)
  {
    CloseIntro(x, x, b, M, 0);
  }

  lemma CloseTrans(x: int, y: int, z: int, b: int, c: int, M: int)
    requires 0 < M && Close(x, y, b, M) && Close(y, z, c, M)
    ensures Close(x, z, b + c, M)
  {
    var k := CloseWitness(x, y, b, M);
    var l := CloseWitness(y, z, c, M);
    assert x - z - (k + l) * M == (x - y - k * M) + (y - z - l * M);
    CloseIntro(x, z, b + c, M, k + l);
  }

  lemma CloseMono(x: int, y: int, b: int, c: int, M: int)
    requires 0 < M && Close(x, y, b, M) && b <= c
    ensures Close(x, y, c, M)
  {
    var k := CloseWitness(x, y, b, M);
    CloseIntro(x, y, c, M, k);
  }

  lemma CloseAdd(x: int, y: int, x': int, y': int, b: int, c: int, M: int)
    requires 0 < M && Close(x, y, b, M) && Close(x', y', c, M)
    ensures Close(x + x', y + y', b + c, M)
    ensures Close(x - x', y - y', b + c, M)
  {
    var k := CloseWitness(x, y, b, M);
    var l := CloseWitness(x', y', c, M);
    assert (x + x') - (y + y') - (k + l) * M == (x - y - k * M) + (x' - y' - l * M);
    assert (x - x') - (y - y') - (k - l) * M == (x - y - k * M) - (x' - y' - l * M);
    CloseIntro(x + x', y + y', b + c, M, k + l);
    CloseIntro(x - x', y - y', b + c, M, k - l);
  }

  lemma CloseNeg(x: int, y: int, b: int, M: int)
    requires 0 < M && Close(x, y, b, M)
    ensures Close(-x, -y, b, M)
  {
    var k := CloseWitness(x, y, b, M);
    assert -x - -y - (-k) * M == -(x - y - k * M);
    CloseIntro(-x, -y, b, M, -k);
  }

  lemma AbsMulBound(c: int, d: int, b: int)
    requires -b <= d <= b
    ensures -(Abs(c) * b) <= c * d <= Abs(c) * b
  {
    if 0 <= c {
      MulMonotone(c, d, b);
      MulMonotone(c, -b, d);
      assert c * -b == -(c * b);
    } else {
      MulMonotone(-c, d, b);
      MulMonotone(-c, -b, d);
      assert -c * d == -(c * d);
      assert -c * -b == -(-c * b);
    }
  }

  /** Multiplying by a constant multiplies the distance, the modulus staying the same. */
  lemma CloseTimes(c: int, x: int, y: int, b: int, M: int)
    requires 0 < M && Close(x, y, b, M)
    ensures Close(c * x, c * y, Abs(c) * b, M)
  {
    var k := CloseWitness(x, y, b, M);
    AbsMulBound(c, x - y - k * M, b);
    assert c * x - c * y - (c * k) * M == c * (x - y - k * M);
    CloseIntro(c * x, c * y, Abs(c) * b, M, c * k);
  }

  /** Multiplying everything, modulus included. */
  lemma CloseScaleUp(c: int, x: int, y: int, b: int, M: int)
    requires 0 < M && 0 < c && 0 < c * M && Close(x, y, b, M)
    ensures Close(c * x, c * y, c * b, c * M)
  {
    var k := CloseWitness(x, y, b, M);
    AbsMulBound(c, x - y - k * M, b);
    assert c * x - c * y - k * (c * M) == c * (x - y - k * M);
    CloseIntro(c * x, c * y, c * b, c * M, k);
  }

  /** Dividing everything; since x and y are integers the distance rounds down. */
  lemma CloseScaleDown(c: int, x: int, y: int, b: int, M: int)
    requires 0 < M && 0 < c && 0 < c * M && Close(c * x, c * y, b, c * M)
    ensures Close(x, y, b / c, M)
  {
    var k := CloseWitness(c * x, c * y, b, c * M);
    var d := x - y - k * M;
    assert c * d == c * x - c * y - k * (c * M);
    assert -b <= c * d <= b;
    var e := b / c;
    assert b < c * (e + 1);
    FactorLess(c, d, e + 1);
    FactorLess(c, -d, e + 1);
    CloseIntro(x, y, e, M, k);
  }

  /** A close pair may be replaced by congruent ones. */
  lemma CloseCong(x: int, y: int, x': int, y': int, b: int, M: int)
    requires 0 < M && Close(x, y, b, M) && x % M == x' % M && y % M == y' % M
    ensures Close(x', y', b, M)
  {
    CloseZero(x', x, M);
    CloseZero(y, y', M);
    CloseTrans(x', x, y, 0, b, M);
    CloseTrans(x', y, y', b, 0, M);
  }

  // ---------------------------------------------------------------------------
  // Distances
  // ---------------------------------------------------------------------------

  /** Distance of x and y on the circle. */
  function Distance(x: int, y: int, M: int): (d: nat)
    requires 0 < M
  {
    Abs(Centre(x - y, M))
  }

  /** Closeness within b is exactly distance at most b. */
  lemma DistanceExact(x: int, y: int, b: int, M: int)
    requires 0 < M
    ensures Close(x, y, b, M) <==> Distance(x, y, M) <= b
  {
    var d := Centre(x - y, M);
    if Close(x, y, b, M) {
      CentreClose(x, y, b, M);
    }
    if Abs(d) <= b {
      CentreCong(x - y, M);
      var k := ModEqualWitness(x - y, d, M);
      CloseIntro(x, y, b, M, k);
    }
  }

  // ---------------------------------------------------------------------------
  // Weighted sums
  // ---------------------------------------------------------------------------

  /** Sum of the absolute values of the first n entries. */
  function AbsSum(s: seq<int>, n: nat): (r: nat)
    requires n <= |s|
  {
    if n == 0 then 0 else AbsSum(s, n - 1) + Abs(s[n - 1])
  }

  lemma CloseStep(X: int, Y: int, w: int, c: int, x: int, y: int, X': int, Y': int, w': int, b: int, M: int)
    requires 0 < M && Close(X, Y, w * b, M) && Close(x, y, b, M)
    requires X' == X + c * x && Y' == Y + c * y && w' == w + Abs(c)
    ensures Close(X', Y', w' * b, M)
  {
    hide Close;
    CloseTimes(c, x, y, b, M);
    CloseAdd(X, Y, c * x, c * y, w * b, Abs(c) * b, M);
    AddedWeight(w, Abs(c), w', b);
  }

  lemma AddedWeight(w: int, a: int, w': int, b: int)
    requires w' == w + a
    ensures w' * b == w * b + a * b
  {}
}
