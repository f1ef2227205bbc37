/**
  The powers of 5 modulo 2N = 2^(k+2): 5 has order exactly N/2 = 2^k, and every odd residue is
  5^i or -5^i for exactly one i below N/2.
 */
module FivePowers {
  import opened Arithmetic

  ghost predicate Divides(m: int, x: int)
    requires 0 < m
  {
    x % m == 0
  }

  lemma DividesIntro(m: int, x: int, c: int)
    requires 0 < m && x == c * m
    ensures Divides(m, x)
  {
    DivModIs(x, m, c, 0);
  }

  lemma DividesWitness(m: int, x: int) returns (c: int)
    requires 0 < m && Divides(m, x)
    ensures x == c * m
  {
    c := x / m;
  }

  lemma DividesDouble(m: int, x: int)
    requires 0 < m
    ensures Divides(2 * m, 2 * x) <==> Divides(m, x)
  {
    ModScale(x, 0, 2, m);
    ModSmall(0, m);
    ModSmall(0, 2 * m);
  }

  /** A multiple of 2m is even, whatever m. */
  lemma DividesEven(m: int, x: int)
    requires 0 < m && Divides(2 * m, x)
    ensures x % 2 == 0
  {
    var c := DividesWitness(2 * m, x);
    assert x == 2 * (c * m);
  }

  lemma DividesMod(m: int, x: int, y: int)
    requires 0 < m
    ensures Divides(m, x - y) <==> x % m == y % m
  {
    if Divides(m, x - y) {
      var c := DividesWitness(m, x - y);
      ModEqualIntro(x, y, c, m);
    }
    if x % m == y % m {
      var c := ModEqualWitness(x, y, m);
      DividesIntro(m, x - y, c);
    }
  }

  /** Multiplying by an odd number does not change divisibility by a power of two. */
  lemma {:induction false} OddFactor(y: int, h: int, k: nat)
    requires h % 2 == 1
    ensures Divides(Pow(2, k), y * h) <==> Divides(Pow(2, k), y)
    decreases k
  {
    if k != 0 {
      var m := Pow(2, k - 1);
      if y % 2 == 1 {
        OddProductOdd(y, h);
        if Divides(2 * m, y * h) {
          DividesEven(m, y * h);
        }
        if Divides(2 * m, y) {
          DividesEven(m, y);
        }
      } else {
        var w := y / 2;
        OddFactor(w, h, k - 1);
        DividesDouble(m, w * h);
        DividesDouble(m, w);
        MulAssoc(2, w, h);
      }
    }
  }

  lemma OddProductOdd(y: int, h: int)
    requires y % 2 == 1 && h % 2 == 1
    ensures (y * h) % 2 == 1
  {
    ModMulCong(y, 1, h, 1, 2);
  }

  /** For x = 1 modulo 4 the factor x + 1 contributes exactly one factor of two. */
  lemma FactorTwo(x: int, k: nat)
    requires x % 4 == 1
    ensures Divides(Pow(2, k + 1), x * x - 1) <==> Divides(Pow(2, k), x - 1)
  {
    var h := (x + 1) / 2;
    assert x + 1 == 2 * h && h % 2 == 1;
    var y := (x - 1) * h;
    assert x * x - 1 == (x - 1) * (x + 1);
    assert x * x - 1 == 2 * y;
    DividesDouble(Pow(2, k), y);
    OddFactor(x - 1, h, k);
  }

  lemma {:induction false} FiveModFour(d: nat)
    ensures Pow(5, d) % 4 == 1
  {
    if d != 0 {
      FiveModFour(d - 1);
      ModMulCong(5, 1, Pow(5, d - 1), 1, 4);
    }
  }

  lemma {:induction false} OddPowerOfFive(d: nat)
    requires d % 2 == 1
    ensures Pow(5, d) % 8 == 5
  {
    if d == 1 {
      assert Pow(5, 1) == 5 * Pow(5, 0);
    } else {
      OddPowerOfFive(d - 2);
      assert Pow(5, d) == 5 * Pow(5, d - 1) && Pow(5, d - 1) == 5 * Pow(5, d - 2);
      ModMulCong(25, 1, Pow(5, d - 2), 5, 8);
    }
  }

  lemma NotEightDivides(x: int, m: int)
    requires 0 < m && x % 8 == 4
    ensures !Divides(8 * m, x)
  {
    assert 8 * m == m * 8;
    ModOfMultiple(x, m, 8);
  }

  /** 5^d - 1 is divisible by 2^(k+2) exactly when d is divisible by 2^k. */
  lemma {:induction false} FiveValuation(d: nat, k: nat)
    ensures Divides(Pow(2, k + 2), Pow(5, d) - 1) <==> Divides(Pow(2, k), d)
    decreases k
  {
    if k == 0 {
      FiveModFour(d);
      assert Pow(2, 2) == 4 by {
        assert Pow(2, 2) == 2 * Pow(2, 1) && Pow(2, 1) == 2 * Pow(2, 0);
      }
      assert Pow(2, 0) == 1;
    } else if d % 2 == 1 {
      FiveValuationOdd(d, k);
    } else {
      FiveValuation(d / 2, k - 1);
      FiveValuationEven(d / 2, k);
      assert 2 * (d / 2) == d;
    }
  }

  lemma FiveValuationOdd(d: nat, k: nat)
    requires 0 < k && d % 2 == 1
    ensures !Divides(Pow(2, k + 2), Pow(5, d) - 1) && !Divides(Pow(2, k), d)
  {
    hide Pow, Divides;
    var m := Pow(2, k - 1);
    OddPowerOfFive(d);
    OneLess(Pow(5, d));
    NotEightDivides(Pow(5, d) - 1, m);
    PowTwoStep(k - 1);
    PowTwoStep(k);
    PowTwoStep(k + 1);
    assert Pow(2, k + 2) == 8 * m;
    if Divides(2 * m, d) {
      DividesEven(m, d);
    }
  }

  lemma OneLess(x: int)
    requires x % 8 == 5
    ensures (x - 1) % 8 == 4
  {
    DivModIs(x - 1, 8, x / 8, 4);
  }

  lemma FiveValuationEven(e: nat, k: nat)
    requires 0 < k
    requires Divides(Pow(2, k - 1 + 2), Pow(5, e) - 1) <==> Divides(Pow(2, k - 1), e)
    ensures Divides(Pow(2, k + 2), Pow(5, 2 * e) - 1) <==> Divides(Pow(2, k), 2 * e)
  {
    PowAdd(5, e, e);
    FiveModFour(e);
    FactorTwo(Pow(5, e), k + 1);
    DividesDouble(Pow(2, k - 1), e);
  }

  // ---------------------------------------------------------------------------
  // Order and injectivity
  // ---------------------------------------------------------------------------

  /** A power of 5 modulo 2^(k+2) determines its exponent modulo 2^k, and nothing more. */
  lemma FiveInjective(k: nat, i: nat, j: nat)
    requires i <= j
    ensures Pow(5, i) % Pow(2, k + 2) == Pow(5, j) % Pow(2, k + 2) <==> Divides(Pow(2, k), j - i)
  {
    PowAdd(5, i, j - i);
    FiveModFour(i);
    FiveValuation(j - i, k);
    ShiftedPower(Pow(5, i), Pow(5, j - i), Pow(5, j), k + 2);
  }

  lemma ShiftedPower(x: int, y: int, z: int, k: nat)
    requires x % 4 == 1 && z == x * y
    ensures x % Pow(2, k) == z % Pow(2, k) <==> Divides(Pow(2, k), y - 1)
  {
    OddFactor(y - 1, x, k);
    assert (y - 1) * x == z - x;
    DividesMod(Pow(2, k), z, x);
  }

  /** 5 has order dividing 2^k: going round once is the identity. */
  lemma FiveOrder(k: nat, i: nat)
    ensures Pow(5, i + Pow(2, k)) % Pow(2, k + 2) == Pow(5, i) % Pow(2, k + 2)
  {
    var m := Pow(2, k);
    FiveInjective(k, i, i + m);
    DividesIntro(m, m, 1);
  }

  lemma FiveDistinct(k: nat, i: nat, j: nat)
    requires i < j < Pow(2, k)
    ensures Pow(5, i) % Pow(2, k + 2) != Pow(5, j) % Pow(2, k + 2)
  {
    FiveInjective(k, i, j);
    ModSmall(j - i, Pow(2, k));
  }

  /** Powers of 5 are 1 modulo 4 and their negatives are 3. */
  lemma FiveSides(k: nat, i: nat)
    ensures (Pow(5, i) % Pow(2, k + 2)) % 4 == 1
    ensures ((-Pow(5, i)) % Pow(2, k + 2)) % 4 == 3
  {
    FiveModFour(i);
    TwoMoreBits(k);
    ResidueModFour(Pow(5, i), Pow(2, k), Pow(2, k + 2));
    ResidueModFour(-Pow(5, i), Pow(2, k), Pow(2, k + 2));
    NegatedModFour(Pow(5, i));
  }

  lemma TwoMoreBits(k: nat)
    ensures Pow(2, k + 2) == Pow(2, k) * 4
  {
    assert Pow(2, k + 2) == 2 * Pow(2, k + 1) && Pow(2, k + 1) == 2 * Pow(2, k);
  }

  lemma NegatedModFour(x: int)
    requires x % 4 == 1
    ensures (-x) % 4 == 3
  {}

  lemma ResidueModFour(x: int, m: int, M: int)
    requires 0 < m && M == m * 4
    ensures (x % M) % 4 == x % 4
  {
    ModOfMultiple(x, m, 4);
  }

  // ---------------------------------------------------------------------------
  // Surjectivity
  // ---------------------------------------------------------------------------

  /** Half a period adds half the modulus. */
  lemma HalfTurn(j: nat, k: nat)
    ensures Pow(5, j + Pow(2, k)) % Pow(2, k + 3) == (Pow(5, j) + Pow(2, k + 2)) % Pow(2, k + 3)
  {
    var h := Pow(2, k);
    PowAdd(5, j, h);
    FiveValuation(h, k);
    DividesIntro(h, h, 1);
    FiveValuation(h, k + 1);
    ModSmall(h, 2 * h);
    var c := DividesWitness(Pow(2, k + 2), Pow(5, h) - 1);
    OddCofactor(Pow(5, h) - 1, c, Pow(2, k + 2));
    FiveModFour(j);
    HalfTurnStep(Pow(5, j), Pow(5, h), c, Pow(2, k + 2));
  }

  lemma OddCofactor(y: int, c: int, m: int)
    requires 0 < m && y == c * m && !Divides(2 * m, y)
    ensures c % 2 == 1
  {
    if c % 2 == 0 {
      assert y == (c / 2) * (2 * m);
      DividesIntro(2 * m, y, c / 2);
    }
  }

  lemma OnePlusMultiple(x: int, c: int, m: int, y: int, e: int)
    requires y == c * m + 1 && x * c == 2 * e + 1
    ensures x * y == x + m + e * (2 * m)
  {
    assert x * (c * m + 1) == x + x * (c * m);
    MulAssoc(x, c, m);
    assert (2 * e + 1) * m == e * (2 * m) + m;
  }

  lemma HalfTurnStep(x: int, y: int, c: int, m: int)
    requires 0 < m && x % 4 == 1 && c % 2 == 1 && y - 1 == c * m
    ensures (x * y) % (2 * m) == (x + m) % (2 * m)
  {
    OddOdd(x, c);
    HalfTurnSum(x, y, x * c, c, m);
  }

  lemma OddOdd(x: int, c: int)
    requires x % 4 == 1 && c % 2 == 1
    ensures (x * c) % 2 == 1
  {
    DivModIs(x, 2, 2 * (x / 4), 1);
    ModMulCong(x, 1, c, 1, 2);
  }

  lemma HalfTurnSum(x: int, y: int, xc: int, c: int, m: int)
    requires 0 < m && y == c * m + 1 && xc == x * c && xc % 2 == 1
    ensures (x * y) % (2 * m) == (x + m) % (2 * m)
  {
    var e := xc / 2;
    OnePlusMultiple(x, c, m, y, e);
    ModEqualIntro(x * y, x + m, e, 2 * m);
  }

  /** The discrete logarithm to base 5 of o = 1 modulo 4, modulo 2^(k+2). */
  lemma {:induction false} LogExists(o: int, k: nat) returns (i: nat)
    requires o % 4 == 1
    ensures i < Pow(2, k) && Pow(5, i) % Pow(2, k + 2) == o % Pow(2, k + 2)
  {
    if k == 0 {
      i := 0;
      assert Pow(2, 2) == 4 by {
        assert Pow(2, 2) == 2 * Pow(2, 1) && Pow(2, 1) == 2 * Pow(2, 0);
      }
      assert Pow(2, 0) == 1 && Pow(5, 0) == 1;
    } else {
      var j := LogExists(o, k - 1);
      i := LogLift(o, k - 1, j);
    }
  }

  lemma LogLift(o: int, k: nat, j: nat) returns (i: nat)
    requires j < Pow(2, k) && Pow(5, j) % Pow(2, k + 2) == o % Pow(2, k + 2)
    ensures i < Pow(2, k + 1) && Pow(5, i) % Pow(2, k + 3) == o % Pow(2, k + 3)
  {
    var c := ModEqualWitness(Pow(5, j), o, Pow(2, k + 2));
    if c % 2 == 0 {
      i := j;
      EvenSteps(Pow(5, j), o, c, Pow(2, k + 2));
    } else {
      i := j + Pow(2, k);
      HalfTurn(j, k);
      OddSteps(Pow(5, j), o, c, Pow(2, k + 2));
    }
  }

  lemma OddSteps(x: int, o: int, c: int, m: int)
    requires 0 < m && x == o + c * m && c % 2 == 1
    ensures (x + m) % (2 * m) == o % (2 * m)
  {
    assert (c + 1) * m == c * m + m;
    EvenSteps(x + m, o, c + 1, m);
  }

  lemma EvenSteps(x: int, o: int, c: int, m: int)
    requires 0 < m && x == o + c * m && c % 2 == 0
    ensures x % (2 * m) == o % (2 * m)
  {
    var d := c / 2;
    assert (2 * d) * m == d * (2 * m);
    ModEqualIntro(x, o, d, 2 * m);
  }
}
