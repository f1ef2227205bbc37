/**
  Signed gadget decomposition (src/binfhe/lib/rgsw-acc.cpp): shift-based signed digits of a
  centred residue, the lowest digit dropped and the final carry discarded.
 */
module Gadget {
  import opened Arithmetic
  import opened NegacyclicRing
  import opened RingNoise

  const WORD_BITS: nat := 64

  // ---------------------------------------------------------------------------
  // Machine shifts
  // ---------------------------------------------------------------------------

  /** Two's-complement value of the low bits of x, for a word of 2^bits values. */
  function SignedWrap(x: int, word: int): int
    requires 0 < word
  {
    (x + word / 2) % word - word / 2
  }

  /** x << s on a signed machine word. */
  function ShiftLeft(x: int, s: nat): int {
    SignedWrap(x * Pow(2, s), Pow(2, WORD_BITS))
  }

  /** Arithmetic x >> s. */
  function ShiftRight(x: int, s: nat): int {
    x / Pow(2, s)
  }

  /** Number of trailing zero bits. */
  function TrailingZeros(x: nat): (g: nat)
    requires 0 < x
  {
    if x % 2 == 1 then 0 else 1 + TrailingZeros(x / 2)
  }

  lemma {:induction false} TrailingZerosOfPower(g: nat)
    ensures TrailingZeros(Pow(2, g)) == g
  {
    if g != 0 {
      TrailingZerosOfPower(g - 1);
      assert Pow(2, g) / 2 == Pow(2, g - 1);
    }
  }

  /** The residue of d modulo B in [-B/2, B/2). */
  function Centered(d: int, B: int): int
    requires 0 < B
  {
    SignedWrap(d, B)
  }

  lemma CenteredRange(d: int, B: int)
    requires 0 < B && B % 2 == 0
    ensures -(B / 2) <= Centered(d, B) < B / 2
    ensures (d - Centered(d, B)) % B == 0
  {
    var x := d + B / 2;
    assert d - Centered(d, B) == x - x % B;
    assert x - x % B == (x / B) * B + 0;
    DivModIs(x - x % B, B, x / B, 0);
  }

  /** Shifting the low g bits up to the sign position and back extracts the centred residue. */
  lemma SignExtension(d: int, g: nat)
    requires 1 <= g <= WORD_BITS
    ensures ShiftRight(ShiftLeft(d, WORD_BITS - g), WORD_BITS - g) == Centered(d, Pow(2, g))
  {
    var K, B, h := Pow(2, WORD_BITS - g), Pow(2, g), Pow(2, g - 1);
    PowAdd(2, WORD_BITS - g, g);
    assert B == 2 * h && Pow(2, WORD_BITS) == K * B;
    ScaledWrap(d, K, h);
    var c := Centered(d, B);
    assert SignedWrap(d * K, K * B) == c * K;
    DivModIs(c * K, K, c, 0);
  }

  lemma ScaledWrap(d: int, K: int, h: int)
    requires 0 < K && 0 < h
    ensures 0 < K * (2 * h)
    ensures SignedWrap(d * K, K * (2 * h)) == SignedWrap(d, 2 * h) * K
  {
    var B := 2 * h;
    var q, r := (d + h) / B, (d + h) % B;
    MulMonotone(K, 1, B);
    DivModIs(B, 2, h, 0);
    var kh := K * h;
    assert K * B == 2 * kh;
    DivModIs(K * B, 2, kh, 0);
    assert d + h == q * B + r;
    assert d * K + kh == q * (K * B) + r * K by {
      assert (d + h) * K == d * K + kh;
      assert (q * B + r) * K == q * (K * B) + r * K;
    }
    MulNonNeg(r, K);
    MulMonotone(K, r + 1, B);
    assert K * (r + 1) == r * K + K;
    DivModIs(d * K + kh, K * B, q, r * K);
    assert (r - h) * K == r * K - kh;
  }

  // ---------------------------------------------------------------------------
  // Signed digits of one integer
  // ---------------------------------------------------------------------------

  /** What is left of t after j signed digits in base B have been taken off. */
  function Rest(t: int, B: int, j: nat): int
    requires 0 < B
  {
    if j == 0 then t else
      NextRest(Rest(t, B, j - 1), B)
  }

  function NextRest(r: int, B: int): int
    requires 0 < B
  {
    (r - Centered(r, B)) / B
  }

  function Digit(t: int, B: int, j: nat): int
    requires 0 < B
  {
    Centered(Rest(t, B, j), B)
  }

  function DigitSum(t: int, B: nat, j: nat): int
    requires 0 < B
  {
    if j == 0 then 0 else DigitSum(t, B, j - 1) + Digit(t, B, j - 1) * Pow(B, j - 1)
  }

  lemma NextRestIs(r: int, B: int)
    requires 0 < B && B % 2 == 0
    ensures r == Centered(r, B) + B * NextRest(r, B)
  {
    hide Centered;
    CenteredRange(r, B);
    var x := r - Centered(r, B);
    assert x == x / B * B + x % B;
  }

  lemma RestStep(t: int, B: int, j: nat)
    requires 0 < B && B % 2 == 0
    ensures Rest(t, B, j) == Digit(t, B, j) + B * Rest(t, B, j + 1)
    ensures -(B / 2) <= Digit(t, B, j) < B / 2
  {
    hide Centered, NextRest;
    NextRestIs(Rest(t, B, j), B);
    CenteredRange(Rest(t, B, j), B);
  }

  /** The digits taken off and the rest always recompose t. */
  lemma {:induction false} DigitsRecompose(t: int, B: nat, j: nat)
    requires 0 < B && B % 2 == 0
    ensures DigitSum(t, B, j) + Rest(t, B, j) * Pow(B, j) == t
  {
    if j != 0 {
      DigitsRecompose(t, B, j - 1);
      RestStep(t, B, j - 1);
      RecomposeStep(Rest(t, B, j - 1), Digit(t, B, j - 1), Rest(t, B, j), B, Pow(B, j - 1), Pow(B, j));
    }
  }

  lemma RecomposeStep(r: int, d: int, r': int, B: int, p: int, p': int)
    requires r == d + B * r' && p' == B * p
    ensures r * p == d * p + r' * p'
  {
    assert (d + B * r') * p == d * p + (B * r') * p;
    assert (B * r') * p == r' * (B * p) by {
      MulAssoc(r', B, p);
    }
  }

  /** Largest value that L digits below B/2 can carry: (B/2 - 1)(B^L - 1)/(B - 1). */
  function MaxDigits(B: nat, L: nat): int {
    if L == 0 then 0 else MaxDigits(B, L - 1) + (B / 2 - 1) * Pow(B, L - 1)
  }

  function MinDigits(B: nat, L: nat): int {
    if L == 0 then 0 else MinDigits(B, L - 1) - (B / 2) * Pow(B, L - 1)
  }

  lemma {:induction false} DigitSumRange(t: int, B: nat, j: nat)
    requires 0 < B && B % 2 == 0
    ensures MinDigits(B, j) <= DigitSum(t, B, j) <= MaxDigits(B, j)
  {
    if j != 0 {
      DigitSumRange(t, B, j - 1);
      RestStep(t, B, j - 1);
      DigitTermRange(Digit(t, B, j - 1), Pow(B, j - 1), B / 2);
    }
  }

  lemma DigitTermRange(d: int, p: int, h: int)
    requires 0 <= p && -h <= d < h
    ensures -(h * p) <= d * p <= (h - 1) * p
  {
    MulMonotone(p, d, h - 1);
    MulMonotone(p, -h, d);
    assert p * -h == -(h * p);
  }

  /** The two extreme digit sums are one full power apart, less one. */
  lemma {:induction false} DigitSpan(B: nat, L: nat)
    requires 0 < B && B % 2 == 0
    ensures MaxDigits(B, L) - MinDigits(B, L) == Pow(B, L) - 1
  {
    if L != 0 {
      DigitSpan(B, L - 1);
      var p, h := Pow(B, L - 1), B / 2;
      assert (h - 1) * p + h * p == B * p - p;
    }
  }

  lemma {:induction false} RestRange(t: int, B: nat, L: nat, j: nat)
    requires 0 < B && B % 2 == 0 && 1 <= L && j <= L
    requires -Pow(B, L) <= 2 * t <= Pow(B, L)
    ensures j < L ==> -Pow(B, L - j) <= 2 * Rest(t, B, j) <= Pow(B, L - j)
    ensures j == L ==> 0 <= Rest(t, B, j) <= 1
  {
    if j != 0 {
      RestRange(t, B, L, j - 1);
      RestStep(t, B, j - 1);
      var p := Pow(B, L - j);
      assert Pow(B, L - (j - 1)) == B * p;
      HalvedRange(Rest(t, B, j - 1), Digit(t, B, j - 1), Rest(t, B, j), B, p);
      if j < L {
        EvenPower(B, L - j);
        Tighten(Rest(t, B, j), p);
      }
    }
  }

  lemma Tighten(r: int, p: int)
    requires p % 2 == 0 && -p - 1 < 2 * r <= p + 1
    ensures -p <= 2 * r <= p
  {}

  /** One division step shrinks the range of twice the rest from B * p to about p. */
  lemma HalvedRange(r: int, d: int, r': int, B: int, p: int)
    requires 0 < B && B % 2 == 0 && r == d + B * r' && -(B / 2) <= d < B / 2
    requires -(B * p) <= 2 * r <= B * p
    ensures -p - 1 < 2 * r' <= p + 1
  {
    assert 2 * r == 2 * d + B * (2 * r') by {
      assert 2 * (B * r') == B * (2 * r');
    }
    assert B * (2 * r' - 1) == B * (2 * r') - B && B * (2 * r' + 1) == B * (2 * r') + B;
    assert B * (p + 1) == B * p + B && B * (-p - 1) == -(B * p) - B;
    FactorLess(B, 2 * r' - 1, p + 1);
    FactorLess(B, -p - 1, 2 * r' + 1);
  }

  lemma EvenPower(B: nat, e: nat)
    requires B % 2 == 0 && 0 < e
    ensures Pow(B, e) % 2 == 0
  {
    ModMulCong(B, 0, Pow(B, e - 1), Pow(B, e - 1), 2);
  }

  /**
    The decomposition of a centred value with L digits loses a carry of exactly 0 or 1, and it
    loses one exactly when the value exceeds the largest digit sum.
   */
  lemma LostCarry(t: int, B: nat, L: nat)
    requires 0 < B && B % 2 == 0 && 1 <= L
    requires -Pow(B, L) <= 2 * t <= Pow(B, L)
    ensures t == DigitSum(t, B, L) + Rest(t, B, L) * Pow(B, L)
    ensures Rest(t, B, L) == if t > MaxDigits(B, L) then 1 else 0
  {
    RestRange(t, B, L, L);
    DigitsRecompose(t, B, L);
    DigitSumRange(t, B, L);
    DigitSpan(B, L);
    var c, p := Rest(t, B, L), Pow(B, L);
    assert c == 0 ==> c * p == 0;
    assert c == 1 ==> c * p == p;
  }

  // ---------------------------------------------------------------------------
  // Residues modulo Q
  // ---------------------------------------------------------------------------

  /** The source's centred representative: values from Q/2 on are taken as negative. */
  function SignedResidue(t: int, Q: int): int {
    if t < Q / 2 then t else t - Q
  }

  /** Digit j of a residue as it is stored, negative digits shifted up by Q. */
  function StoredDigit(t: int, Q: int, B: int, j: nat): int
    requires 0 < B
  {
    Stored(Digit(SignedResidue(t, Q), B, j), Q)
  }

  function Stored(r: int, Q: int): int {
    if r < 0 then r + Q else r
  }

  /** Error in units of the lowest digit: the dropped digit, and the lost carry where one can be lost. */
  function GadgetError(Q: int, B: nat, L: nat): int {
    B / 2 + (if Q / 2 - 1 <= MaxDigits(B, L) then 0 else Pow(B, L) - Q)
  }

  /** Digits 1 .. L-1 weighted by their powers. */
  function StoredSum(t: int, Q: int, B: nat, L: nat): int
    requires 0 < B
  {
    if L <= 1 then 0 else StoredSum(t, Q, B, L - 1) + Pow(B, L - 1) * StoredDigit(t, Q, B, L - 1)
  }

  /** The representative lies in [floor(Q/2) - Q, floor(Q/2)), and every stored digit is the residue of its digit. */
  lemma StoredDigitIs(t: int, Q: int, B: int, j: nat)
    requires 0 < B <= 2 * Q && B % 2 == 0 && 0 <= t < Q
    ensures SignedResidue(t, Q) % Q == t && Q / 2 - Q <= SignedResidue(t, Q) < Q / 2
    ensures -(B / 2) <= Digit(SignedResidue(t, Q), B, j) < B / 2
    ensures StoredDigit(t, Q, B, j) == Digit(SignedResidue(t, Q), B, j) % Q
  {
    hide Digit;
    var s := SignedResidue(t, Q);
    DivModIs(s, Q, if t < Q / 2 then 0 else -1, t);
    RestStep(s, B, j);
    var d := Digit(s, B, j);
    DivModIs(d, Q, if d < 0 then -1 else 0, Stored(d, Q));
  }

  lemma StoredDigitCong(t: int, Q: int, B: int, j: nat)
    requires 0 < B && 0 < Q
    ensures StoredDigit(t, Q, B, j) % Q == Digit(SignedResidue(t, Q), B, j) % Q
  {
    ModPlusMultiple(Digit(SignedResidue(t, Q), B, j), 1, Q);
  }

  lemma {:induction false} StoredSumCong(t: int, Q: int, B: nat, L: nat)
    requires 0 < B && 0 < Q && 1 <= L
    ensures StoredSum(t, Q, B, L) % Q == (DigitSum(SignedResidue(t, Q), B, L) - Digit(SignedResidue(t, Q), B, 0)) % Q
  {
    var s := SignedResidue(t, Q);
    if L == 1 {
      assert Pow(B, 0) == 1 && DigitSum(s, B, 1) == Digit(s, B, 0) * 1;
    } else {
      StoredSumCong(t, Q, B, L - 1);
      StoredDigitCong(t, Q, B, L - 1);
      var p := Pow(B, L - 1);
      ModMulCong(p, p, StoredDigit(t, Q, B, L - 1), Digit(s, B, L - 1), Q);
      ModAddCong(StoredSum(t, Q, B, L - 1), DigitSum(s, B, L - 1) - Digit(s, B, 0),
                 p * StoredDigit(t, Q, B, L - 1), p * Digit(s, B, L - 1), Q);
      assert p * Digit(s, B, L - 1) == Digit(s, B, L - 1) * p;
    }
  }

  /** What recomposing the kept digits of t misses: the dropped digit and the lost carry, up to sign. */
  function Defect(t: int, Q: int, B: nat, L: nat): int
    requires 0 < B
  {
    var s := SignedResidue(t, Q);
    0 - Digit(s, B, 0) - Rest(s, B, L) * (Pow(B, L) - Q)
  }

  /** The kept digits represent the residue plus its defect, exactly modulo Q. */
  lemma StoredSumExact(t: int, Q: int, B: nat, L: nat)
    requires 0 < B && B % 2 == 0 && 1 <= L && 1 < Q <= Pow(B, L) && 0 <= t < Q
    ensures StoredSum(t, Q, B, L) % Q == (t + Defect(t, Q, B, L)) % Q
    ensures 0 - GadgetError(Q, B, L) <= Defect(t, Q, B, L) <= GadgetError(Q, B, L)
  {
    hide StoredSum, DigitSum, Digit, Rest, MaxDigits, Pow;
    var s, p := SignedResidue(t, Q), Pow(B, L);
    EvenPower(B, L);
    assert -p <= 2 * s <= p;
    LostCarry(s, B, L);
    RestStep(s, B, 0);
    StoredSumCong(t, Q, B, L);
    CarryExact(t, s, DigitSum(s, B, L), Digit(s, B, 0), Rest(s, B, L), p, Q);
  }

  lemma CarryExact(t: int, s: int, D: int, d0: int, c: int, p: int, Q: int)
    requires 0 < Q <= p && (s == t || s == t - Q) && s == D + c * p && (c == 0 || c == 1)
    ensures (D - d0) % Q == (t + (0 - d0 - c * (p - Q))) % Q
    ensures c * (p - Q) == if c == 0 then 0 else p - Q
  {
    var k := (if s == t then 0 else -1) - c;
    assert c == 0 ==> c * p == 0;
    assert c == 1 ==> c * p == p;
    ModPlusMultiple(t + (0 - d0 - c * (p - Q)), k, Q);
  }

  /** The kept digits represent the residue up to GadgetError. */
  lemma StoredSumClose(t: int, Q: int, B: nat, L: nat)
    requires 0 < B && B % 2 == 0 && 1 <= L && 1 < Q <= Pow(B, L) && 0 <= t < Q
    ensures Close(StoredSum(t, Q, B, L), t, GadgetError(Q, B, L), Q)
  {
    hide StoredSum, Defect, GadgetError, Close;
    StoredSumExact(t, Q, B, L);
    var d, e := Defect(t, Q, B, L), GadgetError(Q, B, L);
    CloseIntro(t + d, t, e, Q, 0);
    CloseCong(t + d, t, StoredSum(t, Q, B, L), t, e, Q);
  }

  // ---------------------------------------------------------------------------
  // Ring elements
  // ---------------------------------------------------------------------------

  function DigitPoly(f: Poly, Q: int, B: int, j: nat): (r: Poly)
    requires 0 < B
    ensures |r| == |f|
  {
    seq(|f|, k requires 0 <= k < |f| => StoredDigit(f[k], Q, B, j))
  }

  /** The same digits as signed integers. */
  function SignedDigitPoly(f: Poly, Q: int, B: int, j: nat): (r: Poly)
    requires 0 < B
    ensures |r| == |f|
  {
    seq(|f|, k requires 0 <= k < |f| => Digit(SignedResidue(f[k], Q), B, j))
  }

  /** The decomposition of f: digits 1 .. L-1 of every coefficient. */
  function Decomposition(f: Poly, Q: int, B: int, L: nat): (r: seq<Poly>)
    requires 0 < B && 1 <= L
    ensures |r| == L - 1 && forall d :: 0 <= d < L - 1 ==> |r[d]| == |f|
  {
    seq(L - 1, d requires 0 <= d < L - 1 => DigitPoly(f, Q, B, d + 1))
  }

  /** Sum of Pow(B, d + 1) * ds[d] over the first n digits. */
  function PowerSum(ds: seq<Poly>, B: nat, N: nat, n: nat): (r: Poly)
    requires n <= |ds| && forall d :: 0 <= d < n ==> |ds[d]| == N
    ensures |r| == N
  {
    if n == 0 then Zero(N) else Add(PowerSum(ds, B, N, n - 1), Scale(Pow(B, n), ds[n - 1]))
  }

  lemma DigitPolySmall(f: Poly, Q: int, B: int, j: nat)
    requires 0 < B && B % 2 == 0 && 0 < Q
    ensures Near(DigitPoly(f, Q, B, j), SignedDigitPoly(f, Q, B, j), 0, Q)
    ensures Bounded(SignedDigitPoly(f, Q, B, j), B / 2)
  {
    forall k | 0 <= k < |f|
      ensures Close(StoredDigit(f[k], Q, B, j), Digit(SignedResidue(f[k], Q), B, j), 0, Q)
    {
      StoredDigitCong(f[k], Q, B, j);
      CloseZero(StoredDigit(f[k], Q, B, j), Digit(SignedResidue(f[k], Q), B, j), Q);
    }
    forall k | 0 <= k < |f|
      ensures -(B / 2) <= Digit(SignedResidue(f[k], Q), B, j) <= B / 2
    {
      RestStep(SignedResidue(f[k], Q), B, j);
    }
  }

  lemma {:induction false} PowerSumCoefficient(f: Poly, Q: int, B: nat, L: nat, n: nat, k: nat)
    requires 0 < B && 1 <= L && n <= L - 1 && k < |f|
    ensures PowerSum(Decomposition(f, Q, B, L), B, |f|, n)[k] == StoredSum(f[k], Q, B, n + 1)
  {
    if n != 0 {
      PowerSumCoefficient(f, Q, B, L, n - 1, k);
    }
  }

  function DefectPoly(f: Poly, Q: int, B: nat, L: nat): (r: Poly)
    requires 0 < B
    ensures |r| == |f|
  {
    seq(|f|, k requires 0 <= k < |f| => Defect(f[k], Q, B, L))
  }

  /** Recomposing the decomposition gives the element plus its defect, exactly modulo Q. */
  lemma DecompositionExact(f: Poly, Q: int, B: nat, L: nat)
    requires 0 < B && B % 2 == 0 && 1 <= L && 1 < Q <= Pow(B, L) && Reduced(f, Q)
    ensures Near(PowerSum(Decomposition(f, Q, B, L), B, |f|, L - 1), Add(f, DefectPoly(f, Q, B, L)), 0, Q)
    ensures Bounded(DefectPoly(f, Q, B, L), GadgetError(Q, B, L))
  {
    hide PowerSum, Decomposition, Defect, GadgetError, StoredSum, Pow, Close;
    forall k: nat | k < |f|
      ensures Close(PowerSum(Decomposition(f, Q, B, L), B, |f|, L - 1)[k], f[k] + Defect(f[k], Q, B, L), 0, Q)
      ensures 0 - GadgetError(Q, B, L) <= Defect(f[k], Q, B, L) <= GadgetError(Q, B, L)
    {
      PowerSumCoefficient(f, Q, B, L, L - 1, k);
      StoredSumExact(f[k], Q, B, L);
      CloseZero(StoredSum(f[k], Q, B, L), f[k] + Defect(f[k], Q, B, L), Q);
    }
  }

  // ---------------------------------------------------------------------------
  // The decomposition loops
  // ---------------------------------------------------------------------------

  /** Digits of the two halves of a ciphertext, interleaved. */
  function Interleaved(f0: Poly, f1: Poly, Q: int, B: int, L: nat): (r: seq<Poly>)
    requires 0 < B && 1 <= L && |f0| == |f1|
    ensures |r| == 2 * (L - 1) && forall d :: 0 <= d < |r| ==> |r[d]| == |f0|
  {
    seq(2 * (L - 1), d requires 0 <= d < 2 * (L - 1) => DigitPoly(if d % 2 == 0 then f0 else f1, Q, B, d / 2 + 1))
  }

  /** One digit as the machine computes it, and what it leaves. */
  method TakeDigit(d: int, baseG: int, gBits: nat) returns (r: int, rest: int)
    requires 1 <= gBits <= WORD_BITS && baseG == Pow(2, gBits)
    ensures r == Centered(d, baseG) && rest == NextRest(d, baseG)
  {
    SignExtension(d, gBits);
    r := ShiftRight(ShiftLeft(d, WORD_BITS - gBits), WORD_BITS - gBits);
    rest := ShiftRight(d - r, gBits);
  }

  ghost predicate ZeroRows(rows: seq<Poly>, N: nat) {
    forall d :: 0 <= d < |rows| ==> rows[d] == Zero(N)
  }

  ghost predicate IsGadgetBase(baseG: int) {
    exists g: nat :: 1 <= g <= WORD_BITS && baseG == Pow(2, g)
  }

  /** Rows hold the final digits in columns before k and zeros from k on. */
  ghost predicate ColumnsDone(rows: seq<Poly>, goal: seq<Poly>, k: int) {
    && |rows| == |goal|
    && forall d :: 0 <= d < |rows| ==> RowDone(rows[d], goal[d], k)
  }

  ghost predicate RowDone(row: Poly, goal: Poly, k: int) {
    && |row| == |goal|
    && (forall i :: 0 <= i < k && i < |row| ==> row[i] == goal[i])
    && (forall i :: 0 <= k <= i < |row| ==> row[i] == 0)
  }

  /** Column k is done in the rows before d. */
  ghost predicate ColumnPartlyDone(rows: seq<Poly>, goal: seq<Poly>, k: int, d: int) {
    && |rows| == |goal|
    && forall e :: 0 <= e < |rows| ==> RowDone(rows[e], goal[e], if e < d then k + 1 else k)
  }

  lemma RowStep(row: Poly, goal: Poly, k: nat, v: int)
    requires RowDone(row, goal, k) && k < |row| && v == goal[k]
    ensures RowDone(row[k := row[k] + v], goal, k + 1)
  {}

  lemma StoreStep(rows: seq<Poly>, goal: seq<Poly>, k: nat, d: nat, v: int, rows': seq<Poly>)
    requires ColumnPartlyDone(rows, goal, k, d) && d < |rows| && k < |goal[d]| && v == goal[d][k]
    requires |rows[d]| == |goal[d]| && rows' == rows[d := rows[d][k := rows[d][k] + v]]
    ensures ColumnPartlyDone(rows', goal, k, d + 1)
  {
    RowStep(rows[d], goal[d], k, v);
  }

  lemma ColumnDone(rows: seq<Poly>, goal: seq<Poly>, k: nat)
    ensures ColumnsDone(rows, goal, k) <==> ColumnPartlyDone(rows, goal, k, 0)
    ensures ColumnPartlyDone(rows, goal, k, |rows|) <==> ColumnsDone(rows, goal, k + 1)
  {}

  lemma ZerosStart(rows: seq<Poly>, goal: seq<Poly>, N: nat)
    requires ZeroRows(rows, N) && |rows| == |goal| && forall d :: 0 <= d < |goal| ==> |goal[d]| == N
    ensures ColumnsDone(rows, goal, 0)
  {}

  lemma ColumnsFinish(rows: seq<Poly>, goal: seq<Poly>, N: nat)
    requires ColumnsDone(rows, goal, N) && forall d :: 0 <= d < |goal| ==> |goal[d]| == N
    ensures rows == goal
  {
    forall d | 0 <= d < |rows|
      ensures rows[d] == goal[d]
    {
      assert RowDone(rows[d], goal[d], N);
    }
  }

  lemma BaseBits(baseG: int)
    requires IsGadgetBase(baseG)
    ensures 2 <= baseG && baseG % 2 == 0
    ensures 1 <= TrailingZeros(baseG) <= WORD_BITS && baseG == Pow(2, TrailingZeros(baseG))
  {
    var g: nat :| 1 <= g <= WORD_BITS && baseG == Pow(2, g);
    TrailingZerosOfPower(g);
    assert baseG == 2 * Pow(2, g - 1);
  }

  /** Takes the next digit of d and adds it, shifted into [0, Q), to cell (row, k). */
  method StoreDigit(Q: int, baseG: int, gBits: nat, d: int, output: array<Poly>, row: nat, k: nat,
                    ghost goal: seq<Poly>)
    returns (rest: int)
    requires 1 <= gBits <= WORD_BITS && 0 < baseG && baseG == Pow(2, gBits)
    requires ColumnPartlyDone(output[..], goal, k, row) && row < output.Length && |output[row]| == |goal[row]|
    requires k < |goal[row]|
    requires goal[row][k] == Stored(Centered(d, baseG), Q)
    modifies output
    ensures rest == NextRest(d, baseG)
    ensures ColumnPartlyDone(output[..], goal, k, row + 1)
  {
    hide ColumnPartlyDone, Centered, NextRest;
    var r;
    r, rest := TakeDigit(d, baseG, gBits);
    if r < 0 {
      r := r + Q;
    }
    ghost var rows := output[..];
    output[row] := output[row][k := output[row][k] + r];
    assert output[..] == rows[row := rows[row][k := rows[row][k] + r]];
    PartlySizes(rows, goal, k, row);
    StoreStep(rows, goal, k, row, r, output[..]);
  }

  lemma PartlySizes(rows: seq<Poly>, goal: seq<Poly>, k: int, d: int)
    requires ColumnPartlyDone(rows, goal, k, d)
    ensures |rows| == |goal| && forall e :: 0 <= e < |rows| ==> |rows[e]| == |goal[e]|
  {
    forall e | 0 <= e < |rows|
      ensures |rows[e]| == |goal[e]|
    {
      assert RowDone(rows[e], goal[e], if e < d then k + 1 else k);
    }
  }

  lemma InterleavedCell(f0: Poly, f1: Poly, Q: int, B: int, L: nat, j: nat, k: nat)
    requires 0 < B && 1 <= L && |f0| == |f1| && j < L - 1 && k < |f0|
    ensures Interleaved(f0, f1, Q, B, L)[2 * j][k] == Stored(Centered(Rest(SignedResidue(f0[k], Q), B, j + 1), B), Q)
    ensures Interleaved(f0, f1, Q, B, L)[2 * j + 1][k] == Stored(Centered(Rest(SignedResidue(f1[k], Q), B, j + 1), B),
                                                                 Q)
  {
    OverloadsAgree(f0, f1, Q, B, L, j);
  }

  /** One pass of the inner loop: digit j of both halves into rows 2j and 2j + 1. */
  method StorePair(Q: int, baseG: int, gBits: nat, d0: int, d1: int, output: array<Poly>, j: nat, k: nat,
                   ghost goal: seq<Poly>)
    returns (rest0: int, rest1: int)
    requires 1 <= gBits <= WORD_BITS && 0 < baseG && baseG == Pow(2, gBits)
    requires ColumnPartlyDone(output[..], goal, k, 2 * j) && 2 * j + 1 < |goal|
    requires k < |goal[2 * j]| && k < |goal[2 * j + 1]|
    requires goal[2 * j][k] == Stored(Centered(d0, baseG), Q)
    requires goal[2 * j + 1][k] == Stored(Centered(d1, baseG), Q)
    modifies output
    ensures rest0 == NextRest(d0, baseG) && rest1 == NextRest(d1, baseG)
    ensures ColumnPartlyDone(output[..], goal, k, 2 * (j + 1))
  {
    hide ColumnPartlyDone, Centered, NextRest, Stored;
    PartlySizes(output[..], goal, k, 2 * j);
    rest0 := StoreDigit(Q, baseG, gBits, d0, output, 2 * j, k, goal);
    PartlySizes(output[..], goal, k, 2 * j + 1);
    rest1 := StoreDigit(Q, baseG, gBits, d1, output, 2 * j + 1, k, goal);
  }

  /** Body of the outer loop: all digits of column k. */
  method DecomposeColumn(Q: int, baseG: int, gBits: nat, digitsG: nat, input0: Poly, input1: Poly,
                         output: array<Poly>, k: nat, ghost goal: seq<Poly>)
    requires 0 < Q && 1 <= digitsG && |input0| == |input1| && k < |input0|
    requires 1 <= gBits <= WORD_BITS && 0 < baseG && baseG == Pow(2, gBits)
    requires goal == Interleaved(input0, input1, Q, baseG, digitsG) && ColumnsDone(output[..], goal, k)
    modifies output
    ensures ColumnsDone(output[..], goal, k + 1)
  {
    hide ColumnPartlyDone, ColumnsDone, Centered, Stored, Interleaved, SignedResidue;
    ColumnDone(output[..], goal, k);
    var d0 := SignedResidue(input0[k], Q);
    var d1 := SignedResidue(input1[k], Q);
    var r0, r1: int;
    r0, d0 := TakeDigit(d0, baseG, gBits);
    r1, d1 := TakeDigit(d1, baseG, gBits);
    for j := 0 to digitsG - 1
      invariant d0 == Rest(SignedResidue(input0[k], Q), baseG, j + 1)
      invariant d1 == Rest(SignedResidue(input1[k], Q), baseG, j + 1)
      invariant ColumnPartlyDone(output[..], goal, k, 2 * j)
    {
      InterleavedCell(input0, input1, Q, baseG, digitsG, j, k);
      d0, d1 := StorePair(Q, baseG, gBits, d0, d1, output, j, k, goal);
    }
    PartlySizes(output[..], goal, k, 2 * (digitsG - 1));
    ColumnDone(output[..], goal, k);
  }

  /** Adds the digits of both elements into the rows of output, in place. */
  method SignedDigitDecompose(Q: int, baseG: int, digitsG: nat, input0: Poly, input1: Poly, output: array<Poly>)
    requires 0 < Q && IsGadgetBase(baseG) && 1 <= digitsG && |input0| == |input1|
    requires output.Length == 2 * (digitsG - 1) && ZeroRows(output[..], |input0|)
    modifies output
    ensures 0 < baseG && output[..] == Interleaved(input0, input1, Q, baseG, digitsG)
  {
    hide ColumnsDone, IsGadgetBase, Pow;
    BaseBits(baseG);
    var gBits := TrailingZeros(baseG);
    ghost var goal := Interleaved(input0, input1, Q, baseG, digitsG);
    ZerosStart(output[..], goal, |input0|);
    for k := 0 to |input0|
      invariant ColumnsDone(output[..], goal, k)
    {
      DecomposeColumn(Q, baseG, gBits, digitsG, input0, input1, output, k, goal);
    }
    ColumnsFinish(output[..], goal, |input0|);
  }

  /** The overload for a single ring element. */
  method SignedDigitDecomposePoly(Q: int, baseG: int, digitsG: nat, input: Poly, output: array<Poly>)
    requires 0 < Q && IsGadgetBase(baseG) && 1 <= digitsG
    requires output.Length == digitsG - 1 && ZeroRows(output[..], |input|)
    modifies output
    ensures 0 < baseG && output[..] == Decomposition(input, Q, baseG, digitsG)
  {
    hide ColumnsDone, ColumnPartlyDone, Centered, Stored, SignedResidue, IsGadgetBase, Pow;
    BaseBits(baseG);
    var gBits := TrailingZeros(baseG);
    var N := |input|;
    ghost var goal := Decomposition(input, Q, baseG, digitsG);
    ZerosStart(output[..], goal, N);
    for k := 0 to N
      invariant ColumnsDone(output[..], goal, k)
    {
      ColumnDone(output[..], goal, k);
      var d0 := SignedResidue(input[k], Q);
      ghost var s0 := d0;
      var r0: int;
      r0, d0 := TakeDigit(d0, baseG, gBits);
      for d := 0 to digitsG - 1
        invariant d0 == Rest(s0, baseG, d + 1)
        invariant ColumnPartlyDone(output[..], goal, k, d)
      {
        PartlySizes(output[..], goal, k, d);
        DecompositionCell(input, Q, baseG, digitsG, d, k);
        d0 := StoreDigit(Q, baseG, gBits, d0, output, d, k, goal);
      }
      ColumnDone(output[..], goal, k);
    }
    ColumnsFinish(output[..], goal, N);
  }

  lemma DecompositionCell(f: Poly, Q: int, B: int, L: nat, d: nat, k: nat)
    requires 0 < B && 1 <= L && d < L - 1 && k < |f|
    ensures Decomposition(f, Q, B, L)[d][k] == Stored(Centered(Rest(SignedResidue(f[k], Q), B, d + 1), B), Q)
  {}

  /** The two overloads agree: even rows decompose the first half, odd rows the second. */
  lemma OverloadsAgree(f0: Poly, f1: Poly, Q: int, B: int, L: nat, d: nat)
    requires 0 < B && 1 <= L && |f0| == |f1| && d < L - 1
    ensures Interleaved(f0, f1, Q, B, L)[2 * d] == Decomposition(f0, Q, B, L)[d]
    ensures Interleaved(f0, f1, Q, B, L)[2 * d + 1] == Decomposition(f1, Q, B, L)[d]
  {
    var e, o := 2 * d, 2 * d + 1;
    assert e % 2 == 0 && e / 2 + 1 == d + 1 && o % 2 == 1 && o / 2 + 1 == d + 1;
    assert Interleaved(f0, f1, Q, B, L)[e] == DigitPoly(f0, Q, B, d + 1);
    assert Interleaved(f0, f1, Q, B, L)[o] == DigitPoly(f1, Q, B, d + 1);
  }
}
