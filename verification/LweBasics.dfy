/**
  Machine arithmetic on residues, secret keys and inner products
  (src/core/include/math/hal/intnat/ubintnat.h, src/core/lib/math/hal/intnat/mubintvecnat.cpp).
 */
module LweBasics {
  import opened Arithmetic

  /** x + y for operands below m. */
  function ModAddFast(x: int, y: int, m: int): int {
    if x + y >= m then x + y - m else x + y
  }

  /** x - y for operands below m. */
  function ModSubFast(x: int, y: int, m: int): int {
    if x < y then x + m - y else x - y
  }

  lemma ModAddFastIs(x: int, y: int, m: int)
    requires 0 <= x < m && 0 <= y < m
    ensures ModAddFast(x, y, m) == (x + y) % m
  {
    DivModIs(x + y, m, if x + y >= m then 1 else 0, ModAddFast(x, y, m));
  }

  lemma ModSubFastIs(x: int, y: int, m: int)
    requires 0 <= x < m && 0 <= y < m
    ensures ModSubFast(x, y, m) == (x - y) % m
  {
    DivModIs(x - y, m, if x < y then -1 else 0, ModSubFast(x, y, m));
  }

  ghost predicate Residues(a: seq<int>, m: int) {
    forall i :: 0 <= i < |a| ==> 0 <= a[i] < m
  }

  /** Sum of a[i] * s[i] over the first n entries. */
  function Inner(a: seq<int>, s: seq<int>, n: nat): int
    requires n <= |a| && n <= |s|
  {
    if n == 0 then 0 else Inner(a, s, n - 1) + a[n - 1] * s[n - 1]
  }

  /** Entrywise closeness of vectors gives closeness of inner products, weighted by the key. */
  lemma {:induction false} InnerClose(a: seq<int>, a': seq<int>, s: seq<int>, n: nat, b: int, M: int)
    requires 0 < M && 0 <= b && n <= |a| && n <= |a'| && n <= |s|
    requires forall i :: 0 <= i < n ==> Close(a[i], a'[i], b, M)
    ensures Close(Inner(a, s, n), Inner(a', s, n), AbsSum(s, n) * b, M)
  {
    if n == 0 {
      CloseSelf(0, 0, M);
    } else {
      InnerClose(a, a', s, n - 1, b, M);
      assert s[n - 1] * a[n - 1] == a[n - 1] * s[n - 1] && s[n - 1] * a'[n - 1] == a'[n - 1] * s[n - 1];
      CloseStep(Inner(a, s, n - 1), Inner(a', s, n - 1), AbsSum(s, n - 1), s[n - 1], a[n - 1], a'[n - 1],
                Inner(a, s, n), Inner(a', s, n), AbsSum(s, n), b, M);
    }
  }

  lemma {:induction false} InnerScale(c: int, a: seq<int>, a': seq<int>, s: seq<int>, n: nat)
    requires n <= |a| && n <= |a'| && n <= |s|
    requires forall i :: 0 <= i < n ==> a'[i] == c * a[i]
    ensures Inner(a', s, n) == c * Inner(a, s, n)
  {
    if n != 0 {
      InnerScale(c, a, a', s, n - 1);
      MulAssoc(c, a[n - 1], s[n - 1]);
      assert c * (Inner(a, s, n - 1) + a[n - 1] * s[n - 1]) == c * Inner(a, s, n - 1) + c * (a[n - 1] * s[n - 1]);
    }
  }

  lemma {:induction false} InnerAdd(a: seq<int>, b: seq<int>, c: seq<int>, s: seq<int>, n: nat)
    requires n <= |a| && n <= |b| && n <= |c| && n <= |s|
    requires forall i :: 0 <= i < n ==> c[i] == a[i] + b[i]
    ensures Inner(c, s, n) == Inner(a, s, n) + Inner(b, s, n)
  {
    if n != 0 {
      InnerAdd(a, b, c, s, n - 1);
      assert (a[n - 1] + b[n - 1]) * s[n - 1] == a[n - 1] * s[n - 1] + b[n - 1] * s[n - 1];
    }
  }

  /** Congruent vectors have congruent inner products. */
  lemma InnerCong(a: seq<int>, a': seq<int>, s: seq<int>, n: nat, M: int)
    requires 0 < M && n <= |a| && n <= |a'| && n <= |s|
    requires forall i :: 0 <= i < n ==> a[i] % M == a'[i] % M
    ensures Inner(a, s, n) % M == Inner(a', s, n) % M
  {
    forall i | 0 <= i < n
      ensures Close(a[i], a'[i], 0, M)
    {
      CloseZero(a[i], a'[i], M);
    }
    InnerClose(a, a', s, n, 0, M);
    var w := AbsSum(s, n);
    assert w * 0 == 0;
    CloseZero(Inner(a, s, n), Inner(a', s, n), M);
  }

  // ---------------------------------------------------------------------------
  // Secret keys
  // ---------------------------------------------------------------------------

  /** A secret vector stored as residues; values above modulus/2 stand for negative ones. */
  datatype LWEPrivateKey = LWEPrivateKey(values: seq<int>, modulus: int) {

    ghost predicate Valid() {
      2 < modulus && Residues(values, modulus)
    }

    /** The signed integers the key stands for. */
    function Signed(): (s: seq<int>)
      ensures |s| == |values|
    {
      seq(|values|, i requires 0 <= i < |values| => SignedValue(values[i], modulus))
    }
  }

  function SignedValue(v: int, modulus: int): int {
    if v > modulus / 2 then v - modulus else v
  }

  /** One entry re-embedded from modulus M to modulus q. */
  function SwitchValue(v: int, M: int, q: int): int
    requires 0 < q
  {
    var diff := if M > q then M - q else q - M;
    if q > M then v + (if v > M / 2 then diff else 0)
    else (v - (if v > M / 2 then diff else 0) % q) % q
  }

  /** Re-embedding keeps the signed value modulo the new modulus. */
  lemma SwitchValueSigned(v: int, M: int, q: int)
    requires 0 <= v < M && 0 < q
    ensures 0 <= SwitchValue(v, M, q) < q
    ensures SwitchValue(v, M, q) % q == SignedValue(v, M) % q
  {
    if q > M {
      var w := if v > M / 2 then v + (q - M) else v;
      ModEqualIntro(w, SignedValue(v, M), if v > M / 2 then 1 else 0, q);
    } else {
      LessResidue(v, if v > M / 2 then M - q else 0, q);
      var w := v - (if v > M / 2 then M - q else 0);
      ModEqualIntro(w, SignedValue(v, M), if v > M / 2 then 1 else 0, q);
    }
  }

  /** A residue stands for the integer nearest to 0 it is congruent to, half of the modulus for itself. */
  lemma SignedIs(v: int, M: int)
    requires 0 <= v < M
    ensures SignedValue(v, M) == if 2 * v <= M then v else v - M
  {}

  /** What is stored under the new modulus is the residue of that integer. */
  lemma SwitchValueIs(v: int, M: int, q: int)
    requires 0 <= v < M && 0 < q
    ensures SwitchValue(v, M, q) == (if 2 * v <= M then v else v - M) % q
  {
    hide SwitchValue;
    SwitchValueSigned(v, M, q);
    SignedIs(v, M);
    ModSmall(SwitchValue(v, M, q), q);
  }

  lemma LessResidue(v: int, d: int, q: int)
    requires 0 < q
    ensures 0 <= (v - d % q) % q < q && (v - d % q) % q % q == (v - d) % q
  {
    ModMod(d, q);
    ModAddCong(v, v, d % q, d, q);
    ModMod(v - d % q, q);
  }

  function SwitchModulus(sk: LWEPrivateKey, q: int): (r: seq<int>)
    requires 0 < q
    ensures |r| == |sk.values|
  {
    seq(|sk.values|, i requires 0 <= i < |sk.values| => SwitchValue(sk.values[i], sk.modulus, q))
  }

  lemma SwitchModulusSigned(sk: LWEPrivateKey, q: int)
    requires sk.Valid() && 0 < q
    ensures Residues(SwitchModulus(sk, q), q)
    ensures forall i :: 0 <= i < |sk.values| ==> SwitchModulus(sk, q)[i] % q == sk.Signed()[i] % q
  {
    forall i | 0 <= i < |sk.values|
      ensures 0 <= SwitchModulus(sk, q)[i] < q && SwitchModulus(sk, q)[i] % q == sk.Signed()[i] % q
    {
      SwitchValueSigned(sk.values[i], sk.modulus, q);
    }
  }

  // ---------------------------------------------------------------------------
  // Negated vectors
  // ---------------------------------------------------------------------------

  /** 0 - a[i] modulo q, as the accumulators compute it. */
  function NegVector(a: seq<int>, q: int): (r: seq<int>)
    ensures |r| == |a|
  {
    seq(|a|, i requires 0 <= i < |a| => ModSubFast(0, a[i], q))
  }

  lemma NegVectorInner(a: seq<int>, q: int, s: seq<int>)
    requires 0 < q && Residues(a, q) && |a| == |s|
    ensures Inner(NegVector(a, q), s, |a|) % q == (-Inner(a, s, |a|)) % q
  {
    var neg := seq(|a|, i requires 0 <= i < |a| => -1 * a[i]);
    InnerScale(-1, a, neg, s, |a|);
    forall i | 0 <= i < |a|
      ensures NegVector(a, q)[i] % q == neg[i] % q
    {
      ModSubFastIs(0, a[i], q);
      ModMod(-a[i], q);
    }
    InnerCong(NegVector(a, q), neg, s, |a|, q);
  }
}
