/**
  The Ducas-Micciancio accumulator (src/binfhe/lib/rgsw-acc-dm.cpp): for every secret entry a
  table of keys for its multiples by base-R digits, applied digit by digit.
 */
module AccumulatorDM {
  import opened Arithmetic
  import opened NegacyclicRing
  import opened RingNoise
  import opened Gadget
  import opened RgswParams
  import opened ExternalProduct
  import opened Accumulator
  import opened LweBasics

  type AccKey = seq<seq<seq<EvalKey>>>

  // ---------------------------------------------------------------------------
  // Keys
  // ---------------------------------------------------------------------------

  /** m converted to a 64-bit unsigned integer. */
  function ToUnsigned(m: int): int {
    m % Pow(2, WORD_BITS)
  }

  /** A power of two up to 2^32 divides 2^64, so the unsigned detour keeps residues modulo q. */
  lemma UnsignedResidue(m: int, q: int)
    requires IsPow2(q) && 0 < q && q <= Pow(2, 32)
    ensures ((ToUnsigned(m) % q) + q) % q == m % q
  {
    hide Pow;
    var c := WordQuotient(q);
    DoubleResidue(m, c, q, Pow(2, WORD_BITS));
  }

  lemma WordQuotient(q: int) returns (c: int)
    requires IsPow2(q) && q <= Pow(2, 32)
    ensures 0 < c && Pow(2, WORD_BITS) == c * q
  {
    hide Pow;
    var e: nat :| q == Pow(2, e);
    if e > 32 {
      PowMonotone(2, 33, e);
      NextPowerOfTwo(32);
    }
    PowAdd(2, WORD_BITS - e, e);
    c := Pow(2, WORD_BITS - e);
  }

  lemma NextPowerOfTwo(e: nat)
    ensures 0 < Pow(2, e) && Pow(2, e + 1) == 2 * Pow(2, e)
  {}

  lemma DoubleResidue(m: int, c: int, q: int, W: int)
    requires 0 < q && 0 < c && W == c * q && 0 < W
    ensures ((m % W) % q + q) % q == m % q
  {
    ModOfMultiple(m, c, q);
    ModPlusMultiple((m % W) % q, 1, q);
    ModMod(m % W, q);
  }

  /** Multiplying a residue modulo q by 2N/q gives the exponent modulo 2N. */
  lemma ExponentResidue(m: int, q: int, c: int, M: int)
    requires 0 < q && 0 < c && M == c * q
    ensures 0 <= (m % q) * c < M
    ensures ((m % q) * c) % M == (c * m) % M
  {
    Arithmetic.MulMonotone(c, m % q, q - 1);
    assert c * (m % q) == (m % q) * c && c * (q - 1) == c * q - c;
    ModMod(m, q);
    ModScale(m % q, m, c, q);
  }

  /** x as a signed 32-bit integer: products of 32-bit integers wrap around. */
  function Word32(x: int): int {
    Wrap(x, Pow(2, 31), Pow(2, 32))
  }

  /** x modulo W, taken from -h on. */
  function Wrap(x: int, h: int, W: int): int
    requires 0 < W
  {
    (x + h) % W - h
  }

  /** Wrapping around keeps residues modulo powers of two up to 2^32. */
  lemma Word32Residue(x: int, q: int)
    requires IsPow2(q) && 0 < q && q <= Pow(2, 32)
    ensures Word32(x) % q == x % q
  {
    hide Pow, Wrap;
    var h, W := Pow(2, 31), Pow(2, 32);
    var c := WordDivisor(W, q);
    Wrapped(x, h, c, q, W);
  }

  lemma WordDivisor(W: int, q: int) returns (c: int)
    requires IsPow2(W) && IsPow2(q) && q <= W
    ensures 0 < q && W == c * q
  {
    hide Pow, IsPow2;
    PowersDivide(W, q);
    c := W / q;
  }

  lemma Wrapped(x: int, h: int, c: int, q: int, W: int)
    requires 0 < q && 0 < W && W == c * q
    ensures Wrap(x, h, W) % q == x % q
  {
    ModOfDivisor(x + h, c, q, W);
    ModAddCong((x + h) % W, x + h, h, h, q);
  }

  lemma Word32Product(x: int, y: int, q: int)
    requires IsPow2(q) && 0 < q && q <= Pow(2, 32)
    ensures Word32(Word32(x) * Word32(y)) % q == (x * y) % q
  {
    hide Word32, Pow;
    Word32Residue(x, q);
    Word32Residue(y, q);
    ModMulCong(Word32(x), x, Word32(y), y, q);
    Word32Residue(Word32(x) * Word32(y), q);
  }

  /** 2N/q, the number of ring exponents per LWE unit. */
  function Stretch(N: nat, q: int): int
    requires 0 < q
  {
    2 * N / q
  }

  lemma StretchExact(N: nat, q: int)
    requires 0 < q && 0 < N && (2 * N) % q == 0
    ensures 0 < Stretch(N, q) && 2 * N == Stretch(N, q) * q
  {
    var c := Stretch(N, q);
    assert 2 * N == c * q;
    FactorLess(q, 0, c);
  }

  method KeyGenDM(params: RingGSWCryptoParams, z: Poly, m: int, draw: int -> Sample, ghost cx: Context)
    returns (ek: EvalKey)
    requires params.GadgetReady() && cx == ContextOf(params, z, cx.noise) && cx.Ok()
    requires forall i :: SampleOK(draw(i), cx.N, cx.Q, cx.noise)
    ensures cx.TurnsBy(ek, Stretch(cx.N, cx.q) * m)
    ensures KeyFrom(ek, draw, Mono(cx.N, Stretch(cx.N, cx.q) * m), z, cx.B, cx.L, cx.Q)
  {
    hide IsPow2, Pow, Coef, KeyFrom;
    var q, N := params.q, params.N;
    StretchExact(N, q);
    FactorLessEqual(q, Stretch(N, q), 2 * N);
    UnsignedResidue(m, q);
    ExponentResidue(m, q, Stretch(N, q), 2 * N);
    var mm := ((ToUnsigned(m) % q + q) % q) * (2 * N / q);
    RotCong(One(N), mm, Stretch(N, q) * m);
    ek := EncryptMonomial(params, mm, draw, z, cx);
  }

  lemma FactorLessEqual(q: int, c: int, M: int)
    requires 0 < q && 0 < c && M == c * q
    ensures q <= M
  {
    Arithmetic.MulMonotone(q, 1, c);
  }

  /** Slot (i, j, k) holds a key for s_i * j * R^k, for every non-zero digit j. */
  ghost predicate DMKeys(ek: AccKey, s: seq<int>, cx: Context, R: nat, digits: nat) {
    |ek| == |s| && forall i :: 0 <= i < |s| ==> DMRow(ek[i], s[i], cx, R, digits)
  }

  ghost predicate DMRow(row: seq<seq<EvalKey>>, si: int, cx: Context, R: nat, digits: nat) {
    |row| == R && forall j :: 1 <= j < R ==> DMColumn(row[j], si * j, cx, R, digits)
  }

  ghost predicate DMColumn(col: seq<EvalKey>, sj: int, cx: Context, R: nat, upTo: nat) {
    && 0 < cx.q && |col| == upTo
    && forall k :: 0 <= k < upTo ==> cx.TurnsBy(col[k], Stretch(cx.N, cx.q) * (sj * Pow(R, k)))
  }

  ghost predicate SamplerOK(draw: (int, int, int, int) -> Sample, N: nat, Q: int, noise: int) {
    forall i, j, k, l :: SampleOK(draw(i, j, k, l), N, Q, noise)
  }

  method KeyGenAcc(params: RingGSWCryptoParams, z: Poly, sk: LWEPrivateKey,
                   draw: (int, int, int, int) -> Sample, ghost cx: Context)
    returns (ek: AccKey)
    requires params.GadgetReady() && params.variant == AP && cx == ContextOf(params, z, cx.noise) && cx.Ok()
    requires SamplerOK(draw, cx.N, cx.Q, cx.noise)
    ensures DMKeys(ek, sk.Signed(), cx, params.baseR, |params.digitsR|)
  {
    hide IsPow2, Pow, Stretch, DMColumn, SampleOK;
    var modHalf := sk.modulus / 2;
    ek := [];
    for i := 0 to |sk.values|
      invariant |ek| == i
      invariant forall h :: 0 <= h < i ==> DMRow(ek[h], sk.Signed()[h], cx, params.baseR, |params.digitsR|)
    {
      var row := [[]];
      var s := sk.values[i];
      s := if s > modHalf then s - sk.modulus else s;
      for j := 1 to params.baseR
        invariant |row| == j
        invariant forall h :: 1 <= h < j ==> DMColumn(row[h], s * h, cx, params.baseR, |params.digitsR|)
      {
        var col := KeyColumn(params, z, s * j, (k, l) => draw(i, j, k, l), cx);
        row := row + [col];
      }
      ek := ek + [row];
    }
  }

  /** The wrapped message turns as the exact one. */
  lemma WrappedTurn(params: RingGSWCryptoParams, key: EvalKey, cx: Context, m: int, x: int, y: int)
    requires params.GadgetReady() && cx.N == params.N && cx.q == params.q && cx.Ok()
    requires m == Word32(Word32(x) * Word32(y))
    requires 0 < cx.q && cx.TurnsBy(key, Stretch(cx.N, cx.q) * m)
    ensures cx.TurnsBy(key, Stretch(cx.N, cx.q) * (x * y))
  {
    hide IsPow2, Pow, Coef, Word32;
    StretchExact(cx.N, cx.q);
    FactorLessEqual(cx.q, Stretch(cx.N, cx.q), 2 * cx.N);
    Word32Product(x, y, cx.q);
    ModScale(m, x * y, Stretch(cx.N, cx.q), cx.q);
    RotCong(One(cx.N), Stretch(cx.N, cx.q) * m, Stretch(cx.N, cx.q) * (x * y));
  }

  /** Innermost loop of KeyGenAcc: keys for sj times every digit weight. */
  method KeyColumn(params: RingGSWCryptoParams, z: Poly, sj: int, draw: (int, int) -> Sample, ghost cx: Context)
    returns (col: seq<EvalKey>)
    requires params.GadgetReady() && params.variant == AP && cx == ContextOf(params, z, cx.noise) && cx.Ok()
    requires forall k, l :: SampleOK(draw(k, l), cx.N, cx.Q, cx.noise)
    ensures DMColumn(col, sj, cx, params.baseR, |params.digitsR|)
  {
    hide IsPow2, Pow, Stretch, SampleOK, Word32;
    col := [];
    for k := 0 to |params.digitsR|
      invariant DMColumn(col, sj, cx, params.baseR, k)
    {
      var m := Word32(Word32(sj) * Word32(params.digitsR[k]));
      var key := KeyGenDM(params, z, m, l => draw(k, l), cx);
      WrappedTurn(params, key, cx, m, sj, params.digitsR[k]);
      col := col + [key];
    }
  }

  // ---------------------------------------------------------------------------
  // Accumulation
  // ---------------------------------------------------------------------------

  lemma DigitExponent(c: int, s: int, E: int, x: int, a0: int, w: int)
    ensures c * (E + s * (x + a0 * w)) == c * (E + s * x) + c * (s * a0 * w)
  {
    assert s * (x + a0 * w) == s * x + s * (a0 * w);
    MulAssoc(s, a0, w);
    assert c * (E + s * x + s * a0 * w) == c * (E + s * x) + c * (s * a0 * w);
  }

  lemma NextDigit(aI: int, w: int, R: int)
    requires 0 < R
    ensures aI * w == (aI % R) * w + (aI / R) * (R * w)
  {
    assert aI == (aI / R) * R + aI % R;
    assert ((aI / R) * R + aI % R) * w == (aI / R) * R * w + (aI % R) * w;
    MulAssoc(aI / R, R, w);
  }

  lemma CountStep(n: int, eps: int)
    ensures (n + 1) * eps == n * eps + eps
  {}

  lemma Exhausted(aI: int, w: int, done: int, a: int)
    requires 0 <= aI && 0 <= a < w && 0 <= done && done + aI * w == a
    ensures done == a
  {
    if 0 < aI {
      Arithmetic.MulMonotone(w, 1, aI);
    } else {
      assert aI * w == 0;
    }
  }

  /** One digit: acc is turned by c * s_i * a0 * w, or left alone when a0 = 0. */
  method AccumulateDigit(params: RingGSWCryptoParams, row: seq<seq<EvalKey>>, a0: nat, k: nat, acc: RLWECiphertext,
                         ghost si: int, ghost f: Poly, ghost e: int, ghost b: int, ghost cx: Context)
    requires params.Valid() && cx == ContextOf(params, cx.z, cx.noise) && cx.Ok()
    requires a0 < params.baseR && k < |params.digitsR| && DMRow(row, si, cx, params.baseR, |params.digitsR|)
    requires Holds(acc, cx, f, e, b)
    modifies acc
    ensures Holds(acc, cx, f, e + Stretch(cx.N, cx.q) * (si * a0 * Pow(params.baseR, k)), b + cx.Eps())
  {
    hide IsPow2, Pow, Near, Rot, ProductNoise, Norm1, Holds, Stretch;
    EpsNonNeg(cx);
    ghost var w, c := Pow(params.baseR, k), Stretch(cx.N, cx.q);
    if a0 != 0 {
      assert DMColumn(row[a0], si * a0, cx, params.baseR, |params.digitsR|);
      TurnAcc(params, row[a0][k], acc, cx, f, e, c * (si * a0 * w), b);
    } else {
      assert c * (si * 0 * w) == 0;
      HoldsWiden(acc, cx, f, e, b, e + c * (si * a0 * w), b + cx.Eps());
    }
  }

  /** All digits of one entry: acc is turned by c * s_i * a, where a is the whole entry. */
  method AccumulateEntry(params: RingGSWCryptoParams, row: seq<seq<EvalKey>>, a: int, acc: RLWECiphertext,
                         ghost si: int, ghost E: int, ghost f: Poly, ghost count: nat, ghost cx: Context)
    requires params.Valid() && params.variant == AP && cx == ContextOf(params, cx.z, cx.noise) && cx.Ok()
    requires 0 <= a < params.q && DMRow(row, si, cx, params.baseR, |params.digitsR|)
    requires Holds(acc, cx, f, Stretch(cx.N, cx.q) * E, count * cx.Eps())
    modifies acc
    ensures Holds(acc, cx, f, Stretch(cx.N, cx.q) * (E + si * a), (count + |params.digitsR|) * cx.Eps())
  {
    hide IsPow2, Near, Rot, ProductNoise, Norm1, Holds, Stretch, DMRow, Pow;
    var R := params.baseR;
    ghost var c, eps := Stretch(cx.N, cx.q), cx.Eps();
    ghost var done := 0;
    var aI := a;
    FirstDigit(a, R, si, E);
    for k := 0 to |params.digitsR|
      invariant 0 <= aI && 0 <= done && done + aI * Pow(R, k) == a
      invariant Holds(acc, cx, f, c * (E + si * done), (count + k) * eps)
    {
      var a0, rest := aI % R, aI / R;
      DigitStep(c, si, E, done, aI, R, k, a);
      CountStep(count + k, eps);
      AccumulateDigit(params, row, a0, k, acc, si, f, c * (E + si * done), (count + k) * eps, cx);
      done := done + a0 * Pow(R, k);
      aI := rest;
    }
    Exhausted(aI, Pow(R, |params.digitsR|), done, a);
  }

  lemma FirstDigit(a: int, R: nat, s: int, E: int)
    ensures a * Pow(R, 0) == a && s * 0 == 0
  {}

  lemma DigitStep(c: int, s: int, E: int, done: int, aI: int, R: nat, k: nat, a: int)
    requires 0 < R && 0 <= aI && 0 <= done && done + aI * Pow(R, k) == a
    ensures 0 <= aI % R < R && 0 <= aI / R && 0 <= done + (aI % R) * Pow(R, k)
    ensures done + (aI % R) * Pow(R, k) + (aI / R) * Pow(R, k + 1) == a
    ensures c * (E + s * (done + (aI % R) * Pow(R, k)))
         == c * (E + s * done) + c * (s * (aI % R) * Pow(R, k))
  {
    NextDigit(aI, Pow(R, k), R);
    DigitExponent(c, s, E, done, aI % R, Pow(R, k));
    MulNonNeg(aI % R, Pow(R, k));
  }

  /**
    EvalAcc: acc is turned by (2N/q) * sum of s_i * (-a_i mod q), at most one product's noise per
    entry and digit.
   */
  method EvalAcc(params: RingGSWCryptoParams, ek: AccKey, acc: RLWECiphertext, a: seq<int>,
                 ghost s: seq<int>, ghost f: Poly, ghost cx: Context)
    requires params.Valid() && params.variant == AP && cx == ContextOf(params, cx.z, cx.noise) && cx.Ok()
    requires |a| == |s| && Residues(a, params.q) && DMKeys(ek, s, cx, params.baseR, |params.digitsR|)
    requires Holds(acc, cx, f, 0, 0)
    modifies acc
    ensures Holds(acc, cx, f, Stretch(cx.N, cx.q) * Inner(NegVector(a, cx.q), s, |a|),
                  (|a| * |params.digitsR|) * cx.Eps())
  {
    hide IsPow2, Near, Rot, ProductNoise, Norm1, Holds, Stretch, DMRow, Pow;
    var digits := |params.digitsR|;
    ghost var c := Stretch(cx.N, cx.q);
    assert c * 0 == 0 && (0 * digits) * cx.Eps() == 0;
    for i := 0 to |a|
      invariant Holds(acc, cx, f, c * Inner(NegVector(a, cx.q), s, i), (i * digits) * cx.Eps())
    {
      var aI := ModSubFast(0, a[i], params.q);
      EntryOrder(Inner(NegVector(a, cx.q), s, i), aI, s[i], i, digits);
      MulNonNeg(i, digits);
      AccumulateEntry(params, ek[i], aI, acc, s[i], Inner(NegVector(a, cx.q), s, i), f, i * digits, cx);
    }
  }

  lemma EntryOrder(E: int, a: int, s: int, i: int, d: int)
    ensures E + s * a == E + a * s
    ensures i * d + d == (i + 1) * d
  {}
}
