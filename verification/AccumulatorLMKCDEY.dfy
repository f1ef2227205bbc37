/**
  The LMKCDEY accumulator (src/binfhe/lib/rgsw-acc-lmkcdey.cpp): entries of a are bucketed by
  their discrete logarithm to base 5, and the buckets are drained in the order of a windowed
  schedule of automorphisms X -> X^(5^w).
 */
module AccumulatorLMKCDEY {
  import opened Arithmetic
  import opened NegacyclicRing
  import opened Automorphisms
  import opened RingNoise
  import opened FivePowers
  import opened Gadget
  import opened RgswParams
  import opened ExternalProduct
  import opened Accumulator
  import opened LweBasics
  import opened AccumulatorDM

  // ---------------------------------------------------------------------------
  // Keys
  // ---------------------------------------------------------------------------

  /** C remainder: the sign follows the dividend. */
  function TruncMod(m: int, q: int): int
    requires 0 < q
  {
    if 0 <= m then m % q else -((-m) % q)
  }

  lemma TruncatedResidue(m: int, q: int)
    requires 0 < q
    ensures (TruncMod(m, q) + q) % q == m % q
  {
    if 0 <= m {
      ModMod(m, q);
      ModPlusMultiple(m % q, 1, q);
    } else {
      ModMod(-m, q);
      ModAddCong(0, 0, (-m) % q, -m, q);
      ModPlusMultiple(-((-m) % q), 1, q);
    }
  }

  method KeyGenLMKCDEY(params: RingGSWCryptoParams, z: Poly, m: int, draw: int -> Sample, ghost cx: Context)
    returns (ek: EvalKey)
    requires params.GadgetReady() && cx == ContextOf(params, z, cx.noise) && cx.Ok()
    requires forall i :: SampleOK(draw(i), cx.N, cx.Q, cx.noise)
    ensures cx.TurnsBy(ek, Stretch(cx.N, cx.q) * m)
    ensures KeyFrom(ek, draw, Mono(cx.N, Stretch(cx.N, cx.q) * m), z, cx.B, cx.L, cx.Q)
  {
    hide IsPow2, Pow, Coef, KeyFrom;
    var q, N := params.q, params.N;
    StretchExact(N, q);
    TruncatedResidue(m, q);
    ExponentResidue(m, q, Stretch(N, q), 2 * N);
    var mm := ((TruncMod(m, q) + q) % q) * (2 * N / q);
    RotCong(One(N), mm, Stretch(N, q) * m);
    ek := EncryptMonomial(params, mm, draw, z, cx);
  }

  /** ak re-encrypts from z(X^t) to z. */
  ghost predicate SwitchKey(ak: EvalKey, t: int, cx: Context) {
    0 < cx.Q && t % 2 == 1 && SwitchesAuto(ak, t, cx.z, cx.B, cx.L, cx.noise, cx.Q)
  }

  /** Row i of an automorphism key. */
  method AutoRow(Q: int, g: int, s: Sample, skAuto: Poly, z: Poly, ghost p: int, ghost noise: int)
    returns (row: seq<Poly>)
    requires 0 < Q && 0 <= noise && g % Q == p % Q && |skAuto| == |z| && SampleOK(s, |z|, Q, noise)
    ensures |row| == 2 && |row[0]| == |z| && |row[1]| == |z|
    ensures RowFrom(row, s, Zero(|z|), Scale(-p, skAuto), z, Q)
    ensures Near(Phase(row[0], row[1], z), Scale(-p, skAuto), noise, Q)
  {
    hide Close, Mul, Coef, Near, Reduce, Reduced, Phase;
    var stored := Reduce(Sub(s.err, Scale(g, skAuto)), Q);
    row := [s.mask, AddQ(stored, MulQ(s.mask, z, Q), Q)];
    AutoRowStored(s, g, p, skAuto, stored, Q);
    MaskedSum(s, stored, Add(s.err, Scale(-p, skAuto)), row[1], z, Q);
    NearSelf(s.mask, 0, Q);
    OddRowPhase(s, row[0], row[1], Scale(-p, skAuto), z, noise, Q);
    RowFromNear(row, s, Zero(|z|), Scale(-p, skAuto), z, noise, Q);
  }

  lemma AutoRowStored(s: Sample, g: int, p: int, w: Poly, stored: Poly, Q: int)
    requires 0 < Q && g % Q == p % Q && |s.err| == |w| && stored == Reduce(Sub(s.err, Scale(g, w)), Q)
    ensures Near(stored, Add(s.err, Scale(-p, w)), 0, Q)
  {
    hide Close, Near, Reduce;
    ReduceNear(Sub(s.err, Scale(g, w)), Q);
    NearScaleCong(g, p, w, Q);
    NearSelf(s.err, 0, Q);
    NearAdd(s.err, s.err, Scale(g, w), Scale(p, w), 0, 0, Q);
    NearTrans(stored, Sub(s.err, Scale(g, w)), Sub(s.err, Scale(p, w)), 0, 0, Q);
    NegatedScale(s.err, w, p);
  }

  lemma NegatedScale(e: Poly, w: Poly, p: int)
    requires |e| == |w|
    ensures Sub(e, Scale(p, w)) == Add(e, Scale(-p, w))
  {
    forall k | 0 <= k < |e|
      ensures -p * w[k] == -(p * w[k])
    {}
  }

  method KeyGenAuto(params: RingGSWCryptoParams, z: Poly, k: int, draw: int -> Sample, ghost cx: Context)
    returns (ek: EvalKey)
    requires params.GadgetReady() && cx == ContextOf(params, z, cx.noise) && cx.Ok() && k % 2 == 1
    requires forall i :: SampleOK(draw(i), cx.N, cx.Q, cx.noise)
    ensures SwitchKey(ek, k, cx)
    ensures |ek| == cx.L - 1 && forall i :: 0 <= i < cx.L - 1 ==>
      RowFrom(ek[i], draw(i), Zero(cx.N), Scale(-Pow(cx.B, i + 1), Auto(z, k)), z, cx.Q)
  {
    hide Near, IsPow2, Pow, Phase, Auto, RowFrom;
    var skAuto := Auto(z, k);
    ek := [];
    for i := 0 to params.digitsG - 1
      invariant KeyShape(ek, i, cx.N)
      invariant forall j: nat :: j < i ==> Near(RowPhases(ek, z)[j], Scale(-Pow(cx.B, j + 1), skAuto), cx.noise, cx.Q)
      invariant forall j: nat :: j < i ==>
        RowFrom(ek[j], draw(j), Zero(cx.N), Scale(-Pow(cx.B, j + 1), skAuto), z, cx.Q)
    {
      ModMod(Pow(cx.B, i + 1), params.Q);
      var row := AutoRow(params.Q, params.gPower[i + 1], draw(i), skAuto, z, Pow(cx.B, i + 1), cx.noise);
      ghost var was := ek;
      ek := ek + [row];
      assert forall j :: 0 <= j < i ==> RowPhases(ek, z)[j] == RowPhases(was, z)[j];
    }
  }

  /** Slot i of the second row is the key for 5^i, slot 0 the one for -5. */
  ghost predicate LMKKeys(ek: AccKey, s: seq<int>, cx: Context, w: nat) {
    && 0 < cx.q && 0 < cx.N && w < |s|
    && |ek| == 1 && |ek[0]| == 2 && |ek[0][0]| == |s| && |ek[0][1]| == |s|
    && (forall i :: 0 <= i < |s| ==> cx.TurnsBy(ek[0][0][i], Stretch(cx.N, cx.q) * s[i]))
    && SwitchKey(ek[0][1][0], 2 * cx.N - 5, cx)
    && (forall i :: 1 <= i <= w ==> SwitchKey(ek[0][1][i], FivePow(i, 2 * cx.N), cx))
  }

  lemma FivePowOdd(i: nat, N: nat)
    requires 0 < N
    ensures FivePow(i, 2 * N) % 2 == 1
  {
    hide Pow;
    FiveModFour(i);
    OddOfFour(Pow(5, i));
    ModOfDivisor(Pow(5, i), N, 2, 2 * N);
  }

  lemma OddOfFour(x: int)
    requires x % 4 == 1
    ensures x % 2 == 1
  {
    var d := x / 4;
    DivModIs(x, 2, 2 * d, 1);
  }

  method KeyGenAcc(params: RingGSWCryptoParams, z: Poly, sk: LWEPrivateKey,
                   draw: (int, int, int) -> Sample, ghost cx: Context)
    returns (ek: AccKey)
    requires params.GadgetReady() && cx == ContextOf(params, z, cx.noise) && cx.Ok()
    requires params.numAutoKeys < |sk.values|
    requires forall i, j, k :: SampleOK(draw(i, j, k), cx.N, cx.Q, cx.noise)
    ensures LMKKeys(ek, sk.Signed(), cx, params.numAutoKeys)
  {
    hide IsPow2, Pow, SampleOK, Stretch, EncryptsMessage, UnitMessage, SwitchesAuto, FivePow, SwitchKey;
    var turns := TurnKeys(params, z, sk, draw, cx);
    var autos := AutoKeys(params, z, draw, cx);
    // slots past the automorphism keys stay empty
    autos := autos + seq(|sk.values| - params.numAutoKeys - 1, _ => []);
    ek := [[turns, autos]];
  }

  /** First loop of KeyGenAcc: a key for X^s_i, in ring exponents, for every entry. */
  method TurnKeys(params: RingGSWCryptoParams, z: Poly, sk: LWEPrivateKey, draw: (int, int, int) -> Sample,
                  ghost cx: Context)
    returns (turns: seq<EvalKey>)
    requires params.GadgetReady() && cx == ContextOf(params, z, cx.noise) && cx.Ok()
    requires forall i, j, k :: SampleOK(draw(i, j, k), cx.N, cx.Q, cx.noise)
    ensures |turns| == |sk.values|
    ensures forall i :: 0 <= i < |turns| ==> cx.TurnsBy(turns[i], Stretch(cx.N, cx.q) * sk.Signed()[i])
  {
    hide IsPow2, Pow, SampleOK, Stretch, EncryptsMessage, UnitMessage;
    var n, modHalf := |sk.values|, sk.modulus / 2;
    turns := [];
    for i := 0 to n
      invariant |turns| == i
      invariant forall h :: 0 <= h < i ==> cx.TurnsBy(turns[h], Stretch(cx.N, cx.q) * sk.Signed()[h])
    {
      var s := sk.values[i];
      var key := KeyGenLMKCDEY(params, z, if s > modHalf then s - sk.modulus else s, k => draw(0, i, k), cx);
      turns := turns + [key];
    }
  }

  /** The key for X -> X^-5 and, in the second loop, those for X -> X^(5^i). */
  method AutoKeys(params: RingGSWCryptoParams, z: Poly, draw: (int, int, int) -> Sample, ghost cx: Context)
    returns (autos: seq<EvalKey>)
    requires params.GadgetReady() && cx == ContextOf(params, z, cx.noise) && cx.Ok()
    requires forall i, j, k :: SampleOK(draw(i, j, k), cx.N, cx.Q, cx.noise)
    ensures |autos| == params.numAutoKeys + 1 && 0 < cx.N && SwitchKey(autos[0], 2 * cx.N - 5, cx)
    ensures forall i :: 1 <= i < |autos| ==> SwitchKey(autos[i], FivePow(i, 2 * cx.N), cx)
  {
    hide IsPow2, Pow, SampleOK, SwitchesAuto, FivePow;
    var first := KeyGenAuto(params, z, 2 * params.N - 5, k => draw(1, 0, k), cx);
    autos := [first];
    for i := 1 to params.numAutoKeys + 1
      invariant |autos| == i && SwitchKey(autos[0], 2 * cx.N - 5, cx)
      invariant forall h :: 1 <= h < i ==> SwitchKey(autos[h], FivePow(h, 2 * cx.N), cx)
    {
      FivePowOdd(i, params.N);
      var key := KeyGenAuto(params, z, FivePow(i, 2 * params.N), k => draw(1, i, k), cx);
      autos := autos + [key];
    }
  }

  // ---------------------------------------------------------------------------
  // One automorphism
  // ---------------------------------------------------------------------------

  /** start + sum of digit times key row, accumulated modulo Q. */
  method AddRowProduct(start: Poly, ds: seq<Poly>, ek: EvalKey, c: nat, N: nat, Q: int) returns (r: Poly)
    requires 0 < Q && c < 2 && |start| == N && Polys(ds, N) && KeyShape(ek, |ds|, N)
    ensures |r| == N && r == Reduce(Add(start, FullDot(ds, Column(ek, c, N), N)), Q)
  {
    hide Mul, Coef, Reduce;
    ghost var col := Column(ek, c, N);
    r := Reduce(start, Q);
    assert Add(start, Dot(ds, col, N, 0)) == start;
    for l := 0 to |ds|
      invariant |r| == N && r == Reduce(Add(start, Dot(ds, col, N, l)), Q)
    {
      ReduceAdd(Add(start, Dot(ds, col, N, l)), Mul(ds[l], ek[l][c]), Q);
      r := AddQ(r, MulQ(ds[l], ek[l][c], Q), Q);
      assert Add(Add(start, Dot(ds, col, N, l)), Mul(ds[l], ek[l][c])) == Add(start, Dot(ds, col, N, l + 1));
    }
  }

  /** Automorphism: the encrypted element g becomes g(X^t). */
  method Automorphism(params: RingGSWCryptoParams, t: int, ak: EvalKey, acc: RLWECiphertext,
                      ghost f: Poly, ghost e: int, ghost b: int, ghost cx: Context)
    requires params.Valid() && cx == ContextOf(params, cx.z, cx.noise) && cx.Ok()
    requires SwitchKey(ak, t, cx) && Holds(acc, cx, f, e, b)
    modifies acc
    ensures Holds(acc, cx, Auto(f, t), e * t, b + cx.AutoEps()) && Twists(acc.trace) == Twists(old(acc.trace)) + 1
  {
    hide Close, Mul, Coef, Near, Phase, AutoNoise, Norm1, IsPow2, Pow, Reduced, Reduce, Auto, Rot, GateTable, Traced,
         Bounded, AutoError,
         SwitchesAuto, Add;
    var Q, N := params.Q, params.N;
    ghost var el0, el1, err := acc.el0, acc.el1, acc.err;
    SwitchShape(ak, t, cx);
    var r1 := Auto(acc.el1, t);
    var cta := Reduce(Auto(acc.el0, t), Q);
    var digits := new Poly[params.digitsG - 1](_ => Zero(N));
    SignedDigitDecomposePoly(Q, params.baseG, params.digitsG, cta, digits);
    var dcta := digits[..];
    var r0 := AddRowProduct(Zero(N), dcta, ak, 0, N, Q);
    r1 := AddRowProduct(r1, dcta, ak, 1, N, Q);
    ZeroAdd(FullDot(dcta, Column(ak, 0, N), N));
    AutomorphismStep(el0, el1, cta, r0, r1, ak, t, f, err, e, b, cx);
    ghost var en := Entry(el0, el1, err, Twist(ak, t));
    acc.el0 := r0;
    acc.el1 := r1;
    acc.err := TwistedError(err, cta, ak, t, cx);
    TracedSnoc(acc.start, acc.trace, en, r0, r1, acc.err, cx);
    TwistsSnoc(acc.trace, en);
    acc.trace := acc.trace + [en];
  }

  lemma ZeroAdd(f: Poly)
    ensures Add(Zero(|f|), f) == f
  {}

  lemma SwitchShape(ak: EvalKey, t: int, cx: Context)
    requires SwitchKey(ak, t, cx)
    ensures 1 <= cx.L && KeyShape(ak, cx.L - 1, |cx.z|)
  {}

  /** The error after an automorphism whose switched half is cta. */
  ghost function TwistedError(err: Poly, cta: Poly, ak: EvalKey, t: int, cx: Context): (r: Poly)
    requires cx.Ok() && |err| == |cta| == cx.N && KeyShape(ak, cx.L - 1, cx.N)
    ensures |r| == cx.N
  {
    Add(Auto(err, t), AutoError(cta, ak, Auto(cx.z, t), cx.z, cx.B, cx.L, cx.Q))
  }

  lemma AutomorphismStep(el0: Poly, el1: Poly, cta: Poly, r0: Poly, r1: Poly, ak: EvalKey, t: int,
                         f: Poly, err: Poly, e: int, b: int, cx: Context)
    requires cx.Ok() && SwitchKey(ak, t, cx) && |el0| == |el1| == |f| == |err| == cx.N && 0 <= b && Bounded(err, b)
    requires KeyShape(ak, cx.L - 1, cx.N)
    requires Near(Phase(el0, el1, cx.z), Add(Rot(f, e), err), 0, cx.Q) && cta == Reduce(Auto(el0, t), cx.Q)
    requires r0 == Reduce(FullDot(Decomposition(cta, cx.Q, cx.B, cx.L), Column(ak, 0, cx.N), cx.N), cx.Q)
    requires r1 == Reduce(Add(Auto(el1, t), FullDot(Decomposition(cta, cx.Q, cx.B, cx.L), Column(ak, 1, cx.N), cx.N)),
                          cx.Q)
    ensures Reduced(r0, cx.Q) && Reduced(r1, cx.Q) && 0 <= b + cx.AutoEps()
    ensures Near(Phase(r0, r1, cx.z), Add(Rot(Auto(f, t), e * t), TwistedError(err, cta, ak, t, cx)), 0, cx.Q)
    ensures Bounded(TwistedError(err, cta, ak, t, cx), b + cx.AutoEps())
  {
    hide Close, Mul, Coef, Near, Phase, AutoNoise, Norm1, IsPow2, Pow, Reduce, Reduced, Auto, Rot, Bounded, AutoError,
         SwitchesAuto, Add,
         Dot, Decomposition, Column;
    var ae := AutoError(cta, ak, Auto(cx.z, t), cx.z, cx.B, cx.L, cx.Q);
    TwistedPhase(el0, el1, cta, r0, r1, ak, t, cx);
    TwistError(Phase(r0, r1, cx.z), Phase(el0, el1, cx.z), f, e, t, err, ae, cx.Q);
    EpsNonNeg(cx);
    ReduceNear(Auto(el0, t), cx.Q);
    AutoErrorBounded(cta, ak, t, cx.z, cx.B, cx.L, cx.noise, cx.Q);
    BoundedAuto(err, t, b);
    BoundedAdd(Auto(err, t), ae, b, cx.AutoEps());
  }

  /** The phase of the stored result of an automorphism. */
  lemma TwistedPhase(el0: Poly, el1: Poly, cta: Poly, r0: Poly, r1: Poly, ak: EvalKey, t: int, cx: Context)
    requires cx.Ok() && t % 2 == 1 && |el0| == |el1| == cx.N && KeyShape(ak, cx.L - 1, cx.N)
    requires cta == Reduce(Auto(el0, t), cx.Q)
    requires r0 == Reduce(FullDot(Decomposition(cta, cx.Q, cx.B, cx.L), Column(ak, 0, cx.N), cx.N), cx.Q)
    requires r1 == Reduce(Add(Auto(el1, t), FullDot(Decomposition(cta, cx.Q, cx.B, cx.L), Column(ak, 1, cx.N), cx.N)),
                          cx.Q)
    ensures Reduced(r0, cx.Q) && Reduced(r1, cx.Q)
    ensures Near(Phase(r0, r1, cx.z),
                 Add(Auto(Phase(el0, el1, cx.z), t),
                     AutoError(cta, ak, Auto(cx.z, t), cx.z, cx.B, cx.L, cx.Q)), 0, cx.Q)
  {
    hide Close, Mul, Coef, Near, Phase, IsPow2, Pow, Reduce, Reduced, Auto, Dot, Decomposition, AutoError, Add;
    var ds, Q, z := Decomposition(cta, cx.Q, cx.B, cx.L), cx.Q, cx.z;
    var x, y := FullDot(ds, Column(ak, 0, cx.N), cx.N), FullDot(ds, Column(ak, 1, cx.N), cx.N);
    ReduceNear(x, Q);
    ReduceNear(Add(Auto(el1, t), y), Q);
    StoredPhase(x, Add(Auto(el1, t), y), z, Q);
    AddedPhase(x, y, Auto(el1, t), z);
    AutomorphismExact(el0, el1, cta, ak, t, z, cx.B, cx.L, Q);
    NearTrans(Phase(r0, r1, z), Phase(x, Add(Auto(el1, t), y), z),
              Add(Auto(Phase(el0, el1, z), t), AutoError(cta, ak, Auto(z, t), z, cx.B, cx.L, Q)), 0, 0, Q);
  }

  lemma TwistError(p': Poly, p: Poly, f: Poly, e: int, t: int, err: Poly, ae: Poly, Q: int)
    requires 0 < Q && |p| == |f| == |err| == |ae| && IsPow2(|p|) && t % 2 == 1
    requires Near(p, Add(Rot(f, e), err), 0, Q) && Near(p', Add(Auto(p, t), ae), 0, Q)
    ensures Near(p', Add(Rot(Auto(f, t), e * t), Add(Auto(err, t), ae)), 0, Q)
  {
    hide Close, Coef, Near, Rot, Auto, IsPow2;
    NearAuto(p, Add(Rot(f, e), err), t, 0, Q);
    AutoAdd(Rot(f, e), err, t);
    AutoRot(f, e, t);
    AddedErrors(p', Auto(p, t), ae, Rot(Auto(f, t), e * t), Auto(err, t), Q);
    assert Add(ae, Auto(err, t)) == Add(Auto(err, t), ae);
  }

  lemma AddedPhase(x: Poly, y: Poly, h: Poly, z: Poly)
    requires |x| == |y| == |h| == |z|
    ensures Phase(x, Add(h, y), z) == Add(h, Phase(x, y, z))
  {
    hide Mul, Coef;
  }

  /**
    The opening automorphism acts on el1 alone, so it needs el0 = 0; then it only turns the error
    accumulated so far.
   */
  lemma PlainAutomorphism(el1: Poly, t: int, f: Poly, err: Poly, cx: Context)
    requires cx.Ok() && t % 2 == 1 && |el1| == |f| == |err| == cx.N
    requires Near(Phase(Zero(cx.N), el1, cx.z), Add(Rot(f, 0), err), 0, cx.Q)
    ensures Near(Phase(Zero(cx.N), Reduce(Auto(el1, t), cx.Q), cx.z), Add(Rot(Auto(f, t), 0), Auto(err, t)), 0, cx.Q)
  {
    hide Close, Mul, Coef, Near, IsPow2, Pow, Reduce, Auto, Rot;
    ZeroMul(cx.z);
    assert Sub(el1, Zero(cx.N)) == el1;
    var r := Reduce(Auto(el1, t), cx.Q);
    assert Sub(r, Zero(cx.N)) == r;
    ReduceNear(Auto(el1, t), cx.Q);
    RotZero(f);
    RotZero(Auto(f, t));
    NearAuto(el1, Add(f, err), t, 0, cx.Q);
    AutoAdd(f, err, t);
    NearTrans(r, Auto(el1, t), Add(Auto(f, t), Auto(err, t)), 0, 0, cx.Q);
  }
}
