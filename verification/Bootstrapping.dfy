/**
  Key generation and functional bootstrapping (src/binfhe/lib/binfhe-base-scheme.cpp:42-76,
  574-631): what one bootstrap computes for every phase and every negacyclic function.
 */
module Bootstrapping {
  import opened Arithmetic
  import opened NegacyclicRing
  import opened RingNoise
  import opened Gadget
  import opened RgswParams
  import opened ExternalProduct
  import opened Accumulator
  import opened LweBasics
  import opened Lwe
  import opened KeySwitching
  import opened AccumulatorDM
  import AccumulatorCGGI
  import AccumulatorLMKCDEY
  import LmkcdeySchedule
  import opened Lookup

  datatype BinFHECryptoParams = BinFHECryptoParams(lwe: LWECryptoParams, rgsw: RingGSWCryptoParams) {

    ghost predicate Valid()
      reads rgsw
    {
      && rgsw.Valid() && lwe.Valid() && lwe.N == rgsw.N && lwe.Q == rgsw.Q && lwe.q == rgsw.q
      && lwe.q != lwe.Q && (rgsw.variant == LMKCDEY ==> 4 <= rgsw.N)
    }

    /** The accumulators of the DM and LMKCDEY kind have q built into their keys. */
    ghost predicate Accepts(mod: int) {
      0 < mod && mod % 2 == 0 && (2 * rgsw.N) % mod == 0 && (rgsw.variant != GINX ==> mod == rgsw.q)
    }
  }

  datatype RingGSWBTKey = RingGSWBTKey(BSkey: AccKey, KSkey: LWESwitchingKey)

  /** The signed secrets behind a key, and the bounds on the errors drawn for it. */
  datatype Secrets = Secrets(s: seq<int>, z: Poly, noise: int, ksNoise: int)

  /** The ring context in which keys for gadget base `base` live. */
  ghost function ContextAt(params: BinFHECryptoParams, base: nat, sec: Secrets): Context
    requires 2 <= base
  {
    Context(params.rgsw.N, params.rgsw.Q, params.rgsw.q, base, DigitCount(params.rgsw.Q, base), sec.z, sec.noise)
  }

  /** EK was generated for the secrets while the gadget base was `base`. */
  ghost predicate KeysFor(EK: RingGSWBTKey, params: BinFHECryptoParams, base: int, sec: Secrets) {
    && IsGadgetBase(base) && 2 <= base < params.rgsw.Q && 0 <= sec.noise && |sec.z| == params.rgsw.N
    && SwitchingKeyFor(EK.KSkey, sec.z, sec.s, params.lwe, sec.ksNoise)
    && AccKeysFor(EK.BSkey, params, base, sec)
  }

  ghost predicate AccKeysFor(ek: AccKey, params: BinFHECryptoParams, base: nat, sec: Secrets)
    requires 2 <= base
  {
    match params.rgsw.variant
    case AP => 2 <= params.rgsw.baseR && DMKeys(ek, sec.s, ContextAt(params, base, sec), params.rgsw.baseR,
                                                DigitCount(params.rgsw.q, params.rgsw.baseR))
    case GINX => AccumulatorCGGI.TernaryKeys(ek, sec.s, ContextAt(params, base, sec))
    case LMKCDEY => AccumulatorLMKCDEY.LMKKeys(ek, sec.s, ContextAt(params, base, sec), params.rgsw.numAutoKeys)
  }

  lemma KeySizes(EK: RingGSWBTKey, params: BinFHECryptoParams, base: int, sec: Secrets)
    requires KeysFor(EK, params, base, sec)
    ensures params.lwe.Valid() && |sec.z| == params.lwe.N == params.rgsw.N && |sec.s| == params.lwe.n
    ensures 2 <= base && 0 <= sec.noise && 0 <= sec.ksNoise
  {}

  // ---------------------------------------------------------------------------
  // Key generation
  // ---------------------------------------------------------------------------

  /** The secret the accumulator's keys stand for: the CGGI selectors read every entry other than 1 and -1 as 0. */
  ghost function AccSecret(params: BinFHECryptoParams, sk: LWEPrivateKey): seq<int> {
    if params.rgsw.variant == GINX then AccumulatorCGGI.TernaryPart(sk) else sk.Signed()
  }

  /**
    Both keys for a secret key and a drawn ring key. The ring element is given by the signed
    values; only its residues modulo Q enter the stored rows. Both keys belong to one secret unless a
    secret that is not ternary meets the CGGI accumulator.
   */
  method KeyGen(params: BinFHECryptoParams, sk: LWEPrivateKey, skN: LWEPrivateKey,
                draw: (int, int, int, int) -> Sample, ksDraw: (int, int, int) -> KSEntry,
                ghost noise: int, ghost ksNoise: int)
    returns (ek: RingGSWBTKey)
    requires params.Valid() && params.rgsw.GadgetReady() && sk.Valid() && skN.Valid()
    requires |sk.values| == params.lwe.n && |skN.values| == params.lwe.N && 0 <= noise && 0 <= ksNoise
    requires SamplerOK(draw, params.rgsw.N, params.rgsw.Q, noise)
    requires forall i, j, k :: |ksDraw(i, j, k).a| == params.lwe.n && Residues(ksDraw(i, j, k).a, params.lwe.qKS)
                            && -ksNoise <= ksDraw(i, j, k).b <= ksNoise
    requires params.rgsw.variant == LMKCDEY ==> params.rgsw.numAutoKeys < params.lwe.n
    ensures SwitchingKeyFor(ek.KSkey, skN.Signed(), sk.Signed(), params.lwe, ksNoise) && 2 <= params.rgsw.baseG
    ensures AccKeysFor(ek.BSkey, params, params.rgsw.baseG,
                       Secrets(AccSecret(params, sk), skN.Signed(), noise, ksNoise))
    ensures (params.rgsw.variant == GINX ==> AccumulatorCGGI.IsTernary(sk)) ==>
              KeysFor(ek, params, params.rgsw.baseG, Secrets(sk.Signed(), skN.Signed(), noise, ksNoise))
  {
    hide DMKeys, AccumulatorCGGI.TernaryKeys, AccumulatorLMKCDEY.LMKKeys, IsPow2, Pow, GateTable, SignedValue, RowOK,
         AccumulatorCGGI.TernaryValue, SampleOK, AccumulatorCGGI.IsTernary, AccumulatorCGGI.TernaryPart;
    ghost var sec := Secrets(sk.Signed(), skN.Signed(), noise, ksNoise);
    ghost var cx := ContextOf(params.rgsw, sec.z, noise);
    ContextOk(params.rgsw, sec.z, noise);
    var ksKey := KeySwitchGen(params.lwe, sk, skN, ksDraw, ksNoise);
    var bsKey;
    match params.rgsw.variant {
      case AP =>
        bsKey := AccumulatorDM.KeyGenAcc(params.rgsw, skN.Signed(), sk, draw, cx);
      case GINX =>
        bsKey := AccumulatorCGGI.KeyGenAcc(params.rgsw, skN.Signed(), sk, (i, j, k) => draw(i, j, k, 0), cx);
        AccumulatorCGGI.TernaryIsSigned(sk);
      case LMKCDEY =>
        bsKey := AccumulatorLMKCDEY.KeyGenAcc(params.rgsw, skN.Signed(), sk, (i, j, k) => draw(i, j, k, 0), cx);
    }
    ek := RingGSWBTKey(bsKey, ksKey);
  }

  // ---------------------------------------------------------------------------
  // Blind rotation by any of the three accumulators
  // ---------------------------------------------------------------------------

  /** The rotation an accumulator performs, in units of 2N/mod. */
  ghost function Turn(params: BinFHECryptoParams, a: seq<int>, mod: int, s: seq<int>): int
    requires |a| == |s|
  {
    if params.rgsw.variant == LMKCDEY then Inner(LmkcdeySchedule.OddVector(a, 2 * params.rgsw.N), s, |a|)
    else Inner(NegVector(a, mod), s, |a|)
  }

  /** Noise of one blind rotation. */
  ghost function AccNoise(params: BinFHECryptoParams, base: nat, sec: Secrets): int
    requires 2 <= base
  {
    var cx := ContextAt(params, base, sec);
    match params.rgsw.variant
    case AP => if params.rgsw.baseR < 2 then 0 else (|sec.s| * DigitCount(params.rgsw.q, params.rgsw.baseR)) * cx.Eps()
    case GINX => |sec.s| * (4 * cx.Eps())
    case LMKCDEY => if params.rgsw.numAutoKeys == 0 then 0 else
      |sec.s| * cx.Eps() + LmkcdeySchedule.AutoCount(cx.N, params.rgsw.numAutoKeys, |sec.s|) * cx.AutoEps()
  }

  method EvalAcc(params: BinFHECryptoParams, ek: AccKey, acc: RLWECiphertext, a: seq<int>, mod: int,
                 ghost f: Poly, ghost sec: Secrets)
    requires params.Valid() && |sec.z| == params.rgsw.N && 0 <= sec.noise && params.Accepts(mod)
    requires 2 <= params.rgsw.baseG && AccKeysFor(ek, params, params.rgsw.baseG, sec)
    requires |a| == |sec.s| && Residues(a, mod)
    requires acc.el0 == Zero(params.rgsw.N) && Holds(acc, ContextAt(params, params.rgsw.baseG, sec), f, 0, 0)
    modifies acc
    ensures Holds(acc, ContextAt(params, params.rgsw.baseG, sec), f,
                  Stretch(params.rgsw.N, mod) * Turn(params, a, mod, sec.s),
                  AccNoise(params, params.rgsw.baseG, sec))
  {
    hide DMKeys, AccumulatorCGGI.TernaryKeys, AccumulatorLMKCDEY.LMKKeys, IsPow2, Pow, GateTable, Holds, Stretch,
         ProductNoise, AutoNoise, Norm1, LmkcdeySchedule.AutoCount, LmkcdeySchedule.OddVector, NegVector;
    ghost var cx := ContextOf(params.rgsw, sec.z, sec.noise);
    ContextOk(params.rgsw, sec.z, sec.noise);
    match params.rgsw.variant {
      case AP => AccumulatorDM.EvalAcc(params.rgsw, ek, acc, a, sec.s, f, cx);
      case GINX => AccumulatorCGGI.EvalAcc(params.rgsw, ek, acc, a, mod, sec.s, f, cx);
      case LMKCDEY => LmkcdeySchedule.EvalAcc(params.rgsw, ek, acc, a, sec.s, f, cx);
    }
  }

  /** Where the table is read: the phase, except that LMKCDEY makes every -a_i odd first. */
  ghost function LookupPoint(params: BinFHECryptoParams, a: seq<int>, b: int, q: int, s: seq<int>): int
    requires |a| == |s| && 0 < q
  {
    (b + Turn(params, a, q, s)) % q
  }

  lemma LookupPointIs(params: BinFHECryptoParams, a: seq<int>, b: int, q: int, s: seq<int>)
    requires |a| == |s| && 0 < q
    ensures LookupPoint(params, a, b, q, s) == (b + Turn(params, a, q, s)) % q
  {}

  ghost function RoundingSlack(params: BinFHECryptoParams, s: seq<int>): int {
    if params.rgsw.variant == LMKCDEY then AbsSum(s, |s|) else 0
  }

  lemma OddEntry(x: int, q: int, N: nat)
    requires 0 < q && 0 <= x < q && 0 < N && (2 * N) % q == 0
    ensures Close(LmkcdeySchedule.MakeOdd(ModSubFast(0, x, 2 * N)), -x, 1, q)
  {
    StretchExact(N, q);
    FactorLessEqual(q, Stretch(N, q), 2 * N);
    ModSubFastIs(0, x, 2 * N);
    var y := ModSubFast(0, x, 2 * N);
    var c := Stretch(N, q);
    CloseIntro(LmkcdeySchedule.MakeOdd(y), -x, 1, q, if x > 0 then c else 0);
  }

  /** The lookup point is the phase, up to one unit per secret unit for LMKCDEY. */
  lemma LookupPointClose(params: BinFHECryptoParams, a: seq<int>, b: int, q: int, s: seq<int>)
    requires |a| == |s| && 0 < q && Residues(a, q) && 0 < params.rgsw.N && (2 * params.rgsw.N) % q == 0
    ensures 0 <= LookupPoint(params, a, b, q, s) < q
    ensures Close(LookupPoint(params, a, b, q, s), PhaseOf(a, b, s), RoundingSlack(params, s), q)
  {
    hide Close;
    var X, I := Turn(params, a, q, s), Inner(a, s, |a|);
    var slack := RoundingSlack(params, s);
    if params.rgsw.variant == LMKCDEY {
      var neg := seq(|a|, i requires 0 <= i < |a| => -1 * a[i]);
      InnerScale(-1, a, neg, s, |a|);
      forall i | 0 <= i < |a|
        ensures Close(LmkcdeySchedule.OddVector(a, 2 * params.rgsw.N)[i], neg[i], 1, q)
      {
        OddEntry(a[i], q, params.rgsw.N);
      }
      InnerClose(LmkcdeySchedule.OddVector(a, 2 * params.rgsw.N), neg, s, |a|, 1, q);
      assert AbsSum(s, |a|) * 1 == slack;
    } else {
      NegVectorInner(a, q, s);
      CloseZero(X, -I, q);
    }
    CloseSelf(b, 0, q);
    CloseAdd(b, b, X, -I, 0, slack, q);
    ModMod(b + X, q);
    CloseCong(b + X, b + -I, (b + X) % q, b - I, slack, q);
  }

  /** How far from the phase the table is read. */
  ghost function LookupError(params: BinFHECryptoParams, a: seq<int>, b: int, q: int, s: seq<int>): nat
    requires |a| == |s| && 0 < q
  {
    Distance(LookupPoint(params, a, b, q, s), PhaseOf(a, b, s), q)
  }

  lemma LookupErrorBound(params: BinFHECryptoParams, a: seq<int>, b: int, q: int, s: seq<int>)
    requires |a| == |s| && 0 < q && Residues(a, q) && 0 < params.rgsw.N && (2 * params.rgsw.N) % q == 0
    ensures Close(LookupPoint(params, a, b, q, s), PhaseOf(a, b, s), LookupError(params, a, b, q, s), q)
    ensures LookupError(params, a, b, q, s) <= RoundingSlack(params, s)
  {
    hide LookupPoint, Distance, Close, RoundingSlack;
    var x, y := LookupPoint(params, a, b, q, s), PhaseOf(a, b, s);
    LookupPointClose(params, a, b, q, s);
    DistanceExact(x, y, RoundingSlack(params, s), q);
    DistanceExact(x, y, Distance(x, y, q), q);
  }

  /** Without LMKCDEY's rounding the table is read exactly at the phase. */
  lemma LookupPointExact(params: BinFHECryptoParams, a: seq<int>, b: int, q: int, s: seq<int>)
    requires |a| == |s| && 0 < q && Residues(a, q) && 0 < params.rgsw.N && (2 * params.rgsw.N) % q == 0
    requires params.rgsw.variant != LMKCDEY
    ensures LookupPoint(params, a, b, q, s) == PhaseOf(a, b, s) % q
  {
    LookupPointClose(params, a, b, q, s);
    var x := LookupPoint(params, a, b, q, s);
    CloseZero(x, PhaseOf(a, b, s), q);
    ModSmall(x, q);
  }

  // ---------------------------------------------------------------------------
  // The two ends of a bootstrap
  // ---------------------------------------------------------------------------

  /** A fresh accumulator encrypts its test vector without noise. */
  lemma FreshPhase(m: Poly, z: Poly, Q: int)
    requires 0 < Q && |m| == |z|
    ensures Near(Phase(Zero(|z|), m, z), Add(Rot(m, 0), Zero(|z|)), 0, Q)
  {
    hide Mul, Coef, Rot;
    ZeroMul(z);
    assert Sub(m, Zero(|z|)) == m;
    RotZero(m);
    assert Add(m, Zero(|z|)) == m;
    NearSelf(m, 0, Q);
  }

  /** A fresh accumulator has no error and an empty trace. */
  lemma FreshHolds(acc: RLWECiphertext, cx: Context, m: Poly)
    requires 0 < cx.Q && |cx.z| == cx.N == |m| && Reduced(m, cx.Q)
    requires acc.el0 == Zero(cx.N) && acc.el1 == m && acc.start == (acc.el0, acc.el1) && acc.err == Zero(cx.N)
    requires acc.trace == []
    ensures Holds(acc, cx, m, 0, 0)
  {
    hide Near, Rot, Phase, Add;
    FreshPhase(m, cx.z, cx.Q);
    ReducedZero(cx.N, cx.Q);
  }

  /** Coefficient 0 of what a blind rotation leaves: the rotated test vector plus the accumulated error. */
  lemma RotatedConstant(acc: RLWECiphertext, cx: Context, m: Poly, e: int, b: int)
    requires Holds(acc, cx, m, e, b) && 1 <= cx.N
    ensures |acc.err| == cx.N && -b <= acc.err[0] <= b
    ensures Close(acc.PhaseUnder(cx.z)[0], Rot(m, e)[0] + acc.err[0], 0, cx.Q)
  {
    hide Close, Rot, Phase, Traced, Reduced;
    var p := acc.PhaseUnder(cx.z);
    assert Close(p[0], Add(Rot(m, e), acc.err)[0], 0, cx.Q);
  }

  /** The tail every bootstrap shares: transpose, take the constant coefficient, add an offset. */
  method Extract(acc: RLWECiphertext, offset: int, Q: int, ghost z: Poly) returns (ct: LWECiphertext)
    requires 2 < Q && 0 <= offset < Q && 1 <= |z| && IsPow2(|z|) && acc.Valid(|z|, Q)
    ensures fresh(ct) && ct.Valid() && ct.q == Q && |ct.a| == |z| && ct.p == 4
    ensures ct.a == Transpose(acc.el0, Q) && ct.b == ModAddFast(offset, acc.el1[0], Q)
    ensures ct.Phase(z) % Q == (acc.PhaseUnder(z)[0] + offset) % Q
  {
    hide IsPow2, Phase, Reduce, Reduced, Transpose, Inner, Residues;
    TransposeResidues(acc.el0, Q);
    assert 0 <= acc.el1[0] < Q by { ReducedAt(acc.el1, 0, Q); }
    var b := ModAddFast(offset, acc.el1[0], Q);
    ct := new LWECiphertext(Transpose(acc.el0, Q), b, Q, 4);
    ExtractedPhase(acc.el0, acc.el1, z, Q);
    OffsetPhase(Inner(ct.a, z, |z|), acc.el1[0], offset, acc.PhaseUnder(z)[0], Q);
  }

  lemma TransposeResidues(f: Poly, Q: int)
    requires 0 < Q
    ensures Residues(Transpose(f, Q), Q)
  {
    hide Automorphisms.Auto;
  }

  lemma ReducedAt(f: Poly, i: nat, Q: int)
    requires Reduced(f, Q) && i < |f|
    ensures 0 <= f[i] < Q
  {}

  lemma OffsetPhase(I: int, x: int, offset: int, phase: int, Q: int)
    requires 0 <= offset < Q && 0 <= x < Q && (x - I) % Q == phase % Q
    ensures 0 <= ModAddFast(offset, x, Q) < Q
    ensures (ModAddFast(offset, x, Q) - I) % Q == (phase + offset) % Q
  {
    ModAddFastIs(offset, x, Q);
    ModMod(offset + x, Q);
    ModAddCong((offset + x) % Q, offset + x, I, I, Q);
    ModAddCong(x - I, phase, offset, offset, Q);
  }

  // ---------------------------------------------------------------------------
  // Functional bootstrapping
  // ---------------------------------------------------------------------------

  /** A function handed to BootstrapFunc: its argument, the modulus it lives in, the output modulus. */
  type Func = (int, int, int) -> int

  /** f changes sign modulo fmod when its argument moves by half of q. */
  ghost predicate Negacyclic(f: Func, q: int, fmod: int) {
    forall x :: 0 <= x < q / 2 ==> OppositeValues(f(x, q, fmod), f(x + q / 2, q, fmod), fmod)
  }

  predicate OppositeValues(v: int, w: int, fmod: int) {
    0 <= v <= fmod && 0 <= w <= fmod && (v + w == 0 || v + w == fmod)
  }

  /** The scaled values BootstrapFuncCore tabulates. */
  function FuncTable(f: Func, q: int, fmod: int, Q: int): int -> int
    requires 0 < fmod
  {
    x => Q / fmod * f(x, q, fmod)
  }

  /** Scaling by floor(Q/fmod) is negacyclic modulo Q only up to Q mod fmod. */
  lemma ScaledAntiperiodic(f: Func, q: int, fmod: int, Q: int)
    requires 0 < fmod && 0 < Q && 0 < q && Negacyclic(f, q, fmod)
    ensures Antiperiodic(FuncTable(f, q, fmod, Q), q, Q % fmod, Q)
  {
    hide Close;
    forall x | 0 <= x < q / 2
      ensures Close(FuncTable(f, q, fmod, Q)(x + q / 2), -FuncTable(f, q, fmod, Q)(x), Q % fmod, Q)
    {
      assert OppositeValues(f(x, q, fmod), f(x + q / 2, q, fmod), fmod);
      ScaledOpposite(f(x, q, fmod), f(x + q / 2, q, fmod), fmod, Q);
    }
  }

  lemma ScaledOpposite(v: int, w: int, fmod: int, Q: int)
    requires 0 < fmod && 0 < Q && OppositeValues(v, w, fmod)
    ensures Close(Q / fmod * w, -(Q / fmod * v), Q % fmod, Q)
  {
    var d := Q / fmod;
    assert d * w - -(d * v) == d * (v + w);
    assert Q == d * fmod + Q % fmod;
    CloseIntro(d * w, -(d * v), Q % fmod, Q, if v + w == fmod then 1 else 0);
  }

  /** One pair of opposite values is scaled without defect exactly when both are 0 or fmod divides Q. */
  lemma ScaledExactly(v: int, w: int, fmod: int, Q: int)
    requires 0 < fmod <= Q && OppositeValues(v, w, fmod)
    ensures Close(Q / fmod * w, -(Q / fmod * v), 0, Q) <==> v + w == 0 || Q % fmod == 0
  {
    var d, r := Q / fmod, Q % fmod;
    assert d * w - -(d * v) == d * (v + w);
    assert Q == d * fmod + r;
    if v + w == 0 {
      CloseIntro(d * w, -(d * v), 0, Q, 0);
    } else if r == 0 {
      CloseIntro(d * w, -(d * v), 0, Q, 1);
    } else {
      FactorLess(fmod, 0, d + 1);
      CloseZero(d * w, -(d * v), Q);
      if Close(d * w, -(d * v), 0, Q) {
        var k := ModEqualWitness(d * w, -(d * v), Q);
        NoMultipleBetween(k, d * fmod, Q);
      }
    }
  }

  lemma NoMultipleBetween(k: int, x: int, Q: int)
    requires 0 < x < Q
    ensures x != k * Q
  {
    if k <= 0 {
      MulNonNeg(-k, Q);
    } else {
      Arithmetic.MulMonotone(Q, 1, k);
    }
  }

  /** The scaled table is exactly negacyclic if and only if fmod divides Q or f takes no value but 0. */
  lemma ScaledExactlyIff(f: Func, q: int, fmod: int, Q: int)
    requires 0 < fmod <= Q && 0 < q && Negacyclic(f, q, fmod)
    ensures Antiperiodic(FuncTable(f, q, fmod, Q), q, 0, Q) <==>
            Q % fmod == 0 || forall x :: 0 <= x < q / 2 ==> f(x, q, fmod) + f(x + q / 2, q, fmod) == 0
  {
    hide Close;
    forall x | 0 <= x < q / 2
      ensures Close(FuncTable(f, q, fmod, Q)(x + q / 2), -FuncTable(f, q, fmod, Q)(x), 0, Q)
         <==> f(x, q, fmod) + f(x + q / 2, q, fmod) == 0 || Q % fmod == 0
    {
      assert OppositeValues(f(x, q, fmod), f(x + q / 2, q, fmod), fmod);
      ScaledExactly(f(x, q, fmod), f(x + q / 2, q, fmod), fmod, Q);
    }
  }

  lemma ScaledValueEncodes(phase: int, v: int, fmod: int, Q: int, noise: int)
    requires 0 < fmod && 0 < Q && 0 <= v <= fmod && Close(phase, Q / fmod * v, noise + Q % fmod, Q)
    ensures Encodes(phase, Q, v, fmod, noise + 2 * (Q % fmod))
  {
    hide Close, Encodes;
    var d, r := Q / fmod, Q % fmod;
    var k := CloseWitness(phase, d * v, noise + r, Q);
    var x := phase - d * v - k * Q;
    AbsMulBound(fmod, x, noise + r);
    ScaledGap(fmod, phase, d * v, k, Q);
    QuotientTimes(fmod, d, v, r, Q);
    MulNonNeg(r, v);
    Arithmetic.MulMonotone(r, v, fmod);
    SlackTimes(fmod, noise, r);
    EncodesIntro(phase, Q, v, fmod, noise + 2 * r, k);
  }

  lemma SlackTimes(c: int, noise: int, r: int)
    ensures c * (noise + 2 * r) == c * (noise + r) + r * c
  {
    assert c * (noise + 2 * r) == c * (noise + r) + c * r;
  }

  lemma QuotientTimes(fmod: int, d: int, v: int, r: int, Q: int)
    requires Q == d * fmod + r
    ensures fmod * (d * v) == v * Q - r * v
  {
    assert v * (d * fmod + r) == v * (d * fmod) + v * r;
    assert fmod * (d * v) == v * (d * fmod);
  }

  /** The test vector of BootstrapFunc, as an exact vector. */
  ghost predicate ExactTable(m: Poly, N: nat, factor: int, q: int, b: int, F: int -> int, upTo: int) {
    && 0 < q && 0 < factor && |m| == N
    && (forall j :: 0 <= j < upTo ==> PlacedExact(m, factor * j, F((b - j) % q)))
    && (forall i :: 0 <= i < N && (i % factor != 0 || factor * upTo <= i) ==> m[i] == 0)
  }

  ghost predicate PlacedExact(m: Poly, i: int, v: int) {
    0 <= i < |m| && m[i] == v
  }

  lemma PlaceNext(m: Poly, N: nat, factor: int, q: int, b: int, F: int -> int, j: nat)
    requires ExactTable(m, N, factor, q, b, F, j) && factor * j < N
    ensures 0 <= factor * j
    ensures ExactTable(m[factor * j := F((b - j) % q)], N, factor, q, b, F, j + 1)
  {
    MulNonNeg(factor, j);
    var m' := m[factor * j := F((b - j) % q)];
    assert factor * (j + 1) == factor * j + factor;
    forall i | 0 <= i < j + 1
      ensures PlacedExact(m', factor * i, F((b - i) % q))
    {
      if i < j {
        assert PlacedExact(m, factor * i, F((b - i) % q));
        if factor * j <= factor * i {
          FactorLess(factor, j, i + 1);
        }
      }
    }
    ModPlusMultiple(0, j, factor);
    assert factor * j == j * factor;
  }

  lemma TableStored(m: Poly, N: nat, q: int, b: int, F: int -> int, Q: int)
    requires 0 < N && 0 < q && 0 < Q && (2 * N) % q == 0 && ExactTable(m, N, Stretch(N, q), q, b, F, q / 2)
    ensures TestVector(Reduce(m, Q), N, q, b, F, Q)
  {
    hide Stretch;
    StretchExact(N, q);
    var c := Stretch(N, q);
    forall j | 0 <= j < q / 2
      ensures Placed(Reduce(m, Q), c * j, F((b - j) % q), Q)
    {
      assert PlacedExact(m, c * j, F((b - j) % q));
    }
    forall i | 0 <= i < N && (c == 0 || i % c != 0)
      ensures Reduce(m, Q)[i] == 0
    {
      ModSmall(0, Q);
    }
  }

  /** Fills the test vector of f and turns it blindly. */
  method BootstrapFuncCore(params: BinFHECryptoParams, ek: AccKey, ct: LWECiphertext, f: Func, fmod: int,
                           ghost sec: Secrets)
    returns (acc: RLWECiphertext, ghost m: Poly)
    requires params.Valid() && |sec.z| == params.rgsw.N && 0 <= sec.noise && params.Accepts(ct.q)
    requires 2 <= params.rgsw.baseG && AccKeysFor(ek, params, params.rgsw.baseG, sec)
    requires ct.Valid() && |ct.a| == |sec.s| && 0 < fmod
    ensures fresh(acc) && acc.start == (Zero(params.rgsw.N), m)
    ensures TestVector(m, params.rgsw.N, ct.q, ct.b, FuncTable(f, ct.q, fmod, params.rgsw.Q), params.rgsw.Q)
    ensures Holds(acc, ContextAt(params, params.rgsw.baseG, sec), m,
                  Stretch(params.rgsw.N, ct.q) * Turn(params, ct.a, ct.q, sec.s),
                  AccNoise(params, params.rgsw.baseG, sec))
  {
    hide AccKeysFor, IsPow2, Pow, GateTable, Near, Stretch, AccNoise, Turn, ExactTable, TestVector, Phase, Rot, Coef;
    var Q, N := params.rgsw.Q, params.rgsw.N;
    var ctMod, b := ct.q, ct.b;
    StretchExact(N, ctMod);
    var factor := 2 * N / ctMod;
    assert factor == Stretch(N, ctMod) by { StretchIs(N, ctMod); }
    ghost var F := FuncTable(f, ctMod, fmod, Q);
    var v := Zero(N);
    EmptyTable(N, factor, ctMod, b, F);
    for j := 0 to ctMod / 2
      invariant |v| == N && ExactTable(v, N, factor, ctMod, b, F, j)
    {
      HalfIndex(factor, ctMod, N, j);
      PlaceNext(v, N, factor, ctMod, b, F, j);
      ModSubFastIs(b, j, ctMod);
      var temp := ModSubFast(b, j, ctMod);
      v := v[j * factor := Q / fmod * f(temp, ctMod, fmod)];
    }
    TableStored(v, N, ctMod, b, F, Q);
    // the switch to evaluation format works on residues
    m := Reduce(v, Q);
    acc := new RLWECiphertext(Zero(N), Reduce(v, Q));
    ReduceNear(v, Q);
    FreshHolds(acc, ContextAt(params, params.rgsw.baseG, sec), m);
    EvalAcc(params, ek, acc, ct.a, ctMod, m, sec);
  }

  lemma StretchIs(N: nat, q: int)
    requires 0 < q
    ensures Stretch(N, q) == 2 * N / q
  {}

  lemma ReducedZero(N: nat, Q: int)
    requires 0 < Q
    ensures Reduced(Zero(N), Q)
  {}

  lemma EmptyTable(N: nat, factor: int, q: int, b: int, F: int -> int)
    requires 0 < q && 0 < factor
    ensures ExactTable(Zero(N), N, factor, q, b, F, 0)
  {}

  /** Error of a functional bootstrap into modulus fmod. */
  ghost function FuncError(params: BinFHECryptoParams, base: nat, sec: Secrets, fmod: int): int
    requires 2 <= base
  {
    if fmod <= 0 then 0 else
      SwitchedError(params.lwe, params.lwe.Q, fmod, AbsSum(sec.z, |sec.z|), AbsSum(sec.s, |sec.s|), sec.ksNoise,
                    AccNoise(params, base, sec) + 2 * (params.lwe.Q % fmod))
  }

  lemma AccNoiseNonNeg(params: BinFHECryptoParams, sec: Secrets)
    requires params.Valid() && |sec.z| == params.rgsw.N && 0 <= sec.noise && 2 <= params.rgsw.baseG
    ensures 0 <= AccNoise(params, params.rgsw.baseG, sec)
  {
    hide GateTable, PlainPowers, MonomialTable, LogTable, IsPow2, Pow, ProductNoise, AutoNoise, Norm1;
    var cx, n := ContextOf(params.rgsw, sec.z, sec.noise), |sec.s|;
    ContextOk(params.rgsw, sec.z, sec.noise);
    EpsNonNeg(cx);
    match params.rgsw.variant {
      case AP =>
        var digits := DigitCount(params.rgsw.q, params.rgsw.baseR);
        MulNonNeg(n, digits);
        MulNonNeg(n * digits, cx.Eps());
      case GINX =>
        MulNonNeg(n, 4 * cx.Eps());
      case LMKCDEY =>
        var w := params.rgsw.numAutoKeys;
        FactorLess(w, -1, (cx.N / 2 - 1) / w);
        MulNonNeg(n, cx.Eps());
        MulNonNeg(LmkcdeySchedule.AutoCount(cx.N, w, n), cx.AutoEps());
    }
  }

  lemma FuncErrorNonNeg(params: BinFHECryptoParams, EK: RingGSWBTKey, sec: Secrets, fmod: int)
    requires params.Valid() && KeysFor(EK, params, params.rgsw.baseG, sec) && 0 < fmod
    ensures 0 <= FuncError(params, params.rgsw.baseG, sec, fmod)
  {
    hide GateTable, PlainPowers, MonomialTable, LogTable, IsPow2, Pow, AccNoise, SwitchedError, AccKeysFor;
    KeySizes(EK, params, params.rgsw.baseG, sec);
    AccNoiseNonNeg(params, sec);
    SwitchedErrorNonNeg(params.lwe, params.lwe.Q, fmod, AbsSum(sec.z, |sec.z|), AbsSum(sec.s, |sec.s|), sec.ksNoise,
                        AccNoise(params, params.rgsw.baseG, sec) + 2 * (params.lwe.Q % fmod));
  }

  lemma BootstrappedValue(phase: int, f: Func, q: int, b: int, X: int, fmod: int, err: int, noise: int, Q: int)
    requires 0 < q && q % 2 == 0 && 0 < fmod && 0 < Q && -noise <= err <= noise && Negacyclic(f, q, fmod)
    requires phase % Q == (TableValue(FuncTable(f, q, fmod, Q), q, b, X) + err) % Q
    ensures Encodes(phase, Q, f((b + X) % q, q, fmod), fmod, noise + 2 * (Q % fmod))
  {
    hide Close, Antiperiodic, Encodes, TableValue, FuncTable;
    var F, x := FuncTable(f, q, fmod, Q), (b + X) % q;
    ScaledAntiperiodic(f, q, fmod, Q);
    TableValueClose(F, q, b, X, Q % fmod, Q);
    var t := TableValue(F, q, b, X);
    CloseIntro(t + err, t, noise, Q, 0);
    CloseTrans(t + err, t, F(x), noise, Q % fmod, Q);
    CloseCong(t + err, F(x), phase, F(x), noise + Q % fmod, Q);
    NegacyclicRange(f, q, fmod, x);
    TableIs(f, q, fmod, Q, x);
    ScaledValueEncodes(phase, f(x, q, fmod), fmod, Q, noise);
  }

  lemma TableIs(f: Func, q: int, fmod: int, Q: int, x: int)
    requires 0 < fmod
    ensures FuncTable(f, q, fmod, Q)(x) == Q / fmod * f(x, q, fmod)
  {}

  lemma NegacyclicRange(f: Func, q: int, fmod: int, x: int)
    requires 0 <= x < q && q % 2 == 0 && Negacyclic(f, q, fmod)
    ensures 0 <= f(x, q, fmod) <= fmod
  {
    var y := if x < q / 2 then x else x - q / 2;
    assert OppositeValues(f(y, q, fmod), f(y + q / 2, q, fmod), fmod);
  }

  /** Phase of the extracted ciphertext: the table's value plus the accumulated error, exactly. */
  lemma ExtendedPhase(phase: int, acc: RLWECiphertext, cx: Context, m: Poly, q: int, b: int, F: int -> int, X: int,
                      offset: int, noise: int)
    requires 0 < cx.N && 0 < q && q % 2 == 0 && (2 * cx.N) % q == 0 && TestVector(m, cx.N, q, b, F, cx.Q)
    requires Holds(acc, cx, m, Stretch(cx.N, q) * X, noise) && phase % cx.Q == (acc.PhaseUnder(cx.z)[0] + offset) % cx.Q
    ensures |acc.err| == cx.N && -noise <= acc.err[0] <= noise
    ensures phase % cx.Q == (TableValue(F, q, b, X) + acc.err[0] + offset) % cx.Q
  {
    hide Close, Stretch, TestVector, TableValue, Holds, Rot, Phase;
    RotatedConstant(acc, cx, m, Stretch(cx.N, q) * X, noise);
    assert 0 < cx.Q && |m| == cx.N && |cx.z| == cx.N && |acc.el0| == |acc.el1| == cx.N by {
      HoldsShape(acc, cx, m, Stretch(cx.N, q) * X, noise);
    }
    LookupExact(m, cx.N, q, b, F, X, cx.Q);
    var r, t, y := Rot(m, Stretch(cx.N, q) * X)[0], TableValue(F, q, b, X), acc.PhaseUnder(cx.z)[0];
    CloseZero(r, t, cx.Q);
    CloseZero(y, r + acc.err[0], cx.Q);
    ModAddCong(r, t, acc.err[0], acc.err[0], cx.Q);
    ModAddCong(y, t + acc.err[0], offset, offset, cx.Q);
  }

  lemma HoldsShape(acc: RLWECiphertext, cx: Context, m: Poly, e: int, b: int)
    requires Holds(acc, cx, m, e, b)
    ensures 0 < cx.Q && |m| == |cx.z| == |acc.el0| == |acc.el1| == |acc.err| == cx.N
  {
    hide Near, Traced, Rot, Phase;
  }

  /**
    BootstrapFunc: for every negacyclic f the result's phase is f at the lookup point, up to an
    error that does not depend on the input. Before switching the phase is the table's value plus
    the accumulated error, exactly.
   */
  method BootstrapFunc(params: BinFHECryptoParams, EK: RingGSWBTKey, ct: LWECiphertext, f: Func, fmod: int,
                       ghost sec: Secrets)
    returns (r: LWECiphertext, ghost acc: RLWECiphertext, ghost ext: int)
    requires params.Valid() && KeysFor(EK, params, params.rgsw.baseG, sec) && params.Accepts(ct.q)
    requires ct.Valid() && |ct.a| == |sec.s| && 2 < fmod && Negacyclic(f, ct.q, fmod)
    ensures fresh(r) && r.Valid() && r.q == fmod && |r.a| == |sec.s| && r.p == 4
    // the blind rotation that was run: its test vector, its steps and the error they added up
    ensures acc.start.0 == Zero(params.rgsw.N) && 0 < fmod
    ensures TestVector(acc.start.1, params.rgsw.N, ct.q, ct.b, FuncTable(f, ct.q, fmod, params.rgsw.Q), params.rgsw.Q)
    ensures Holds(acc, ContextAt(params, params.rgsw.baseG, sec), acc.start.1,
                  Stretch(params.rgsw.N, ct.q) * Turn(params, ct.a, ct.q, sec.s),
                  AccNoise(params, params.rgsw.baseG, sec))
    ensures |acc.err| == params.rgsw.N && 0 < params.rgsw.N
    ensures Abs(acc.err[0]) <= AccNoise(params, params.rgsw.baseG, sec)
    ensures ext % params.rgsw.Q ==
            (TableValue(FuncTable(f, ct.q, fmod, params.rgsw.Q), ct.q, ct.b,
                        Turn(params, ct.a, ct.q, sec.s)) + acc.err[0]) % params.rgsw.Q
    ensures Chained(params.lwe, params.rgsw.Q, fmod, ext, r.Phase(sec.s), AbsSum(sec.z, |sec.z|),
                    AbsSum(sec.s, |sec.s|), sec.ksNoise)
    ensures Close(r.Phase(sec.s), f(LookupPoint(params, ct.a, ct.b, ct.q, sec.s), ct.q, fmod),
                  FuncError(params, params.rgsw.baseG, sec, fmod), fmod)
    ensures params.rgsw.variant != LMKCDEY ==>
      Close(r.Phase(sec.s), f(ct.Phase(sec.s) % ct.q, ct.q, fmod), FuncError(params, params.rgsw.baseG, sec, fmod),
            fmod)
  {
    hide AccKeysFor, IsPow2, Pow, GateTable, Near, Stretch, AccNoise, Turn, TestVector, Phase, Rot, Coef,
         SwitchingKeyFor, TableValue,
         SwitchedError, Chained, Close, Negacyclic, Encodes, AbsSum, Residues, PhaseOf, LookupPoint, Holds, FuncTable,
         Transpose;
    if params.rgsw.variant != LMKCDEY {
      LookupPointExact(params, ct.a, ct.b, ct.q, sec.s);
    }
    KeySizes(EK, params, params.rgsw.baseG, sec);
    ghost var N, Q, s, z := params.rgsw.N, params.rgsw.Q, sec.s, sec.z;
    var core, m := BootstrapFuncCore(params, EK.BSkey, ct, f, fmod, sec);
    acc := core;
    ghost var noise, X, cx := AccNoise(params, params.rgsw.baseG, sec), Turn(params, ct.a, ct.q, s),
                              ContextAt(params, params.rgsw.baseG, sec);
    assert core.Valid(|z|, params.lwe.Q) by { HoldsValid(core, cx, m, Stretch(N, ct.q) * X, noise); }
    var ctExt := Extract(core, 0, params.lwe.Q, z);
    ext := ctExt.Phase(z);
    ExtendedPhase(ext, core, cx, m, ct.q, ct.b, FuncTable(f, ct.q, fmod, Q), X, 0, noise);
    BootstrappedValue(ext, f, ct.q, ct.b, X, fmod, acc.err[0], noise, Q);
    LookupPointIs(params, ct.a, ct.b, ct.q, s);
    r := SwitchTo(params.lwe, EK.KSkey, ctExt, fmod, z, s, sec.ksNoise);
    ghost var v := f(LookupPoint(params, ct.a, ct.b, ct.q, s), ct.q, fmod);
    ChainEncodes(params.lwe, Q, fmod, ext, r.Phase(s), AbsSum(z, |z|), AbsSum(s, |s|), sec.ksNoise,
                 v, fmod, noise + 2 * (Q % fmod));
    EncodesNonNeg(r.Phase(s), fmod, v, fmod, FuncError(params, params.rgsw.baseG, sec, fmod));
    EncodesSame(r.Phase(s), fmod, v, FuncError(params, params.rgsw.baseG, sec, fmod));
  }

  lemma HoldsValid(acc: RLWECiphertext, cx: Context, m: Poly, e: int, b: int)
    requires Holds(acc, cx, m, e, b)
    ensures acc.Valid(cx.N, cx.Q)
  {}
}
