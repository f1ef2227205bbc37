/**
  EvalDecomp (src/binfhe/lib/binfhe-base-scheme.cpp:451-507): the digits of a large message, each as
  its own ciphertext.
 */
module DigitDecomposition {
  import opened Arithmetic
  import opened RgswParams
  import opened LweBasics
  import opened Lwe
  import opened KeySwitching
  import opened Bootstrapping
  import opened LargePrecision
  import opened SignEvaluation

  // ---------------------------------------------------------------------------
  // Digits of a number
  // ---------------------------------------------------------------------------

  /** Digit i of m in base p. */
  function DigitOf(m: int, p: nat, i: nat): int
    requires 0 < p
  {
    m / Pow(p, i) % p
  }

  /** The first k digits weighted by their powers. */
  function Weighted(ds: seq<int>, p: nat, k: nat): int
    requires k <= |ds|
  {
    if k == 0 then 0 else Weighted(ds, p, k - 1) + ds[k - 1] * Pow(p, k - 1)
  }

  /** k digits and what is left above them recompose the number. */
  lemma {:induction false} DigitsRecompose(m: int, p: nat, ds: seq<int>, k: nat)
    requires 0 < p && k <= |ds| && forall i :: 0 <= i < k ==> ds[i] == DigitOf(m, p, i)
    ensures Weighted(ds, p, k) + m / Pow(p, k) * Pow(p, k) == m
  {
    hide Pow;
    if k == 0 {
      ZeroPower(p, m);
    } else {
      DigitsRecompose(m, p, ds, k - 1);
      NextPower(m, p, k - 1);
      OneDigit(m / Pow(p, k - 1), p, Pow(p, k - 1), Pow(p, k));
    }
  }

  lemma OneDigit(cur: int, p: int, P: int, P': int)
    requires 0 < p && P' == p * P
    ensures cur % p * P + cur / p * P' == cur * P
  {
    var a, b := cur / p, cur % p;
    assert cur == a * p + b;
    assert (a * p + b) * P == a * p * P + b * P;
    MulAssoc(a, p, P);
  }

  // ---------------------------------------------------------------------------
  // One digit ciphertext
  // ---------------------------------------------------------------------------

  /** A grid point read modulo q shows its last digit. */
  lemma GridDigit(phase: int, phase': int, cur: int, E: int, mod: int, q: int, beta: int, p: int, width: int)
    requires Grid(mod, q, beta, p, width) && 0 < q && 0 < mod && mod % q == 0
    requires Close(phase, 2 * beta * cur, E, mod) && phase' % q == phase % q
    ensures Encodes(phase', q, cur % p, p, E)
  {
    hide IsPow2;
    var k := CloseWitness(phase, 2 * beta * cur, E, mod);
    var u := mod / q;
    assert mod == u * q;
    MulAssoc(k, u, q);
    var d := phase - 2 * beta * cur - k * mod;
    AbsMulBound(p, d, E);
    var a, b := cur / p, cur % p;
    assert cur == a * p + b;
    GridTimes(phase, p, beta, cur, a, b, k * u, q);
    EncodesIntro(phase, q, b, p, E, a + k * u);
    EncodesCong(phase, phase', q, b, p, E);
  }

  lemma GridTimes(phase: int, p: int, beta: int, cur: int, a: int, b: int, l: int, q: int)
    requires q == 2 * beta * p && cur == a * p + b
    ensures p * (phase - 2 * beta * cur - l * q) == p * phase - b * q - (a + l) * (p * q)
  {
    assert p * (2 * beta * cur) == cur * q by { assert p * (2 * beta * cur) == cur * (2 * beta * p); }
    assert (a * p + b) * q == a * (p * q) + b * q by {
      assert (a * p + b) * q == a * p * q + b * q;
      MulAssoc(a, p, q);
    }
    assert p * (l * q) == l * (p * q);
    assert p * (phase - 2 * beta * cur - l * q) == p * phase - p * (2 * beta * cur) - p * (l * q);
    assert (a + l) * (p * q) == a * (p * q) + l * (p * q);
  }

  /** The last ciphertext, on its own small modulus. */
  lemma GridLast(phase: int, cur: int, E: int, mod: int, q: int, beta: int, p: int, width: int)
    requires Grid(mod, q, beta, p, width) && 0 < mod && 0 <= cur < width && Close(phase, 2 * beta * cur, E, mod)
    ensures Encodes(phase, mod, cur, width, E)
  {
    hide IsPow2;
    var k := CloseWitness(phase, 2 * beta * cur, E, mod);
    AbsMulBound(width, phase - 2 * beta * cur - k * mod, E);
    GridTimes(phase, width, beta, cur, 0, cur, k, mod);
    EncodesIntro(phase, mod, cur, width, E, k);
  }

  /** ct decrypts to digit d of base p. */
  ghost predicate CarriesDigit(ct: LWECiphertext, s: seq<int>, q: int, d: int, p: int, E: int)
    reads ct
  {
    ct.Valid() && |ct.a| == |s| && ct.q == q && Encodes(ct.Phase(s), q, d, p, E)
  }

  /** ct, modulo q, has the phase from which step d started. */
  ghost predicate PushedFrom(ct: LWECiphertext, s: seq<int>, q: int, phase: int)
    reads ct
  {
    ct.Valid() && ct.q == q && |ct.a| == |s| && ct.Phase(s) % q == phase % q
  }

  /** Copies the current ciphertext down to modulus q. */
  method PushDigit(cttmp: LWECiphertext, q: int, ghost s: seq<int>)
    returns (ctq: LWECiphertext)
    requires cttmp.Valid() && |cttmp.a| == |s| && 2 < q && cttmp.q % q == 0
    ensures fresh(ctq) && PushedFrom(ctq, s, q, cttmp.Phase(s))
  {
    hide PhaseOf, SwitchVector;
    ctq := new LWECiphertext.Copy(cttmp);
    ctq.SetModulus(q, s);
  }

  // ---------------------------------------------------------------------------
  // The decomposition loop
  // ---------------------------------------------------------------------------

  /** Everything but the last ciphertext carries its digit. */
  ghost predicate DigitsSoFar(ret: seq<LWECiphertext>, s: seq<int>, q: int, m: int, p: nat, E: int, k: nat)
    reads ret
  {
    0 < p && k <= |ret| && forall i :: 0 <= i < k ==> CarriesDigit(ret[i], s, q, DigitOf(m, p, i), p, E)
  }

  /** Ciphertext i, modulo q, has the phase from which step i started. */
  ghost predicate PushedAll(ret: seq<LWECiphertext>, s: seq<int>, q: int, steps: seq<FloorData>)
    reads ret
  {
    |steps| <= |ret| && forall i :: 0 <= i < |steps| ==> PushedFrom(ret[i], s, q, steps[i].phase)
  }

  /** What every run satisfies, whatever it started from: one ciphertext per step and one for what is left. */
  ghost predicate DecompRan(run: LoopRun, steps: seq<FloorData>, params: BinFHECryptoParams, ret: seq<LWECiphertext>)
    reads ret
  {
    var q, s, k := params.lwe.q, run.sec.s, |steps|;
    && |ret| == k + 1 && PushedAll(ret, s, q, steps) && 0 < run.beta && 2 <= run.p
    && ret[k].Valid() && |ret[k].a| == |s| && ret[k].q <= q
    && Grid(ret[k].q, q, run.beta, run.p, ret[k].q / (2 * run.beta))
    && Reached(run, steps, params, ret[k].q, ret[k].Phase(s))
  }

  /** The digits of m, within E. */
  ghost predicate ShowsDigits(ret: seq<LWECiphertext>, s: seq<int>, q: int, beta: int, m: int, p: nat, E: int)
    reads ret
  {
    && 1 <= |ret| && 0 < beta && DigitsSoFar(ret, s, q, m, p, E, |ret| - 1)
    && var k, last := |ret| - 1, ret[|ret| - 1];
       var width := last.q / (2 * beta);
       && 0 <= m / Pow(p, k) < width <= p < p * width && last.q == 2 * beta * width
       && CarriesDigit(last, s, last.q, m / Pow(p, k), width, E)
  }

  /** Digit k of a run that fits. */
  lemma DigitShown(run: LoopRun, steps: seq<FloorData>, params: BinFHECryptoParams, mod: int, phase: int, k: nat,
                   ct: LWECiphertext, m: int, E: int)
    requires 0 < run.beta && 2 <= run.p && 0 < run.mod0 && 0 <= m < run.mod0 / (2 * run.beta) && k < |steps|
    requires Reached(run, steps, params, mod, phase) && Close(run.phase0, 2 * run.beta * m, E, run.mod0)
    requires LoopFits(steps, params.lwe.q, run.p, run.beta, E)
    requires PushedFrom(ct, run.sec.s, params.lwe.q, steps[k].phase)
    ensures CarriesDigit(ct, run.sec.s, params.lwe.q, DigitOf(m, run.p, k), run.p,
                         WorstGrid(steps, params.lwe.q, run.p, E))
  {
    hide Close, Reached, WorstGrid, WorstStep, LastError, Encodes, PhaseOf, Residues, Pow, Grid, Distance;
    var q, d, W := params.lwe.q, steps[k], WorstGrid(steps, params.lwe.q, run.p, E);
    ReachedPrefix(run, steps, params, mod, phase, k);
    FitsPrefix(steps, q, run.p, E, k);
    RunOnGrid(run, steps[..k], params, d.mod, d.phase, m, E);
    LastWithinWorst(steps[..k], q, run.p, E);
    var cur, e := m / Pow(run.p, k), LastError(steps[..k], q, run.p, E);
    StepGrid(d, params, run.sec, run.beta, run.p);
    GridDigit(d.phase, ct.Phase(run.sec.s), cur, e, d.mod, q, run.beta, run.p, d.mod / (2 * run.beta));
    EncodesWiden(ct.Phase(run.sec.s), q, cur % run.p, run.p, e, W);
  }

  lemma StepGrid(d: FloorData, params: BinFHECryptoParams, sec: SecretMap, beta: int, p: int)
    requires StepRan(d, params, sec, beta, p)
    ensures 0 < beta && Grid(d.mod, params.lwe.q, beta, p, d.mod / (2 * beta)) && 0 < params.lwe.q < d.mod
    ensures d.mod % params.lwe.q == 0
  {
    hide Distance, FuncErrorAt;
    NextModulus(d.mod, params.lwe.q, beta, p, d.mod / (2 * beta));
  }

  /**
    For every message m within E of its grid point: if the errors that actually occurred fit below beta,
    the ciphertexts carry the base-p digits of m and what is left above them.
   */
  lemma DecompCorrect(run: LoopRun, steps: seq<FloorData>, params: BinFHECryptoParams, ret: seq<LWECiphertext>, m: int,
                      E: int)
    requires DecompRan(run, steps, params, ret) && 0 < run.mod0 && 0 <= m < run.mod0 / (2 * run.beta)
    requires Close(run.phase0, 2 * run.beta * m, E, run.mod0) && LoopFits(steps, params.lwe.q, run.p, run.beta, E)
    ensures ShowsDigits(ret, run.sec.s, params.lwe.q, run.beta, m, run.p, WorstGrid(steps, params.lwe.q, run.p, E))
  {
    hide Close, Reached, WorstGrid, LastError, Encodes, PhaseOf, Residues, Pow, Grid, CarriesDigit, PushedFrom,
         LoopFits, DigitOf;
    var q, W, k, last := params.lwe.q, WorstGrid(steps, params.lwe.q, run.p, E), |steps|, ret[|steps|];
    forall i | 0 <= i < k
      ensures CarriesDigit(ret[i], run.sec.s, q, DigitOf(m, run.p, i), run.p, W)
    {
      assert PushedFrom(ret[i], run.sec.s, q, steps[i].phase);
      DigitShown(run, steps, params, last.q, last.Phase(run.sec.s), i, ret[i], m, E);
    }
    RunOnGrid(run, steps, params, last.q, last.Phase(run.sec.s), m, E);
    LastWithinWorst(steps, q, run.p, E);
    LastDigit(last, run.sec.s, q, run.beta, run.p, m / Pow(run.p, k), LastError(steps, q, run.p, E), W);
  }

  lemma LastDigit(ct: LWECiphertext, s: seq<int>, q: int, beta: int, p: nat, cur: int, e: int, E: int)
    requires ct.Valid() && |ct.a| == |s| && 0 < beta && ct.q <= q && e <= E
    requires var width := ct.q / (2 * beta);
             Grid(ct.q, q, beta, p, width) && 0 <= cur < width && Close(ct.Phase(s), 2 * beta * cur, e, ct.q)
    ensures var width := ct.q / (2 * beta);
            0 <= cur < width <= p < p * width && ct.q == 2 * beta * width && CarriesDigit(ct, s, ct.q, cur, width, E)
  {
    hide IsPow2, Close, PhaseOf, Encodes, Residues;
    var width := ct.q / (2 * beta);
    GridLast(ct.Phase(s), cur, e, ct.q, q, beta, p, width);
    EncodesWiden(ct.Phase(s), ct.q, cur, width, e, E);
    GridOrder(ct.q, q, beta, p, width);
  }

  lemma GridOrder(mod: int, q: int, beta: int, p: int, width: int)
    requires Grid(mod, q, beta, p, width) && mod <= q
    ensures width <= p < p * width && mod == 2 * beta * width
  {
    hide IsPow2;
    FactorLess(2 * beta, width, p + 1);
    assert 2 * beta * (p + 1) == 2 * beta * p + 2 * beta;
    MulMonotone(p, 2, width);
  }

  /**
    EvalDecomp: whatever the ciphertext, one ciphertext modulo q per loop step, with the phase that step
    started from, and a last one on the remaining modulus; for every message on the grid they carry its
    digits if the errors that occurred fit. The gadget base, digit count and power table are as before.
   */
  method EvalDecomp(params: BinFHECryptoParams, EKs: map<int, RingGSWBTKey>, ct: LWECiphertext, beta: int,
                    ghost sec: SecretMap, ghost m: int, ghost E: int)
    returns (ret: seq<LWECiphertext>, ghost steps: seq<FloorData>)
    requires params.Valid() && KeyMap(EKs, params, sec) && params.rgsw.baseG in EKs && DynamicKeys(EKs)
    requires IsPow2(ct.q) && IsPow2(beta) && 0 < beta && 2 * beta < params.lwe.q < ct.q && ct.Valid()
    requires |ct.a| == |sec.s|
    modifies params.rgsw`baseG, params.rgsw`digitsG, params.rgsw`gPower, params.rgsw`gPowerMap
    ensures DecompRan(old(LoopOf(params, EKs, ct, beta, sec)), steps, params, ret)
    ensures 2 <= params.lwe.q / (2 * beta)
    ensures (0 <= m < ct.q / (2 * beta) && OnGrid(ct, sec.s, m, beta, E)
             && LoopFits(steps, params.lwe.q, params.lwe.q / (2 * beta), beta, E)) ==>
              ShowsDigits(ret, sec.s, params.lwe.q, beta, m, params.lwe.q / (2 * beta),
                          WorstGrid(steps, params.lwe.q, params.lwe.q / (2 * beta), E))
    ensures params.Valid() && params.rgsw.baseG == old(params.rgsw.baseG)
    ensures params.rgsw.digitsG == old(params.rgsw.digitsG)
    ensures old(Tabulated(params.rgsw)) ==> params.rgsw.gPower == old(params.rgsw.gPower)
  {
    hide IsPow2, Pow, GateTable, PhaseOf, PlainPowers, MonomialTable, LogTable, FuncError, Close, KeysFor, Residues,
         Grid, KeyMap,
         Reached, StepRan, BaseAt, BaseFor, LoopFits, ShowsDigits, FuncErrorAt, WorstGrid, PushedFrom, OnGrid,
         CeilLog2;
    var mod := ct.q;
    var q := params.lwe.q;
    var curBase := params.rgsw.baseG;
    var curEK := EKs[curBase];
    ghost var run := LoopOf(params, EKs, ct, beta, sec);
    ghost var p, width := run.p, mod / (2 * beta);
    GridOf(mod, q, beta);
    assert 2 <= p && 2 < q by { GridPositive(mod, q, beta, p, width); }
    var cttmp := new LWECiphertext.Copy(ct);
    ret, steps := [], [];
    StartRun(run, params);
    while mod > q
      invariant params.Valid() && KeyInUse(params, EKs, curEK)
      invariant params.rgsw.baseG == BaseAt(curBase, |EKs| == 3, mod, ct.q)
      invariant Restorable(params.rgsw, curBase, old(params.rgsw.gPower), old(params.rgsw.gPowerMap))
      invariant Grid(mod, q, beta, p, width) && mod <= ct.q
      invariant fresh(cttmp) && cttmp.Valid() && cttmp.q == mod && |cttmp.a| == |sec.s|
      invariant Reached(run, steps, params, mod, cttmp.Phase(sec.s))
      invariant |ret| == |steps| && PushedAll(ret, sec.s, q, steps)
      decreases mod
    {
      var ctq, newMod;
      ghost var d;
      NextModulus(mod, q, beta, p, width);
      ctq := PushDigit(cttmp, q, sec.s);
      newMod := mod / q * 2 * beta;
      cttmp, d := FloorStep(params, EKs, curEK, cttmp, mod, newMod, beta, sec, p, width);
      ret := PushBack(ret, ctq, sec.s, q, steps, d);
      NextReached(run, steps, d, params, newMod, width);
      steps := steps + [d];
      BaseKept(curBase, |EKs| == 3, mod, newMod, ct.q);
      mod := newMod;
      width := width / p;
      var binLog := CeilLog2(mod);
      curEK := SelectBase(params, EKs, curEK, binLog, sec);
    }
    var key := SwitchBase(params, EKs, curBase, sec);
    GridWidth(mod, q, beta, p, width);
    ret := LastPush(ret, cttmp, sec.s, q, steps);
    DecompShown(run, steps, params, ret, ct, m, E);
  }

  lemma DecompShown(run: LoopRun, steps: seq<FloorData>, params: BinFHECryptoParams, ret: seq<LWECiphertext>,
                    ct: LWECiphertext, m: int, E: int)
    requires DecompRan(run, steps, params, ret) && 0 < run.mod0 && |ct.a| == |run.sec.s|
    requires ct.q == run.mod0 && ct.Phase(run.sec.s) == run.phase0
    ensures 0 < run.beta && (0 <= m < ct.q / (2 * run.beta) && OnGrid(ct, run.sec.s, m, run.beta, E)
                             && LoopFits(steps, params.lwe.q, run.p, run.beta, E) ==>
              ShowsDigits(ret, run.sec.s, params.lwe.q, run.beta, m, run.p, WorstGrid(steps, params.lwe.q, run.p, E)))
  {
    hide Grid, Reached, LoopFits, ShowsDigits, WorstGrid, PushedAll, Close, PhaseOf, Residues;
    if 0 <= m < ct.q / (2 * run.beta) && OnGrid(ct, run.sec.s, m, run.beta, E)
       && LoopFits(steps, params.lwe.q, run.p, run.beta, E) {
      DecompCorrect(run, steps, params, ret, m, E);
    }
  }

  lemma GridPositive(mod: int, q: int, beta: int, p: int, width: int)
    requires Grid(mod, q, beta, p, width)
    ensures 2 <= p && 2 <= width && 0 < beta && 2 < q
  {
    hide IsPow2;
    MulMonotone(2 * beta, 2, p);
  }

  method PushBack(ret: seq<LWECiphertext>, ctq: LWECiphertext, ghost s: seq<int>, ghost q: int,
                  ghost steps: seq<FloorData>, ghost d: FloorData)
    returns (r: seq<LWECiphertext>)
    requires |ret| == |steps| && PushedAll(ret, s, q, steps) && PushedFrom(ctq, s, q, d.phase)
    ensures r == ret + [ctq] && PushedAll(r, s, q, steps + [d])
  {
    hide PushedFrom;
    r := ret + [ctq];
  }

  method LastPush(ret: seq<LWECiphertext>, ct: LWECiphertext, ghost s: seq<int>, ghost q: int,
                  ghost steps: seq<FloorData>)
    returns (r: seq<LWECiphertext>)
    requires |ret| == |steps| && PushedAll(ret, s, q, steps)
    ensures r == ret + [ct] && PushedAll(r, s, q, steps)
  {
    hide PushedFrom;
    r := ret + [ct];
  }

  // ---------------------------------------------------------------------------
  // Decrypting the digits
  // ---------------------------------------------------------------------------

  method DecryptDigit(sk: LWEPrivateKey, ct: LWECiphertext, p: nat, ghost q: int, ghost d: int, ghost E: int,
                      ghost fits: bool)
    returns (r: int)
    requires sk.Valid() && 0 < p && Decryptable(ct, |sk.values|)
    requires fits ==> CarriesDigit(ct, sk.Signed(), q, d, p, E) && 0 <= d < p && 2 * (p * E) < q
    ensures fits ==> r == d
  {
    hide PhaseOf, Encodes, Decodes, SignedValue, Residues;
    r := Decrypt(sk, ct, p);
    if fits {
      EncodedDecodes(ct.Phase(sk.Signed()), q, d, p, E);
      assert Decodes(ct.Phase(sk.Signed()), d, p, ct.q);
    }
  }

  /** Decrypts the first n ciphertexts and adds them up by weight. */
  method DecryptDigits(sk: LWEPrivateKey, ret: seq<LWECiphertext>, n: nat, p: nat, ghost q: int, ghost m: int,
                       ghost E: int, ghost fits: bool)
    returns (digits: seq<int>, sum: int, weight: int)
    requires sk.Valid() && n <= |ret| && 0 < p && forall i :: 0 <= i < n ==> Decryptable(ret[i], |sk.values|)
    requires fits ==> DigitsSoFar(ret, sk.Signed(), q, m, p, E, n) && 2 * (p * E) < q
    ensures |digits| == n && (fits ==> forall i :: 0 <= i < n ==> digits[i] == DigitOf(m, p, i))
    ensures sum == Weighted(digits, p, n) && weight == Pow(p, n)
  {
    hide Pow, CarriesDigit, SignedValue, DigitOf, Decryptable;
    digits, sum, weight := [], 0, 1;
    ZeroPower(p, m);
    for i := 0 to n
      invariant |digits| == i && weight == Pow(p, i) && sum == Weighted(digits, p, i)
      invariant fits ==> forall j :: 0 <= j < i ==> digits[j] == DigitOf(m, p, j)
    {
      DigitInRange(m, p, i);
      var d := DecryptDigit(sk, ret[i], p, q, DigitOf(m, p, i), E, fits);
      WeightedSnoc(digits, d, p);
      NextPower(m, p, i);
      digits := digits + [d];
      sum := sum + d * weight;
      weight := weight * p;
    }
  }

  /**
    Decomposing, decrypting every digit and weighting by powers of p returns the message whenever the
    errors that occurred fit.
   */
  method DecryptDecomp(params: BinFHECryptoParams, EKs: map<int, RingGSWBTKey>, ct: LWECiphertext, beta: int,
                       sk: LWEPrivateKey,
                       ghost sec: SecretMap, ghost m: int, ghost E: int)
    returns (digits: seq<int>, top: int, sum: int, ghost steps: seq<FloorData>, ghost ret: seq<LWECiphertext>)
    requires params.Valid() && KeyMap(EKs, params, sec) && params.rgsw.baseG in EKs && DynamicKeys(EKs)
    requires IsPow2(ct.q) && IsPow2(beta) && 0 < beta && 2 * beta < params.lwe.q < ct.q && sk.Valid()
    requires sk.Signed() == sec.s
    requires 0 <= m < ct.q / (2 * beta) && OnGrid(ct, sec.s, m, beta, E)
    modifies params.rgsw`baseG, params.rgsw`digitsG, params.rgsw`gPower, params.rgsw`gPowerMap
    ensures DecompRan(old(LoopOf(params, EKs, ct, beta, sec)), steps, params, ret) && 2 <= params.lwe.q / (2 * beta)
    ensures |digits| == |steps|
    ensures LoopFits(steps, params.lwe.q, params.lwe.q / (2 * beta), beta, E) ==>
              && sum == m && top == m / Pow(params.lwe.q / (2 * beta), |digits|)
              && forall i :: 0 <= i < |digits| ==> digits[i] == DigitOf(m, params.lwe.q / (2 * beta), i)
  {
    hide IsPow2, Pow, GateTable, PlainPowers, MonomialTable, LogTable, FuncError, KeysFor, KeyMap, Close, Reached,
         PushedFrom, PushedAll,
         CarriesDigit, SignedValue, Grid, DigitOf, DigitsSoFar, Weighted, KeyInUse, LoopFits, ShowsDigits, WorstGrid,
         PhaseOf, Residues;
    var cts := [];
    cts, steps := EvalDecomp(params, EKs, ct, beta, sec, m, E);
    ret := cts;
    var p := params.lwe.q / (2 * beta);
    var n := |cts| - 1;
    ghost var W, fits := WorstGrid(steps, params.lwe.q, p, E), LoopFits(steps, params.lwe.q, p, beta, E);
    RanSizes(old(LoopOf(params, EKs, ct, beta, sec)), steps, params, cts);
    if fits {
      FittingDigits(cts, steps, sec.s, params.lwe.q, beta, m, p, E);
    }
    var weight;
    digits, sum, weight := DecryptDigits(sk, cts, n, p, params.lwe.q, m, W, fits);
    top := DecryptDigit(sk, cts[n], cts[n].q / (2 * beta), cts[n].q, m / Pow(p, n), W, fits);
    if fits {
      DigitsRecompose(m, p, digits, n);
    }
    sum := sum + top * weight;
  }

  /** Every ciphertext of a run can be decrypted. */
  lemma RanSizes(run: LoopRun, steps: seq<FloorData>, params: BinFHECryptoParams, ret: seq<LWECiphertext>)
    requires DecompRan(run, steps, params, ret)
    ensures |ret| == |steps| + 1 && forall i :: 0 <= i < |ret| ==> Decryptable(ret[i], |run.sec.s|)
    ensures 0 < run.beta && 2 <= ret[|steps|].q / (2 * run.beta)
  {
    hide Reached, Residues, PhaseOf, IsPow2;
    forall i | 0 <= i < |ret|
      ensures Decryptable(ret[i], |run.sec.s|)
    {
      assert i < |steps| ==> PushedFrom(ret[i], run.sec.s, params.lwe.q, steps[i].phase);
    }
  }

  ghost predicate Decryptable(ct: LWECiphertext, n: nat)
    reads ct
  {
    ct.Valid() && |ct.a| == n
  }

  /** Errors that fit below beta are inside every decoding margin. */
  lemma FittingDigits(ret: seq<LWECiphertext>, steps: seq<FloorData>, s: seq<int>, q: int, beta: int, m: int, p: nat,
                      E: int)
    requires 0 < beta && IsPow2(q) && IsPow2(beta) && 2 * beta < q && p == q / (2 * beta)
    requires ShowsDigits(ret, s, q, beta, m, p, WorstGrid(steps, q, p, E)) && LoopFits(steps, q, p, beta, E)
    ensures var W, k := WorstGrid(steps, q, p, E), |ret| - 1;
            && DigitsSoFar(ret, s, q, m, p, W, k) && 2 * (p * W) < q
            && var last := ret[k]; var width := last.q / (2 * beta);
               0 <= m / Pow(p, k) < width && 2 * (width * W) < last.q
               && CarriesDigit(last, s, last.q, m / Pow(p, k), width, W)
  {
    hide IsPow2, DigitsSoFar, CarriesDigit, WorstGrid, WorstStep, Pow;
    var W, width := WorstGrid(steps, q, p, E), ret[|ret| - 1].q / (2 * beta);
    TwiceIsPower(beta);
    PowersDivide(q, 2 * beta);
    FactorLess(2 * beta, 0, p);
    BelowHalf(p, W, beta, q);
    BelowHalf(width, W, beta, 2 * beta * width);
  }

  lemma BelowHalf(p: int, W: int, beta: int, q: int)
    requires 0 < p && W < beta && q == 2 * beta * p
    ensures 2 * (p * W) < q
  {
    MulMonotone(p, W + 1, beta);
    assert p * (W + 1) == p * W + p && 2 * (p * beta) == 2 * beta * p;
  }

  lemma DigitInRange(m: int, p: nat, i: nat)
    requires 0 < p
    ensures 0 <= DigitOf(m, p, i) < p
  {}

  lemma {:induction false} WeightedPrefix(ds: seq<int>, d: int, p: nat, k: nat)
    requires k <= |ds|
    ensures Weighted(ds + [d], p, k) == Weighted(ds, p, k)
  {
    if k != 0 {
      WeightedPrefix(ds, d, p, k - 1);
    }
  }

  lemma WeightedSnoc(ds: seq<int>, d: int, p: nat)
    ensures Weighted(ds + [d], p, |ds| + 1) == Weighted(ds, p, |ds|) + d * Pow(p, |ds|)
  {
    WeightedPrefix(ds, d, p, |ds|);
  }
}
