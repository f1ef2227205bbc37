/**
  EvalSign (src/binfhe/lib/binfhe-base-scheme.cpp:380-448): whole runs of the shrinking loop, with
  the gadget base chosen anew in every iteration.
 */
module SignEvaluation {
  import opened Arithmetic
  import opened Gadget
  import opened RgswParams
  import opened LweBasics
  import opened Lwe
  import opened KeySwitching
  import opened Bootstrapping
  import opened GateLogic
  import opened FunctionEval
  import opened LargePrecision

  // ---------------------------------------------------------------------------
  // Choosing the gadget base
  // ---------------------------------------------------------------------------

  /** Dynamic runs have keys for every base they may choose. */
  predicate DynamicKeys(EKs: map<int, RingGSWBTKey>) {
    |EKs| == 3 ==> 134217728 in EKs && 262144 in EKs
  }

  /** The current power table is the stored one. */
  ghost predicate Tabulated(rgsw: RingGSWCryptoParams)
    reads rgsw
  {
    rgsw.baseG in rgsw.gPowerMap && rgsw.gPowerMap[rgsw.baseG] == rgsw.gPower
  }

  ghost predicate Keeps(small: map<int, seq<int>>, large: map<int, seq<int>>) {
    forall b :: b in small ==> b in large && large[b] == small[b]
  }

  lemma StillValid(params: BinFHECryptoParams, EK: RingGSWBTKey, sec: Secrets)
    requires KeysFor(EK, params, params.rgsw.baseG, sec)
    ensures IsGadgetBase(params.rgsw.baseG) && 2 <= params.rgsw.baseG < params.rgsw.Q
  {}

  /** Changing the base keeps the parameters valid when a key for the new base exists. */
  method SwitchBase(params: BinFHECryptoParams, EKs: map<int, RingGSWBTKey>, base: int, ghost sec: SecretMap)
    returns (newEK: RingGSWBTKey)
    requires params.Valid() && KeyMap(EKs, params, sec) && base in EKs
    modifies params.rgsw`baseG, params.rgsw`digitsG, params.rgsw`gPower, params.rgsw`gPowerMap
    ensures params.Valid() && params.rgsw.baseG == base && newEK == EKs[base] && KeyInUse(params, EKs, newEK)
    ensures Keeps(old(params.rgsw.gPowerMap), params.rgsw.gPowerMap)
    ensures old(params.rgsw.baseG) == base ==> params.rgsw.gPower == old(params.rgsw.gPower)
    ensures old(params.rgsw.baseG) != base && base in old(params.rgsw.gPowerMap) ==>
              params.rgsw.gPower == old(params.rgsw.gPowerMap)[base]
  {
    hide GateTable, PlainPowers, MonomialTable, LogTable, IsPow2, Pow, AccKeysFor, SwitchingKeyFor;
    assert 2 <= base by { BaseTwo(EKs, params, sec); }
    params.rgsw.ChangeBaseG(base);
    newEK := EKs[base];
    StillValid(params, newEK, sec.at[base]);
  }

  /** The tail of both loops: with three keys the base follows the size of the modulus. */
  method SelectBase(params: BinFHECryptoParams, EKs: map<int, RingGSWBTKey>, curEK: RingGSWBTKey, binLog: int,
                    ghost sec: SecretMap)
    returns (newEK: RingGSWBTKey)
    requires params.Valid() && KeyMap(EKs, params, sec) && KeyInUse(params, EKs, curEK) && DynamicKeys(EKs)
    modifies params.rgsw`baseG, params.rgsw`digitsG, params.rgsw`gPower, params.rgsw`gPowerMap
    ensures params.Valid() && KeyInUse(params, EKs, newEK)
    ensures params.rgsw.baseG == if |EKs| == 3 && BaseFor(binLog) != 0 then BaseFor(binLog) else old(params.rgsw.baseG)
    ensures |EKs| == 3 && binLog <= 17 ==> params.rgsw.baseG == 134217728
    ensures |EKs| == 3 && 17 < binLog <= 26 ==> params.rgsw.baseG == 262144
    ensures |EKs| != 3 || 26 < binLog ==> params.rgsw.baseG == old(params.rgsw.baseG)
    ensures Keeps(old(params.rgsw.gPowerMap), params.rgsw.gPowerMap)
    ensures old(params.rgsw.baseG) == params.rgsw.baseG ==> params.rgsw.gPower == old(params.rgsw.gPower)
    ensures old(params.rgsw.baseG) != params.rgsw.baseG && params.rgsw.baseG in old(params.rgsw.gPowerMap) ==>
              params.rgsw.gPower == old(params.rgsw.gPowerMap)[params.rgsw.baseG]
  {
    hide GateTable, PlainPowers, MonomialTable, LogTable, IsPow2, Pow, KeysFor;
    newEK := curEK;
    if |EKs| == 3 {
      var base := BaseFor(binLog);
      if base != 0 {
        newEK := SwitchBase(params, EKs, base, sec);
      }
    }
  }

  /** Relation of the current tables to those at the start of a run. */
  ghost predicate Restorable(rgsw: RingGSWCryptoParams, base0: int, gPower0: seq<int>, map0: map<int, seq<int>>)
    reads rgsw
  {
    && Keeps(map0, rgsw.gPowerMap)
    && (base0 in map0 && map0[base0] == gPower0 && rgsw.baseG == base0 ==> rgsw.gPower == gPower0)
  }

  // ---------------------------------------------------------------------------
  // Sign
  // ---------------------------------------------------------------------------

  /** A quarter of the output modulus on the first half circle, minus a quarter on the second. */
  function SignStep(x: int, q: int, Q: int): int {
    if x < q / 2 then Q / 4 else Q - Q / 4
  }

  /** The negated step, used for scheme switching. */
  function NegatedSignStep(x: int, q: int, Q: int): int {
    if x < q / 2 then Q - Q / 4 else Q / 4
  }

  lemma SignStepsNegacyclic(q: int, fmod: int)
    requires 0 < q && q % 2 == 0 && 0 < fmod
    ensures Negacyclic(SignStep, q, fmod) && Negacyclic(NegatedSignStep, q, fmod)
  {
    forall x | 0 <= x < q / 2
      ensures OppositeValues(SignStep(x, q, fmod), SignStep(x + q / 2, q, fmod), fmod)
      ensures OppositeValues(NegatedSignStep(x, q, fmod), NegatedSignStep(x + q / 2, q, fmod), fmod)
    {}
  }

  /** The modulus at which the loop ends. */
  function FinalModulus(mod: int, q: int, p: int): int
    decreases mod
  {
    if q < mod && 0 < q && 2 <= p && mod / p < mod then FinalModulus(mod / p, q, p) else mod
  }

  lemma FinalNext(mod: int, next: int, q: int, p: int)
    requires 0 < q < mod && 2 <= p && mod == p * next
    ensures FinalModulus(mod, q, p) == FinalModulus(next, q, p)
  {
    SmallerModulus(mod, p, next);
    DivModIs(mod, p, next, 0);
  }

  lemma FinalReached(mod: int, q: int, p: int)
    requires mod <= q
    ensures FinalModulus(mod, q, p) == mod
  {}

  /** CGGI accepts every final modulus: it is a power of two at most q, so it divides q. The others accept q. */
  lemma FinalAccepts(params: BinFHECryptoParams, mod: int, beta: int, p: int, width: int)
    requires params.Valid() && Grid(mod, params.lwe.q, beta, p, width) && IsPow2(beta)
    requires mod <= params.lwe.q && (params.rgsw.variant == GINX || mod == params.lwe.q)
    ensures params.Accepts(mod)
  {
    hide IsPow2, Pow, GateTable, PlainPowers, MonomialTable, LogTable;
    TwiceIsPower(beta);
    ProductOfPowers(2 * beta, width);
    PowersDivide(params.lwe.q, mod);
    EvenGrid(mod, params.lwe.q, beta, p, width);
    DividesTwice(2 * params.rgsw.N, params.lwe.q, mod);
  }

  lemma DividesTwice(x: int, q: int, m: int)
    requires 0 < q && 0 < m && x % q == 0 && q % m == 0
    ensures x % m == 0
  {
    var a, b := x / q, q / m;
    assert x == a * q && q == b * m;
    MulAssoc(a, b, m);
    DivModIs(x, m, a * b, 0);
  }

  /** floor(m/P) reaches h exactly when m reaches h*P. */
  lemma DivThreshold(m: int, P: int, h: int)
    requires 0 < P
    ensures h <= m / P <==> h * P <= m
  {
    var d := m / P;
    assert m == d * P + m % P;
    if h <= d {
      MulMonotone(P, h, d);
    } else {
      MulMonotone(P, d + 1, h);
      assert P * (d + 1) == d * P + P;
    }
    assert P * h == h * P && P * d == d * P;
  }

  /** The half of the circle a final message lies in is the top bit of the original one. */
  lemma TopBit(y: int, cur: int, m: int, P: int, mod: int, q: int, beta: int, p: int, width: int, mod0: int)
    requires Grid(mod, q, beta, p, width) && 0 <= cur < width && 0 < P && cur == m / P && mod0 == 2 * beta * (width * P)
    requires 2 * beta * cur < y < 2 * beta * cur + 2 * beta
    ensures 0 < 4 * beta && (y < mod / 2 <==> m < mod0 / (4 * beta))
  {
    hide IsPow2;
    EvenGrid(mod, q, beta, p, width);
    var h := width / 2;
    DivThreshold(m, P, h);
    assert mod0 == (h * P) * (4 * beta) by {
      assert 2 * beta * ((2 * h) * P) == (h * P) * (4 * beta) by { FourBeta(beta, h, P); }
    }
    DivModIs(mod0, 4 * beta, h * P, 0);
    if cur < h {
      MulMonotone(2 * beta, cur + 1, h);
      assert 2 * beta * (cur + 1) == 2 * beta * cur + 2 * beta;
    } else {
      MulMonotone(2 * beta, h, cur);
    }
  }

  lemma FourBeta(beta: int, h: int, P: int)
    ensures 2 * beta * ((2 * h) * P) == (h * P) * (4 * beta)
  {
    assert (2 * h) * P == 2 * (h * P);
    assert 2 * beta * (2 * (h * P)) == (h * P) * (4 * beta);
  }

  // ---------------------------------------------------------------------------
  // Whole runs
  // ---------------------------------------------------------------------------

  /**
    Record of a run: the loop's steps, the modulus, phase and gadget base of the final bootstrap, and
    where its table was read.
   */
  datatype SignTrace = SignTrace(steps: seq<FloorData>, mod: int, phase: int, base: int, x: int)

  /** The loop that EvalSign and EvalDecomp run on ct. */
  ghost function LoopOf(params: BinFHECryptoParams, EKs: map<int, RingGSWBTKey>, ct: LWECiphertext, beta: int,
                        sec: SecretMap): LoopRun
    requires 0 < beta && 0 <= params.lwe.q && |ct.a| == |sec.s|
    reads params.rgsw, ct
  {
    FactorLess(2 * beta, -1, params.lwe.q / (2 * beta));
    LoopRun(sec, beta, params.lwe.q / (2 * beta), params.rgsw.baseG, |EKs| == 3, ct.q, ct.Phase(sec.s))
  }

  /** Value of the final bootstrap at x. */
  function FinalValue(x: int, mod: int, q: int, schemeSwitch: bool): int {
    if schemeSwitch then NegatedSignStep(x, mod, q) else SignStep(x, mod, q)
  }

  /** Actual error of the final bootstrap, for a result of phase out. */
  function FinalError(run: LoopRun, t: SignTrace, q: int, schemeSwitch: bool, out: int): nat
    requires 0 < q && 0 < t.mod
  {
    Distance(if schemeSwitch then out else out + q / 4,
             FinalValue(t.x, t.mod, q, schemeSwitch), q)
  }

  /** How far from the phase, with beta added, the final table was read. */
  function FinalShift(run: LoopRun, t: SignTrace): nat
    requires 0 < t.mod
  {
    Distance(t.x, t.phase + run.beta, t.mod)
  }

  /** The steps fit, and the last message stays in its half where it is read. */
  predicate SignFits(run: LoopRun, t: SignTrace, q: int, E: int) {
    LoopFits(t.steps, q, run.p, run.beta, E)
    && (0 < t.mod ==> LastError(t.steps, q, run.p, E) + FinalShift(run, t) < run.beta)
  }

  /** Without LMKCDEY's rounding the steps decide. */
  lemma SignFitsExact(run: LoopRun, t: SignTrace, params: BinFHECryptoParams, schemeSwitch: bool, out: int, q: int,
                      E: int)
    requires SignRan(run, t, params, schemeSwitch, out) && params.rgsw.variant != LMKCDEY
    ensures SignFits(run, t, q, E) <==> LoopFits(t.steps, q, run.p, run.beta, E)
  {
    hide Reached, Distance, LastError, WorstGrid, Grid, FuncErrorAt, BaseAt;
    LastWithinWorst(t.steps, q, run.p, E);
    NoShift(t.x, t.phase + run.beta, t.mod);
  }

  lemma NoShift(x: int, y: int, q: int)
    requires 0 < q && x == y % q
    ensures Distance(x, y, q) == 0
  {
    hide Close, Distance;
    ModMod(y, q);
    CloseZero(x, y, q);
    DistanceExact(x, y, 0, q);
  }

  /** What every run satisfies, whatever it started from. */
  ghost predicate SignRan(run: LoopRun, t: SignTrace, params: BinFHECryptoParams, schemeSwitch: bool, out: int) {
    var q := params.lwe.q;
    && 0 < run.beta && 2 <= run.p && 0 < t.mod <= q && Grid(t.mod, q, run.beta, run.p, t.mod / (2 * run.beta))
    && Reached(run, t.steps, params, t.mod, t.phase) && t.base == BaseAt(run.base0, run.dynamic, t.mod, run.mod0)
    && 0 <= t.x < t.mod && FinalShift(run, t) <= RoundingSlack(params, run.sec.s)
    && (params.rgsw.variant != LMKCDEY ==> t.x == (t.phase + run.beta) % t.mod)
    && FinalError(run, t, q, schemeSwitch, out) <= FuncErrorAt(params, run.sec, t.base, q)
  }

  /** The moduli of a run shrink by p each. */
  lemma {:induction false} ReachedModulus(run: LoopRun, steps: seq<FloorData>, params: BinFHECryptoParams, mod: int,
                                          phase: int)
    requires Reached(run, steps, params, mod, phase)
    ensures run.mod0 == mod * Pow(run.p, |steps|)
    decreases |steps|
  {
    hide StepRan;
    if |steps| != 0 {
      var d := steps[|steps| - 1];
      ReachedModulus(run, steps[..|steps| - 1], params, d.mod, d.phase);
      var P := Pow(run.p, |steps| - 1);
      assert run.p * mod * P == mod * (run.p * P) by {
        MulAssoc(mod, run.p, P);
        assert run.p * mod == mod * run.p;
      }
    }
  }

  /** What the result of a run says about the top bit. */
  ghost predicate ShowsTop(out: int, top: bool, q: int, schemeSwitch: bool, e: int) {
    0 < q && if schemeSwitch then Close(out, if top then q / 4 else q - q / 4, e, q)
             else Encodes(out, q, Bit(top), 2, e)
  }

  /**
    For every message m within E of its grid point: if the errors and shifts that actually occurred fit
    below beta, the result is the top bit of m, with the final bootstrap's actual error.
   */
  lemma SignCorrect(run: LoopRun, t: SignTrace, params: BinFHECryptoParams, schemeSwitch: bool, out: int, m: int,
                    E: int)
    requires SignRan(run, t, params, schemeSwitch, out) && 0 < run.mod0 && 0 <= m < run.mod0 / (2 * run.beta)
    requires Close(run.phase0, 2 * run.beta * m, E, run.mod0) && SignFits(run, t, params.lwe.q, E)
    ensures 0 < 4 * run.beta
    ensures ShowsTop(out, m >= run.mod0 / (4 * run.beta), params.lwe.q, schemeSwitch,
                     FinalError(run, t, params.lwe.q, schemeSwitch, out))
  {
    hide IsPow2, Grid, Reached, StepRan, FuncErrorAt, BaseAt, Close, WorstGrid, WorstStep, LastError, Distance, Pow,
         Encodes, RoundingSlack;
    var q, beta, p, mod := params.lwe.q, run.beta, run.p, t.mod;
    var width, P, E' := mod / (2 * beta), Pow(p, |t.steps|), LastError(t.steps, q, p, E);
    RunOnGrid(run, t.steps, params, mod, t.phase, m, E);
    ReachedModulus(run, t.steps, params, mod, t.phase);
    PowerPositive(p, |t.steps|);
    ReadShift(t.phase, t.x, beta, 2 * beta * (m / P), E', FinalShift(run, t), mod);
    CellOf(t.x - beta, m / P, E' + FinalShift(run, t), 0, mod, q, beta, p, width);
    ModSmall(t.x, mod);
    RunWidth(mod, q, beta, p, width, P, run.mod0);
    var y, top := t.x, m >= run.mod0 / (4 * beta);
    TopBit(y, m / P, m, P, mod, q, beta, p, width, run.mod0);
    var e := FinalError(run, t, q, schemeSwitch, out);
    assert q % 4 == 0 by { GridBounds(mod, q, beta, p, width); }
    if schemeSwitch {
      DistanceExact(out, if top then q / 4 else q - q / 4, e, q);
    } else {
      DistanceExact(out + q / 4, if top then q - q / 4 else q / 4, e, q);
      SignEncodes(out + q / 4, out, top, q, e);
    }
  }

  /** A point read within h of a phase within E of a grid point is within E + h of it. */
  lemma ReadShift(phase: int, x: int, beta: int, g: int, E: int, h: int, mod: int)
    requires 0 < mod && Close(phase, g, E, mod) && h == Distance(x, phase + beta, mod)
    ensures Close(x - beta, g, E + h, mod)
  {
    hide Close, Distance;
    DistanceExact(x, phase + beta, h, mod);
    CloseSelf(beta, 0, mod);
    CloseAdd(x, phase + beta, beta, beta, h, 0, mod);
    assert phase + beta - beta == phase;
    CloseTrans(x - beta, phase, g, h, E, mod);
  }

  lemma PowerPositive(p: nat, k: nat)
    requires 0 < p
    ensures 0 < Pow(p, k)
  {}

  lemma RunWidth(mod: int, q: int, beta: int, p: int, width: int, P: int, mod0: int)
    requires Grid(mod, q, beta, p, width) && mod0 == mod * P
    ensures mod0 == 2 * beta * (width * P)
  {
    hide IsPow2;
    MulAssoc(2 * beta, width, P);
  }

  lemma SignEncodes(w: int, x: int, top: bool, q: int, e: int)
    requires 0 < q && q % 4 == 0 && Close(w, if top then q - q / 4 else q / 4, e, q) && x == w - q / 4
    ensures Encodes(x, q, Bit(top), 2, e)
  {
    var k := CloseWitness(w, if top then q - q / 4 else q / 4, e, q);
    EncodesIntro(x, q, Bit(top), 2, e, k);
  }

  /** Inside the budget for the visited pairs every run fits, and the result decrypts. */
  lemma BudgetSign(run: LoopRun, t: SignTrace, params: BinFHECryptoParams, schemeSwitch: bool, out: int, E: int, D: int)
    requires SignRan(run, t, params, schemeSwitch, out) && Budget(run, params, E, D) && 0 <= E
    ensures SignFits(run, t, params.lwe.q, E)
    ensures FinalError(run, t, params.lwe.q, schemeSwitch, out) <= D && 4 * D < params.lwe.q
  {
    hide IsPow2, StepRan, FuncErrorAt, BaseAt, Distance, StepNoise, AbsSum, Reached, LoopFits, FinalError,
         RoundingSlack, LastError, WorstGrid;
    BudgetFits(run, t.steps, params, t.mod, t.phase, E, D);
    LastWithinWorst(t.steps, params.lwe.q, run.p, E);
    MulMonotone(2 * run.beta, 2, run.p);
  }

  /**
    EvalSign: whatever the ciphertext, the run is a chain of floor steps under the base for each modulus
    and a final bootstrap; for every message on the grid it shows the top bit if the errors that
    occurred fit. The gadget base, digit count and power table are as before.
   */
  method EvalSign(params: BinFHECryptoParams, EKs: map<int, RingGSWBTKey>, ct: LWECiphertext, beta: int,
                  schemeSwitch: bool,
                  ghost sec: SecretMap, ghost m: int, ghost E: int)
    returns (r: LWECiphertext, ghost t: SignTrace)
    requires params.Valid() && KeyMap(EKs, params, sec) && params.rgsw.baseG in EKs && DynamicKeys(EKs)
    requires IsPow2(ct.q) && IsPow2(beta) && 0 < beta && 2 * beta < params.lwe.q < ct.q && ct.Valid()
    requires |ct.a| == |sec.s| && KeysServe(params, FinalModulus(ct.q, params.lwe.q, params.lwe.q / (2 * beta)))
    modifies params.rgsw`baseG, params.rgsw`digitsG, params.rgsw`gPower, params.rgsw`gPowerMap
    ensures fresh(r) && r.Valid() && r.q == params.lwe.q && |r.a| == |sec.s|
    ensures SignRan(old(LoopOf(params, EKs, ct, beta, sec)), t, params, schemeSwitch, r.Phase(sec.s))
    ensures (0 <= m < ct.q / (2 * beta) && OnGrid(ct, sec.s, m, beta, E)
             && SignFits(old(LoopOf(params, EKs, ct, beta, sec)), t, params.lwe.q, E)) ==>
              ShowsTop(r.Phase(sec.s), m >= ct.q / (4 * beta), params.lwe.q, schemeSwitch,
                       FinalError(old(LoopOf(params, EKs, ct, beta, sec)), t, params.lwe.q, schemeSwitch,
                                  r.Phase(sec.s)))
    ensures params.Valid() && params.rgsw.baseG == old(params.rgsw.baseG)
    ensures params.rgsw.digitsG == old(params.rgsw.digitsG)
    ensures old(Tabulated(params.rgsw)) ==> params.rgsw.gPower == old(params.rgsw.gPower)
  {
    hide IsPow2, Pow, GateTable, PhaseOf, PlainPowers, MonomialTable, LogTable, FuncError, Close, KeysFor, Residues,
         Grid, KeyMap, Encodes,
         Reached, StepRan, BaseAt, BaseFor, SignFits, ShowsTop, FinalError, FuncErrorAt, FinalModulus;
    var mod := ct.q;
    var q := params.lwe.q;
    var curBase := params.rgsw.baseG;
    var curEK := EKs[curBase];
    ghost var run := LoopOf(params, EKs, ct, beta, sec);
    ghost var p, width := run.p, mod / (2 * beta);
    GridOf(mod, q, beta);
    var cttmp := new LWECiphertext.Copy(ct);
    ghost var steps := [];
    StartRun(run, params);
    while mod > q
      invariant params.Valid() && KeyInUse(params, EKs, curEK)
      invariant params.rgsw.baseG == BaseAt(curBase, |EKs| == 3, mod, ct.q)
      invariant Restorable(params.rgsw, curBase, old(params.rgsw.gPower), old(params.rgsw.gPowerMap))
      invariant Grid(mod, q, beta, p, width) && mod <= ct.q && FinalModulus(mod, q, p) == FinalModulus(ct.q, q, p)
      invariant fresh(cttmp) && cttmp.Valid() && cttmp.q == mod && |cttmp.a| == |sec.s|
      invariant Reached(run, steps, params, mod, cttmp.Phase(sec.s))
      decreases mod
    {
      NextModulus(mod, q, beta, p, width);
      var newMod := 2 * mod * beta / q;
      ghost var d;
      cttmp, d := FloorStep(params, EKs, curEK, cttmp, mod, newMod, beta, sec, p, width);
      NextReached(run, steps, d, params, newMod, width);
      FinalNext(mod, newMod, q, p) by { GridScale(mod, q, beta, p, width); }
      steps := steps + [d];
      BaseKept(curBase, |EKs| == 3, mod, newMod, ct.q);
      mod := newMod;
      width := width / p;
      LogsOfPower(mod) by { GridPower(mod, q, beta, p, width); }
      var binLog := GetMSB(mod) - 1;
      curEK := SelectBase(params, EKs, curEK, binLog, sec);
    }
    FinalReached(mod, q, p);
    t := SignTrace(steps, mod, cttmp.Phase(sec.s), params.rgsw.baseG, 0);
    r, t := FinalSign(params, EKs, curEK, cttmp, beta, schemeSwitch, run, t, width);
    if 0 <= m < ct.q / (2 * beta) && OnGrid(ct, sec.s, m, beta, E) && SignFits(run, t, q, E) {
      SignCorrect(run, t, params, schemeSwitch, r.Phase(sec.s), m, E);
    }
    var key := SwitchBase(params, EKs, curBase, sec);
  }

  /** Keys other than CGGI's serve a final bootstrap at q only. */
  predicate KeysServe(params: BinFHECryptoParams, mod: int) {
    params.rgsw.variant == GINX || mod == params.lwe.q
  }

  lemma GridScale(mod: int, q: int, beta: int, p: int, width: int)
    requires Grid(mod, q, beta, p, width)
    ensures 2 <= p && 0 < q
  {
    hide IsPow2;
    MulMonotone(2 * beta, 2, p);
  }

  lemma StartRun(run: LoopRun, params: BinFHECryptoParams)
    ensures Reached(run, [], params, run.mod0, run.phase0)
    ensures BaseAt(run.base0, run.dynamic, run.mod0, run.mod0) == run.base0
  {}

  lemma GridPower(mod: int, q: int, beta: int, p: int, width: int)
    requires Grid(mod, q, beta, p, width) && IsPow2(beta)
    ensures IsPow2(mod)
  {
    hide IsPow2;
    TwiceIsPower(beta);
    ProductOfPowers(2 * beta, width);
  }

  /** One more step under the base in use. */
  lemma NextReached(run: LoopRun, steps: seq<FloorData>, d: FloorData, params: BinFHECryptoParams, newMod: int,
                    width: int)
    requires Grid(d.mod, params.lwe.q, run.beta, run.p, width) && params.lwe.q < d.mod
    requires newMod == 2 * run.beta * (width / run.p)
    requires Reached(run, steps, params, d.mod, d.phase) && StepRan(d, params, run.sec, run.beta, run.p)
    requires d.base == BaseAt(run.base0, run.dynamic, d.mod, run.mod0)
    ensures Reached(run, steps + [d], params, newMod, d.next)
  {
    hide IsPow2, Reached, StepRan, BaseAt;
    GridWidth(d.mod, params.lwe.q, run.beta, run.p, width);
    NextModulus(d.mod, params.lwe.q, run.beta, run.p, width);
    ReachedSnoc(run, steps, d, params, newMod);
  }

  /** The last bootstrap: reads the top bit of what is left. */
  method FinalSign(params: BinFHECryptoParams, EKs: map<int, RingGSWBTKey>, curEK: RingGSWBTKey, cttmp: LWECiphertext,
                   beta: int, schemeSwitch: bool, ghost run: LoopRun, ghost t0: SignTrace, ghost width: int)
    returns (r: LWECiphertext, ghost t: SignTrace)
    requires params.Valid() && KeyMap(EKs, params, run.sec) && KeyInUse(params, EKs, curEK) && KeysServe(params, t0.mod)
    requires cttmp.Valid() && |cttmp.a| == |run.sec.s| && t0.mod == cttmp.q && t0.phase == cttmp.Phase(run.sec.s)
    requires Grid(t0.mod, params.lwe.q, run.beta, run.p, width) && t0.mod <= params.lwe.q && IsPow2(run.beta)
    requires beta == run.beta
    requires t0.base == params.rgsw.baseG == BaseAt(run.base0, run.dynamic, t0.mod, run.mod0)
    requires Reached(run, t0.steps, params, t0.mod, t0.phase)
    modifies cttmp`b
    ensures fresh(r) && r.Valid() && r.q == params.lwe.q && |r.a| == |run.sec.s|
    ensures t == t0.(x := t.x) && SignRan(run, t, params, schemeSwitch, r.Phase(run.sec.s))
  {
    hide IsPow2, Pow, GateTable, PhaseOf, PlainPowers, MonomialTable, LogTable, FuncError, KeysFor, Residues,
         Negacyclic, Reached, BaseAt,
         Distance, SignStep, NegatedSignStep, StepWithin, RingGSWCryptoParams.Valid, RoundingSlack;
    var q, mod := params.lwe.q, cttmp.q;
    ghost var s, own := run.sec.s, run.sec.at[params.rgsw.baseG];
    ghost var x := 0;
    BaseTwo(EKs, params, run.sec);
    GridBounds(mod, q, beta, run.p, width);
    GridWidth(mod, q, beta, run.p, width);
    GridAccepts(params);
    FinalAccepts(params, mod, beta, run.p, width);
    SignStepsNegacyclic(mod, q);
    EvalAddConstEq(cttmp, beta, s);
    assert Ready(params, curEK, cttmp, own);
    if !schemeSwitch {
      r, x := MeasuredBootstrap(params, curEK, cttmp, SignStep, q, own);
      ghost var w := r.Phase(s);
      EvalSubConstEq(r, q / 4, s);
      FinalMeasured(params, own, x, cttmp.Phase(s), t0.phase + beta, SignStep(x, mod, q), w, r.Phase(s) + q / 4, mod,
                    q);
    } else {
      r, x := MeasuredBootstrap(params, curEK, cttmp, NegatedSignStep, q, own);
      FinalMeasured(params, own, x, cttmp.Phase(s), t0.phase + beta, NegatedSignStep(x, mod, q), r.Phase(s), r.Phase(s),
                    mod, q);
    }
    t := t0.(x := x);
  }

  /** The bound of the measured step, for a congruent result. */
  lemma FinalMeasured(params: BinFHECryptoParams, sec: Secrets, x: int, y: int, z: int, v: int, w: int, w': int,
                      mod: int, q: int)
    requires params.Valid() && 0 < q && 0 < mod && StepWithin(params, sec, x, y, v, w, mod, q) && y % mod == z % mod
    requires (w' % q == w % q || (w' - q / 4) % q == (w - q / 4) % q)
    ensures 2 <= params.rgsw.baseG && Distance(w', v, q) <= FuncError(params, params.rgsw.baseG, sec, q)
    ensures 0 <= x < mod && Distance(x, z, mod) <= RoundingSlack(params, sec.s)
  {
    hide IsPow2, Pow, GateTable, PlainPowers, MonomialTable, LogTable, FuncError, RoundingSlack, Distance;
    if (w' - q / 4) % q == (w - q / 4) % q {
      ModAddCong(w' - q / 4, w - q / 4, q / 4, q / 4, q);
    }
    ValueCong(w', w, v, q);
    DistanceCong(x, y, z, mod);
  }

  lemma ValueCong(w': int, w: int, v: int, q: int)
    requires 0 < q && w' % q == w % q
    ensures Distance(w', v, q) == Distance(w, v, q)
  {
    ModAddCong(w', w, v, v, q);
  }

  /** Sign evaluation followed by decryption modulo 2 returns the top bit whenever the errors that occurred fit. */
  method DecryptSign(params: BinFHECryptoParams, EKs: map<int, RingGSWBTKey>, ct: LWECiphertext, beta: int,
                     sk: LWEPrivateKey,
                     ghost sec: SecretMap, ghost m: int, ghost E: int)
    returns (result: int, ghost t: SignTrace, ghost out: int)
    requires params.Valid() && KeyMap(EKs, params, sec) && params.rgsw.baseG in EKs && DynamicKeys(EKs)
    requires IsPow2(ct.q) && IsPow2(beta) && 0 < beta && 2 * beta < params.lwe.q < ct.q && sk.Valid()
    requires sk.Signed() == sec.s
    requires KeysServe(params, FinalModulus(ct.q, params.lwe.q, params.lwe.q / (2 * beta)))
    requires 0 <= m < ct.q / (2 * beta) && OnGrid(ct, sec.s, m, beta, E)
    modifies params.rgsw`baseG, params.rgsw`digitsG, params.rgsw`gPower, params.rgsw`gPowerMap
    ensures SignRan(old(LoopOf(params, EKs, ct, beta, sec)), t, params, false, out)
    ensures (SignFits(old(LoopOf(params, EKs, ct, beta, sec)), t, params.lwe.q, E)
             && 4 * FinalError(old(LoopOf(params, EKs, ct, beta, sec)), t, params.lwe.q, false, out) < params.lwe.q) ==>
              result == Bit(m >= ct.q / (4 * beta))
  {
    hide IsPow2, Pow, GateTable, PhaseOf, PlainPowers, MonomialTable, LogTable, FuncError, Close, KeysFor, Residues,
         Encodes, Decodes, SignedValue, KeyMap,
         SignRan, SignFits, FinalError;
    var r;
    ghost var run := LoopOf(params, EKs, ct, beta, sec);
    r, t := EvalSign(params, EKs, ct, beta, false, sec, m, E);
    out := r.Phase(sec.s);
    result := Decrypt(sk, r, 2);
    assert 0 < params.lwe.q && 0 < t.mod by { RanPositive(run, t, params, false, out); }
    ghost var e := FinalError(run, t, params.lwe.q, false, out);
    if SignFits(run, t, params.lwe.q, E) && 4 * e < params.lwe.q {
      EncodedDecodes(r.Phase(sec.s), r.q, Bit(m >= ct.q / (4 * beta)), 2, e);
      assert Decodes(r.Phase(sk.Signed()), Bit(m >= ct.q / (4 * beta)), 2, r.q);
    }
  }

  lemma RanPositive(run: LoopRun, t: SignTrace, params: BinFHECryptoParams, schemeSwitch: bool, out: int)
    requires SignRan(run, t, params, schemeSwitch, out)
    ensures 0 < params.lwe.q && 0 < t.mod
  {}
}
