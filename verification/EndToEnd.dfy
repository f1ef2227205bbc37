/**
  Whole runs: key generation, encryption, homomorphic evaluation and decryption together. Results
  hold for every run whose errors, as they occurred, fit their margin; worst-case budgets known
  before the run follow as special cases, with parameters that meet them.
 */
module EndToEnd {
  import opened Arithmetic
  import opened Gadget
  import opened RgswParams
  import opened RingNoise
  import opened Accumulator
  import opened LweBasics
  import opened Lwe
  import opened KeySwitching
  import AccumulatorCGGI
  import opened Bootstrapping
  import opened GateLogic
  import opened Gates
  import opened Circuits
  import opened LargePrecision
  import opened SignEvaluation
  import opened KeyMaps

  // ---------------------------------------------------------------------------
  // Circuits
  // ---------------------------------------------------------------------------

  /** Encrypts bits over plaintext modulus p; every ciphertext is an object of its own. */
  method EncryptBits(params: BinFHECryptoParams, sk: LWEPrivateKey, bits: seq<bool>, p: nat, vectors: int -> seq<int>,
                     errs: int -> int,
                     ghost sec: Secrets, ghost D: int)
    returns (cts: seq<LWECiphertext>)
    requires sk.Valid() && params.lwe.Valid() && params.lwe.q != params.lwe.Q && sec.s == sk.Signed() && 2 <= p
    requires forall i :: |vectors(i)| == |sk.values| && Residues(vectors(i), params.lwe.q)
                      && Abs(errs(i)) + params.lwe.q % p <= D
    ensures |cts| == |bits| && forall i :: 0 <= i < |cts| ==> fresh(cts[i]) && cts[i].q == params.lwe.q && cts[i].p == p
    ensures forall i, j :: 0 <= i < j < |cts| ==> cts[i] != cts[j]
    ensures forall i :: 0 <= i < |cts| ==> Carries(params, sec, cts[i], Bit(bits[i]), p, D)
  {
    hide PhaseOf, Carries, SignedValue, Residues;
    cts := [];
    for i := 0 to |bits|
      invariant |cts| == i && forall j :: 0 <= j < i ==> fresh(cts[j]) && cts[j].q == params.lwe.q && cts[j].p == p
      invariant forall j, k :: 0 <= j < k < i ==> cts[j] != cts[k]
      invariant forall j :: 0 <= j < i ==> Carries(params, sec, cts[j], Bit(bits[j]), p, D)
    {
      var ct := EncryptBit(params, sk, bits[i], p, vectors(i), errs(i), sec, D);
      cts := cts + [ct];
    }
  }

  method EncryptBit(params: BinFHECryptoParams, sk: LWEPrivateKey, bit: bool, p: nat, a: seq<int>, err: int,
                    ghost sec: Secrets, ghost D: int)
    returns (ct: LWECiphertext)
    requires sk.Valid() && params.lwe.Valid() && params.lwe.q != params.lwe.Q && sec.s == sk.Signed() && 2 <= p
    requires |a| == |sk.values| && Residues(a, params.lwe.q) && Abs(err) + params.lwe.q % p <= D
    ensures fresh(ct) && ct.q == params.lwe.q && ct.p == p && Carries(params, sec, ct, Bit(bit), p, D)
  {
    hide PhaseOf, Encodes, SignedValue;
    ct := Encrypt(sk, if bit then 1 else 0, p, params.lwe.q, a, err);
    FreshEncodes(ct.Phase(sec.s), Bit(bit), p, params.lwe.q, err);
    ModSmall(Bit(bit), p);
    EncodesWiden(ct.Phase(sec.s), params.lwe.q, Bit(bit), p, Abs(err) + params.lwe.q % p, D);
  }

  /**
    Generating a first key without time optimisation, encrypting bits, evaluating a circuit and decrypting
    gives the value of the circuit whenever the worst error that occurred in the run fits the margin of an
    eighth of q; D, any bound on the drawn errors and on the worst case of a refresh, bounds that error.
   */
  method CircuitRun(params: BinFHECryptoParams, sk: LWEPrivateKey, draw: int -> Draws, c: Circuit,
                    bits: seq<bool>, vectors: int -> seq<int>, errs: int -> int,
                    ghost noise: int, ghost ksNoise: int, ghost D: int)
    returns (result: int, ghost n: Node, ghost inputs: seq<Wire>)
    requires params.Valid() && params.rgsw.GadgetReady() && sk.Valid() && |sk.values| == params.lwe.n
    requires forall b :: DrawsOK(draw(b), params, noise, ksNoise)
    requires Suited(params, sk)
    requires params.rgsw.variant == LMKCDEY ==> params.rgsw.numAutoKeys < params.lwe.n
    requires forall i :: |vectors(i)| == |sk.values| && Residues(vectors(i), params.lwe.q) && Abs(errs(i)) <= D
    requires WellFormed(c, |bits|) && Covers(params, SecretsOf(sk, draw(params.rgsw.baseG), noise, ksNoise), D)
    modifies params.rgsw`baseG, params.rgsw`digitsG, params.rgsw`gPower, params.rgsw`gPowerMap
    ensures unchanged(params.rgsw)
    ensures |inputs| == |bits| && RunOf(n, c, inputs) && Followed(n, params, sk.Signed())
    ensures Bounds(n, params, sk.Signed(), bits, D, RoundingSlack(params, sk.Signed()))
    ensures Fits(n, params, sk.Signed(), bits) ==> result == Bit(Value(c, bits))
    ensures 2 <= params.rgsw.baseG
    ensures Roomy(params, SecretsOf(sk, draw(params.rgsw.baseG), noise, ksNoise), params.rgsw.baseG, D) ==>
              result == Bit(Value(c, bits))
  {
    hide KeysFor, Suited, Carries, SignedValue, GateError, DrawsOK, RoundingSlack, GateTable, PlainPowers,
         MonomialTable, LogTable, IsPow2, Pow, Residues, Followed, Bounds, Fits, RunOf, Value, Bit, Roomy,
         BinFHECryptoParams.Valid, RingGSWCryptoParams.GadgetReady;
    ghost var sec := SecretsOf(sk, draw(params.rgsw.baseG), noise, ksNoise);
    DifferentModuli(params);
    assert params.lwe.Valid() by { LweValid(params); }
    QuarterExact(params.lwe.q);
    var keyMap, EK := BTKeyGen(params, sk, false, map[], draw, noise, ksNoise);
    var cts := EncryptBits(params, sk, bits, 4, vectors, errs, sec, D);
    inputs := Wires(cts, params.lwe.Q);
    SmallInputs(params, sec, cts, bits, D);
    result, n := DecryptCircuit(params, EK, sk, c, cts, sec, bits, D);
    if Roomy(params, sec, params.rgsw.baseG, D) {
      RoomyFits(n, params, sec, bits, D);
    }
  }

  lemma SmallInputs(params: BinFHECryptoParams, sec: Secrets, cts: seq<LWECiphertext>, bits: seq<bool>, D: int)
    requires params.lwe.q != params.lwe.Q && |cts| == |bits|
    requires forall i :: 0 <= i < |cts| ==> cts[i].q == params.lwe.q && Carries(params, sec, cts[i], Bit(bits[i]), 4, D)
    ensures forall i :: 0 <= i < |cts| ==> InputOk(params, sec, cts[i], bits[i], D)
  {
    hide Encodes, Residues, PhaseOf;
  }

  lemma QuarterExact(q: int)
    ensures q % 8 == 0 ==> q % 4 == 0
  {
    if q % 8 == 0 {
      EightDivides(q);
    }
  }

  lemma LweValid(params: BinFHECryptoParams)
    requires params.Valid()
    ensures params.lwe.Valid()
  {
    hide GateTable, PlainPowers, MonomialTable, LogTable, IsPow2, Pow;
  }

  // ---------------------------------------------------------------------------
  // Gates on vectors
  // ---------------------------------------------------------------------------

  /** Conjunction for AND3 and AND4, disjunction for OR3 and OR4, the median for MAJORITY. */
  predicate VectorMeaning(g: BinGate, bits: seq<bool>) {
    if g in {AND3, AND4} then forall i :: 0 <= i < |bits| ==> bits[i]
    else if g == MAJORITY then |bits| == 3 && AtLeastTwo(bits[0], bits[1], bits[2])
    else exists i :: 0 <= i < |bits| && bits[i]
  }

  /**
    Encrypting bits over the gate's plaintext modulus p (6 for AND3 and OR3, 8 for AND4 and OR4, 4 for
    MAJORITY), evaluating the gate and decrypting modulo p gives the conjunction, disjunction or median
    of the bits, if the drawn errors, each with the q mod p that p leaves of q, fit the gate's margin and
    the output's error, as it occurred, stays below q/2p.
   */
  method VectorRun(params: BinFHECryptoParams, EK: RingGSWBTKey, sk: LWEPrivateKey, g: BinGate, bits: seq<bool>,
                   vectors: int -> seq<int>, errs: int -> int, ghost sec: Secrets, ghost D: int)
    returns (result: int, ghost run: GateRun, ghost phase: int)
    requires params.Valid() && KeysFor(EK, params, params.rgsw.baseG, sec) && sk.Valid() && sec.s == sk.Signed()
    requires |sk.values| == params.lwe.n
    requires g in {MAJORITY, AND3, OR3, AND4, OR4} && |bits| == Arity(g)
    requires forall i :: |vectors(i)| == |sk.values| && Residues(vectors(i), params.lwe.q)
                      && Abs(errs(i)) + params.lwe.q % GatePlain(g) <= D
    requires GateMargin(g, params.lwe.q, |bits| * D + RoundingSlack(params, sec.s))
    ensures Ran(params, g, sec, run, GatePlain(g), HalfGap(params.lwe.Q, GatePlain(g)))
    ensures DownChain(params, sec, run.ext, phase)
    ensures run.bit == VectorMeaning(g, bits)
    ensures ErrorOf(phase, params.lwe.q, Bit(run.bit), GatePlain(g)) <= GateError(params, params.rgsw.baseG, sec, false)
    ensures 2 * (GatePlain(g) * ErrorOf(phase, params.lwe.q, Bit(run.bit), GatePlain(g))) < params.lwe.q ==>
              result == Bit(VectorMeaning(g, bits))
  {
    hide KeysFor, SignedValue, GateError, RoundingSlack, Residues, Ran, BinFHECryptoParams.Valid, DownChain, ErrorOf,
         GateMargin, SumError, Bits,
         VectorMeaning, Carries;
    DifferentModuli(params);
    assert params.lwe.Valid() by { LweValid(params); }
    var cts := EncryptBits(params, sk, bits, GatePlain(g), vectors, errs, sec, D);
    AllCarry(params, sec, cts, bits, GatePlain(g), D);
    result, run, phase := VectorEval(params, EK, sk, g, cts, sec, bits, D);
  }

  /** The part after encryption. */
  method VectorEval(params: BinFHECryptoParams, EK: RingGSWBTKey, sk: LWEPrivateKey, g: BinGate,
                    cts: seq<LWECiphertext>,
                    ghost sec: Secrets, ghost bits: seq<bool>, ghost D: int)
    returns (result: int, ghost run: GateRun, ghost phase: int)
    requires params.Valid() && KeysFor(EK, params, params.rgsw.baseG, sec) && sk.Valid() && sec.s == sk.Signed()
    requires |sk.values| == params.lwe.n
    requires g in {MAJORITY, AND3, OR3, AND4, OR4} && |cts| == |bits| == Arity(g)
    requires forall i :: 0 <= i < |cts| ==> cts[i].p == GatePlain(g)
    requires forall i, j :: 0 <= i < j < |cts| ==> cts[i] != cts[j]
    requires CarriesAll(params, sec, cts, Bits(bits), GatePlain(g), seq(|bits|, _ => D), D)
    requires GateMargin(g, params.lwe.q, |bits| * D + RoundingSlack(params, sec.s))
    ensures Ran(params, g, sec, run, GatePlain(g), HalfGap(params.lwe.Q, GatePlain(g)))
    ensures DownChain(params, sec, run.ext, phase)
    ensures run.bit == VectorMeaning(g, bits)
    ensures ErrorOf(phase, params.lwe.q, Bit(run.bit), GatePlain(g)) <= GateError(params, params.rgsw.baseG, sec, false)
    ensures 2 * (GatePlain(g) * ErrorOf(phase, params.lwe.q, Bit(run.bit), GatePlain(g))) < params.lwe.q ==>
              result == Bit(VectorMeaning(g, bits))
  {
    hide KeysFor, SignedValue, GateError, RoundingSlack, Residues, PhaseOf, Ran, BinFHECryptoParams.Valid, DownChain,
         ErrorOf, Encodes,
         GateMargin, Total, GateBit, SumError, Bits, VectorMeaning, CarriesAll;
    var r;
    r, run := EvalBinGateVector(params, g, EK, cts, false, sec, Bits(bits), seq(|bits|, _ => D), D);
    phase := r.Phase(sec.s);
    RanInput(params, g, sec, run, GatePlain(g));
    VectorInput(params, g, sec, run, bits, |bits| * D);
    DifferentModuli(params);
    KeySizes(EK, params, params.rgsw.baseG, sec);
    result := DecryptBit(sk, r, GatePlain(g), run.bit, GateError(params, params.rgsw.baseG, sec, false));
  }

  /** A bit decrypts whenever the error it carries, as it is, stays below q/2p. */
  method DecryptBit(sk: LWEPrivateKey, r: LWECiphertext, p: nat, ghost bit: bool, ghost worst: int)
    returns (result: int)
    requires sk.Valid() && r.Valid() && |r.a| == |sk.values| && 2 <= p
    requires Encodes(r.Phase(sk.Signed()), r.q, Bit(bit), p, worst)
    ensures ErrorOf(r.Phase(sk.Signed()), r.q, Bit(bit), p) <= worst
    ensures 2 * (p * ErrorOf(r.Phase(sk.Signed()), r.q, Bit(bit), p)) < r.q ==> result == Bit(bit)
  {
    hide SignedValue, Residues, PhaseOf, ErrorOf, Encodes, Decodes;
    ghost var phase, e := r.Phase(sk.Signed()), ErrorOf(r.Phase(sk.Signed()), r.q, Bit(bit), p);
    result := Decrypt(sk, r, p);
    ErrorOfExact(phase, r.q, Bit(bit), p, worst);
    if 2 * (p * e) < r.q {
      ErrorOfExact(phase, r.q, Bit(bit), p, e);
      EncodedDecodes(phase, r.q, Bit(bit), p, e);
    }
  }

  lemma AllCarry(params: BinFHECryptoParams, sec: Secrets, cts: seq<LWECiphertext>, bits: seq<bool>, p: int, D: int)
    requires params.lwe.q != params.lwe.Q && |cts| == |bits|
    requires forall i :: 0 <= i < |cts| ==> cts[i].q == params.lwe.q && Carries(params, sec, cts[i], Bit(bits[i]), p, D)
    ensures CarriesAll(params, sec, cts, Bits(bits), p, seq(|bits|, _ => D), D)
  {
    hide Carries;
  }

  lemma RanInput(params: BinFHECryptoParams, g: BinGate, sec: Secrets, run: GateRun, p: int)
    requires 0 < p && Ran(params, g, sec, run, p, HalfGap(params.lwe.Q, p))
    ensures 0 < params.lwe.q && run.sum.Ok(|sec.s|, params.lwe.q)
  {
    hide Holds, GateOutput, AccNoise, Residues, HalfGap;
  }

  /** An input sum known to be within the margin is read correctly. */
  lemma VectorInput(params: BinFHECryptoParams, g: BinGate, sec: Secrets, run: GateRun, bits: seq<bool>, E: int)
    requires params.Valid() && g in {MAJORITY, AND3, OR3, AND4, OR4} && |bits| == Arity(g)
    requires 0 < params.lwe.q && run.sum.Ok(|sec.s|, params.lwe.q)
    requires Encodes(run.sum.Phase(sec.s), params.lwe.q, Total(Bits(bits), |bits|), GatePlain(g), E)
    requires GateMargin(g, params.lwe.q, E + RoundingSlack(params, sec.s))
    requires var M := Total(Bits(bits), |bits|);
             GateMargin(g, params.lwe.q, SumError(params, g, run.sum, sec.s, M)) ==> run.bit == GateBit(g, M)
    ensures run.bit == VectorMeaning(g, bits)
  {
    hide GateTable, PlainPowers, MonomialTable, LogTable, IsPow2, Pow, Encodes, PhaseOf, SumError, Residues,
         RoundingSlack, GateBit, Total, Bits;
    EvenDivisor(params);
    var M := Total(Bits(bits), |bits|);
    SumErrorBound(params, g, run.sum, sec.s, M, E);
    MarginWeaken(g, params.lwe.q, SumError(params, g, run.sum, sec.s, M), E + RoundingSlack(params, sec.s));
    VectorGate(g, bits);
  }

  lemma MarginWeaken(g: BinGate, q: int, e: int, E: int)
    requires 0 <= e <= E && GateMargin(g, q, E)
    ensures GateMargin(g, q, e)
  {
    MulMonotone(GateNumerator(g).1, e, E);
  }

  // ---------------------------------------------------------------------------
  // Sign evaluation
  // ---------------------------------------------------------------------------

  /** The loop is that of a run with these keys, at this modulus and scale, from the base in use. */
  ghost predicate LoopSetUp(run: LoopRun, params: BinFHECryptoParams, s: seq<int>, mod: int, beta: int, base: int,
                            tables: map<int, seq<int>>) {
    && 0 < beta && run.sec.s == s && run.sec.at.Keys == tables.Keys && run.beta == beta
    && run.p == params.lwe.q / (2 * beta)
    && run.base0 == base && run.dynamic == (|tables| == 3) && run.mod0 == mod
  }

  /**
    Generating the key map, encrypting a message and evaluating its sign gives its top bit whenever the
    errors that occurred fit below beta, and in particular within a budget for the pairs of base and
    modulus that the run visits.
   */
  method SignRun(params: BinFHECryptoParams, sk: LWEPrivateKey, draw: int -> Draws, mod: int, beta: int, m: nat,
                 a: seq<int>, err: int,
                 ghost noise: int, ghost ksNoise: int, ghost E: int, ghost D: int)
    returns (result: int, ghost run: LoopRun, ghost t: SignTrace, ghost out: int)
    requires params.Valid() && params.rgsw.GadgetReady() && sk.Valid() && |sk.values| == params.lwe.n
    requires (forall b :: DrawsOK(draw(b), params, noise, ksNoise)) && Suited(params, sk)
    requires params.rgsw.variant == LMKCDEY ==> params.rgsw.numAutoKeys < params.lwe.n
    requires MapReady(params.rgsw.gPowerMap, params.rgsw.Q)
    requires {16384, 262144, 134217728} <= params.rgsw.gPowerMap.Keys
    requires params.rgsw.baseG in params.rgsw.gPowerMap
    requires IsPow2(mod) && IsPow2(beta) && 0 < beta && 2 * beta < params.lwe.q < mod && m < mod / (2 * beta)
    requires KeysServe(params, FinalModulus(mod, params.lwe.q, params.lwe.q / (2 * beta)))
    requires |a| == |sk.values| && Residues(a, mod) && Abs(err) <= E
    modifies params.rgsw`baseG, params.rgsw`digitsG, params.rgsw`gPower, params.rgsw`gPowerMap
    ensures LoopSetUp(run, params, sk.Signed(), mod, beta, old(params.rgsw.baseG), old(params.rgsw.gPowerMap))
    ensures run.sec.at == map b | b in old(params.rgsw.gPowerMap) :: SecretsOf(sk, draw(b), noise, ksNoise)
    ensures SignRan(run, t, params, false, out) && 0 < 4 * beta
    ensures SignFits(run, t, params.lwe.q, E) && 4 * FinalError(run, t, params.lwe.q, false, out) < params.lwe.q ==>
              result == Bit(m >= mod / (4 * beta))
    ensures Budget(run, params, E, D) ==> result == Bit(m >= mod / (4 * beta))
  {
    hide KeysFor, SignedValue, FuncError, StepNoise, DrawsOK, GateTable, PlainPowers, MonomialTable, LogTable, IsPow2,
         Pow, Residues,
         AccumulatorCGGI.IsTernary, PhaseOf, Close, MapReady, GadgetPowers, KeyMap, SecretsOf,
         RingGSWCryptoParams.Valid, RingGSWCryptoParams.GadgetReady,
         SignRan, SignFits, FinalError, FinalModulus, Budget, Bit;
    ghost var tables, base := params.rgsw.gPowerMap, params.rgsw.baseG;
    assert IsPow2(params.lwe.q) by { PowerModulus(params); }
    assert tables != map[];
    var EKs, btKey := BTKeyGen(params, sk, true, map[], draw, noise, ksNoise);
    ghost var sec := SecretMap(sk.Signed(), map b | b in EKs :: SecretsOf(sk, draw(b), noise, ksNoise));
    assert EKs.Keys == tables.Keys;
    SameSize(EKs, tables);
    var ct := EncryptOnGrid(sk, m, mod, beta, a, err, params.lwe.q, E);
    assert DynamicKeys(EKs) by { assert 134217728 in tables.Keys && 262144 in tables.Keys; }
    run := LoopOf(params, EKs, ct, beta, sec);
    result, t, out := DecryptSign(params, EKs, ct, beta, sk, sec, m, E);
    assert 0 < params.lwe.q && 0 < t.mod by { RanPositive(run, t, params, false, out); }
    if Budget(run, params, E, D) {
      BudgetSign(run, t, params, false, out, E, D);
    }
  }

  lemma SameSize(EKs: map<int, RingGSWBTKey>, tables: map<int, seq<int>>)
    requires EKs.Keys == tables.Keys
    ensures |EKs| == |tables|
  {
    assert |EKs| == |EKs.Keys| && |tables| == |tables.Keys|;
  }

  lemma PowerModulus(params: BinFHECryptoParams)
    requires params.Valid()
    ensures IsPow2(params.lwe.q)
  {
    hide IsPow2, Pow;
  }

  method EncryptOnGrid(sk: LWEPrivateKey, m: nat, mod: int, beta: int, a: seq<int>, err: int, ghost q: int,
                       ghost E: int)
    returns (ct: LWECiphertext)
    requires sk.Valid() && IsPow2(mod) && IsPow2(beta) && IsPow2(q) && 0 < beta && 2 * beta < q < mod
    requires m < mod / (2 * beta)
    requires |a| == |sk.values| && Residues(a, mod) && Abs(err) <= E
    ensures fresh(ct) && ct.q == mod && OnGrid(ct, sk.Signed(), m, beta, E)
  {
    hide IsPow2, SignedValue, PhaseOf, Close;
    GridOf(mod, q, beta);
    TwiceIsPower(beta);
    PowersDivide(mod, 2 * beta);
    ct := Encrypt(sk, m, mod / (2 * beta), mod, a, err);
    FreshOnGrid(ct, sk.Signed(), m, beta, err);
    CloseMono(ct.Phase(sk.Signed()), 2 * beta * m, Abs(err), E, mod);
  }

  // ---------------------------------------------------------------------------
  // Parameters for which the worst-case budgets are met
  // ---------------------------------------------------------------------------

  lemma ExactDigits(modulus: int, base: nat, k: nat)
    requires 2 <= base && 1 <= k && modulus <= Pow(base, k) && Pow(base, k - 1) < modulus
    ensures DigitCount(modulus, base) == k
  {
    var L := DigitCount(modulus, base);
    if L < k {
      PowMonotone(base, L, k - 1);
    }
  }

  lemma PowersUpTo(base: nat, p2: int, p3: int, p4: int, p5: int)
    requires p2 == base * base && p3 == base * p2 && p4 == base * p3 && p5 == base * p4
    ensures Pow(base, 1) == base && Pow(base, 2) == p2 && Pow(base, 3) == p3 && Pow(base, 4) == p4 && Pow(base, 5) == p5
  {
    assert Pow(base, 1) == base * Pow(base, 0);
    assert Pow(base, 2) == base * Pow(base, 1);
    assert Pow(base, 3) == base * Pow(base, 2);
    assert Pow(base, 4) == base * Pow(base, 3);
    assert Pow(base, 5) == base * Pow(base, 4);
  }

  /** The switching table of both examples: modulus 2^35 in base 2^5. */
  lemma SwitchingDigits()
    ensures DigitCount(34359738368, 32) == 7
  {
    hide DigitCount;
    PowersUpTo(32, 1024, 32768, 1048576, 33554432);
    assert Pow(32, 6) == 32 * Pow(32, 5) && Pow(32, 7) == 32 * Pow(32, 6);
    ExactDigits(34359738368, 32, 7);
  }

  /** One CGGI blind rotation for n entries, with L digits and gadget error at most g. */
  lemma AccNoiseExample(params: BinFHECryptoParams, sec: Secrets, base: nat, L: nat, g: int, n: nat)
    requires params.rgsw.variant == GINX && params.rgsw.N == 1024 && 2 <= base && 1 <= L
    requires DigitCount(params.rgsw.Q, base) == L
    requires |sec.s| == n && 0 <= Norm1(sec.z) <= 1024 && 0 <= sec.noise
    requires 0 <= GadgetError(params.rgsw.Q, base, L) <= g
    ensures 0 <= AccNoise(params, base, sec) <= n * (4 * (2 * (L - 1) * (1024 * (base / 2) * sec.noise) + g * 1025))
  {
    hide Norm1, GadgetError, DigitCount;
    var e, w := GadgetError(params.rgsw.Q, base, L), Norm1(sec.z);
    MulNonNeg(e, 1 + w);
    MulMonotone(e, 1 + w, 1025);
    MulMonotone(1025, e, g);
    MulNonNeg(1024 * (base / 2), sec.noise);
    MulNonNeg(2 * (L - 1), 1024 * (base / 2) * sec.noise);
    var eps, eps' := ContextAt(params, base, sec).Eps(), 2 * (L - 1) * (1024 * (base / 2) * sec.noise) + g * 1025;
    assert 0 <= eps <= eps';
    MulNonNeg(n, 4 * eps);
    MulMonotone(n, 4 * eps, 4 * eps');
  }

  /** Q just below a power of the base. */
  lemma TightGadget(Q: int, base: nat, L: nat, top: int)
    requires Pow(base, L) == top && Q <= top
    ensures 0 <= GadgetError(Q, base, L) <= base / 2 + top - Q
  {
    hide MaxDigits;
  }

  /** The chain into modulus M from N = 1024, with secrets of norm at most z and s. */
  lemma SwitchedExample(lwe: LWECryptoParams, M: int, zNorm: int, sNorm: int, z: int, s: int, noise: int, e: int,
                        e': int, D: int)
    requires lwe.N == 1024 && lwe.qKS == 34359738368 && lwe.baseKS == 32 && DigitCount(34359738368, 32) == 7
    requires 0 < M && 0 < lwe.Q && 0 <= zNorm <= z && 0 <= sNorm <= s && 0 <= noise && 0 <= e <= e'
    requires lwe.Q * (M * (1 + z) + 34359738368 * (1 + s) + 2 * M * (7168 * noise)) + 68719476736 * M * e'
          <= D * (68719476736 * lwe.Q)
    ensures SwitchedError(lwe, lwe.Q, M, zNorm, sNorm, noise, e) <= D
  {
    hide DigitCount;
    var c := ChainError(lwe, M, zNorm, sNorm, noise);
    var c' := M * (1 + z) + 34359738368 * (1 + s) + 2 * M * (7168 * noise);
    assert TableError(lwe, noise) == 7168 * noise;
    MulMonotone(M, 1 + zNorm, 1 + z);
    assert c <= c';
    MulMonotone(lwe.Q, c, c');
    assert 68719476736 * M * e == 2 * lwe.qKS * M * e;
    MulNonNeg(68719476736 - 1, M);
    MulMonotone(68719476736 * M, e, e');
    var x, y := lwe.Q * c + 2 * lwe.qKS * M * e, 2 * lwe.Q * lwe.qKS;
    assert y == 68719476736 * lwe.Q;
    CeilDivBound(x, y);
    assert D * y == y * D;
    assert y * (D + 1) == y * D + y;
    FactorLess(y, SwitchedError(lwe, lwe.Q, M, zNorm, sNorm, noise, e), D + 1);
  }

  /**
    Gates: the worst case leaves room for every ternary key and all errors up to 19 when n = 100,
    N = 1024, q = 2048, Q is the largest 50-bit prime that is 1 modulo 2N, the gadget base is 2^10 and
    the switching table has modulus 2^35 and base 2^5.
   */
  lemma RoomyExample(params: BinFHECryptoParams, sec: Secrets)
    requires params.rgsw.variant == GINX && params.rgsw.N == 1024 && params.rgsw.Q == 1125899906826241
    requires params.lwe == LWECryptoParams(100, 1024, 2048, 1125899906826241, 34359738368, 32)
    requires |sec.s| == 100 && AbsSum(sec.s, 100) <= 100 && |sec.z| == 1024 && AbsSum(sec.z, 1024) <= 1024
    requires sec.noise == 19 && sec.ksNoise == 19
    ensures Roomy(params, sec, 1024, 60)
  {
    hide AbsSum, Pow, DigitCount, AccNoise, SwitchedError;
    PowersUpTo(1024, 1048576, 1073741824, 1099511627776, 1125899906842624);
    ExactDigits(1125899906826241, 1024, 5);
    SwitchingDigits();
    TightGadget(1125899906826241, 1024, 5, 1125899906842624);
    AccNoiseExample(params, sec, 1024, 5, 16895, 100);
    SwitchedExample(params.lwe, 2048, AbsSum(sec.z, 1024), AbsSum(sec.s, 100), 1024, 100, 19,
                    AccNoise(params, 1024, sec) + 2,
                    100 * (4 * (2 * 4 * (1024 * 512 * 19) + 16895 * 1025)) + 2, 60);
  }

  /** Secrets of the sign example: 16 ternary entries, errors of at most 1. */
  ghost predicate SmallSecrets(sec: Secrets) {
    && |sec.s| == 16 && AbsSum(sec.s, 16) <= 16 && |sec.z| == 1024 && AbsSum(sec.z, 1024) <= 1024 && sec.noise == 1
    && sec.ksNoise == 1
  }

  /** One bootstrap of the sign example into modulus M. */
  lemma FuncExample(params: BinFHECryptoParams, sec: Secrets, base: nat, L: nat, g: int, M: int, D: int)
    requires params.rgsw.variant == GINX && params.rgsw.N == 1024 && params.rgsw.Q == 18014398509404161
    requires params.lwe == LWECryptoParams(16, 1024, 2048, 18014398509404161, 34359738368, 32)
    requires SmallSecrets(sec) && 2 <= base && 1 <= L && DigitCount(18014398509404161, base) == L
    requires 0 <= GadgetError(18014398509404161, base, L) <= g && 0 < M
    requires var e := 16 * (4 * (2 * (L - 1) * (1024 * (base / 2)) + g * 1025)) + 2 * M;
             18014398509404161 * (M * 1025 + 34359738368 * 17 + 2 * M * 7168) + 68719476736 * M * e
             <= D * (68719476736 * 18014398509404161)
    ensures FuncError(params, base, sec, M) <= D
  {
    hide AbsSum, DigitCount, AccNoise, SwitchedError, GadgetError;
    SwitchingDigits();
    AccNoiseExample(params, sec, base, L, g, 16);
    var e := 16 * (4 * (2 * (L - 1) * (1024 * (base / 2)) + g * 1025)) + 2 * M;
    assert 0 <= AccNoise(params, base, sec) + 2 * (params.lwe.Q % M) <= e;
    SwitchedExample(params.lwe, M, AbsSum(sec.z, 1024), AbsSum(sec.s, 16), 1024, 16, 1,
                    AccNoise(params, base, sec) + 2 * (params.lwe.Q % M), e, D);
  }

  lemma SignBaseDigits()
    ensures DigitCount(18014398509404161, 16384) == 4 && 0 <= GadgetError(18014398509404161, 16384, 4) <= 8192
    ensures DigitCount(18014398509404161, 262144) == 3 && 0 <= GadgetError(18014398509404161, 262144, 3) <= 208895
    ensures DigitCount(18014398509404161, 134217728) == 2
    ensures 0 <= GadgetError(18014398509404161, 134217728, 2) <= 67186687
  {
    hide DigitCount;
    PowersUpTo(16384, 268435456, 4398046511104, 72057594037927936, 16384 * 72057594037927936);
    ExactDigits(18014398509404161, 16384, 4);
    assert MaxDigits(16384, 1) == 8191 && MaxDigits(16384, 2) == 8191 + 8191 * 16384 by { assert Pow(16384, 0) == 1; }
    assert MaxDigits(16384, 3) == MaxDigits(16384, 2) + 8191 * 268435456;
    assert MaxDigits(16384, 4) == MaxDigits(16384, 3) + 8191 * 4398046511104;
    PowersUpTo(262144, 68719476736, 18014398509481984, 262144 * 18014398509481984,
               262144 * (262144 * 18014398509481984));
    ExactDigits(18014398509404161, 262144, 3);
    TightGadget(18014398509404161, 262144, 3, 18014398509481984);
    PowersUpTo(134217728, 18014398509481984, 134217728 * 18014398509481984, 134217728 * (134217728 * 18014398509481984),
               134217728 * (134217728 * (134217728 * 18014398509481984)));
    ExactDigits(18014398509404161, 134217728, 2);
    TightGadget(18014398509404161, 134217728, 2, 18014398509481984);
  }

  lemma LogsExample()
    ensures CeilLog2(67108864) == 26 && CeilLog2(8388608) == 23 && CeilLog2(1048576) == 20
    ensures CeilLog2(131072) == 17 && CeilLog2(16384) == 14 && CeilLog2(2048) == 11
  {
    hide DigitCount;
    PowersUpTo(2, 4, 8, 16, 32);
    PowAdd(2, 5, 5);
    PowAdd(2, 10, 1);
    PowAdd(2, 11, 3);
    PowAdd(2, 14, 3);
    PowAdd(2, 17, 3);
    PowAdd(2, 20, 3);
    PowAdd(2, 23, 3);
    BinLogsAgree(26);
    BinLogsAgree(23);
    BinLogsAgree(20);
    BinLogsAgree(17);
    BinLogsAgree(14);
    BinLogsAgree(11);
  }

  /**
    Sign evaluation with keys for all three bases: for n = 16, N = 1024, q = 2048, Q the largest 54-bit
    prime that is 1 modulo 2N, beta = 128 and messages modulo 2^26, a run visits base 2^14 at 2^26, base
    2^18 at 2^23 and 2^20, base 2^27 at 2^17 and 2^14, and base 2^27 into q at the end; the worst case
    leaves room for every ternary key and all errors up to 1.
   */
  lemma SignExample(run: LoopRun, params: BinFHECryptoParams)
    requires params.rgsw.variant == GINX && params.rgsw.N == 1024 && params.rgsw.Q == 18014398509404161
    requires params.lwe == LWECryptoParams(16, 1024, 2048, 18014398509404161, 34359738368, 32)
    requires run.beta == 128 && run.p == 8 && run.base0 == 16384 && run.dynamic && run.mod0 == 67108864
    requires |run.sec.s| == 16 && AbsSum(run.sec.s, 16) <= 16
    requires run.sec.at.Keys == {16384, 262144, 134217728}
    requires forall b :: b in run.sec.at ==> SmallSecrets(run.sec.at[b])
    ensures Budget(run, params, 21, 105)
  {
    hide AbsSum, DigitCount, FuncError, GadgetError, SmallSecrets, CeilLog2;
    SignBaseDigits();
    LogsExample();
    assert 16384 in run.sec.at.Keys && 262144 in run.sec.at.Keys && 134217728 in run.sec.at.Keys;
    FuncExample(params, run.sec.at[16384], 16384, 4, 8192, 67108864, 105);
    FuncExample(params, run.sec.at[262144], 262144, 3, 208895, 8388608, 105);
    FuncExample(params, run.sec.at[262144], 262144, 3, 208895, 1048576, 105);
    FuncExample(params, run.sec.at[134217728], 134217728, 2, 67186687, 131072, 105);
    FuncExample(params, run.sec.at[134217728], 134217728, 2, 67186687, 16384, 105);
    FuncExample(params, run.sec.at[134217728], 134217728, 2, 67186687, 2048, 105);
    assert Affordable(run, params, 2048, 105);
    assert Affordable(run, params, 16384, 105);
    assert Affordable(run, params, 131072, 105);
    assert Affordable(run, params, 1048576, 105);
    assert Affordable(run, params, 8388608, 105);
    StepNoiseMonotone(8, 8 * (1 + AbsSum(run.sec.s, 16)), 136, 105, 105);
  }
}
