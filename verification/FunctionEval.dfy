/**
  Evaluation of arbitrary functions given by tables (src/binfhe/lib/binfhe-base-scheme.cpp:244-332,
  src/binfhe/include/binfhe-base-scheme.h:245-260, src/binfhe/lib/binfhecontext.cpp:366-381).
 */
module FunctionEval {
  import opened Arithmetic
  import opened RgswParams
  import opened LweBasics
  import opened Lwe
  import opened KeySwitching
  import opened Bootstrapping

  // ---------------------------------------------------------------------------
  // Tables
  // ---------------------------------------------------------------------------

  /** The second half of the table is the negation of the first. */
  predicate NegacyclicTable(lut: seq<int>, mod: int) {
    && 1 <= |lut| && lut[0] == mod - lut[|lut| / 2]
    && forall i :: 1 <= i < |lut| / 2 ==> lut[i] == mod - lut[|lut| / 2 + i]
  }

  /** The second half of the table repeats the first. */
  predicate PeriodicTable(lut: seq<int>) {
    1 <= |lut| && lut[0] == lut[|lut| / 2] && forall i :: 1 <= i < |lut| / 2 ==> lut[i] == lut[|lut| / 2 + i]
  }

  /**
    0 for negacyclic tables, 1 for periodic ones, 2 otherwise. A periodic table that starts with
    half of the modulus passes the first test of the negacyclic case and is treated as arbitrary.
   */
  method CheckInputFunction(lut: seq<int>, mod: int) returns (kind: int)
    requires 1 <= |lut|
    ensures kind == 0 || kind == 1 || kind == 2
    ensures kind == 0 <==> NegacyclicTable(lut, mod)
    ensures kind == 1 <==> PeriodicTable(lut) && lut[0] != mod - lut[|lut| / 2]
  {
    var mid := |lut| / 2;
    if lut[0] == mod - lut[mid] {
      var i := 1;
      while i < mid
        invariant 1 <= i && forall j :: 1 <= j < i && j < mid ==> lut[j] == mod - lut[mid + j]
      {
        if lut[i] != mod - lut[mid + i] {
          return 2;
        }
        i := i + 1;
      }
      return 0;
    }
    if lut[0] == lut[mid] {
      var i := 1;
      while i < mid
        invariant 1 <= i && forall j :: 1 <= j < i && j < mid ==> lut[j] == lut[mid + j]
      {
        if lut[i] != lut[mid + i] {
          return 2;
        }
        i := i + 1;
      }
      return 1;
    }
    return 2;
  }

  /** Which kind CheckInputFunction assigns. */
  function TableKind(lut: seq<int>, mod: int): int
    requires 1 <= |lut|
  {
    if NegacyclicTable(lut, mod) then 0
    else if PeriodicTable(lut) && lut[0] != mod - lut[|lut| / 2] then 1
    else 2
  }

  /** Every entry is half of the modulus. */
  predicate AllHalves(lut: seq<int>, mod: int) {
    forall i :: 0 <= i < |lut| ==> 2 * lut[i] == mod
  }

  lemma PeriodicHalves(lut: seq<int>, mod: int)
    requires 2 <= |lut| && |lut| % 2 == 0 && PeriodicTable(lut)
    ensures NegacyclicTable(lut, mod) <==> AllHalves(lut, mod)
  {
    var h := |lut| / 2;
    assert forall i :: 0 <= i < h ==> lut[i] == lut[h + i];
    if NegacyclicTable(lut, mod) {
      assert forall i :: 0 <= i < h ==> lut[i] == mod - lut[h + i];
      forall i | 0 <= i < |lut|
        ensures 2 * lut[i] == mod
      {
        var j := if i < h then i else i - h;
        assert lut[j] == mod - lut[h + j] && lut[j] == lut[h + j];
      }
    }
  }

  /**
    A periodic table is recognised as such exactly when its first entry is not half of the modulus. One
    that does start there is negacyclic if all its entries are the same half, and is otherwise taken
    for an arbitrary table.
   */
  lemma PeriodicKind(lut: seq<int>, mod: int)
    requires 2 <= |lut| && |lut| % 2 == 0 && PeriodicTable(lut)
    ensures TableKind(lut, mod) == 1 <==> 2 * lut[0] != mod
    ensures TableKind(lut, mod) == 0 <==> AllHalves(lut, mod)
    ensures TableKind(lut, mod) == 2 <==> 2 * lut[0] == mod && !AllHalves(lut, mod)
  {
    PeriodicHalves(lut, mod);
    assert lut[0] == lut[|lut| / 2];
    assert AllHalves(lut, mod) ==> 2 * lut[0] == mod;
  }

  /** EvalFunc refuses arbitrary tables when the modulus exceeds the ring dimension. */
  predicate Evaluable(lut: seq<int>, q: int, N: nat)
    requires 1 <= |lut|
  {
    TableKind(lut, q) == 2 ==> q <= N
  }

  /**
    So a periodic table is evaluated if and only if it does not start with half of the modulus, or is
    that half throughout, or the modulus is at most N.
   */
  lemma PeriodicEvaluable(lut: seq<int>, q: int, N: nat)
    requires 2 <= |lut| && |lut| % 2 == 0 && PeriodicTable(lut)
    ensures Evaluable(lut, q, N) <==> 2 * lut[0] != q || AllHalves(lut, q) || q <= N
  {
    PeriodicKind(lut, q);
  }

  /** Entry i of the table, for arguments in range. */
  function At(lut: seq<int>, i: int): int {
    if 0 <= i < |lut| then lut[i] else 0
  }

  /** Reads the table directly. */
  function Reader(lut: seq<int>): Func {
    (x, q, Q) => At(lut, x)
  }

  /** Reads the table on the first half circle and its negation on the second. */
  function Folded(lut: seq<int>): Func {
    (x, q, Q) => if x < q / 2 then At(lut, x) else Q - At(lut, x - q / 2)
  }

  /** Minus a quarter on the first half circle, plus a quarter on the second. */
  function QuarterStep(x: int, q: int, Q: int): int {
    if x < q / 2 then Q - q / 4 else q / 4
  }

  lemma ReaderNegacyclic(lut: seq<int>, q: int)
    requires |lut| == q && q % 2 == 0 && 2 < q && Residues(lut, q) && NegacyclicTable(lut, q)
    ensures Negacyclic(Reader(lut), q, q)
  {
    forall x | 0 <= x < q / 2
      ensures OppositeValues(Reader(lut)(x, q, q), Reader(lut)(x + q / 2, q, q), q)
    {
      assert lut[x] == q - lut[q / 2 + x];
    }
  }

  lemma FoldedNegacyclic(lut: seq<int>, q: int, fmod: int)
    requires q / 2 <= |lut| && q % 2 == 0 && 0 < q && 0 < fmod && forall i :: 0 <= i < |lut| ==> 0 <= lut[i] <= fmod
    ensures Negacyclic(Folded(lut), q, fmod)
  {
    forall x | 0 <= x < q / 2
      ensures OppositeValues(Folded(lut)(x, q, fmod), Folded(lut)(x + q / 2, q, fmod), fmod)
    {
      assert x + q / 2 - q / 2 == x;
    }
  }

  lemma QuarterStepNegacyclic(q: int, fmod: int)
    requires 0 < q && q % 2 == 0 && q <= fmod
    ensures Negacyclic(QuarterStep, q, fmod)
  {
    forall x | 0 <= x < q / 2
      ensures OppositeValues(QuarterStep(x, q, fmod), QuarterStep(x + q / 2, q, fmod), fmod)
    {}
  }

  // ---------------------------------------------------------------------------
  // Distances
  // ---------------------------------------------------------------------------

  /** y stays at least D away from every multiple of h. */
  predicate Clear(y: int, h: int, D: int)
    requires 0 < h
  {
    D <= y % h < h - D
  }

  /** A residue close to an interior point of [0, M) is close to it as an integer. */
  lemma NoWrap(x: int, t: int, D: int, M: int)
    requires 0 < M && 0 <= x < M && D <= t && t + D < M && Close(x, t, D, M)
    ensures t - D <= x <= t + D
  {
    var k := CloseWitness(x, t, D, M);
    if k <= -1 {
      MulMonotone(M, k, -1);
    } else if 1 <= k {
      MulMonotone(M, 1, k);
    }
  }

  /** A ciphertext modulus above 2 that divides 2N is a multiple of 4. */
  lemma FourDivides(N: nat, q: int)
    requires IsPow2(N) && 2 < q && (2 * N) % q == 0
    ensures q % 4 == 0
  {
    hide IsPow2;
    var c := 2 * N / q;
    assert 2 * N == q * c;
    TwiceIsPower(N);
    PowerDivisor(q, c, 2 * N);
    HalvedProduct(q, q / 2, c, N);
    PowerDivisor(q / 2, c, N);
    DivModIs(q, 4, q / 2 / 2, 0);
  }

  lemma HalvedProduct(q: int, h: int, c: int, N: int)
    requires q == 2 * h && 2 * N == q * c
    ensures N == h * c
  {
    assert (2 * h) * c == 2 * (h * c);
  }

  // ---------------------------------------------------------------------------
  // What happens in a run
  // ---------------------------------------------------------------------------

  /** What every evaluation method here requires: keys and a small ciphertext. */
  ghost predicate Given(params: BinFHECryptoParams, EK: RingGSWBTKey, ct: LWECiphertext, sec: Secrets)
    reads params.rgsw, ct
  {
    && params.Valid() && KeysFor(EK, params, params.rgsw.baseG, sec)
    && ct.Valid() && |ct.a| == |sec.s|
  }

  /** The keys serve the ciphertext's own modulus. */
  ghost predicate Ready(params: BinFHECryptoParams, EK: RingGSWBTKey, ct: LWECiphertext, sec: Secrets)
    reads params.rgsw, ct
  {
    Given(params, EK, ct, sec) && params.Accepts(ct.q)
  }

  /** Worst-case error of one bootstrap under the current gadget base. */
  ghost function StepError(params: BinFHECryptoParams, sec: Secrets, fmod: int): int
    requires params.rgsw.Valid()
    reads params.rgsw
  {
    assert 2 <= params.rgsw.baseG;
    FuncError(params, params.rgsw.baseG, sec, fmod)
  }

  /** Where the first table was read, the phase of the first result, and where the second table was read. */
  datatype Steps = Steps(first: int, w: int, second: int)

  function Max(x: int, y: int): int {
    if x < y then y else x
  }

  /**
    How far from the residue y the second table was read, as it happened: the first bootstrap's actual
    error and the second reading's actual shift, and at least the first reading's.
   */
  function Displacement(st: Steps, y: int, q: int): (d: nat)
    requires 0 < q
  {
    Max(Distance(st.first, y, q),
        Distance(st.w, QuarterStep(st.first, q, q), q) + Distance(st.second, y - st.w - q / 4, q))
  }

  /** One bootstrap's actual reading shift and error are within the worst case. */
  ghost predicate StepWithin(params: BinFHECryptoParams, sec: Secrets, x: int, y: int, v: int, w: int, q: int,
                             fmod: int)
    requires params.rgsw.Valid()
    reads params.rgsw
  {
    && 0 < q && 0 < fmod && 0 <= x < q && Distance(x, y, q) <= RoundingSlack(params, sec.s)
    && Distance(w, v, fmod) <= StepError(params, sec, fmod)
  }

  /** A bootstrap of a ciphertext of phase y, for a function of the argument alone. */
  lemma MeasuredStep(params: BinFHECryptoParams, sec: Secrets, ct: LWECiphertext, x: int, v: int, w: int, fmod: int)
    requires params.rgsw.Valid() && ct.Valid() && |ct.a| == |sec.s| && (2 * params.rgsw.N) % ct.q == 0 && 0 < fmod
    requires x == LookupPoint(params, ct.a, ct.b, ct.q, sec.s) && Close(w, v, StepError(params, sec, fmod), fmod)
    ensures StepWithin(params, sec, x, ct.Phase(sec.s), v, w, ct.q, fmod)
    ensures params.rgsw.variant != LMKCDEY ==> x == ct.Phase(sec.s) % ct.q
  {
    hide Close, Distance, LookupPoint, RoundingSlack, FuncError, IsPow2, Pow, GateTable, PlainPowers, MonomialTable,
         LogTable, PhaseOf;
    LookupErrorBound(params, ct.a, ct.b, ct.q, sec.s);
    LookupPointClose(params, ct.a, ct.b, ct.q, sec.s);
    DistanceExact(w, v, StepError(params, sec, fmod), fmod);
    if params.rgsw.variant != LMKCDEY {
      LookupPointExact(params, ct.a, ct.b, ct.q, sec.s);
    }
  }

  lemma StepWithinCong(params: BinFHECryptoParams, sec: Secrets, x: int, y: int, y': int, v: int, w: int, q: int,
                       fmod: int)
    requires params.rgsw.Valid() && StepWithin(params, sec, x, y, v, w, q, fmod) && y % q == y' % q
    ensures StepWithin(params, sec, x, y', v, w, q, fmod)
  {
    hide Distance, RoundingSlack, FuncError, IsPow2, Pow, GateTable, PlainPowers, MonomialTable, LogTable;
    DistanceCong(x, y, y', q);
  }

  lemma DistanceCong(x: int, y: int, y': int, q: int)
    requires 0 < q && y % q == y' % q
    ensures Distance(x, y, q) == Distance(x, y', q)
  {
    ModAddCong(x, x, y, y', q);
  }

  /** BootstrapFunc with its actual reading shift and error. */
  method MeasuredBootstrap(params: BinFHECryptoParams, EK: RingGSWBTKey, ct: LWECiphertext, f: Func, fmod: int,
                           ghost sec: Secrets)
    returns (r: LWECiphertext, ghost x: int)
    requires Ready(params, EK, ct, sec) && 2 < fmod && Negacyclic(f, ct.q, fmod)
    ensures fresh(r) && r.Valid() && r.q == fmod && |r.a| == |sec.s| && r.p == 4
    ensures StepWithin(params, sec, x, ct.Phase(sec.s), f(x, ct.q, fmod), r.Phase(sec.s), ct.q, fmod)
    ensures params.rgsw.variant != LMKCDEY ==> x == ct.Phase(sec.s) % ct.q
  {
    hide AccKeysFor, IsPow2, Pow, GateTable, PhaseOf, PlainPowers, MonomialTable, LogTable, FuncError, Close, KeysFor,
         LookupPoint, Distance,
         Negacyclic, RoundingSlack, RingGSWCryptoParams.Sizes, StepWithin, Residues;
    ghost var acc, ext;
    r, acc, ext := BootstrapFunc(params, EK, ct, f, fmod, sec);
    x := LookupPoint(params, ct.a, ct.b, ct.q, sec.s);
    MeasuredStep(params, sec, ct, x, f(x, ct.q, fmod), r.Phase(sec.s), fmod);
  }

  // ---------------------------------------------------------------------------
  // The three branches
  // ---------------------------------------------------------------------------

  /** Negacyclic tables: one bootstrap, and the table is read at phase + beta up to the reading shift. */
  method EvalNegacyclic(params: BinFHECryptoParams, EK: RingGSWBTKey, ct: LWECiphertext, lut: seq<int>, beta: int,
                        ghost sec: Secrets)
    returns (r: LWECiphertext, ghost x: int)
    requires Ready(params, EK, ct, sec) && |lut| == ct.q && Residues(lut, ct.q) && 0 <= beta < ct.q
    requires NegacyclicTable(lut, ct.q)
    ensures fresh(r) && r.Valid() && r.q == ct.q && |r.a| == |sec.s| && r.p == 4 && 0 <= x < ct.q
    ensures StepWithin(params, sec, x, ct.Phase(sec.s) + beta, lut[x], r.Phase(sec.s), ct.q, ct.q)
    ensures params.rgsw.variant != LMKCDEY ==> x == (ct.Phase(sec.s) + beta) % ct.q
  {
    hide AccKeysFor, IsPow2, Pow, GateTable, PhaseOf, PlainPowers, MonomialTable, LogTable, FuncError, NegacyclicTable,
         KeysFor,
         Distance, RoundingSlack, RingGSWCryptoParams.Valid, Negacyclic;
    var q := ct.q;
    ghost var z := ct.Phase(sec.s) + beta;
    var ct1 := new LWECiphertext.Copy(ct);
    EvalAddConstEq(ct1, beta, sec.s);
    ReaderNegacyclic(lut, q);
    assert Ready(params, EK, ct1, sec);
    r, x := MeasuredBootstrap(params, EK, ct1, Reader(lut), q, sec);
    StepWithinCong(params, sec, x, ct1.Phase(sec.s), z, lut[x], r.Phase(sec.s), q, q);
  }

  /** The first bootstrap of the other two branches: the quarter step is subtracted from phase + beta. */
  method FoldHalf(params: BinFHECryptoParams, EK: RingGSWBTKey, ct: LWECiphertext, ct1: LWECiphertext, beta: int,
                  quarter: int,
                  ghost sec: Secrets)
    returns (ct2: LWECiphertext, ghost x: int, ghost w: int)
    requires Ready(params, EK, ct1, sec) && ct.Valid() && ct.q == ct1.q && |ct.a| == |sec.s| && 0 <= beta < ct.q
    requires ct.q % 4 == 0 && quarter == ct.q / 4 && ct1.Phase(sec.s) % ct1.q == (ct.Phase(sec.s) + beta) % ct1.q
    ensures fresh(ct2) && ct2.Valid() && ct2.q == ct.q && |ct2.a| == |sec.s|
    ensures StepWithin(params, sec, x, ct.Phase(sec.s) + beta, QuarterStep(x, ct.q, ct.q), w, ct.q, ct.q)
    ensures ct2.Phase(sec.s) % ct.q == (ct.Phase(sec.s) + beta - w - ct.q / 4) % ct.q
    ensures params.rgsw.variant != LMKCDEY ==> x == (ct.Phase(sec.s) + beta) % ct.q
  {
    hide AccKeysFor, IsPow2, Pow, GateTable, PhaseOf, PlainPowers, MonomialTable, LogTable, FuncError, KeysFor,
         Negacyclic, SubVector, Residues, QuarterStep, Distance, RoundingSlack, RingGSWCryptoParams.Valid, StepWithin;
    var q := ct.q;
    ghost var s, phase, y := sec.s, ct.Phase(sec.s), ct1.Phase(sec.s);
    QuarterStepNegacyclic(q, q);
    ct2, x := MeasuredBootstrap(params, EK, ct1, QuarterStep, q, sec);
    w := ct2.Phase(s);
    StepWithinCong(params, sec, x, y, phase + beta, QuarterStep(x, q, q), w, q, q);
    EvalSubEq2(ct, ct2, s);
    ghost var w1 := ct2.Phase(s);
    EvalAddConstEq(ct2, beta, s);
    ghost var w2 := ct2.Phase(s);
    EvalSubConstEq(ct2, quarter, s);
    FoldSums(phase, w, w1, w2, ct2.Phase(s), beta, quarter, q);
  }

  lemma FoldSums(phase: int, w: int, w1: int, w2: int, w3: int, beta: int, quarter: int, q: int)
    requires 0 < q && w1 % q == (phase - w) % q && w2 % q == (w1 + beta) % q && w3 % q == (w2 - quarter) % q
    ensures w3 % q == (phase + beta - w - quarter) % q
  {
    ModAddCong(w1, phase - w, beta, beta, q);
    ModAddCong(w2, phase - w + beta, quarter, quarter, q);
  }

  /** A point read within h of y lies in the same half of the circle when y is clear of both ends by h. */
  lemma SameHalf(x: int, y: int, h: int, q: int)
    requires 2 < q && q % 2 == 0 && 0 <= x < q && 0 <= y < q && Close(x, y, h, q) && Clear(y, q / 2, h)
    ensures x < q / 2 <==> y < q / 2
  {
    hide Close;
    HalfOf(y, q, q / 2);
    NoWrap(x, y, h, q);
  }

  /**
    What is left after the first bootstrap is the residue modulo half of the circle, up to that
    bootstrap's actual error.
   */
  lemma FoldedPhase(z: int, y: int, x: int, w: int, w3: int, q: int)
    requires 2 < q && q % 4 == 0 && y == z % q && 0 <= x < q && w3 % q == (z - w - q / 4) % q
    requires Clear(y, q / 2, Distance(x, y, q))
    ensures Close(w3, y % (q / 2), Distance(w, QuarterStep(x, q, q), q), q)
  {
    hide Close, Distance, Clear;
    Quarters(q);
    var t, e := QuarterStep(y, q, q), Distance(w, QuarterStep(x, q, q), q);
    DistanceExact(x, y, Distance(x, y, q), q);
    SameHalf(x, y, Distance(x, y, q), q);
    DistanceExact(w, t, e, q);
    CloseSelf(z - q / 4, 0, q);
    CloseAdd(z - q / 4, z - q / 4, w, t, 0, e, q);
    FoldTarget(z, y, q);
    CloseCong(z - q / 4 - w, z - q / 4 - t, w3, y % (q / 2), e, q);
  }

  lemma FoldTarget(z: int, y: int, q: int)
    requires 0 < q && q % 4 == 0 && y == z % q
    ensures (z - q / 4 - QuarterStep(y, q, q)) % q == (y % (q / 2)) % q
  {
    Quarters(q);
    var d := z / q;
    assert z == d * q + y;
    if y < q / 2 {
      ModSmall(y, q / 2);
      QuarterLess(z, q, d, y);
      ModEqualIntro(z - q / 4 - QuarterStep(y, q, q), y, d - 1, q);
    } else {
      DivModIs(y, q / 2, 1, y - q / 2);
      ModEqualIntro(z - q / 4 - QuarterStep(y, q, q), y - q / 2, d, q);
    }
  }

  lemma QuarterLess(z: int, q: int, d: int, y: int)
    requires z == d * q + y
    ensures z - q == y + (d - 1) * q
  {}

  /** The second table is read within the displacement of the residue modulo half of the circle. */
  lemma SecondReading(z: int, y: int, st: Steps, w3: int, q: int)
    requires 2 < q && q % 4 == 0 && y == z % q && 0 <= st.first < q && 0 <= st.second < q
    requires w3 % q == (z - st.w - q / 4) % q
    requires Clear(y, q / 2, Displacement(st, y, q))
    ensures Close(st.second, y % (q / 2), Displacement(st, y, q), q)
  {
    hide Close, Distance;
    Quarters(q);
    var h1, e1, h2 := Distance(st.first, y, q), Distance(st.w, QuarterStep(st.first, q, q), q),
                      Distance(st.second, y - st.w - q / 4, q);
    ClearWeaken(y, q / 2, Displacement(st, y, q), h1);
    FoldedPhase(z, y, st.first, st.w, w3, q);
    ModMod(z, q);
    ModAddCong(z, y, st.w + q / 4, st.w + q / 4, q);
    DistanceExact(st.second, y - st.w - q / 4, h2, q);
    CloseCong(st.second, y - st.w - q / 4, st.second, w3, h2, q);
    CloseTrans(st.second, w3, y % (q / 2), h2, e1, q);
    CloseMono(st.second, y % (q / 2), h2 + e1, Displacement(st, y, q), q);
  }

  lemma ClearWeaken(y: int, h: int, D: int, d: int)
    requires 0 < h && Clear(y, h, D) && d <= D
    ensures Clear(y, h, d)
  {}

  /**
    Periodic tables: a first bootstrap moves the phase into the first half circle, a second reads the
    table there. If phase + beta is clear of the ends of its half circle by the displacement that
    actually occurred, the table is read within that displacement of it.
   */
  method EvalPeriodic(params: BinFHECryptoParams, EK: RingGSWBTKey, ct: LWECiphertext, lut: seq<int>, beta: int,
                      ghost sec: Secrets)
    returns (r: LWECiphertext, ghost x: int, ghost st: Steps)
    requires Ready(params, EK, ct, sec) && |lut| == ct.q && Residues(lut, ct.q) && 0 <= beta < ct.q
    requires PeriodicTable(lut)
    ensures fresh(r) && r.Valid() && r.q == ct.q && |r.a| == |sec.s| && r.p == 4
    ensures StepWithin(params, sec, st.first, ct.Phase(sec.s) + beta, QuarterStep(st.first, ct.q, ct.q), st.w, ct.q,
                       ct.q)
    ensures StepWithin(params, sec, st.second, ct.Phase(sec.s) + beta - st.w - ct.q / 4,
                       Folded(lut)(st.second, ct.q, ct.q),
                       r.Phase(sec.s), ct.q, ct.q)
    ensures 0 < ct.q / 2
    ensures Clear((ct.Phase(sec.s) + beta) % ct.q, ct.q / 2,
                  Displacement(st, (ct.Phase(sec.s) + beta) % ct.q, ct.q)) ==>
              ReadAt(lut, r.Phase(sec.s), (ct.Phase(sec.s) + beta) % ct.q, x,
                     Displacement(st, (ct.Phase(sec.s) + beta) % ct.q, ct.q),
                     Folded(lut)(st.second, ct.q, ct.q), ct.q)
  {
    hide AccKeysFor, IsPow2, Pow, GateTable, PhaseOf, PlainPowers, MonomialTable, LogTable, FuncError, PeriodicTable,
         KeysFor,
         Negacyclic, Folded, Clear, Distance, RoundingSlack, RingGSWCryptoParams.Valid, QuarterStep, Displacement,
         StepWithin, ReadAt;
    var q := ct.q;
    ghost var s := sec.s;
    assert q % 4 == 0 by { AcceptedIsFour(params, q); }
    ghost var z := ct.Phase(s) + beta;
    var ct1 := new LWECiphertext.Copy(ct);
    EvalAddConstEq(ct1, beta, s);
    var ct2;
    ghost var x1, w, x2;
    assert Ready(params, EK, ct1, sec);
    ct2, x1, w := FoldHalf(params, EK, ct, ct1, beta, q / 4, sec);
    FoldedNegacyclic(lut, q, q);
    assert Ready(params, EK, ct2, sec);
    r, x2 := MeasuredBootstrap(params, EK, ct2, Folded(lut), q, sec);
    StepWithinCong(params, sec, x2, ct2.Phase(s), z - w - q / 4, Folded(lut)(x2, q, q), r.Phase(s), q, q);
    st := Steps(x1, w, x2);
    assert 0 <= x1 < q && 0 <= x2 < q by {
      StepRange(params, sec, x1, z, QuarterStep(x1, q, q), w, q, q);
      StepRange(params, sec, x2, z - w - q / 4, Folded(lut)(x2, q, q), r.Phase(s), q, q);
    }
    x := PeriodicRead(lut, z, z % q, st, ct2.Phase(s), r.Phase(s), q);
  }

  lemma AcceptedIsFour(params: BinFHECryptoParams, q: int)
    requires params.Valid() && params.Accepts(q) && 2 < q
    ensures q % 4 == 0
  {
    hide Pow, GateTable, PlainPowers, MonomialTable, LogTable;
    FourDivides(params.rgsw.N, q);
  }

  lemma StepRange(params: BinFHECryptoParams, sec: Secrets, x: int, y: int, v: int, w: int, q: int, fmod: int)
    requires params.rgsw.Valid() && StepWithin(params, sec, x, y, v, w, q, fmod)
    ensures 0 <= x < q
  {}

  /**
    The value read is the table's at x, which is within D of y; the result differs from it by the
    second bootstrap's actual error.
   */
  ghost predicate ReadAt(lut: seq<int>, phase: int, y: int, x: int, D: int, value: int, q: int) {
    ReadsNear(lut, phase, y, x, D, if 0 < q then Distance(phase, value, q) else 0, q) && value == lut[x]
  }

  lemma PeriodicRead(lut: seq<int>, z: int, y: int, st: Steps, w3: int, v: int, q: int) returns (x: int)
    requires 2 < q && q % 4 == 0 && |lut| == q && PeriodicTable(lut) && y == z % q && 0 <= st.first < q
    requires 0 <= st.second < q
    requires w3 % q == (z - st.w - q / 4) % q
    ensures Clear(y, q / 2, Displacement(st, y, q)) ==> ReadAt(lut, v, y, x, Displacement(st, y, q),
                                                               Folded(lut)(st.second, q, q), q)
  {
    hide Close, PeriodicTable, Folded, Clear, Distance, Displacement;
    Quarters(q);
    x := 0;
    if Clear(y, q / 2, Displacement(st, y, q)) {
      SecondReading(z, y, st, w3, q);
      x := FoldedRead(lut, y, st.second, q, q, Displacement(st, y, q));
      DistanceExact(v, lut[x], Distance(v, lut[x], q), q);
    }
  }

  /** Reading the folded table at x' is reading a periodic table near y. */
  lemma FoldedRead(lut: seq<int>, y: int, x': int, q: int, fmod: int, D: int) returns (x: int)
    requires 2 < q && q % 4 == 0 && |lut| == q && PeriodicTable(lut) && 0 <= y < q && 0 <= x' < q
    requires Close(x', y % (q / 2), D, q)
    ensures Clear(y, q / 2, D) ==> 0 <= x < q && y - D <= x <= y + D && Folded(lut)(x', q, fmod) == lut[x]
  {
    hide Close, PeriodicTable, Folded;
    Quarters(q);
    HalfOf(y, q, q / 2);
    x := FoldedReadAt(lut, y, x', q, q / 2, y % (q / 2), fmod, D);
  }

  lemma FoldedReadAt(lut: seq<int>, y: int, x': int, q: int, h: int, t: int, fmod: int, D: int) returns (x: int)
    requires 0 < h && |lut| == q == 2 * h && PeriodicTable(lut) && 0 <= x' < q && Close(x', t, D, q)
    requires t == (if y < h then y else y - h)
    ensures D <= t < h - D ==> 0 <= x < q && y - D <= x <= y + D && Folded(lut)(x', q, fmod) == lut[x]
  {
    hide Close, PeriodicTable, Folded;
    x := if y < h then x' else x' + h;
    if D <= t < h - D {
      NoWrap(x', t, D, q);
      FoldedAt(lut, x', q, h, fmod);
    }
  }

  lemma FoldedAt(lut: seq<int>, x: int, q: int, h: int, fmod: int)
    requires PeriodicTable(lut) && |lut| == q == 2 * h && 0 <= x < h
    ensures Folded(lut)(x, q, fmod) == lut[x] == lut[x + h]
  {}

  lemma HalfOf(y: int, q: int, h: int)
    requires 0 < h && q == 2 * h && 0 <= y < q
    ensures y % h == if y < h then y else y - h
  {
    if y < h {
      ModSmall(y, h);
    } else {
      DivModIs(y, h, 1, y - h);
    }
  }

  /** r encrypts, with error e, the table's value at some x within D of y. */
  ghost predicate ReadsNear(lut: seq<int>, phase: int, y: int, x: int, D: int, e: int, q: int) {
    0 < q && 0 <= x < |lut| && y - D <= x <= y + D && Close(phase, lut[x], e, q)
  }

  /**
    Arbitrary tables: the modulus is doubled, which adds an unknown multiple of q to the phase; the
    first bootstrap folds that multiple away and the second reads the repeated table.
   */
  method EvalArbitrary(params: BinFHECryptoParams, EK: RingGSWBTKey, ct: LWECiphertext, lut: seq<int>, beta: int,
                       ghost sec: Secrets)
    returns (r: LWECiphertext, ghost x: int, ghost st: Steps)
    requires Given(params, EK, ct, sec) && |lut| == ct.q && Residues(lut, ct.q) && 0 <= beta < ct.q
    requires ct.q <= params.rgsw.N && params.Accepts(2 * ct.q)
    ensures fresh(r) && r.Valid() && r.q == ct.q && |r.a| == |sec.s| && r.p == 4
    ensures var dq := 2 * ct.q;
            && StepWithin(params, sec, st.first, ct.Phase(sec.s) + beta, QuarterStep(st.first, dq, dq), st.w, dq, dq)
            && 0 <= st.second < dq
            && Distance(st.second, ct.Phase(sec.s) + beta - st.w - dq / 4, dq) <= RoundingSlack(params, sec.s)
            && Distance(r.Phase(sec.s), Folded(lut + lut)(st.second, dq, dq), ct.q) <= StepError(params, sec, dq)
    ensures var q, z := ct.q, ct.Phase(sec.s) + beta;
            var D := Displacement(st, z % (2 * q), 2 * q);
            Clear(z % q, q, D) ==> ReadAt(lut, r.Phase(sec.s), z % q, x, D, Folded(lut + lut)(st.second, 2 * q, 2 * q),
                                          q)
  {
    hide AccKeysFor, IsPow2, Pow, GateTable, PhaseOf, PlainPowers, MonomialTable, LogTable, FuncError, KeysFor, ReadAt,
         Negacyclic, Folded, Clear, RingGSWCryptoParams.Valid, SwitchVector, Distance, RoundingSlack,
         QuarterStep, Displacement, BinFHECryptoParams.Accepts;
    var q := ct.q;
    var LUT2 := lut + lut;
    var dq := 2 * q;
    ghost var s, z := sec.s, ct.Phase(sec.s) + beta;
    EvenHalf(params, q);
    var ct3, ct4;
    ghost var x1, w, x2;
    ct3, x1, w := RaiseAndFold(params, EK, ct, beta, sec);
    FoldedNegacyclic(LUT2, dq, dq);
    assert Ready(params, EK, ct3, sec);
    ct4, x2 := MeasuredBootstrap(params, EK, ct3, Folded(LUT2), dq, sec);
    ghost var v := ct4.Phase(s);
    StepWithinCong(params, sec, x2, ct3.Phase(s), z - w - dq / 4, Folded(LUT2)(x2, dq, dq), v, dq, dq);
    st := Steps(x1, w, x2);
    ct4.SetModulus(q, s);
    r := ct4;
    assert r.Phase(s) % q == v % q by { DoubleMod(q); }
    HalvedDistance(v, r.Phase(s), Folded(LUT2)(x2, dq, dq), q, StepError(params, sec, dq));
    x := RepeatedRead(lut, z, st, ct3.Phase(s), r.Phase(s), q);
  }

  lemma RingValid(params: BinFHECryptoParams)
    requires params.Valid()
    ensures params.rgsw.Valid()
  {}

  /** q -> 2q and the folding bootstrap. */
  method RaiseAndFold(params: BinFHECryptoParams, EK: RingGSWBTKey, ct: LWECiphertext, beta: int, ghost sec: Secrets)
    returns (ct3: LWECiphertext, ghost x: int, ghost w: int)
    requires Given(params, EK, ct, sec) && 0 <= beta < ct.q && params.Accepts(2 * ct.q)
    ensures fresh(ct3) && ct3.Valid() && ct3.q == 2 * ct.q && |ct3.a| == |sec.s| && params.rgsw.Valid()
    ensures StepWithin(params, sec, x, ct.Phase(sec.s) + beta, QuarterStep(x, 2 * ct.q, 2 * ct.q), w, 2 * ct.q,
                       2 * ct.q)
    ensures ct3.Phase(sec.s) % (2 * ct.q) == (ct.Phase(sec.s) + beta - w - 2 * ct.q / 4) % (2 * ct.q)
  {
    hide PhaseOf, Close, KeysFor, Distance, Residues, BinFHECryptoParams.Valid, BinFHECryptoParams.Accepts,
         RingGSWCryptoParams.Valid,
         QuarterStep, StepWithin;
    assert params.rgsw.Valid() by { RingValid(params); }
    var q := ct.q;
    assert q % 2 == 0 && 2 * q % 4 == 0 && 2 * q / 4 == q / 2 by { EvenHalf(params, q); }
    // the same residues, read modulo 2q
    var ct1 := new LWECiphertext(ct.a, ct.b, 2 * q, 4);
    assert ct1.Valid() by { StillResidues(ct.a, q); }
    var ct2 := new LWECiphertext.Copy(ct1);
    EvalAddConstEq(ct2, beta, sec.s);
    ct3, x, w := FoldHalf(params, EK, ct1, ct2, beta, q / 2, sec);
  }

  /** An accepted 2q divides 2N, which is a power of two, so q is even. */
  lemma EvenHalf(params: BinFHECryptoParams, q: int)
    requires params.Valid() && params.Accepts(2 * q) && 1 < q
    ensures q % 2 == 0
  {
    hide GateTable, PlainPowers, MonomialTable, LogTable, Pow;
    var N, c := params.rgsw.N, 2 * params.rgsw.N / (2 * q);
    assert 2 * N == c * (2 * q) == 2 * (q * c);
    PowerDivisor(q, c, N);
  }

  lemma StillResidues(a: seq<int>, q: int)
    requires 0 < q && Residues(a, q)
    ensures Residues(a, 2 * q)
  {}

  lemma DoubleMod(q: int)
    requires 0 < q
    ensures 2 * q % q == 0
  {
    DivModIs(2 * q, q, 2, 0);
  }

  /** Distances do not grow when the modulus is halved. */
  lemma HalvedDistance(v: int, v': int, t: int, q: int, b: int)
    requires 0 < q && v' % q == v % q && Distance(v, t, 2 * q) <= b
    ensures Distance(v', t, q) <= b
  {
    hide Close, Distance;
    DistanceExact(v, t, b, 2 * q);
    HalveModulus(v, t, b, q);
    CloseCong(v, t, v', t, b, q);
    DistanceExact(v', t, b, q);
  }

  lemma RepeatedRead(lut: seq<int>, z: int, st: Steps, w3: int, v: int, q: int) returns (x: int)
    requires 2 < q && q % 2 == 0 && |lut| == q && 0 <= st.first < 2 * q && 0 <= st.second < 2 * q
    requires w3 % (2 * q) == (z - st.w - 2 * q / 4) % (2 * q)
    ensures var D := Displacement(st, z % (2 * q), 2 * q);
            Clear(z % q, q, D) ==> ReadAt(lut, v, z % q, x, D, Folded(lut + lut)(st.second, 2 * q, 2 * q), q)
  {
    hide Close, Distance, Displacement, Folded, Clear, ReadAt;
    var y, D := z % (2 * q), Displacement(st, z % (2 * q), 2 * q);
    x := st.second;
    assert 2 * q / 2 == q && 2 * q % 4 == 0;
    if Clear(z % q, q, D) {
      ModOfMultiple(z, 2, q);
      ClearMod(z, y, q, D);
      SecondReading(z, y, st, w3, 2 * q);
      RepeatedAt(lut, v, y % q, x, D, q);
    }
  }

  lemma ClearMod(z: int, y: int, q: int, D: int)
    requires 0 < q && y % q == z % q && Clear(z % q, q, D)
    ensures Clear(y, q, D) && D <= y % q < q - D
  {
    ModMod(z, q);
  }

  lemma RepeatedAt(lut: seq<int>, v: int, y: int, x: int, D: int, q: int)
    requires 2 < q && |lut| == q && 0 <= x < 2 * q && D <= y < q - D && Close(x, y, D, 2 * q)
    ensures ReadAt(lut, v, y, x, D, Folded(lut + lut)(x, 2 * q, 2 * q), q)
  {
    hide Close, Distance;
    NoWrap(x, y, D, 2 * q);
    assert (lut + lut)[x] == lut[x];
    DistanceExact(v, lut[x], Distance(v, lut[x], q), q);
  }

  lemma HalveModulus(x: int, y: int, b: int, q: int)
    requires 0 < q && Close(x, y, b, 2 * q)
    ensures Close(x, y, b, q)
  {
    var k := CloseWitness(x, y, b, 2 * q);
    assert (2 * k) * q == k * (2 * q);
    CloseIntro(x, y, b, q, 2 * k);
  }

  // ---------------------------------------------------------------------------
  // EvalFunc
  // ---------------------------------------------------------------------------

  /** The modulus the bootstraps of a table's kind work at, and the interval inside which the phase has to lie. */
  function KindModulus(kind: int, q: int): int {
    if kind == 2 then 2 * q else q
  }

  function KindPeriod(kind: int, q: int): int {
    if kind == 2 then q else q / 2
  }

  /** How far from z the table was read, as it happened. */
  function ReadingError(kind: int, st: Steps, z: int, q: int): (d: nat)
    requires 0 < q
  {
    if kind == 0 then Distance(st.first, z, q)
    else Displacement(st, z % KindModulus(kind, q), KindModulus(kind, q))
  }

  /**
    What is left of the worst case: readings within the key's slack and one bootstrap's error,
    values within one bootstrap's error.
   */
  ghost predicate WithinWorst(params: BinFHECryptoParams, sec: Secrets, kind: int, q: int, d: int, e: int)
    requires params.rgsw.Valid()
    reads params.rgsw
  {
    && 0 <= d <= StepError(params, sec, KindModulus(kind, q)) + RoundingSlack(params, sec.s)
    && 0 <= e <= StepError(params, sec, KindModulus(kind, q))
  }

  /**
    EvalFunc: in all three branches the result is the table read near phase + beta. D is how far off it
    was actually read and e the actual error of the value; neither exceeds the worst case.
   */
  method EvalFunc(params: BinFHECryptoParams, EK: RingGSWBTKey, ct: LWECiphertext, lut: seq<int>, beta: int,
                  ghost sec: Secrets)
    returns (r: LWECiphertext, ghost x: int, ghost st: Steps)
    requires Given(params, EK, ct, sec) && |lut| == ct.q && Residues(lut, ct.q) && 0 <= beta < ct.q
    requires Evaluable(lut, ct.q, params.rgsw.N) && params.Accepts(KindModulus(TableKind(lut, ct.q), ct.q))
    ensures fresh(r) && r.Valid() && r.q == ct.q && |r.a| == |sec.s| && r.p == 4
    ensures var kind, q, z := TableKind(lut, ct.q), ct.q, ct.Phase(sec.s) + beta;
            var D := ReadingError(kind, st, z, q);
            && 0 < KindPeriod(kind, q)
            && (kind == 0 ==> st.first == x && 0 <= x < q && WithinWorst(params, sec, kind, q, D,
                                                                         Distance(r.Phase(sec.s), lut[x], q)))
            && (kind == 0 && params.rgsw.variant != LMKCDEY ==> x == z % q)
            && (Clear(z % q, KindPeriod(kind, q), D) ==>
                  0 <= x < q && WithinWorst(params, sec, kind, q, D, Distance(r.Phase(sec.s), lut[x], q))
                  && ReadsNear(lut, r.Phase(sec.s), z % q, x, D, Distance(r.Phase(sec.s), lut[x], q), q))
  {
    hide AccKeysFor, IsPow2, Pow, GateTable, PhaseOf, PlainPowers, MonomialTable, LogTable, FuncError, Close, KeysFor,
         Displacement, LookupPoint,
         Clear, NegacyclicTable, PeriodicTable, Distance, RoundingSlack, RingGSWCryptoParams.Sizes, Folded,
         QuarterStep, Residues;
    var kind := CheckInputFunction(lut, ct.q);
    ghost var q, z := ct.q, ct.Phase(sec.s) + beta;
    if kind == 0 {
      r, x := EvalNegacyclic(params, EK, ct, lut, beta, sec);
      st := Steps(x, 0, 0);
      NegacyclicRead(lut, z, x, r.Phase(sec.s), q);
      StepErrorNonNeg(params, EK, sec, q);
    } else if kind == 2 {
      r, x, st := EvalArbitrary(params, EK, ct, lut, beta, sec);
      DisplacementBound(params, sec, st, z, 2 * q);
    } else {
      r, x, st := EvalPeriodic(params, EK, ct, lut, beta, sec);
      DisplacementBound(params, sec, st, z, q);
    }
  }

  lemma StepErrorNonNeg(params: BinFHECryptoParams, EK: RingGSWBTKey, sec: Secrets, q: int)
    requires params.Valid() && KeysFor(EK, params, params.rgsw.baseG, sec) && 0 < q
    ensures 0 <= StepError(params, sec, q)
  {
    FuncErrorNonNeg(params, EK, sec, q);
  }

  lemma NegacyclicRead(lut: seq<int>, z: int, x: int, v: int, q: int)
    requires 2 < q && q % 2 == 0 && |lut| == q && 0 <= x < q
    ensures var D := Distance(x, z, q);
            && 0 < q / 2
            && (Clear(z % q, q / 2, D) ==> ReadsNear(lut, v, z % q, x, D, Distance(v, lut[x], q), q))
  {
    hide Close, Distance;
    var y, D := z % q, Distance(x, z, q);
    if Clear(y, q / 2, D) {
      ModMod(z, q);
      DistanceCong(x, z, y, q);
      DistanceExact(x, y, D, q);
      HalfOf(y, q, q / 2);
      NoWrap(x, y, D, q);
      DistanceExact(v, lut[x], Distance(v, lut[x], q), q);
    }
  }

  lemma DisplacementBound(params: BinFHECryptoParams, sec: Secrets, st: Steps, z: int, m: int)
    requires params.rgsw.Valid() && 0 < m
    requires StepWithin(params, sec, st.first, z, QuarterStep(st.first, m, m), st.w, m, m)
    requires Distance(st.second, z - st.w - m / 4, m) <= RoundingSlack(params, sec.s)
    ensures Displacement(st, z % m, m) <= StepError(params, sec, m) + RoundingSlack(params, sec.s)
  {
    hide Distance, RoundingSlack, FuncError, IsPow2, Pow, GateTable, PlainPowers, MonomialTable, LogTable;
    ModMod(z, m);
    DistanceCong(st.first, z, z % m, m);
    ModAddCong(z, z % m, st.w + m / 4, st.w + m / 4, m);
    DistanceCong(st.second, z - st.w - m / 4, z % m - st.w - m / 4, m);
  }

  // ---------------------------------------------------------------------------
  // Tables of plaintext functions
  // ---------------------------------------------------------------------------

  /** Entry i is floor(i*p/q) mapped by f and scaled back; None when f leaves the plaintext space. */
  datatype LUTResult = Table(vec: seq<int>) | OutOfRange

  function LutEntry(f: (int, int) -> int, p: int, q: int, i: int): int
    requires 0 < p && 0 < q
  {
    q / p * f(i * p / q, p)
  }

  /** Point i of the modulus belongs to the message m = floor(i*p/q). */
  lemma LutEntryIs(f: (int, int) -> int, p: int, q: int, i: int, m: int)
    requires 0 < p && 0 < q && m * q <= i * p < m * q + q
    ensures LutEntry(f, p, q, i) == q / p * f(m, p)
  {
    DivModIs(i * p, q, m, i * p - m * q);
  }

  method GenerateLUTviaFunction(f: (int, int) -> int, p: int, q: int) returns (r: LUTResult)
    requires 0 < p && 0 < q && forall m :: 0 <= f(m, p)
    ensures r.Table? <==> forall i :: 0 <= i < q ==> LutEntry(f, p, q, i) < q
    ensures r.Table? ==>
              |r.vec| == q && Residues(r.vec, q) && forall i :: 0 <= i < q ==> r.vec[i] == LutEntry(f, p, q, i)
    ensures r.Table? ==> forall i :: 0 <= i < q ==> r.vec[i] == q / p * f(i * p / q, p)
  {
    var vec := seq(q, _ => q / p);
    var x := 0;
    FactorLess(p, -1, q / p);
    for i := 0 to q
      invariant |vec| == q && x == i * p
      invariant forall j :: i <= j < q ==> vec[j] == q / p
      invariant forall j :: 0 <= j < i ==> 0 <= vec[j] < q && vec[j] == LutEntry(f, p, q, j)
    {
      MulNonNeg(q / p, f(x / q, p));
      assert q / p * f(x / q, p) == LutEntry(f, p, q, i);
      vec := vec[i := vec[i] * f(x / q, p)];
      if vec[i] >= q {
        return OutOfRange;
      }
      x := x + p;
    }
    r := Table(vec);
  }

  /** Every point of the interval of m reads the value of m. */
  lemma IntervalOf(m: int, p: int, q: int, x: int)
    requires 0 < p && 0 < q && q % p == 0 && 0 <= m < p && m * (q / p) <= x < (m + 1) * (q / p)
    ensures x * p / q == m && 0 <= x < q
  {
    var d := q / p;
    assert q == d * p;
    var r := x - m * d;
    assert (m + 1) * d == m * d + d;
    IntervalParts(x, m, d, p, r, q);
    MulNonNeg(r, p);
    DivModIs(x * p, q, m, r * p);
    MulNonNeg(m, d);
  }

  lemma IntervalParts(x: int, m: int, d: int, p: int, r: int, q: int)
    requires 0 < p && 0 <= r < d && x == m * d + r && q == d * p && m < p
    ensures x * p == m * q + r * p && r * p < q && m * d + d <= q
  {
    assert (m * d + r) * p == m * d * p + r * p;
    MulAssoc(m, d, p);
    MulMonotone(p, r, d - 1);
    assert p * (d - 1) == p * d - p;
    MulMonotone(d, m + 1, p);
    assert d * (m + 1) == m * d + d;
  }

  /** A result near the table's value at a point of m's interval encodes f(m). */
  lemma TableValueEncodes(vec: seq<int>, f: (int, int) -> int, m: int, p: int, q: int, x: int, phase: int, D: int)
    requires 0 < p && 0 < q && q % p == 0 && 0 <= m < p && |vec| == q && 0 <= D
    requires forall i :: 0 <= i < q ==> vec[i] == LutEntry(f, p, q, i)
    requires m * (q / p) <= x < (m + 1) * (q / p) && 0 <= x < q && Close(phase, vec[x], D, q)
    ensures Encodes(phase, q, f(m, p), p, D)
  {
    hide Close, Encodes;
    IntervalOf(m, p, q, x);
    assert vec[x] == q / p * f(m, p);
    ScaledEntryEncodes(phase, f(m, p), p, q, D);
  }

  lemma ScaledEntryEncodes(phase: int, v: int, p: int, q: int, D: int)
    requires 0 < p && 0 < q && q % p == 0 && Close(phase, q / p * v, D, q)
    ensures Encodes(phase, q, v, p, D)
  {
    hide Close, Encodes;
    var d := q / p;
    var k := CloseWitness(phase, d * v, D, q);
    AbsMulBound(p, phase - d * v - k * q, D);
    ScaledGap(p, phase, d * v, k, q);
    QuotientTimes(p, d, v, 0, q);
    EncodesIntro(phase, q, v, p, D, k);
  }

  /** The message stays inside its interval, clear of the ends by D. */
  predicate Centred(e: int, beta: int, width: int, D: int) {
    D <= e + beta < width - D
  }

  lemma CentredClear(z: int, m: int, e: int, beta: int, p: int, q: int, D: int, kind: int)
    requires 0 < p && p % 2 == 0 && 0 < q && q % p == 0 && 0 <= m < p && 0 <= D
    requires z % q == (m * (q / p) + e + beta) % q && Centred(e, beta, q / p, D)
    ensures 0 < KindPeriod(kind, q) && z % q == m * (q / p) + e + beta
    ensures Clear(z % q, KindPeriod(kind, q), D)
  {
    hide Clear;
    var d, h := q / p, p / 2;
    assert q == d * p;
    TwiceHalf(d, p, h);
    CentredInts(z, m, e + beta, d, p, h, q, D, kind);
  }

  lemma TwiceHalf(d: int, p: int, h: int)
    requires p == 2 * h
    ensures d * p == 2 * (d * h)
  {}

  lemma CentredInts(z: int, m: int, w: int, d: int, p: int, h: int, q: int, D: int, kind: int)
    requires 0 <= m < p && p == 2 * h && q == d * p == 2 * (d * h) && 0 < q && 0 <= D <= w < d - D
    requires z % q == (m * d + w) % q
    ensures 0 < KindPeriod(kind, q) && z % q == m * d + w && Clear(z % q, KindPeriod(kind, q), D)
  {
    InsideInterval(m, p, d, w, D);
    ModSmall(m * d + w, q);
    if kind != 2 {
      InsideHalf(m, h, d, w, D, m * d + w);
    }
  }

  lemma InsideInterval(m: int, p: int, d: int, w: int, D: int)
    requires 0 <= m < p && 0 <= D <= w < d - D
    ensures D <= m * d + w < d * p - D
  {
    MulNonNeg(m, d);
    MulMonotone(d, m + 1, p);
    assert d * (m + 1) == m * d + d;
  }

  /** Half of the circle holds h intervals of width d. */
  lemma InsideHalf(m: int, h: int, d: int, w: int, D: int, y: int)
    requires 0 <= m < 2 * h && 0 <= D <= w < d - D && y == m * d + w
    ensures 0 < d * h && Clear(y, d * h, D)
  {
    InsideInterval(0, h, d, w, D);
    if m < h {
      InsideInterval(m, h, d, w, D);
      ModSmall(y, d * h);
    } else {
      InsideInterval(m - h, h, d, w, D);
      assert (m - h) * d == m * d - d * h;
      DivModIs(y, d * h, 1, y - d * h);
    }
  }

  /**
    Evaluating the table of a plaintext function f on an encryption of m gives an encryption of f(m),
    for every f, every m and all three kinds of table, whenever the message stays centred in its
    interval by the reading error that actually occurred.
   */
  method EvalPlaintextFunction(params: BinFHECryptoParams, EK: RingGSWBTKey, ct: LWECiphertext, f: (int, int) -> int,
                               p: int,
                               vec: seq<int>, beta: int, ghost sec: Secrets, ghost m: int, ghost e: int)
    returns (r: LWECiphertext, ghost D: int, ghost err: int)
    requires Given(params, EK, ct, sec) && 0 <= beta < ct.q && 0 < p && p % 2 == 0 && ct.q % p == 0
    requires |vec| == ct.q && Residues(vec, ct.q) && forall i :: 0 <= i < ct.q ==> vec[i] == LutEntry(f, p, ct.q, i)
    requires Evaluable(vec, ct.q, params.rgsw.N) && params.Accepts(KindModulus(TableKind(vec, ct.q), ct.q))
    requires 0 <= m < p && ct.Phase(sec.s) % ct.q == (m * (ct.q / p) + e) % ct.q
    ensures r.Valid() && r.q == ct.q && |r.a| == |sec.s| && 0 <= D
    ensures Centred(e, beta, ct.q / p, D) ==>
              Encodes(r.Phase(sec.s), ct.q, f(m, p), p,
                      err) && WithinWorst(params, sec, TableKind(vec, ct.q), ct.q, D, err)
  {
    hide AccKeysFor, IsPow2, Pow, GateTable, PhaseOf, PlainPowers, MonomialTable, LogTable, FuncError, KeysFor,
         Distance, RoundingSlack,
         Clear, TableKind, Encodes, Close, ReadingError, StepWithin, WithinWorst, RingGSWCryptoParams.Sizes;
    ghost var q, d := ct.q, ct.q / p;
    ghost var kind, z := TableKind(vec, ct.q), ct.Phase(sec.s) + beta;
    ghost var x: int, st: Steps;
    r, x, st := EvalFunc(params, EK, ct, vec, beta, sec);
    D := ReadingError(kind, st, z, q);
    err := if 0 <= x < q then Distance(r.Phase(sec.s), vec[x], q) else 0;
    if Centred(e, beta, d, D) {
      ModAddCong(ct.Phase(sec.s), m * d + e, beta, beta, q);
      CentredClear(z, m, e, beta, p, q, D, kind);
      assert (m + 1) * d == m * d + d;
      TableValueEncodes(vec, f, m, p, q, x, r.Phase(sec.s), err);
    }
  }
}
