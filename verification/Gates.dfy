/**
  Gate bootstrapping (src/binfhe/lib/binfhe-base-scheme.cpp:79-240, 510-568): every gate refreshes
  one of two values, whatever its inputs, and it is the value of its Boolean function whenever the
  error actually present in the summed inputs stays inside the gate's margin.
 */
module Gates {
  import opened Arithmetic
  import opened NegacyclicRing
  import opened RingNoise
  import opened RgswParams
  import opened ExternalProduct
  import opened Accumulator
  import opened LweBasics
  import opened Lwe
  import opened KeySwitching
  import opened AccumulatorDM
  import opened Lookup
  import opened Bootstrapping
  import opened GateLogic

  // ---------------------------------------------------------------------------
  // The core
  // ---------------------------------------------------------------------------

  /** lv and uv as stored: the gate's table with negative values wrapped. */
  function StoredGate(b: int, q1: int, q: int, gap: int, Q: int): int -> int
    requires 0 < q
  {
    y => if RawHalf(Lowered(b, (b - y) % q, q), q1, q) then Q - gap else gap
  }

  lemma GateStored(m: Poly, N: nat, q: int, b: int, q1: int, gap: int, Q: int)
    requires 0 < N && 0 < q && (2 * N) % q == 0 && 0 < gap < Q
    requires ExactTable(m, N, Stretch(N, q), q, b, StoredGate(b, q1, q, gap, Q), q / 2)
    ensures TestVector(m, N, q, b, RawValues(b, q1, q, gap), Q) && Reduced(m, Q)
  {
    hide Stretch, RawValues, StoredGate;
    StretchExact(N, q);
    var c, F := Stretch(N, q), StoredGate(b, q1, q, gap, Q);
    forall j | 0 <= j < q / 2
      ensures Placed(m, c * j, RawValues(b, q1, q, gap)((b - j) % q), Q)
    {
      assert PlacedExact(m, c * j, F((b - j) % q));
      StoredIs(b, (b - j) % q, q1, q, gap, Q);
    }
    forall i: nat | i < N
      ensures 0 <= m[i] < Q
    {
      if i % c == 0 && i < c * (q / 2) {
        var j := i / c;
        StepIndex(i, c, q / 2);
        assert PlacedExact(m, c * j, F((b - j) % q));
        StoredIs(b, (b - j) % q, q1, q, gap, Q);
      }
    }
  }

  /** The stored value is the tabulated one modulo Q. */
  lemma StoredIs(b: int, y: int, q1: int, q: int, gap: int, Q: int)
    requires 0 < q && 0 < gap < Q
    ensures 0 <= StoredGate(b, q1, q, gap, Q)(y) < Q
    ensures StoredGate(b, q1, q, gap, Q)(y) == RawValues(b, q1, q, gap)(y) % Q
  {
    hide RawHalf, Lowered;
    var f, g := StoredGate(b, q1, q, gap, Q), RawValues(b, q1, q, gap);
    assert f(y) == if RawHalf(Lowered(b, (b - y) % q, q), q1, q) then Q - gap else gap;
    assert g(y) == if RawHalf(Lowered(b, (b - y) % q, q), q1, q) then 0 - gap else gap;
    ModSmall(gap, Q);
    DivModIs(0 - gap, Q, -1, Q - gap);
  }

  lemma StepIndex(i: int, c: int, n: int)
    requires 0 < c && 0 <= i < c * n && i % c == 0
    ensures 0 <= i / c < n && i == c * (i / c)
  {
    var j := i / c;
    assert i == j * c + i % c;
    assert j * c == c * j && c * -1 == -c;
    FactorLess(c, j, n);
    FactorLess(c, -1, j);
  }

  /** From a residue b the loop tabulates the gate. */
  lemma ResidueTable(m: Poly, N: nat, q: int, b: int, q1: int, gap: int, Q: int)
    requires 0 <= b < q && TestVector(m, N, q, b, RawValues(b, q1, q, gap), Q)
    ensures TestVector(m, N, q, b, GateValues(q1, q, gap), Q)
  {
    hide Stretch, RawValues, GateValues, Placed;
    forall j | 0 <= j < q / 2
      ensures Placed(m, Stretch(N, q) * j, GateValues(q1, q, gap)((b - j) % q), Q)
    {
      RawIsGate(b, (b - j) % q, q1, q, gap);
      assert Placed(m, Stretch(N, q) * j, RawValues(b, q1, q, gap)((b - j) % q), Q);
    }
  }

  lemma GateConstRange(g: BinGate, q: int)
    requires 0 < q
    ensures 0 <= GateConst(g, q) < q
  {
    var (c, d) := GateNumerator(g);
    var h := q / d;
    assert q == h * d + q % d;
    FactorLess(d, -1, h);
    if h == 0 {
      assert c * h == 0;
    } else {
      MulMonotone(h, c, d - 1);
      assert h * c == c * h && h * (d - 1) == h * d - h;
    }
    MulNonNeg(c, h);
  }

  lemma GateFactor(N: nat, q: int)
    requires 0 < q && q % 2 == 0 && 0 < N && (2 * N) % q == 0
    ensures 0 < q / 2 && N / (q / 2) == Stretch(N, q) && Stretch(N, q) * (q / 2) == N && 0 < Stretch(N, q)
  {
    hide Stretch;
    StretchExact(N, q);
    HalfIndex(Stretch(N, q), q, N, 0);
    assert Stretch(N, q) * (0 + q / 2) == Stretch(N, q) * 0 + N;
    DivModIs(N, q / 2, Stretch(N, q), 0);
  }

  /** The index loop over the test vector: b counts down while i moves by 2N/q. */
  method GateVector(N: nat, q: int, q1: int, b0: int, Q: int, Q2p: int) returns (v: Poly)
    requires 0 < N && 2 < q && q % 2 == 0 && (2 * N) % q == 0 && 0 <= q1 < q && 0 <= b0 && 0 < Q2p < Q
    ensures TestVector(v, N, q, b0, RawValues(b0, q1, q, Q2p), Q) && |v| == N && Reduced(v, Q)
  {
    hide Stretch, ExactTable, TestVector, RawHalf, Lowered, Reduced;
    var qHalf := q / 2;
    var q2 := ModAddFast(q1, qHalf, q);
    var swap := q1 >= q2;
    var lb := if swap then q2 else q1;
    var ub := if swap then q1 else q2;
    var Q2pNeg := Q - Q2p;
    var lv := if swap then Q2p else Q2pNeg;
    var uv := if swap then Q2pNeg else Q2p;
    GateFactor(N, q);
    var factor := N / qHalf;
    ghost var F := StoredGate(b0, q1, q, Q2p, Q);
    v := Zero(N);
    EmptyTable(N, factor, q, b0, F);
    var b := b0;
    assert Lowered(b0, 0, q) == b0 by { LoweredZero(b0, q); }
    var i := 0;
    ghost var j: nat := 0;
    assert factor * 0 == 0;
    while i < N
      invariant i == factor * j && j <= q / 2 && |v| == N && b == Lowered(b0, j, q)
      invariant ExactTable(v, N, factor, q, b0, F, j)
      decreases q / 2 - j
    {
      FactorLess(factor, j, q / 2);
      LoweredStep(b0, j, q);
      SwappedRaw(b, q1, q);
      RawAt(b0, j, q);
      PlaceNext(v, N, factor, q, b0, F, j);
      v := v[i := if lb <= b < ub then lv else uv];
      b := ModSubFast(b, 1, q);
      assert factor * (j + 1) == factor * j + factor;
      i := i + factor;
      j := j + 1;
    }
    if j < q / 2 {
      HalfIndex(factor, q, N, j);
    }
    GateStored(v, N, q, b0, q1, Q2p, Q);
  }

  /** Fills the test vector of a gate and turns it blindly. */
  method BootstrapGateCore(params: BinFHECryptoParams, gate: BinGate, ek: AccKey, ct: LWECiphertext, ghost sec: Secrets)
    returns (acc: RLWECiphertext, ghost m: Poly)
    requires params.Valid() && |sec.z| == params.rgsw.N && 0 <= sec.noise && params.Accepts(ct.q)
    requires ct.q == params.rgsw.q
    requires 2 <= params.rgsw.baseG && AccKeysFor(ek, params, params.rgsw.baseG, sec)
    requires 2 < ct.q && Residues(ct.a, ct.q) && 0 <= ct.b && |ct.a| == |sec.s| && 0 < ct.p
    ensures fresh(acc) && acc.start == (Zero(params.rgsw.N), m)
    ensures TestVector(m, params.rgsw.N, ct.q, ct.b,
                       RawValues(ct.b, GateConst(gate, ct.q), ct.q, HalfGap(params.lwe.Q, ct.p)), params.rgsw.Q)
    ensures Holds(acc, ContextAt(params, params.rgsw.baseG, sec), m,
                  Stretch(params.rgsw.N, ct.q) * Turn(params, ct.a, ct.q, sec.s),
                  AccNoise(params, params.rgsw.baseG, sec))
  {
    hide AccKeysFor, IsPow2, Pow, Near, Stretch, AccNoise, Turn, TestVector, Phase, Rot, Coef, Reduced,
         GateConst, HalfGap, PlainPowers, MonomialTable, LogTable, Residues, RawValues;
    var q1 := params.rgsw.gateConst[GateIndex(gate)];
    GateConstRange(gate, ct.q);
    var Q, N := params.lwe.Q, params.lwe.N;
    var Q2p := HalfGap(Q, ct.p);
    HalfGapSmall(Q, ct.p);
    var v := GateVector(N, ct.q, q1, ct.b, Q, Q2p);
    m := v;
    acc := new RLWECiphertext(Zero(N), v);
    FreshHolds(acc, ContextAt(params, params.rgsw.baseG, sec), m);
    Bootstrapping.EvalAcc(params, ek, acc, ct.a, ct.q, m, sec);
  }

  // ---------------------------------------------------------------------------
  // Inputs and outputs
  // ---------------------------------------------------------------------------

  /**
    ct encrypts the fraction m/p of the circle with error e, modulo Q under the ring key or modulo
    q under the small one.
   */
  ghost predicate Carries(params: BinFHECryptoParams, sec: Secrets, ct: LWECiphertext, m: int, p: int, e: int)
    reads ct
  {
    && ct.Valid()
    && if ct.q == params.lwe.Q then |ct.a| == |sec.z| && Encodes(ct.Phase(sec.z), ct.q, m, p, e)
       else ct.q == params.lwe.q && |ct.a| == |sec.s| && Encodes(ct.Phase(sec.s), ct.q, m, p, e)
  }

  /** Error after bringing a ciphertext of modulus mod to the small key. */
  ghost function SmallError(params: BinFHECryptoParams, sec: Secrets, mod: int, e: int): int {
    if mod == params.lwe.Q then
      SwitchedError(params.lwe, params.lwe.Q, params.lwe.q, AbsSum(sec.z, |sec.z|), AbsSum(sec.s, |sec.s|), sec.ksNoise,
                    e)
    else e
  }

  /** Error of a refreshed gate output, the same for every input. */
  ghost function GateError(params: BinFHECryptoParams, base: nat, sec: Secrets, extended: bool): int
    requires 2 <= base
  {
    var e := AccNoise(params, base, sec) + 2;
    if extended then e else SmallError(params, sec, params.lwe.Q, e)
  }

  /** c is ct brought to the small key: down the switching chain from modulus Q, unchanged otherwise. */
  ghost predicate Reached(params: BinFHECryptoParams, sec: Secrets, ct: LWECiphertext, c: LWECiphertext)
    reads ct, c
  {
    && |c.a| == |sec.s|
    && if ct.q == params.lwe.Q then |ct.a| == |sec.z| && DownChain(params, sec, ct.Phase(sec.z), c.Phase(sec.s))
       else c.Value() == ct.Value()
  }

  /** v, of modulus mod, in the form gates sum: through the chain from modulus Q, as it is otherwise. */
  ghost function SmallForm(params: BinFHECryptoParams, K: LWESwitchingKey, v: LWEValue, mod: int): LWEValue {
    if mod == params.lwe.Q && TableShape(K, params.lwe) && |v.a| == params.lwe.N && 0 < params.lwe.q && 0 < params.lwe.Q
    then LWEValue(SwitchedVector(params.lwe, K, v.a, params.lwe.Q, params.lwe.q),
                  SwitchedOffset(params.lwe, K, v.a, v.b, params.lwe.Q, params.lwe.q))
    else v
  }

  /** y modulo q is x modulo Q brought along the chain. */
  ghost predicate DownChain(params: BinFHECryptoParams, sec: Secrets, x: int, y: int) {
    Chained(params.lwe, params.lwe.Q, params.lwe.q, x, y, AbsSum(sec.z, |sec.z|), AbsSum(sec.s, |sec.s|), sec.ksNoise)
  }

  /** Brings a ciphertext of modulus Q to the small key; leaves others as they are. */
  method Small(params: BinFHECryptoParams, EK: RingGSWBTKey, ct: LWECiphertext,
               ghost sec: Secrets, ghost m: int, ghost p: int, ghost e: int)
    returns (c: LWECiphertext)
    requires params.lwe.q != params.lwe.Q && SwitchingKeyFor(EK.KSkey, sec.z, sec.s, params.lwe, sec.ksNoise)
    requires Carries(params, sec, ct, m, p, e)
    ensures c.Valid() && c.q == params.lwe.q && |c.a| == |sec.s|
    ensures if ct.q == params.lwe.Q then fresh(c) && c.p == 4 else c == ct
    ensures Reached(params, sec, ct, c) && c.Value() == SmallForm(params, EK.KSkey, ct.Value(), ct.q)
    ensures Encodes(c.Phase(sec.s), c.q, m, p, SmallError(params, sec, ct.q, e))
  {
    hide SwitchingKeyFor, Encodes, SwitchedError, AbsSum, Residues, PhaseOf, Chained, TableShape, SwitchedVector,
         SwitchedOffset;
    assert params.lwe.Valid() && |sec.z| == params.lwe.N && |sec.s| == params.lwe.n by {
      SwitchingKeySizes(EK.KSkey, sec.z, sec.s, params.lwe, sec.ksNoise);
    }
    if ct.q == params.lwe.Q {
      c := SwitchCTtoqn(params.lwe, EK.KSkey, ct, sec.z, sec.s, sec.ksNoise);
      ChainEncodes(params.lwe, params.lwe.Q, params.lwe.q, ct.Phase(sec.z), c.Phase(sec.s),
                   AbsSum(sec.z, |sec.z|), AbsSum(sec.s, |sec.s|), sec.ksNoise, m, p, e);
    } else {
      c := ct;
    }
  }

  /** As Small, but a ciphertext already small is copied so that it can be updated. */
  method SmallCopy(params: BinFHECryptoParams, EK: RingGSWBTKey, ct: LWECiphertext,
                   ghost sec: Secrets, ghost m: int, ghost p: int, ghost e: int)
    returns (c: LWECiphertext)
    requires params.lwe.q != params.lwe.Q && SwitchingKeyFor(EK.KSkey, sec.z, sec.s, params.lwe, sec.ksNoise)
    requires Carries(params, sec, ct, m, p, e)
    ensures fresh(c) && c.Valid() && c.q == params.lwe.q && |c.a| == |sec.s| && c.p == 4 && Reached(params, sec, ct, c)
    ensures c.Value() == SmallForm(params, EK.KSkey, ct.Value(), ct.q)
    ensures Encodes(c.Phase(sec.s), c.q, m, p, SmallError(params, sec, ct.q, e))
  {
    hide SwitchingKeyFor, Encodes, SwitchedError, AbsSum, Residues, PhaseOf, Chained, TableShape, SwitchedVector,
         SwitchedOffset;
    c := Small(params, EK, ct, sec, m, p, e);
    if ct.q != params.lwe.Q {
      c := new LWECiphertext.Copy(ct);
    }
  }

  // ---------------------------------------------------------------------------
  // One refresh
  // ---------------------------------------------------------------------------

  /** Which of the two values the lookup of a summed input yields. */
  ghost predicate GateOutput(params: BinFHECryptoParams, gate: BinGate, v: LWEValue, s: seq<int>)
    requires |v.a| == |s| && 0 < params.lwe.q
  {
    !InHalf(LookupPoint(params, v.a, v.b, params.lwe.q, s), GateConst(gate, params.lwe.q), params.lwe.q)
  }

  /** The two values a gate tabulates. */
  function Side(bit: bool, gap: int): int {
    if bit then gap else 0 - gap
  }

  /**
    Record of a gate: the summed input, the side its lookup fell on, its blind rotation, and its
    phase before switching.
   */
  datatype GateRun = GateRun(sum: LWEValue, bit: bool, acc: RLWECiphertext, ext: int)

  /**
    What every run of a gate satisfies, for every input: the rotation started from the gate's table,
    and the phase modulo Q is exactly the value on the side looked up, plus the offset, plus the error
    the rotation's steps have added up, which is at most AccNoise.
   */
  ghost predicate Ran(params: BinFHECryptoParams, gate: BinGate, sec: Secrets, run: GateRun, p: int, offset: int)
    reads params.rgsw, run.acc
  {
    var q, Q, N, base := params.lwe.q, params.lwe.Q, params.rgsw.N, params.rgsw.baseG;
    && 0 < q && 0 < Q && 0 < N && 2 <= base && 0 < p && run.sum.Ok(|sec.s|, q)
    && run.bit == GateOutput(params, gate, run.sum, sec.s)
    && run.acc.start.0 == Zero(N)
    && TestVector(run.acc.start.1, N, q, run.sum.b, GateValues(GateConst(gate, q), q, HalfGap(Q, p)), Q)
    && Holds(run.acc, ContextAt(params, base, sec), run.acc.start.1, Stretch(N, q) * Turn(params, run.sum.a, q, sec.s),
             AccNoise(params, base, sec))
    && |run.acc.err| == N && Abs(run.acc.err[0]) <= AccNoise(params, base, sec)
    && run.ext % Q == (Side(run.bit, HalfGap(Q, p)) + run.acc.err[0] + offset) % Q
  }

  /** The gate table is exactly negacyclic, so the lookup yields one of its two values exactly. */
  lemma LookedUpSide(params: BinFHECryptoParams, gate: BinGate, v: LWEValue, s: seq<int>, gap: int, Q: int, err: int,
                     offset: int, ext: int)
    requires |v.a| == |s| && 0 < params.lwe.q && params.lwe.q % 2 == 0 && 0 < Q
    requires var F := GateValues(GateConst(gate, params.lwe.q), params.lwe.q, gap);
             ext % Q == (TableValue(F, params.lwe.q, v.b, Turn(params, v.a, params.lwe.q, s)) + err + offset) % Q
    ensures ext % Q == (Side(GateOutput(params, gate, v, s), gap) + err + offset) % Q
  {
    hide Close, TableValue, Antiperiodic, InHalf, GateConst, Turn;
    var q, X := params.lwe.q, Turn(params, v.a, params.lwe.q, s);
    var F := GateValues(GateConst(gate, q), q, gap);
    GateAntiperiodic(GateConst(gate, q), q, gap, Q);
    TableValueClose(F, q, v.b, X, 0, Q);
    var t, y := TableValue(F, q, v.b, X), F((v.b + X) % q);
    CloseZero(t, y, Q);
    ModAddCong(t, y, err + offset, err + offset, Q);
  }

  /** Which of the two values the lookup yields when the offset need not be a residue. */
  ghost predicate RawOutput(params: BinFHECryptoParams, gate: BinGate, v: LWEValue, s: seq<int>)
    requires |v.a| == |s| && 0 < params.lwe.q
  {
    var q := params.lwe.q;
    RawLookup(v.b, (-Turn(params, v.a, q, s)) % q, GateConst(gate, q), q)
  }

  /** For a residue it is the gate's output. */
  lemma RawIsOutput(params: BinFHECryptoParams, gate: BinGate, v: LWEValue, s: seq<int>)
    requires |v.a| == |s| && 0 <= v.b < params.lwe.q && params.lwe.q % 2 == 0
    ensures RawOutput(params, gate, v, s) == GateOutput(params, gate, v, s)
  {
    hide GateConst, Turn, InHalf, RawLookup;
    var q, X := params.lwe.q, Turn(params, v.a, params.lwe.q, s);
    LookupPoints(v.b, X, q, (-X) % q);
    RawLookupIsGate(v.b, (-X) % q, GateConst(gate, q), q);
  }

  /** As Ran, for a summed input whose offset is not below q. */
  ghost predicate RanBeyond(params: BinFHECryptoParams, gate: BinGate, sec: Secrets, run: GateRun, p: int, offset: int)
    reads params.rgsw, run.acc
  {
    var q, Q, N, base := params.lwe.q, params.lwe.Q, params.rgsw.N, params.rgsw.baseG;
    && 0 < q && 0 < Q && 0 < N && 2 <= base && 0 < p
    && |run.sum.a| == |sec.s| && Residues(run.sum.a, q) && q <= run.sum.b
    && run.bit == RawOutput(params, gate, run.sum, sec.s)
    && run.acc.start.0 == Zero(N)
    && TestVector(run.acc.start.1, N, q, run.sum.b, RawValues(run.sum.b, GateConst(gate, q), q, HalfGap(Q, p)), Q)
    && Holds(run.acc, ContextAt(params, base, sec), run.acc.start.1, Stretch(N, q) * Turn(params, run.sum.a, q, sec.s),
             AccNoise(params, base, sec))
    && |run.acc.err| == N && Abs(run.acc.err[0]) <= AccNoise(params, base, sec)
    && run.ext % Q == (Side(run.bit, HalfGap(Q, p)) + run.acc.err[0] + offset) % Q
  }

  /** The loop's table read at any point yields one of the two values. */
  lemma RawSide(params: BinFHECryptoParams, gate: BinGate, v: LWEValue, s: seq<int>, gap: int)
    requires |v.a| == |s| && 0 < params.lwe.q && params.lwe.q % 2 == 0
    ensures TableValue(RawValues(v.b, GateConst(gate, params.lwe.q), params.lwe.q, gap), params.lwe.q, v.b,
                       Turn(params, v.a, params.lwe.q, s)) == Side(RawOutput(params, gate, v, s), gap)
  {
    hide GateConst, Turn, RawHalf, Lowered, RawValues;
    var q, j := params.lwe.q, (-Turn(params, v.a, params.lwe.q, s)) % params.lwe.q;
    RawEntry(v.b, if j < q / 2 then j else j - q / 2, GateConst(gate, q), q, gap);
  }

  /** The bit looked up when the offset plays no part. */
  ghost predicate VectorBit(params: BinFHECryptoParams, gate: BinGate, a: seq<int>, s: seq<int>)
    requires |a| == |s| && 0 < params.lwe.q
  {
    var q := params.lwe.q;
    (-Turn(params, a, q, s)) % q < q / 2 <==> GateConst(gate, q) < q / 2
  }

  /** Beyond the residues by half of the circle the bit looked up is a function of the vector alone. */
  lemma OffsetLost(params: BinFHECryptoParams, gate: BinGate, v: LWEValue, s: seq<int>)
    requires |v.a| == |s| && 0 < params.lwe.q && params.lwe.q % 2 == 0
    requires params.lwe.q + params.lwe.q / 2 <= v.b
    ensures RawOutput(params, gate, v, s) == VectorBit(params, gate, v.a, s)
  {
    hide GateConst, Turn;
  }

  // ---------------------------------------------------------------------------
  // Bootstrap with a constant in place of the quarter
  // ---------------------------------------------------------------------------

  /** Both bits, with lookup points up to e from theirs, are looked up as themselves when c is added to any offset. */
  ghost predicate ReadsAll(params: BinFHECryptoParams, a: seq<int>, s: seq<int>, c: int, e: int)
    requires |a| == |s| && 0 < params.lwe.q
  {
    var q := params.lwe.q;
    forall bit, b :: 0 <= b < q && Encodes(LookupPoint(params, a, b, q, s), q, Bit(bit), 4, e) ==>
      RawOutput(params, AND, LWEValue(a, ModAddFast(b, c, q)), s) == bit
  }

  /** For every vector, key and accumulator that is so if and only if c is in QuarterMargin. */
  lemma ConstantReads(params: BinFHECryptoParams, a: seq<int>, s: seq<int>, c: int, e: int)
    requires |a| == |s| && 0 < params.lwe.q && params.lwe.q % 8 == 0 && 0 <= c && 0 <= e
    ensures ReadsAll(params, a, s, c, e) <==> QuarterMargin(c, params.lwe.q, e)
  {
    hide Encodes, Turn, RawLookup, GateConst, QuarterMargin;
    var q, X := params.lwe.q, Turn(params, a, params.lwe.q, s);
    var j := (-X) % q;
    QuarterReads(j, c, q, e);
    forall b: int
      ensures (b - j) % q == LookupPoint(params, a, b, q, s)
    {
      LookupPoints(b, X, q, j);
    }
    if ReadsAll(params, a, s, c, e) {
      forall bit, b | 0 <= b < q && Encodes((b - j) % q, q, Bit(bit), 4, e)
        ensures RawLookup(ModAddFast(b, c, q), j, GateConst(AND, q), q) == bit
      {
        assert Encodes(LookupPoint(params, a, b, q, s), q, Bit(bit), 4, e);
        assert RawOutput(params, AND, LWEValue(a, ModAddFast(b, c, q)), s) == bit;
      }
    }
  }

  /**
    For the DM and CGGI accumulators, whose lookup point is the phase: both bits, encoded with error up
    to e, are looked up as themselves from every offset if and only if c is in QuarterMargin.
   */
  lemma ConstantReadsPhases(params: BinFHECryptoParams, a: seq<int>, s: seq<int>, c: int, e: int)
    requires |a| == |s| && 0 < params.lwe.q && params.lwe.q % 8 == 0 && 0 <= c && 0 <= e
    requires Residues(a, params.lwe.q) && 0 < params.rgsw.N && (2 * params.rgsw.N) % params.lwe.q == 0
    requires params.rgsw.variant != LMKCDEY
    ensures (forall bit, b :: 0 <= b < params.lwe.q && Encodes(PhaseOf(a, b, s), params.lwe.q, Bit(bit), 4, e) ==>
                     RawOutput(params, AND, LWEValue(a, ModAddFast(b, c, params.lwe.q)), s) == bit)
            <==> QuarterMargin(c, params.lwe.q, e)
  {
    hide Encodes, LookupPoint, RawOutput, QuarterMargin, PhaseOf;
    var q := params.lwe.q;
    ConstantReads(params, a, s, c, e);
    forall bit, b
      ensures Encodes(LookupPoint(params, a, b, q, s), q, Bit(bit), 4, e) <==> Encodes(PhaseOf(a, b, s), q, Bit(bit), 4,
                                                                                       e)
    {
      SamePoint(params, a, b, s, Bit(bit), e);
    }
  }

  lemma SamePoint(params: BinFHECryptoParams, a: seq<int>, b: int, s: seq<int>, m: int, e: int)
    requires |a| == |s| && 0 < params.lwe.q && Residues(a, params.lwe.q)
    requires 0 < params.rgsw.N && (2 * params.rgsw.N) % params.lwe.q == 0 && params.rgsw.variant != LMKCDEY
    ensures Encodes(LookupPoint(params, a, b, params.lwe.q, s), params.lwe.q, m, 4, e) <==>
            Encodes(PhaseOf(a, b, s), params.lwe.q, m, 4, e)
  {
    hide Encodes, LookupPoint, PhaseOf;
    var q, x, y := params.lwe.q, LookupPoint(params, a, b, params.lwe.q, s), PhaseOf(a, b, s);
    LookupPointExact(params, a, b, q, s);
    ModMod(y, q);
    if Encodes(x, q, m, 4, e) {
      EncodesCong(x, y, q, m, 4, e);
    }
    if Encodes(y, q, m, 4, e) {
      EncodesCong(y, x, q, m, 4, e);
    }
  }

  /** One lookup: inside the margin, by the error and reading distance actually present, the bit is read. */
  lemma ConstantRead(params: BinFHECryptoParams, v: LWEValue, s: seq<int>, c: int, bit: bool)
    requires params.lwe.q % 8 == 0 && 0 < params.lwe.q && v.Ok(|s|, params.lwe.q) && 0 <= c
    requires 0 < params.rgsw.N && (2 * params.rgsw.N) % params.lwe.q == 0
    requires QuarterMargin(c, params.lwe.q, InputError(params, v, s, Bit(bit)))
    ensures RawOutput(params, AND, LWEValue(v.a, ModAddFast(v.b, c, params.lwe.q)), s) == bit
  {
    hide Encodes, LookupPoint, RawOutput, QuarterMargin, PhaseOf, ErrorOf, LookupError, Close;
    var q, m := params.lwe.q, Bit(bit);
    var e, h := ErrorOf(v.Phase(s), q, m, 4), LookupError(params, v.a, v.b, q, s);
    ErrorOfExact(v.Phase(s), q, m, 4, e);
    LookupErrorBound(params, v.a, v.b, q, s);
    EncodesNear(LookupPoint(params, v.a, v.b, q, s), v.Phase(s), q, m, 4, e, h);
    ConstantReads(params, v.a, s, c, e + h);
  }

  /** The actual error of v as an encryption of m over 4, plus the distance at which the table is read. */
  ghost function InputError(params: BinFHECryptoParams, v: LWEValue, s: seq<int>, m: int): int
    requires |v.a| == |s| && 0 < params.lwe.q
  {
    ErrorOf(v.Phase(s), params.lwe.q, m, 4) + LookupError(params, v.a, v.b, params.lwe.q, s)
  }

  /** The bit Bootstrap looks up for the pair (a, b) modulo Q. */
  ghost predicate LargeInputBit(params: BinFHECryptoParams, K: LWESwitchingKey, a: seq<int>, b: int, s: seq<int>)
    requires TableShape(K, params.lwe) && |a| == params.lwe.N && |s| == params.lwe.n
    requires 0 < params.lwe.q && 0 < params.lwe.Q
  {
    var q, Q := params.lwe.q, params.lwe.Q;
    RawOutput(params, AND, LWEValue(SwitchedVector(params.lwe, K, a, Q, q),
                                    ModAddFast(SwitchedOffset(params.lwe, K, a, b, Q, q), Q / 4, q)), s)
  }

  /**
    Where the quarter of Q is outside the margin, for every vector modulo Q some ciphertext with it that
    carries a bit, within the error of the switching chain alone, is looked up as the other bit.
   */
  lemma LargeInputMisread(params: BinFHECryptoParams, K: LWESwitchingKey, a: seq<int>, z: seq<int>, s: seq<int>,
                          noise: int)
    returns (bit: bool, b: int)
    requires SwitchingKeyFor(K, z, s, params.lwe, noise) && TableShape(K, params.lwe) && |a| == params.lwe.N
    requires |s| == params.lwe.n && |z| == |a|
    requires params.lwe.q % 8 == 0 && params.lwe.q <= params.lwe.qKS <= params.lwe.Q
    requires 0 < params.lwe.q && 0 < params.rgsw.N && (2 * params.rgsw.N) % params.lwe.q == 0
    requires !QuarterMargin(params.lwe.Q / 4, params.lwe.q, 0)
    ensures 0 <= b < params.lwe.Q && LargeInputBit(params, K, a, b, s) != bit
    ensures Encodes(PhaseOf(a, b, z), params.lwe.Q, Bit(bit), 4,
                    StartError(params.lwe, params.lwe.Q, params.lwe.q, AbsSum(z, |z|), AbsSum(s, |s|), noise,
                               RoundingSlack(params, s)))
  {
    hide Encodes, LookupPoint, RawOutput, QuarterMargin, PhaseOf, Close, TableShape, SwitchingKeyFor, SwitchedVector,
         SwitchedOffset, Chained, StartError, RoundingSlack, Residues;
    var q, Q := params.lwe.q, params.lwe.Q;
    var a' := SwitchedVector(params.lwe, K, a, Q, q);
    ConstantReads(params, a', s, Q / 4, 0);
    var b': int;
    bit, b' :| 0 <= b' < q && Encodes(LookupPoint(params, a', b', q, s), q, Bit(bit), 4, 0)
            && RawOutput(params, AND, LWEValue(a', ModAddFast(b', Q / 4, q)), s) != bit;
    b := SwitchedOnto(params.lwe, K, a, Q, q, b');
    SwitchedChained(params.lwe, K, a, b, Q, q, z, s, noise);
    LookupPointClose(params, a', b', q, s);
    CloseSym(LookupPoint(params, a', b', q, s), PhaseOf(a', b', s), RoundingSlack(params, s), q);
    EncodesNear(PhaseOf(a', b', s), LookupPoint(params, a', b', q, s), q, Bit(bit), 4, 0, RoundingSlack(params, s));
    ChainEncodesBack(params.lwe, Q, q, PhaseOf(a, b, z), PhaseOf(a', b', s), AbsSum(z, |z|), AbsSum(s, |s|), noise,
                     Bit(bit), 4, RoundingSlack(params, s));
  }

  /**
    From Q = 10q on the bit looked up is a function of the vector, so for every vector modulo Q one of
    the two ciphertexts with phases 0 and Q/4 is looked up as the other bit.
   */
  lemma LargeInputUnread(params: BinFHECryptoParams, K: LWESwitchingKey, a: seq<int>, z: seq<int>, s: seq<int>)
    returns (bit: bool, b: int)
    requires TableShape(K, params.lwe) && |a| == |z| == params.lwe.N && |s| == params.lwe.n
    requires 0 < params.lwe.q && params.lwe.q % 2 == 0 && 10 * params.lwe.q <= params.lwe.Q
    ensures 0 <= b < params.lwe.Q && LargeInputBit(params, K, a, b, s) != bit
    ensures PhaseOf(a, b, z) % params.lwe.Q == if bit then params.lwe.Q / 4 else 0
  {
    hide Inner, TableShape, SwitchedVector, SwitchedOffset, VectorBit, RawOutput;
    var q, Q := params.lwe.q, params.lwe.Q;
    var a' := SwitchedVector(params.lwe, K, a, Q, q);
    bit := !VectorBit(params, AND, a', s);
    var I, y := Inner(a, z, |a|), if bit then Q / 4 else 0;
    b := (y + I) % Q;
    ModMod(y + I, Q);
    ModAddCong(b, y + I, I, I, Q);
    ModSmall(y, Q);
    SwitchedOffsetRange(params.lwe, K, a, b, Q, q);
    OffsetLost(params, AND, LWEValue(a', ModAddFast(SwitchedOffset(params.lwe, K, a, b, Q, q), Q / 4, q)), s);
  }

  /** Core and extraction for a summed input. */
  method GateRefresh(params: BinFHECryptoParams, gate: BinGate, EK: RingGSWBTKey, ct: LWECiphertext, offset: int,
                     ghost sec: Secrets)
    returns (ctExt: LWECiphertext, ghost run: GateRun)
    requires params.Valid() && KeysFor(EK, params, params.rgsw.baseG, sec)
    requires ct.q == params.lwe.q && 2 < ct.q && Residues(ct.a, ct.q) && 0 <= ct.b && |ct.a| == |sec.s|
    requires 0 < ct.p && 0 <= offset < params.lwe.Q
    ensures fresh(ctExt) && ctExt.Valid() && ctExt.q == params.lwe.Q && |ctExt.a| == |sec.z| && ctExt.p == 4
    ensures if ct.b < ct.q then Ran(params, gate, sec, run, ct.p, offset)
            else RanBeyond(params, gate, sec, run, ct.p, offset)
    ensures run.sum == ct.Value() && run.ext == ctExt.Phase(sec.z)
  {
    hide AccKeysFor, IsPow2, Pow, Near, Stretch, AccNoise, Turn, TestVector, Phase, Rot, Coef, SwitchingKeyFor,
         GateTable, Transpose,
         Close, AbsSum, PhaseOf, HalfGap, GateConst, LookupPoint, Holds, TableValue, GateValues, GateOutput,
         RawValues, RawOutput, PlainPowers, MonomialTable, LogTable;
    KeySizes(EK, params, params.rgsw.baseG, sec);
    ghost var N, Q, q, s, base := params.rgsw.N, params.rgsw.Q, ct.q, sec.s, params.rgsw.baseG;
    EvenDivisor(params);
    var acc, m := BootstrapGateCore(params, gate, EK.BSkey, ct, sec);
    ghost var X, noise, cx := Turn(params, ct.a, q, s), AccNoise(params, base, sec), ContextAt(params, base, sec);
    assert acc.Valid(|sec.z|, params.lwe.Q) by { HoldsValid(acc, cx, m, Stretch(N, q) * X, noise); }
    ctExt := Extract(acc, offset, params.lwe.Q, sec.z);
    ghost var gap, ext := HalfGap(params.lwe.Q, ct.p), ctExt.Phase(sec.z);
    ghost var v, q1 := ct.Value(), GateConst(gate, q);
    if ct.b < q {
      ResidueTable(m, N, q, ct.b, q1, gap, Q);
      ExtendedPhase(ext, acc, cx, m, q, ct.b, GateValues(q1, q, gap), X, offset, noise);
      LookedUpSide(params, gate, v, s, gap, Q, acc.err[0], offset, ext);
      run := GateRun(v, GateOutput(params, gate, v, s), acc, ext);
    } else {
      ExtendedPhase(ext, acc, cx, m, q, ct.b, RawValues(ct.b, q1, q, gap), X, offset, noise);
      RawSide(params, gate, v, s, gap);
      run := GateRun(v, RawOutput(params, gate, v, s), acc, ext);
    }
  }

  /** q is a power of two above 2, so it is accepted by every accumulator. */
  lemma EvenDivisor(params: BinFHECryptoParams)
    requires params.Valid()
    ensures params.Accepts(params.lwe.q) && params.lwe.q % 2 == 0
  {
    hide GateTable, PlainPowers, MonomialTable, LogTable, IsPow2, Pow;
    PowerIsEven(params.rgsw.q);
  }

  /**
    The side looked up is the gate's Boolean value whenever the error actually present in the summed
    input, plus the distance at which the table is read, stays inside the gate's margin.
   */
  lemma GateCorrect(params: BinFHECryptoParams, gate: BinGate, v: LWEValue, s: seq<int>, M: int)
    requires var q := params.lwe.q;
             0 < q && q % 2 == 0 && v.Ok(|s|, q) && 0 < params.rgsw.N && (2 * params.rgsw.N) % q == 0
    requires IsXor(gate) ==> M % 2 == 0
    requires GateMargin(gate, params.lwe.q, SumError(params, gate, v, s, M))
    ensures GateOutput(params, gate, v, s) == GateBit(gate, M)
  {
    hide Encodes, InHalf, GateConst, GateMargin, GateBit, PhaseOf, LookupPoint, ErrorOf, LookupError, Close, Residues;
    var q, p := params.lwe.q, GatePlain(gate);
    var e, h := ErrorOf(v.Phase(s), q, M, p), LookupError(params, v.a, v.b, q, s);
    var x := LookupPoint(params, v.a, v.b, q, s);
    ErrorOfExact(v.Phase(s), q, M, p, e);
    LookupErrorBound(params, v.a, v.b, q, s);
    EncodesNear(x, v.Phase(s), q, M, p, e, h);
    GateSide(gate, x, q, M, e + h);
  }

  /** Error of a summed input as an encryption of M, plus the distance at which the table is read. */
  ghost function SumError(params: BinFHECryptoParams, gate: BinGate, v: LWEValue, s: seq<int>, M: int): int
    requires |v.a| == |s| && 0 < params.lwe.q
  {
    ErrorOf(v.Phase(s), params.lwe.q, M, GatePlain(gate)) + LookupError(params, v.a, v.b, params.lwe.q, s)
  }

  /** Inside the margin the bit looked up is the gate's value at M. */
  ghost predicate ComputesAt(params: BinFHECryptoParams, gate: BinGate, sec: Secrets, run: GateRun, M: int) {
    && 0 < params.lwe.q && |run.sum.a| == |sec.s|
    && (GateMargin(gate, params.lwe.q, SumError(params, gate, run.sum, sec.s, M)) ==> run.bit == GateBit(gate, M))
  }

  /** The error of the summed input as an encryption of M is at most E. */
  ghost predicate SumWithin(params: BinFHECryptoParams, sec: Secrets, run: GateRun, M: int, p: int, E: int) {
    |run.sum.a| == |sec.s| && Encodes(run.sum.Phase(sec.s), params.lwe.q, M, p, E)
  }

  /** r carries a bit over p within the worst case of a refresh. */
  ghost predicate Refreshed(params: BinFHECryptoParams, sec: Secrets, r: LWECiphertext, bit: bool, p: int,
                            extended: bool)
    reads params.rgsw, r
  {
    2 <= params.rgsw.baseG && Carries(params, sec, r, Bit(bit), p, GateError(params, params.rgsw.baseG, sec, extended))
  }

  /** A known bound on the error of the summed input bounds SumError. */
  lemma SumErrorBound(params: BinFHECryptoParams, gate: BinGate, v: LWEValue, s: seq<int>, M: int, E: int)
    requires var q := params.lwe.q; 0 < q && v.Ok(|s|, q) && 0 < params.rgsw.N && (2 * params.rgsw.N) % q == 0
    requires Encodes(v.Phase(s), params.lwe.q, M, GatePlain(gate), E)
    ensures 0 <= SumError(params, gate, v, s, M) <= E + RoundingSlack(params, s)
  {
    hide Encodes, PhaseOf, LookupPoint, ErrorOf, LookupError, RoundingSlack;
    ErrorOfExact(v.Phase(s), params.lwe.q, M, GatePlain(gate), E);
    LookupErrorBound(params, v.a, v.b, params.lwe.q, s);
  }

  /** r is what was asked for of a run: the extended ciphertext itself, or its switched form. */
  ghost predicate Delivered(params: BinFHECryptoParams, sec: Secrets, ext: int, r: LWECiphertext, extended: bool)
    reads r
  {
    if extended then r.q == params.lwe.Q && |r.a| == |sec.z| && r.Phase(sec.z) == ext
    else r.q == params.lwe.q && |r.a| == |sec.s| && DownChain(params, sec, ext, r.Phase(sec.s))
  }

  /** Switches back unless the large ciphertext was asked for. */
  method Finish(params: BinFHECryptoParams, EK: RingGSWBTKey, ctExt: LWECiphertext, extended: bool,
                ghost sec: Secrets, ghost m: int, ghost p: int)
    returns (r: LWECiphertext)
    requires params.Valid() && KeysFor(EK, params, params.rgsw.baseG, sec)
    requires ctExt.q == params.lwe.Q && ctExt.p == 4
    requires Carries(params, sec, ctExt, m, p, AccNoise(params, params.rgsw.baseG, sec) + 2)
    ensures r == ctExt || fresh(r)
    ensures r.q == (if extended then params.lwe.Q else params.lwe.q) && r.p == 4
    ensures |ctExt.a| == |sec.z| && Delivered(params, sec, ctExt.Phase(sec.z), r, extended)
    ensures Carries(params, sec, r, m, p, GateError(params, params.rgsw.baseG, sec, extended))
  {
    hide AccKeysFor, IsPow2, Pow, AccNoise, SwitchingKeyFor, GateTable, Encodes, SmallError, PhaseOf, Residues, Chained;
    if extended {
      r := ctExt;
    } else {
      r := Small(params, EK, ctExt, sec, m, p, AccNoise(params, params.rgsw.baseG, sec) + 2);
    }
  }

  // ---------------------------------------------------------------------------
  // The gates
  // ---------------------------------------------------------------------------

  /** The sum of two small inputs, doubled for the XOR gates. */
  function SumValue(gate: BinGate, x: LWEValue, y: LWEValue, q: int): (r: LWEValue)
    requires |x.a| == |y.a|
    ensures |r.a| == |x.a|
  {
    var t := AddValues(x, y, q);
    if IsXor(gate) then AddValues(t, t, q) else t
  }

  lemma SumEncodes(gate: BinGate, x: LWEValue, y: LWEValue, q: int, s: seq<int>, m1: int, m2: int, p: int, e1: int,
                   e2: int)
    requires 0 < q && x.Ok(|s|, q) && y.Ok(|s|, q) && Encodes(x.Phase(s), q, m1, p, e1)
    requires Encodes(y.Phase(s), q, m2, p, e2)
    ensures SumValue(gate, x, y, q).Ok(|s|, q)
    ensures Encodes(SumValue(gate, x, y, q).Phase(s), q, Weight(gate) * (m1 + m2), p, Weight(gate) * (e1 + e2))
  {
    hide Encodes, PhaseOf, Residues, AddVector;
    var t := AddValues(x, y, q);
    AddValuesPhase(x, y, q, s);
    AddedEncodes(x.Phase(s), y.Phase(s), t.Phase(s), q, m1, m2, p, e1, e2);
    if IsXor(gate) {
      AddValuesPhase(t, t, q, s);
      AddedEncodes(t.Phase(s), t.Phase(s), AddValues(t, t, q).Phase(s), q, m1 + m2, m1 + m2, p, e1 + e2, e1 + e2);
    }
  }

  /** sum is the summed input of x and y, each of its own modulus. */
  ghost predicate SumOf(params: BinFHECryptoParams, K: LWESwitchingKey, gate: BinGate, x: LWEValue, modx: int,
                        y: LWEValue, mody: int, sum: LWEValue) {
    var x', y' := SmallForm(params, K, x, modx), SmallForm(params, K, y, mody);
    |x'.a| == |y'.a| && sum == SumValue(gate, x', y', params.lwe.q)
  }

  /** The homomorphic sum of two inputs. */
  method WeightedSum(params: BinFHECryptoParams, gate: BinGate, EK: RingGSWBTKey, ct1: LWECiphertext,
                     ct2: LWECiphertext,
                     ghost sec: Secrets, ghost m1: int, ghost m2: int, ghost p: int, ghost e1: int, ghost e2: int)
    returns (cct1: LWECiphertext)
    requires params.lwe.q != params.lwe.Q && SwitchingKeyFor(EK.KSkey, sec.z, sec.s, params.lwe, sec.ksNoise)
    requires ct1 != ct2 && Carries(params, sec, ct1, m1, p, e1) && Carries(params, sec, ct2, m2, p, e2)
    ensures fresh(cct1) && cct1.Valid() && cct1.q == params.lwe.q && |cct1.a| == |sec.s| && cct1.p == 4
    ensures SumOf(params, EK.KSkey, gate, ct1.Value(), ct1.q, ct2.Value(), ct2.q, cct1.Value())
    ensures Encodes(cct1.Phase(sec.s), cct1.q, Weight(gate) * (m1 + m2), p,
                    Weight(gate) * (SmallError(params, sec, ct1.q, e1) + SmallError(params, sec, ct2.q, e2)))
  {
    hide SwitchingKeyFor, Encodes, SmallError, PhaseOf, Residues, AddVector, DownChain, Weight, SmallForm;
    cct1 := SmallCopy(params, EK, ct1, sec, m1, p, e1);
    var cct2 := Small(params, EK, ct2, sec, m2, p, e2);
    ghost var x, y := cct1.Value(), cct2.Value();
    SumEncodes(gate, x, y, params.lwe.q, sec.s, m1, m2, p, SmallError(params, sec, ct1.q, e1),
               SmallError(params, sec, ct2.q, e2));
    EvalAddEq(cct1, cct2, sec.s);
    if IsXor(gate) {
      EvalAddEq(cct1, cct1, sec.s);
    }
    assert cct1.Value() == SumValue(gate, x, y, params.lwe.q);
  }

  lemma DifferentModuli(params: BinFHECryptoParams)
    requires params.Valid()
    ensures params.lwe.q != params.lwe.Q
  {
    hide GateTable, PlainPowers, MonomialTable, LogTable, IsPow2, Pow;
  }

  lemma SwitchingPart(EK: RingGSWBTKey, params: BinFHECryptoParams, base: int, sec: Secrets)
    requires KeysFor(EK, params, base, sec)
    ensures SwitchingKeyFor(EK.KSkey, sec.z, sec.s, params.lwe, sec.ksNoise)
  {}

  /**
    EvalBinGate on two ciphertexts of any message and error: the output carries the bit of the side
    looked up, with an error that depends on the keys alone, and that bit is the gate's function of
    the inputs whenever the actual error of the summed input is inside the margin.
   */
  method EvalBinGate(params: BinFHECryptoParams, gate: BinGate, EK: RingGSWBTKey, ct1: LWECiphertext,
                     ct2: LWECiphertext,
                     extended: bool, ghost sec: Secrets, ghost m1: int, ghost m2: int, ghost e1: int, ghost e2: int)
    returns (r: LWECiphertext, ghost run: GateRun)
    requires params.Valid() && KeysFor(EK, params, params.rgsw.baseG, sec) && ct1 != ct2
    requires Carries(params, sec, ct1, m1, GatePlain(gate), e1) && Carries(params, sec, ct2, m2, GatePlain(gate), e2)
    ensures fresh(r) && r.q == (if extended then params.lwe.Q else params.lwe.q) && r.p == 4
    ensures Ran(params, gate, sec, run, 4, HalfGap(params.lwe.Q, 4)) && Delivered(params, sec, run.ext, r, extended)
    ensures Refreshed(params, sec, r, run.bit, 4, extended)
    ensures SumOf(params, EK.KSkey, gate, ct1.Value(), ct1.q, ct2.Value(), ct2.q, run.sum)
    ensures SumWithin(params, sec, run, Weight(gate) * (m1 + m2), GatePlain(gate),
                      Weight(gate) * (SmallError(params, sec, ct1.q, e1) + SmallError(params, sec, ct2.q, e2)))
    ensures ComputesAt(params, gate, sec, run, Weight(gate) * (m1 + m2))
  {
    hide AccKeysFor, IsPow2, Pow, AccNoise, SwitchingKeyFor, GateTable, Encodes, SmallError, PhaseOf, Residues,
         GateMargin, SumValue, SumError,
         GateBit, Close, HalfGap, RoundingSlack, Bit, PlainPowers, MonomialTable, LogTable, Carries, GateError, Weight,
         Ran, GateOutput,
         ComputesAt, Delivered, KeysFor, BinFHECryptoParams.Valid, SumOf;
    assert params.lwe.Valid() && 2 <= params.rgsw.baseG
        && SwitchingKeyFor(EK.KSkey, sec.z, sec.s, params.lwe, sec.ksNoise) by {
      KeySizes(EK, params, params.rgsw.baseG, sec);
      SwitchingPart(EK, params, params.rgsw.baseG, sec);
    }
    DifferentModuli(params);
    ghost var M := Weight(gate) * (m1 + m2);
    var cct1 := WeightedSum(params, gate, EK, ct1, ct2, sec, m1, m2, GatePlain(gate), e1, e2);
    DoubledIsEven(gate, m1 + m2);
    OffsetFour(params.lwe.Q);
    r, run := RefreshSum(params, gate, EK, cct1, params.lwe.Q / 8 + 1, extended, sec, M);
  }

  /** What both gates do with the summed input: core, extraction and the way back. */
  method RefreshSum(params: BinFHECryptoParams, gate: BinGate, EK: RingGSWBTKey, ct: LWECiphertext, offset: int,
                    extended: bool,
                    ghost sec: Secrets, ghost M: int)
    returns (r: LWECiphertext, ghost run: GateRun)
    requires params.Valid() && KeysFor(EK, params, params.rgsw.baseG, sec) && (IsXor(gate) ==> M % 2 == 0)
    requires ct.Valid() && ct.q == params.lwe.q && |ct.a| == |sec.s| && 0 < ct.p
    requires offset == HalfGap(params.lwe.Q, ct.p) && 0 <= offset < params.lwe.Q
    ensures fresh(r) && r.q == (if extended then params.lwe.Q else params.lwe.q) && r.p == 4
    ensures Ran(params, gate, sec, run, ct.p, HalfGap(params.lwe.Q, ct.p))
    ensures Delivered(params, sec, run.ext, r, extended)
    ensures Refreshed(params, sec, r, run.bit, ct.p, extended)
    ensures run.sum == ct.Value() && ComputesAt(params, gate, sec, run, M)
  {
    hide AccKeysFor, AccNoise, SwitchingKeyFor, PhaseOf, Residues, HalfGap, Bit, Carries, GateError, Ran, GateOutput,
         ComputesAt, KeysFor,
         BinFHECryptoParams.Valid, DownChain;
    KeySizes(EK, params, params.rgsw.baseG, sec);
    var ctExt;
    ctExt, run := GateRefresh(params, gate, EK, ct, offset, sec);
    RanCarries(params, gate, sec, run, ct.p, ctExt);
    r := Finish(params, EK, ctExt, extended, sec, Bit(run.bit), ct.p);
    RanCorrect(params, gate, sec, run, ct.p, HalfGap(params.lwe.Q, ct.p), M);
  }

  lemma RanCarries(params: BinFHECryptoParams, gate: BinGate, sec: Secrets, run: GateRun, p: int, ct: LWECiphertext)
    requires 0 < p && Ran(params, gate, sec, run, p, HalfGap(params.lwe.Q, p))
    requires ct.Valid() && ct.q == params.lwe.Q && |ct.a| == |sec.z| && ct.Phase(sec.z) == run.ext
    ensures Carries(params, sec, ct, Bit(run.bit), p, AccNoise(params, params.rgsw.baseG, sec) + 2)
  {
    hide Close, HalfGap, PhaseOf, Holds, TestVector, GateOutput, AccNoise, Carries;
    var noise, gap, Q := AccNoise(params, params.rgsw.baseG, sec), HalfGap(params.lwe.Q, p), params.lwe.Q;
    var v, err := Side(run.bit, gap) + gap, run.acc.err[0];
    CloseIntro(v + err, v, noise, Q, 0);
    CloseCong(v + err, v, run.ext, v, noise, Q);
    ExtendedCarries(params, sec, ct, run.bit, p, noise);
  }

  lemma RanCorrect(params: BinFHECryptoParams, gate: BinGate, sec: Secrets, run: GateRun, p: int, offset: int, M: int)
    requires params.Valid() && Ran(params, gate, sec, run, p, offset) && (IsXor(gate) ==> M % 2 == 0)
    ensures ComputesAt(params, gate, sec, run, M)
  {
    hide Holds, TestVector, GateOutput, AccNoise, GateMargin, SumError, GateBit, GateTable, PlainPowers, MonomialTable,
         LogTable, IsPow2, Residues;
    EvenDivisor(params);
    if GateMargin(gate, params.lwe.q, SumError(params, gate, run.sum, sec.s, M)) {
      GateCorrect(params, gate, run.sum, sec.s, M);
    }
  }

  lemma DoubledIsEven(gate: BinGate, m: int)
    ensures IsXor(gate) ==> (Weight(gate) * m) % 2 == 0
  {}

  lemma ExtendedCarries(params: BinFHECryptoParams, sec: Secrets, ct: LWECiphertext, bit: bool, p: int, noise: int)
    requires ct.Valid() && ct.q == params.lwe.Q && |ct.a| == |sec.z| && 0 < p
    requires var gap := HalfGap(ct.q, p); Close(ct.Phase(sec.z), (if bit then gap else 0 - gap) + gap, noise, ct.q)
    ensures Carries(params, sec, ct, Bit(bit), p, noise + 2)
  {
    hide Close, Encodes, HalfGap, PhaseOf, Residues, Bit;
    GateValueEncodes(ct.Phase(sec.z), bit, ct.q, p, noise);
  }

  lemma OffsetFour(Q: int)
    requires 2 < Q
    ensures Q / 8 + 1 == HalfGap(Q, 4) && 0 <= Q / 8 + 1 < Q
  {}

  lemma AddedEncodes(x: int, y: int, w: int, q: int, m: int, n: int, p: int, e: int, f: int)
    requires Encodes(x, q, m, p, e) && Encodes(y, q, n, p, f) && w % q == (x + y) % q
    ensures Encodes(w, q, m + n, p, e + f)
  {
    hide Encodes;
    EncodesPositive(x, q, m, p, e);
    EncodesAdd(x, y, q, m, n, p, e, f);
    EncodesCong(x + y, w, q, m + n, p, e + f);
  }

  // ---------------------------------------------------------------------------
  // Gates on vectors of ciphertexts
  // ---------------------------------------------------------------------------

  function Total(ms: seq<int>, n: nat): int
    requires n <= |ms|
  {
    if n == 0 then 0 else Total(ms, n - 1) + ms[n - 1]
  }

  /** Every input carries its message, with error at most e once it is small. */
  ghost predicate CarriesAll(params: BinFHECryptoParams, sec: Secrets, cts: seq<LWECiphertext>, ms: seq<int>, p: int,
                             es: seq<int>, e: int)
    reads cts
  {
    && |ms| == |es| == |cts|
    && forall i :: 0 <= i < |cts| ==>
         Carries(params, sec, cts[i], ms[i], p, es[i]) && SmallError(params, sec, cts[i].q, es[i]) <= e
  }

  /** The sum of the first n of some small inputs, in the order of the loop. */
  function SumAll(vs: seq<LWEValue>, q: int, n: nat): (r: LWEValue)
    requires 1 <= n <= |vs| && forall i :: 0 <= i < |vs| ==> |vs[i].a| == |vs[0].a|
    ensures |r.a| == |vs[0].a|
  {
    if n == 1 then vs[0] else AddValues(SumAll(vs, q, n - 1), vs[n - 1], q)
  }

  /** All of them in the form gates sum. */
  ghost function SmallForms(params: BinFHECryptoParams, K: LWESwitchingKey, cts: seq<LWECiphertext>): (r: seq<LWEValue>)
    reads cts
    ensures |r| == |cts|
  {
    seq(|cts|, i requires 0 <= i < |cts| reads cts => SmallForm(params, K, cts[i].Value(), cts[i].q))
  }

  /** sum is the sum of the first n of them. */
  ghost predicate SumsTo(vs: seq<LWEValue>, q: int, n: nat, sum: LWEValue) {
    1 <= n <= |vs| && (forall i :: 0 <= i < |vs| ==> |vs[i].a| == |vs[0].a|) && sum == SumAll(vs, q, n)
  }

  /** One iteration of the summing loop. */
  method AddInput(params: BinFHECryptoParams, EK: RingGSWBTKey, ct: LWECiphertext, next: LWECiphertext,
                  ghost sec: Secrets, ghost m: int, ghost n: int, ghost p: int, ghost e: int, ghost f: int,
                  ghost bound: int)
    requires params.lwe.q != params.lwe.Q && SwitchingKeyFor(EK.KSkey, sec.z, sec.s, params.lwe, sec.ksNoise)
    requires ct != next && ct.Valid() && ct.q == params.lwe.q && |ct.a| == |sec.s|
    requires Encodes(ct.Phase(sec.s), ct.q, m, p, e)
    requires Carries(params, sec, next, n, p, f) && SmallError(params, sec, next.q, f) <= bound
    modifies ct`a, ct`b
    ensures ct.Valid() && |ct.a| == |sec.s| && Encodes(ct.Phase(sec.s), ct.q, m + n, p, e + bound)
    ensures var v := SmallForm(params, EK.KSkey, next.Value(), next.q);
            |v.a| == |old(ct.a)| && ct.Value() == AddValues(old(ct.Value()), v, params.lwe.q)
  {
    hide SwitchingKeyFor, Encodes, SmallError, PhaseOf, Residues, AddVector, DownChain, SmallForm;
    var c := Small(params, EK, next, sec, n, p, f);
    ghost var x, y, g := ct.Phase(sec.s), c.Phase(sec.s), SmallError(params, sec, next.q, f);
    EvalAddEq(ct, c, sec.s);
    AddedEncodes(x, y, ct.Phase(sec.s), ct.q, m, n, p, e, g);
    EncodesWiden(ct.Phase(sec.s), ct.q, m + n, p, e + g, e + bound);
  }

  lemma FormSizes(params: BinFHECryptoParams, K: LWESwitchingKey, cts: seq<LWECiphertext>, sec: Secrets, ms: seq<int>,
                  p: int, es: seq<int>)
    requires params.lwe.q != params.lwe.Q && SwitchingKeyFor(K, sec.z, sec.s, params.lwe, sec.ksNoise)
    requires |ms| == |es| == |cts|
    requires forall i :: 0 <= i < |cts| ==> Carries(params, sec, cts[i], ms[i], p, es[i])
    ensures forall i :: 0 <= i < |cts| ==> |SmallForms(params, K, cts)[i].a| == |sec.s|
  {
    hide SwitchingKeyFor, Encodes, Residues, TableShape;
    forall i | 0 <= i < |cts|
      ensures |SmallForms(params, K, cts)[i].a| == |sec.s|
    {
      assert Carries(params, sec, cts[i], ms[i], p, es[i]);
      FormSize(params, K, cts[i].Value(), cts[i].q, sec);
    }
  }

  lemma FormSize(params: BinFHECryptoParams, K: LWESwitchingKey, v: LWEValue, mod: int, sec: Secrets)
    requires SwitchingKeyFor(K, sec.z, sec.s, params.lwe, sec.ksNoise)
    requires if mod == params.lwe.Q then |v.a| == |sec.z| else |v.a| == |sec.s|
    ensures |SmallForm(params, K, v, mod).a| == |sec.s|
  {
    hide SwitchingKeyFor, TableShape;
    SwitchingKeySizes(K, sec.z, sec.s, params.lwe, sec.ksNoise);
    SwitchingKeyShape(K, sec.z, sec.s, params.lwe, sec.ksNoise);
  }

  /** The sum of all inputs. */
  method SumInputs(params: BinFHECryptoParams, EK: RingGSWBTKey, ctvector: seq<LWECiphertext>,
                   ghost sec: Secrets, ghost ms: seq<int>, ghost p: int, ghost es: seq<int>, ghost e: int)
    returns (ct: LWECiphertext)
    requires params.lwe.q != params.lwe.Q && SwitchingKeyFor(EK.KSkey, sec.z, sec.s, params.lwe, sec.ksNoise)
    requires 1 <= |ctvector| && CarriesAll(params, sec, ctvector, ms, p, es, e)
    ensures fresh(ct) && ct.Valid() && ct.q == params.lwe.q && |ct.a| == |sec.s|
    ensures SumsTo(SmallForms(params, EK.KSkey, ctvector), params.lwe.q, |ctvector|, ct.Value())
    ensures Encodes(ct.Phase(sec.s), ct.q, Total(ms, |ms|), p, |ctvector| * e)
  {
    hide SwitchingKeyFor, Encodes, SmallError, PhaseOf, Residues, AddVector, DownChain, SmallForm;
    FormSizes(params, EK.KSkey, ctvector, sec, ms, p, es);
    ct := SmallCopy(params, EK, ctvector[0], sec, ms[0], p, es[0]);
    assert Total(ms, 1) == ms[0] by { assert Total(ms, 0) == 0; }
    EncodesWiden(ct.Phase(sec.s), ct.q, ms[0], p, SmallError(params, sec, ctvector[0].q, es[0]), 1 * e);
    for i := 1 to |ctvector|
      invariant fresh(ct) && ct.Valid() && ct.q == params.lwe.q && |ct.a| == |sec.s|
      invariant SumsTo(SmallForms(params, EK.KSkey, ctvector), params.lwe.q, i, ct.Value())
      invariant Encodes(ct.Phase(sec.s), ct.q, Total(ms, i), p, i * e)
    {
      CountStep(i, e);
      AddInput(params, EK, ct, ctvector[i], sec, Total(ms, i), ms[i], p, i * e, es[i], e);
    }
  }

  /**
    EvalBinGate on a vector: MAJORITY, AND3, OR3, AND4 and OR4, for any number of inputs of any
    message and error; the output is over the plaintext modulus of the first input.
   */
  method EvalBinGateVector(params: BinFHECryptoParams, gate: BinGate, EK: RingGSWBTKey, ctvector: seq<LWECiphertext>,
                           extended: bool,
                           ghost sec: Secrets, ghost ms: seq<int>, ghost es: seq<int>, ghost e: int)
    returns (r: LWECiphertext, ghost run: GateRun)
    requires params.Valid() && KeysFor(EK, params, params.rgsw.baseG, sec) && gate in {MAJORITY, AND3, OR3, AND4, OR4}
    requires 1 <= |ctvector| && forall i, j :: 0 <= i < j < |ctvector| ==> ctvector[i] != ctvector[j]
    requires CarriesAll(params, sec, ctvector, ms, GatePlain(gate), es, e) && 0 < ctvector[0].p
    ensures fresh(r) && r.q == (if extended then params.lwe.Q else params.lwe.q) && r.p == ctvector[0].p
    ensures Ran(params, gate, sec, run, r.p, HalfGap(params.lwe.Q, r.p)) && Delivered(params, sec, run.ext, r, extended)
    ensures Refreshed(params, sec, r, run.bit, r.p, extended)
    ensures SumsTo(SmallForms(params, EK.KSkey, ctvector), params.lwe.q, |ctvector|, run.sum)
    ensures SumWithin(params, sec, run, Total(ms, |ms|), GatePlain(gate), |ctvector| * e)
    ensures ComputesAt(params, gate, sec, run, Total(ms, |ms|))
  {
    hide AccKeysFor, IsPow2, Pow, AccNoise, SwitchingKeyFor, GateTable, Encodes, SmallError, PhaseOf, Residues,
         GateMargin, SumError,
         GateBit, Close, HalfGap, RoundingSlack, Bit, PlainPowers, MonomialTable, LogTable, GateError, Total,
         CarriesAll, Ran, GateOutput, SumsTo,
         SmallForms, DownChain, ComputesAt, KeysFor, BinFHECryptoParams.Valid;
    assert params.lwe.Valid() && 2 <= params.rgsw.baseG
        && SwitchingKeyFor(EK.KSkey, sec.z, sec.s, params.lwe, sec.ksNoise) by {
      KeySizes(EK, params, params.rgsw.baseG, sec);
      SwitchingPart(EK, params, params.rgsw.baseG, sec);
    }
    DifferentModuli(params);
    ghost var M := Total(ms, |ms|);
    var ct := SumInputs(params, EK, ctvector, sec, ms, GatePlain(gate), es, e);
    var p := ctvector[0].p;
    ct.p := p;
    HalfGapSmall(params.lwe.Q, p);
    r, run := RefreshSum(params, gate, EK, ct, HalfGap(params.lwe.Q, p), extended, sec, M);
    r.p := p;
  }

  // ---------------------------------------------------------------------------
  // Refreshing and negation
  // ---------------------------------------------------------------------------

  /**
    What Bootstrap returns: before switching the phase is BootstrapValue plus the accumulated error; the
    result carries the bit over 4 when the two gaps agree, and otherwise that value over Q.
   */
  ghost predicate Bootstrapped(params: BinFHECryptoParams, sec: Secrets, run: GateRun, p: int, r: LWECiphertext,
                               extended: bool)
    reads params.rgsw, run.acc, r
  {
    var Q := params.lwe.Q;
    && 0 < p && 0 < Q && 1 <= |run.acc.err| && 2 <= params.rgsw.baseG
    && run.ext % Q == (BootstrapValue(run.bit, Q, p) + run.acc.err[0]) % Q
    && if Q / (p * 2) == Q / 8 then Refreshed(params, sec, r, run.bit, 4, extended)
       else Carries(params, sec, r, BootstrapValue(run.bit, Q, p), Q,
                    GateError(params, params.rgsw.baseG, sec, extended))
  }

  /**
    What Bootstrap looks up: small is the input brought to q, and the quarter of the input's own modulus
    is added to it.
   */
  ghost predicate BootstrapRan(params: BinFHECryptoParams, sec: Secrets, run: GateRun, small: LWEValue, mod: int,
                               offset: int)
    reads params.rgsw, run.acc
  {
    && 0 < params.lwe.q && small.Ok(|sec.s|, params.lwe.q)
    && run.sum == LWEValue(small.a, ModAddFast(small.b, mod / 4, params.lwe.q))
    && run.bit == RawOutput(params, AND, run.sum, sec.s)
    && if run.sum.b < params.lwe.q then Ran(params, AND, sec, run, 4, offset)
       else RanBeyond(params, AND, sec, run, 4, offset)
  }

  /**
    When that bit is the message: whether both bits survive the constant for every offset is a condition on
    the moduli alone, and this input's bit m survives whenever its actual error leaves it in the margin.
   */
  ghost predicate MessageRead(params: BinFHECryptoParams, s: seq<int>, small: LWEValue, bit: bool, mod: int, m: int)
    requires |small.a| == |s| && 0 < params.lwe.q
  {
    && (forall e: nat :: ReadsAll(params, small.a, s, mod / 4, e) <==> QuarterMargin(mod / 4, params.lwe.q, e))
    && ((m == 0 || m == 1) && QuarterMargin(mod / 4, params.lwe.q, InputError(params, small, s, m)) ==>
          (bit <==> m == 1))
  }

  /** Brings the input to q and adds the quarter of its own modulus. */
  method QuarterAdded(params: BinFHECryptoParams, EK: RingGSWBTKey, ct: LWECiphertext,
                      ghost sec: Secrets, ghost m: int, ghost e: int)
    returns (cct: LWECiphertext, ghost small: LWEValue)
    requires params.lwe.q != params.lwe.Q && SwitchingKeyFor(EK.KSkey, sec.z, sec.s, params.lwe, sec.ksNoise)
    requires Carries(params, sec, ct, m, 4, e)
    ensures fresh(cct) && cct.q == params.lwe.q && 2 < cct.q && cct.p == 4 && 0 <= cct.b && 2 < ct.q
    ensures small.Ok(|sec.s|, params.lwe.q)
    ensures Encodes(small.Phase(sec.s), params.lwe.q, m, 4, SmallError(params, sec, ct.q, e))
    ensures cct.Value() == LWEValue(small.a, ModAddFast(small.b, ct.q / 4, params.lwe.q))
    ensures small == SmallForm(params, EK.KSkey, ct.Value(), ct.q)
    ensures ct.q == params.lwe.q ==>
              small == ct.Value() && cct.Value() == LWEValue(ct.a, (ct.b + params.lwe.q / 4) % params.lwe.q)
  {
    hide SwitchingKeyFor, Encodes, SmallError, PhaseOf, Residues, DownChain, TableShape, SwitchedVector, SwitchedOffset;
    cct := SmallCopy(params, EK, ct, sec, m, 4, e);
    small := cct.Value();
    EvalAddConstEq(cct, ct.q / 4, sec.s);
  }

  /**
    Bootstrap, for inputs at either modulus: before switching, the phase is BootstrapValue plus the
    accumulated error, for every plaintext modulus p of the input; for plaintext modulus 4 it carries
    the bit. MessageRead says when that bit is the message; for an input modulo Q it is
    LargeInputBit of its vector and offset.
   */
  method Bootstrap(params: BinFHECryptoParams, EK: RingGSWBTKey, ct: LWECiphertext, extended: bool,
                   ghost sec: Secrets, ghost m: int, ghost e: int)
    returns (r: LWECiphertext, ghost run: GateRun, ghost small: LWEValue)
    requires params.Valid() && KeysFor(EK, params, params.rgsw.baseG, sec)
    requires Carries(params, sec, ct, m, 4, e) && 0 < ct.p
    ensures fresh(r) && r.q == (if extended then params.lwe.Q else params.lwe.q) && r.p == ct.p
    ensures |small.a| == |sec.s| && small == SmallForm(params, EK.KSkey, ct.Value(), ct.q)
    ensures Encodes(small.Phase(sec.s), params.lwe.q, m, 4, SmallError(params, sec, ct.q, e))
    ensures BootstrapRan(params, sec, run, small, ct.q, HalfGap(params.lwe.Q, ct.p))
    ensures Delivered(params, sec, run.ext, r, extended) && Bootstrapped(params, sec, run, ct.p, r, extended)
    ensures ct.q == params.lwe.q ==>
              small == ct.Value() && run.sum == LWEValue(ct.a, (ct.b + params.lwe.q / 4) % params.lwe.q)
              && Ran(params, AND, sec, run, 4, HalfGap(params.lwe.Q, ct.p)) && ComputesAt(params, AND, sec, run, m + 1)
    ensures params.lwe.q % 8 == 0 ==> MessageRead(params, sec.s, small, run.bit, ct.q, m)
    ensures ct.q == params.lwe.Q ==>
              TableShape(EK.KSkey, params.lwe) && |ct.a| == params.lwe.N && |sec.s| == params.lwe.n && 0 < params.lwe.Q
              && run.bit == LargeInputBit(params, EK.KSkey, ct.a, ct.b, sec.s)
  {
    hide AccKeysFor, IsPow2, Pow, AccNoise, SwitchingKeyFor, GateTable, Encodes, SmallError, PhaseOf, Residues,
         ComputesAt, DownChain, Ran, RanBeyond, RawOutput, Carries, Delivered, Bootstrapped, MessageRead, TableShape,
         SwitchedVector, SwitchedOffset,
         HalfGap, Bit, PlainPowers, MonomialTable, LogTable, GateError, KeysFor, BinFHECryptoParams.Valid,
         BootstrapValue;
    assert params.lwe.Valid() && 2 <= params.rgsw.baseG
        && SwitchingKeyFor(EK.KSkey, sec.z, sec.s, params.lwe, sec.ksNoise) by {
      KeySizes(EK, params, params.rgsw.baseG, sec);
      SwitchingPart(EK, params, params.rgsw.baseG, sec);
    }
    LargeSizes(params, EK.KSkey, ct, sec, m, 4, e);
    DifferentModuli(params);
    ghost var Q, p := params.lwe.Q, ct.p;
    var cct;
    cct, small := QuarterAdded(params, EK, ct, sec, m, e);
    HalfGapSmall(params.lwe.Q, ct.p);
    var ctExt;
    ctExt, run := GateRefresh(params, AND, EK, cct, HalfGap(params.lwe.Q, ct.p), sec);
    assert run.bit == RawOutput(params, AND, run.sum, sec.s) by {
      RefreshedBit(params, AND, sec, run, 4, HalfGap(Q, p));
    }
    if ct.q == params.lwe.q {
      RanCorrect(params, AND, sec, run, 4, HalfGap(Q, p), m + 1);
    }
    if params.lwe.q % 8 == 0 {
      BootstrapReading(params, sec.s, small, run.bit, ct.q, m);
    }
    r := BootstrapEnd(params, EK, ctExt, extended, ct.p, sec, run);
  }

  lemma LargeSizes(params: BinFHECryptoParams, K: LWESwitchingKey, ct: LWECiphertext, sec: Secrets, m: int, p: int,
                   e: int)
    requires SwitchingKeyFor(K, sec.z, sec.s, params.lwe, sec.ksNoise) && Carries(params, sec, ct, m, p, e)
    ensures TableShape(K, params.lwe) && |sec.s| == params.lwe.n
    ensures ct.q == params.lwe.Q ==> |ct.a| == params.lwe.N && 0 < params.lwe.Q
  {
    hide SwitchingKeyFor, TableShape, Encodes, Residues;
    SwitchingKeySizes(K, sec.z, sec.s, params.lwe, sec.ksNoise);
    SwitchingKeyShape(K, sec.z, sec.s, params.lwe, sec.ksNoise);
  }

  lemma RefreshedBit(params: BinFHECryptoParams, gate: BinGate, sec: Secrets, run: GateRun, p: int, offset: int)
    requires params.Valid() && (Ran(params, gate, sec, run, p, offset) || RanBeyond(params, gate, sec, run, p, offset))
    ensures 0 < params.lwe.q && |run.sum.a| == |sec.s| && run.bit == RawOutput(params, gate, run.sum, sec.s)
  {
    hide Holds, TestVector, AccNoise, RawOutput, GateOutput, Residues, Stretch, HalfGap, BinFHECryptoParams.Valid;
    EvenDivisor(params);
    if Ran(params, gate, sec, run, p, offset) {
      RawIsOutput(params, gate, run.sum, sec.s);
    }
  }

  lemma BootstrapReading(params: BinFHECryptoParams, s: seq<int>, small: LWEValue, bit: bool, mod: int, m: int)
    requires params.Valid() && params.lwe.q % 8 == 0 && small.Ok(|s|, params.lwe.q) && 0 <= mod
    requires bit == RawOutput(params, AND, LWEValue(small.a, ModAddFast(small.b, mod / 4, params.lwe.q)), s)
    ensures MessageRead(params, s, small, bit, mod, m)
  {
    hide GateTable, PlainPowers, MonomialTable, LogTable, IsPow2, Pow, RawOutput, QuarterMargin, ReadsAll, InputError;
    EvenDivisor(params);
    forall e: nat
      ensures ReadsAll(params, small.a, s, mod / 4, e) <==> QuarterMargin(mod / 4, params.lwe.q, e)
    {
      ConstantReads(params, small.a, s, mod / 4, e);
    }
    if (m == 0 || m == 1) && QuarterMargin(mod / 4, params.lwe.q, InputError(params, small, s, m)) {
      ConstantRead(params, small, s, mod / 4, m == 1);
    }
  }

  /** The way back of Bootstrap, with the plaintext modulus of its input. */
  method BootstrapEnd(params: BinFHECryptoParams, EK: RingGSWBTKey, ctExt: LWECiphertext, extended: bool, p: int,
                      ghost sec: Secrets, ghost run: GateRun)
    returns (r: LWECiphertext)
    requires params.Valid() && KeysFor(EK, params, params.rgsw.baseG, sec) && 0 < p
    requires var offset := HalfGap(params.lwe.Q, p);
             (Ran(params, AND, sec, run, 4, offset) || RanBeyond(params, AND, sec, run, 4, offset))
    requires ctExt.Valid() && ctExt.q == params.lwe.Q && |ctExt.a| == |sec.z| && ctExt.p == 4
    requires ctExt.Phase(sec.z) == run.ext
    modifies ctExt
    ensures r == ctExt || fresh(r)
    ensures r.q == (if extended then params.lwe.Q else params.lwe.q) && r.p == p
    ensures Delivered(params, sec, run.ext, r, extended) && Bootstrapped(params, sec, run, p, r, extended)
  {
    hide AccKeysFor, IsPow2, Pow, AccNoise, SwitchingKeyFor, GateTable, Encodes, SmallError, PhaseOf, Residues,
         DownChain, Ran, RanBeyond,
         HalfGap, Bit, PlainPowers, MonomialTable, LogTable, GateError, KeysFor, BinFHECryptoParams.Valid,
         BootstrapValue;
    KeySizes(EK, params, params.rgsw.baseG, sec);
    ghost var Q := params.lwe.Q;
    ghost var same := HalfGap(Q, p) == HalfGap(Q, 4);
    BootstrapCarries(params, sec, run, p, ctExt);
    SameGaps(Q, p);
    r := Finish(params, EK, ctExt, extended, sec,
                if same then Bit(run.bit) else BootstrapValue(run.bit, Q, p), if same then 4 else Q);
    r.p := p;
  }

  lemma BootstrapCarries(params: BinFHECryptoParams, sec: Secrets, run: GateRun, p: int, ct: LWECiphertext)
    requires 0 < p
    requires var offset := HalfGap(params.lwe.Q, p);
             (Ran(params, AND, sec, run, 4, offset) || RanBeyond(params, AND, sec, run, 4, offset))
    requires ct.Valid() && ct.q == params.lwe.Q && |ct.a| == |sec.z| && ct.Phase(sec.z) == run.ext
    ensures 1 <= |run.acc.err| && 0 < params.lwe.Q
    ensures run.ext % params.lwe.Q == (BootstrapValue(run.bit, params.lwe.Q, p) + run.acc.err[0]) % params.lwe.Q
    ensures if HalfGap(params.lwe.Q, p) == HalfGap(params.lwe.Q, 4)
            then Carries(params, sec, ct, Bit(run.bit), 4, AccNoise(params, params.rgsw.baseG, sec) + 2)
            else Carries(params, sec, ct, BootstrapValue(run.bit, params.lwe.Q, p), params.lwe.Q,
                         AccNoise(params, params.rgsw.baseG, sec) + 2)
  {
    hide Close, HalfGap, PhaseOf, Holds, TestVector, GateOutput, AccNoise, Carries;
    var noise, Q := AccNoise(params, params.rgsw.baseG, sec), params.lwe.Q;
    var v, err := BootstrapValue(run.bit, Q, p), run.acc.err[0];
    CloseIntro(v + err, v, noise, Q, 0);
    CloseCong(v + err, v, run.ext, v, noise, Q);
    if HalfGap(Q, p) == HalfGap(Q, 4) {
      ExtendedCarries(params, sec, ct, run.bit, 4, noise);
    } else {
      PlacedCarries(params, sec, ct, v, noise);
    }
  }

  lemma SameGaps(Q: int, p: int)
    requires 0 < p
    ensures HalfGap(Q, p) == HalfGap(Q, 4) <==> Q / (p * 2) == Q / 8
  {}

  lemma SmallErrorSame(params: BinFHECryptoParams, sec: Secrets, mod: int, e: int)
    requires mod != params.lwe.Q
    ensures SmallError(params, sec, mod, e) == e
  {}

  /** A quarter of q encodes 1 over 4 when 4 divides q. */
  lemma QuarterEncodes(q: int)
    requires 0 < q && q % 4 == 0
    ensures Encodes(q / 4, q, 1, 4, 0)
  {
    EncodesIntro(q / 4, q, 1, 4, 0, 0);
  }

  /**
    Bootstrap looks up the bit its input encodes over p whenever the input's actual error, plus the
    distance at which the table is read, is within ReadMargin.
   */
  lemma BootstrapKeepsInput(params: BinFHECryptoParams, x: LWEValue, y: LWEValue, s: seq<int>, bit: bool, p: int)
    requires var q := params.lwe.q;
             0 < q && q % 8 == 0 && y == LWEValue(x.a, (x.b + q / 4) % q) && x.Ok(|s|, q) && 2 <= p
    requires 0 < params.rgsw.N && (2 * params.rgsw.N) % params.lwe.q == 0
    requires ReadMargin(params.lwe.q, p,
                        ErrorOf(x.Phase(s), params.lwe.q, Bit(bit), p) + LookupError(params, y.a, y.b, params.lwe.q, s))
    ensures GateOutput(params, AND, y, s) == bit
  {
    hide Encodes, ReadMargin, InHalf, GateConst, ErrorOf, LookupError, LookupPoint, Close, Inner;
    var q := params.lwe.q;
    var e, h := ErrorOf(x.Phase(s), q, Bit(bit), p), LookupError(params, y.a, y.b, q, s);
    var l := LookupPoint(params, y.a, y.b, q, s);
    ErrorOfExact(x.Phase(s), q, Bit(bit), p, e);
    LookupErrorBound(params, y.a, y.b, q, s);
    var I := Inner(x.a, s, |x.a|);
    ModMod(x.b + q / 4, q);
    ModAddCong((x.b + q / 4) % q, x.b + q / 4, I + q / 4, I + q / 4, q);
    CloseSelf(q / 4, 0, q);
    CloseAdd(l, y.Phase(s), q / 4, q / 4, h, 0, q);
    CloseCong(l - q / 4, y.Phase(s) - q / 4, l - q / 4, x.Phase(s), h, q);
    EncodesNear(l - q / 4, x.Phase(s), q, Bit(bit), p, e, h);
    ReadInside(q, p, e + h, bit, l - q / 4);
    assert l - q / 4 + q / 4 == l;
  }

  /** The input of Bootstrap, with its quarter added, is as far from m + 1 as the ciphertext was from m. */
  lemma BootstrapInput(x: LWEValue, y: LWEValue, q: int, s: seq<int>, m: int, e: int)
    requires 0 < q && q % 4 == 0 && |x.a| == |s| && y == LWEValue(x.a, (x.b + q / 4) % q)
    requires Encodes(x.Phase(s), q, m, 4, e)
    ensures Encodes(y.Phase(s), q, m + 1, 4, e)
  {
    hide Encodes, Inner;
    var I := Inner(x.a, s, |x.a|);
    ModMod(x.b + q / 4, q);
    ModAddCong((x.b + q / 4) % q, x.b + q / 4, I, I, q);
    QuarterEncodes(q);
    AddedEncodes(x.Phase(s), q / 4, y.Phase(s), q, m, 1, 4, e, 0);
  }

  lemma PlacedCarries(params: BinFHECryptoParams, sec: Secrets, ct: LWECiphertext, v: int, noise: int)
    requires ct.Valid() && ct.q == params.lwe.Q && |ct.a| == |sec.z| && Close(ct.Phase(sec.z), v, noise, ct.q)
    ensures Carries(params, sec, ct, v, params.lwe.Q, noise + 2)
  {
    CloseMono(ct.Phase(sec.z), v, noise, noise + 2, ct.q);
    EncodesSame(ct.Phase(sec.z), ct.q, v, noise + 2);
  }

  /**
    Bootstrap adds a quarter of its input's modulus to a ciphertext modulo q. For an input modulo
    Q that is the intended quarter of q only when the two quarters coincide.
   */
  lemma QuarterOfInput(Q: int, q: int)
    requires 4 <= q && 0 < Q
    ensures (forall b :: 0 <= b < q ==> ModAddFast(b, Q / 4, q) == (b + q / 4) % q) <==> Q / 4 == q / 4
  {
    if Q / 4 == q / 4 {
      forall b | 0 <= b < q
        ensures ModAddFast(b, Q / 4, q) == (b + q / 4) % q
      {
        ModAddFastIs(b, q / 4, q);
      }
    } else {
      ModSmall(q / 4, q);
      DivModIs(q - 1 + q / 4, q, 1, q / 4 - 1);
      assert ModAddFast(0, Q / 4, q) != (0 + q / 4) % q || ModAddFast(q - 1, Q / 4, q) != (q - 1 + q / 4) % q;
    }
  }

  function NotVector(a: seq<int>, q: int): (r: seq<int>)
    ensures |r| == |a|
  {
    seq(|a|, i requires 0 <= i < |a| => if a[i] != 0 then q - a[i] else a[i])
  }

  lemma NotPhase(a: seq<int>, b: int, q: int, s: seq<int>)
    requires 2 < q && |a| == |s| && Residues(a, q) && 0 <= b < q
    ensures Residues(NotVector(a, q), q) && 0 <= ModSubFast(q / 4, b, q) < q
    ensures PhaseOf(NotVector(a, q), ModSubFast(q / 4, b, q), s) % q == (q / 4 - PhaseOf(a, b, s)) % q
  {
    assert NotVector(a, q) == NegVector(a, q);
    NegVectorInner(a, q, s);
    ModSubFastIs(q / 4, b, q);
    ModMod(q / 4 - b, q);
    ModAddCong(ModSubFast(q / 4, b, q), q / 4 - b, Inner(NotVector(a, q), s, |a|), 0 - Inner(a, s, |a|), q);
  }

  function NotValue(x: LWEValue, q: int): (r: LWEValue)
    ensures |r.a| == |x.a|
  {
    LWEValue(NotVector(x.a, q), ModSubFast(q / 4, x.b, q))
  }

  /** Rounding of a quarter of the modulus. */
  function NotSlack(q: int): int {
    if q % 4 == 0 then 0 else 1
  }

  lemma NotEncodes(x: int, w: int, q: int, m: int, e: int)
    requires Encodes(x, q, m, 4, e) && 0 < q && w % q == (q / 4 - x) % q
    ensures Encodes(w, q, 1 - m, 4, e + NotSlack(q))
  {
    hide Encodes;
    var k := EncodesWitness(x, q, m, 4, e);
    NotGap(x, q, m, e, k, m * q, k * (4 * q));
    EncodesIntro(q / 4 - x, q, 1 - m, 4, e + NotSlack(q), -k);
    EncodesCong(q / 4 - x, w, q, 1 - m, 4, e + NotSlack(q));
  }

  lemma NotGap(x: int, q: int, m: int, e: int, k: int, mq: int, kq: int)
    requires mq == m * q && kq == k * (4 * q) && -(4 * e) <= 4 * x - mq - kq <= 4 * e
    ensures var f := 4 * (e + NotSlack(q)); -f <= 4 * (q / 4 - x) - (1 - m) * q - -k * (4 * q) <= f
  {
    assert (1 - m) * q == q - mq && -k * (4 * q) == -kq;
  }

  /** EvalNOT: negates without keys, at either modulus. */
  method EvalNOT(params: BinFHECryptoParams, ct: LWECiphertext, ghost sec: Secrets, ghost m: int, ghost e: int)
    returns (r: LWECiphertext)
    requires Carries(params, sec, ct, m, 4, e)
    ensures fresh(r) && r.q == ct.q && r.p == 4 && r.Value() == NotValue(ct.Value(), ct.q)
    ensures Carries(params, sec, r, 1 - m, 4, e + NotSlack(ct.q))
    ensures |r.a| == |ct.a|
    ensures forall s :: |s| == |ct.a| ==> r.Phase(s) % ct.q == (ct.q / 4 - ct.Phase(s)) % ct.q
  {
    hide Encodes, PhaseOf, Residues, NotSlack, NotVector;
    var q := ct.q;
    ghost var key := if ct.q == params.lwe.Q then sec.z else sec.s;
    NotPhase(ct.a, ct.b, q, key);
    r := new LWECiphertext(NotVector(ct.a, q), ModSubFast(q / 4, ct.b, q), q, 4);
    NotEncodes(ct.Phase(key), r.Phase(key), q, m, e);
    forall s | |s| == |ct.a|
      ensures r.Phase(s) % q == (q / 4 - ct.Phase(s)) % q
    {
      NotPhase(ct.a, ct.b, q, s);
    }
  }

  /** The actual error of a NAND's summed input, as an encryption of M, is inside its margin. */
  ghost predicate NandFits(params: BinFHECryptoParams, v: LWEValue, s: seq<int>, M: int)
  {
    |v.a| == |s| && 0 < params.lwe.q && GateMargin(NAND, params.lwe.q, SumError(params, NAND, v, s, M))
  }

  /** The three NANDs of a CMUX: the last one sums what the first two hand on. */
  datatype CmuxRun = CmuxRun(first: GateRun, second: GateRun, last: GateRun, v1: LWEValue, v2: LWEValue)

  ghost predicate CmuxRan(params: BinFHECryptoParams, sec: Secrets, run: CmuxRun)
    reads params.rgsw, run.first.acc, run.second.acc, run.last.acc
  {
    && NandRan(params, sec, run.first) && NandRan(params, sec, run.second) && NandRan(params, sec, run.last)
    && NandResult(params, sec, run.first, run.v1) && NandResult(params, sec, run.second, run.v2)
    && |run.v1.a| == |run.v2.a| && run.last.sum == SumValue(NAND, run.v1, run.v2, params.lwe.q)
  }

  ghost predicate NandRan(params: BinFHECryptoParams, sec: Secrets, run: GateRun)
    reads params.rgsw, run.acc
  {
    Ran(params, NAND, sec, run, 4, HalfGap(params.lwe.Q, 4))
  }

  /** What is summed: the first input with the negated third, the second with the third. */
  ghost predicate CmuxSums(params: BinFHECryptoParams, K: LWESwitchingKey, ct0: LWECiphertext, ct1: LWECiphertext,
                           ct2: LWECiphertext, run: CmuxRun)
    reads ct0, ct1, ct2
  {
    var neg := NotValue(ct2.Value(), ct2.q);
    && SumOf(params, K, NAND, ct0.Value(), ct0.q, neg, ct2.q, run.first.sum)
    && SumOf(params, K, NAND, ct1.Value(), ct1.q, ct2.Value(), ct2.q, run.second.sum)
  }

  /** The actual errors of the three sums are inside the margin. */
  ghost predicate CmuxFits(params: BinFHECryptoParams, s: seq<int>, run: CmuxRun, x: bool, y: bool, z: bool) {
    && NandFits(params, run.first.sum, s, Bit(x) + Bit(!z)) && NandFits(params, run.second.sum, s, Bit(y) + Bit(z))
    && NandFits(params, run.last.sum, s, Bit(run.first.bit) + Bit(run.second.bit))
  }

  /**
    The CMUX branch: three NANDs and a NOT select between the first two inputs by the third, whenever
    the actual errors of the three summed inputs are inside the margin.
   */
  method EvalCMUX(params: BinFHECryptoParams, EK: RingGSWBTKey, ctvector: seq<LWECiphertext>,
                  ghost sec: Secrets, ghost bits: seq<bool>, ghost es: seq<int>)
    returns (r: LWECiphertext, ghost run: CmuxRun)
    requires params.Valid() && KeysFor(EK, params, params.rgsw.baseG, sec) && |ctvector| == |bits| == |es| == 3
    requires forall i, j :: 0 <= i < j < 3 ==> ctvector[i] != ctvector[j]
    requires forall i :: 0 <= i < 3 ==> Carries(params, sec, ctvector[i], Bit(bits[i]), 4, es[i])
    ensures fresh(r) && r.q == params.lwe.q && r.p == 4 && CmuxRan(params, sec, run)
    ensures Delivered(params, sec, run.last.ext, r, false) && Refreshed(params, sec, r, run.last.bit, 4, false)
    ensures CmuxSums(params, EK.KSkey, ctvector[0], ctvector[1], ctvector[2], run)
    ensures CmuxFits(params, sec.s, run, bits[0], bits[1], bits[2]) ==>
              run.last.bit == if bits[2] then bits[1] else bits[0]
  {
    hide AccKeysFor, IsPow2, Pow, AccNoise, SwitchingKeyFor, GateTable, Encodes, SmallError, PhaseOf, Residues,
         SumValue, NandFits, NotVector,
         RoundingSlack, PlainPowers, MonomialTable, LogTable, GateError, NotSlack, Carries, Ran, DownChain, KeysFor,
         BinFHECryptoParams.Valid, TableShape, SumOf, SmallForm, NotValue;
    var ctNot := EvalNOT(params, ctvector[2], sec, Bit(bits[2]), es[2]);
    var ctNAND1, ctNAND2;
    ghost var run1, run2, run3;
    ctNAND1, run1 := Nand(params, EK, ctvector[0], ctNot, sec, bits[0], !bits[2], es[0],
                          es[2] + NotSlack(ctvector[2].q));
    ctNAND2, run2 := Nand(params, EK, ctvector[1], ctvector[2], sec, bits[1], bits[2], es[1], es[2]);
    ghost var g := GateError(params, params.rgsw.baseG, sec, false);
    r, run3 := Nand(params, EK, ctNAND1, ctNAND2, sec, run1.bit, run2.bit, g, g);
    run := CmuxRun(run1, run2, run3, ctNAND1.Value(), ctNAND2.Value());
    DifferentModuli(params);
    NandResultOf(params, sec, run1, ctNAND1);
    NandResultOf(params, sec, run2, ctNAND2);
    SmallSum(params, EK.KSkey, NAND, ctNAND1.Value(), ctNAND2.Value(), run3.sum);
  }

  /** Small inputs are summed as they are. */
  lemma SmallSum(params: BinFHECryptoParams, K: LWESwitchingKey, gate: BinGate, x: LWEValue, y: LWEValue, sum: LWEValue)
    requires params.lwe.q != params.lwe.Q && SumOf(params, K, gate, x, params.lwe.q, y, params.lwe.q, sum)
    ensures |x.a| == |y.a| && sum == SumValue(gate, x, y, params.lwe.q)
  {
    hide SumValue;
  }

  /** The small ciphertext a NAND hands on carries its bit, at the phase its run left. */
  ghost predicate NandResult(params: BinFHECryptoParams, sec: Secrets, run: GateRun, v: LWEValue)
    reads params.rgsw
  {
    && 0 < params.lwe.q && v.Ok(|sec.s|, params.lwe.q) && DownChain(params, sec, run.ext, v.Phase(sec.s))
    && 2 <= params.rgsw.baseG
    && Encodes(v.Phase(sec.s), params.lwe.q, Bit(run.bit), 4, GateError(params, params.rgsw.baseG, sec, false))
  }

  lemma NandResultOf(params: BinFHECryptoParams, sec: Secrets, run: GateRun, ct: LWECiphertext)
    requires params.lwe.q != params.lwe.Q && ct.q == params.lwe.q && 2 <= params.rgsw.baseG
    requires Delivered(params, sec, run.ext, ct, false)
    requires Carries(params, sec, ct, Bit(run.bit), 4, GateError(params, params.rgsw.baseG, sec, false))
    ensures NandResult(params, sec, run, ct.Value())
  {
    hide DownChain, Encodes, PhaseOf, GateError;
  }

  /** A NAND of two bits. */
  method Nand(params: BinFHECryptoParams, EK: RingGSWBTKey, ct1: LWECiphertext, ct2: LWECiphertext,
              ghost sec: Secrets, ghost x: bool, ghost y: bool, ghost e1: int, ghost e2: int)
    returns (r: LWECiphertext, ghost run: GateRun)
    requires params.Valid() && KeysFor(EK, params, params.rgsw.baseG, sec) && ct1 != ct2
    requires Carries(params, sec, ct1, Bit(x), 4, e1) && Carries(params, sec, ct2, Bit(y), 4, e2)
    ensures fresh(r) && r.q == params.lwe.q && r.p == 4
    ensures NandRan(params, sec, run) && Delivered(params, sec, run.ext, r, false)
    ensures Refreshed(params, sec, r, run.bit, 4, false)
    ensures SumOf(params, EK.KSkey, NAND, ct1.Value(), ct1.q, ct2.Value(), ct2.q, run.sum)
    ensures NandFits(params, run.sum, sec.s, Bit(x) + Bit(y)) ==> run.bit == !(x && y)
  {
    hide AccKeysFor, IsPow2, Pow, AccNoise, SwitchingKeyFor, GateTable, Encodes, SmallError, PhaseOf, Residues,
         SumValue, SumError, GateMargin,
         RoundingSlack, PlainPowers, MonomialTable, LogTable, GateError, Carries, Ran, DownChain, Delivered, GateBit,
         SumOf;
    KeySizes(EK, params, params.rgsw.baseG, sec);
    GateTruth(NAND, Bit(x) + Bit(y));
    r, run := EvalBinGate(params, NAND, EK, ct1, ct2, false, sec, Bit(x), Bit(y), e1, e2);
    assert |run.sum.a| == |sec.s| by { RanSize(params, NAND, sec, run); }
  }

  lemma RanSize(params: BinFHECryptoParams, gate: BinGate, sec: Secrets, run: GateRun)
    requires Ran(params, gate, sec, run, 4, HalfGap(params.lwe.Q, 4))
    ensures |run.sum.a| == |sec.s| && 0 < params.lwe.q
  {
    hide Holds, TestVector, GateOutput;
  }

  lemma SlackNonNeg(params: BinFHECryptoParams, s: seq<int>)
    ensures 0 <= RoundingSlack(params, s)
  {}
}
