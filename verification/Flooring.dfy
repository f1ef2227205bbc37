/**
  Homomorphic flooring (src/binfhe/lib/binfhe-base-scheme.cpp:335-377): clears the residue of the
  phase modulo q while leaving its multiple of q in place.
 */
module Flooring {
  import opened Arithmetic
  import opened RgswParams
  import opened LweBasics
  import opened Lwe
  import opened KeySwitching
  import opened Bootstrapping
  import opened FunctionEval

  /** The identity on the middle half of the circle, made negacyclic around it. */
  function Middle(x: int, q: int, Q: int): int {
    if x < q / 4 then Q - q / 2 - x
    else if q / 4 <= x < 3 * (q / 4) then x
    else Q + q / 2 - x
  }

  lemma MiddleNegacyclic(q: int, fmod: int)
    requires 0 < q && q % 4 == 0 && q <= fmod
    ensures Negacyclic(Middle, q, fmod)
  {
    Quarters(q);
    forall x | 0 <= x < q / 2
      ensures OppositeValues(Middle(x, q, fmod), Middle(x + q / 2, q, fmod), fmod)
    {}
  }

  // ---------------------------------------------------------------------------
  // The two subtractions
  // ---------------------------------------------------------------------------

  /** Where the two functions were read and the phases of the two results. */
  datatype FloorSteps = FloorSteps(x1: int, w: int, x2: int, v: int)

  /** How far the first function was read from z modulo q, and the first result from its value. */
  function FirstShift(st: FloorSteps, z: int, q: int): (h: nat)
    requires 0 < q
  {
    Distance(st.x1, z, q)
  }

  function FirstError(st: FloorSteps, q: int, M: int): (e: nat)
    requires 0 < M
  {
    Distance(st.w, QuarterStep(st.x1, q, M), M)
  }

  function SecondShift(st: FloorSteps, z: int, q: int): (h: nat)
    requires 0 < q
  {
    Distance(st.x2, z - st.w, q)
  }

  function SecondError(st: FloorSteps, q: int, M: int): (e: nat)
    requires 0 < M
  {
    Distance(st.v, Middle(st.x2, q, M), M)
  }

  /** How clear of the multiples of q/2 the phase has to be for this run. */
  function Reach(st: FloorSteps, z: int, q: int, M: int): (d: nat)
    requires 0 < q && 0 < M
  {
    Max(FirstShift(st, z, q), FirstError(st, q, M) + SecondShift(st, z, q))
  }

  lemma SubtractedQuarter(y: int, w: int, q: int, M: int, e: int, D: int) returns (t: int, k: int)
    requires 0 < q && q % 4 == 0 && 0 < M && Close(w, QuarterStep(y % q, q, M), e, M) && Clear(y, q / 2, D)
    ensures q / 4 + D - e <= t < 3 * (q / 4) - D + e && y - w == q * (y / q) + t + k * M
  {
    hide Close, QuarterStep;
    Quarters(q);
    var r := y % q;
    var l := CloseWitness(w, QuarterStep(r, q, M), e, M);
    HalfResidue(y, q);
    NegatedMultiple(l, M);
    t := QuarterLeft(r, w, l * M, q, M, e, D);
    k := if r < q / 2 then -l - 1 else -l;
    BlockOf(y, q);
  }

  lemma BlockOf(y: int, q: int)
    requires 0 < q
    ensures y == q * (y / q) + y % q
  {
    assert y == y / q * q + y % q;
  }

  /** The residue less the quarter step, with X the multiple of M that was lost. */
  lemma QuarterLeft(r: int, w: int, X: int, q: int, M: int, e: int, D: int) returns (t: int)
    requires 0 < q && q % 4 == 0 && 0 <= r < q && -e <= w - QuarterStep(r, q, M) - X <= e
    requires D <= (if r < q / 2 then r else r - q / 2) < q / 2 - D
    ensures q / 4 + D - e <= t < 3 * (q / 4) - D + e && r - w == t - X - (if r < q / 2 then M else 0)
  {
    Quarters(q);
    t := (if r < q / 2 then r + q / 4 else r - q / 4) - (w - QuarterStep(r, q, M) - X);
  }

  lemma NegatedMultiple(l: int, M: int)
    ensures (-l - 1) * M == -(l * M) - M && -l * M == -(l * M)
  {}

  /** After the first subtraction the residue lies in the middle half, in the same block of q. */
  lemma FirstSubtraction(y: int, w: int, p2: int, q: int, M: int, e: int, D: int) returns (t: int)
    requires 0 < q && q % 4 == 0 && 0 < M && M % q == 0 && p2 % M == (y - w) % M && 0 <= e <= D
    requires Close(w, QuarterStep(y % q, q, M), e, M) && Clear(y, q / 2, D)
    ensures q / 4 + (D - e) <= t < 3 * (q / 4) - (D - e) && p2 % M == (q * (y / q) + t) % M && p2 % q == t
  {
    hide Close, QuarterStep, Clear;
    Quarters(q);
    var k;
    t, k := SubtractedQuarter(y, w, q, M, e, D);
    var fl := y / q;
    ModPlusMultiple(q * fl + t, k, M);
    DivideResidue(p2, q * fl + t, q, M);
    assert q * fl == fl * q;
    ModPlusMultiple(t, fl, q);
    ModSmall(t, q);
  }

  /** A point read within its distance of y modulo q falls on the same step when y is clear by that distance. */
  lemma SameStep(x: int, y: int, q: int, M: int, h: int)
    requires 2 < q && q % 4 == 0 && 0 <= x < q && Close(x, y, h, q) && Clear(y, q / 2, h)
    ensures QuarterStep(x, q, M) == QuarterStep(y % q, q, M)
  {
    hide Close;
    Quarters(q);
    var r := y % q;
    HalfResidue(y, q);
    HalfOf(r, q, q / 2);
    ModMod(y, q);
    CloseCong(x, y, x, r, h, q);
    SameHalf(x, r, h, q);
  }

  /** The second function is read inside the middle half, where it is the identity. */
  lemma MiddleRead(x: int, p2: int, t: int, q: int, M: int, h: int)
    requires 2 < q && q % 4 == 0 && 0 <= x < q && p2 % q == t && Close(x, p2, h, q) && 0 <= h
    requires q / 4 + h <= t < 3 * (q / 4) - h
    ensures Middle(x, q, M) == x && t - h <= x <= t + h
  {
    hide Close;
    Quarters(q);
    ModMod(p2, q);
    CloseCong(x, p2, x, t, h, q);
    NoWrap(x, t, h, q);
  }

  lemma HalfResidue(y: int, q: int)
    requires 0 < q && q % 2 == 0
    ensures y % (q / 2) == if y % q < q / 2 then y % q else y % q - q / 2
  {
    var h, r, fl := q / 2, y % q, y / q;
    assert y == fl * q + r && fl * q == (2 * fl) * h;
    if r < h {
      DivModIs(y, h, 2 * fl, r);
    } else {
      assert (2 * fl + 1) * h == (2 * fl) * h + h;
      DivModIs(y, h, 2 * fl + 1, r - h);
    }
  }

  /** Congruence modulo M is congruence modulo every divisor. */
  lemma DivideResidue(x: int, y: int, q: int, M: int)
    requires 0 < q && 0 < M && M % q == 0 && x % M == y % M
    ensures x % q == y % q
  {
    var c := M / q;
    var k := ModEqualWitness(x, y, M);
    assert M == c * q;
    MulAssoc(k, c, q);
    ModEqualIntro(x, y, k * c, q);
  }

  /**
    If the phase is clear of every multiple of q/2 by the reach of the run, what is left is q times the
    floor, up to the second bootstrap's actual error and reading shift.
   */
  lemma FloorResult(z: int, y: int, st: FloorSteps, p3: int, q: int, M: int)
    requires 2 < q && q % 4 == 0 && 0 < M && M % q == 0 && y == z % M && p3 % M == (z - st.w - st.v) % M
    requires 0 <= st.x1 < q && 0 <= st.x2 < q && Clear(y, q / 2, Reach(st, z, q, M))
    ensures Close(p3, q * (y / q), SecondError(st, q, M) + SecondShift(st, z, q), M)
  {
    hide Close, Distance, QuarterStep, Middle, Clear;
    Quarters(q);
    var h1, e1, h2, e2, D := FirstShift(st, z, q), FirstError(st, q, M), SecondShift(st, z, q), SecondError(st, q, M),
                             Reach(st, z, q, M);
    ModMod(z, M);
    DivideResidue(z, y, q, M);
    DistanceCong(st.x1, z, y, q);
    DistanceExact(st.x1, y, h1, q);
    ClearWeaken(y, q / 2, D, h1);
    SameStep(st.x1, y, q, M, h1);
    DistanceExact(st.w, QuarterStep(st.x1, q, M), e1, M);
    ModAddCong(z, y, st.w, st.w, M);
    var p2 := z - st.w;
    var t := FirstSubtraction(y, st.w, p2, q, M, e1, D);
    DistanceExact(st.x2, p2, h2, q);
    MiddleRead(st.x2, p2, t, q, M, h2);
    DistanceExact(st.v, Middle(st.x2, q, M), e2, M);
    FloorLeft(p2, p3, st.v, st.x2, t, q * (y / q), e2, h2, M);
  }

  lemma FloorLeft(p2: int, p3: int, v: int, x: int, t: int, f: int, e: int, h: int, M: int)
    requires 0 < M && p2 % M == (f + t) % M && p3 % M == (p2 - v) % M && Close(v, x, e, M) && t - h <= x <= t + h
    ensures Close(p3, f, e + h, M)
  {
    hide Close;
    CloseIntro(x, t, h, M, 0);
    CloseTrans(v, x, t, e, h, M);
    CloseZero(p2, f + t, M);
    CloseAdd(p2, f + t, v, t, 0, e + h, M);
    CloseCong(p2 - v, f, p3, f, e + h, M);
  }

  // ---------------------------------------------------------------------------
  // Messages at scale 2beta, p of them in a block of q
  // ---------------------------------------------------------------------------

  lemma CellPoint(phase: int, g: int, beta: int, E: int, mod: int, y: int)
    requires 0 < mod && y == (phase + beta) % mod && Close(phase, g, E, mod) && E <= g + beta && g + beta + E < mod
    ensures 0 <= E && g + beta - E <= y <= g + beta + E
  {
    CloseSelf(beta, 0, mod);
    CloseAdd(phase, g, beta, beta, E, 0, mod);
    ModMod(phase + beta, mod);
    CloseCong(phase + beta, g + beta, y, g + beta, E, mod);
    NoWrap(y, g + beta, E, mod);
  }

  lemma CellBlock(y: int, m: int, E: int, D: int, q: int, beta: int, p: int)
    requires 0 < beta && 2 <= p && p % 2 == 0 && q == 2 * beta * p && 0 <= m && 0 <= E && 0 <= D && E + D < beta
    requires 2 * beta * m + beta - E <= y <= 2 * beta * m + beta + E && 0 < q / 2
    ensures 0 < q && y / q == m / p && Clear(y, q / 2, D)
  {
    var a, b := m / p, m % p;
    assert m == a * p + b;
    CellOffset(y, m, E, beta, p, a, b);
    DivModIs(y, q, a, y - a * q);
    var h := p / 2;
    assert q == 2 * (2 * beta * h) by {
      assert 2 * beta * (2 * h) == 2 * (2 * beta * h);
    }
    var c, d := m / h, m % h;
    assert m == c * h + d;
    CellOffset(y, m, E, beta, h, c, d);
    DivModIs(y, q / 2, c, y - c * (q / 2));
  }

  lemma CellOffset(y: int, m: int, E: int, beta: int, p: int, a: int, b: int)
    requires 0 < beta && 0 < p && m == a * p + b && 0 <= b < p && 0 <= E < beta
    requires 2 * beta * m + beta - E <= y <= 2 * beta * m + beta + E
    ensures beta - E <= y - a * (2 * beta * p) <= 2 * beta * p - beta + E
  {
    CellSplit(2 * beta, a, p, b, a * p);
    MulNonNeg(2 * beta, b);
    MulMonotone(2 * beta, b + 1, p);
    assert 2 * beta * (b + 1) == 2 * beta * b + 2 * beta;
  }

  lemma CellSplit(c: int, a: int, p: int, b: int, e: int)
    requires e == a * p
    ensures c * (e + b) == a * (c * p) + c * b
  {
    assert c * (e + b) == c * e + c * b;
    assert c * (a * p) == a * (c * p);
  }

  /** A message that stays clear of the ends of its block by what occurred is replaced by the start of its block. */
  lemma FloorMessage(z: int, m: int, E: int, beta: int, p: int, st: FloorSteps, p3: int, q: int, M: int)
    requires 0 < beta && 2 <= p && p % 2 == 0 && q == 2 * beta * p && 2 < q && q % 4 == 0 && 0 < M && M % q == 0
    requires 0 <= m && 2 * beta * (m + 1) <= M && Close(z - beta, 2 * beta * m, E, M) && E + Reach(st, z, q, M) < beta
    requires 0 <= st.x1 < q && 0 <= st.x2 < q && p3 % M == (z - st.w - st.v) % M
    ensures Close(p3, q * (m / p), SecondError(st, q, M) + SecondShift(st, z, q), M)
  {
    hide Close, Clear, Reach, SecondError, SecondShift;
    var y, g := z % M, 2 * beta * m;
    MulNonNeg(2 * beta, m);
    assert 2 * beta * (m + 1) == g + 2 * beta;
    CellPoint(z - beta, g, beta, E, M, y);
    CellBlock(y, m, E, Reach(st, z, q, M), q, beta, p);
    FloorResult(z, y, st, p3, q, M);
  }

  /** 2beta * 2^k is beta * 2^(k+1). */
  lemma BlockSize(beta: int, k: nat)
    requires 0 < beta && 0 < k
    ensures beta * Pow(2, k + 1) == 2 * beta * Pow(2, k) && 2 <= Pow(2, k) && Pow(2, k) % 2 == 0
  {
    PowTwoStep(k);
    PowTwoStep(k - 1);
    assert beta * (2 * Pow(2, k)) == 2 * beta * Pow(2, k);
  }

  /** q*t within e is the message t of M/q. */
  lemma BlockEncodes(phase: int, t: int, e: int, q: int, M: int)
    requires 0 < q && 0 < M && M % q == 0 && Close(phase, q * t, e, M)
    ensures 0 < M / q && M == M / q * q && Encodes(phase, M, t, M / q, e)
  {
    hide Close;
    var P := M / q;
    assert M == P * q;
    FactorLess(q, 0, P);
    assert q * P == M && q * 0 == 0;
    MulNonNeg(P - 1, M);
    assert P * M == (P - 1) * M + M;
    CloseScaleUp(P, phase, q * t, e, M);
    assert P * (q * t) == t * M by {
      MulAssoc(t, P, q);
    }
  }

  lemma BlockBelow(m: int, beta: int, p: int, q: int, P: int)
    requires 0 < beta && 0 < p && q == 2 * beta * p && 0 <= m && 2 * beta * (m + 1) <= P * q
    ensures 0 <= m / p < P
  {
    BlockTimes(P, beta, p);
    FactorLess(2 * beta, m, P * p) by { assert 2 * beta * (m + 1) == 2 * beta * m + 2 * beta; }
    QuotientRange(m, p, P, P * p);
  }

  lemma BlockTimes(P: int, beta: int, p: int)
    ensures P * (2 * beta * p) == 2 * beta * (P * p)
  {
    MulAssoc(P, 2 * beta, p);
    MulAssoc(2 * beta, P, p);
  }

  lemma QuotientRange(m: int, p: int, P: int, W: int)
    requires 0 < p && 0 <= m < W && W == P * p
    ensures 0 <= m / p < P
  {
    var a := m / p;
    assert m == a * p + m % p;
    assert p * a == a * p && p * P == W && p * -1 == -p;
    FactorLess(p, a, P);
    FactorLess(p, -1, a);
  }

  /** One half of EvalFloor: bootstraps f of the residue modulo q and subtracts the result. */
  method SubtractFunc(params: BinFHECryptoParams, EK: RingGSWBTKey, ct1: LWECiphertext, f: Func, q: int,
                      ghost sec: Secrets)
    returns (ghost x: int, ghost w: int)
    requires params.Valid() && KeysFor(EK, params, params.rgsw.baseG, sec)
    requires ct1.Valid() && |ct1.a| == |sec.s| && 2 < q && params.Accepts(q) && ct1.q % q == 0
    requires Negacyclic(f, q, ct1.q)
    modifies ct1`a, ct1`b
    ensures ct1.Valid() && |ct1.a| == |sec.s|
    ensures StepWithin(params, sec, x, old(ct1.Phase(sec.s)), f(x, q, ct1.q), w, q, ct1.q)
    ensures params.rgsw.variant != LMKCDEY ==> x == old(ct1.Phase(sec.s)) % q
    ensures ct1.Phase(sec.s) % ct1.q == (old(ct1.Phase(sec.s)) - w) % ct1.q
  {
    hide AccKeysFor, IsPow2, Pow, GateTable, PhaseOf, PlainPowers, MonomialTable, LogTable, FuncError, KeysFor,
         StepWithin,
         Negacyclic, SubVector, Residues, SwitchVector, RingGSWCryptoParams.Sizes;
    var ctModq := new LWECiphertext.Copy(ct1);
    ctModq.SetModulus(q, sec.s);
    ghost var z, z' := ct1.Phase(sec.s), ctModq.Phase(sec.s);
    assert Ready(params, EK, ctModq, sec);
    var ct2;
    ct2, x := MeasuredBootstrap(params, EK, ctModq, f, ct1.q, sec);
    w := ct2.Phase(sec.s);
    StepWithinCong(params, sec, x, z', z, f(x, q, ct1.q), w, q, ct1.q);
    EvalSubEq(ct1, ct2, sec.s);
  }

  /**
    EvalFloor: q * floor((phase + beta) / q) up to the second bootstrap's actual error, if phase + beta
    is farther from every multiple of q/2 than the first bootstrap's actual error (and, for LMKCDEY,
    the shifts at which the two tables were actually read). Rounding k bits off a message m at scale
    2beta leaves 2beta * 2^k * floor(m / 2^k).
   */
  method EvalFloor(params: BinFHECryptoParams, EK: RingGSWBTKey, ct: LWECiphertext, beta: int, roundbits: nat,
                   ghost sec: Secrets, ghost m: int, ghost E: int)
    returns (r: LWECiphertext, ghost st: FloorSteps)
    requires params.Valid() && KeysFor(EK, params, params.rgsw.baseG, sec)
    requires ct.Valid() && |ct.a| == |sec.s| && 0 <= beta < ct.q
    requires var q := if roundbits == 0 then params.lwe.q else beta * Pow(2, roundbits + 1);
             2 < q && params.Accepts(q) && ct.q % q == 0
    ensures fresh(r) && r.Valid() && r.q == ct.q && |r.a| == |sec.s|
    ensures var q, z, M := if roundbits == 0 then params.lwe.q else beta * Pow(2, roundbits + 1),
                           ct.Phase(sec.s) + beta, ct.q;
            && StepWithin(params, sec, st.x1, z, QuarterStep(st.x1, q, M), st.w, q, M)
            && StepWithin(params, sec, st.x2, z - st.w, Middle(st.x2, q, M), st.v, q, M)
            && (params.rgsw.variant != LMKCDEY ==> st.x1 == z % q && st.x2 == (z - st.w) % q)
            && r.Phase(sec.s) % M == (z - st.w - st.v) % M
            && (Clear(z % M, q / 2, Reach(st, z, q, M)) ==>
                  Close(r.Phase(sec.s), q * (z % M / q), SecondError(st, q, M) + SecondShift(st, z, q), M))
    ensures var p, M := Pow(2, roundbits), ct.q;
            0 < roundbits && 0 < beta && 0 < 2 * beta * p && 0 <= m && 2 * beta * (m + 1) <= M
            && Close(ct.Phase(sec.s), 2 * beta * m, E, M)
            && E + Reach(st, ct.Phase(sec.s) + beta, 2 * beta * p, M) < beta ==>
              Close(r.Phase(sec.s), 2 * beta * p * (m / p), SecondError(st, 2 * beta * p, M)
                                                          + SecondShift(st, ct.Phase(sec.s) + beta, 2 * beta * p), M)
  {
    hide AccKeysFor, IsPow2, Pow, GateTable, PhaseOf, PlainPowers, MonomialTable, LogTable, FuncError, Close, KeysFor,
         StepWithin, Reach,
         Negacyclic, SubVector, Residues, Clear, QuarterStep, Middle, RingGSWCryptoParams.Valid,
         SecondError, SecondShift;
    var q := if roundbits == 0 then params.lwe.q else beta * Pow(2, roundbits + 1);
    ghost var s, M, z := sec.s, ct.q, ct.Phase(sec.s) + beta;
    assert q % 4 == 0 by { AcceptedIsFour(params, q); }
    DivisorBelow(q, M);
    QuarterStepNegacyclic(q, M);
    MiddleNegacyclic(q, M);
    var ct1 := new LWECiphertext.Copy(ct);
    EvalAddConstEq(ct1, beta, s);
    ghost var p1 := ct1.Phase(s);
    ghost var x1, w, x2, v;
    x1, w := SubtractFunc(params, EK, ct1, QuarterStep, q, sec);
    ghost var p2 := ct1.Phase(s);
    x2, v := SubtractFunc(params, EK, ct1, Middle, q, sec);
    r := ct1;
    st := FloorSteps(x1, w, x2, v);
    FloorPhases(p1, p2, r.Phase(s), z, w, v, q, M);
    StepWithinCong(params, sec, x1, p1, z, QuarterStep(x1, q, M), w, q, M);
    StepWithinCong(params, sec, x2, p2, z - w, Middle(x2, q, M), v, q, M);
    assert 0 <= x1 < q && 0 <= x2 < q by {
      StepRange(params, sec, x1, z, QuarterStep(x1, q, M), w, q, M);
      StepRange(params, sec, x2, z - w, Middle(x2, q, M), v, q, M);
    }
    if Clear(z % M, q / 2, Reach(st, z, q, M)) {
      FloorResult(z, z % M, st, r.Phase(s), q, M);
    }
    if 0 < roundbits && 0 < beta && 0 <= m && 2 * beta * (m + 1) <= M && Close(ct.Phase(s), 2 * beta * m, E, M) {
      BlockSize(beta, roundbits);
      if E + Reach(st, z, q, M) < beta {
        FloorMessage(z, m, E, beta, Pow(2, roundbits), st, r.Phase(s), q, M);
      }
    }
  }

  /**
    Rounding k bits off an encrypted message and decrypting modulo what is left returns floor(m / 2^k)
    whenever the errors that occurred fit: those of the input and the first bootstrap below beta, that of
    the second below half of the new scale.
   */
  method DecryptFloor(params: BinFHECryptoParams, EK: RingGSWBTKey, ct: LWECiphertext, beta: int, k: nat,
                      sk: LWEPrivateKey, ghost sec: Secrets, ghost m: int, ghost E: int)
    returns (result: int, ghost st: FloorSteps)
    requires params.Valid() && KeysFor(EK, params, params.rgsw.baseG, sec) && sk.Valid() && sec.s == sk.Signed()
    requires ct.Valid() && |ct.a| == |sec.s| == |sk.values| && 0 < beta < ct.q && 0 < k
    requires 2 < 2 * beta * Pow(2, k) && params.Accepts(2 * beta * Pow(2, k)) && ct.q % (2 * beta * Pow(2, k)) == 0
    requires 0 <= m && 2 * beta * (m + 1) <= ct.q && Close(ct.Phase(sec.s), 2 * beta * m, E, ct.q)
    ensures var q, M, z := 2 * beta * Pow(2, k), ct.q, ct.Phase(sec.s) + beta;
            E + Reach(st, z, q, M) < beta && 2 * (SecondError(st, q, M) + SecondShift(st, z, q)) < q ==>
              result == m / Pow(2, k)
  {
    hide Close, KeysFor, IsPow2, Pow, Reach, SecondError, SecondShift, PhaseOf, SignedValue, Residues, Decodes, Clear,
         Encodes, StepWithin, RingGSWCryptoParams.Valid, BinFHECryptoParams.Valid, QuarterStep, Middle;
    BlockSize(beta, k);
    var r;
    r, st := EvalFloor(params, EK, ct, beta, k, sec, m, E);
    var q := beta * Pow(2, k + 1);
    RemainingModulus(q, ct.q);
    result := Decrypt(sk, r, ct.q / q);
    ghost var z, e, P := ct.Phase(sec.s) + beta, SecondError(st, q, ct.q) + SecondShift(st, ct.Phase(sec.s) + beta, q),
                         ct.q / q;
    if E + Reach(st, z, q, ct.q) < beta && 2 * e < q {
      ghost var t := m / Pow(2, k);
      BlockEncodes(r.Phase(sec.s), t, e, q, ct.q);
      BlockBelow(m, beta, Pow(2, k), q, P);
      assert 2 * (P * e) < ct.q by {
        HalfBlock(P, e, q, ct.q);
      }
      EncodedDecodes(r.Phase(sec.s), r.q, t, P, e);
    }
  }

  lemma RemainingModulus(q: int, M: int)
    requires 0 < q && 0 < M && M % q == 0
    ensures 0 < M / q && M == M / q * q
  {
    FactorLess(q, 0, M / q);
  }

  lemma HalfBlock(P: int, e: int, q: int, M: int)
    requires 0 < P && 2 * e < q && M == P * q
    ensures 2 * (P * e) < M
  {
    MulMonotone(P, 2 * e + 1, q);
    assert P * (2 * e + 1) == 2 * (P * e) + P;
  }

  lemma FloorPhases(p1: int, p2: int, p3: int, z: int, w: int, v: int, q: int, M: int)
    requires 0 < q && 0 < M && M % q == 0 && p1 % M == z % M && p2 % M == (p1 - w) % M && p3 % M == (p2 - v) % M
    ensures p3 % M == (z - w - v) % M && p1 % q == z % q && p2 % q == (z - w) % q
  {
    ModAddCong(p1, z, w, w, M);
    ModAddCong(p2, z - w, v, v, M);
    DivideResidue(p1, z, q, M);
    DivideResidue(p2, z - w, q, M);
  }

  lemma DivisorBelow(q: int, M: int)
    requires 0 < q && 0 < M && M % q == 0
    ensures q <= M
  {
    if M < q {
      ModSmall(M, q);
    }
  }
}
