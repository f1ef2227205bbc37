/**
  Large-precision sign evaluation and digit decomposition
  (src/binfhe/lib/binfhe-base-scheme.cpp:380-507): a message too large for one bootstrap is
  floored and shrunk by a factor p = q/2beta until its modulus fits. A run of the loop is recorded
  step by step; what it does to messages follows from the errors that actually occurred.
 */
module LargePrecision {
  import opened Arithmetic
  import opened RgswParams
  import opened LweBasics
  import opened Lwe
  import opened KeySwitching
  import opened Bootstrapping
  import opened FunctionEval
  import opened Flooring

  // ---------------------------------------------------------------------------
  // Powers of two
  // ---------------------------------------------------------------------------

  lemma ProductOfPowers(x: int, y: int)
    requires IsPow2(x) && IsPow2(y)
    ensures IsPow2(x * y)
  {
    var i: nat :| x == Pow(2, i);
    var j: nat :| y == Pow(2, j);
    PowAdd(2, i, j);
  }

  lemma NextPower(m: int, p: nat, k: nat)
    requires 0 < p
    ensures 0 < Pow(p, k) && Pow(p, k + 1) == p * Pow(p, k) && m / Pow(p, k + 1) == m / Pow(p, k) / p
  {
    assert Pow(p, k + 1) == Pow(p, k) * p;
    DivDiv(m, Pow(p, k), p);
  }

  // ---------------------------------------------------------------------------
  // The gadget base in use
  // ---------------------------------------------------------------------------

  /** Number of bits of x. */
  function GetMSB(x: nat): nat {
    DigitCount(x + 1, 2)
  }

  /** Logarithm to base 2, rounded up. */
  function CeilLog2(x: int): nat {
    DigitCount(x, 2)
  }

  /** The two loops measure their modulus differently but agree on powers of two. */
  lemma BinLogsAgree(k: nat)
    ensures GetMSB(Pow(2, k)) - 1 == k && CeilLog2(Pow(2, k)) == k
  {
    DigitsExact(Pow(2, k), k);
    assert Pow(2, k + 1) == 2 * Pow(2, k);
    DigitsExact(Pow(2, k) + 1, k + 1);
  }

  lemma DigitsExact(x: int, k: nat)
    requires x <= Pow(2, k) && (0 < k ==> Pow(2, k - 1) < x)
    ensures DigitCount(x, 2) == k
  {
    var L := DigitCount(x, 2);
    if L < k {
      PowMonotone(2, L, k - 1);
    }
  }

  lemma LogsOfPower(x: int)
    requires IsPow2(x)
    ensures 0 <= x && GetMSB(x) - 1 == CeilLog2(x)
  {
    var k: nat :| x == Pow(2, k);
    BinLogsAgree(k);
  }

  lemma LogMonotone(x: int, y: int)
    requires x <= y
    ensures CeilLog2(x) <= CeilLog2(y)
  {
    assert x <= Pow(2, DigitCount(y, 2));
  }

  /** The base for a modulus of this many bits; 0 keeps the current one. */
  function BaseFor(binLog: int): int {
    if binLog <= 17 then 134217728 else if binLog <= 26 then 262144 else 0
  }

  /**
    The base in use at modulus mod, in a run that started with base0 at mod0: the start base at first;
    after that, with keys to choose from, the one for the size of the modulus where there is one.
   */
  function BaseAt(base0: int, dynamic: bool, mod: int, mod0: int): int {
    if mod == mod0 || !dynamic || BaseFor(CeilLog2(mod)) == 0 then base0 else BaseFor(CeilLog2(mod))
  }

  /** In terms of the modulus: 2^27 up to 2^17, 2^18 from there to 2^26, the start base above that. */
  lemma BaseBySize(base0: int, dynamic: bool, mod: int, mod0: int)
    ensures BaseAt(base0, dynamic, mod, mod0) ==
            if mod == mod0 || !dynamic || 67108864 < mod then base0
            else if mod <= 131072 then 134217728
            else 262144
  {
    hide DigitCount, Pow;
    SizeOf(17, 131072);
    SizeOf(26, 67108864);
    if mod <= 131072 {
      LogMonotone(mod, 131072);
    } else {
      LogAbove(mod, 17);
    }
    if mod <= 67108864 {
      LogMonotone(mod, 67108864);
    } else {
      LogAbove(mod, 26);
    }
  }

  lemma LogAbove(x: int, k: nat)
    requires Pow(2, k) < x
    ensures k < CeilLog2(x)
  {
    var L := DigitCount(x, 2);
    if L <= k {
      PowMonotone(2, L, k);
    }
  }

  lemma SizeOf(k: nat, x: int)
    requires (k == 17 && x == 131072) || (k == 26 && x == 67108864)
    ensures Pow(2, k) == x && CeilLog2(x) == k
  {
    hide Pow, DigitCount;
    PowTwoStart();
    Doublings(0, 9, 512);
    Doublings(9, 9, 512);
    Doublings(18, 9, 512);
    PowTwoStep(17);
    PowTwoStep(26);
    assert Pow(2, k) == x;
    BinLogsAgree(k);
  }

  /** Choosing by the size of the new modulus, or keeping the current base, follows BaseAt. */
  lemma BaseKept(base0: int, dynamic: bool, mod: int, next: int, mod0: int)
    requires next < mod <= mod0
    ensures BaseAt(base0, dynamic, next, mod0) ==
            if dynamic && BaseFor(CeilLog2(next)) != 0 then BaseFor(CeilLog2(next))
            else BaseAt(base0, dynamic, mod, mod0)
  {
    LogMonotone(next, mod);
  }

  // ---------------------------------------------------------------------------
  // The grid: q = 2*beta*p and mod = 2*beta*width
  // ---------------------------------------------------------------------------

  /** width message values, 2*beta apart, fill the modulus; p of them fill q. */
  ghost predicate Grid(mod: int, q: int, beta: int, p: int, width: int) {
    && 0 < beta && 2 <= p && p % 2 == 0 && IsPow2(p) && IsPow2(width) && 2 <= width
    && q == 2 * beta * p && mod == 2 * beta * width
  }

  lemma GridOf(mod: int, q: int, beta: int)
    requires IsPow2(mod) && IsPow2(q) && IsPow2(beta) && 0 < beta && 2 * beta < q < mod
    ensures Grid(mod, q, beta, q / (2 * beta), mod / (2 * beta))
  {
    hide IsPow2;
    TwiceIsPower(beta);
    PowersDivide(q, 2 * beta);
    PowersDivide(mod, 2 * beta);
    var p, width := q / (2 * beta), mod / (2 * beta);
    FactorLess(2 * beta, 1, p);
    FactorLess(2 * beta, 1, width);
    PowerIsEven(p);
  }

  /** The new modulus as the two loops compute it. */
  lemma NextModulus(mod: int, q: int, beta: int, p: int, width: int)
    requires Grid(mod, q, beta, p, width) && q < mod
    ensures 0 < q && mod % q == 0 && width % p == 0
    ensures 2 * mod * beta / q == 2 * beta * (width / p) && mod / q * 2 * beta == 2 * beta * (width / p)
    ensures Grid(2 * beta * (width / p), q, beta, p, width / p) && mod == p * (2 * beta * (width / p))
    ensures 0 < 2 * beta * (width / p) < mod
  {
    hide IsPow2;
    FactorLess(2 * beta, p, width);
    PowersDivide(width, p);
    var u := width / p;
    FactorLess(p, 1, u);
    assert mod == u * q by {
      assert 2 * beta * (u * p) == u * (2 * beta * p);
    }
    DivModIs(mod, q, u, 0);
    assert mod == p * (2 * beta * u) by {
      assert 2 * beta * (u * p) == p * (2 * beta * u);
    }
    assert 2 * mod * beta == (2 * beta * u) * q by {
      assert 2 * (u * q) * beta == (2 * beta * u) * q;
    }
    DivModIs(2 * mod * beta, q, 2 * beta * u, 0);
    assert u * 2 * beta == 2 * beta * u;
    MulMonotone(2 * beta, 2, u);
    MulMonotone(2 * beta * u, 2, p);
    assert 2 * beta * u * p == p * (2 * beta * u);
  }

  // ---------------------------------------------------------------------------
  // One step: floor, then shrink
  // ---------------------------------------------------------------------------

  /** A message within E of its grid point, with beta added, sits inside its cell and clear of the halves of q. */
  lemma CellOf(phase: int, m: int, E: int, D: int, mod: int, q: int, beta: int, p: int, width: int)
    requires Grid(mod, q, beta, p, width) && 0 <= m < width && 0 <= D && E + D < beta && 0 < mod
    requires Close(phase, 2 * beta * m, E, mod)
    ensures 0 < q && 2 * beta * m < (phase + beta) % mod < 2 * beta * m + 2 * beta
    ensures ((phase + beta) % mod) / q == m / p
    ensures 0 < q / 2 && Clear((phase + beta) % mod, q / 2, D)
  {
    hide IsPow2;
    var y, t := (phase + beta) % mod, 2 * beta * m + beta;
    MulNonNeg(2 * beta, m);
    MulMonotone(2 * beta, m + 1, width);
    assert 2 * beta * (m + 1) == 2 * beta * m + 2 * beta;
    CellPoint(phase, 2 * beta * m, beta, E, mod, y);
    MulMonotone(2 * beta, 1, p);
    assert 2 * beta * 1 == 2 * beta;
    CellBlock(y, m, E, D, q, beta, p);
  }

  /** Error of a message after flooring with error D and a rounding that was off by R on the scale of 2p. */
  function StepNoise(p: int, R: int, D: int): int {
    if p <= 0 then 0 else (R + 2 * D) / (2 * p)
  }

  /** Rounding a floored phase from modulus p*M to M divides its grid point by p. */
  lemma Shrunk(ph: int, ph': int, g: int, D: int, p: int, M: int, R: int)
    requires 0 < p && 0 < M && 0 < p * M && 0 < 2 * (p * M)
    requires Close(ph, p * g, D, p * M) && Close(2 * p * ph', 2 * ph, R, 2 * (p * M))
    ensures Close(ph', g, StepNoise(p, R, D), M)
  {
    hide Close;
    var T := 2 * (p * M);
    Link(ph, p * g, D, p * M, 2, 2 * ph, 2 * (p * g), 2 * D, T);
    CloseTrans(2 * p * ph', 2 * ph, 2 * (p * g), R, 2 * D, T);
    MulAssoc(2, p, g);
    MulAssoc(2, p, M);
    CloseScaleDown(2 * p, ph', g, R + 2 * D, M);
  }

  /** What the modulus switch promises, on the scale of 2p. */
  lemma ShrunkRounding(ph: int, ph': int, p: int, M: int, sNorm: int, T: int)
    requires 0 < p && 0 < M && 0 < T && 0 < M * T && T == 2 * (p * M) && 0 <= sNorm
    requires 0 < 2 * (p * M) * M && Close(2 * (p * M) * ph', 2 * M * ph, (1 + sNorm) * (p * M), 2 * (p * M) * M)
    ensures Close(2 * p * ph', 2 * ph, p * (1 + sNorm), T)
  {
    hide Close;
    var b := p * (1 + sNorm);
    RoundingShuffle(p, M, ph');
    RoundingShuffle2(p, M, 1 + sNorm);
    RoundingShuffle3(p, M, ph);
    RoundedDown(M, 2 * p * ph', 2 * ph, b, T, 2 * (p * M) * ph', 2 * M * ph, (1 + sNorm) * (p * M), 2 * (p * M) * M);
  }

  lemma RoundedDown(c: int, x: int, y: int, b: int, M: int, X: int, Y: int, B: int, W: int)
    requires 0 < c && 0 < M && 0 < W && X == c * x && Y == c * y && B == c * b && W == c * M && Close(X, Y, B, W)
    ensures Close(x, y, b, M)
  {
    hide Close;
    CloseScaleDown(c, x, y, B, M);
    assert b * c == B;
    DivModIs(B, c, b, 0);
  }

  lemma RoundingShuffle3(p: int, M: int, x: int)
    ensures 2 * M * x == M * (2 * x) && 2 * (p * M) * M == M * (2 * (p * M))
  {}

  lemma RoundingShuffle(p: int, M: int, x: int)
    ensures 2 * (p * M) * x == M * (2 * p * x)
  {
    assert 2 * (p * M) * x == 2 * ((p * M) * x);
    assert M * (2 * p * x) == 2 * (M * (p * x));
    MulAssoc(M, p, x);
  }

  lemma RoundingShuffle2(p: int, M: int, n: int)
    ensures n * (p * M) == M * (p * n)
  {
    MulAssoc(n, p, M);
  }

  /** ct encrypts grid point m of its modulus within E. */
  ghost predicate OnGrid(ct: LWECiphertext, s: seq<int>, m: int, beta: int, E: int)
    reads ct
  {
    ct.Valid() && |ct.a| == |s| && Close(ct.Phase(s), 2 * beta * m, E, ct.q)
  }

  /** A fresh encryption modulo mod with mod/2beta messages starts on its grid point. */
  lemma FreshOnGrid(ct: LWECiphertext, s: seq<int>, m: int, beta: int, err: int)
    requires ct.Valid() && |ct.a| == |s| && 0 < beta && ct.q % (2 * beta) == 0 && 0 < ct.q / (2 * beta)
    requires var p := ct.q / (2 * beta); 0 <= m < p && ct.Phase(s) % ct.q == ((m % p) * (ct.q / p) + err) % ct.q
    ensures OnGrid(ct, s, m, beta, Abs(err))
  {
    hide PhaseOf, Close, Residues;
    FreshGrid(ct.Phase(s), m, beta, err, ct.q, ct.q / (2 * beta));
  }

  lemma FreshGrid(phase: int, m: int, beta: int, err: int, q: int, p: int)
    requires 0 < beta && 0 < q && q % (2 * beta) == 0 && p == q / (2 * beta) && 0 <= m < p
    requires phase % q == ((m % p) * (q / p) + err) % q
    ensures Close(phase, 2 * beta * m, Abs(err), q)
  {
    hide Close;
    ModSmall(m, p);
    RemainderOfGrid(q, 2 * beta, p);
    DivModIs(q, p, 2 * beta, 0);
    var g := 2 * beta * m;
    assert m * (2 * beta) == g;
    CloseIntro(g + err, g, Abs(err), q, 0);
    CloseCong(g + err, g, phase, g, Abs(err), q);
  }

  lemma RemainderOfGrid(q: int, c: int, p: int)
    requires 0 < c && q % c == 0 && p == q / c
    ensures q == c * p
  {
    assert q == q / c * c + q % c;
  }

  /**
    One small secret and, for every gadget base, the secrets its key was generated with: each base
    has its own ring key.
   */
  datatype SecretMap = SecretMap(s: seq<int>, at: map<int, Secrets>)

  /** The key in use belongs to the current gadget base. */
  ghost predicate KeyInUse(params: BinFHECryptoParams, EKs: map<int, RingGSWBTKey>, curEK: RingGSWBTKey)
    reads params.rgsw
  {
    params.rgsw.baseG in EKs && curEK == EKs[params.rgsw.baseG]
  }

  ghost predicate KeyMap(EKs: map<int, RingGSWBTKey>, params: BinFHECryptoParams, sec: SecretMap) {
    forall base :: base in EKs ==>
      base in sec.at && sec.at[base].s == sec.s && KeysFor(EKs[base], params, base, sec.at[base])
  }

  // ---------------------------------------------------------------------------
  // One step of a run
  // ---------------------------------------------------------------------------

  /**
    Record of one iteration: the modulus and gadget base, the phase it started from and that phase with
    beta added, what happened in the two bootstraps, the phase after flooring, and the phase after
    rounding to the next modulus.
   */
  datatype FloorData = FloorData(mod: int, base: int, phase: int, raised: int, st: FloorSteps, floored: int, next: int)

  /** Worst-case error of a bootstrap into modulus M under a base. */
  ghost function FuncErrorAt(params: BinFHECryptoParams, sec: SecretMap, base: int, M: int): int {
    if base in sec.at && 2 <= base then FuncError(params, base, sec.at[base], M) else 0
  }

  /** How far off the rounding was, on the scale of 2p. */
  function RoundingError(d: FloorData, p: int): (r: nat)
    requires 0 < d.mod
  {
    Distance(2 * p * d.next, 2 * d.floored, 2 * d.mod)
  }

  /** Actual error of the floor: that of the second bootstrap and how far off its table was read. */
  function FlooredError(d: FloorData, q: int): (e: nat)
    requires 0 < d.mod && 0 < q
  {
    SecondError(d.st, q, d.mod) + SecondShift(d.st, d.raised, q)
  }

  /** Actual error of the next message: that of the floor and that of the rounding. */
  function NextError(d: FloorData, q: int, p: int): int
    requires 0 < d.mod && 0 < q
  {
    StepNoise(p, RoundingError(d, p), FlooredError(d, q))
  }

  /** How clear of the halves of q the step needed its message to be. */
  function StepReach(d: FloorData, q: int): (h: nat)
    requires 0 < d.mod && 0 < q
  {
    Reach(d.st, d.raised, q, d.mod)
  }

  /**
    What every iteration satisfies, whatever it started from: both tables were read at the phase they
    belong to, up to the rounding of LMKCDEY, their results were subtracted, and no error exceeded
    the worst case for the base in use.
   */
  ghost predicate StepRan(d: FloorData, params: BinFHECryptoParams, sec: SecretMap, beta: int, p: int) {
    var q, M, z, h := params.lwe.q, d.mod, d.raised, RoundingSlack(params, sec.s);
    && 0 < q && 0 < beta && 2 <= p && Grid(M, q, beta, p, M / (2 * beta)) && 0 < M && q < M && z == d.phase + beta
    && 0 <= d.st.x1 < q && 0 <= d.st.x2 < q && FirstShift(d.st, z, q) <= h && SecondShift(d.st, z, q) <= h
    && (params.rgsw.variant != LMKCDEY ==> d.st.x1 == z % q && d.st.x2 == (z - d.st.w) % q)
    && d.floored % M == (z - d.st.w - d.st.v) % M
    && FirstError(d.st, q, M) <= FuncErrorAt(params, sec, d.base, M)
    && SecondError(d.st, q, M) <= FuncErrorAt(params, sec, d.base, M)
    && RoundingError(d, p) <= p * (1 + AbsSum(sec.s, |sec.s|))
  }

  /**
    A message within E of its grid point moves to its quotient by p, if E and the reach of the two
    bootstraps stay below beta.
   */
  lemma StepOnGrid(d: FloorData, params: BinFHECryptoParams, sec: SecretMap, beta: int, p: int, m: int, E: int)
    requires StepRan(d, params, sec, beta, p) && 0 <= m < d.mod / (2 * beta) && Close(d.phase, 2 * beta * m, E, d.mod)
    requires E + StepReach(d, params.lwe.q) < beta
    ensures var next := 2 * beta * (d.mod / (2 * beta) / p);
            && 0 < next && d.mod == p * next && 0 <= m / p < next / (2 * beta)
            && Close(d.next, 2 * beta * (m / p), NextError(d, params.lwe.q, p), next)
  {
    hide IsPow2, Close, FuncErrorAt, AbsSum, Clear, Distance, QuarterStep, Middle, StepNoise, RoundingSlack, Reach;
    var q, M, z, width := params.lwe.q, d.mod, d.raised, d.mod / (2 * beta);
    NextModulus(M, q, beta, p, width);
    CellOf(d.phase, m, E, StepReach(d, q), M, q, beta, p, width);
    assert q % 4 == 0 && 2 < q by { GridQuarters(M, q, beta, p, width); }
    FloorResult(z, z % M, d.st, d.floored, q, M);
    StepShrinks(d, q, beta, p, m, width);
  }

  lemma GridQuarters(mod: int, q: int, beta: int, p: int, width: int)
    requires Grid(mod, q, beta, p, width)
    ensures q % 4 == 0 && 2 < q
  {
    hide IsPow2;
    FourCells(q, beta, p, p / 2);
  }

  lemma FourCells(q: int, beta: int, p: int, h: int)
    requires 0 < beta && 2 <= p && p == 2 * h && q == 2 * beta * p
    ensures q % 4 == 0 && 2 < q
  {
    assert 2 * beta * (2 * h) == 4 * (beta * h);
    MulMonotone(beta, 1, h);
    DivModIs(q, 4, beta * h, 0);
  }

  lemma StepShrinks(d: FloorData, q: int, beta: int, p: int, m: int, width: int)
    requires 0 < q && q < d.mod && Grid(d.mod, q, beta, p, width) && 0 <= m < width
    requires Close(d.floored, q * (m / p), FlooredError(d, q), d.mod)
    ensures var next := 2 * beta * (width / p);
            && 0 < next && d.mod == p * next && 0 <= m / p < next / (2 * beta)
            && Close(d.next, 2 * beta * (m / p), NextError(d, q, p), next)
  {
    hide IsPow2, Close, Distance, StepNoise, FlooredError;
    var next, g, R := 2 * beta * (width / p), 2 * beta * (m / p), RoundingError(d, p);
    NextModulus(d.mod, q, beta, p, width);
    GridPoint(q, beta, p, m / p);
    DistanceExact(2 * p * d.next, 2 * d.floored, R, 2 * d.mod);
    Shrunk(d.floored, d.next, g, FlooredError(d, q), p, next, R);
    QuotientBelow(m, width, p);
    GridCells(beta, width / p);
  }

  lemma GridCells(beta: int, w: int)
    requires 0 < beta
    ensures 2 * beta * w / (2 * beta) == w
  {
    assert 2 * beta * w == w * (2 * beta);
    DivModIs(2 * beta * w, 2 * beta, w, 0);
  }

  lemma GridPoint(q: int, beta: int, p: int, t: int)
    requires q == 2 * beta * p
    ensures q * t == p * (2 * beta * t)
  {
    assert 2 * beta * p * t == p * (2 * beta * t);
  }

  lemma QuotientBelow(cur: int, width: int, p: int)
    requires 0 < p && 0 <= cur < width && width % p == 0
    ensures 0 <= cur / p < width / p && width == width / p * p
  {
    assert width == width / p * p;
    QuotientRange(cur, p, width / p, width);
  }

  /** Floor, new modulus, rounding. */
  method FloorStep(params: BinFHECryptoParams, EKs: map<int, RingGSWBTKey>, curEK: RingGSWBTKey, cttmp: LWECiphertext,
                   mod: int, newMod: int,
                   beta: int, ghost sec: SecretMap, ghost p: int, ghost width: int)
    returns (r: LWECiphertext, ghost d: FloorData)
    requires params.Valid() && KeyMap(EKs, params, sec) && KeyInUse(params, EKs, curEK)
    requires Grid(mod, params.lwe.q, beta, p, width) && params.lwe.q < mod && newMod == 2 * beta * (width / p)
    requires cttmp.Valid() && cttmp.q == mod && |cttmp.a| == |sec.s|
    ensures fresh(r) && r.Valid() && r.q == newMod && |r.a| == |sec.s|
    ensures d.mod == mod && d.base == params.rgsw.baseG && d.phase == cttmp.Phase(sec.s) && d.next == r.Phase(sec.s)
    ensures StepRan(d, params, sec, beta, p)
  {
    hide IsPow2, Pow, GateTable, PhaseOf, PlainPowers, MonomialTable, LogTable, FuncError, Close, KeysFor, Residues,
         Clear, AbsSum, Distance, RoundingSlack,
         Reach, QuarterStep, Middle, RingGSWCryptoParams.Sizes;
    var q := params.lwe.q;
    ghost var s := sec.s;
    NextModulus(mod, q, beta, p, width);
    GridAccepts(params);
    GridBounds(mod, q, beta, p, width);
    ghost var own := sec.at[params.rgsw.baseG];
    assert 2 <= params.rgsw.baseG by { BaseTwo(EKs, params, sec); }
    var fl;
    ghost var st;
    fl, st := EvalFloor(params, curEK, cttmp, beta, 0, own, 0, 0);
    SmallGridAboveTwo(newMod, q, beta, p, width / p);
    r := ModSwitch(newMod, fl, s);
    d := FloorData(mod, params.rgsw.baseG, cttmp.Phase(s), cttmp.Phase(s) + beta, st, fl.Phase(s), r.Phase(s));
    MeasuredRounding(d, p, newMod, AbsSum(s, |s|));
    assert mod / (2 * beta) == width by { GridWidth(mod, q, beta, p, width); }
  }

  lemma GridWidth(mod: int, q: int, beta: int, p: int, width: int)
    requires Grid(mod, q, beta, p, width)
    ensures 0 < beta && mod / (2 * beta) == width
  {
    hide IsPow2;
    DivModIs(mod, 2 * beta, width, 0);
  }

  lemma MeasuredRounding(d: FloorData, p: int, M: int, sNorm: int)
    requires 2 <= p && 0 < M && 0 < d.mod && d.mod == p * M && 0 <= sNorm && 0 < 2 * d.mod * M
    requires Close(2 * d.mod * d.next, 2 * M * d.floored, (1 + sNorm) * d.mod, 2 * d.mod * M)
    ensures RoundingError(d, p) <= p * (1 + sNorm)
  {
    hide Close, Distance;
    MulNonNeg(M - 1, 2 * d.mod);
    assert M * (2 * d.mod) == (M - 1) * (2 * d.mod) + 2 * d.mod;
    ShrunkRounding(d.floored, d.next, p, M, sNorm, 2 * d.mod);
    DistanceExact(2 * p * d.next, 2 * d.floored, p * (1 + sNorm), 2 * d.mod);
  }

  lemma GridBounds(mod: int, q: int, beta: int, p: int, width: int)
    requires Grid(mod, q, beta, p, width)
    ensures 0 < beta && 0 < mod && beta < mod && q % 4 == 0 && mod % 2 == 0
  {
    hide IsPow2;
    EvenGrid(mod, q, beta, p, width);
    MulMonotone(2 * beta, 2, width);
    FourCells(q, beta, p, p / 2);
  }

  lemma EvenGrid(mod: int, q: int, beta: int, p: int, width: int)
    requires Grid(mod, q, beta, p, width)
    ensures mod % 2 == 0 && width % 2 == 0 && mod / 2 == 2 * beta * (width / 2) && 0 < mod
  {
    hide IsPow2;
    PowerIsEven(width);
    HalfCells(mod, beta, width, width / 2);
  }

  lemma HalfCells(mod: int, beta: int, width: int, h: int)
    requires 0 < beta && 2 <= width && width == 2 * h && mod == 2 * beta * width
    ensures mod % 2 == 0 && mod / 2 == 2 * beta * h && 0 < mod
  {
    var x := 2 * beta * h;
    assert 2 * beta * (2 * h) == 2 * x;
    MulMonotone(2 * beta, 1, h);
    DivModIs(mod, 2, x, 0);
  }

  lemma SmallGridAboveTwo(mod: int, q: int, beta: int, p: int, width: int)
    requires Grid(mod, q, beta, p, width)
    ensures 4 * beta <= mod && 2 < mod
  {
    MulMonotone(2 * beta, 2, width);
  }

  lemma BaseTwo(EKs: map<int, RingGSWBTKey>, params: BinFHECryptoParams, sec: SecretMap)
    requires KeyMap(EKs, params, sec)
    ensures forall base :: base in EKs ==> 2 <= base
  {
    forall base | base in EKs
      ensures 2 <= base
    {
      KeySizes(EKs[base], params, base, sec.at[base]);
    }
  }

  lemma GridAccepts(params: BinFHECryptoParams)
    requires params.Valid()
    ensures params.Accepts(params.lwe.q) && 2 < params.lwe.q
  {
    hide IsPow2, Pow, GateTable, PlainPowers, MonomialTable, LogTable;
    PowerIsEven(params.rgsw.q);
  }

  // ---------------------------------------------------------------------------
  // Runs of the loop
  // ---------------------------------------------------------------------------

  /** The loop as it was set up: keys, grid, and where it started. */
  datatype LoopRun = LoopRun(sec: SecretMap, beta: int, p: nat, base0: int, dynamic: bool, mod0: int, phase0: int)

  /**
    The recorded steps lead from the start to modulus mod and this phase, each under the base in
    use at its modulus.
   */
  ghost predicate Reached(run: LoopRun, steps: seq<FloorData>, params: BinFHECryptoParams, mod: int, phase: int)
    decreases |steps|
  {
    if |steps| == 0 then mod == run.mod0 && phase == run.phase0
    else
      var d := steps[|steps| - 1];
      && StepRan(d, params, run.sec, run.beta, run.p) && d.next == phase
      && d.mod == run.p * mod && mod == 2 * run.beta * (d.mod / (2 * run.beta) / run.p)
      && d.base == BaseAt(run.base0, run.dynamic, d.mod, run.mod0)
      && Reached(run, steps[..|steps| - 1], params, d.mod, d.phase)
  }

  lemma ReachedSnoc(run: LoopRun, steps: seq<FloorData>, d: FloorData, params: BinFHECryptoParams, mod: int)
    requires Reached(run, steps, params, d.mod, d.phase) && StepRan(d, params, run.sec, run.beta, run.p)
    requires 0 < run.beta && 0 < run.p && d.mod == run.p * mod && mod == 2 * run.beta * (d.mod / (2 * run.beta) / run.p)
    requires d.base == BaseAt(run.base0, run.dynamic, d.mod, run.mod0)
    ensures Reached(run, steps + [d], params, mod, d.next)
  {
    hide StepRan;
    assert (steps + [d])[..|steps|] == steps;
  }

  /** A run's first steps are a run. */
  lemma {:induction false} ReachedPrefix(run: LoopRun, steps: seq<FloorData>, params: BinFHECryptoParams, mod: int,
                                         phase: int, k: nat)
    requires Reached(run, steps, params, mod, phase) && k < |steps|
    ensures Reached(run, steps[..k], params, steps[k].mod, steps[k].phase)
    ensures StepRan(steps[k], params, run.sec, run.beta, run.p)
    decreases |steps|
  {
    hide StepRan;
    var d, rest := steps[|steps| - 1], steps[..|steps| - 1];
    if k < |rest| {
      ReachedPrefix(run, rest, params, d.mod, d.phase, k);
      assert rest[..k] == steps[..k] && rest[k] == steps[k];
    } else {
      assert rest == steps[..k];
    }
  }

  function Largest(x: int, y: int): int {
    if x < y then y else x
  }

  /** The worst actual reach of a step. */
  function WorstStep(steps: seq<FloorData>, q: int): nat {
    if |steps| == 0 then 0
    else
      var d := steps[|steps| - 1];
      Largest(if 0 < q && 0 < d.mod then StepReach(d, q) else 0, WorstStep(steps[..|steps| - 1], q))
  }

  /** Actual error of the message after the steps, from an error E at the start. */
  function LastError(steps: seq<FloorData>, q: int, p: int, E: int): int {
    if |steps| == 0 then E
    else
      var d := steps[|steps| - 1];
      if 0 < q && 0 < d.mod then NextError(d, q, p) else 0
  }

  /** The worst actual error of a message at the start or after any step. */
  function WorstGrid(steps: seq<FloorData>, q: int, p: int, E: int): int {
    if |steps| == 0 then E
    else Largest(LastError(steps, q, p, E), WorstGrid(steps[..|steps| - 1], q, p, E))
  }

  /** The worst message error and the worst reach of the run together stay below beta. */
  predicate LoopFits(steps: seq<FloorData>, q: int, p: int, beta: int, E: int) {
    WorstGrid(steps, q, p, E) + WorstStep(steps, q) < beta
  }

  lemma LastWithinWorst(steps: seq<FloorData>, q: int, p: int, E: int)
    ensures LastError(steps, q, p, E) <= WorstGrid(steps, q, p, E)
  {}

  /** What fits as a whole fits at every prefix. */
  lemma {:induction false} FitsPrefix(steps: seq<FloorData>, q: int, p: int, E: int, k: nat)
    requires k <= |steps|
    ensures WorstGrid(steps[..k], q, p, E) <= WorstGrid(steps, q, p, E)
    ensures WorstStep(steps[..k], q) <= WorstStep(steps, q)
    decreases |steps|
  {
    hide LastError;
    if k == |steps| {
      assert steps[..k] == steps;
    } else {
      var rest := steps[..|steps| - 1];
      FitsPrefix(rest, q, p, E, k);
      assert rest[..k] == steps[..k];
    }
  }

  /**
    Whatever the steps: a message within E of its grid point at the start is, after k steps that fit, its
    quotient by p^k within the run's actual last error of its grid point.
   */
  lemma {:induction false} RunOnGrid(run: LoopRun, steps: seq<FloorData>, params: BinFHECryptoParams, mod: int,
                                     phase: int, m: int, E: int)
    requires 0 < run.beta && 2 <= run.p && 0 < run.mod0 && 0 <= m < run.mod0 / (2 * run.beta)
    requires Reached(run, steps, params, mod, phase) && Close(run.phase0, 2 * run.beta * m, E, run.mod0)
    requires LoopFits(steps, params.lwe.q, run.p, run.beta, E)
    ensures 0 < mod && 0 <= m / Pow(run.p, |steps|) < mod / (2 * run.beta)
    ensures Close(phase, 2 * run.beta * (m / Pow(run.p, |steps|)), LastError(steps, params.lwe.q, run.p, E), mod)
    decreases |steps|
  {
    hide Close, StepRan, NextError, StepReach, Pow;
    if |steps| == 0 {
      ZeroPower(run.p, m);
    } else {
      var d, rest, q := steps[|steps| - 1], steps[..|steps| - 1], params.lwe.q;
      FitsPrefix(steps, q, run.p, E, |steps| - 1);
      RunOnGrid(run, rest, params, d.mod, d.phase, m, E);
      var cur, e := m / Pow(run.p, |rest|), LastError(rest, q, run.p, E);
      LastWithinWorst(rest, q, run.p, E);
      assert 0 < q && 0 < d.mod by { StepPositive(d, params, run.sec, run.beta, run.p); }
      StepOnGrid(d, params, run.sec, run.beta, run.p, cur, e);
      NextPower(m, run.p, |rest|);
    }
  }

  lemma ZeroPower(p: nat, m: int)
    ensures Pow(p, 0) == 1 && m / Pow(p, 0) == m
  {}

  lemma StepPositive(d: FloorData, params: BinFHECryptoParams, sec: SecretMap, beta: int, p: int)
    requires StepRan(d, params, sec, beta, p)
    ensures 0 < params.lwe.q && 0 < d.mod
  {}

  // ---------------------------------------------------------------------------
  // Budgets known before the run
  // ---------------------------------------------------------------------------

  /**
    There is a key for every base that a run from mod visits, and the worst-case bootstrap errors at
    exactly the pairs of base and modulus it visits, with the reading slack of the key, are at most D:
    every modulus above q under its base, and the final one, whose bootstrap is into q.
   */
  ghost predicate Affordable(run: LoopRun, params: BinFHECryptoParams, mod: int, D: int)
    decreases mod
  {
    var base, q, h := BaseAt(run.base0, run.dynamic, mod, run.mod0), params.lwe.q, RoundingSlack(params, run.sec.s);
    && base in run.sec.at && 2 <= base
    && if q < mod && 0 < q && 2 <= run.p && mod / run.p < mod
    then FuncErrorAt(params, run.sec, base, mod) + h <= D && Affordable(run, params, mod / run.p, D)
    else FuncErrorAt(params, run.sec, base, q) + h <= D
  }

  /** The visited pairs are affordable, and D with the rounding's worst case leaves room below beta. */
  ghost predicate Budget(run: LoopRun, params: BinFHECryptoParams, E: int, D: int) {
    && 0 <= D && E + D < run.beta && Affordable(run, params, run.mod0, D)
    && StepNoise(run.p, run.p * (1 + AbsSum(run.sec.s, |run.sec.s|)), D) <= E
  }

  lemma StepNoiseMonotone(p: int, R: int, R': int, D: int, D': int)
    requires 0 < p && R <= R' && D <= D'
    ensures StepNoise(p, R, D) <= StepNoise(p, R', D')
  {
    QuotientMonotone(R + 2 * D, R' + 2 * D', 2 * p);
  }

  lemma QuotientMonotone(x: int, y: int, c: int)
    requires 0 < c && x <= y
    ensures x / c <= y / c
  {
    assert x == x / c * c + x % c && y == y / c * c + y % c;
    assert c * (x / c) == x / c * c && c * (y / c + 1) == y / c * c + c;
    FactorLess(c, x / c, y / c + 1);
  }

  /** Inside the budget every run fits, and what is left of it is affordable. */
  lemma {:induction false} BudgetFits(run: LoopRun, steps: seq<FloorData>, params: BinFHECryptoParams, mod: int,
                                      phase: int, E: int, D: int)
    requires 2 <= run.p && Reached(run, steps, params, mod, phase) && Budget(run, params, E, D)
    ensures WorstStep(steps, params.lwe.q) <= D && WorstGrid(steps, params.lwe.q, run.p, E) <= E
    ensures Affordable(run, params, mod, D)
    ensures LoopFits(steps, params.lwe.q, run.p, run.beta, E)
    decreases |steps|
  {
    hide FuncErrorAt, StepNoise, AbsSum, Distance, Grid, QuarterStep, Middle, BaseAt, RoundingSlack;
    if |steps| != 0 {
      var d, rest, q, S := steps[|steps| - 1], steps[..|steps| - 1], params.lwe.q, AbsSum(run.sec.s, |run.sec.s|);
      BudgetFits(run, rest, params, d.mod, d.phase, E, D);
      DivModIs(d.mod, run.p, mod, 0);
      assert mod < d.mod by { SmallerModulus(d.mod, run.p, mod); }
      StepNoiseMonotone(run.p, RoundingError(d, run.p), run.p * (1 + S), FlooredError(d, q), D);
    }
  }

  lemma SmallerModulus(x: int, p: int, y: int)
    requires 2 <= p && 0 < x && x == p * y
    ensures y < x
  {
    FactorLess(p, 0, y);
    MulMonotone(y, 2, p);
  }
}
