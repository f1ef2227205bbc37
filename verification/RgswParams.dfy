/**
  Parameters and precomputed tables of the RingGSW scheme
  (src/binfhe/lib/rgsw-cryptoparameters.cpp, src/binfhe/include/rgsw-cryptoparameters.h).
 */
module RgswParams {
  import opened Arithmetic
  import opened NegacyclicRing
  import opened RingNoise
  import opened FivePowers
  import opened Gadget

  datatype Method = AP | GINX | LMKCDEY

  datatype BinGate = OR | AND | NOR | NAND | XOR | XNOR | MAJORITY | AND3 | OR3 | AND4 | OR4 | XOR_FAST | XNOR_FAST

  // ---------------------------------------------------------------------------
  // Digit counts
  // ---------------------------------------------------------------------------

  /** Least L >= from with base^L >= modulus. */
  function DigitCountFrom(modulus: int, base: nat, from: nat): (L: nat)
    requires 2 <= base
    ensures from <= L && modulus <= Pow(base, L)
    ensures forall l :: from <= l < L ==> Pow(base, l) < modulus
    decreases modulus - Pow(base, from)
  {
    if modulus <= Pow(base, from) then from else
      Arithmetic.MulMonotone(Pow(base, from), 2, base);
      DigitCountFrom(modulus, base, from + 1)
  }

  /** The number of digits the source obtains as a rounded-up ratio of logarithms. */
  function DigitCount(modulus: int, base: nat): (L: nat)
    requires 2 <= base
    ensures modulus <= Pow(base, L)
    ensures forall l :: 0 <= l < L ==> Pow(base, l) < modulus
  {
    DigitCountFrom(modulus, base, 0)
  }

  lemma TwoDigits(modulus: int, base: nat)
    requires 2 <= base < modulus
    ensures 2 <= DigitCount(modulus, base)
  {
    assert Pow(base, 0) == 1 && Pow(base, 1) == base * Pow(base, 0);
    var L := DigitCount(modulus, base);
    assert L != 0 && L != 1;
  }

  // ---------------------------------------------------------------------------
  // Table specifications
  // ---------------------------------------------------------------------------

  ghost predicate GadgetPowers(v: seq<int>, baseG: int, Q: int) {
    2 <= baseG && 0 < Q && |v| == DigitCount(Q, baseG) && forall i :: 0 <= i < |v| ==> v[i] == Pow(baseG, i) % Q
  }

  ghost predicate PlainPowers(v: seq<int>, base: int, modulus: int) {
    2 <= base && |v| == DigitCount(modulus, base) && forall i :: 0 <= i < |v| ==> v[i] == Pow(base, i)
  }

  /** The odd residue a bucket index of the log table stands for. */
  function BucketFactor(l: int, N: nat): int {
    if 0 <= l < 2 * N then Pow(5, BucketExponent(l, N)) else -Pow(5, BucketExponent(l, N))
  }

  function BucketExponent(l: int, N: nat): nat {
    if l == 2 * N then 0 else Abs(l)
  }

  ghost predicate IsBucket(l: int, N: nat) {
    l == 2 * N || -(N / 2) < l < N / 2
  }

  /** Every odd residue has the code of the signed power of 5 it equals. */
  ghost predicate LogTable(t: seq<int>, N: nat) {
    && 0 < N && |t| == 2 * N
    && forall o :: 0 <= o < 2 * N && o % 2 == 1 ==> IsBucket(t[o], N) && BucketFactor(t[o], N) % (2 * N) == o
  }

  /** X^i - 1 for every i below 2N. */
  ghost predicate MonomialTable(t: seq<Poly>, N: nat, Q: int) {
    && 0 < Q && |t| == 2 * N
    && forall i :: 0 <= i < 2 * N ==> t[i] == Reduce(Sub(Mono(N, i), One(N)), Q)
  }

  function GateNumerator(g: BinGate): (int, int) {
    match g
    case OR => (5, 8)
    case AND => (7, 8)
    case NOR => (1, 8)
    case NAND => (3, 8)
    case XOR => (6, 8)
    case XNOR => (2, 8)
    case MAJORITY => (7, 8)
    case AND3 => (11, 12)
    case OR3 => (7, 12)
    case AND4 => (15, 16)
    case OR4 => (9, 16)
    case XOR_FAST => (6, 8)
    case XNOR_FAST => (2, 8)
  }

  /** Lower end of the half circle on which a gate's output is 0. */
  function GateConst(g: BinGate, q: int): int {
    var (c, d) := GateNumerator(g);
    c * (q / d)
  }

  // ---------------------------------------------------------------------------
  // Table construction
  // ---------------------------------------------------------------------------

  lemma PowSteps(b: nat, i: nat)
    ensures Pow(b, 0) == 1 && Pow(b, i + 1) == Pow(b, i) * b
  {}

  /** baseR^i, unreduced. */
  method ComputeDigitsR(q: int, baseR: int) returns (digitsR: seq<int>)
    requires 2 <= baseR
    ensures PlainPowers(digitsR, baseR, q)
  {
    hide DigitCount, Pow;
    var digitCountR := DigitCount(q, baseR);
    PowSteps(baseR, 0);
    digitsR := [];
    var value := 1;
    for i := 0 to digitCountR
      invariant |digitsR| == i && value == Pow(baseR, i)
      invariant forall j :: 0 <= j < i ==> digitsR[j] == Pow(baseR, j)
    {
      PowSteps(baseR, i);
      digitsR := digitsR + [value];
      value := value * baseR;
    }
  }

  /** baseG^i modulo Q. */
  method ComputeGPower(Q: int, baseG: int) returns (v: seq<int>)
    requires 2 <= baseG && 1 < Q
    ensures GadgetPowers(v, baseG, Q)
  {
    var digits := DigitCount(Q, baseG);
    v := [];
    var vTemp := 1;
    ModSmall(1, Q);
    for i := 0 to digits
      invariant |v| == i && vTemp == Pow(baseG, i) % Q
      invariant forall j :: 0 <= j < i ==> v[j] == Pow(baseG, j) % Q
    {
      v := v + [vTemp];
      ModMod(Pow(baseG, i), Q);
      ModMulCong(vTemp, Pow(baseG, i), baseG, baseG, Q);
      assert Pow(baseG, i + 1) == Pow(baseG, i) * baseG;
      vTemp := (vTemp * baseG) % Q;
    }
  }

  lemma MonomialRow(N: nat, Q: int, i: nat, row: Poly)
    requires 1 < Q && 0 < N && i < 2 * N
    requires row == var f := Zero(N)[0 := Q - 1];
                    if i < N then f[i := (f[i] + 1) % Q] else f[i - N := (f[i - N] - 1) % Q]
    ensures row == Reduce(Sub(Mono(N, i), One(N)), Q)
  {
    forall k: nat | k < N
      ensures row[k] == (Mono(N, i)[k] - One(N)[k]) % Q
    {
      MonoCoefficient(N, i, k);
      ModSmall(0, Q);
      ModSmall(Q - 1, Q);
      ModPlusMultiple(-1, 1, Q);
      ModPlusMultiple(-2, 1, Q);
      ModPlusMultiple(0, 1, Q);
      ModSmall(1, Q);
    }
  }

  lemma MonoCoefficient(N: nat, m: nat, k: nat)
    requires m < 2 * N && k < N
    ensures Mono(N, m)[k] == if k == m then 1 else if k + N == m then -1 else 0
  {
    if m <= k {
      CoefInRange(One(N), k - m);
    } else if m - k <= N {
      CoefAnti(One(N), k - m);
      if m - k < N {
        CoefInRange(One(N), k - m + N);
        assert k + N != m;
      } else {
        CoefInRange(One(N), 0);
      }
    } else {
      CoefPeriod(One(N), k - m, 1);
      CoefInRange(One(N), k - m + 2 * N);
    }
  }

  method ComputeMonomials(N: nat, Q: int) returns (monomials: seq<Poly>)
    requires 0 < N && 1 < Q
    ensures MonomialTable(monomials, N, Q)
  {
    monomials := [];
    for i := 0 to N
      invariant |monomials| == i
      invariant forall j :: 0 <= j < i ==> monomials[j] == Reduce(Sub(Mono(N, j), One(N)), Q)
    {
      var aPoly := Zero(N)[0 := Q - 1];
      aPoly := aPoly[i := (aPoly[i] + 1) % Q];
      MonomialRow(N, Q, i, aPoly);
      monomials := monomials + [aPoly];
    }
    for i := 0 to N
      invariant |monomials| == N + i
      invariant forall j :: 0 <= j < N + i ==> monomials[j] == Reduce(Sub(Mono(N, j), One(N)), Q)
    {
      var aPoly := Zero(N)[0 := Q - 1];
      aPoly := aPoly[i := (aPoly[i] - 1) % Q];
      MonomialRow(N, Q, N + i, aPoly);
      monomials := monomials + [aPoly];
    }
  }

  // ---------------------------------------------------------------------------
  // The logarithm table
  // ---------------------------------------------------------------------------

  function FivePow(i: nat, M: int): int
    requires 0 < M
  {
    Pow(5, i) % M
  }

  /** Entries for the exponents below i are in place. */
  ghost predicate LogPrefix(t: seq<int>, M: int, i: nat)
    requires 4 <= M
  {
    && |t| == M && t[1] == 0 && t[M - 1] == M
    && forall j :: 1 <= j < i ==> LogPair(t, M, j)
  }

  ghost predicate LogPair(t: seq<int>, M: int, j: nat)
    requires 4 <= M == |t|
  {
    var g := FivePow(j, M);
    0 < g < M && t[g] == j && t[M - g] == 0 - j
  }

  lemma LogWrite(t: seq<int>, k: nat, i: nat, t': seq<int>)
    requires 4 <= Pow(2, k + 2) && LogPrefix(t, Pow(2, k + 2), i) && 1 <= i < Pow(2, k)
    requires 0 < FivePow(i, Pow(2, k + 2))
    requires var M := Pow(2, k + 2); var g := FivePow(i, M); t' == t[g := i][M - g := 0 - i]
    ensures LogPrefix(t', Pow(2, k + 2), i + 1)
  {
    hide Pow, FivePow;
    var M := Pow(2, k + 2);
    var g := FivePow(i, M);
    FivePowFacts(k, i, 0);
    assert g < M && g != 1 && M - g != 1;
    assert LogPair(t', M, i);
    forall j | 1 <= j < i
      ensures LogPair(t', M, j)
    {
      assert LogPair(t, M, j);
      FivePowFacts(k, i, j);
      KeepPair(t, t', M, i, j, g);
    }
  }

  lemma FivePowFacts(k: nat, i: nat, j: nat)
    requires j < i < Pow(2, k) && 4 <= Pow(2, k + 2)
    ensures var M := Pow(2, k + 2);
            M % 4 == 0 && FivePow(0, M) == 1 && 0 <= FivePow(i, M) < M
            && FivePow(i, M) % 4 == 1 && FivePow(j, M) % 4 == 1 && FivePow(j, M) != FivePow(i, M)
  {
    hide Pow;
    var M := Pow(2, k + 2);
    PowTwoStep(k + 1);
    PowTwoStep(k);
    DivModIs(M, 4, Pow(2, k), 0);
    FiveSides(k, i);
    FiveSides(k, j);
    FiveDistinct(k, j, i);
    PowSteps(5, 0);
    ModSmall(1, M);
    RemainderRange(Pow(5, i), M);
  }

  lemma RemainderRange(x: int, M: int)
    requires 0 < M
    ensures 0 <= x % M < M
  {}

  /** Writing the pair of i leaves the pair of j alone. */
  lemma KeepPair(t: seq<int>, t': seq<int>, M: int, i: nat, j: nat, g: int)
    requires 4 <= M == |t| && M % 4 == 0 && LogPair(t, M, j) && 0 < g < M && g % 4 == 1
    requires FivePow(j, M) % 4 == 1 && FivePow(j, M) != g && t' == t[g := i][M - g := 0 - i]
    ensures LogPair(t', M, j)
  {
    hide FivePow;
    var h := FivePow(j, M);
    assert h != M - g && M - h != g;
  }

  lemma LogComplete(t: seq<int>, k: nat)
    requires 4 <= Pow(2, k + 2) && LogPrefix(t, Pow(2, k + 2), Pow(2, k))
    ensures LogTable(t, Pow(2, k + 1))
  {
    var N, M := Pow(2, k + 1), Pow(2, k + 2);
    assert N == 2 * Pow(2, k) && M == 2 * N;
    TwoMoreBits(k);
    forall o | 0 <= o < M && o % 2 == 1
      ensures IsBucket(t[o], N) && BucketFactor(t[o], N) % M == o
    {
      if o % 4 == 1 {
        LogEntry(t, k, o);
      } else {
        NegatedLogEntry(t, k, o);
      }
    }
  }

  lemma LogEntry(t: seq<int>, k: nat, o: int)
    requires 4 <= Pow(2, k + 2) && LogPrefix(t, Pow(2, k + 2), Pow(2, k)) && 0 <= o < Pow(2, k + 2) && o % 4 == 1
    ensures IsBucket(t[o], Pow(2, k + 1)) && BucketFactor(t[o], Pow(2, k + 1)) % Pow(2, k + 2) == o
  {
    var i := LogExists(o, k);
    var M := Pow(2, k + 2);
    ModSmall(o, M);
    if i == 0 {
      assert Pow(5, 0) == 1;
      ModSmall(1, M);
      assert o == 1;
    } else {
      assert LogPair(t, M, i);
    }
  }

  lemma NegatedLogEntry(t: seq<int>, k: nat, o: int)
    requires 4 <= Pow(2, k + 2) && LogPrefix(t, Pow(2, k + 2), Pow(2, k)) && 0 <= o < Pow(2, k + 2) && o % 4 == 3
    ensures IsBucket(t[o], Pow(2, k + 1)) && BucketFactor(t[o], Pow(2, k + 1)) % Pow(2, k + 2) == o
  {
    var M := Pow(2, k + 2);
    TwoMoreBits(k);
    var i := LogExists(M - o, k);
    ModSmall(M - o, M);
    ModAddCong(0, 0, Pow(5, i), M - o, M);
    ModPlusMultiple(o - M, 1, M);
    ModSmall(o, M);
    if i == 0 {
      assert Pow(5, 0) == 1;
      ModSmall(1, M);
      assert o == M - 1;
      ModPlusMultiple(-1, 1, M);
    } else {
      assert LogPair(t, M, i);
    }
  }

  method ComputeLogGen(N: nat) returns (logGen: seq<int>)
    requires IsPow2(N) && 2 <= N
    ensures LogTable(logGen, N)
  {
    ghost var e: nat :| N == Pow(2, e);
    ghost var k: nat := e - 1;
    TwoMoreBits(k);
    var gen := 5;
    var M := 2 * N;
    logGen := seq(M, _ => 0);
    var gPow := 1;
    ModSmall(1, M);
    logGen := logGen[M - gPow := M];
    for i := 1 to N / 2
      invariant gPow == FivePow(i - 1, M)
      invariant LogPrefix(logGen, M, i)
    {
      NextFivePow(i - 1, gPow, M);
      gPow := (gPow * gen) % M;
      FiveSides(k, i);
      ghost var was := logGen;
      logGen := logGen[gPow := i];
      logGen := logGen[M - gPow := 0 - i];
      LogWrite(was, k, i, logGen);
    }
    LogComplete(logGen, k);
  }

  lemma NextFivePow(i: nat, g: int, M: int)
    requires 1 < M && g == FivePow(i, M)
    ensures (g * 5) % M == FivePow(i + 1, M)
  {
    ModMod(Pow(5, i), M);
    ModMulCong(g, Pow(5, i), 5, 5, M);
  }

  /** The table is an injective code on the odd residues. */
  lemma LogTableInjective(t: seq<int>, N: nat, o: nat, o': nat)
    requires LogTable(t, N) && o < 2 * N && o' < 2 * N && o % 2 == 1 && o' % 2 == 1
    ensures t[o] == t[o'] <==> o == o'
  {}

  /** Every bucket is the code of exactly one odd residue. */
  lemma LogTableOnto(t: seq<int>, N: nat, l: int) returns (o: nat)
    requires IsPow2(N) && 2 <= N && LogTable(t, N) && IsBucket(l, N)
    ensures o < 2 * N && o % 2 == 1 && t[o] == l
  {
    var e: nat :| N == Pow(2, e);
    var k: nat := e - 1;
    var M := 2 * N;
    TwoMoreBits(k);
    o := BucketFactor(l, N) % M;
    BucketOdd(l, N, k);
    BucketsDistinct(l, t[o], N, k);
  }

  lemma BucketOdd(l: int, N: nat, k: nat)
    requires N == Pow(2, k + 1) && IsBucket(l, N)
    ensures 0 < 2 * N && (BucketFactor(l, N) % (2 * N)) % 2 == 1
    ensures (BucketFactor(l, N) % (2 * N)) % 4 == if 0 <= l < 2 * N then 1 else 3
  {
    TwoMoreBits(k);
    FiveSides(k, BucketExponent(l, N));
    assert 2 * N == Pow(2, k + 2);
    OddFromFour(BucketFactor(l, N) % (2 * N));
  }

  lemma OddFromFour(x: int)
    requires x % 4 == 1 || x % 4 == 3
    ensures x % 2 == 1
  {}

  /** Different buckets stand for different residues. */
  lemma BucketsDistinct(l: int, m: int, N: nat, k: nat)
    requires N == Pow(2, k + 1) && IsBucket(l, N) && IsBucket(m, N)
    requires 0 < 2 * N && BucketFactor(l, N) % (2 * N) == BucketFactor(m, N) % (2 * N)
    ensures l == m
  {
    BucketOdd(l, N, k);
    BucketOdd(m, N, k);
    var i, j, M := BucketExponent(l, N), BucketExponent(m, N), 2 * N;
    if !(0 <= l < 2 * N) {
      ModAddCong(0, 0, -Pow(5, i), -Pow(5, j), M);
    }
    if i < j {
      FiveDistinct(k, i, j);
    } else if j < i {
      FiveDistinct(k, j, i);
    }
  }

  // ---------------------------------------------------------------------------
  // The parameter object
  // ---------------------------------------------------------------------------

  /** Position of a gate in the source's enumeration. */
  function GateIndex(g: BinGate): nat {
    match g
    case OR => 0
    case AND => 1
    case NOR => 2
    case NAND => 3
    case XOR => 4
    case XNOR => 5
    case MAJORITY => 6
    case AND3 => 7
    case OR3 => 8
    case AND4 => 9
    case OR4 => 10
    case XOR_FAST => 11
    case XNOR_FAST => 12
  }

  ghost predicate GateTable(t: seq<int>, q: int) {
    |t| == 13 && forall g: BinGate :: t[GateIndex(g)] == GateConst(g, q)
  }

  /** Gate by gate: the index and the fraction of q, the quotient rounded down before it is multiplied. */
  lemma GateConstIs(g: BinGate, q: int)
    ensures match g
            case OR => GateIndex(g) == 0 && GateConst(g, q) == 5 * (q / 8)
            case AND => GateIndex(g) == 1 && GateConst(g, q) == 7 * (q / 8)
            case NOR => GateIndex(g) == 2 && GateConst(g, q) == q / 8
            case NAND => GateIndex(g) == 3 && GateConst(g, q) == 3 * (q / 8)
            case XOR => GateIndex(g) == 4 && GateConst(g, q) == 6 * (q / 8)
            case XNOR => GateIndex(g) == 5 && GateConst(g, q) == 2 * (q / 8)
            case MAJORITY => GateIndex(g) == 6 && GateConst(g, q) == 7 * (q / 8)
            case AND3 => GateIndex(g) == 7 && GateConst(g, q) == 11 * (q / 12)
            case OR3 => GateIndex(g) == 8 && GateConst(g, q) == 7 * (q / 12)
            case AND4 => GateIndex(g) == 9 && GateConst(g, q) == 15 * (q / 16)
            case OR4 => GateIndex(g) == 10 && GateConst(g, q) == 9 * (q / 16)
            case XOR_FAST => GateIndex(g) == 11 && GateConst(g, q) == 6 * (q / 8)
            case XNOR_FAST => GateIndex(g) == 12 && GateConst(g, q) == 2 * (q / 8)
  {}

  method ComputeGateConst(q: int) returns (t: seq<int>)
    ensures GateTable(t, q)
    ensures t[..7] == [5 * (q / 8), 7 * (q / 8), q / 8, 3 * (q / 8), 6 * (q / 8), 2 * (q / 8), 7 * (q / 8)]
    ensures t[7..] == [11 * (q / 12), 7 * (q / 12), 15 * (q / 16), 9 * (q / 16), 6 * (q / 8), 2 * (q / 8)]
  {
    t := [5 * (q / 8), 7 * (q / 8), 1 * (q / 8), 3 * (q / 8), 6 * (q / 8), 2 * (q / 8), 7 * (q / 8),
          11 * (q / 12), 7 * (q / 12), 15 * (q / 16), 9 * (q / 16), 6 * (q / 8), 2 * (q / 8)];
  }

  lemma NoEmptyTable(Q: int, baseG: int)
    requires 2 <= baseG < Q
    ensures !GadgetPowers([], baseG, Q)
  {
    TwoDigits(Q, baseG);
  }

  lemma SignBasesArePowers()
    ensures IsGadgetBase(16384) && IsGadgetBase(262144) && IsGadgetBase(134217728)
  {
    PowerOfTwoBase(14, 16384);
    PowerOfTwoBase(18, 262144);
    PowerOfTwoBase(27, 134217728);
  }

  lemma TabulatedBases(tables: map<int, seq<int>>, bases: seq<int>)
    requires bases == [16384, 262144, 134217728] && forall b :: b in tables <==> b in bases
    ensures tables.Keys == {16384, 262144, 134217728}
    ensures 16384 in tables && 262144 in tables && 134217728 in tables
    ensures forall b :: b in tables <==> b == 16384 || b == 262144 || b == 134217728
  {
    assert bases[0] == 16384 && bases[1] == 262144 && bases[2] == 134217728;
    forall b
      ensures b in tables <==> b == 16384 || b == 262144 || b == 134217728
    {
      if b in bases {
        var i :| 0 <= i < 3 && bases[i] == b;
      }
    }
  }

  lemma PowerOfTwoBase(g: nat, b: int)
    requires 1 <= g <= 27 && b == (if g == 14 then 16384 else if g == 18 then 262144 else 134217728)
    requires g == 14 || g == 18 || g == 27
    ensures IsGadgetBase(b)
  {
    Doublings(0, 9, 512);
    assert Pow(2, 9) == 512;
    if g == 14 {
      Doublings(9, 5, 32);
    } else if g == 18 {
      Doublings(9, 9, 512);
    } else {
      Doublings(9, 9, 512);
      Doublings(18, 9, 512);
    }
    assert b == Pow(2, g);
  }

  lemma Doublings(e: nat, f: nat, p: int)
    requires (f == 5 && p == 32) || (f == 9 && p == 512)
    ensures Pow(2, e + f) == Pow(2, e) * p
  {
    PowAdd(2, e, f);
    assert Pow(2, 5) == 2 * Pow(2, 4) && Pow(2, 4) == 2 * Pow(2, 3) && Pow(2, 3) == 2 * Pow(2, 2)
        && Pow(2, 2) == 2 * Pow(2, 1) && Pow(2, 1) == 2 * Pow(2, 0);
    assert Pow(2, 9) == 2 * Pow(2, 8) && Pow(2, 8) == 2 * Pow(2, 7) && Pow(2, 7) == 2 * Pow(2, 6)
        && Pow(2, 6) == 2 * Pow(2, 5);
  }

  class RingGSWCryptoParams {
    const N: nat
    const Q: int
    const q: int
    const baseR: int
    const variant: Method
    const numAutoKeys: nat

    var baseG: int
    var digitsG: nat
    var gPower: seq<int>
    var gPowerMap: map<int, seq<int>>
    var digitsR: seq<int>
    var gateConst: seq<int>
    var monomials: seq<Poly>
    var logGen: seq<int>

    /** What the constructor's arguments have to satisfy. */
    ghost predicate Sizes()
    {
      && IsPow2(N) && 2 <= N && 2 * N <= Pow(2, 32) && 1 < Q && IsPow2(q) && 2 <= q && (2 * N) % q == 0
      && 2 <= baseR && 1 <= numAutoKeys
    }

    /** The tables that never change, and the digit count of the current base. */
    ghost predicate Valid()
      reads this
    {
      && Sizes()
      && IsGadgetBase(baseG) && 2 <= baseG < Q && digitsG == DigitCount(Q, baseG)
      && GateTable(gateConst, q)
      && (variant == AP ==> PlainPowers(digitsR, baseR, q))
      && (variant == GINX ==> MonomialTable(monomials, N, Q))
      && (variant == LMKCDEY ==> LogTable(logGen, N))
    }

    /** The power table belongs to the current gadget base. */
    ghost predicate GadgetReady()
      reads this
    {
      Valid() && GadgetPowers(gPower, baseG, Q)
    }

    /** Tables for sign evaluation are present for all three of its bases. */
    ghost predicate SignReady()
      reads this
    {
      forall b :: b in {16384, 262144, 134217728} ==> b in gPowerMap && GadgetPowers(gPowerMap[b], b, Q)
    }

    /**
      The power table is usable after construction exactly when no sign-evaluation tables were
      asked for or the chosen base is one of the three they cover.
     */
    constructor (N: nat, Q: int, q: int, baseG: int, baseR: int, variant: Method, signEval: bool, numAutoKeys: nat)
      requires IsPow2(N) && 2 <= N && 2 * N <= Pow(2, 32) && 1 < Q && IsPow2(q) && 2 <= q && (2 * N) % q == 0
      requires 2 <= baseR && 1 <= numAutoKeys && IsGadgetBase(baseG) && baseG < Q
      ensures this.N == N && this.Q == Q && this.q == q && this.baseR == baseR
      ensures this.variant == variant && this.numAutoKeys == numAutoKeys && this.baseG == baseG
      ensures Valid()
      ensures GadgetReady() <==> !signEval || baseG == 16384 || baseG == 262144 || baseG == 134217728
      ensures signEval ==> SignReady()
      ensures gPowerMap.Keys == if signEval then {16384, 262144, 134217728} else {}
    {
      this.N, this.Q, this.q, this.baseR, this.variant, this.numAutoKeys := N, Q, q, baseR, variant, numAutoKeys;
      this.baseG := baseG;
      BaseBits(baseG);
      this.digitsG := DigitCount(Q, baseG);
      new;
      gPower, gPowerMap := [], map[];
      PreCompute(signEval);
    }

    method PreCompute(signEval: bool)
      requires Sizes() && IsGadgetBase(baseG) && 2 <= baseG < Q && digitsG == DigitCount(Q, baseG)
      requires gPower == [] && gPowerMap == map[]
      modifies this
      ensures baseG == old(baseG) && Valid()
      ensures GadgetReady() <==> !signEval || baseG == 16384 || baseG == 262144 || baseG == 134217728
      ensures signEval ==> SignReady()
      ensures gPowerMap.Keys == if signEval then {16384, 262144, 134217728} else {}
    {
      hide Pow, IsPow2, IsGadgetBase, DigitCount, GateTable, GadgetPowers, MonomialTable, LogTable;
      NoEmptyTable(Q, baseG);
      if variant == AP {
        digitsR := ComputeDigitsR(q, baseR);
      }
      if signEval {
        var bases := [16384, 262144, 134217728];
        for j := 0 to 3
          invariant baseG == old(baseG) && digitsG == old(digitsG)
          invariant forall b :: b in gPowerMap <==> b in bases[..j]
          invariant forall b :: b in gPowerMap ==> GadgetPowers(gPowerMap[b], b, Q)
          invariant gPower == if baseG in gPowerMap then gPowerMap[baseG] else []
          invariant variant == AP ==> PlainPowers(digitsR, baseR, q)
        {
          var tempvec := ComputeGPower(Q, bases[j]);
          if baseG == bases[j] {
            gPower := tempvec;
          }
          gPowerMap := gPowerMap[bases[j] := tempvec];
        }
        assert bases[..3] == bases;
        TabulatedBases(gPowerMap, bases);
      } else {
        gPower := ComputeGPower(Q, baseG);
      }
      gateConst := ComputeGateConst(q);
      if variant == GINX {
        monomials := ComputeMonomials(N, Q);
      }
      if variant == LMKCDEY {
        logGen := ComputeLogGen(N);
      }
    }

    /**
      Switches the gadget base: base, power table and digit count change together, and the
      table is the stored one (empty for a base that was never tabulated).
     */
    method ChangeBaseG(newBase: int)
      requires Sizes() && 2 <= newBase
      modifies this`baseG, this`digitsG, this`gPower, this`gPowerMap
      ensures baseG == newBase
      ensures old(baseG) == newBase ==> digitsG == old(digitsG) && gPower == old(gPower) && gPowerMap == old(gPowerMap)
      ensures old(baseG) != newBase ==> digitsG == DigitCount(Q, newBase)
      ensures old(baseG) != newBase && newBase in old(gPowerMap) ==>
                gPower == old(gPowerMap)[newBase] && gPowerMap == old(gPowerMap)
      ensures old(baseG) != newBase && newBase !in old(gPowerMap) ==>
                gPower == [] && gPowerMap == old(gPowerMap)[newBase := []]
    {
      if baseG != newBase {
        baseG := newBase;
        if newBase !in gPowerMap {
          gPowerMap := gPowerMap[newBase := []];
        }
        gPower := gPowerMap[newBase];
        digitsG := DigitCount(Q, newBase);
      }
    }
  }
}
