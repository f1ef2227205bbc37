/**
  The Boolean side of gate bootstrapping: which half of the circle every gate maps to 0
  (src/binfhe/lib/rgsw-cryptoparameters.cpp:78-92, src/binfhe/lib/binfhe-base-scheme.cpp:521-551).
 */
module GateLogic {
  import opened Arithmetic
  import opened LweBasics
  import opened Lwe
  import opened KeySwitching
  import opened RgswParams
  import opened Lookup

  function Bit(b: bool): int {
    if b then 1 else 0
  }

  /** Inputs of a gate are fractions of the circle with this denominator. */
  function GatePlain(g: BinGate): (p: int)
    ensures p == 4 || p == 6 || p == 8
    ensures GateNumerator(g).1 == 2 * p
  {
    GateNumerator(g).1 / 2
  }

  predicate IsXor(g: BinGate) {
    g in {XOR, XNOR, XOR_FAST, XNOR_FAST}
  }

  /** XOR gates double the sum of their inputs. */
  function Weight(g: BinGate): int {
    if IsXor(g) then 2 else 1
  }

  /**
    Output of a gate whose (weighted) input sum is M: 1 outside the half circle of length 1/2 from
    the gate constant.
   */
  predicate GateBit(g: BinGate, M: int) {
    var (c, d) := GateNumerator(g);
    (2 * M - c) % d >= d / 2
  }

  function Arity(g: BinGate): int {
    match g
    case MAJORITY => 3
    case AND3 => 3
    case OR3 => 3
    case AND4 => 4
    case OR4 => 4
    case _ => 2
  }

  /** What a gate computes, in terms of the number of its true inputs. */
  predicate Meaning(g: BinGate, trues: int) {
    match g
    case OR => trues >= 1
    case AND => trues == 2
    case NOR => trues == 0
    case NAND => trues < 2
    case XOR => trues == 1
    case XNOR => trues != 1
    case MAJORITY => trues >= 2
    case AND3 => trues == 3
    case OR3 => trues >= 1
    case AND4 => trues == 4
    case OR4 => trues >= 1
    case XOR_FAST => trues == 1
    case XNOR_FAST => trues != 1
  }

  /** The gate constants realise the Boolean functions. */
  lemma GateTruth(g: BinGate, trues: int)
    requires 0 <= trues <= Arity(g)
    ensures GateBit(g, Weight(g) * trues) == Meaning(g, trues)
  {
    var (c, d) := GateNumerator(g);
    var x := 2 * (Weight(g) * trues) - c;
    assert Weight(g) * trues == if IsXor(g) then 2 * trues else trues;
    DivModIs(x, d, if x < 0 then -1 else 0, if x < 0 then x + d else x);
  }

  /** x lies in the half circle that starts at q1. */
  predicate InHalf(x: int, q1: int, q: int)
    requires 0 < q
  {
    (x - q1) % q < q / 2
  }

  /** The source's test with lb, ub and swapped values is membership in the half circle from q1. */
  lemma SwappedHalf(x: int, q1: int, q: int)
    requires 0 < q && q % 2 == 0 && 0 <= q1 < q && 0 <= x < q
    ensures var q2 := ModAddFast(q1, q / 2, q); var swap := q1 >= q2;
            var lb, ub := if swap then q2 else q1, if swap then q1 else q2;
            ((lb <= x < ub) != swap) == InHalf(x, q1, q)
  {
    ModSmall(if x < q1 then x - q1 + q else x - q1, q);
    ModPlusMultiple(x - q1, 1, q);
  }

  /** b after j steps down with one conditional correction each. */
  function Lowered(b: int, j: int, q: int): int {
    if j <= b then b - j else b - j + q
  }

  /** The outcome of the test for any x: values that are no residues are outside [lb, ub). */
  predicate RawHalf(x: int, q1: int, q: int)
    requires 0 < q
  {
    if x < q then InHalf(x, q1, q) else q / 2 <= q1
  }

  lemma SwappedRaw(x: int, q1: int, q: int)
    requires 0 < q && q % 2 == 0 && 0 <= q1 < q && 0 <= x
    ensures var q2 := ModAddFast(q1, q / 2, q); var swap := q1 >= q2;
            var lb, ub := if swap then q2 else q1, if swap then q1 else q2;
            ((lb <= x < ub) != swap) == RawHalf(x, q1, q)
  {
    if x < q {
      SwappedHalf(x, q1, q);
    }
  }

  lemma LoweredZero(b: int, q: int)
    requires 0 <= b
    ensures Lowered(b, 0, q) == b
  {}

  lemma LoweredStep(b: int, j: int, q: int)
    requires 1 < q && 0 <= b && 0 <= j < q
    ensures 0 <= Lowered(b, j, q) && Lowered(b, j + 1, q) == ModSubFast(Lowered(b, j, q), 1, q)
  {}

  /** Moving by half of the circle leaves one half and enters the other. */
  lemma HalfFlips(x: int, q1: int, q: int)
    requires 0 < q && q % 2 == 0
    ensures InHalf(x + q / 2, q1, q) == !InHalf(x, q1, q)
  {
    var r, d := (x - q1) % q, (x - q1) / q;
    assert x - q1 == d * q + r;
    if r < q / 2 {
      DivModIs(x + q / 2 - q1, q, d, r + q / 2);
    } else {
      assert (d + 1) * q == d * q + q;
      DivModIs(x + q / 2 - q1, q, d + 1, r - q / 2);
    }
  }

  /** The gate's noisy input sum stays clear of the two ends of its half circle. */
  predicate GateMargin(g: BinGate, q: int, E: int) {
    var (c, d) := GateNumerator(g);
    0 <= E && d * E + c * (q % d) < Weight(g) * q
  }

  /** A lookup point that encodes M within the margin falls on the side GateBit names. */
  lemma GateSide(g: BinGate, x: int, q: int, M: int, E: int)
    requires 0 < q && q % 2 == 0 && Encodes(x, q, M, GatePlain(g), E) && GateMargin(g, q, E)
    requires IsXor(g) ==> M % 2 == 0
    ensures InHalf(x, GateConst(g, q), q) == !GateBit(g, M)
  {
    hide Encodes, InHalf;
    var (c, d) := GateNumerator(g);
    var u := Weight(g);
    Odds(g, M);
    NumeratorPositive(g);
    SideOf(x, q, c, d, M, E, u);
  }

  lemma NumeratorPositive(g: BinGate)
    ensures GateNumerator(g).0 >= 0 && GateNumerator(g).1 > 0 && Weight(g) > 0
  {}

  lemma SideOf(x: int, q: int, c: int, d: int, M: int, E: int, u: int)
    requires 0 < q && q % 2 == 0 && 0 < d && d % 2 == 0 && 0 <= c && 0 < u
    requires Encodes(x, q, M, d / 2, E) && d * E + c * (q % d) < u * q
    requires u <= (2 * M - c) % d <= d / 2 - u || d / 2 + u <= (2 * M - c) % d <= d - u
    ensures InHalf(x, c * (q / d), q) <==> (2 * M - c) % d < d / 2
  {
    hide Encodes, InHalf;
    var p, r := d / 2, q % d;
    var k := EncodesWitness(x, q, M, p, E);
    var t, l := (2 * M - c) % d, (2 * M - c) / d;
    RemainderOf(2 * M - c, d);
    TwiceProduct(p, d, E);
    MulNonNeg(c, r);
    SideInts(x, q, c, d, M, E, u, k, l, t, r, p * x - M * q - k * (p * q));
  }

  lemma RemainderOf(x: int, d: int)
    requires 0 < d
    ensures x == x / d * d + x % d && 0 <= x % d < d
  {}

  lemma TwiceProduct(p: int, d: int, e: int)
    requires d == 2 * p
    ensures d * e == 2 * (p * e)
  {}

  lemma SideInts(x: int, q: int, c: int, d: int, M: int, E: int, u: int, k: int, l: int, t: int, r: int, delta: int)
    requires 0 < q && q % 2 == 0 && 0 < d && d % 2 == 0 && 0 <= c && 0 < u && r == q % d && 0 <= c * r
    requires 2 * M - c == l * d + t && d * E == 2 * (d / 2 * E) && d * E + c * r < u * q
    requires delta == d / 2 * x - M * q - k * (d / 2 * q) && -(d / 2 * E) <= delta <= d / 2 * E
    requires u <= t <= d / 2 - u || d / 2 + u <= t <= d - u
    ensures InHalf(x, c * (q / d), q) <==> t < d / 2
  {
    ScaledOffset(x, q, c, d, M, k, l, t, r, 2 * delta + c * r);
    OffsetSide(x - c * (q / d), q, d, t, u, k + l, 2 * delta + c * r);
  }

  /** The centre of every input sum is at least one unit (two for XOR) away from the ends of the half circle. */
  lemma Odds(g: BinGate, M: int)
    requires IsXor(g) ==> M % 2 == 0
    ensures var (c, d) := GateNumerator(g);
            var t, u := (2 * M - c) % d, Weight(g);
            u <= t <= d / 2 - u || d / 2 + u <= t <= d - u
  {
    var (c, d) := GateNumerator(g);
    if IsXor(g) {
      ResidueModulo(2 * M - c, 2, 4);
    } else {
      ResidueModulo(2 * M - c, d / 2, 2);
    }
  }

  lemma ResidueModulo(x: int, c: int, m: int)
    requires 0 < c && 0 < m
    ensures 0 < c * m && 0 <= x % (c * m) < c * m && x % (c * m) % m == x % m
  {
    MulNonNeg(c - 1, m);
    assert c * m == (c - 1) * m + m;
    ModOfMultiple(x, c, m);
  }

  lemma ScaledOffset(x: int, q: int, c: int, d: int, M: int, k: int, l: int, t: int, r: int, eta: int)
    requires 0 < d && d % 2 == 0 && r == q % d && 2 * M - c == l * d + t
    requires eta == 2 * (d / 2 * x - M * q - k * (d / 2 * q)) + c * r
    ensures d * (x - c * (q / d)) == t * q + (k + l) * (d * q) + eta
  {
    var p, h := d / 2, q / d;
    assert q == h * d + r;
    assert d * (x - c * h) == d * x - d * (c * h);
    ConstantTimes(c, d, h, r, q);
    TwiceProducts(p, d, x, k, q);
    TwiceSum(M, c, l, d, t, q);
    assert (k + l) * (d * q) == k * (d * q) + l * (d * q);
  }

  lemma ConstantTimes(c: int, d: int, h: int, r: int, q: int)
    requires q == h * d + r
    ensures d * (c * h) == c * q - c * r
  {
    assert c * (h * d + r) == c * (h * d) + c * r;
    assert c * (h * d) == d * (c * h);
  }

  lemma TwiceProducts(p: int, d: int, x: int, k: int, q: int)
    requires d == 2 * p
    ensures d * x == 2 * (p * x) && 2 * (k * (p * q)) == k * (d * q)
  {
    MulAssoc(2, p, x);
    assert d * q == 2 * (p * q);
  }

  lemma TwiceSum(M: int, c: int, l: int, d: int, t: int, q: int)
    requires 2 * M == c + l * d + t
    ensures 2 * (M * q) == c * q + l * (d * q) + t * q
  {
    assert (c + l * d + t) * q == c * q + l * d * q + t * q;
    MulAssoc(l, d, q);
    MulAssoc(2, M, q);
  }

  lemma OffsetSide(y: int, q: int, d: int, t: int, u: int, K: int, eta: int)
    requires 0 < q && q % 2 == 0 && 0 < d && d % 2 == 0 && 0 < u && -(u * q) < eta < u * q
    requires d * y == t * q + K * (d * q) + eta
    requires u <= t <= d / 2 - u || d / 2 + u <= t <= d - u
    ensures y % q < q / 2 <==> t <= d / 2 - u
  {
    var w, p := y - K * q, d / 2;
    assert d * w == t * q + eta by {
      assert d * (y - K * q) == d * y - d * (K * q);
      assert d * (K * q) == K * (d * q);
    }
    MulMonotone(q, u, t);
    MulMonotone(q, t, if t <= p - u then p - u else d - u);
    MulMonotone(q, p + u, if t <= p - u then p + u else t);
    OffsetBounds(q, t, u, p);
    OffsetBounds(q, t, u, d);
    HalfProduct(d, q);
    if t <= p - u {
      FactorLess(d, 0, w);
      FactorLess(d, w, q / 2);
    } else {
      FactorLess(d, q / 2, w);
      FactorLess(d, w, q);
    }
    DivModIs(y, q, K, w);
  }

  lemma OffsetBounds(q: int, t: int, u: int, p: int)
    ensures q * t == t * q && q * u == u * q
    ensures q * (p - u) == p * q - u * q && q * (p + u) == p * q + u * q
  {}

  lemma HalfProduct(d: int, q: int)
    requires d % 2 == 0 && q % 2 == 0
    ensures d * (q / 2) == d / 2 * q
  {
    var h, p := q / 2, d / 2;
    assert (2 * p) * h == p * (2 * h);
  }

  // ---------------------------------------------------------------------------
  // The two output values
  // ---------------------------------------------------------------------------

  /** Q/2p + 1, half of the distance between an encrypted 0 and 1 modulo Q. */
  function HalfGap(Q: int, p: int): (gap: int)
    requires 0 < p
    ensures 2 * p * (gap - 1) <= Q < 2 * p * gap
  {
    Q / (p * 2) + 1
  }

  lemma HalfGapSmall(Q: int, p: int)
    requires 2 < Q && 0 < p
    ensures 0 < HalfGap(Q, p) < Q
  {
    var h := Q / (p * 2);
    assert Q == h * (p * 2) + Q % (p * 2);
    FactorLess(p * 2, -1, h);
    MulMonotone(h, 2, p * 2);
  }

  /** What a gate tabulates. */
  function GateValues(q1: int, q: int, gap: int): int -> int
    requires 0 < q
  {
    x => if InHalf(x, q1, q) then 0 - gap else gap
  }

  /** What the index loop tabulates from an offset b that need not be a residue. */
  function RawValues(b: int, q1: int, q: int, gap: int): int -> int
    requires 0 < q
  {
    y => if RawHalf(Lowered(b, (b - y) % q, q), q1, q) then 0 - gap else gap
  }

  lemma RawAt(b: int, j: int, q: int)
    requires 0 <= j < q
    ensures (b - (b - j) % q) % q == j
  {
    ModMod(b - j, q);
    ModAddCong(b, b, (b - j) % q, b - j, q);
    ModSmall(j, q);
  }

  lemma LoweredResidue(b: int, y: int, q: int)
    requires 0 <= b < q
    ensures Lowered(b, (b - y) % q, q) == y % q
  {
    var j := (b - y) % q;
    DivModIs(b - j, q, if j <= b then 0 else -1, Lowered(b, j, q));
    ModMod(b - y, q);
    ModAddCong(b, b, j, b - y, q);
  }

  lemma InHalfResidue(y: int, q1: int, q: int)
    requires 0 < q
    ensures InHalf(y % q, q1, q) == InHalf(y, q1, q)
  {
    ModMod(y, q);
    ModAddCong(y % q, y, q1, q1, q);
  }

  /** From a residue the loop tabulates the gate. */
  lemma RawIsGate(b: int, y: int, q1: int, q: int, gap: int)
    requires 0 <= b < q
    ensures RawValues(b, q1, q, gap)(y) == GateValues(q1, q, gap)(y)
  {
    hide InHalf, Lowered;
    var f, g := RawValues(b, q1, q, gap), GateValues(q1, q, gap);
    LoweredResidue(b, y, q);
    InHalfResidue(y, q1, q);
    assert f(y) == if RawHalf(y % q, q1, q) then 0 - gap else gap;
    assert g(y) == if InHalf(y, q1, q) then 0 - gap else gap;
  }

  /** The loop's table at its j-th entry. */
  lemma RawEntry(b: int, j: int, q1: int, q: int, gap: int)
    requires 0 <= j < q
    ensures RawValues(b, q1, q, gap)((b - j) % q) == if RawHalf(Lowered(b, j, q), q1, q) then 0 - gap else gap
  {
    hide RawHalf, Lowered;
    var f, y := RawValues(b, q1, q, gap), (b - j) % q;
    RawAt(b, j, q);
    assert f(y) == if RawHalf(Lowered(b, (b - y) % q, q), q1, q) then 0 - gap else gap;
  }

  lemma GateAntiperiodic(q1: int, q: int, gap: int, Q: int)
    requires 0 < q && q % 2 == 0 && 0 < Q
    ensures Antiperiodic(GateValues(q1, q, gap), q, 0, Q)
  {
    var F := GateValues(q1, q, gap);
    forall x | 0 <= x < q / 2
      ensures Close(F(x + q / 2), -F(x), 0, Q)
    {
      HalfFlips(x, q1, q);
      CloseSelf(-F(x), 0, Q);
    }
  }

  /** With the offset added the two values encode 0 and 1. */
  lemma GateValueEncodes(phase: int, bit: bool, Q: int, p: int, noise: int)
    requires 0 < Q && 0 < p
    requires Close(phase, (if bit then HalfGap(Q, p) else 0 - HalfGap(Q, p)) + HalfGap(Q, p), noise, Q)
    ensures Encodes(phase, Q, Bit(bit), p, noise + 2)
  {
    hide Close, Encodes;
    var h, r := Q / (p * 2), Q % (p * 2);
    var v := if bit then 2 * (h + 1) else 0;
    var k := CloseWitness(phase, v, noise, Q);
    AbsMulBound(p, phase - v - k * Q, noise);
    ScaledGap(p, phase, v, k, Q);
    RemainderOf(Q, p * 2);
    GapBound(p, h, r, Q, bit, noise, p * phase - p * v - k * (p * Q), v);
    EncodesIntro(phase, Q, Bit(bit), p, noise + 2, k);
  }

  /** The gap is at most 2p away from the p-th part of Q. */
  lemma GapBound(p: int, h: int, r: int, Q: int, bit: bool, noise: int, x: int, v: int)
    requires 0 < p && 0 <= r < p * 2 && Q == h * (p * 2) + r && v == (if bit then 2 * (h + 1) else 0)
    requires -(p * noise) <= x <= p * noise
    ensures var d := x + p * v - Bit(bit) * Q; -(p * (noise + 2)) <= d <= p * (noise + 2)
  {
    GapTimes(p, h);
    assert p * 0 == 0;
    assert p * (noise + 2) == p * noise + 2 * p;
  }

  lemma GapTimes(p: int, h: int)
    ensures p * (2 * (h + 1)) == h * (p * 2) + 2 * p
  {}

  // ---------------------------------------------------------------------------
  // Bootstrap's two values
  // ---------------------------------------------------------------------------

  /**
    Phase of Bootstrap's output before switching: the working copy has fallen back to plaintext
    modulus 4, so the two values come from 4 and the offset from p.
   */
  function BootstrapValue(bit: bool, Q: int, p: int): int
    requires 0 < p
  {
    (if bit then HalfGap(Q, 4) else 0 - HalfGap(Q, 4)) + HalfGap(Q, p)
  }

  /** With refresh error e both bits stay in their message windows: a condition on the parameters alone. */
  predicate BootstrapMargin(Q: int, p: int, e: int)
    requires 0 < p
  {
    var h, u := Q / (p * 2), Q / 8;
    && e <= 2 * h - u && p * (2 * h - u + e) < Q
    && Q <= p * (2 * h + 2 + u - e) && p * (2 * h + 2 + u + e) < 2 * Q
  }

  /** A value less than a turn away from the window is in it as an integer. */
  lemma InWindow(v: int, p: int, Q: int)
    requires 2 <= p && 2 < Q && -(p * Q - Q) <= v < p * Q
    ensures v % (p * Q) < Q <==> 0 <= v < Q
  {
    if 0 <= v {
      ModSmall(v, p * Q);
    } else {
      DivModIs(v, p * Q, -1, v + p * Q);
    }
  }

  lemma BootstrapPhase(bit: bool, err: int, Q: int, p: int)
    requires 2 <= p && 2 < Q
    ensures 0 < p * Q
    ensures var h, u := Q / (p * 2), Q / 8;
            Decodes(BootstrapValue(bit, Q, p) + err, Bit(bit), p, Q) <==>
            (if bit then p * (2 * h + 2 + u + err) - Q else p * (2 * h - u + err)) % (p * Q) < Q
  {
    var h, u := Q / (p * 2), Q / 8;
    MulNonNeg(p - 1, Q);
    assert p * Q == (p - 1) * Q + Q;
    var x := BootstrapValue(bit, Q, p) + err;
    assert x == if bit then h + u + 2 + err else h - u + err;
    WindowShift(p, x, h, if bit then 2 * h + 2 + u + err else 2 * h - u + err);
    assert Bit(bit) * Q == if bit then Q else 0;
  }

  lemma WindowShift(p: int, x: int, h: int, y: int)
    requires y == x + h
    ensures p * x + p * h == p * y
  {}

  lemma WindowWidth(Q: int, p: int)
    requires 2 <= p && 2 < Q
    ensures p <= p * Q - Q && p * (Q / (p * 2) * 2) <= Q < p * (Q / (p * 2) * 2) + 2 * p
    ensures 0 <= Q / 8 && p * (Q / 8) + 2 * p < p * Q && p * (Q / 8) <= p * Q - Q
  {
    var h, u := Q / (p * 2), Q / 8;
    assert Q == h * (p * 2) + Q % (p * 2);
    assert p * (h * 2) == h * (p * 2);
    assert Q == u * 8 + Q % 8;
    EighthWidth(Q, p, u);
  }

  lemma EighthWidth(Q: int, p: int, u: int)
    requires 2 <= p && 2 < Q && u * 8 <= Q < u * 8 + 8
    ensures p <= p * Q - Q && 0 <= u && p * u + 2 * p < p * Q && p * u <= p * Q - Q
  {
    MulMonotone(Q, 2, p);
    assert Q * p == p * Q && Q * 2 == 2 * Q;
    MulMonotone(p, 3, Q);
    MulMonotone(p, u + 3, Q);
    assert p * (u + 3) == p * u + 3 * p;
    MulMonotone(p, 8 * u, Q);
    assert p * (8 * u) == 8 * (p * u);
  }

  /** The largest multiple of p below x and the least one not below it. */
  lemma NextMultiple(x: int, p: int) returns (c: int)
    requires 0 < p
    ensures x <= p * c < x + p && p * (c - 1) < x
    ensures forall y :: x <= p * y ==> c <= y
    ensures forall y :: p * y < x ==> y < c
  {
    c := (x + p - 1) / p;
    assert x + p - 1 == c * p + (x + p - 1) % p;
    assert c * p == p * c && p * (c - 1) == p * c - p;
    forall y | x <= p * y
      ensures c <= y
    {
      FactorLess(p, c - 1, y);
    }
    forall y | p * y < x
      ensures y < c
    {
      FactorLess(p, y, c);
    }
  }

  /** Outside the window of width Q the bit is lost. */
  lemma NotDecoded(Q: int, p: int, bit: bool, err: int, h: int, u: int, v: int)
    requires 2 <= p && 2 < Q && Cells(Q, p, h, u)
    requires v == if bit then p * (2 * h + 2 + u + err) - Q else p * (2 * h - u + err)
    requires -(p * Q - Q) <= v < p * Q && (v < 0 || Q <= v)
    ensures 0 < p * Q && !Decodes(BootstrapValue(bit, Q, p) + err, Bit(bit), p, Q)
  {
    hide Decodes, BootstrapValue;
    BootstrapPhase(bit, err, Q, p);
    InWindow(v, p, Q);
  }

  /** The two gaps of Bootstrap. */
  predicate Cells(Q: int, p: int, h: int, u: int)
    requires 0 < p
  {
    h == Q / (p * 2) && u == Q / 8
  }

  lemma CellFacts(Q: int, p: int) returns (h: int, u: int)
    requires 2 <= p && 2 < Q
    ensures Cells(Q, p, h, u) && 0 <= h && 0 <= u
    ensures p <= p * Q - Q && p * (h * 2) <= Q < p * (h * 2) + 2 * p
    ensures p * u + 2 * p < p * Q && p * u <= p * Q - Q
  {
    h, u := Q / (p * 2), Q / 8;
    WindowWidth(Q, p);
  }

  lemma FalseError(Q: int, p: int, e: int, t: int, h: int, u: int) returns (err: int)
    requires 2 <= p && 2 < Q && 0 <= e && 0 <= u && 0 <= h && t == 2 * h - u && p <= p * Q - Q
    requires p * (h * 2) <= Q && p * u <= p * Q - Q
    ensures -e <= err <= e
    ensures t < e || Q <= p * (t + e) ==>
      -(p * Q - Q) <= p * (t + err) < p * Q && (p * (t + err) < 0 || Q <= p * (t + err))
  {
    FalseTarget(p, h, u, t);
    if t < 0 {
      err := 0;
      FalseBelow(p, t);
    } else if t < e {
      err := -t - 1;
      FalseBelow(p, -1);
    } else if Q <= p * (t + e) {
      err := FalseAbove(Q, p, e, t);
    } else {
      err := 0;
    }
  }

  lemma FalseTarget(p: int, h: int, u: int, t: int)
    requires 0 <= p && 0 <= h && 0 <= u && t == 2 * h - u
    ensures -(p * u) <= p * t <= p * (h * 2)
  {
    assert p * (h * 2 - u) == p * (h * 2) - p * u;
    MulNonNeg(p, h * 2);
    MulNonNeg(p, u);
  }

  lemma FalseBelow(p: int, t: int)
    requires 0 < p && t < 0
    ensures p * t <= -p && p * -1 == -p
  {
    MulMonotone(p, t, -1);
  }

  lemma FalseAbove(Q: int, p: int, e: int, t: int) returns (err: int)
    requires 2 <= p && 0 < Q && 0 <= e && p * t <= Q && p <= p * Q - Q && Q <= p * (t + e)
    ensures -e <= err <= e && Q <= p * (t + err) < p * Q
  {
    var c := NextMultiple(Q, p);
    assert p * (c + 1) == p * c + p;
    FactorLess(p, t, c + 1);
    err := c - t;
  }

  lemma TrueTarget(p: int, h: int, u: int, Q: int)
    requires 2 <= p && 0 <= u && p * (h * 2) <= Q < p * (h * 2) + 2 * p && p * u + 2 * p < p * Q
    ensures Q < p * (2 * h + 2 + u) < p * Q + Q
  {
    assert p * (2 * h + 2 + u) == p * (h * 2) + 2 * p + p * u;
    MulNonNeg(p, u);
  }

  /** An error within e that leaves the window, where there is one. */
  lemma TrueError(Q: int, p: int, e: int, T: int) returns (err: int)
    requires 2 <= p && 2 < Q && 0 <= e && p <= p * Q - Q && Q < p * T < p * Q + Q
    ensures -e <= err <= e
    ensures p * (T - e) < Q || 2 * Q <= p * (T + e) ==>
      -(p * Q - Q) <= p * (T + err) - Q < p * Q && (p * (T + err) - Q < 0 || Q <= p * (T + err) - Q)
  {
    err := 0;
    if p * (T - e) < Q {
      var c := NextMultiple(Q, p);
      err := c - 1 - T;
    } else if 2 * Q <= p * (T + e) && p * T < 2 * Q {
      var c := NextMultiple(2 * Q, p);
      err := c - T;
    } else {
      assert p * (T + 0) == p * T;
    }
  }

  lemma WithinMargin(Q: int, p: int, e: int, bit: bool, err: int)
    requires 2 <= p && 2 < Q && BootstrapMargin(Q, p, e) && -e <= err <= e
    ensures 0 < p * Q && Decodes(BootstrapValue(bit, Q, p) + err, Bit(bit), p, Q)
  {
    hide Decodes, BootstrapValue;
    BootstrapPhase(bit, err, Q, p);
    WindowInts(Q, p, Q / (p * 2), Q / 8, e, bit, err);
  }

  lemma WindowInts(Q: int, p: int, h: int, u: int, e: int, bit: bool, err: int)
    requires 2 <= p && 2 < Q && -e <= err <= e
    requires e <= 2 * h - u && p * (2 * h - u + e) < Q
    requires Q <= p * (2 * h + 2 + u - e) && p * (2 * h + 2 + u + e) < 2 * Q
    ensures (if bit then p * (2 * h + 2 + u + err) - Q else p * (2 * h - u + err)) % (p * Q) < Q
  {
    MulMonotone(Q, 2, p);
    assert Q * p == p * Q;
    if bit {
      Between(p, 2 * h + 2 + u - e, 2 * h + 2 + u + err, 2 * h + 2 + u + e);
      InWindow(p * (2 * h + 2 + u + err) - Q, p, Q);
    } else {
      Between(p, 0, 2 * h - u + err, 2 * h - u + e);
      InWindow(p * (2 * h - u + err), p, Q);
    }
  }

  lemma Between(p: int, x: int, y: int, z: int)
    requires 0 <= p && x <= y <= z
    ensures p * x <= p * y <= p * z && p * 0 == 0
  {
    MulMonotone(p, x, y);
    MulMonotone(p, y, z);
  }

  /** Bootstrap's output with refresh error err decrypts modulo p to the bit it looked up. */
  predicate KeepsBit(bit: bool, err: int, Q: int, p: int) {
    0 < p && 0 < Q && 0 < p * Q && Decodes(BootstrapValue(bit, Q, p) + err, Bit(bit), p, Q)
  }

  /**
    Bootstrap's output decrypts modulo p to the bit it looked up, for both bits and every refresh
    error up to e, if and only if the two gaps and e satisfy BootstrapMargin.
   */
  lemma BootstrapDecodes(Q: int, p: int, e: int)
    requires 2 <= p && 2 < Q && 0 <= e
    ensures (forall bit, err :: -e <= err <= e ==> KeepsBit(bit, err, Q, p)) <==> BootstrapMargin(Q, p, e)
  {
    hide KeepsBit, BootstrapMargin;
    if BootstrapMargin(Q, p, e) {
      forall bit, err | -e <= err <= e
        ensures KeepsBit(bit, err, Q, p)
      {
        KeptInside(Q, p, e, bit, err);
      }
    } else {
      var bit, err := LostOutside(Q, p, e);
      assert !KeepsBit(bit, err, Q, p);
    }
  }

  lemma KeptInside(Q: int, p: int, e: int, bit: bool, err: int)
    requires 2 <= p && 2 < Q && BootstrapMargin(Q, p, e) && -e <= err <= e
    ensures KeepsBit(bit, err, Q, p)
  {
    hide Decodes, BootstrapValue, BootstrapMargin;
    WithinMargin(Q, p, e, bit, err);
  }

  lemma LostOutside(Q: int, p: int, e: int) returns (bit: bool, err: int)
    requires 2 <= p && 2 < Q && 0 <= e && !BootstrapMargin(Q, p, e)
    ensures -e <= err <= e && !KeepsBit(bit, err, Q, p)
  {
    hide Decodes, BootstrapValue, BootstrapMargin, Cells;
    var h, u := CellFacts(Q, p);
    OutsideMargin(Q, p, e, h, u);
    bit := !(2 * h - u < e || Q <= p * (2 * h - u + e));
    if bit {
      TrueTarget(p, h, u, Q);
      err := TrueError(Q, p, e, 2 * h + 2 + u);
      NotDecoded(Q, p, true, err, h, u, p * (2 * h + 2 + u + err) - Q);
    } else {
      err := FalseError(Q, p, e, 2 * h - u, h, u);
      NotDecoded(Q, p, false, err, h, u, p * (2 * h - u + err));
    }
  }

  lemma OutsideMargin(Q: int, p: int, e: int, h: int, u: int)
    requires 0 < p && !BootstrapMargin(Q, p, e) && Cells(Q, p, h, u)
    ensures 2 * h - u < e || Q <= p * (2 * h - u + e) || p * (2 * h + 2 + u - e) < Q || 2 * Q <= p * (2 * h + 2 + u + e)
  {}

  /**
    For the 27-bit prime of the standard parameters and no error at all: modulo 4 and 6 both bits
    are kept, modulo 12 they are not.
   */
  lemma BootstrapExamples()
    ensures BootstrapMargin(134215681, 4, 0) && BootstrapMargin(134215681, 6, 0) && !BootstrapMargin(134215681, 12, 0)
    ensures !KeepsBit(false, 0, 134215681, 12)
  {}

  // ---------------------------------------------------------------------------
  // Bootstrap's input
  // ---------------------------------------------------------------------------

  /** With a quarter of q added, y falls on the side of the bit. */
  predicate ReadsBit(bit: bool, y: int, q: int) {
    0 < q && InHalf(y + q / 4, GateConst(AND, q), q) == !bit
  }

  /** Bits encoded over p with error e are read back. */
  predicate ReadMargin(q: int, p: int, e: int) {
    e < q / 8 && q / 8 + e <= CeilDiv(q, p)
  }

  /** The test is whether y is between one and five eighths of the circle. */
  lemma ReadsEighths(bit: bool, y: int, q: int, k: int)
    requires 0 < q && q % 8 == 0 && 0 <= y - k * q + 3 * (q / 8) < q
    ensures ReadsBit(bit, y, q) <==> (bit <==> q / 8 <= y - k * q)
  {
    var w := y - k * q + 3 * (q / 8);
    assert GateConst(AND, q) == 7 * (q / 8);
    assert (k - 1) * q == k * q - q;
    assert y + q / 4 - 7 * (q / 8) == (k - 1) * q + w;
    DivModIs(y + q / 4 - 7 * (q / 8), q, k - 1, w);
  }

  lemma EncodedBit(y: int, q: int, bit: bool, p: int, e: int) returns (k: int)
    requires 2 <= p && Encodes(y, q, Bit(bit), p, e)
    ensures 0 <= e
    ensures var d := y - k * q; if bit then CeilDiv(q, p) - e <= d && 2 * d <= q + 2 * e else -e <= d <= e
  {
    hide Encodes, CeilDiv;
    EncodesNonNeg(y, q, Bit(bit), p, e);
    k := EncodesWitness(y, q, Bit(bit), p, e);
    var d := y - k * q;
    ScaledMultiple(p, y, k, q);
    assert Bit(bit) * q == if bit then q else 0;
    if bit {
      assert 0 < q by { EncodesPositive(y, q, Bit(bit), p, e); }
      CeilDivBound(q, p);
      TrueDistance(p, d, e, q, CeilDiv(q, p));
    } else {
      FalseDistance(p, d, e);
    }
  }

  lemma EncodesPositive(x: int, q: int, m: int, p: int, e: int)
    requires Encodes(x, q, m, p, e)
    ensures 0 < q && 0 < p
  {}

  lemma ScaledMultiple(p: int, y: int, k: int, q: int)
    ensures p * (y - k * q) == p * y - k * (p * q)
  {
    assert p * (y - k * q) == p * y - p * (k * q);
    MulAssoc(p, k, q);
    MulAssoc(k, p, q);
  }

  lemma FalseDistance(p: int, d: int, e: int)
    requires 0 < p && -(p * e) <= p * d <= p * e
    ensures -e <= d <= e
  {
    assert p * (e + 1) == p * e + p && p * (-e - 1) == -(p * e) - p;
    FactorLess(p, d, e + 1);
    FactorLess(p, -e - 1, d);
  }

  lemma TrueDistance(p: int, d: int, e: int, q: int, c: int)
    requires 2 <= p && 0 <= e && -(p * e) <= p * d - q <= p * e && q <= p * c < q + p && 0 < q
    ensures c - e <= d && 2 * d <= q + 2 * e
  {
    assert p * (d + e) == p * d + p * e && p * (c - 1) == p * c - p;
    FactorLess(p, c - 1, d + e);
    if 0 < d - e {
      MulMonotone(d - e, 2, p);
      assert (d - e) * p == p * d - p * e;
    }
  }

  lemma ReadInside(q: int, p: int, e: int, bit: bool, y: int)
    requires 0 < q && q % 8 == 0 && 2 <= p && ReadMargin(q, p, e) && Encodes(y, q, Bit(bit), p, e)
    ensures ReadsBit(bit, y, q)
  {
    hide Encodes, ReadsBit, CeilDiv;
    var k := EncodedBit(y, q, bit, p, e);
    ReadsEighths(bit, y, q, k);
  }

  lemma LostFalse(q: int, p: int, e: int)
    requires 0 < q && q % 8 == 0 && 2 <= p && q / 8 <= e
    ensures Encodes(q / 8, q, Bit(false), p, e) && !ReadsBit(false, q / 8, q)
  {
    hide Encodes, ReadsBit;
    MulMonotone(p, q / 8, e);
    MulNonNeg(p, q / 8);
    MulNonNeg(p, e);
    EncodesIntro(q / 8, q, 0, p, e, 0);
    ReadsEighths(false, q / 8, q, 0);
  }

  lemma LostTrue(q: int, p: int, e: int, c: int)
    requires 0 < q && q % 8 == 0 && 2 <= p && 0 <= e < q / 8 && c < q / 8 + e && q <= p * c < q + p
    requires (e == 0 ==> p * c == q)
    ensures Encodes(c - e, q, Bit(true), p, e) && !ReadsBit(true, c - e, q)
  {
    hide Encodes, ReadsBit;
    assert p * (c - e) == p * c - p * e;
    FactorLess(p, -1, c);
    MulNonNeg(p, e);
    LostTrueBounds(p, c, e, q);
    EncodesIntro(c - e, q, 1, p, e, 0);
    ReadsEighths(true, c - e, q, 0);
  }

  lemma LostTrueBounds(p: int, c: int, e: int, q: int)
    requires 0 < q && 2 <= p && 0 <= e && q <= p * c < q + p && p * (c - e) == p * c - p * e && (e == 0 ==> p * c == q)
    ensures -(p * e) <= p * (c - e) - 1 * q - 0 * (p * q) <= p * e
  {
    if e == 0 {
      assert p * 0 == 0;
    } else {
      MulMonotone(p, 1, e);
    }
  }

  lemma ExactQuotient(q: int, p: int)
    requires 0 < p && q % p == 0
    ensures p * CeilDiv(q, p) == q
  {
    assert q == q / p * p;
    DivModIs(q + p - 1, p, q / p, p - 1);
  }

  lemma LostReading(q: int, p: int, e: int) returns (bit: bool, y: int)
    requires 0 < q && q % 8 == 0 && 2 <= p && 0 <= e && (e == 0 ==> q % p == 0) && !ReadMargin(q, p, e)
    ensures Encodes(y, q, Bit(bit), p, e) && !ReadsBit(bit, y, q)
  {
    hide Encodes, ReadsBit;
    if q / 8 <= e {
      bit, y := false, q / 8;
      LostFalse(q, p, e);
    } else {
      CeilDivBound(q, p);
      if e == 0 {
        ExactQuotient(q, p);
      }
      bit, y := true, CeilDiv(q, p) - e;
      LostTrue(q, p, e, CeilDiv(q, p));
    }
  }

  /**
    Bits encoded over p with error up to e are read back by Bootstrap, for both bits and every phase,
    if and only if ReadMargin holds; it fails for every p from 9 to an eighth of q.
   */
  lemma BootstrapReads(q: int, p: int, e: int)
    requires 0 < q && q % 8 == 0 && 2 <= p && 0 <= e && (e == 0 ==> q % p == 0)
    ensures (forall bit, y :: Encodes(y, q, Bit(bit), p, e) ==> ReadsBit(bit, y, q)) <==> ReadMargin(q, p, e)
    ensures 8 < p <= q / 8 ==> !ReadMargin(q, p, e)
  {
    hide ReadMargin, Encodes, ReadsBit;
    if ReadMargin(q, p, e) {
      forall bit, y | Encodes(y, q, Bit(bit), p, e)
        ensures ReadsBit(bit, y, q)
      {
        ReadInside(q, p, e, bit, y);
      }
    } else {
      var bit, y := LostReading(q, p, e);
      assert Encodes(y, q, Bit(bit), p, e) && !ReadsBit(bit, y, q);
    }
    if 8 < p <= q / 8 {
      ManyMessages(q, p, e, q / 8);
    }
  }

  lemma ManyMessages(q: int, p: int, e: int, w: int)
    requires q == 8 * w && 8 < p <= w && 0 <= e
    ensures !ReadMargin(q, p, e)
  {
    CeilDivBound(q, p);
    MulMonotone(w, 9, p);
    assert w * p == p * w;
    FactorLess(p, CeilDiv(q, p), w);
  }

  // ---------------------------------------------------------------------------
  // Bootstrap's input at another modulus
  // ---------------------------------------------------------------------------

  /** What the loop's table yields j steps below the offset b, across the circle negated. */
  predicate RawLookup(b: int, j: int, q1: int, q: int)
    requires 0 < q
  {
    if j < q / 2 then !RawHalf(Lowered(b, j, q), q1, q) else RawHalf(Lowered(b, j - q / 2, q), q1, q)
  }

  /** From a residue that is the gate's value on the circle. */
  lemma RawLookupIsGate(b: int, j: int, q1: int, q: int)
    requires 0 <= b < q && q % 2 == 0 && 0 <= j < q
    ensures RawLookup(b, j, q1, q) == !InHalf((b - j) % q, q1, q)
  {
    hide InHalf;
    var i := if j < q / 2 then j else j - q / 2;
    var x := Lowered(b, i, q);
    DivModIs(b - i, q, if i <= b then 0 else -1, x);
    InHalfResidue(b - j, q1, q);
    InHalfResidue(b - i, q1, q);
    if q / 2 <= j {
      HalfFlips(b - j, q1, q);
      assert b - j + q / 2 == b - i;
    }
  }

  /** x is between three and seven eighths of the circle. */
  predicate Inside(x: int, w: int) {
    3 * w <= x < 7 * w
  }

  lemma RawInside(x: int, w: int)
    requires 0 < w && 0 <= x
    ensures GateConst(AND, 8 * w) == 7 * w && RawHalf(x, 7 * w, 8 * w) == !Inside(x, w)
  {
    DivModIs(8 * w, 8, w, 0);
    if x < 8 * w {
      DivModIs(x - 7 * w, 8 * w, if x < 7 * w then -1 else 0, if x < 7 * w then x + w else x - 7 * w);
    }
  }

  /** The bit looked up for an offset whose lookup point is l, when the constant c is added to it. */
  predicate ReadWith(l: int, j: int, c: int, w: int)
    requires 0 < w
  {
    var b := if l + j < 8 * w then l + j else l + j - 8 * w;
    var x := if b + c < 8 * w then b + c else b + c - 8 * w;
    if j < 4 * w then Inside(if j <= x then x - j else x - j + 8 * w, w)
    else !Inside(if j - 4 * w <= x then x - j + 4 * w else x - j + 12 * w, w)
  }

  lemma ReadWithIs(b: int, j: int, c: int, w: int)
    requires 0 < w && 0 <= b < 8 * w && 0 <= j < 8 * w && 0 <= c
    ensures RawLookup(ModAddFast(b, c, 8 * w), j, 7 * w, 8 * w) == ReadWith((b - j) % (8 * w), j, c, w)
  {
    hide RawHalf, Inside;
    DivModIs(b - j, 8 * w, if j <= b then 0 else -1, if j <= b then b - j else b - j + 8 * w);
    var x := ModAddFast(b, c, 8 * w);
    RawInside(Lowered(x, if j < 4 * w then j else j - 4 * w, 8 * w), w);
  }

  /** What is effectively added, and whether it leaves both bits on their sides with error e. */
  predicate QuarterMargin(c: int, q: int, e: int) {
    var d := if c < q then c else c - q;
    q / 8 + e <= d < 3 * (q / 8) - e
  }

  lemma ReadKept(l: int, bit: bool, j: int, c: int, w: int, e: int)
    requires 0 < w && 0 <= l < 8 * w && 0 <= j < 8 * w && 0 <= c && 0 <= e && QuarterMargin(c, 8 * w, e)
    requires if bit then 2 * w - e <= l <= 2 * w + e else l <= e || 8 * w - e <= l
    ensures ReadWith(l, j, c, w) == bit
  {
    assert 8 * w / 8 == w;
  }

  /** With too little added a true bit reads as false. */
  lemma LostLow(l: int, j: int, c: int, w: int)
    requires 0 < w && 0 <= j < 8 * w && 0 <= c && 0 <= l < 4 * w
    requires var d := if c < 8 * w then c else c - 8 * w;
             (d < w && l == 2 * w) || (w <= d < 3 * w && l == 3 * w - 1 - d)
    ensures !ReadWith(l, j, c, w)
  {}

  /** With just too much added a false bit reads as true. */
  lemma LostHigh(l: int, j: int, c: int, w: int)
    requires 0 < w && 0 <= j < 8 * w && 0 <= c
    requires var d := if c < 8 * w then c else c - 8 * w; w <= d < 3 * w && l == 3 * w - d
    ensures ReadWith(l, j, c, w)
  {}

  /** With far too much added the two bits do not both survive. */
  lemma LostFar(j: int, c: int, w: int)
    requires 0 < w && 0 <= j < 8 * w && 0 <= c && 3 * w <= if c < 8 * w then c else c - 8 * w
    ensures ReadWith(0, j, c, w) || !ReadWith(2 * w, j, c, w)
  {}

  lemma ReadLost(j: int, c: int, w: int, e: int) returns (l: int, bit: bool)
    requires 0 < w && 0 <= j < 8 * w && 0 <= c && 0 <= e && !QuarterMargin(c, 8 * w, e)
    ensures 0 <= l < 8 * w && ReadWith(l, j, c, w) != bit
    ensures if bit then 2 * w - e <= l <= 2 * w + e else l <= e || 8 * w - e <= l
  {
    hide ReadWith;
    assert 8 * w / 8 == w;
    var d := if c < 8 * w then c else c - 8 * w;
    if d < w {
      l, bit := 2 * w, true;
      LostLow(l, j, c, w);
    } else if 3 * w <= d {
      LostFar(j, c, w);
      bit := !ReadWith(0, j, c, w);
      l := if bit then 2 * w else 0;
    } else if d < w + e {
      l, bit := 3 * w - 1 - d, true;
      LostLow(l, j, c, w);
    } else {
      l, bit := 3 * w - d, false;
      LostHigh(l, j, c, w);
    }
  }

  /** The residues that encode a bit over 4. */
  lemma QuarterPoints(l: int, bit: bool, w: int, e: int)
    requires 0 < w && 0 <= l < 8 * w && 0 <= e < w
    ensures Encodes(l, 8 * w, Bit(bit), 4, e) <==>
            if bit then 2 * w - e <= l <= 2 * w + e else l <= e || 8 * w - e <= l
  {
    hide Encodes;
    if Encodes(l, 8 * w, Bit(bit), 4, e) {
      var k := EncodesWitness(l, 8 * w, Bit(bit), 4, e);
      PointTurns(l, bit, w, e, k, k * (4 * (8 * w)));
    }
    if if bit then 2 * w - e <= l <= 2 * w + e else l <= e || 8 * w - e <= l {
      PointEncodes(l, bit, w, e);
    }
  }

  lemma PointTurns(l: int, bit: bool, w: int, e: int, k: int, z: int)
    requires 0 < w && 0 <= l < 8 * w && 0 <= e < w && z == k * (4 * (8 * w))
    requires -(4 * e) <= 4 * l - Bit(bit) * (8 * w) - z <= 4 * e
    ensures if bit then 2 * w - e <= l <= 2 * w + e else l <= e || 8 * w - e <= l
  {
    assert z == 4 * (8 * w * k) && 8 * w * -1 == -(8 * w);
    FactorLess(8 * w, k, 2);
    FactorLess(8 * w, -1, k);
  }

  lemma PointEncodes(l: int, bit: bool, w: int, e: int)
    requires 0 < w && 0 <= e && if bit then 2 * w - e <= l <= 2 * w + e else 0 <= l <= e || 8 * w - e <= l < 8 * w
    ensures Encodes(l, 8 * w, Bit(bit), 4, e)
  {
    EncodesIntro(l, 8 * w, Bit(bit), 4, e, if bit || l <= e then 0 else 1);
  }

  /** Both bits, with lookup points up to e from theirs, are read back from every offset. */
  ghost predicate ReadsQuarter(j: int, c: int, q: int, e: int)
    requires 0 < q
  {
    forall bit, b :: 0 <= b < q && Encodes((b - j) % q, q, Bit(bit), 4, e) ==>
      RawLookup(ModAddFast(b, c, q), j, GateConst(AND, q), q) == bit
  }

  /**
    Bootstrap with any constant c in place of the quarter reads both bits back, from every offset and at
    every distance j from it, if and only if QuarterMargin holds.
   */
  lemma QuarterReads(j: int, c: int, q: int, e: int)
    requires 0 < q && q % 8 == 0 && 0 <= j < q && 0 <= c && 0 <= e
    ensures ReadsQuarter(j, c, q, e) <==> QuarterMargin(c, q, e)
  {
    hide Encodes, RawLookup, ReadWith, QuarterMargin, GateConst;
    var w := q / 8;
    RawInside(0, w);
    if QuarterMargin(c, q, e) {
      assert e < w by { MarginRoom(c, w, e); }
      forall bit, b | 0 <= b < q && Encodes((b - j) % q, q, Bit(bit), 4, e)
        ensures RawLookup(ModAddFast(b, c, q), j, GateConst(AND, q), q) == bit
      {
        ReadWithIs(b, j, c, w);
        QuarterPoints((b - j) % q, bit, w, e);
        ReadKept((b - j) % q, bit, j, c, w, e);
      }
    } else {
      var l, bit := ReadLost(j, c, w, e);
      var b := if l + j < q then l + j else l + j - q;
      DivModIs(b - j, q, if l + j < q then 0 else -1, l);
      PointEncodes(l, bit, w, e);
      ReadWithIs(b, j, c, w);
      assert RawLookup(ModAddFast(b, c, q), j, GateConst(AND, q), q) != bit;
    }
  }

  lemma MarginRoom(c: int, w: int, e: int)
    requires 0 < w && QuarterMargin(c, 8 * w, e)
    ensures e < w
  {
    assert 8 * w / 8 == w;
  }

  /**
    The quarter of Q serves for every Q up to one and a half times q and for Q between 4.5q and 5.5q, and
    for no other Q of at least q.
   */
  lemma QuarterModuli(Q: int, q: int)
    requires 0 < q && q % 8 == 0 && q <= Q
    ensures QuarterMargin(Q / 4, q, 0) <==> 2 * Q < 3 * q || 9 * q <= 2 * Q < 11 * q
  {
    var w := q / 8;
    assert q == 8 * w;
  }

  /** Two primes that are 1 modulo 2N: q = 2048 loses a bit of inputs modulo 12289, q = 8192 reads both modulo 40961. */
  lemma QuarterExamples()
    ensures !QuarterMargin(12289 / 4, 2048, 0) && QuarterMargin(40961 / 4, 8192, 1023)
  {}
}
