/**
  Circuits of bootstrapped gates: homomorphic evaluation followed by decryption is Boolean
  evaluation, for circuits of any size and depth.
 */
module Circuits {
  import opened Arithmetic
  import opened RgswParams
  import opened Accumulator
  import opened LweBasics
  import opened Lwe
  import opened KeySwitching
  import opened Lookup
  import opened Bootstrapping
  import opened GateLogic
  import opened Gates

  datatype Circuit =
    | Input(index: nat)
    | Not(c: Circuit)
    | Gate(g: BinGate, left: Circuit, right: Circuit)
    | Majority(c1: Circuit, c2: Circuit, c3: Circuit)
    | CMux(whenFalse: Circuit, whenTrue: Circuit, select: Circuit)

  predicate WellFormed(c: Circuit, n: nat) {
    match c
    case Input(i) => i < n
    case Not(c1) => WellFormed(c1, n)
    case Gate(g, l, r) => Arity(g) == 2 && WellFormed(l, n) && WellFormed(r, n)
    case Majority(a, b, d) => WellFormed(a, n) && WellFormed(b, n) && WellFormed(d, n)
    case CMux(a, b, d) => WellFormed(a, n) && WellFormed(b, n) && WellFormed(d, n)
  }

  predicate Boolean(g: BinGate, x: bool, y: bool) {
    match g
    case OR => x || y
    case AND => x && y
    case NOR => !(x || y)
    case NAND => !(x && y)
    case XOR => x != y
    case XNOR => x == y
    case XOR_FAST => x != y
    case XNOR_FAST => x == y
    case _ => false
  }

  predicate Value(c: Circuit, bits: seq<bool>)
    requires WellFormed(c, |bits|)
  {
    match c
    case Input(i) => bits[i]
    case Not(c1) => !Value(c1, bits)
    case Gate(g, l, r) => Boolean(g, Value(l, bits), Value(r, bits))
    case Majority(a, b, d) => AtLeastTwo(Value(a, bits), Value(b, bits), Value(d, bits))
    case CMux(a, b, d) => if Value(d, bits) then Value(b, bits) else Value(a, bits)
  }

  predicate AtLeastTwo(x: bool, y: bool, z: bool) {
    (x && y) || (y && z) || (x && z)
  }

  lemma TwoInputGate(g: BinGate, x: bool, y: bool)
    requires Arity(g) == 2
    ensures GateBit(g, Weight(g) * (Bit(x) + Bit(y))) == Boolean(g, x, y)
  {
    GateTruth(g, Bit(x) + Bit(y));
  }

  // ---------------------------------------------------------------------------
  // Gates on vectors
  // ---------------------------------------------------------------------------

  function Bits(bs: seq<bool>): (r: seq<int>)
    ensures |r| == |bs|
  {
    seq(|bs|, i requires 0 <= i < |bs| => Bit(bs[i]))
  }

  lemma {:induction false} TotalCounts(bs: seq<bool>, n: nat)
    requires n <= |bs|
    ensures 0 <= Total(Bits(bs), n) <= n
    ensures Total(Bits(bs), n) == n <==> forall i :: 0 <= i < n ==> bs[i]
    ensures Total(Bits(bs), n) == 0 <==> forall i :: 0 <= i < n ==> !bs[i]
  {
    if n != 0 {
      TotalCounts(bs, n - 1);
    }
  }

  /** AND3 and AND4 are conjunctions, OR3 and OR4 disjunctions, MAJORITY the median of three. */
  lemma VectorGate(g: BinGate, bs: seq<bool>)
    requires g in {MAJORITY, AND3, OR3, AND4, OR4} && |bs| == Arity(g)
    ensures g in {AND3, AND4} ==> (GateBit(g, Total(Bits(bs), |bs|)) <==> forall i :: 0 <= i < |bs| ==> bs[i])
    ensures g in {OR3, OR4} ==> (GateBit(g, Total(Bits(bs), |bs|)) <==> exists i :: 0 <= i < |bs| && bs[i])
    ensures g == MAJORITY ==> GateBit(g, Total(Bits(bs), |bs|)) == AtLeastTwo(bs[0], bs[1], bs[2])
  {
    var n := Total(Bits(bs), |bs|);
    TotalCounts(bs, |bs|);
    assert Weight(g) * n == n;
    GateTruth(g, n);
    if g == MAJORITY {
      assert n == Total(Bits(bs), 2) + Bit(bs[2]) && Total(Bits(bs), 2) == Total(Bits(bs), 1) + Bit(bs[1])
          && Total(Bits(bs), 1) == Total(Bits(bs), 0) + Bit(bs[0]);
    }
  }

  // ---------------------------------------------------------------------------
  // Runs of a circuit
  // ---------------------------------------------------------------------------

  /**
    Record of one evaluation: every ciphertext as the value modulo q that gates sum and, for every
    refresh, the bit its lookup yielded. Inputs modulo Q and their negations also keep the value modulo Q.
   */
  datatype Node =
    | Given(index: nat, ct: LWEValue)
    | Large(index: nat, orig: LWEValue, ct: LWEValue)
    | Negated(x: Node, ct: LWEValue)
    | LargeNot(x: Node, orig: LWEValue, ct: LWEValue)
    | Pair(g: BinGate, x: Node, y: Node, bit: bool, ct: LWEValue)
    | Triple(x: Node, y: Node, z: Node, bit: bool, ct: LWEValue)

  /** The node of a ciphertext modulo Q. */
  predicate IsLarge(n: Node) {
    n.Large? || n.LargeNot?
  }

  /** The value of a node's own ciphertext. */
  function Origin(n: Node): LWEValue {
    if IsLarge(n) then n.orig else n.ct
  }

  /** An input and whether it is modulo Q. */
  datatype Wire = Wire(v: LWEValue, large: bool)

  ghost function Wires(cts: seq<LWECiphertext>, Q: int): (r: seq<Wire>)
    reads cts
    ensures |r| == |cts|
  {
    seq(|cts|, i requires 0 <= i < |cts| reads cts => Wire(cts[i].Value(), cts[i].q == Q))
  }

  /** The node of input i. */
  predicate IsInput(n: Node, i: nat, w: Wire) {
    if w.large then n.Large? && n.index == i && n.orig == w.v else n.Given? && n.index == i && n.ct == w.v
  }

  /** n records a run of c on the given inputs; CMUX is run as three NANDs and a NOT. */
  predicate RunOf(n: Node, c: Circuit, inputs: seq<Wire>) {
    match c
    case Input(i) => i < |inputs| && IsInput(n, i, inputs[i])
    case Not(c1) => (n.Negated? || n.LargeNot?) && RunOf(n.x, c1, inputs)
    case Gate(g, l, r) => n.Pair? && n.g == g && RunOf(n.x, l, inputs) && RunOf(n.y, r, inputs)
    case Majority(a, b, d) => n.Triple? && RunOf(n.x, a, inputs) && RunOf(n.y, b, inputs) && RunOf(n.z, d, inputs)
    case CMux(a, b, d) =>
      && n.Pair? && n.g == NAND && n.x.Pair? && n.x.g == NAND && n.y.Pair? && n.y.g == NAND
      && (n.x.y.Negated? || n.x.y.LargeNot?)
      && RunOf(n.x.x, a, inputs) && RunOf(n.x.y.x, d, inputs) && RunOf(n.y.x, b, inputs) && RunOf(n.y.y, d, inputs)
  }

  /** The bit a node stands for: given, negated, or looked up. */
  predicate BitOf(n: Node, bits: seq<bool>) {
    match n
    case Given(i, _) => i < |bits| && bits[i]
    case Large(i, _, _) => i < |bits| && bits[i]
    case Negated(x, _) => !BitOf(x, bits)
    case LargeNot(x, _, _) => !BitOf(x, bits)
    case Pair(_, _, _, bit, _) => bit
    case Triple(_, _, _, bit, _) => bit
  }

  /** Every refresh looked up the sum of the ciphertexts below it. */
  ghost predicate Followed(n: Node, params: BinFHECryptoParams, s: seq<int>): (followed: bool)
    ensures followed ==> 0 < params.lwe.q && n.ct.Ok(|s|, params.lwe.q)
  {
    var q := params.lwe.q;
    0 < q && n.ct.Ok(|s|, q)
    && match n {
         case Given(_, _) => true
         case Large(_, _, _) => true
         case Negated(x, ct) => Followed(x, params, s) && ct == NotValue(x.ct, q)
         case LargeNot(x, _, _) => Followed(x, params, s) && IsLarge(x)
         case Pair(g, x, y, bit, _) =>
           && Arity(g) == 2 && Followed(x, params, s) && Followed(y, params, s)
           && bit == GateOutput(params, g, SumValue(g, x.ct, y.ct, q), s)
         case Triple(x, y, z, bit, _) =>
           && Followed(x, params, s) && Followed(y, params, s) && Followed(z, params, s)
           && bit == GateOutput(params, MAJORITY, SumThree(x.ct, y.ct, z.ct, q), s)
       }
  }

  /** Every value modulo Q is a residue vector, negations are computed there, and all went down the same chain. */
  ghost predicate Brought(n: Node, params: BinFHECryptoParams, K: LWESwitchingKey, size: nat) {
    match n
    case Given(_, _) => true
    case Large(_, orig, ct) => orig.Ok(size, params.lwe.Q) && ct == SmallForm(params, K, orig, params.lwe.Q)
    case Negated(x, _) => Brought(x, params, K, size) && !IsLarge(x)
    case LargeNot(x, orig, ct) =>
      && Brought(x, params, K, size) && IsLarge(x) && orig == NotValue(x.orig, params.lwe.Q)
      && orig.Ok(size, params.lwe.Q) && ct == SmallForm(params, K, orig, params.lwe.Q)
    case Pair(_, x, y, _, _) => Brought(x, params, K, size) && Brought(y, params, K, size)
    case Triple(x, y, z, _, _) =>
      Brought(x, params, K, size) && Brought(y, params, K, size) && Brought(z, params, K, size)
  }

  function SumThree(x: LWEValue, y: LWEValue, z: LWEValue, q: int): (r: LWEValue)
    requires |x.a| == |y.a| == |z.a|
    ensures |r.a| == |x.a|
  {
    AddValues(AddValues(x, y, q), z, q)
  }

  function Max(x: int, y: int): int {
    if x < y then y else x
  }

  /** The actual error of a node's ciphertext as an encryption of its bit. */
  ghost function NodeError(n: Node, bits: seq<bool>, q: int, s: seq<int>): int
    requires 0 < q && |n.ct.a| == |s|
  {
    ErrorOf(n.ct.Phase(s), q, Bit(BitOf(n, bits)), 4)
  }

  /** The worst actual error, modulo q, of an input or refreshed ciphertext of the run. */
  ghost function WorstError(n: Node, params: BinFHECryptoParams, s: seq<int>, bits: seq<bool>): int
    requires Followed(n, params, s)
  {
    match n
    case Given(_, _) => NodeError(n, bits, params.lwe.q, s)
    case Large(_, _, _) => NodeError(n, bits, params.lwe.q, s)
    case LargeNot(_, _, _) => NodeError(n, bits, params.lwe.q, s)
    case Negated(x, _) => WorstError(x, params, s, bits)
    case Pair(_, x, y, _, _) =>
      Max(NodeError(n, bits, params.lwe.q, s), Max(WorstError(x, params, s, bits), WorstError(y, params, s, bits)))
    case Triple(x, y, z, _, _) =>
      Max(NodeError(n, bits, params.lwe.q, s),
          Max(WorstError(x, params, s, bits), Max(WorstError(y, params, s, bits), WorstError(z, params, s, bits))))
  }

  /** How far from the phase of v its table was read. */
  ghost function ShiftAt(v: LWEValue, params: BinFHECryptoParams, s: seq<int>): int
    requires 0 < params.lwe.q && |v.a| == |s|
  {
    LookupError(params, v.a, v.b, params.lwe.q, s)
  }

  /** The farthest from its phase that any table of the run was read. */
  ghost function WorstShift(n: Node, params: BinFHECryptoParams, s: seq<int>): int
    requires Followed(n, params, s)
  {
    match n
    case Given(_, _) => 0
    case Large(_, _, _) => 0
    case LargeNot(_, _, _) => 0
    case Negated(x, _) => WorstShift(x, params, s)
    case Pair(g, x, y, _, _) =>
      Max(ShiftAt(SumValue(g, x.ct, y.ct, params.lwe.q), params, s),
          Max(WorstShift(x, params, s), WorstShift(y, params, s)))
    case Triple(x, y, z, _, _) =>
      Max(ShiftAt(SumThree(x.ct, y.ct, z.ct, params.lwe.q), params, s),
          Max(WorstShift(x, params, s), Max(WorstShift(y, params, s), WorstShift(z, params, s))))
  }

  /** Three of the worst errors and the worst shift fit the margin of an eighth of q. */
  ghost predicate Fits(n: Node, params: BinFHECryptoParams, s: seq<int>, bits: seq<bool>)
    requires Followed(n, params, s)
  {
    8 * (3 * WorstError(n, params, s, bits) + WorstShift(n, params, s)) < params.lwe.q
  }

  // ---------------------------------------------------------------------------
  // Runs that fit compute the circuit
  // ---------------------------------------------------------------------------

  /** The modulus and the ring fit together as every accumulator needs. */
  ghost predicate Sized(params: BinFHECryptoParams) {
    params.lwe.q % 8 == 0 && 0 < params.lwe.q && 0 < params.rgsw.N && (2 * params.rgsw.N) % params.lwe.q == 0
  }

  /** Every node encodes its bit within the worst error of the run. */
  lemma {:induction false} NodeEncodes(n: Node, params: BinFHECryptoParams, s: seq<int>, bits: seq<bool>, D: int)
    requires Sized(params) && Followed(n, params, s) && WorstError(n, params, s, bits) <= D
    ensures Encodes(n.ct.Phase(s), params.lwe.q, Bit(BitOf(n, bits)), 4, D) && 0 <= D
  {
    hide Encodes, ErrorOf, GateOutput, PhaseOf, Residues, NotVector, NotSlack;
    var q := params.lwe.q;
    if n.Negated? {
      EightDivides(q);
      NoSlack(q);
      NodeEncodes(n.x, params, s, bits, D);
      NotPhase(n.x.ct.a, n.x.ct.b, q, s);
      NotEncodes(n.x.ct.Phase(s), n.ct.Phase(s), q, Bit(BitOf(n.x, bits)), D);
    } else {
      ErrorOfExact(n.ct.Phase(s), q, Bit(BitOf(n, bits)), 4, D);
    }
  }

  lemma Margins(q: int, g: BinGate, E: int, D: int, h: int)
    requires 0 <= E && q % 8 == 0 && 8 * (3 * D + h) < q && GatePlain(g) == 4
    requires (Arity(g) == 2 && E <= Weight(g) * (D + D) + h && 0 <= h && 0 <= D) || (g == MAJORITY && E <= 3 * D + h)
    ensures GateMargin(g, q, E)
  {
    var (c, d) := GateNumerator(g);
    assert d == 8 && c * 0 == 0;
  }

  /** What is known of a two-input refresh and its inputs. */
  lemma PairParts(n: Node, params: BinFHECryptoParams, s: seq<int>, bits: seq<bool>, D: int, h: int)
    requires n.Pair? && Followed(n, params, s) && WorstError(n, params, s, bits) <= D && WorstShift(n, params, s) <= h
    ensures Arity(n.g) == 2 && Followed(n.x, params, s) && Followed(n.y, params, s)
    ensures WorstError(n.x, params, s, bits) <= D && WorstError(n.y, params, s, bits) <= D
    ensures WorstShift(n.x, params, s) <= h && WorstShift(n.y, params, s) <= h
    ensures var sum := SumValue(n.g, n.x.ct, n.y.ct, params.lwe.q);
            n.bit == GateOutput(params, n.g, sum, s) && ShiftAt(sum, params, s) <= h
  {
    hide ErrorOf, GateOutput, PhaseOf, Residues, SumValue, LookupError, NodeError;
  }

  /** A two-input refresh of a run that fits computes its gate. */
  lemma PairCorrect(n: Node, params: BinFHECryptoParams, s: seq<int>, bits: seq<bool>, D: int, h: int)
    requires Sized(params) && n.Pair? && Followed(n, params, s) && WorstError(n, params, s, bits) <= D
    requires WorstShift(n, params, s) <= h
    requires 8 * (3 * D + h) < params.lwe.q
    ensures n.bit == Boolean(n.g, BitOf(n.x, bits), BitOf(n.y, bits))
  {
    hide Followed, WorstError, WorstShift, Encodes, ErrorOf, GateOutput, PhaseOf, Boolean, SumValue, Bit, ShiftAt,
         BitOf;
    var vx, vy := BitOf(n.x, bits), BitOf(n.y, bits);
    PairParts(n, params, s, bits, D, h);
    NodeEncodes(n.x, params, s, bits, D);
    NodeEncodes(n.y, params, s, bits, D);
    PairValue(params, n.g, n.x.ct, n.y.ct, s, vx, vy, D, h);
  }

  lemma PairValue(params: BinFHECryptoParams, g: BinGate, x: LWEValue, y: LWEValue, s: seq<int>, vx: bool, vy: bool,
                  D: int, h: int)
    requires Sized(params) && Arity(g) == 2 && x.Ok(|s|, params.lwe.q) && y.Ok(|s|, params.lwe.q) && 0 <= D
    requires Encodes(x.Phase(s), params.lwe.q, Bit(vx), 4, D) && Encodes(y.Phase(s), params.lwe.q, Bit(vy), 4, D)
    requires ShiftAt(SumValue(g, x, y, params.lwe.q), params, s) <= h && 8 * (3 * D + h) < params.lwe.q
    ensures GateOutput(params, g, SumValue(g, x, y, params.lwe.q), s) == Boolean(g, vx, vy)
  {
    hide Encodes, ErrorOf, GateOutput, PhaseOf, Residues, GateMargin, Weight, GateBit, Boolean, SumValue, LookupError,
         Bit;
    TwoInputPlain(g);
    SumEncodes(g, x, y, params.lwe.q, s, Bit(vx), Bit(vy), 4, D, D);
    DoubledIsEven(g, Bit(vx) + Bit(vy));
    PairSide(params, g, SumValue(g, x, y, params.lwe.q), s, Weight(g) * (Bit(vx) + Bit(vy)), Weight(g) * (D + D), D, h);
    TwoInputGate(g, vx, vy);
  }

  lemma PairSide(params: BinFHECryptoParams, g: BinGate, sum: LWEValue, s: seq<int>, M: int, E: int, D: int, h: int)
    requires Sized(params) && Arity(g) == 2 && GatePlain(g) == 4 && sum.Ok(|s|, params.lwe.q) && 0 <= D
    requires Encodes(sum.Phase(s), params.lwe.q, M, 4, E) && E == Weight(g) * (D + D) && (IsXor(g) ==> M % 2 == 0)
    requires ShiftAt(sum, params, s) <= h && 8 * (3 * D + h) < params.lwe.q
    ensures GateOutput(params, g, sum, s) == GateBit(g, M)
  {
    hide Encodes, ErrorOf, GateOutput, PhaseOf, Residues, GateMargin, Weight, GateBit, LookupError, GatePlain, Arity,
         IsXor;
    EightDivides(params.lwe.q);
    ErrorOfExact(sum.Phase(s), params.lwe.q, M, 4, E);
    Margins(params.lwe.q, g, SumError(params, g, sum, s, M), D, h);
    GateCorrect(params, g, sum, s, M);
  }

  lemma TwoInputPlain(g: BinGate)
    requires Arity(g) == 2
    ensures GatePlain(g) == 4
  {}

  lemma TripleParts(n: Node, params: BinFHECryptoParams, s: seq<int>, bits: seq<bool>, D: int, h: int)
    requires n.Triple? && Followed(n, params, s) && WorstError(n, params, s, bits) <= D && WorstShift(n, params, s) <= h
    ensures Followed(n.x, params, s) && Followed(n.y, params, s) && Followed(n.z, params, s)
    ensures WorstError(n.x, params, s, bits) <= D && WorstError(n.y, params, s, bits) <= D
    ensures WorstError(n.z, params, s, bits) <= D
    ensures WorstShift(n.x, params, s) <= h && WorstShift(n.y, params, s) <= h && WorstShift(n.z, params, s) <= h
    ensures var sum := SumThree(n.x.ct, n.y.ct, n.z.ct, params.lwe.q);
            n.bit == GateOutput(params, MAJORITY, sum, s) && ShiftAt(sum, params, s) <= h
  {
    hide ErrorOf, GateOutput, PhaseOf, Residues, SumThree, LookupError, NodeError;
  }

  /** A majority refresh of a run that fits computes the median. */
  lemma TripleCorrect(n: Node, params: BinFHECryptoParams, s: seq<int>, bits: seq<bool>, D: int, h: int)
    requires Sized(params) && n.Triple? && Followed(n, params, s) && WorstError(n, params, s, bits) <= D
    requires WorstShift(n, params, s) <= h
    requires 8 * (3 * D + h) < params.lwe.q
    ensures n.bit == AtLeastTwo(BitOf(n.x, bits), BitOf(n.y, bits), BitOf(n.z, bits))
  {
    hide Followed, WorstError, WorstShift, Encodes, ErrorOf, GateOutput, PhaseOf, SumThree, Bit, ShiftAt, BitOf,
         AtLeastTwo;
    TripleParts(n, params, s, bits, D, h);
    NodeEncodes(n.x, params, s, bits, D);
    NodeEncodes(n.y, params, s, bits, D);
    NodeEncodes(n.z, params, s, bits, D);
    TripleValue(params, n.x.ct, n.y.ct, n.z.ct, s, BitOf(n.x, bits), BitOf(n.y, bits), BitOf(n.z, bits), D, h);
  }

  lemma TripleValue(params: BinFHECryptoParams, x: LWEValue, y: LWEValue, z: LWEValue, s: seq<int>, vx: bool, vy: bool,
                    vz: bool, D: int, h: int)
    requires Sized(params) && x.Ok(|s|, params.lwe.q) && y.Ok(|s|, params.lwe.q) && z.Ok(|s|, params.lwe.q)
    requires Encodes(x.Phase(s), params.lwe.q, Bit(vx), 4, D) && Encodes(y.Phase(s), params.lwe.q, Bit(vy), 4, D)
    requires Encodes(z.Phase(s), params.lwe.q, Bit(vz), 4, D)
    requires ShiftAt(SumThree(x, y, z, params.lwe.q), params, s) <= h && 8 * (3 * D + h) < params.lwe.q
    ensures GateOutput(params, MAJORITY, SumThree(x, y, z, params.lwe.q), s) == AtLeastTwo(vx, vy, vz)
  {
    hide Encodes, ErrorOf, GateOutput, PhaseOf, Residues, GateMargin, GateBit, SumThree, LookupError;
    var q := params.lwe.q;
    var sum, M := SumThree(x, y, z, q), Bit(vx) + Bit(vy) + Bit(vz);
    EightDivides(q);
    ThreeEncode(x, y, z, q, s, Bit(vx), Bit(vy), Bit(vz), D);
    ErrorOfExact(sum.Phase(s), q, M, 4, 3 * D);
    Margins(q, MAJORITY, SumError(params, MAJORITY, sum, s, M), D, h);
    GateCorrect(params, MAJORITY, sum, s, M);
    GateTruth(MAJORITY, M);
    assert Weight(MAJORITY) * M == M;
  }

  lemma ThreeEncode(x: LWEValue, y: LWEValue, z: LWEValue, q: int, s: seq<int>, mx: int, my: int, mz: int, D: int)
    requires 0 < q && x.Ok(|s|, q) && y.Ok(|s|, q) && z.Ok(|s|, q)
    requires Encodes(x.Phase(s), q, mx, 4, D) && Encodes(y.Phase(s), q, my, 4, D) && Encodes(z.Phase(s), q, mz, 4, D)
    ensures SumThree(x, y, z, q).Ok(|s|, q) && Encodes(SumThree(x, y, z, q).Phase(s), q, mx + my + mz, 4, 3 * D)
  {
    hide Encodes, PhaseOf, Residues, AddVector;
    var t := AddValues(x, y, q);
    AddValuesPhase(x, y, q, s);
    AddedEncodes(x.Phase(s), y.Phase(s), t.Phase(s), q, mx, my, 4, D, D);
    AddValuesPhase(t, z, q, s);
    AddedEncodes(t.Phase(s), z.Phase(s), AddValues(t, z, q).Phase(s), q, mx + my, mz, 4, D + D, D);
  }

  /**
    Whatever the circuit and whatever happened in the run: if the worst error actually present in an
    input or refreshed ciphertext fits the margin, the run's bit is the value of the circuit.
   */
  lemma {:induction false} RunCorrect(n: Node, c: Circuit, inputs: seq<Wire>, params: BinFHECryptoParams,
                                      s: seq<int>, bits: seq<bool>, D: int, h: int)
    requires Sized(params) && |inputs| == |bits| && WellFormed(c, |bits|) && RunOf(n, c, inputs)
    requires Followed(n, params, s)
    requires WorstError(n, params, s, bits) <= D && WorstShift(n, params, s) <= h && 8 * (3 * D + h) < params.lwe.q
    ensures BitOf(n, bits) == Value(c, bits)
    decreases c, 0
  {
    hide NodeError, GateOutput, SumValue, SumThree, Boolean, NotValue, ErrorOf, ShiftAt, LookupError;
    match c {
      case Input(i) =>
      case Not(c1) =>
        if n.LargeNot? {
          LargeValue(n.x, c1, inputs, params, s, bits);
        } else {
          RunCorrect(n.x, c1, inputs, params, s, bits, D, h);
        }
      case Gate(g, l, r) =>
        RunCorrect(n.x, l, inputs, params, s, bits, D, h);
        RunCorrect(n.y, r, inputs, params, s, bits, D, h);
        PairCorrect(n, params, s, bits, D, h);
      case Majority(a, b, d) =>
        RunCorrect(n.x, a, inputs, params, s, bits, D, h);
        RunCorrect(n.y, b, inputs, params, s, bits, D, h);
        RunCorrect(n.z, d, inputs, params, s, bits, D, h);
        TripleCorrect(n, params, s, bits, D, h);
      case CMux(a, b, d) =>
        PairParts(n, params, s, bits, D, h);
        PairParts(n.x, params, s, bits, D, h);
        PairParts(n.y, params, s, bits, D, h);
        RunCorrect(n.x.x, a, inputs, params, s, bits, D, h);
        SelectorValue(n.x.y, d, inputs, params, s, bits, D, h);
        RunCorrect(n.y.x, b, inputs, params, s, bits, D, h);
        RunCorrect(n.y.y, d, inputs, params, s, bits, D, h);
        SelectCorrect(n, params, s, bits, D, h);
    }
  }

  /** Negations modulo Q refresh nothing, so their bit is that of the circuit in any case. */
  lemma {:induction false} LargeValue(n: Node, c: Circuit, inputs: seq<Wire>, params: BinFHECryptoParams, s: seq<int>,
                                      bits: seq<bool>)
    requires |inputs| == |bits| && WellFormed(c, |bits|) && RunOf(n, c, inputs) && Followed(n, params, s) && IsLarge(n)
    ensures BitOf(n, bits) == Value(c, bits)
    decreases c
  {
    if c.Not? {
      LargeValue(n.x, c.c, inputs, params, s, bits);
    }
  }

  lemma SelectorValue(n: Node, d: Circuit, inputs: seq<Wire>, params: BinFHECryptoParams, s: seq<int>,
                      bits: seq<bool>, D: int, h: int)
    requires (n.Negated? || n.LargeNot?) && Followed(n, params, s)
    requires Sized(params) && |inputs| == |bits| && WellFormed(d, |bits|) && RunOf(n.x, d, inputs)
    requires WorstError(n, params, s, bits) <= D && WorstShift(n, params, s) <= h && 8 * (3 * D + h) < params.lwe.q
    ensures BitOf(n.x, bits) == Value(d, bits)
    decreases d, 1
  {
    hide NodeError, GateOutput, SumValue, SumThree, Boolean, NotValue, ErrorOf, ShiftAt, LookupError;
    if n.LargeNot? {
      LargeValue(n.x, d, inputs, params, s, bits);
    } else {
      RunCorrect(n.x, d, inputs, params, s, bits, D, h);
    }
  }

  /** Three NANDs and a NOT that fit select. */
  lemma SelectCorrect(n: Node, params: BinFHECryptoParams, s: seq<int>, bits: seq<bool>, D: int, h: int)
    requires Sized(params) && Followed(n, params, s) && WorstError(n, params, s, bits) <= D
    requires WorstShift(n, params, s) <= h
    requires 8 * (3 * D + h) < params.lwe.q
    requires n.Pair? && n.g == NAND && n.x.Pair? && n.x.g == NAND && n.y.Pair? && n.y.g == NAND
    requires n.x.y.Negated? || n.x.y.LargeNot?
    requires BitOf(n.x.y.x, bits) == BitOf(n.y.y, bits)
    ensures n.bit == if BitOf(n.y.y, bits) then BitOf(n.y.x, bits) else BitOf(n.x.x, bits)
  {
    hide NodeError, GateOutput, SumValue, SumThree, NotValue, ErrorOf, ShiftAt, LookupError, Followed, WorstError,
         WorstShift;
    PairParts(n, params, s, bits, D, h);
    PairCorrect(n.x, params, s, bits, D, h);
    PairCorrect(n.y, params, s, bits, D, h);
    PairCorrect(n, params, s, bits, D, h);
  }

  // ---------------------------------------------------------------------------
  // Evaluation
  // ---------------------------------------------------------------------------

  /**
    No error of a run exceeds a bound on its inputs or the bound of a refresh, and no table is read
    farther off than the key allows.
   */
  ghost predicate Bounds(n: Node, params: BinFHECryptoParams, s: seq<int>, bits: seq<bool>, D: int, h: int)
    requires Followed(n, params, s)
  {
    WorstError(n, params, s, bits) <= D && 0 <= WorstShift(n, params, s) <= h
  }

  /** Actual error, modulo Q, of the input below some negations. */
  ghost function LeafError(n: Node, bits: seq<bool>, Q: int, z: seq<int>): int {
    match n
    case Large(_, orig, _) => if 0 < Q && |orig.a| == |z| then ErrorOf(orig.Phase(z), Q, Bit(BitOf(n, bits)), 4) else 0
    case LargeNot(x, _, _) => LeafError(x, bits, Q, z)
    case _ => 0
  }

  /** Error of a node's own ciphertext: modulo Q that of the input, and one unit where 4 does not divide Q. */
  ghost function OwnError(n: Node, params: BinFHECryptoParams, sec: Secrets, bits: seq<bool>, D: int): int {
    if IsLarge(n) then LeafError(n, bits, params.lwe.Q, sec.z) + NotSlack(params.lwe.Q) else D
  }

  /** However often it is negated, an input modulo Q keeps its error up to that unit. */
  lemma {:induction false} LargeEncodes(n: Node, params: BinFHECryptoParams, K: LWESwitchingKey, z: seq<int>,
                                        bits: seq<bool>)
    requires IsLarge(n) && Brought(n, params, K, |z|) && 2 < params.lwe.Q
    ensures Encodes(n.orig.Phase(z), params.lwe.Q, Bit(BitOf(n, bits)), 4,
                    LeafError(n, bits, params.lwe.Q, z) + NotSlack(params.lwe.Q))
  {
    hide Encodes, ErrorOf, PhaseOf, Residues, NotVector, SmallForm;
    var Q, e := params.lwe.Q, LeafError(n, bits, params.lwe.Q, z);
    if n.Large? {
      ErrorOfExact(n.orig.Phase(z), Q, Bit(BitOf(n, bits)), 4, e + NotSlack(Q));
    } else {
      assert LeafError(n.x, bits, Q, z) == e;
      NotPhase(n.x.orig.a, n.x.orig.b, Q, z) by { LargeOk(n.x, params, K, |z|); }
      if n.x.Large? {
        ErrorOfExact(n.x.orig.Phase(z), Q, Bit(BitOf(n.x, bits)), 4, e);
        NotEncodes(n.x.orig.Phase(z), n.orig.Phase(z), Q, Bit(BitOf(n.x, bits)), e);
      } else {
        var y := n.x.x;
        assert LeafError(y, bits, Q, z) == e && BitOf(n, bits) == BitOf(y, bits);
        assert n.x.orig == NotValue(y.orig, Q) && Brought(y, params, K, |z|) by { LargeOk(n.x, params, K, |z|); }
        NotPhase(y.orig.a, y.orig.b, Q, z) by { LargeOk(y, params, K, |z|); }
        TwiceNegated(y.orig.Phase(z), n.x.orig.Phase(z), n.orig.Phase(z), Q);
        LargeEncodes(y, params, K, z, bits);
        EncodesCong(y.orig.Phase(z), n.orig.Phase(z), Q, Bit(BitOf(n, bits)), 4, e + NotSlack(Q));
      }
    }
  }

  lemma LargeOk(n: Node, params: BinFHECryptoParams, K: LWESwitchingKey, size: nat)
    requires IsLarge(n) && Brought(n, params, K, size)
    ensures n.orig.Ok(size, params.lwe.Q)
    ensures n.LargeNot? ==> IsLarge(n.x) && Brought(n.x, params, K, size) && n.orig == NotValue(n.x.orig, params.lwe.Q)
  {
    hide SmallForm, Residues, NotVector;
  }

  lemma TwiceNegated(x: int, y: int, w: int, Q: int)
    requires 0 < Q && y % Q == (Q / 4 - x) % Q && w % Q == (Q / 4 - y) % Q
    ensures x % Q == w % Q
  {
    ModAddCong(Q / 4, Q / 4, y, Q / 4 - x, Q);
  }

  /** What is known of a node. */
  ghost predicate Recorded(n: Node, params: BinFHECryptoParams, K: LWESwitchingKey, sec: Secrets, bits: seq<bool>,
                           D: int) {
    && Followed(n, params, sec.s) && Brought(n, params, K, |sec.z|)
    && Bounds(n, params, sec.s, bits, D, RoundingSlack(params, sec.s))
  }

  /** What is known of an evaluated node and the ciphertext it stands for. */
  ghost predicate Evaluated(r: LWECiphertext, n: Node, params: BinFHECryptoParams, K: LWESwitchingKey, sec: Secrets,
                            bits: seq<bool>, D: int)
    reads r
  {
    && r.p == 4 && r.q == (if IsLarge(n) then params.lwe.Q else params.lwe.q) && r.Value() == Origin(n)
    && Recorded(n, params, K, sec, bits, D)
    && Carries(params, sec, r, Bit(BitOf(n, bits)), 4, OwnError(n, params, sec, bits, D))
    && SmallError(params, sec, r.q, OwnError(n, params, sec, bits, D)) <= D
  }

  /** An input of either modulus: its error, brought to q where it is not, is at most D. */
  ghost predicate InputOk(params: BinFHECryptoParams, sec: Secrets, ct: LWECiphertext, bit: bool, D: int)
    reads ct
  {
    && ct.Valid()
    && if ct.q == params.lwe.Q then
         && |ct.a| == |sec.z|
         && SmallError(params, sec, ct.q, ErrorOf(ct.Phase(sec.z), ct.q, Bit(bit), 4) + NotSlack(ct.q)) <= D
       else ct.q == params.lwe.q && Carries(params, sec, ct, Bit(bit), 4, D)
  }

  /** D bounds the errors of inputs and the worst case of a refresh. */
  ghost predicate Covers(params: BinFHECryptoParams, sec: Secrets, D: int)
    reads params.rgsw
  {
    2 <= params.rgsw.baseG && GateError(params, params.rgsw.baseG, sec, false) <= D && params.lwe.q % 8 == 0
  }

  /**
    A circuit evaluated gate by gate; inputs are copied so that no gate sees the same object twice.
    The run it records follows the circuit, and none of its errors exceeds D.
   */
  method EvalCircuit(params: BinFHECryptoParams, EK: RingGSWBTKey, c: Circuit, inputs: seq<LWECiphertext>,
                     ghost sec: Secrets, ghost bits: seq<bool>, ghost D: int)
    returns (r: LWECiphertext, ghost n: Node)
    requires params.Valid() && KeysFor(EK, params, params.rgsw.baseG, sec) && Covers(params, sec, D)
    requires |inputs| == |bits| && WellFormed(c, |bits|)
    requires forall i :: 0 <= i < |inputs| ==> InputOk(params, sec, inputs[i], bits[i], D)
    ensures fresh(r) && RunOf(n, c, Wires(inputs, params.lwe.Q)) && Evaluated(r, n, params, EK.KSkey, sec, bits, D)
    decreases c
  {
    hide AccKeysFor, IsPow2, Pow, SwitchingKeyFor, GateTable, PhaseOf, Residues, BitOf,
         RoundingSlack, PlainPowers, MonomialTable, LogTable, GateError, InputOk, KeysFor, Evaluated;
    match c {
      case Input(i) =>
        r, n := CopyInput(params, EK, inputs[i], sec, i, bits, D);
      case Not(c1) =>
        var x, nx := EvalCircuit(params, EK, c1, inputs, sec, bits, D);
        r, n := Not1(params, EK, x, sec, nx, bits, D);
      case Gate(g, l, rt) =>
        var x, nx := EvalCircuit(params, EK, l, inputs, sec, bits, D);
        var y, ny := EvalCircuit(params, EK, rt, inputs, sec, bits, D);
        r, n := Gate2(params, g, EK, x, y, sec, nx, ny, bits, D);
      case Majority(a, b, d) =>
        var x, nx := EvalCircuit(params, EK, a, inputs, sec, bits, D);
        var y, ny := EvalCircuit(params, EK, b, inputs, sec, bits, D);
        var z, nz := EvalCircuit(params, EK, d, inputs, sec, bits, D);
        r, n := Majority3(params, EK, x, y, z, sec, nx, ny, nz, bits, D);
      case CMux(a, b, d) =>
        var x, nx := EvalCircuit(params, EK, a, inputs, sec, bits, D);
        var y, ny := EvalCircuit(params, EK, b, inputs, sec, bits, D);
        var z, nz := EvalCircuit(params, EK, d, inputs, sec, bits, D);
        r, n := Mux3(params, EK, x, y, z, sec, nx, ny, nz, bits, D);
    }
  }

  method CopyInput(params: BinFHECryptoParams, EK: RingGSWBTKey, ct: LWECiphertext, ghost sec: Secrets, ghost i: nat,
                   ghost bits: seq<bool>, ghost D: int)
    returns (r: LWECiphertext, ghost n: Node)
    requires i < |bits| && params.Valid() && KeysFor(EK, params, params.rgsw.baseG, sec) && params.lwe.q % 8 == 0
    requires InputOk(params, sec, ct, bits[i], D)
    ensures fresh(r) && IsInput(n, i, Wire(ct.Value(), ct.q == params.lwe.Q))
    ensures Evaluated(r, n, params, EK.KSkey, sec, bits, D)
  {
    hide Encodes, PhaseOf, GateTable, PlainPowers, MonomialTable, LogTable, IsPow2, Pow, ErrorOf, KeysFor, SmallForm,
         SmallError, RoundingSlack, Residues;
    r := new LWECiphertext.Copy(ct);
    DifferentModuli(params);
    SlackNonNeg(params, sec.s);
    if ct.q == params.lwe.Q {
      n := Large(i, ct.Value(), SmallForm(params, EK.KSkey, ct.Value(), ct.q));
      LargeNode(r, n, params, EK, sec, bits, D);
    } else {
      n := Given(i, ct.Value());
      SmallErrorSame(params, sec, ct.q, D);
      ErrorOfExact(ct.Phase(sec.s), params.lwe.q, Bit(bits[i]), 4, D);
    }
  }

  /** A node modulo Q whose record is right is evaluated. */
  lemma LargeNode(r: LWECiphertext, n: Node, params: BinFHECryptoParams, EK: RingGSWBTKey, sec: Secrets,
                  bits: seq<bool>, D: int)
    requires params.Valid() && KeysFor(EK, params, params.rgsw.baseG, sec) && IsLarge(n)
    requires Brought(n, params, EK.KSkey, |sec.z|)
    requires r.Valid() && r.p == 4 && r.q == params.lwe.Q && r.Value() == n.orig
    requires n.LargeNot? ==> Followed(n.x, params, sec.s)
    requires SmallError(params, sec, params.lwe.Q, OwnError(n, params, sec, bits, D)) <= D
    ensures Evaluated(r, n, params, EK.KSkey, sec, bits, D)
  {
    hide Encodes, PhaseOf, GateTable, PlainPowers, MonomialTable, LogTable, IsPow2, Pow, ErrorOf, KeysFor, SmallForm,
         SmallError, RoundingSlack, Residues, LeafError, BinFHECryptoParams.Valid;
    assert 2 < params.lwe.Q;
    LargeEncodes(n, params, EK.KSkey, sec.z, bits);
    LargeBounds(n, params, EK, sec, bits, D);
  }

  lemma LargeBounds(n: Node, params: BinFHECryptoParams, EK: RingGSWBTKey, sec: Secrets, bits: seq<bool>, D: int)
    requires params.Valid() && KeysFor(EK, params, params.rgsw.baseG, sec) && IsLarge(n)
    requires Brought(n, params, EK.KSkey, |sec.z|) && (n.LargeNot? ==> Followed(n.x, params, sec.s))
    requires SmallError(params, sec, params.lwe.Q, OwnError(n, params, sec, bits, D)) <= D
    ensures Followed(n, params, sec.s) && Bounds(n, params, sec.s, bits, D, RoundingSlack(params, sec.s))
  {
    hide Encodes, PhaseOf, ErrorOf, KeysFor, SmallForm, SmallError, RoundingSlack, Residues, LeafError,
         BinFHECryptoParams.Valid;
    var K, m, e := EK.KSkey, Bit(BitOf(n, bits)), OwnError(n, params, sec, bits, D);
    assert 2 < params.lwe.Q by { LargeModulus(params); }
    LargeEncodes(n, params, K, sec.z, bits);
    SwitchingPart(EK, params, params.rgsw.baseG, sec);
    FormEncodes(params, K, n.orig, sec, m, 4, e);
    ErrorOfExact(n.ct.Phase(sec.s), params.lwe.q, m, 4, SmallError(params, sec, params.lwe.Q, e));
    SlackNonNeg(params, sec.s);
  }

  lemma LargeModulus(params: BinFHECryptoParams)
    requires params.Valid()
    ensures 2 < params.lwe.Q
  {
    hide GateTable, PlainPowers, MonomialTable, LogTable, IsPow2, Pow;
  }

  /** The small form of an encoding modulo Q. */
  lemma FormEncodes(params: BinFHECryptoParams, K: LWESwitchingKey, v: LWEValue, sec: Secrets, m: int, p: int, e: int)
    requires SwitchingKeyFor(K, sec.z, sec.s, params.lwe, sec.ksNoise) && v.Ok(|sec.z|, params.lwe.Q)
    requires Encodes(v.Phase(sec.z), params.lwe.Q, m, p, e)
    ensures 0 < params.lwe.q && SmallForm(params, K, v, params.lwe.Q).Ok(|sec.s|, params.lwe.q)
    ensures Encodes(SmallForm(params, K, v, params.lwe.Q).Phase(sec.s), params.lwe.q, m, p,
                    SmallError(params, sec, params.lwe.Q, e))
  {
    hide SwitchingKeyFor, TableShape, Encodes, Residues, PhaseOf, Chained, SwitchedVector, SwitchedOffset,
         SwitchedError;
    var q, Q := params.lwe.q, params.lwe.Q;
    SwitchingKeySizes(K, sec.z, sec.s, params.lwe, sec.ksNoise);
    SwitchingKeyShape(K, sec.z, sec.s, params.lwe, sec.ksNoise);
    SwitchedChained(params.lwe, K, v.a, v.b, Q, q, sec.z, sec.s, sec.ksNoise);
    ChainEncodes(params.lwe, Q, q, v.Phase(sec.z), SmallForm(params, K, v, Q).Phase(sec.s), AbsSum(sec.z, |sec.z|),
                 AbsSum(sec.s, |sec.s|), sec.ksNoise, m, p, e);
  }

  method Not1(params: BinFHECryptoParams, EK: RingGSWBTKey, x: LWECiphertext, ghost sec: Secrets, ghost nx: Node,
              ghost bits: seq<bool>, ghost D: int)
    returns (r: LWECiphertext, ghost n: Node)
    requires params.Valid() && KeysFor(EK, params, params.rgsw.baseG, sec) && params.lwe.q % 8 == 0
    requires Evaluated(x, nx, params, EK.KSkey, sec, bits, D)
    ensures fresh(r) && (n.Negated? || n.LargeNot?) && n.x == nx && Evaluated(r, n, params, EK.KSkey, sec, bits, D)
  {
    hide Encodes, PhaseOf, GateTable, PlainPowers, MonomialTable, LogTable, IsPow2, Pow, ErrorOf, NotVector,
         RoundingSlack, Residues, KeysFor, SmallForm, SmallError, LeafError, Recorded, OwnError, NotSlack, NotValue,
         BinFHECryptoParams.Valid;
    n := NegatedNode(x, nx, params, EK, sec, bits, D);
    r := EvalNOT(params, x, sec, Bit(BitOf(nx, bits)), OwnError(nx, params, sec, bits, D));
    NegatedCarries(r, n, params, EK.KSkey, sec, bits, D);
  }

  /** A negation adds no error modulo q, and none beyond the first modulo Q. */
  lemma NegatedCarries(r: LWECiphertext, n: Node, params: BinFHECryptoParams, K: LWESwitchingKey, sec: Secrets,
                       bits: seq<bool>, D: int)
    requires params.Valid() && params.lwe.q % 8 == 0 && r.q == (if IsLarge(n) then params.lwe.Q else params.lwe.q)
    requires Recorded(n, params, K, sec, bits, D) && r.Value() == Origin(n)
    requires (n.Negated? || n.LargeNot?) && IsLarge(n) == IsLarge(n.x)
    requires Carries(params, sec, r, Bit(BitOf(n, bits)), 4, OwnError(n.x, params, sec, bits, D) + NotSlack(r.q))
    ensures Carries(params, sec, r, Bit(BitOf(n, bits)), 4, OwnError(n, params, sec, bits, D))
  {
    hide Encodes, PhaseOf, Residues, LeafError, SmallForm, Followed, Bounds, BinFHECryptoParams.Valid, Brought,
         NotSlack;
    if IsLarge(n) {
      LargeModulus(params);
      LargeEncodes(n, params, K, sec.z, bits);
      assert n.orig.Ok(|sec.z|, params.lwe.Q) by { LargeOk(n, params, K, |sec.z|); }
    } else {
      NoSlack(params.lwe.q);
    }
  }

  lemma NoSlack(q: int)
    requires q % 8 == 0
    ensures NotSlack(q) == 0
  {
    EightDivides(q);
  }

  lemma LeafSame(n: Node, bits: seq<bool>, Q: int, z: seq<int>)
    requires n.LargeNot?
    ensures LeafError(n, bits, Q, z) == LeafError(n.x, bits, Q, z)
  {}

  /** What a gate sums for an evaluated node is the node's value modulo q. */
  lemma FormOf(r: LWECiphertext, n: Node, params: BinFHECryptoParams, K: LWESwitchingKey, sec: Secrets, bits: seq<bool>,
               D: int)
    requires params.lwe.q != params.lwe.Q && Evaluated(r, n, params, K, sec, bits, D)
    ensures SmallForm(params, K, r.Value(), r.q) == n.ct
  {
    hide TableShape, Carries, Bounds, SmallError, SwitchedVector, SwitchedOffset;
  }

  /** A refreshed ciphertext carries its bit within D and stayed within the reading distance of its key. */
  lemma RefreshedNode(r: LWECiphertext, params: BinFHECryptoParams, sec: Secrets, bit: bool, sum: LWEValue, D: int)
    requires params.Valid() && r.q == params.lwe.q && sum.Ok(|sec.s|, params.lwe.q) && Covers(params, sec, D)
    requires Refreshed(params, sec, r, bit, 4, false)
    ensures 0 < params.lwe.q && r.Value().Ok(|sec.s|, params.lwe.q) && Carries(params, sec, r, Bit(bit), 4, D)
    ensures ErrorOf(r.Phase(sec.s), params.lwe.q, Bit(bit), 4) <= D
    ensures 0 <= ShiftAt(sum, params, sec.s) <= RoundingSlack(params, sec.s)
  {
    hide Encodes, PhaseOf, GateTable, PlainPowers, MonomialTable, LogTable, IsPow2, Pow, ErrorOf, LookupError,
         RoundingSlack, GateError, LookupPoint;
    DifferentModuli(params);
    EncodesWiden(r.Phase(sec.s), r.q, Bit(bit), 4, GateError(params, params.rgsw.baseG, sec, false), D);
    ErrorOfExact(r.Phase(sec.s), params.lwe.q, Bit(bit), 4, D);
    EvenDivisor(params);
    LookupErrorBound(params, sum.a, sum.b, params.lwe.q, sec.s);
  }

  method Gate2(params: BinFHECryptoParams, g: BinGate, EK: RingGSWBTKey, x: LWECiphertext, y: LWECiphertext,
               ghost sec: Secrets, ghost nx: Node, ghost ny: Node, ghost bits: seq<bool>, ghost D: int)
    returns (r: LWECiphertext, ghost n: Node)
    requires params.Valid() && KeysFor(EK, params, params.rgsw.baseG, sec) && Covers(params, sec, D) && Arity(g) == 2
    requires x != y
    requires Evaluated(x, nx, params, EK.KSkey, sec, bits, D) && Evaluated(y, ny, params, EK.KSkey, sec, bits, D)
    ensures fresh(r) && n.Pair? && n.g == g && n.x == nx && n.y == ny && Evaluated(r, n, params, EK.KSkey, sec, bits, D)
  {
    hide AccKeysFor, IsPow2, Pow, SwitchingKeyFor, GateTable, Encodes, PhaseOf, Residues, GateMargin, Weight, BitOf,
         ErrorOf, Delivered,
         GateBit, RoundingSlack, Bit, PlainPowers, MonomialTable, LogTable, GateError, Boolean, Carries, KeysFor,
         SumValue, Ran, GateOutput,
         ShiftAt, Followed, WorstError, WorstShift, BinFHECryptoParams.Valid, SmallForm, SmallError, OwnError, Brought;
    TwoInputPlain(g);
    DifferentModuli(params);
    FormOf(x, nx, params, EK.KSkey, sec, bits, D);
    FormOf(y, ny, params, EK.KSkey, sec, bits, D);
    ghost var run: GateRun;
    r, run := EvalBinGate(params, g, EK, x, y, false, sec, Bit(BitOf(nx, bits)), Bit(BitOf(ny, bits)),
                          OwnError(nx, params, sec, bits, D), OwnError(ny, params, sec, bits, D));
    n := Pair(g, nx, ny, run.bit, r.Value());
    assert |run.sum.a| == |sec.s| by { RanSize(params, g, sec, run); }
    PairEvaluated(r, n, params, EK.KSkey, g, sec, run, nx, ny, bits, D);
  }

  lemma RanBit(params: BinFHECryptoParams, gate: BinGate, sec: Secrets, run: GateRun)
    requires Ran(params, gate, sec, run, 4, HalfGap(params.lwe.Q, 4))
    ensures 0 < params.lwe.q && run.sum.Ok(|sec.s|, params.lwe.q) && run.bit == GateOutput(params, gate, run.sum, sec.s)
  {
    hide Holds, TestVector, GateOutput, AccNoise;
  }

  /** A pair of followed nodes whose sum was looked up is followed. */
  lemma PairNode(n: Node, params: BinFHECryptoParams, s: seq<int>, bits: seq<bool>, D: int, h: int)
    requires n.Pair? && Arity(n.g) == 2 && Followed(n.x, params, s) && Followed(n.y, params, s)
    requires n.ct.Ok(|s|, params.lwe.q)
    requires Bounds(n.x, params, s, bits, D, h) && Bounds(n.y, params, s, bits, D, h)
    requires var sum := SumValue(n.g, n.x.ct, n.y.ct, params.lwe.q);
             n.bit == GateOutput(params, n.g, sum, s) && 0 <= ShiftAt(sum, params, s) <= h
    requires ErrorOf(n.ct.Phase(s), params.lwe.q, Bit(n.bit), 4) <= D
    ensures Followed(n, params, s) && Bounds(n, params, s, bits, D, h)
  {
    hide ErrorOf, GateOutput, PhaseOf, Residues, SumValue, ShiftAt, Bit;
  }

  lemma TripleNode(n: Node, params: BinFHECryptoParams, s: seq<int>, bits: seq<bool>, D: int, h: int)
    requires n.Triple? && Followed(n.x, params, s) && Followed(n.y, params, s) && Followed(n.z, params, s)
    requires n.ct.Ok(|s|, params.lwe.q)
    requires Bounds(n.x, params, s, bits, D, h) && Bounds(n.y, params, s, bits, D, h)
    requires Bounds(n.z, params, s, bits, D, h)
    requires var sum := SumThree(n.x.ct, n.y.ct, n.z.ct, params.lwe.q);
             n.bit == GateOutput(params, MAJORITY, sum, s) && 0 <= ShiftAt(sum, params, s) <= h
    requires ErrorOf(n.ct.Phase(s), params.lwe.q, Bit(n.bit), 4) <= D
    ensures Followed(n, params, s) && Bounds(n, params, s, bits, D, h)
  {
    hide ErrorOf, GateOutput, PhaseOf, Residues, SumThree, ShiftAt, Bit;
  }

  lemma PairEvaluated(r: LWECiphertext, n: Node, params: BinFHECryptoParams, K: LWESwitchingKey, g: BinGate,
                      sec: Secrets, run: GateRun, nx: Node, ny: Node,
                      bits: seq<bool>, D: int)
    requires params.Valid() && Covers(params, sec, D) && Arity(g) == 2 && r.q == params.lwe.q && r.p == 4
    requires n == Pair(g, nx, ny, run.bit, r.Value()) && Ran(params, g, sec, run, 4, HalfGap(params.lwe.Q, 4))
    requires Refreshed(params, sec, r, run.bit, 4, false)
    requires Recorded(nx, params, K, sec, bits, D) && Recorded(ny, params, K, sec, bits, D)
    requires run.sum == SumValue(g, nx.ct, ny.ct, params.lwe.q)
    ensures Evaluated(r, n, params, K, sec, bits, D)
  {
    hide PhaseOf, Residues, ErrorOf, RoundingSlack, Bit, GateError, Carries, SumValue, GateOutput, ShiftAt,
         BinFHECryptoParams.Valid,
         Covers, Ran, HalfGap, Followed, Bounds, SmallError;
    RanBit(params, g, sec, run);
    RefreshedNode(r, params, sec, run.bit, run.sum, D);
    OwnSame(n, r, params, sec, bits, D);
    PairNode(n, params, sec.s, bits, D, RoundingSlack(params, sec.s));
  }

  lemma OwnSame(n: Node, r: LWECiphertext, params: BinFHECryptoParams, sec: Secrets, bits: seq<bool>, D: int)
    requires params.Valid() && !IsLarge(n) && r.q == params.lwe.q
    ensures OwnError(n, params, sec, bits, D) == D && SmallError(params, sec, r.q, D) == D
  {
    DifferentModuli(params);
  }

  method Majority3(params: BinFHECryptoParams, EK: RingGSWBTKey, x: LWECiphertext, y: LWECiphertext, z: LWECiphertext,
                   ghost sec: Secrets, ghost nx: Node, ghost ny: Node, ghost nz: Node, ghost bits: seq<bool>,
                   ghost D: int)
    returns (r: LWECiphertext, ghost n: Node)
    requires params.Valid() && KeysFor(EK, params, params.rgsw.baseG, sec) && Covers(params, sec, D) && x != y && y != z
    requires x != z
    requires Evaluated(x, nx, params, EK.KSkey, sec, bits, D) && Evaluated(y, ny, params, EK.KSkey, sec, bits, D)
    requires Evaluated(z, nz, params, EK.KSkey, sec, bits, D)
    ensures fresh(r) && n.Triple? && n.x == nx && n.y == ny && n.z == nz
    ensures Evaluated(r, n, params, EK.KSkey, sec, bits, D)
  {
    hide AccKeysFor, IsPow2, Pow, SwitchingKeyFor, GateTable, Encodes, PhaseOf, Residues, GateMargin, BitOf, ErrorOf,
         Delivered, Total,
         GateBit, RoundingSlack, Bit, PlainPowers, MonomialTable, LogTable, GateError, KeysFor, Ran, GateOutput,
         Followed, WorstError, WorstShift,
         BinFHECryptoParams.Valid, AddVector, Carries, SmallForm, SmallError, OwnError, Brought, SumThree;
    ghost var ms := [Bit(BitOf(nx, bits)), Bit(BitOf(ny, bits)), Bit(BitOf(nz, bits))];
    ghost var run: GateRun;
    DifferentModuli(params);
    ghost var es := [OwnError(nx, params, sec, bits, D), OwnError(ny, params, sec, bits, D),
                     OwnError(nz, params, sec, bits, D)];
    FormOf(x, nx, params, EK.KSkey, sec, bits, D);
    FormOf(y, ny, params, EK.KSkey, sec, bits, D);
    FormOf(z, nz, params, EK.KSkey, sec, bits, D);
    r, run := EvalBinGateVector(params, MAJORITY, EK, [x, y, z], false, sec, ms, es, D);
    n := Triple(nx, ny, nz, run.bit, r.Value());
    SumOfThree(SmallForms(params, EK.KSkey, [x, y, z]), params.lwe.q, run.sum);
    TripleEvaluated(r, n, params, EK.KSkey, sec, run, nx, ny, nz, bits, D);
  }

  lemma SumOfThree(vs: seq<LWEValue>, q: int, sum: LWEValue)
    requires |vs| == 3 && SumsTo(vs, q, 3, sum)
    ensures |vs[0].a| == |vs[1].a| == |vs[2].a| && sum == SumThree(vs[0], vs[1], vs[2], q)
  {
    hide AddVector;
    assert SumAll(vs, q, 1) == vs[0];
    assert SumAll(vs, q, 2) == AddValues(vs[0], vs[1], q);
  }

  lemma TripleEvaluated(r: LWECiphertext, n: Node, params: BinFHECryptoParams, K: LWESwitchingKey, sec: Secrets,
                        run: GateRun, nx: Node, ny: Node, nz: Node,
                        bits: seq<bool>, D: int)
    requires params.Valid() && Covers(params, sec, D) && r.q == params.lwe.q && r.p == 4
    requires n == Triple(nx, ny, nz, run.bit, r.Value()) && Ran(params, MAJORITY, sec, run, 4, HalfGap(params.lwe.Q, 4))
    requires Refreshed(params, sec, r, run.bit, 4, false)
    requires Recorded(nx, params, K, sec, bits, D) && Recorded(ny, params, K, sec, bits, D)
    requires Recorded(nz, params, K, sec, bits, D) && run.sum == SumThree(nx.ct, ny.ct, nz.ct, params.lwe.q)
    ensures Evaluated(r, n, params, K, sec, bits, D)
  {
    hide PhaseOf, Residues, ErrorOf, RoundingSlack, Bit, GateError, Carries, SumThree, GateOutput, ShiftAt,
         BinFHECryptoParams.Valid,
         Covers, Ran, HalfGap, Followed, Bounds, SmallError;
    RanBit(params, MAJORITY, sec, run);
    RefreshedNode(r, params, sec, run.bit, run.sum, D);
    OwnSame(n, r, params, sec, bits, D);
    TripleNode(n, params, sec.s, bits, D, RoundingSlack(params, sec.s));
  }

  method Mux3(params: BinFHECryptoParams, EK: RingGSWBTKey, x: LWECiphertext, y: LWECiphertext, z: LWECiphertext,
              ghost sec: Secrets, ghost nx: Node, ghost ny: Node, ghost nz: Node, ghost bits: seq<bool>, ghost D: int)
    returns (r: LWECiphertext, ghost n: Node)
    requires params.Valid() && KeysFor(EK, params, params.rgsw.baseG, sec) && Covers(params, sec, D) && x != y && y != z
    requires x != z
    requires Evaluated(x, nx, params, EK.KSkey, sec, bits, D) && Evaluated(y, ny, params, EK.KSkey, sec, bits, D)
    requires Evaluated(z, nz, params, EK.KSkey, sec, bits, D)
    ensures fresh(r) && n.Pair? && n.g == NAND && n.x.Pair? && n.x.g == NAND && n.y.Pair? && n.y.g == NAND
    ensures n.x.y.Negated? || n.x.y.LargeNot?
    ensures n.x.x == nx && n.x.y.x == nz && n.y.x == ny && n.y.y == nz
    ensures Evaluated(r, n, params, EK.KSkey, sec, bits, D)
  {
    hide AccKeysFor, IsPow2, Pow, SwitchingKeyFor, GateTable, Encodes, PhaseOf, Residues, BitOf, ErrorOf, Delivered,
         RoundingSlack, Bit, PlainPowers, MonomialTable, LogTable, GateError, KeysFor, Ran, GateOutput, Followed,
         WorstError, WorstShift,
         BinFHECryptoParams.Valid, Carries, SumValue, NotValue, NandFits, DownChain, SmallForm, SmallError, OwnError,
         Recorded;
    ghost var run: CmuxRun;
    DifferentModuli(params);
    FormOf(x, nx, params, EK.KSkey, sec, bits, D);
    FormOf(y, ny, params, EK.KSkey, sec, bits, D);
    FormOf(z, nz, params, EK.KSkey, sec, bits, D);
    ghost var nt := NegatedNode(z, nz, params, EK, sec, bits, D);
    r, run := EvalCMUX(params, EK, [x, y, z], sec, [BitOf(nx, bits), BitOf(ny, bits), BitOf(nz, bits)],
                       [OwnError(nx, params, sec, bits, D), OwnError(ny, params, sec, bits, D),
                        OwnError(nz, params, sec, bits, D)]);
    ghost var n1, n2 := Pair(NAND, nx, nt, run.first.bit, run.v1), Pair(NAND, ny, nz, run.second.bit, run.v2);
    n := Pair(NAND, n1, n2, run.last.bit, r.Value());
    NandNode(n1, params, EK.KSkey, sec, run.first, run.v1, nx, nt, bits, D);
    NandNode(n2, params, EK.KSkey, sec, run.second, run.v2, ny, nz, bits, D);
    PairEvaluated(r, n, params, EK.KSkey, NAND, sec, run.last, n1, n2, bits, D);
  }

  /** The node of the negated selector. */
  lemma NegatedNode(z: LWECiphertext, nz: Node, params: BinFHECryptoParams, EK: RingGSWBTKey, sec: Secrets,
                    bits: seq<bool>, D: int)
    returns (nt: Node)
    requires params.Valid() && KeysFor(EK, params, params.rgsw.baseG, sec) && params.lwe.q % 8 == 0
    requires Evaluated(z, nz, params, EK.KSkey, sec, bits, D)
    ensures (nt.Negated? || nt.LargeNot?) && nt.x == nz
    ensures nt.ct == SmallForm(params, EK.KSkey, NotValue(z.Value(), z.q), z.q)
    ensures Origin(nt) == NotValue(z.Value(), z.q) && IsLarge(nt) == IsLarge(nz)
    ensures OwnError(nt, params, sec, bits, D) == OwnError(nz, params, sec, bits, D)
    ensures Recorded(nt, params, EK.KSkey, sec, bits, D)
  {
    hide Encodes, PhaseOf, GateTable, PlainPowers, MonomialTable, LogTable, IsPow2, Pow, ErrorOf, NotVector,
         RoundingSlack, KeysFor, SmallForm, SmallError, LeafError;
    DifferentModuli(params);
    var v := NotValue(z.Value(), z.q);
    if IsLarge(nz) {
      nt := LargeNot(nz, v, SmallForm(params, EK.KSkey, v, z.q));
      assert LeafError(nt, bits, params.lwe.Q, sec.z) == LeafError(nz, bits, params.lwe.Q, sec.z) by {
        LeafSame(nt, bits, params.lwe.Q, sec.z);
      }
      NotPhase(nz.orig.a, nz.orig.b, params.lwe.Q, sec.z);
      LargeBounds(nt, params, EK, sec, bits, D);
    } else {
      nt := Negated(nz, v);
      assert SmallForm(params, EK.KSkey, v, z.q) == v by { FormSame(params, EK.KSkey, v, z.q); }
      NotFollowed(nz, nt, params, sec.s, bits, D, RoundingSlack(params, sec.s));
    }
  }

  lemma FormSame(params: BinFHECryptoParams, K: LWESwitchingKey, v: LWEValue, mod: int)
    requires mod != params.lwe.Q
    ensures SmallForm(params, K, v, mod) == v
  {}

  lemma NotFollowed(nz: Node, nt: Node, params: BinFHECryptoParams, s: seq<int>, bits: seq<bool>, D: int, h: int)
    requires 2 < params.lwe.q && Followed(nz, params, s) && nt == Negated(nz, NotValue(nz.ct, params.lwe.q))
    requires Bounds(nz, params, s, bits, D, h)
    ensures Followed(nt, params, s) && Bounds(nt, params, s, bits, D, h)
  {
    hide PhaseOf, NotVector;
    NotPhase(nz.ct.a, nz.ct.b, params.lwe.q, s);
  }

  /** The node of an inner NAND. */
  lemma NandNode(n: Node, params: BinFHECryptoParams, K: LWESwitchingKey, sec: Secrets, run: GateRun, v: LWEValue,
                 nx: Node, ny: Node, bits: seq<bool>, D: int)
    requires params.Valid() && Covers(params, sec, D) && n == Pair(NAND, nx, ny, run.bit, v)
    requires NandResult(params, sec, run, v)
    requires Ran(params, NAND, sec, run, 4, HalfGap(params.lwe.Q, 4))
    requires Recorded(nx, params, K, sec, bits, D) && Recorded(ny, params, K, sec, bits, D)
    requires run.sum == SumValue(NAND, nx.ct, ny.ct, params.lwe.q)
    ensures Recorded(n, params, K, sec, bits, D)
  {
    hide PhaseOf, Residues, ErrorOf, RoundingSlack, Bit, GateError, SumValue, GateOutput, BinFHECryptoParams.Valid,
         LookupError, LookupPoint,
         Ran, HalfGap, Followed, Bounds, DownChain, Encodes;
    RanBit(params, NAND, sec, run);
    EncodesWiden(v.Phase(sec.s), params.lwe.q, Bit(run.bit), 4, GateError(params, params.rgsw.baseG, sec, false), D);
    ErrorOfExact(v.Phase(sec.s), params.lwe.q, Bit(run.bit), 4, D);
    SizedParams(params);
    LookupErrorBound(params, run.sum.a, run.sum.b, params.lwe.q, sec.s);
    PairNode(n, params, sec.s, bits, D, RoundingSlack(params, sec.s));
  }

  lemma SizedParams(params: BinFHECryptoParams)
    requires params.Valid() && params.lwe.q % 8 == 0
    ensures Sized(params)
  {
    hide IsPow2, Pow, GateTable, PlainPowers, MonomialTable, LogTable;
  }

  /**
    Decrypting the evaluated circuit gives the value of the circuit whenever the worst error actually
    present in the run fits the margin.
   */
  method DecryptCircuit(params: BinFHECryptoParams, EK: RingGSWBTKey, sk: LWEPrivateKey, c: Circuit,
                        inputs: seq<LWECiphertext>,
                        ghost sec: Secrets, ghost bits: seq<bool>, ghost D: int)
    returns (result: int, ghost n: Node)
    requires params.Valid() && KeysFor(EK, params, params.rgsw.baseG, sec) && Covers(params, sec, D)
    requires sk.Valid() && sec.s == sk.Signed() && |inputs| == |bits| && WellFormed(c, |bits|)
    requires forall i :: 0 <= i < |inputs| ==> InputOk(params, sec, inputs[i], bits[i], D)
    ensures RunOf(n, c, Wires(inputs, params.lwe.Q)) && Followed(n, params, sec.s)
    ensures Brought(n, params, EK.KSkey, |sec.z|)
    ensures Bounds(n, params, sec.s, bits, D, RoundingSlack(params, sec.s))
    ensures Fits(n, params, sec.s, bits) ==> result == Bit(Value(c, bits))
  {
    hide AccKeysFor, IsPow2, Pow, SwitchingKeyFor, GateTable, Decodes, PhaseOf, Residues, RoundingSlack, PlainPowers,
         MonomialTable,
         LogTable, GateError, KeysFor, SignedValue, Followed, WorstError, WorstShift, Carries, Bit, RunOf, Value,
         BinFHECryptoParams.Valid, Covers;
    var r;
    r, n := EvalCircuit(params, EK, c, inputs, sec, bits, D);
    r := SmallOutput(params, EK, r, sec, n, bits, D);
    result := Decrypt(sk, r, 4);
    if Fits(n, params, sec.s, bits) {
      assert params.lwe.q % 8 == 0 by { CoversEight(params, sec, D); }
      FittingDecodes(n, c, Wires(inputs, params.lwe.Q), params, sec.s, bits);
      assert r.Phase(sk.Signed()) == n.ct.Phase(sec.s);
      BitRange(Value(c, bits));
    }
  }

  /** An output that is still modulo Q, because no gate came before it, is switched before it is decrypted. */
  method SmallOutput(params: BinFHECryptoParams, EK: RingGSWBTKey, x: LWECiphertext, ghost sec: Secrets, ghost n: Node,
                     ghost bits: seq<bool>, ghost D: int)
    returns (r: LWECiphertext)
    requires params.Valid() && KeysFor(EK, params, params.rgsw.baseG, sec)
    requires Evaluated(x, n, params, EK.KSkey, sec, bits, D)
    ensures r.Valid() && r.q == params.lwe.q && |r.a| == |sec.s| && r.Value() == n.ct
    ensures Recorded(n, params, EK.KSkey, sec, bits, D)
  {
    hide Encodes, PhaseOf, GateTable, PlainPowers, MonomialTable, LogTable, IsPow2, Pow, ErrorOf, KeysFor, SmallForm,
         SmallError, RoundingSlack, Residues, OwnError, WorstError, WorstShift, BinFHECryptoParams.Valid;
    DifferentModuli(params);
    FormOf(x, n, params, EK.KSkey, sec, bits, D);
    SwitchingPart(EK, params, params.rgsw.baseG, sec);
    r := Small(params, EK, x, sec, Bit(BitOf(n, bits)), 4, OwnError(n, params, sec, bits, D));
  }

  lemma BitRange(b: bool)
    ensures 0 <= Bit(b) < 4
  {}

  lemma CoversEight(params: BinFHECryptoParams, sec: Secrets, D: int)
    requires Covers(params, sec, D)
    ensures params.lwe.q % 8 == 0
  {}

  /** The root of a run that fits decodes to the value of the circuit. */
  lemma FittingDecodes(n: Node, c: Circuit, inputs: seq<Wire>, params: BinFHECryptoParams, s: seq<int>,
                       bits: seq<bool>)
    requires params.Valid() && params.lwe.q % 8 == 0 && |inputs| == |bits| && WellFormed(c, |bits|)
    requires RunOf(n, c, inputs)
    requires Followed(n, params, s) && 0 <= WorstShift(n, params, s) && Fits(n, params, s, bits)
    ensures 0 < params.lwe.q && |n.ct.a| == |s| && Decodes(n.ct.Phase(s), Bit(Value(c, bits)), 4, params.lwe.q)
  {
    hide Decodes, PhaseOf, Residues, WorstError, WorstShift, Bit, Value, RunOf, Encodes, BinFHECryptoParams.Valid;
    var D, h := WorstError(n, params, s, bits), WorstShift(n, params, s);
    SizedParams(params);
    RunCorrect(n, c, inputs, params, s, bits, D, h);
    NodeEncodes(n, params, s, bits, D);
    EncodedDecodes(n.ct.Phase(s), params.lwe.q, Bit(Value(c, bits)), 4, D);
  }

  // ---------------------------------------------------------------------------
  // Worst-case parameters
  // ---------------------------------------------------------------------------

  /** The error budget D covers every refresh in the worst case, and three of it fit the margin of an eighth of q. */
  ghost predicate Roomy(params: BinFHECryptoParams, sec: Secrets, base: nat, D: int)
    requires 2 <= base
  {
    && GateError(params, base, sec, false) <= D && params.lwe.q % 8 == 0 && params.lwe.q != params.lwe.Q
    && 8 * (3 * D + RoundingSlack(params, sec.s)) < params.lwe.q
  }

  /** With room for the worst case every run fits. */
  lemma RoomyFits(n: Node, params: BinFHECryptoParams, sec: Secrets, bits: seq<bool>, D: int)
    requires 2 <= params.rgsw.baseG && Roomy(params, sec, params.rgsw.baseG, D)
    requires Followed(n, params, sec.s) && Bounds(n, params, sec.s, bits, D, RoundingSlack(params, sec.s))
    ensures Fits(n, params, sec.s, bits)
  {
    hide WorstError, WorstShift, Followed, GateError, RoundingSlack;
  }
}
