/**
  What the three accumulators share: the ciphertext they update in place, generation of RingGSW
  rows, and multiplication of the accumulator by a RingGSW key
  (src/binfhe/lib/rgsw-acc.cpp, rgsw-acc-dm.cpp, rgsw-acc-cggi.cpp, rgsw-acc-lmkcdey.cpp).
 */
module Accumulator {
  import opened Arithmetic
  import opened NegacyclicRing
  import opened Automorphisms
  import opened RingNoise
  import opened Gadget
  import opened RgswParams
  import opened ExternalProduct

  /**
    The accumulator: two ring elements, overwritten by every step. Ghost state records where it
    started, every step so far, and the exact error those steps have added up.
   */
  class RLWECiphertext {
    var el0: Poly
    var el1: Poly
    ghost const start: (Poly, Poly)
    ghost var err: Poly
    ghost var trace: seq<Entry>

    constructor (el0: Poly, el1: Poly)
      ensures this.el0 == el0 && this.el1 == el1 && start == (el0, el1) && err == Zero(|el0|) && trace == []
    {
      this.el0, this.el1 := el0, el1;
      start := (el0, el1);
      err := Zero(|el0|);
      trace := [];
    }

    ghost predicate Valid(N: nat, Q: int)
      reads this
    {
      |el0| == N && |el1| == N && |err| == N && Reduced(el0, Q) && Reduced(el1, Q)
    }

    ghost function PhaseUnder(z: Poly): (r: Poly)
      requires |el0| == |el1| == |z|
      reads this
      ensures |r| == |z|
    {
      Phase(el0, el1, z)
    }
  }

  // ---------------------------------------------------------------------------
  // Arithmetic on stored elements
  // ---------------------------------------------------------------------------

  lemma ReduceAdd(f: Poly, g: Poly, Q: int)
    requires 0 < Q && |f| == |g|
    ensures Reduce(Add(Reduce(f, Q), Reduce(g, Q)), Q) == Reduce(Add(f, g), Q)
  {
    forall k | 0 <= k < |f|
      ensures (f[k] % Q + g[k] % Q) % Q == (f[k] + g[k]) % Q
    {
      ModMod(f[k], Q);
      ModMod(g[k], Q);
      ModAddCong(f[k] % Q, f[k], g[k] % Q, g[k], Q);
    }
  }

  function AddQ(f: Poly, g: Poly, Q: int): (r: Poly)
    requires 0 < Q && |f| == |g|
    ensures |r| == |f|
  {
    Reduce(Add(f, g), Q)
  }

  function MulQ(f: Poly, g: Poly, Q: int): (r: Poly)
    requires 0 < Q
    ensures |r| == |f|
  {
    Reduce(Mul(f, g), Q)
  }

  /** Sum of digit times key row over column c, accumulated modulo Q. */
  method RowProduct(ds: seq<Poly>, ek: EvalKey, c: nat, N: nat, Q: int) returns (r: Poly)
    requires 0 < Q && c < 2 && 1 <= |ds| && Polys(ds, N) && KeyShape(ek, |ds|, N)
    ensures |r| == N && r == Reduce(FullDot(ds, Column(ek, c, N), N), Q)
  {
    ghost var col := Column(ek, c, N);
    r := MulQ(ds[0], ek[0][c], Q);
    assert Dot(ds, col, N, 1) == Mul(ds[0], ek[0][c]) by {
      assert Dot(ds, col, N, 0) == Zero(N);
    }
    for l := 1 to |ds|
      invariant |r| == N && r == Reduce(Dot(ds, col, N, l), Q)
    {
      ReduceAdd(Dot(ds, col, N, l), Mul(ds[l], ek[l][c]), Q);
      r := AddQ(r, MulQ(ds[l], ek[l][c], Q), Q);
    }
  }

  /** Storing both halves modulo Q keeps the phase modulo Q. */
  lemma StoredPhase(x: Poly, y: Poly, z: Poly, Q: int)
    requires 0 < Q && |x| == |y| == |z|
    ensures Near(Phase(Reduce(x, Q), Reduce(y, Q), z), Phase(x, y, z), 0, Q)
  {
    hide Close, Mul, Coef, Reduce;
    ReduceNear(x, Q);
    ReduceNear(y, Q);
    CongruentPhase(Reduce(x, Q), Reduce(y, Q), x, y, z, Q);
  }

  lemma CongruentPhase(x: Poly, y: Poly, x': Poly, y': Poly, z: Poly, Q: int)
    requires 0 < Q && |x| == |y| == |z| && Near(x, x', 0, Q) && Near(y, y', 0, Q)
    ensures Near(Phase(x, y, z), Phase(x', y', z), 0, Q)
  {
    hide Close, Mul, Coef;
    NearMulCong(z, x, x', Q);
    NearAdd(y, y', Mul(x, z), Mul(x', z), 0, 0, Q);
  }

  // ---------------------------------------------------------------------------
  // Proof context
  // ---------------------------------------------------------------------------

  /** The sizes, gadget, ring secret and error bound that statements about keys refer to. */
  datatype Context = Context(N: nat, Q: int, q: int, B: nat, L: nat, z: Poly, noise: int) {

    ghost predicate Ok() {
      && IsPow2(N) && 2 <= N && 2 <= q && (2 * N) % q == 0
      && 2 <= B && B % 2 == 0 && 2 <= L && 1 < Q <= Pow(B, L)
      && |z| == N && 0 <= noise
    }

    /** ek is a key for mu. */
    ghost predicate KeyFor(ek: EvalKey, mu: Poly) {
      0 < Q && |mu| == N && UnitMessage(mu) && EncryptsMessage(ek, mu, z, B, L, noise, Q)
    }

    /** ek is a key for X^m. */
    ghost predicate TurnsBy(ek: EvalKey, m: int) {
      KeyFor(ek, Mono(N, m))
    }

    /** Noise of one product. */
    function Eps(): int {
      ProductNoise(N, Q, B, L, noise, Norm1(z))
    }

    /** Noise of one automorphism. */
    function AutoEps(): int {
      AutoNoise(N, Q, B, L, noise, Norm1(z))
    }
  }

  /** Noise terms are never negative. */
  lemma EpsNonNeg(cx: Context)
    requires cx.Ok()
    ensures 0 <= cx.Eps() && 0 <= cx.AutoEps()
  {
    hide Pow, IsPow2, ProductNoise, AutoNoise;
    ProductNoiseNonNeg(cx.N, cx.Q, cx.B, cx.L, cx.noise, cx.z);
  }

  ghost function ContextOf(params: RingGSWCryptoParams, z: Poly, noise: int): (cx: Context)
    requires params.Valid()
    reads params
  {
    Context(params.N, params.Q, params.q, params.baseG, params.digitsG, z, noise)
  }

  lemma ContextOk(params: RingGSWCryptoParams, z: Poly, noise: int)
    requires params.Valid() && |z| == params.N && 0 <= noise
    ensures ContextOf(params, z, noise).Ok()
  {
    TwoDigits(params.Q, params.baseG);
    BaseBits(params.baseG);
  }

  // ---------------------------------------------------------------------------
  // Steps and their exact errors
  // ---------------------------------------------------------------------------

  /** (X^m - 1) * f. */
  function Binomial(f: Poly, m: int): (r: Poly)
    ensures |r| == |f|
  {
    Sub(Rot(f, m), f)
  }

  /** Message of a selector key: 1 or 0. */
  function Selector(N: nat, on: bool): (r: Poly)
    ensures |r| == N
  {
    if on then Mono(N, 0) else Zero(N)
  }

  /** What the three accumulators do to the two elements. */
  datatype Step =
    | Multiply(ek: EvalKey, m: int)                                        // product with a key for X^m
    | Mux(ek1: EvalKey, ek2: EvalKey, s: int, a: nat, a': nat)           // ternary MUX by X^(s*a), a' = -a
    | Twist(ak: EvalKey, t: int)                                         // X -> X^t with key switching
    | Opening(t: int)                                                    // X -> X^t on the second element alone

  /** A step together with the state it was performed on. */
  datatype Entry = Entry(el0: Poly, el1: Poly, err: Poly, step: Step)

  /** Column c of the product of interleaved digits with a key, stored modulo Q. */
  ghost function ProductColumn(el0: Poly, el1: Poly, ek: EvalKey, c: nat, cx: Context): (r: Poly)
    requires cx.Ok() && c < 2 && |el0| == |el1| == cx.N && KeyShape(ek, 2 * (cx.L - 1), cx.N)
    ensures |r| == cx.N
  {
    Reduce(FullDot(Interleaved(el0, el1, cx.Q, cx.B, cx.L), Column(ek, c, cx.N), cx.N), cx.Q)
  }

  /** X^i - 1 as it is tabulated. */
  function TableEntry(N: nat, i: nat, Q: int): (r: Poly)
    requires 0 < Q
    ensures |r| == N
  {
    Reduce(Sub(Mono(N, i), One(N)), Q)
  }

  /** One column of a MUX step: el + P1 * (X^a - 1) + P2 * (X^a' - 1). */
  ghost function MuxColumnOf(el: Poly, P1: Poly, P2: Poly, a: nat, a': nat, Q: int): (r: Poly)
    requires 0 < Q && |el| == |P1| == |P2|
    ensures |r| == |el|
  {
    AddQ(AddQ(el, MulQ(P1, TableEntry(|el|, a, Q), Q), Q), MulQ(P2, TableEntry(|el|, a', Q), Q), Q)
  }

  /** The error of product with ek, for the message mu. */
  ghost function StepError(el0: Poly, el1: Poly, ek: EvalKey, mu: Poly, cx: Context): (r: Poly)
    requires cx.Ok() && |el0| == |el1| == |mu| == cx.N && KeyShape(ek, 2 * (cx.L - 1), cx.N)
    ensures |r| == cx.N
  {
    ProductError(el0, el1, ek, mu, cx.z, cx.B, cx.L, cx.Q)
  }

  /** en's step takes en's state to the elements r0, r1 and turns its error into err. */
  ghost predicate Performed(en: Entry, r0: Poly, r1: Poly, err: Poly, cx: Context) {
    && cx.Ok() && |en.el0| == |en.el1| == |en.err| == cx.N
    && match en.step {
         case Multiply(ek, m) =>
           && KeyShape(ek, 2 * (cx.L - 1), cx.N)
           && r0 == ProductColumn(en.el0, en.el1, ek, 0, cx) && r1 == ProductColumn(en.el0, en.el1, ek, 1, cx)
           && err == Add(Rot(en.err, m), StepError(en.el0, en.el1, ek, Mono(cx.N, m), cx))
         case Mux(ek1, ek2, s, a, a') =>
           && KeyShape(ek1, 2 * (cx.L - 1), cx.N) && KeyShape(ek2, 2 * (cx.L - 1), cx.N)
           && r0 == MuxColumnOf(en.el0, ProductColumn(en.el0, en.el1, ek1, 0, cx),
                                ProductColumn(en.el0, en.el1, ek2, 0, cx), a, a', cx.Q)
           && r1 == MuxColumnOf(en.el1, ProductColumn(en.el0, en.el1, ek1, 1, cx),
                                ProductColumn(en.el0, en.el1, ek2, 1, cx), a, a', cx.Q)
           && err == Add(Add(Rot(en.err, s * a), Binomial(StepError(en.el0, en.el1, ek1, Selector(cx.N, s == 1), cx),
                                                          a)),
                         Binomial(StepError(en.el0, en.el1, ek2, Selector(cx.N, s == -1), cx), a'))
         case Twist(ak, t) =>
           var cta := Reduce(Auto(en.el0, t), cx.Q);
           && KeyShape(ak, cx.L - 1, cx.N)
           && r0 == Reduce(FullDot(Decomposition(cta, cx.Q, cx.B, cx.L), Column(ak, 0, cx.N), cx.N), cx.Q)
           && r1 == Reduce(Add(Auto(en.el1, t), FullDot(Decomposition(cta, cx.Q, cx.B, cx.L), Column(ak, 1, cx.N),
                                                        cx.N)), cx.Q)
           && err == Add(Auto(en.err, t), AutoError(cta, ak, Auto(cx.z, t), cx.z, cx.B, cx.L, cx.Q))
         case Opening(t) =>
           r0 == en.el0 == Zero(cx.N) && r1 == Reduce(Auto(en.el1, t), cx.Q) && err == Auto(en.err, t)
       }
  }

  /** The steps lead from the start to the elements el0, el1, and their errors add up to err. */
  ghost predicate Traced(start: (Poly, Poly), trace: seq<Entry>, el0: Poly, el1: Poly, err: Poly, cx: Context)
    decreases |trace|
  {
    if |trace| == 0 then (el0, el1) == start && err == Zero(cx.N)
    else
      var last := trace[|trace| - 1];
      Performed(last, el0, el1, err, cx) && Traced(start, trace[..|trace| - 1], last.el0, last.el1, last.err, cx)
  }

  lemma TracedSnoc(start: (Poly, Poly), trace: seq<Entry>, en: Entry, r0: Poly, r1: Poly, err: Poly, cx: Context)
    requires Traced(start, trace, en.el0, en.el1, en.err, cx) && Performed(en, r0, r1, err, cx)
    ensures Traced(start, trace + [en], r0, r1, err, cx)
  {
    hide Performed;
    assert (trace + [en])[..|trace|] == trace;
  }

  /** Number of key-switched automorphisms in a trace. */
  function Twists(trace: seq<Entry>): nat {
    if |trace| == 0 then 0
    else Twists(trace[..|trace| - 1]) + (if trace[|trace| - 1].step.Twist? then 1 else 0)
  }

  lemma TwistsSnoc(trace: seq<Entry>, en: Entry)
    ensures Twists(trace + [en]) == Twists(trace) + (if en.step.Twist? then 1 else 0)
  {
    assert (trace + [en])[..|trace|] == trace;
  }

  /**
    The accumulator encrypts f * X^e with exactly the error its trace has added up, and that error
    is at most b.
   */
  ghost predicate Holds(acc: RLWECiphertext, cx: Context, f: Poly, e: int, b: int)
    reads acc
  {
    && acc.Valid(cx.N, cx.Q) && 0 < cx.Q && |cx.z| == cx.N && |f| == cx.N
    && Near(acc.PhaseUnder(cx.z), Add(Rot(f, e), acc.err), 0, cx.Q) && 0 <= b && Bounded(acc.err, b)
    && Traced(acc.start, acc.trace, acc.el0, acc.el1, acc.err, cx)
  }

  lemma HoldsSize(acc: RLWECiphertext, cx: Context, f: Poly, e: int, b: int)
    requires Holds(acc, cx, f, e, b)
    ensures |f| == cx.N
  {}

  lemma HoldsWiden(acc: RLWECiphertext, cx: Context, f: Poly, e: int, b: int, e': int, b': int)
    requires Holds(acc, cx, f, e, b) && e == e' && b <= b'
    ensures Holds(acc, cx, f, e', b')
  {
    hide Near, Rot, Reduced, Phase;
    BoundedWiden(acc.err, b, b');
  }

  // ---------------------------------------------------------------------------
  // Multiplying the accumulator by a key (AddToAccDM and AddToAccLMKCDEY)
  // ---------------------------------------------------------------------------

  /** acc := digits(acc) * ek, which multiplies the encrypted element by any message mu, up to ProductError. */
  method MultiplyIntoAcc(params: RingGSWCryptoParams, ek: EvalKey, acc: RLWECiphertext,
                         ghost mu: Poly, ghost cx: Context)
    requires params.Valid() && cx == ContextOf(params, cx.z, cx.noise) && cx.Ok()
    requires acc.Valid(cx.N, cx.Q) && |mu| == cx.N && KeyShape(ek, 2 * (cx.L - 1), cx.N)
    modifies acc`el0, acc`el1
    ensures acc.Valid(cx.N, cx.Q)
    ensures acc.el0 == ProductColumn(old(acc.el0), old(acc.el1), ek, 0, cx)
    ensures acc.el1 == ProductColumn(old(acc.el0), old(acc.el1), ek, 1, cx)
    ensures Near(acc.PhaseUnder(cx.z),
                 Add(Mul(mu, old(acc.PhaseUnder(cx.z))), StepError(old(acc.el0), old(acc.el1), ek, mu, cx)), 0, cx.Q)
  {
    hide Close, Mul, Coef, Near, Phase, Norm1, IsPow2, Pow, Reduced, Reduce, ProductError;
    var Q, N := params.Q, params.N;
    var dct := new Poly[2 * (params.digitsG - 1)](_ => Zero(N));
    SignedDigitDecompose(Q, params.baseG, params.digitsG, acc.el0, acc.el1, dct);
    var r0 := RowProduct(dct[..], ek, 0, N, Q);
    var r1 := RowProduct(dct[..], ek, 1, N, Q);
    MultipliedPhase(acc.el0, acc.el1, r0, r1, ek, mu, cx);
    acc.el0 := r0;
    acc.el1 := r1;
  }

  lemma MultipliedPhase(el0: Poly, el1: Poly, r0: Poly, r1: Poly, ek: EvalKey, mu: Poly, cx: Context)
    requires cx.Ok() && |el0| == |el1| == |mu| == cx.N && Reduced(el0, cx.Q) && Reduced(el1, cx.Q)
    requires KeyShape(ek, 2 * (cx.L - 1), cx.N)
    requires r0 == ProductColumn(el0, el1, ek, 0, cx) && r1 == ProductColumn(el0, el1, ek, 1, cx)
    ensures Reduced(r0, cx.Q) && Reduced(r1, cx.Q)
    ensures Near(Phase(r0, r1, cx.z), Add(Mul(mu, Phase(el0, el1, cx.z)), StepError(el0, el1, ek, mu, cx)), 0, cx.Q)
  {
    hide Close, Mul, Coef, Near, Phase, Dot, Reduce, Reduced, Norm1, Interleaved, ProductError, Add, IsPow2, Pow;
    var Q, N, z := cx.Q, cx.N, cx.z;
    var ds := Interleaved(el0, el1, Q, cx.B, cx.L);
    var x, y := FullDot(ds, Column(ek, 0, N), N), FullDot(ds, Column(ek, 1, N), N);
    StoredPhase(x, y, z, Q);
    ReduceNear(x, Q);
    ReduceNear(y, Q);
    ExternalProductExact(el0, el1, ek, mu, z, cx.B, cx.L, Q);
    NearTrans(Phase(r0, r1, z), ProductPhase(ds, ek, z),
              Add(Mul(mu, Phase(el0, el1, z)), StepError(el0, el1, ek, mu, cx)), 0, 0, Q);
  }

  /** One more key turns the encrypted element and its error by m and adds one product's error. */
  lemma RotStep(p: Poly, p': Poly, f: Poly, m: int, e: int, err: Poly, pe: Poly, Q: int)
    requires 0 < Q && |f| == |p| == |err| == |pe|
    requires Near(p, Add(Rot(f, e), err), 0, Q) && Near(p', Add(Mul(Mono(|f|, m), p), pe), 0, Q)
    ensures Near(p', Add(Rot(f, e + m), Add(Rot(err, m), pe)), 0, Q)
  {
    hide Close, Mul, Coef, Mono, Rot, Near;
    MulMonomial(p, m);
    NearRot(p, Add(Rot(f, e), err), m, 0, Q);
    RotAdd(Rot(f, e), err, m);
    RotRot(f, e, m);
    AddedErrors(p', Rot(p, m), pe, Rot(f, e + m), Rot(err, m), Q);
    assert Add(pe, Rot(err, m)) == Add(Rot(err, m), pe);
  }

  lemma StepErrorBounded(el0: Poly, el1: Poly, ek: EvalKey, mu: Poly, cx: Context)
    requires cx.Ok() && cx.KeyFor(ek, mu) && |el0| == |el1| == cx.N && Reduced(el0, cx.Q) && Reduced(el1, cx.Q)
    ensures KeyShape(ek, 2 * (cx.L - 1), cx.N) && Bounded(StepError(el0, el1, ek, mu, cx), cx.Eps())
  {
    hide ProductError, ProductNoise, Norm1, IsPow2, Pow, Reduced, UnitMessage, Near, Bounded;
    ProductErrorBounded(el0, el1, ek, mu, cx.z, cx.B, cx.L, cx.noise, cx.Q);
  }

  /** Multiplying by a key for X^m. */
  method TurnAcc(params: RingGSWCryptoParams, ek: EvalKey, acc: RLWECiphertext,
                 ghost cx: Context, ghost f: Poly, ghost e: int, ghost m: int, ghost b: int)
    requires params.Valid() && cx == ContextOf(params, cx.z, cx.noise) && cx.Ok()
    requires cx.TurnsBy(ek, m) && Holds(acc, cx, f, e, b)
    modifies acc
    ensures Holds(acc, cx, f, e + m, b + cx.Eps()) && Twists(acc.trace) == Twists(old(acc.trace))
  {
    hide Close, Mul, Coef, Near, Phase, ProductError, ProductNoise, Norm1, UnitMessage, IsPow2, Pow, Reduced, Bounded,
         Mono, Rot, Traced,
         Add, ProductColumn, EncryptsMessage, StepError;
    ghost var p, en := acc.PhaseUnder(cx.z), Entry(acc.el0, acc.el1, acc.err, Multiply(ek, m));
    StepErrorBounded(acc.el0, acc.el1, ek, Mono(cx.N, m), cx);
    ghost var pe := StepError(acc.el0, acc.el1, ek, Mono(cx.N, m), cx);
    MultiplyIntoAcc(params, ek, acc, Mono(cx.N, m), cx);
    RotStep(p, acc.PhaseUnder(cx.z), f, m, e, acc.err, pe, cx.Q);
    BoundedRot(acc.err, m, b);
    BoundedAdd(Rot(acc.err, m), pe, b, cx.Eps());
    EpsNonNeg(cx);
    acc.err := Add(Rot(acc.err, m), pe);
    TracedSnoc(acc.start, acc.trace, en, acc.el0, acc.el1, acc.err, cx);
    TwistsSnoc(acc.trace, en);
    acc.trace := acc.trace + [en];
  }

  // ---------------------------------------------------------------------------
  // Key rows
  // ---------------------------------------------------------------------------

  /** One draw of the generators: a uniform mask and an error. */
  datatype Sample = Sample(mask: Poly, err: Poly)

  ghost predicate SampleOK(s: Sample, N: nat, Q: int, noise: int) {
    |s.mask| == N && |s.err| == N && Reduced(s.mask, Q) && Bounded(s.err, noise)
  }

  lemma ErrNear(err: Poly, f: Poly, noise: int, Q: int)
    requires 0 < Q && |err| == |f| && Bounded(err, noise) && 0 <= noise
    ensures Near(Add(err, f), f, noise, Q)
  {
    forall k | 0 <= k < |f|
      ensures Close(err[k] + f[k], f[k], noise, Q)
    {
      CloseIntro(err[k] + f[k], f[k], noise, Q, 0);
    }
  }

  /** What row i of a key for mu adds to its mask: its gadget multiple in the even rows, nothing in the odd ones. */
  function MaskPart(i: nat, mu: Poly, B: nat): (r: Poly)
    ensures |r| == |mu|
  {
    if i % 2 == 0 then Scale(Pow(B, i / 2 + 1), mu) else Zero(|mu|)
  }

  /** The row is made from the sample: its mask with `lifted` added, and a phase of `target` plus its error, exactly. */
  ghost predicate RowFrom(row: seq<Poly>, s: Sample, lifted: Poly, target: Poly, z: Poly, Q: int) {
    && 0 < Q && |row| == 2 && |row[0]| == |row[1]| == |s.mask| == |s.err| == |lifted| == |target| == |z|
    && Near(row[0], Add(s.mask, lifted), 0, Q) && Near(Phase(row[0], row[1], z), Add(s.err, target), 0, Q)
  }

  /** Every row of the key is made from its own sample. */
  ghost predicate KeyFrom(ek: EvalKey, draw: int -> Sample, mu: Poly, z: Poly, B: nat, L: nat, Q: int) {
    && 1 <= L && |mu| == |z| && |ek| == 2 * (L - 1)
    && forall i :: 0 <= i < 2 * (L - 1) ==> RowFrom(ek[i], draw(i), MaskPart(i, mu, B), GadgetRow(i, mu, z, B), z, Q)
  }

  /** A row made from a sample is within the sample's noise of its target. */
  lemma RowFromNear(row: seq<Poly>, s: Sample, lifted: Poly, target: Poly, z: Poly, noise: int, Q: int)
    requires RowFrom(row, s, lifted, target, z, Q) && 0 <= noise && SampleOK(s, |z|, Q, noise)
    ensures Near(Phase(row[0], row[1], z), target, noise, Q)
  {
    hide Close, Near, Reduced, Phase;
    ErrNear(s.err, target, noise, Q);
    NearTrans(Phase(row[0], row[1], z), Add(s.err, target), target, 0, noise, Q);
  }

  /** Gadget in the first element: the row's phase is -p * mu * z plus its error. */
  lemma EvenRowPhase(s: Sample, row0: Poly, row1: Poly, p: int, mu: Poly, z: Poly, noise: int, Q: int)
    requires 0 < Q && 0 <= noise && |mu| == |z| && SampleOK(s, |z|, Q, noise)
    requires Near(row0, Add(s.mask, Scale(p, mu)), 0, Q) && Near(row1, Add(s.err, Mul(s.mask, z)), 0, Q)
    ensures RowFrom([row0, row1], s, Scale(p, mu), Scale(-p, Mul(mu, z)), z, Q)
  {
    hide Close, Mul, Coef, Near, Reduced;
    var x, y := Add(s.mask, Scale(p, mu)), Add(s.err, Mul(s.mask, z));
    assert |row0| == |row1| == |z| by { NearLengths(row0, x, 0, Q); NearLengths(row1, y, 0, Q); }
    CongruentPhase(row0, row1, x, y, z, Q);
    MulDistributesLeft(z, s.mask, Scale(p, mu));
    MulScale(p, mu, z);
    RowIdentity(s.err, Mul(s.mask, z), Mul(mu, z), p);
  }

  lemma NearLengths(f: Poly, g: Poly, b: int, Q: int)
    requires 0 < Q && Near(f, g, b, Q)
    ensures |f| == |g|
  {}

  lemma RowIdentity(e: Poly, m: Poly, u: Poly, p: int)
    requires |e| == |m| == |u|
    ensures Sub(Add(e, m), Add(m, Scale(p, u))) == Add(e, Scale(-p, u))
  {
    forall k | 0 <= k < |e|
      ensures -p * u[k] == -(p * u[k])
    {}
  }

  /** Gadget in the second element: the row's phase is g plus its error. */
  lemma OddRowPhase(s: Sample, row0: Poly, row1: Poly, g: Poly, z: Poly, noise: int, Q: int)
    requires 0 < Q && 0 <= noise && |g| == |z| && SampleOK(s, |z|, Q, noise)
    requires Near(row0, s.mask, 0, Q) && Near(row1, Add(Add(s.err, g), Mul(s.mask, z)), 0, Q)
    ensures RowFrom([row0, row1], s, Zero(|z|), g, z, Q)
  {
    hide Close, Mul, Coef, Near, Reduced;
    var y := Add(Add(s.err, g), Mul(s.mask, z));
    assert |row0| == |row1| == |z| by { NearLengths(row0, s.mask, 0, Q); NearLengths(row1, y, 0, Q); }
    CongruentPhase(row0, row1, s.mask, y, z, Q);
    assert Sub(y, Mul(s.mask, z)) == Add(s.err, g);
    assert Add(s.mask, Zero(|z|)) == s.mask;
  }

  /** f + g * X^mm on stored coefficients, with X^N = -1 folded in as the source does. */
  function AddMonomialQ(f: Poly, mm: nat, g: int, Q: int): (r: Poly)
    requires 0 < Q && mm < 2 * |f|
    ensures |r| == |f|
  {
    if mm < |f| then f[mm := (f[mm] + g) % Q] else f[mm - |f| := (f[mm - |f|] - g) % Q]
  }

  lemma AddMonomialNear(f: Poly, mm: nat, g: int, p: int, Q: int)
    requires 0 < Q && mm < 2 * |f| && g % Q == p % Q
    ensures Near(AddMonomialQ(f, mm, g, Q), Add(f, Scale(p, Mono(|f|, mm))), 0, Q)
  {
    var N := |f|;
    forall k: nat | k < N
      ensures Close(AddMonomialQ(f, mm, g, Q)[k], f[k] + p * Mono(N, mm)[k], 0, Q)
    {
      MonoCoefficient(N, mm, k);
      var x := AddMonomialQ(f, mm, g, Q)[k];
      if k == mm || k + N == mm {
        ModAddCong(f[k], f[k], g, p, Q);
        ModMod(if k == mm then f[k] + g else f[k] - g, Q);
      }
      CloseZero(x, f[k] + p * Mono(N, mm)[k], Q);
    }
  }

  /** Row i of an encryption of X^mm, built as in KeyGenDM and KeyGenLMKCDEY. */
  method EncryptRow(Q: int, gPower: seq<int>, i: nat, mm: nat, s: Sample, z: Poly,
                    ghost B: nat, ghost noise: int)
    returns (row: seq<Poly>)
    requires 0 < Q && 0 <= noise && 2 <= B && i / 2 + 1 < |gPower| && GadgetPowers(gPower, B, Q)
    requires 0 < |z| && mm < 2 * |z| && SampleOK(s, |z|, Q, noise)
    ensures |row| == 2 && |row[0]| == |z| && |row[1]| == |z|
    ensures RowFrom(row, s, MaskPart(i, Mono(|z|, mm), B), GadgetRow(i, Mono(|z|, mm), z, B), z, Q)
    ensures Near(Phase(row[0], row[1], z), GadgetRow(i, Mono(|z|, mm), z, B), noise, Q)
  {
    hide Close, Mul, Coef, Near, Mono, AddMonomialQ, Reduce, Reduced, Phase, RowFrom, SampleOK;
    SampleSizes(s, |z|, Q, noise);
    var g := gPower[i / 2 + 1];
    ghost var p := Pow(B, i / 2 + 1);
    ModMod(p, Q);
    var row0, row1 := s.mask, Reduce(s.err, Q);
    if i % 2 == 0 {
      row0 := AddMonomialQ(row0, mm, g, Q);
    } else {
      row1 := AddMonomialQ(row1, mm, g, Q);
    }
    row := [row0, AddQ(row1, MulQ(s.mask, z, Q), Q)];
    if i % 2 == 0 {
      EvenRowMade(Q, g, p, mm, s, z, row[0], row[1], noise);
    } else {
      OddRowMade(Q, g, p, mm, s, z, row1, row[1], noise);
    }
    RowFromNear(row, s, MaskPart(i, Mono(|z|, mm), B), GadgetRow(i, Mono(|z|, mm), z, B), z, noise, Q);
  }

  lemma SampleSizes(s: Sample, N: nat, Q: int, noise: int)
    requires SampleOK(s, N, Q, noise)
    ensures |s.mask| == |s.err| == N
  {}

  lemma EvenRowMade(Q: int, g: int, p: int, mm: nat, s: Sample, z: Poly, row0: Poly, row1: Poly, noise: int)
    requires 0 < Q && 0 <= noise && g % Q == p % Q && mm < 2 * |z| && SampleOK(s, |z|, Q, noise)
    requires row0 == AddMonomialQ(s.mask, mm, g, Q)
    requires row1 == AddQ(Reduce(s.err, Q), MulQ(s.mask, z, Q), Q)
    ensures RowFrom([row0, row1], s, Scale(p, Mono(|z|, mm)), Scale(-p, Mul(Mono(|z|, mm), z)), z, Q)
  {
    hide Close, Mul, Coef, Near, Mono, AddMonomialQ, Reduce, Reduced;
    AddMonomialNear(s.mask, mm, g, p, Q);
    ReduceNear(s.err, Q);
    MaskedSum(s, Reduce(s.err, Q), s.err, row1, z, Q);
    EvenRowPhase(s, row0, row1, p, Mono(|z|, mm), z, noise, Q);
  }

  lemma OddRowMade(Q: int, g: int, p: int, mm: nat, s: Sample, z: Poly, stored: Poly, row1: Poly, noise: int)
    requires 0 < Q && 0 <= noise && g % Q == p % Q && mm < 2 * |z| && SampleOK(s, |z|, Q, noise)
    requires stored == AddMonomialQ(Reduce(s.err, Q), mm, g, Q)
    requires row1 == AddQ(stored, MulQ(s.mask, z, Q), Q)
    ensures RowFrom([s.mask, row1], s, Zero(|z|), Scale(p, Mono(|z|, mm)), z, Q)
  {
    hide Close, Mul, Coef, Near, Mono, AddMonomialQ, Reduce, Reduced;
    var e, g' := Reduce(s.err, Q), Scale(p, Mono(|z|, mm));
    AddMonomialNear(e, mm, g, p, Q);
    ReduceNear(s.err, Q);
    NearSelf(g', 0, Q);
    NearAdd(e, s.err, g', g', 0, 0, Q);
    NearTrans(stored, Add(e, g'), Add(s.err, g'), 0, 0, Q);
    MaskedSum(s, stored, Add(s.err, g'), row1, z, Q);
    NearSelf(s.mask, 0, Q);
    OddRowPhase(s, s.mask, row1, g', z, noise, Q);
  }

  /** Adding mask * z modulo Q. */
  lemma MaskedSum(s: Sample, stored: Poly, exact: Poly, r: Poly, z: Poly, Q: int)
    requires 0 < Q && |s.mask| == |z| == |stored| && Near(stored, exact, 0, Q)
    requires r == AddQ(stored, MulQ(s.mask, z, Q), Q)
    ensures |exact| == |z| && Near(r, Add(exact, Mul(s.mask, z)), 0, Q)
  {
    hide Close, Mul, Coef;
    var m := Mul(s.mask, z);
    ReduceNear(m, Q);
    NearAdd(stored, exact, Reduce(m, Q), m, 0, 0, Q);
    ReduceNear(Add(stored, Reduce(m, Q)), Q);
    NearTrans(r, Add(stored, Reduce(m, Q)), Add(exact, m), 0, 0, Q);
  }

  /** All rows of an encryption of X^mm. */
  method EncryptMonomial(params: RingGSWCryptoParams, mm: nat, draw: int -> Sample, z: Poly, ghost cx: Context)
    returns (ek: EvalKey)
    requires params.GadgetReady() && cx == ContextOf(params, z, cx.noise) && cx.Ok() && mm < 2 * cx.N
    requires forall i :: SampleOK(draw(i), cx.N, cx.Q, cx.noise)
    ensures cx.TurnsBy(ek, mm) && KeyFrom(ek, draw, Mono(cx.N, mm), z, cx.B, cx.L, cx.Q)
  {
    hide Near, GadgetRow, MaskPart, RowFrom, Mono, IsPow2, Pow;
    var digitsG2 := 2 * (params.digitsG - 1);
    ek := [];
    for i := 0 to digitsG2
      invariant KeyShape(ek, i, cx.N)
      invariant forall j: nat :: j < i ==>
        Near(RowPhases(ek, z)[j], GadgetRow(j, Mono(cx.N, mm), z, cx.B), cx.noise, cx.Q)
      invariant forall j: nat :: j < i ==>
        RowFrom(ek[j], draw(j), MaskPart(j, Mono(cx.N, mm), cx.B), GadgetRow(j, Mono(cx.N, mm), z, cx.B), z, cx.Q)
    {
      var row := EncryptRow(params.Q, params.gPower, i, mm, draw(i), z, cx.B, cx.noise);
      ghost var was := ek;
      ek := ek + [row];
      assert forall j :: 0 <= j < i ==> RowPhases(ek, z)[j] == RowPhases(was, z)[j];
    }
    MonomialIsUnit(cx.N, mm);
  }

  lemma MonomialIsUnit(N: nat, m: int)
    ensures UnitMessage(Mono(N, m))
  {}
}
