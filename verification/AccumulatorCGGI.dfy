/**
  The CGGI accumulator with the ternary MUX (src/binfhe/lib/rgsw-acc-cggi.cpp): each step adds
  (X^a - 1) times the product with one key and (X^-a - 1) times the product with the other.
 */
module AccumulatorCGGI {
  import opened Arithmetic
  import opened NegacyclicRing
  import opened RingNoise
  import opened Gadget
  import opened RgswParams
  import opened ExternalProduct
  import opened Accumulator
  import opened LweBasics
  import opened AccumulatorDM

  // ---------------------------------------------------------------------------
  // Keys
  // ---------------------------------------------------------------------------

  lemma SelectorIsUnit(N: nat, on: bool)
    ensures UnitMessage(Selector(N, on))
  {}

  lemma ZeroRow(i: nat, z: Poly, B: nat)
    ensures GadgetRow(i, Zero(|z|), z, B) == MaskPart(i, Zero(|z|), B) == Zero(|z|)
  {
    hide Mul;
    ZeroMul(z);
    assert Scale(-Pow(B, i / 2 + 1), Zero(|z|)) == Zero(|z|);
    assert Scale(Pow(B, i / 2 + 1), Zero(|z|)) == Zero(|z|);
  }

  /** A row without gadget part encrypts zero. */
  method ZeroMessageRow(Q: int, s: Sample, z: Poly, ghost noise: int) returns (row: seq<Poly>)
    requires 0 < Q && 0 <= noise && SampleOK(s, |z|, Q, noise)
    ensures |row| == 2 && |row[0]| == |z| && |row[1]| == |z|
    ensures RowFrom(row, s, Zero(|z|), Zero(|z|), z, Q) && Near(Phase(row[0], row[1], z), Zero(|z|), noise, Q)
  {
    hide Close, Mul, Coef, Near, Reduce, Reduced, Phase;
    row := [s.mask, AddQ(Reduce(s.err, Q), MulQ(s.mask, z, Q), Q)];
    ReduceNear(s.err, Q);
    assert Add(s.err, Zero(|z|)) == s.err;
    MaskedSum(s, Reduce(s.err, Q), s.err, row[1], z, Q);
    NearSelf(s.mask, 0, Q);
    OddRowPhase(s, row[0], row[1], Zero(|z|), z, noise, Q);
    RowFromNear(row, s, Zero(|z|), Zero(|z|), z, noise, Q);
  }

  method KeyGenCGGI(params: RingGSWCryptoParams, z: Poly, m: int, draw: int -> Sample, ghost cx: Context)
    returns (ek: EvalKey)
    requires params.GadgetReady() && cx == ContextOf(params, z, cx.noise) && cx.Ok()
    requires forall i :: SampleOK(draw(i), cx.N, cx.Q, cx.noise)
    ensures cx.KeyFor(ek, Selector(cx.N, m != 0)) && KeyFrom(ek, draw, Selector(cx.N, m != 0), z, cx.B, cx.L, cx.Q)
  {
    hide Near, GadgetRow, MaskPart, RowFrom, Mono, IsPow2, Pow, Phase;
    var digitsG2 := 2 * (params.digitsG - 1);
    ghost var mu := Selector(cx.N, m != 0);
    ek := [];
    for i := 0 to digitsG2
      invariant KeyShape(ek, i, cx.N)
      invariant forall j: nat :: j < i ==> Near(RowPhases(ek, z)[j], GadgetRow(j, mu, z, cx.B), cx.noise, cx.Q)
      invariant forall j: nat :: j < i ==>
        RowFrom(ek[j], draw(j), MaskPart(j, mu, cx.B), GadgetRow(j, mu, z, cx.B), z, cx.Q)
    {
      var row;
      if m != 0 {
        row := EncryptRow(params.Q, params.gPower, i, 0, draw(i), z, cx.B, cx.noise);
      } else {
        row := ZeroMessageRow(params.Q, draw(i), z, cx.noise);
        ZeroRow(i, z, cx.B);
      }
      ghost var was := ek;
      ek := ek + [row];
      assert forall j :: 0 <= j < i ==> RowPhases(ek, z)[j] == RowPhases(was, z)[j];
    }
    SelectorIsUnit(cx.N, m != 0);
  }

  /** 1, -1 or 0: the secret entry the two selector keys stand for. */
  function TernaryValue(v: int, modulus: int): int {
    if v == 1 then 1 else if v == modulus - 1 then -1 else 0
  }

  ghost predicate TernaryKeys(ek: AccKey, s: seq<int>, cx: Context) {
    && |ek| == 1 && |ek[0]| == 2 && |ek[0][0]| == |s| && |ek[0][1]| == |s|
    && forall i :: 0 <= i < |s| ==> TernaryPair(ek[0][0][i], ek[0][1][i], s[i], cx)
  }

  ghost predicate TernaryPair(ek1: EvalKey, ek2: EvalKey, si: int, cx: Context) {
    -1 <= si <= 1 && cx.KeyFor(ek1, Selector(cx.N, si == 1)) && cx.KeyFor(ek2, Selector(cx.N, si == -1))
  }

  function TernaryPart(sk: LWEPrivateKey): (s: seq<int>)
    ensures |s| == |sk.values|
  {
    seq(|sk.values|, i requires 0 <= i < |sk.values| => TernaryValue(sk.values[i], sk.modulus))
  }

  ghost predicate IsTernary(sk: LWEPrivateKey) {
    forall i :: 0 <= i < |sk.values| ==> sk.values[i] in {0, 1, sk.modulus - 1}
  }

  /** On a ternary key the selectors stand for the key itself. */
  lemma TernaryIsSigned(sk: LWEPrivateKey)
    requires sk.Valid()
    ensures IsTernary(sk) <==> sk.Signed() == TernaryPart(sk)
  {
    forall i | 0 <= i < |sk.values|
      ensures sk.values[i] in {0, 1, sk.modulus - 1} <==> sk.Signed()[i] == TernaryPart(sk)[i]
    {}
    if sk.Signed() == TernaryPart(sk) {
      forall i | 0 <= i < |sk.values|
        ensures sk.values[i] in {0, 1, sk.modulus - 1}
      {
        assert sk.Signed()[i] == TernaryPart(sk)[i];
      }
    }
  }

  method KeyGenAcc(params: RingGSWCryptoParams, z: Poly, sk: LWEPrivateKey,
                   draw: (int, int, int) -> Sample, ghost cx: Context)
    returns (ek: AccKey)
    requires params.GadgetReady() && cx == ContextOf(params, z, cx.noise) && cx.Ok() && sk.Valid()
    requires forall i, j, k :: SampleOK(draw(i, j, k), cx.N, cx.Q, cx.noise)
    ensures TernaryKeys(ek, TernaryPart(sk), cx)
  {
    hide IsPow2, Pow, SampleOK, Selector, EncryptsMessage, UnitMessage;
    var neg := sk.modulus - 1;
    var ek00, ek01 := [], [];
    for i := 0 to |sk.values|
      invariant |ek00| == i && |ek01| == i
      invariant forall h :: 0 <= h < i ==> TernaryPair(ek00[h], ek01[h], TernaryPart(sk)[h], cx)
    {
      var s := sk.values[i];
      var k1 := KeyGenCGGI(params, z, if s == 1 then 1 else 0, l => draw(i, 0, l), cx);
      var k2 := KeyGenCGGI(params, z, if s == neg then 1 else 0, l => draw(i, 1, l), cx);
      ek00 := ek00 + [k1];
      ek01 := ek01 + [k2];
    }
    ek := [[ek00, ek01]];
  }

  // ---------------------------------------------------------------------------
  // One MUX step
  // ---------------------------------------------------------------------------

  lemma TableProduct(f: Poly, i: nat, entry: Poly, Q: int)
    requires 0 < Q && entry == TableEntry(|f|, i, Q)
    ensures Near(Mul(f, entry), Binomial(f, i), 0, Q)
  {
    hide Close, Coef, Mul, Near, Mono, One, Reduce;
    var x := Sub(Mono(|f|, i), One(|f|));
    ReduceNear(x, Q);
    NearMulCong(f, entry, x, Q);
    MulDistributes(f, Mono(|f|, i), One(|f|));
    MulMonomial(f, i);
    MulOne(f);
  }

  lemma BinomialNear(f: Poly, g: Poly, m: int, b: int, Q: int)
    requires 0 < Q && Near(f, g, b, Q)
    ensures Near(Binomial(f, m), Binomial(g, m), 2 * b, Q)
  {
    hide Close, Rot, Near;
    NearRot(f, g, m, b, Q);
    NearAdd(Rot(f, m), Rot(g, m), f, g, b, b, Q);
  }

  lemma BinomialAdd(f: Poly, g: Poly, m: int)
    requires |f| == |g|
    ensures Binomial(Add(f, g), m) == Add(Binomial(f, m), Binomial(g, m))
  {
    hide Rot;
    RotAdd(f, g, m);
    Rearrange(Rot(f, m), Rot(g, m), f, g);
  }

  lemma BinomialBounded(f: Poly, m: int, b: int)
    requires Bounded(f, b)
    ensures Bounded(Binomial(f, m), 2 * b)
  {
    hide Rot, Bounded;
    BoundedRot(f, m, b);
    BoundedAdd(Rot(f, m), f, b, b);
  }

  /** Phase of acc + tmp1 * M1 + tmp2 * M2. */
  lemma MuxPhase(el0: Poly, el1: Poly, x1: Poly, y1: Poly, x2: Poly, y2: Poly, z: Poly, a: int, a': int)
    requires |el0| == |el1| == |x1| == |y1| == |x2| == |y2| == |z|
    ensures Phase(Add(Add(el0, Binomial(x1, a)), Binomial(x2, a')), Add(Add(el1, Binomial(y1, a)), Binomial(y2, a')), z)
         == Add(Add(Phase(el0, el1, z), Binomial(Phase(x1, y1, z), a)), Binomial(Phase(x2, y2, z), a'))
  {
    hide Coef, Mul, Binomial;
    PhaseAdd(Add(el0, Binomial(x1, a)), Add(el1, Binomial(y1, a)), Binomial(x2, a'), Binomial(y2, a'), z);
    PhaseAdd(el0, el1, Binomial(x1, a), Binomial(y1, a), z);
    PhaseBinomial(x1, y1, a, z);
    PhaseBinomial(x2, y2, a', z);
  }

  lemma PhaseAdd(x: Poly, y: Poly, u: Poly, v: Poly, z: Poly)
    requires |x| == |y| == |u| == |v| == |z|
    ensures Phase(Add(x, u), Add(y, v), z) == Add(Phase(x, y, z), Phase(u, v, z))
  {
    hide Coef, Mul;
    MulDistributesLeft(z, x, u);
    Rearrange(y, v, Mul(x, z), Mul(u, z));
  }

  lemma PhaseBinomial(x: Poly, y: Poly, a: int, z: Poly)
    requires |x| == |y| == |z|
    ensures Phase(Binomial(x, a), Binomial(y, a), z) == Binomial(Phase(x, y, z), a)
  {
    hide Coef, Mul, Rot;
    MulDistributesLeft(z, Rot(x, a), x);
    MulRotLeft(x, z, a);
    RotAdd(y, Mul(x, z), a);
    var u, v := Mul(x, z), Rot(Mul(x, z), a);
    assert Sub(Sub(Rot(y, a), y), Sub(v, u)) == Sub(Sub(Rot(y, a), v), Sub(y, u));
  }

  /** With selectors (1,0), (0,1), (0,0) the MUX of exact products turns by a, -a or 0. */
  lemma MuxSelects(p: Poly, a: int, a': int, s: int)
    requires 0 < |p| && -1 <= s <= 1 && a' % (2 * |p|) == (-a) % (2 * |p|)
    ensures Add(Add(p, Binomial(Mul(Selector(|p|, s == 1), p), a)), Binomial(Mul(Selector(|p|, s == -1), p), a'))
         == Rot(p, s * a)
  {
    hide Coef, Mul, Rot, Binomial, Selector, Add;
    SelectorProduct(p, s == 1);
    SelectorProduct(p, s == -1);
    ZeroBinomial(|p|, a);
    ZeroBinomial(|p|, a');
    AddedBinomial(p, a);
    AddedBinomial(p, a');
    RotCong(p, a', -a);
    RotZero(p);
    assert s * a == if s == 1 then a else if s == -1 then -a else 0;
  }

  lemma SelectorProduct(p: Poly, on: bool)
    requires 0 < |p|
    ensures Mul(Selector(|p|, on), p) == if on then p else Zero(|p|)
  {
    hide Coef, Mul, Rot;
    MulMonomial(p, 0);
    RotZero(p);
    ZeroMul(p);
  }

  lemma ZeroBinomial(N: nat, a: int)
    ensures Binomial(Zero(N), a) == Zero(N)
  {
    forall k: nat | k < N
      ensures Rot(Zero(N), a)[k] == 0
    {
      CoefZero(N, k - a);
    }
  }

  lemma AddedBinomial(p: Poly, a: int)
    ensures Add(p, Binomial(p, a)) == Rot(p, a)
    ensures Add(Add(p, Binomial(p, a)), Zero(|p|)) == Rot(p, a)
    ensures Add(p, Zero(|p|)) == p
  {
    hide Rot;
  }

  /** What MuxColumn leaves in a column, before reduction. */
  ghost function MuxExact(el: Poly, ds: seq<Poly>, ek1: EvalKey, ek2: EvalKey, c: nat, N: nat, a: int,
                          a': int): (r: Poly)
    requires |el| == N && c < 2 && Polys(ds, N) && KeyShape(ek1, |ds|, N) && KeyShape(ek2, |ds|, N)
    ensures |r| == N
  {
    Add(Add(el, Binomial(FullDot(ds, Column(ek1, c, N), N), a)), Binomial(FullDot(ds, Column(ek2, c, N), N), a'))
  }

  /** One column of the step: el + tmp1 * M1 + tmp2 * M2, stored modulo Q. */
  method MuxColumn(params: RingGSWCryptoParams, dct: seq<Poly>, ek1: EvalKey, ek2: EvalKey, c: nat, el: Poly,
                   indexPos: nat, indexNeg: nat)
    returns (r: Poly)
    requires params.Valid() && params.variant == GINX && indexPos < 2 * params.N && indexNeg < 2 * params.N
    requires c < 2 && 1 <= |dct| && Polys(dct, params.N) && |el| == params.N
    requires KeyShape(ek1, |dct|, params.N) && KeyShape(ek2, |dct|, params.N)
    ensures r == MuxColumnOf(el, Reduce(FullDot(dct, Column(ek1, c, params.N), params.N), params.Q),
                             Reduce(FullDot(dct, Column(ek2, c, params.N), params.N), params.Q),
                             indexPos, indexNeg, params.Q)
  {
    hide Close, Coef, Mul, Near, Reduce, Reduced, IsPow2, Pow, FullDot, Mono, One, GateTable, Binomial;
    var Q, N := params.Q, params.N;
    var tmp := RowProduct(dct, ek1, c, N, Q);
    r := AddQ(el, MulQ(tmp, params.monomials[indexPos], Q), Q);
    var tmp2 := RowProduct(dct, ek2, c, N, Q);
    r := AddQ(r, MulQ(tmp2, params.monomials[indexNeg], Q), Q);
  }

  /** A stored column is the exact one modulo Q. */
  lemma MuxColumnNear(el: Poly, x1: Poly, x2: Poly, a: nat, a': nat, Q: int)
    requires 0 < Q && |el| == |x1| == |x2|
    ensures Reduced(MuxColumnOf(el, Reduce(x1, Q), Reduce(x2, Q), a, a', Q), Q)
    ensures Near(MuxColumnOf(el, Reduce(x1, Q), Reduce(x2, Q), a, a', Q),
                 Add(Add(el, Binomial(x1, a)), Binomial(x2, a')), 0, Q)
  {
    hide Close, Coef, Mul, Near, Reduce, Reduced, TableEntry, Binomial, AddQ, MulQ, Add;
    NearSelf(el, 0, Q);
    AddedProduct(el, el, x1, Reduce(x1, Q), a, Q);
    AddedProduct(AddQ(el, MulQ(Reduce(x1, Q), TableEntry(|el|, a, Q), Q), Q), Add(el, Binomial(x1, a)),
                 x2, Reduce(x2, Q), a', Q);
  }

  lemma AddedProduct(stored: Poly, exact: Poly, product: Poly, tmp: Poly, i: nat, Q: int)
    requires 0 < Q && |stored| == |product| && Near(stored, exact, 0, Q) && tmp == Reduce(product, Q)
    ensures |exact| == |product|
    ensures var r := AddQ(stored, MulQ(tmp, TableEntry(|product|, i, Q), Q), Q);
            Reduced(r, Q) && Near(r, Add(exact, Binomial(product, i)), 0, Q)
  {
    hide Close, Coef, Mul, Reduce, Reduced, TableEntry, Binomial;
    var entry := TableEntry(|product|, i, Q);
    var r := AddQ(stored, MulQ(tmp, entry, Q), Q);
    ReduceNear(product, Q);
    ReduceNear(Mul(tmp, entry), Q);
    ReduceNear(Add(stored, MulQ(tmp, entry, Q)), Q);
    NearMulCong(entry, tmp, product, Q);
    TableProduct(product, i, entry, Q);
    NearTrans(MulQ(tmp, entry, Q), Mul(tmp, entry), Mul(product, entry), 0, 0, Q);
    NearTrans(MulQ(tmp, entry, Q), Mul(product, entry), Binomial(product, i), 0, 0, Q);
    NearAdd(stored, exact, MulQ(tmp, entry, Q), Binomial(product, i), 0, 0, Q);
    NearTrans(r, Add(stored, MulQ(tmp, entry, Q)), Add(exact, Binomial(product, i)), 0, 0, Q);
  }

  lemma MuxExactPhase(el0: Poly, el1: Poly, ds: seq<Poly>, ek1: EvalKey, ek2: EvalKey, z: Poly, a: int, a': int)
    requires |el0| == |el1| == |z| && Polys(ds, |z|) && KeyShape(ek1, |ds|, |z|) && KeyShape(ek2, |ds|, |z|)
    ensures Phase(MuxExact(el0, ds, ek1, ek2, 0, |z|, a, a'), MuxExact(el1, ds, ek1, ek2, 1, |z|, a, a'), z)
         == Add(Add(Phase(el0, el1, z), Binomial(ProductPhase(ds, ek1, z), a)), Binomial(ProductPhase(ds, ek2, z), a'))
  {
    hide Coef, Mul, Binomial, Dot, Phase;
    var N := |z|;
    MuxPhase(el0, el1, FullDot(ds, Column(ek1, 0, N), N), FullDot(ds, Column(ek1, 1, N), N),
             FullDot(ds, Column(ek2, 0, N), N), FullDot(ds, Column(ek2, 1, N), N), z, a, a');
  }

  /** The binomial of one product is the binomial of mu * p plus that of the product's error. */
  lemma BinomialOfProduct(el0: Poly, el1: Poly, ek: EvalKey, mu: Poly, a: int, cx: Context)
    requires cx.Ok() && |el0| == |el1| == |mu| == cx.N && KeyShape(ek, 2 * (cx.L - 1), cx.N)
    requires Reduced(el0, cx.Q) && Reduced(el1, cx.Q)
    ensures Near(Binomial(ProductPhase(Interleaved(el0, el1, cx.Q, cx.B, cx.L), ek, cx.z), a),
                 Add(Binomial(Mul(mu, Phase(el0, el1, cx.z)), a),
                     Binomial(StepError(el0, el1, ek, mu, cx), a)), 0, cx.Q)
  {
    hide Close, Coef, Mul, Near, Reduced, IsPow2, Pow, Binomial, ProductPhase, ProductError, Phase, Interleaved, Add;
    var x, e := Mul(mu, Phase(el0, el1, cx.z)), StepError(el0, el1, ek, mu, cx);
    ExternalProductExact(el0, el1, ek, mu, cx.z, cx.B, cx.L, cx.Q);
    BinomialNear(ProductPhase(Interleaved(el0, el1, cx.Q, cx.B, cx.L), ek, cx.z), Add(x, e), a, 0, cx.Q);
    BinomialAdd(x, e, a);
  }

  lemma SumOfThree(p: Poly, x1: Poly, x2: Poly, y1: Poly, y2: Poly, e1: Poly, e2: Poly, Q: int)
    requires 0 < Q && |p| == |x1| == |x2| == |y1| == |y2| == |e1| == |e2|
    requires Near(x1, Add(y1, e1), 0, Q) && Near(x2, Add(y2, e2), 0, Q)
    ensures Near(Add(Add(p, x1), x2), Add(Add(Add(p, y1), y2), Add(e1, e2)), 0, Q)
  {
    hide Close, Near;
    NearSelf(p, 0, Q);
    NearAdd(p, p, x1, Add(y1, e1), 0, 0, Q);
    NearAdd(Add(p, x1), Add(p, Add(y1, e1)), x2, Add(y2, e2), 0, 0, Q);
    assert Add(Add(p, Add(y1, e1)), Add(y2, e2)) == Add(Add(Add(p, y1), y2), Add(e1, e2));
  }

  /** One MUX step turns the phase by s * a, with exactly the binomials of the two products' errors. */
  lemma MuxTurns(el0: Poly, el1: Poly, ek1: EvalKey, ek2: EvalKey, s: int, a: int, a': int, cx: Context)
    requires cx.Ok() && -1 <= s <= 1 && a' % (2 * cx.N) == (-a) % (2 * cx.N)
    requires |el0| == |el1| == cx.N && Reduced(el0, cx.Q) && Reduced(el1, cx.Q)
    requires KeyShape(ek1, 2 * (cx.L - 1), cx.N) && KeyShape(ek2, 2 * (cx.L - 1), cx.N)
    ensures var ds := Interleaved(el0, el1, cx.Q, cx.B, cx.L);
            Near(Phase(MuxExact(el0, ds, ek1, ek2, 0, cx.N, a, a'), MuxExact(el1, ds, ek1, ek2, 1, cx.N, a, a'), cx.z),
                 Add(Rot(Phase(el0, el1, cx.z), s * a), MuxError(el0, el1, ek1, ek2, s, a, a', cx)), 0, cx.Q)
  {
    hide Close, Coef, Mul, Near, Reduced, IsPow2, Pow, Binomial, ProductPhase, Phase, Interleaved, Rot, MuxExact,
         Selector, StepError, Add;
    var ds, p := Interleaved(el0, el1, cx.Q, cx.B, cx.L), Phase(el0, el1, cx.z);
    var mu1, mu2 := Selector(cx.N, s == 1), Selector(cx.N, s == -1);
    BinomialOfProduct(el0, el1, ek1, mu1, a, cx);
    BinomialOfProduct(el0, el1, ek2, mu2, a', cx);
    MuxExactPhase(el0, el1, ds, ek1, ek2, cx.z, a, a');
    MuxSelects(p, a, a', s);
    SumOfThree(p, Binomial(ProductPhase(ds, ek1, cx.z), a), Binomial(ProductPhase(ds, ek2, cx.z), a'),
               Binomial(Mul(mu1, p), a), Binomial(Mul(mu2, p), a'),
               Binomial(StepError(el0, el1, ek1, mu1, cx), a), Binomial(StepError(el0, el1, ek2, mu2, cx), a'), cx.Q);
  }

  /** The error of one MUX step. */
  ghost function MuxError(el0: Poly, el1: Poly, ek1: EvalKey, ek2: EvalKey, s: int, a: int, a': int,
                          cx: Context): (r: Poly)
    requires cx.Ok() && |el0| == |el1| == cx.N
    requires KeyShape(ek1, 2 * (cx.L - 1), cx.N) && KeyShape(ek2, 2 * (cx.L - 1), cx.N)
    ensures |r| == cx.N
  {
    Add(Binomial(StepError(el0, el1, ek1, Selector(cx.N, s == 1), cx), a),
        Binomial(StepError(el0, el1, ek2, Selector(cx.N, s == -1), cx), a'))
  }

  lemma MuxErrorBounded(el0: Poly, el1: Poly, ek1: EvalKey, ek2: EvalKey, s: int, a: int, a': int, cx: Context)
    requires cx.Ok() && TernaryPair(ek1, ek2, s, cx)
    requires |el0| == |el1| == cx.N && Reduced(el0, cx.Q) && Reduced(el1, cx.Q)
    ensures KeyShape(ek1, 2 * (cx.L - 1), cx.N) && KeyShape(ek2, 2 * (cx.L - 1), cx.N)
    ensures Bounded(MuxError(el0, el1, ek1, ek2, s, a, a', cx), 4 * cx.Eps())
  {
    hide Reduced, IsPow2, Pow, Binomial, StepError, Bounded, ProductNoise, Norm1, Selector, UnitMessage,
         EncryptsMessage, Add;
    var mu1, mu2 := Selector(cx.N, s == 1), Selector(cx.N, s == -1);
    StepErrorBounded(el0, el1, ek1, mu1, cx);
    StepErrorBounded(el0, el1, ek2, mu2, cx);
    BinomialBounded(StepError(el0, el1, ek1, mu1, cx), a, cx.Eps());
    BinomialBounded(StepError(el0, el1, ek2, mu2, cx), a', cx.Eps());
    BoundedAdd(Binomial(StepError(el0, el1, ek1, mu1, cx), a), Binomial(StepError(el0, el1, ek2, mu2, cx), a'),
               2 * cx.Eps(), 2 * cx.Eps());
  }

  /** AddToAccCGGI: the encrypted element is turned by s * a. */
  method AddToAccCGGI(params: RingGSWCryptoParams, ek1: EvalKey, ek2: EvalKey, a: int, acc: RLWECiphertext,
                      ghost si: int, ghost f: Poly, ghost e: int, ghost b: int, ghost cx: Context)
    requires params.Valid() && params.variant == GINX && cx == ContextOf(params, cx.z, cx.noise) && cx.Ok()
    requires 0 <= a <= 2 * params.N && TernaryPair(ek1, ek2, si, cx) && Holds(acc, cx, f, e, b)
    modifies acc
    ensures Holds(acc, cx, f, e + si * a, b + 4 * cx.Eps())
  {
    hide Close, Coef, Mul, Near, Reduced, IsPow2, Pow, Binomial, ProductPhase, ProductNoise, Norm1, UnitMessage, Phase,
         Rot, MuxColumnOf, EncryptsMessage, Selector, GateTable, StepError, Bounded, Traced, Add, FullDot, Reduce,
         Column;
    var Q, N := params.Q, params.N;
    ghost var en0, en1, err := acc.el0, acc.el1, acc.err;
    var digits := new Poly[2 * (params.digitsG - 1)](_ => Zero(N));
    SignedDigitDecompose(Q, params.baseG, params.digitsG, acc.el0, acc.el1, digits);
    var dct := digits[..];
    var MInt := 2 * N;
    var indexPos := if a == MInt then 0 else a;
    var neg := ModSubFast(0, a, MInt);
    var indexNeg := if neg == MInt then 0 else neg;
    MuxIndices(a, N, si);
    MuxErrorBounded(en0, en1, ek1, ek2, si, indexPos, indexNeg, cx);
    ghost var pe := MuxError(en0, en1, ek1, ek2, si, indexPos, indexNeg, cx);
    var r0 := MuxColumn(params, dct, ek1, ek2, 0, acc.el0, indexPos, indexNeg);
    var r1 := MuxColumn(params, dct, ek1, ek2, 1, acc.el1, indexPos, indexNeg);
    MuxFinish(en0, en1, r0, r1, ek1, ek2, f, err, si, indexPos, indexNeg, a, e, b, cx);
    ghost var en := Entry(en0, en1, err, Mux(ek1, ek2, si, indexPos, indexNeg));
    MuxPerformed(en, r0, r1, ek1, ek2, si, indexPos, indexNeg, cx);
    acc.el0 := r0;
    acc.el1 := r1;
    acc.err := Add(Rot(err, si * indexPos), pe);
    TracedSnoc(acc.start, acc.trace, en, r0, r1, acc.err, cx);
    acc.trace := acc.trace + [en];
  }

  lemma MuxIndices(a: int, N: nat, si: int)
    requires 0 < N && 0 <= a <= 2 * N
    ensures var p := if a == 2 * N then 0 else a;
            var g := ModSubFast(0, a, 2 * N);
            var n := if g == 2 * N then 0 else g;
            && 0 <= p < 2 * N && 0 <= n < 2 * N && n % (2 * N) == (-p) % (2 * N)
            && (si * p) % (2 * N) == (si * a) % (2 * N)
  {
    var p := if a == 2 * N then 0 else a;
    ModPlusMultiple(-p, 1, 2 * N);
    ModPlusMultiple(p, 1, 2 * N);
    ModMulCong(si, si, p, a, 2 * N);
  }

  /** The digits and columns of one MUX step. */
  ghost predicate MuxColumns(el0: Poly, el1: Poly, r0: Poly, r1: Poly, ek1: EvalKey, ek2: EvalKey, a: nat, a': nat,
                             cx: Context)
    requires cx.Ok() && |el0| == |el1| == cx.N
    requires KeyShape(ek1, 2 * (cx.L - 1), cx.N) && KeyShape(ek2, 2 * (cx.L - 1), cx.N)
  {
    && r0 == MuxColumnOf(el0, ProductColumn(el0, el1, ek1, 0, cx), ProductColumn(el0, el1, ek2, 0, cx), a, a', cx.Q)
    && r1 == MuxColumnOf(el1, ProductColumn(el0, el1, ek1, 1, cx), ProductColumn(el0, el1, ek2, 1, cx), a, a', cx.Q)
  }

  lemma MuxPerformed(en: Entry, r0: Poly, r1: Poly, ek1: EvalKey, ek2: EvalKey, s: int, a: nat, a': nat, cx: Context)
    requires cx.Ok() && |en.el0| == |en.el1| == |en.err| == cx.N && en.step == Mux(ek1, ek2, s, a, a')
    requires KeyShape(ek1, 2 * (cx.L - 1), cx.N) && KeyShape(ek2, 2 * (cx.L - 1), cx.N)
    requires MuxColumns(en.el0, en.el1, r0, r1, ek1, ek2, a, a', cx)
    ensures Performed(en, r0, r1, Add(Rot(en.err, s * a), MuxError(en.el0, en.el1, ek1, ek2, s, a, a', cx)), cx)
  {
    hide MuxColumnOf, Binomial, StepError, Selector, Rot, ProductColumn, IsPow2, Pow;
    var x, y := Binomial(StepError(en.el0, en.el1, ek1, Selector(cx.N, s == 1), cx), a),
                Binomial(StepError(en.el0, en.el1, ek2, Selector(cx.N, s == -1), cx), a');
    assert Add(Rot(en.err, s * a), Add(x, y)) == Add(Add(Rot(en.err, s * a), x), y);
  }

  lemma MuxFinish(el0: Poly, el1: Poly, r0: Poly, r1: Poly, ek1: EvalKey, ek2: EvalKey, f: Poly, err: Poly,
                  s: int, i: int, i': int, a: int, e: int, b: int, cx: Context)
    requires cx.Ok() && TernaryPair(ek1, ek2, s, cx) && |el0| == |el1| == |f| == |err| == cx.N
    requires Reduced(el0, cx.Q) && Reduced(el1, cx.Q) && 0 <= b && Bounded(err, b)
    requires KeyShape(ek1, 2 * (cx.L - 1), cx.N) && KeyShape(ek2, 2 * (cx.L - 1), cx.N)
    requires 0 <= i && 0 <= i' && MuxColumns(el0, el1, r0, r1, ek1, ek2, i, i', cx)
    requires Near(Phase(el0, el1, cx.z), Add(Rot(f, e), err), 0, cx.Q)
    requires i' % (2 * cx.N) == (-i) % (2 * cx.N) && (s * i) % (2 * cx.N) == (s * a) % (2 * cx.N)
    ensures |r0| == |r1| == cx.N && Reduced(r0, cx.Q) && Reduced(r1, cx.Q) && 0 <= b + 4 * cx.Eps()
    ensures var err' := Add(Rot(err, s * i), MuxError(el0, el1, ek1, ek2, s, i, i', cx));
            Near(Phase(r0, r1, cx.z), Add(Rot(f, e + s * a), err'), 0, cx.Q) && Bounded(err', b + 4 * cx.Eps())
  {
    hide Close, Coef, Mul, Near, IsPow2, Pow, ProductNoise, Norm1, Phase, Rot, MuxColumns, MuxError, Bounded,
         Reduced, UnitMessage, EncryptsMessage, Add;
    var pe := MuxError(el0, el1, ek1, ek2, s, i, i', cx);
    MuxStoredPhase(el0, el1, r0, r1, ek1, ek2, s, i, i', cx);
    TurnedError(Phase(r0, r1, cx.z), Phase(el0, el1, cx.z), f, e, s * i, s * a, err, pe, cx.Q);
    EpsNonNeg(cx);
    MuxErrorBounded(el0, el1, ek1, ek2, s, i, i', cx);
    BoundedRot(err, s * i, b);
    BoundedAdd(Rot(err, s * i), pe, b, 4 * cx.Eps());
  }

  /** The phase of the stored result of a MUX step. */
  lemma MuxStoredPhase(el0: Poly, el1: Poly, r0: Poly, r1: Poly, ek1: EvalKey, ek2: EvalKey, s: int, i: int, i': int,
                       cx: Context)
    requires cx.Ok() && -1 <= s <= 1 && |el0| == |el1| == cx.N && Reduced(el0, cx.Q) && Reduced(el1, cx.Q)
    requires KeyShape(ek1, 2 * (cx.L - 1), cx.N) && KeyShape(ek2, 2 * (cx.L - 1), cx.N)
    requires 0 <= i && 0 <= i' && MuxColumns(el0, el1, r0, r1, ek1, ek2, i, i', cx)
    requires i' % (2 * cx.N) == (-i) % (2 * cx.N)
    ensures |r0| == |r1| == cx.N && Reduced(r0, cx.Q) && Reduced(r1, cx.Q)
    ensures Near(Phase(r0, r1, cx.z), Add(Rot(Phase(el0, el1, cx.z), s * i),
                                          MuxError(el0, el1, ek1, ek2, s, i, i', cx)), 0, cx.Q)
  {
    hide Close, Coef, Mul, Near, IsPow2, Pow, Phase, Rot, MuxColumnOf, MuxError, FullDot, Reduce, Column, Reduced,
         Interleaved,
         Add, Binomial;
    var ds, pe := Interleaved(el0, el1, cx.Q, cx.B, cx.L), MuxError(el0, el1, ek1, ek2, s, i, i', cx);
    MuxColumnNear(el0, FullDot(ds, Column(ek1, 0, cx.N), cx.N), FullDot(ds, Column(ek2, 0, cx.N), cx.N), i, i', cx.Q);
    MuxColumnNear(el1, FullDot(ds, Column(ek1, 1, cx.N), cx.N), FullDot(ds, Column(ek2, 1, cx.N), cx.N), i, i', cx.Q);
    var x0, x1 := MuxExact(el0, ds, ek1, ek2, 0, cx.N, i, i'), MuxExact(el1, ds, ek1, ek2, 1, cx.N, i, i');
    CongruentPhase(r0, r1, x0, x1, cx.z, cx.Q);
    MuxTurns(el0, el1, ek1, ek2, s, i, i', cx);
    NearTrans(Phase(r0, r1, cx.z), Phase(x0, x1, cx.z), Add(Rot(Phase(el0, el1, cx.z), s * i), pe), 0, 0, cx.Q);
  }

  lemma TurnedError(p': Poly, p: Poly, f: Poly, e: int, m: int, m': int, err: Poly, pe: Poly, Q: int)
    requires 0 < Q && |p| == |f| == |err| == |pe| && 0 < |p| && m % (2 * |p|) == m' % (2 * |p|)
    requires Near(p, Add(Rot(f, e), err), 0, Q) && Near(p', Add(Rot(p, m), pe), 0, Q)
    ensures Near(p', Add(Rot(f, e + m'), Add(Rot(err, m), pe)), 0, Q)
  {
    hide Close, Coef, Near, Rot;
    NearRot(p, Add(Rot(f, e), err), m, 0, Q);
    RotAdd(Rot(f, e), err, m);
    RotRot(f, e, m);
    RotCong(f, e + m, e + m') by {
      ModAddCong(e, e, m, m', 2 * |p|);
    }
    AddedErrors(p', Rot(p, m), pe, Rot(f, e + m'), Rot(err, m), Q);
    assert Add(pe, Rot(err, m)) == Add(Rot(err, m), pe);
  }

  /**
    EvalAcc: acc is turned by (2N/mod) * sum of s_i * (-a_i mod mod), for any ciphertext modulus
    dividing 2N and every ternary secret.
   */
  method EvalAcc(params: RingGSWCryptoParams, ek: AccKey, acc: RLWECiphertext, a: seq<int>, mod: int,
                 ghost s: seq<int>, ghost f: Poly, ghost cx: Context)
    requires params.Valid() && params.variant == GINX && cx == ContextOf(params, cx.z, cx.noise) && cx.Ok()
    requires 0 < mod && (2 * params.N) % mod == 0 && |a| == |s| && Residues(a, mod) && TernaryKeys(ek, s, cx)
    requires Holds(acc, cx, f, 0, 0)
    modifies acc
    ensures Holds(acc, cx, f, Stretch(cx.N, mod) * Inner(NegVector(a, mod), s, |a|), |a| * (4 * cx.Eps()))
  {
    hide Close, Coef, Near, IsPow2, Pow, ProductNoise, Norm1, Rot, Holds, TernaryPair, GateTable;
    var MbyMod := 2 * params.N / mod;
    StretchExact(params.N, mod);
    ghost var c, eps := Stretch(cx.N, mod), 4 * cx.Eps();
    assert c * 0 == 0 && 0 * eps == 0;
    for i := 0 to |a|
      invariant Holds(acc, cx, f, c * Inner(NegVector(a, mod), s, i), i * eps)
    {
      var x := ModSubFast(0, a[i], mod);
      StretchedEntry(Inner(NegVector(a, mod), s, i), x, s[i], c, mod, params.N);
      CountStep(i, eps);
      AddToAccCGGI(params, ek[0][0][i], ek[0][1][i], x * MbyMod, acc, s[i], f,
                   c * Inner(NegVector(a, mod), s, i), i * eps, cx);
    }
  }

  lemma StretchedEntry(E: int, x: int, s: int, c: int, mod: int, N: nat)
    requires 0 <= x < mod && 0 < c && 2 * N == c * mod
    ensures 0 <= x * c <= 2 * N
    ensures c * E + s * (x * c) == c * (E + x * s)
  {
    Arithmetic.MulMonotone(c, x, mod);
    assert c * x == x * c;
    MulNonNeg(x, c);
    assert c * (E + x * s) == c * E + c * (x * s);
    assert s * (x * c) == c * (x * s) by {
      MulAssoc(c, x, s);
    }
  }
}
