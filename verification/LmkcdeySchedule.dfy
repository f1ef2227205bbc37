/**
  EvalAcc of the LMKCDEY accumulator (src/binfhe/lib/rgsw-acc-lmkcdey.cpp:68-156): the windowed
  schedule of automorphisms and key products is one rotation by (2N/q) * sum of s_i * o_i, where
  o_i is -a_i modulo 2N made odd.
 */
module LmkcdeySchedule {
  import opened Arithmetic
  import opened NegacyclicRing
  import opened Automorphisms
  import opened RingNoise
  import opened FivePowers
  import opened RgswParams
  import opened ExternalProduct
  import opened Accumulator
  import opened LweBasics
  import opened AccumulatorDM
  import opened AccumulatorLMKCDEY

  // ---------------------------------------------------------------------------
  // Buckets
  // ---------------------------------------------------------------------------

  /** x | 1. */
  function MakeOdd(x: int): (o: int)
    ensures o % 2 == 1 && x <= o <= x + 1
  {
    if x % 2 == 0 then x + 1 else x
  }

  /** -a_i modulo M where that is odd, and the value above it where it is even. */
  function OddVector(a: seq<int>, M: int): (r: seq<int>)
    ensures |r| == |a|
    ensures 0 < M && Residues(a, M) ==>
      forall i :: 0 <= i < |a| ==> r[i] % 2 == 1 && (-a[i]) % M <= r[i] <= (-a[i]) % M + 1
  {
    assert 0 < M && Residues(a, M) ==> forall i :: 0 <= i < |a| ==> ModSubFast(0, a[i], M) == (-a[i]) % M by {
      if 0 < M && Residues(a, M) {
        forall i | 0 <= i < |a|
          ensures ModSubFast(0, a[i], M) == (-a[i]) % M
        {
          NegatedResidue(a[i], M);
        }
      }
    }
    seq(|a|, i requires 0 <= i < |a| => MakeOdd(ModSubFast(0, a[i], M)))
  }

  lemma NegatedResidue(x: int, M: int)
    requires 0 <= x < M
    ensures ModSubFast(0, x, M) == (-x) % M
  {
    DivModIs(-x, M, if x == 0 then 0 else -1, if x == 0 then 0 else M - x);
  }

  lemma OddRange(x: int, M: int)
    requires 0 < M && M % 2 == 0 && 0 <= x < M
    ensures 0 <= MakeOdd(ModSubFast(0, x, M)) < M
  {
    var y := ModSubFast(0, x, M);
    assert 0 <= y < M;
    if y % 2 == 0 {
      assert y != M - 1;
    }
  }

  /** Positions before n whose key is b, in order. */
  function Bucket(keys: seq<int>, b: int, n: nat): (r: seq<int>)
    requires n <= |keys|
    ensures forall j :: 0 <= j < |r| ==> 0 <= r[j] < n
  {
    if n == 0 then []
    else if keys[n - 1] == b then Bucket(keys, b, n - 1) + [n - 1]
    else Bucket(keys, b, n - 1)
  }

  /** Sum of vals over the positions whose key is in D. */
  function SumWhere(keys: seq<int>, vals: seq<int>, D: set<int>, n: nat): int
    requires n <= |keys| && n <= |vals|
  {
    if n == 0 then 0
    else SumWhere(keys, vals, D, n - 1) + (if keys[n - 1] in D then vals[n - 1] else 0)
  }

  /** Sum of vals over a list of positions. */
  function SumAt(vals: seq<int>, positions: seq<int>): int
    requires forall j :: 0 <= j < |positions| ==> 0 <= positions[j] < |vals|
  {
    if |positions| == 0 then 0
    else SumAt(vals, positions[..|positions| - 1]) + vals[positions[|positions| - 1]]
  }

  lemma SumAtSnoc(vals: seq<int>, positions: seq<int>, p: int)
    requires 0 <= p < |vals| && forall j :: 0 <= j < |positions| ==> 0 <= positions[j] < |vals|
    ensures SumAt(vals, positions + [p]) == SumAt(vals, positions) + vals[p]
  {
    assert (positions + [p])[..|positions|] == positions;
  }

  lemma DrainStep(keys: seq<int>, vals: seq<int>, D: set<int>, b: int, n: nat)
    requires 0 < n <= |keys| && n <= |vals| && b !in D
    requires SumWhere(keys, vals, D + {b}, n - 1)
          == SumWhere(keys, vals, D, n - 1) + SumAt(vals, Bucket(keys, b, n - 1))
    ensures SumWhere(keys, vals, D + {b}, n) == SumWhere(keys, vals, D, n) + SumAt(vals, Bucket(keys, b, n))
  {
    hide SumAt;
    if keys[n - 1] == b {
      SumAtSnoc(vals, Bucket(keys, b, n - 1), n - 1);
    }
  }

  /** Draining one more bucket adds exactly its positions. */
  lemma {:induction false} DrainAdds(keys: seq<int>, vals: seq<int>, D: set<int>, b: int, n: nat)
    requires n <= |keys| && n <= |vals| && b !in D
    ensures SumWhere(keys, vals, D + {b}, n) == SumWhere(keys, vals, D, n) + SumAt(vals, Bucket(keys, b, n))
  {
    if n != 0 {
      DrainAdds(keys, vals, D, b, n - 1);
      DrainStep(keys, vals, D, b, n);
    } else {
      assert SumAt(vals, []) == 0;
    }
  }

  function Products(o: seq<int>, s: seq<int>): (r: seq<int>)
    requires |o| == |s|
    ensures |r| == |s|
  {
    seq(|s|, i requires 0 <= i < |s| => o[i] * s[i])
  }

  function Ones(n: nat): (r: seq<int>)
    ensures |r| == n
  {
    seq(n, _ => 1)
  }

  /** Once every key is drained every position has been counted once. */
  lemma {:induction false} SumOfOnes(keys: seq<int>, D: set<int>, n: nat, m: nat)
    requires n <= |keys| && n <= m
    requires forall i :: 0 <= i < n ==> keys[i] in D
    ensures SumWhere(keys, Ones(m), D, n) == n
  {
    if n != 0 {
      SumOfOnes(keys, D, n - 1, m);
    }
  }

  lemma {:induction false} SumOfProducts(keys: seq<int>, o: seq<int>, s: seq<int>, D: set<int>, n: nat)
    requires |o| == |s| && n <= |keys| && n <= |s|
    requires forall i :: 0 <= i < n ==> keys[i] in D
    ensures SumWhere(keys, Products(o, s), D, n) == Inner(o, s, n)
  {
    if n != 0 {
      SumOfProducts(keys, o, s, D, n - 1);
    }
  }

  lemma {:induction false} CountAt(m: nat, positions: seq<int>)
    requires forall j :: 0 <= j < |positions| ==> 0 <= positions[j] < m
    ensures SumAt(Ones(m), positions) == |positions|
  {
    if |positions| != 0 {
      CountAt(m, positions[..|positions| - 1]);
    }
  }

  /** All entries of one bucket have the same residue P, so their products are P times the secrets. */
  lemma {:induction false} BucketProducts(keys: seq<int>, o: seq<int>, s: seq<int>, b: int, P: int, M: int, n: nat)
    requires 0 < M && |o| == |s| == |keys| && n <= |keys|
    requires forall i :: 0 <= i < n && keys[i] == b ==> o[i] % M == P % M
    ensures SumAt(Products(o, s), Bucket(keys, b, n)) % M == (SumAt(s, Bucket(keys, b, n)) * P) % M
  {
    if n != 0 {
      BucketProducts(keys, o, s, b, P, M, n - 1);
      if keys[n - 1] == b {
        var B := Bucket(keys, b, n - 1);
        SumAtSnoc(Products(o, s), B, n - 1);
        SumAtSnoc(s, B, n - 1);
        BucketProductStep(SumAt(Products(o, s), B), SumAt(s, B), o[n - 1], s[n - 1], P, M);
      }
    }
  }

  lemma BucketProductStep(X: int, S: int, o: int, s: int, P: int, M: int)
    requires 0 < M && X % M == (S * P) % M && o % M == P % M
    ensures (X + o * s) % M == ((S + s) * P) % M
  {
    ModMulCong(o, P, s, s, M);
    ModAddCong(X, S * P, o * s, P * s, M);
    assert (S + s) * P == S * P + P * s;
  }

  // ---------------------------------------------------------------------------
  // State of a run
  // ---------------------------------------------------------------------------

  /** What stays fixed over one EvalAcc call; twists is the number of automorphisms before it. */
  datatype Job = Job(f: Poly, keys: seq<int>, s: seq<int>, o: seq<int>, twists: nat) {

    ghost predicate Ok(cx: Context) {
      && cx.Ok() && |f| == cx.N && |keys| == |s| == |o|
      && forall i :: 0 <= i < |o| ==> o[i] % (2 * cx.N) == BucketFactor(keys[i], cx.N) % (2 * cx.N)
    }

    /** Products drained so far. */
    function Drained(done: set<int>): int
      requires |keys| == |s| == |o|
    {
      SumWhere(keys, Products(o, s), done, |s|)
    }

    function Count(done: set<int>): int
      requires |keys| == |s|
    {
      SumWhere(keys, Ones(|s|), done, |s|)
    }
  }

  /**
    The accumulator encrypts f(X^twist) * X^e, and the automorphisms still to come compose to
    X -> X^pending. adds and autos count the key products and automorphisms done.
   */
  datatype Run = Run(twist: int, e: int, pending: int, adds: int, autos: int, done: set<int>)

  function RunNoise(cx: Context, run: Run): int {
    run.adds * cx.Eps() + run.autos * cx.AutoEps()
  }

  ghost predicate InStep(acc: RLWECiphertext, cx: Context, job: Job, run: Run)
    reads acc
  {
    && job.Ok(cx) && run.twist % 2 == 1
    && Holds(acc, cx, Auto(job.f, run.twist), run.e, RunNoise(cx, run))
    && Phased(cx, job, run)
    && Twists(acc.trace) == job.twists + run.autos
  }

  /** After the pending automorphisms f is untwisted and the exponent is what was drained. */
  ghost predicate Phased(cx: Context, job: Job, run: Run)
    requires job.Ok(cx)
  {
    && (run.twist * run.pending) % (2 * cx.N) == 1
    && (run.e * run.pending) % (2 * cx.N) == (Stretch(cx.N, cx.q) * job.Drained(run.done)) % (2 * cx.N)
    && run.adds == job.Count(run.done)
  }

  /** One automorphism by t consumes the factor t of what is pending. */
  lemma RotatePhased(cx: Context, job: Job, run: Run, t: int, rest: int, run': Run)
    requires job.Ok(cx) && Phased(cx, job, run) && (t * rest) % (2 * cx.N) == run.pending % (2 * cx.N)
    requires run' == run.(twist := run.twist * t, e := run.e * t, pending := rest, autos := run.autos + 1)
    ensures Phased(cx, job, run')
  {
    var M := 2 * cx.N;
    ModMulCong(run.twist, run.twist, t * rest, run.pending, M);
    ModMulCong(run.e, run.e, t * rest, run.pending, M);
    MulAssoc(run.twist, t, rest);
    MulAssoc(run.e, t, rest);
  }

  lemma RunNoiseAuto(cx: Context, run: Run, run': Run)
    requires run'.adds == run.adds && run'.autos == run.autos + 1
    ensures RunNoise(cx, run') == RunNoise(cx, run) + cx.AutoEps()
  {
    hide ProductNoise, AutoNoise;
    var x := cx.AutoEps();
    assert (run.autos + 1) * x == run.autos * x + x;
  }

  lemma RunNoiseAdds(cx: Context, run: Run, run': Run, k: int)
    requires run'.adds == run.adds + k && run'.autos == run.autos
    ensures RunNoise(cx, run') == RunNoise(cx, run) + k * cx.Eps()
  {
    hide ProductNoise, AutoNoise;
    var x := cx.Eps();
    assert (run.adds + k) * x == run.adds * x + k * x;
  }

  method Rotate(params: RingGSWCryptoParams, t: int, ak: EvalKey, acc: RLWECiphertext,
                ghost rest: int, ghost run: Run, ghost job: Job, ghost cx: Context)
    returns (ghost run': Run)
    requires params.Valid() && cx == ContextOf(params, cx.z, cx.noise) && SwitchKey(ak, t, cx)
    requires InStep(acc, cx, job, run) && (t * rest) % (2 * cx.N) == run.pending % (2 * cx.N)
    modifies acc
    ensures InStep(acc, cx, job, run')
    ensures run'.pending == rest && run'.done == run.done && run'.adds == run.adds && run'.autos == run.autos + 1
  {
    hide Holds, Auto, AutoNoise, ProductNoise, IsPow2, Pow, SwitchesAuto, Phased, GateTable, RunNoise;
    run' := run.(twist := run.twist * t, e := run.e * t, pending := rest, autos := run.autos + 1);
    AutoAuto(job.f, run.twist, t);
    Automorphism(params, t, ak, acc, Auto(job.f, run.twist), run.e, RunNoise(cx, run), cx);
    RotatePhased(cx, job, run, t, rest, run');
    RunNoiseAuto(cx, run, run');
  }

  /** Draining the bucket whose residue is what is pending. */
  lemma DrainPhased(cx: Context, job: Job, run: Run, b: int, run': Run)
    requires job.Ok(cx) && Phased(cx, job, run) && b !in run.done
    requires run.pending % (2 * cx.N) == BucketFactor(b, cx.N) % (2 * cx.N)
    requires var S := SumAt(job.s, Bucket(job.keys, b, |job.s|));
             run' == run.(e := run.e + Stretch(cx.N, cx.q) * S, adds := run.adds + |Bucket(job.keys, b, |job.s|)|,
                          done := run.done + {b})
    ensures Phased(cx, job, run')
  {
    hide SumAt, SumWhere, Bucket, Products, Ones, BucketFactor;
    var n, M, P, c := |job.s|, 2 * cx.N, run.pending, Stretch(cx.N, cx.q);
    var B := Bucket(job.keys, b, n);
    DrainAdds(job.keys, Products(job.o, job.s), run.done, b, n);
    DrainAdds(job.keys, Ones(n), run.done, b, n);
    CountAt(n, B);
    BucketProducts(job.keys, job.o, job.s, b, P, M, n);
    DrainExponent(run.e, P, c, SumAt(job.s, B), job.Drained(run.done), SumAt(Products(job.o, job.s), B), M);
  }

  lemma DrainExponent(e: int, P: int, c: int, S: int, D: int, X: int, M: int)
    requires 0 < M && (e * P) % M == (c * D) % M && X % M == (S * P) % M
    ensures ((e + c * S) * P) % M == (c * (D + X)) % M
  {
    ModMulCong(c, c, X, S * P, M);
    MulAssoc(c, S, P);
    ModAddCong(e * P, c * D, c * (S * P), c * X, M);
    assert (e + c * S) * P == e * P + c * S * P;
    assert c * (D + X) == c * D + c * X;
  }

  /** An empty bucket counts as drained without a step. */
  lemma SkipPhased(cx: Context, job: Job, run: Run, b: int)
    requires job.Ok(cx) && Phased(cx, job, run) && b !in run.done && Bucket(job.keys, b, |job.s|) == []
    ensures Phased(cx, job, run.(done := run.done + {b}))
  {
    DrainAdds(job.keys, Products(job.o, job.s), run.done, b, |job.s|);
    DrainAdds(job.keys, Ones(|job.s|), run.done, b, |job.s|);
  }

  /** permuteMap lists exactly the non-empty buckets. */
  ghost predicate BucketMap(permuteMap: map<int, seq<int>>, keys: seq<int>, n: nat)
    requires n <= |keys|
  {
    forall b :: if b in permuteMap then permuteMap[b] == Bucket(keys, b, n) && |permuteMap[b]| > 0
                else Bucket(keys, b, n) == []
  }

  /** Key products at the listed positions. */
  method TurnAtPositions(params: RingGSWCryptoParams, ek: AccKey, indexVec: seq<int>, acc: RLWECiphertext,
                         ghost s: seq<int>, ghost g: Poly, ghost e0: int, ghost b0: int, ghost cx: Context)
    requires params.Valid() && cx == ContextOf(params, cx.z, cx.noise) && cx.Ok()
    requires LMKKeys(ek, s, cx, params.numAutoKeys)
    requires (forall j :: 0 <= j < |indexVec| ==> 0 <= indexVec[j] < |s|) && Holds(acc, cx, g, e0, b0)
    modifies acc
    ensures Holds(acc, cx, g, e0 + Stretch(cx.N, cx.q) * SumAt(s, indexVec), b0 + |indexVec| * cx.Eps())
    ensures Twists(acc.trace) == Twists(old(acc.trace))
  {
    hide Holds, AutoNoise, ProductNoise, IsPow2, Pow, SwitchesAuto, GateTable, EncryptsMessage, UnitMessage, Stretch,
         SwitchKey;
    ghost var c := Stretch(cx.N, cx.q);
    ZeroSteps(c, cx.Eps(), s, indexVec);
    for j := 0 to |indexVec|
      invariant Holds(acc, cx, g, e0 + c * SumAt(s, indexVec[..j]), b0 + j * cx.Eps())
      invariant Twists(acc.trace) == Twists(old(acc.trace))
    {
      PositionStep(c, s, indexVec, j);
      CountStep(j, cx.Eps());
      TurnAcc(params, ek[0][0][indexVec[j]], acc, cx, g, e0 + c * SumAt(s, indexVec[..j]), c * s[indexVec[j]],
              b0 + j * cx.Eps());
    }
    assert indexVec[..|indexVec|] == indexVec;
  }

  lemma ZeroSteps(c: int, eps: int, s: seq<int>, v: seq<int>)
    ensures c * SumAt(s, v[..0]) == 0 && 0 * eps == 0
  {}

  lemma PositionStep(c: int, s: seq<int>, v: seq<int>, j: nat)
    requires j < |v| && forall i :: 0 <= i < |v| ==> 0 <= v[i] < |s|
    ensures c * SumAt(s, v[..j + 1]) == c * SumAt(s, v[..j]) + c * s[v[j]]
  {
    var S := SumAt(s, v[..j]);
    assert v[..j + 1] == v[..j] + [v[j]];
    SumAtSnoc(s, v[..j], v[j]);
    assert SumAt(s, v[..j + 1]) == S + s[v[j]];
    ExponentStep(c, S, s[v[j]]);
  }

  /** All key products of one bucket. */
  method DrainBucket(params: RingGSWCryptoParams, ek: AccKey, indexVec: seq<int>, acc: RLWECiphertext,
                     ghost b: int, ghost run: Run, ghost job: Job, ghost cx: Context)
    returns (ghost run': Run)
    requires params.Valid() && cx == ContextOf(params, cx.z, cx.noise) && LMKKeys(ek, job.s, cx, params.numAutoKeys)
    requires InStep(acc, cx, job, run) && b !in run.done && indexVec == Bucket(job.keys, b, |job.s|)
    requires run.pending % (2 * cx.N) == BucketFactor(b, cx.N) % (2 * cx.N)
    modifies acc
    ensures InStep(acc, cx, job, run')
    ensures run'.pending == run.pending && run'.done == run.done + {b}
    ensures run'.adds == run.adds + |indexVec| && run'.autos == run.autos
  {
    hide Holds, Auto, AutoNoise, ProductNoise, IsPow2, Pow, SwitchesAuto, Phased, GateTable, RunNoise, LMKKeys,
         Stretch, BucketFactor;
    TurnAtPositions(params, ek, indexVec, acc, job.s, Auto(job.f, run.twist), run.e, RunNoise(cx, run), cx);
    run' := run.(e := run.e + Stretch(cx.N, cx.q) * SumAt(job.s, indexVec), adds := run.adds + |indexVec|,
                 done := run.done + {b});
    DrainPhased(cx, job, run, b, run');
    RunNoiseAdds(cx, run, run', |indexVec|);
  }

  lemma ExponentStep(c: int, S: int, s: int)
    ensures c * (S + s) == c * S + c * s
  {}

  // ---------------------------------------------------------------------------
  // One sweep through the powers of 5
  // ---------------------------------------------------------------------------

  /** Bucket keys sign * j for lo < j < hi. */
  ghost function SweepKeys(sign: int, lo: int, hi: int): set<int> {
    set j: int | lo < j < hi :: sign * j
  }

  lemma SweepKeysStep(sign: int, i: int, hi: int)
    requires (sign == 1 || sign == -1) && 0 < i < hi
    ensures SweepKeys(sign, i - 1, hi) == SweepKeys(sign, i, hi) + {sign * i}
    ensures sign * i !in SweepKeys(sign, i, hi)
  {
    assert SweepKeys(sign, i - 1, hi) == SweepKeys(sign, i, hi) + {sign * i} by {
      forall x ensures x in SweepKeys(sign, i - 1, hi) <==> x in SweepKeys(sign, i, hi) + {sign * i} {
        if x in SweepKeys(sign, i - 1, hi) {
          var j :| i - 1 < j < hi && x == sign * j;
          assert j == i || i < j;
        }
      }
    }
  }

  /** The rotation by 5^n leaves sign * 5^i of sign * 5^(n + i) pending. */
  lemma FiveRest(sign: int, n: nat, i: nat, M: int)
    requires 0 < M
    ensures (FivePow(n, M) * (sign * Pow(5, i))) % M == (sign * Pow(5, n + i)) % M
  {
    PowAdd(5, n, i);
    ModMod(Pow(5, n), M);
    ModMulCong(FivePow(n, M), Pow(5, n), sign * Pow(5, i), sign * Pow(5, i), M);
    assert Pow(5, n) * (sign * Pow(5, i)) == sign * (Pow(5, n) * Pow(5, i)) by {
      MulAssoc(sign, Pow(5, n), Pow(5, i));
      MulAssoc(Pow(5, n), sign, Pow(5, i));
    }
  }

  lemma BucketFactorSigned(sign: int, i: nat, N: nat)
    requires (sign == 1 || sign == -1) && 0 < i < N
    ensures BucketFactor(sign * i, N) == sign * Pow(5, i)
  {
    hide Pow;
    if sign == 1 {
      assert sign * i == i;
    } else {
      assert sign * i == 0 - i;
    }
  }

  /** Bucket sign * i, flushing skipped rotations first when there is something to drain. */
  method SweepStep(params: RingGSWCryptoParams, ek: AccKey, permuteMap: map<int, seq<int>>, sign: int, i: nat,
                   nSkips: nat,
                   acc: RLWECiphertext, ghost run: Run, ghost job: Job, ghost cx: Context)
    returns (skips: nat, ghost run': Run)
    requires params.Valid() && cx == ContextOf(params, cx.z, cx.noise) && LMKKeys(ek, job.s, cx, params.numAutoKeys)
    requires |job.keys| == |job.s| && BucketMap(permuteMap, job.keys, |job.s|) && InStep(acc, cx, job, run)
    requires (sign == 1 || sign == -1) && 0 < i < cx.N && nSkips < params.numAutoKeys
    requires run.pending == sign * Pow(5, nSkips + i) && sign * i !in run.done
    modifies acc
    ensures InStep(acc, cx, job, run') && run'.done == run.done + {sign * i}
    ensures run'.pending == sign * Pow(5, skips + i)
    ensures run'.adds >= run.adds && (skips == nSkips || skips == 0)
    ensures run.autos <= run'.autos <= run.autos + (if sign * i in permuteMap then 1 else 0)
  {
    hide Holds, Auto, AutoNoise, ProductNoise, IsPow2, Pow, SwitchesAuto, Phased, GateTable, RunNoise, EncryptsMessage,
         UnitMessage, Stretch, FivePow, BucketFactor;
    skips, run' := nSkips, run;
    if sign * i in permuteMap {
      if skips != 0 {
        FiveRest(sign, skips, i, 2 * cx.N);
        run' := Rotate(params, FivePow(skips, 2 * params.N), ek[0][1][skips], acc, sign * Pow(5, i), run', job, cx);
        skips := 0;
      }
      BucketFactorSigned(sign, i, cx.N);
      run' := DrainBucket(params, ek, permuteMap[sign * i], acc, sign * i, run', job, cx);
    } else {
      SkipPhased(cx, job, run, sign * i);
      run' := run.(done := run.done + {sign * i});
      assert RunNoise(cx, run') == RunNoise(cx, run) by { SameNoise(cx, run, run'); }
    }
  }

  lemma SameNoise(cx: Context, run: Run, run': Run)
    requires run'.adds == run.adds && run'.autos == run.autos
    ensures RunNoise(cx, run') == RunNoise(cx, run)
  {}

  /**
    Buckets sign * (N/2 - 1) down to sign * 1. Rotations are skipped over empty buckets and
    applied in windows of at most numAutoKeys; together they are X -> X^(5^(N/2 - 1)).
   */
  method Sweep(params: RingGSWCryptoParams, ek: AccKey, permuteMap: map<int, seq<int>>, sign: int,
               acc: RLWECiphertext, ghost run: Run, ghost job: Job, ghost cx: Context)
    returns (ghost run': Run)
    requires params.Valid() && cx == ContextOf(params, cx.z, cx.noise) && LMKKeys(ek, job.s, cx, params.numAutoKeys)
    requires |job.keys| == |job.s| && BucketMap(permuteMap, job.keys, |job.s|) && InStep(acc, cx, job, run)
    requires (sign == 1 || sign == -1) && 4 <= cx.N
    requires run.pending == sign * Pow(5, cx.N / 2 - 1) && run.done !! SweepKeys(sign, 0, cx.N / 2)
    modifies acc
    ensures InStep(acc, cx, job, run') && run'.pending == sign * Pow(5, 0)
    ensures run'.done == run.done + SweepKeys(sign, 0, cx.N / 2) && run.adds <= run'.adds
    ensures run'.autos <= run.autos + (cx.N / 2 - 1) / params.numAutoKeys + 1
                                    + NonEmptyIn(permuteMap.Keys, sign, 0, cx.N / 2)
  {
    hide Holds, Auto, AutoNoise, ProductNoise, IsPow2, Pow, SwitchesAuto, Phased, GateTable, RunNoise, EncryptsMessage,
         UnitMessage, Stretch, FivePow, BucketFactor, InStep, BucketMap, RingGSWCryptoParams.Valid, SwitchKey,
         SweepKeys, NonEmptyIn;
    assert 1 <= params.numAutoKeys && params.N == cx.N by { WindowPositive(params, cx); }
    var Nh, w := params.N / 2, params.numAutoKeys;
    var nSkips, i := 0, Nh - 1;
    run' := run;
    ghost var windows, flushes, last := 0, 0, 0;
    assert SweepKeys(sign, i, Nh) == {} by { NoSweepKeys(sign, Nh); }
    while i > 0
      invariant 0 <= i < Nh && 0 <= nSkips < w && (i == 0 ==> nSkips == 0) && 0 <= last <= (if i == 0 then 1 else 0)
      invariant InStep(acc, cx, job, run') && run'.pending == sign * Pow(5, nSkips + i)
      invariant run'.done == run.done + SweepKeys(sign, i, Nh)
      invariant 0 <= windows && windows * w + nSkips <= Nh - 1 - i
      invariant 0 <= flushes <= NonEmptyIn(permuteMap.Keys, sign, i, Nh) && run.adds <= run'.adds
      invariant run'.autos <= run.autos + windows + flushes + last
    {
      SweepKeysStep(sign, i, Nh);
      OneMoreKey(permuteMap.Keys, sign, i, Nh);
      assert sign * i in SweepKeys(sign, 0, Nh) by { SweepKeyIn(sign, i, Nh); }
      ghost var was := run';
      nSkips, run' := SweepStep(params, ek, permuteMap, sign, i, nSkips, acc, run', job, cx);
      flushes := flushes + (run'.autos - was.autos);
      nSkips := nSkips + 1;
      if nSkips == w || i == 1 {
        assert nSkips - 1 + i == nSkips + (i - 1);
        FiveRest(sign, nSkips, i - 1, 2 * cx.N);
        assert SwitchKey(ek[0][1][nSkips], FivePow(nSkips, 2 * cx.N), cx);
        run' := Rotate(params, FivePow(nSkips, 2 * params.N), ek[0][1][nSkips], acc, sign * Pow(5, i - 1), run', job,
                       cx);
        if nSkips == w {
          windows := windows + 1;
        } else {
          last := 1;
        }
        nSkips := 0;
      }
      i := i - 1;
    }
    WindowCount(windows, w, Nh - 1);
  }

  lemma WindowPositive(params: RingGSWCryptoParams, cx: Context)
    requires params.Valid() && cx == ContextOf(params, cx.z, cx.noise)
    ensures 1 <= params.numAutoKeys && params.N == cx.N
  {}

  /** How many of the bucket keys sign * j, lo < j < hi, are in K. */
  ghost function NonEmptyIn(K: set<int>, sign: int, lo: int, hi: int): nat {
    |K * SweepKeys(sign, lo, hi)|
  }

  lemma OneMoreKey(K: set<int>, sign: int, i: int, hi: int)
    requires (sign == 1 || sign == -1) && 0 < i < hi
    ensures NonEmptyIn(K, sign, i - 1, hi) == NonEmptyIn(K, sign, i, hi) + (if sign * i in K then 1 else 0)
  {
    hide SweepKeys;
    SweepKeysStep(sign, i, hi);
    var S, b := SweepKeys(sign, i, hi), sign * i;
    if b in K {
      assert K * (S + {b}) == K * S + {b};
    } else {
      assert K * (S + {b}) == K * S;
    }
  }

  lemma SweepKeyIn(sign: int, i: int, Nh: int)
    requires 0 < i < Nh
    ensures sign * i in SweepKeys(sign, 0, Nh)
  {}

  lemma NoSweepKeys(sign: int, Nh: int)
    ensures SweepKeys(sign, Nh - 1, Nh) == {}
  {}

  lemma WindowCount(windows: int, w: int, total: int)
    requires 0 < w && windows * w <= total
    ensures windows <= total / w
  {
    var d := total / w;
    assert total < w * (d + 1);
    assert w * windows == windows * w;
    FactorLess(w, windows, d + 1);
  }

  // ---------------------------------------------------------------------------
  // The whole schedule
  // ---------------------------------------------------------------------------

  function KeyVector(a: seq<int>, N: nat, logGen: seq<int>): (keys: seq<int>)
    requires |logGen| == 2 * N && forall i :: 0 <= i < |a| ==> 0 <= OddVector(a, 2 * N)[i] < 2 * N
    ensures |keys| == |a|
  {
    seq(|a|, i requires 0 <= i < |a| => logGen[OddVector(a, 2 * N)[i]])
  }

  lemma OddVectorRange(a: seq<int>, q: int, N: nat)
    requires 0 < q && 0 < N && (2 * N) % q == 0 && Residues(a, q)
    ensures Residues(a, 2 * N)
    ensures forall i :: 0 <= i < |a| ==> 0 <= OddVector(a, 2 * N)[i] < 2 * N
  {
    StretchExact(N, q);
    FactorLessEqual(q, Stretch(N, q), 2 * N);
    forall i | 0 <= i < |a|
      ensures 0 <= OddVector(a, 2 * N)[i] < 2 * N
    {
      OddRange(a[i], 2 * N);
    }
  }

  method FillBuckets(a: seq<int>, N: nat, logGen: seq<int>) returns (permuteMap: map<int, seq<int>>)
    requires |logGen| == 2 * N && forall i :: 0 <= i < |a| ==> 0 <= OddVector(a, 2 * N)[i] < 2 * N
    ensures BucketMap(permuteMap, KeyVector(a, N, logGen), |a|)
    ensures Residues(a, 2 * N) ==>
      forall i, o :: 0 <= i < |a| && 0 <= o < 2 * N && o % 2 == 1 && (-a[i]) % (2 * N) <= o <= (-a[i]) % (2 * N) + 1 ==>
        logGen[o] in permuteMap && i in permuteMap[logGen[o]]
  {
    ghost var keys := KeyVector(a, N, logGen);
    permuteMap := map[];
    for i := 0 to |a|
      invariant BucketMap(permuteMap, keys, i)
    {
      var aIOdd := MakeOdd(ModSubFast(0, a[i], 2 * N));
      assert aIOdd == OddVector(a, 2 * N)[i];
      var index := logGen[aIOdd];
      var indexVec := if index in permuteMap then permuteMap[index] else [];
      permuteMap := permuteMap[index := indexVec + [i]];
    }
    if Residues(a, 2 * N) {
      EntriesListed(permuteMap, a, N, logGen);
    }
  }

  /** Every entry is listed under its odd value. */
  lemma EntriesListed(permuteMap: map<int, seq<int>>, a: seq<int>, N: nat, logGen: seq<int>)
    requires |logGen| == 2 * N && forall i :: 0 <= i < |a| ==> 0 <= OddVector(a, 2 * N)[i] < 2 * N
    requires BucketMap(permuteMap, KeyVector(a, N, logGen), |a|) && Residues(a, 2 * N)
    ensures
      forall i, o :: 0 <= i < |a| && 0 <= o < 2 * N && o % 2 == 1 && (-a[i]) % (2 * N) <= o <= (-a[i]) % (2 * N) + 1 ==>
        logGen[o] in permuteMap && i in permuteMap[logGen[o]]
  {
    hide OddVector;
    forall i, o | 0 <= i < |a| && 0 <= o < 2 * N && o % 2 == 1 && (-a[i]) % (2 * N) <= o <= (-a[i]) % (2 * N) + 1
      ensures logGen[o] in permuteMap && i in permuteMap[logGen[o]]
    {
      OneOdd((-a[i]) % (2 * N), o, OddVector(a, 2 * N)[i]);
      BucketHas(KeyVector(a, N, logGen), logGen[o], |a|, i);
    }
  }

  lemma OneOdd(x: int, o: int, o': int)
    requires o % 2 == 1 && o' % 2 == 1 && x <= o <= x + 1 && x <= o' <= x + 1
    ensures o == o'
  {}

  lemma {:induction false} BucketHas(keys: seq<int>, b: int, n: nat, i: nat)
    requires i < n <= |keys| && keys[i] == b
    ensures i in Bucket(keys, b, n)
  {
    if i < n - 1 {
      BucketHas(keys, b, n - 1, i);
    }
  }

  /** The bucket keys that occur. */
  ghost function KeySet(keys: seq<int>): set<int> {
    set i | 0 <= i < |keys| :: keys[i]
  }

  lemma {:induction false} BucketEmpty(keys: seq<int>, b: int, n: nat)
    requires n <= |keys|
    ensures Bucket(keys, b, n) == [] <==> forall i :: 0 <= i < n ==> keys[i] != b
  {
    if n != 0 {
      BucketEmpty(keys, b, n - 1);
    }
  }

  /** permuteMap has exactly the keys that occur. */
  lemma MapKeys(permuteMap: map<int, seq<int>>, keys: seq<int>)
    requires BucketMap(permuteMap, keys, |keys|)
    ensures permuteMap.Keys == KeySet(keys)
  {
    forall b
      ensures b in permuteMap <==> b in KeySet(keys)
    {
      BucketEmpty(keys, b, |keys|);
    }
  }

  /** Number of non-empty buckets for a power 5^i or -5^i with 0 < i. */
  ghost function SweptBuckets(keys: seq<int>, N: nat): nat {
    |KeySet(keys) - {0, 2 * N}|
  }

  /** The two sweeps pass over those buckets and no others. */
  lemma SweptSplit(keys: seq<int>, N: nat)
    requires 4 <= N && forall i :: 0 <= i < |keys| ==> IsBucket(keys[i], N)
    ensures NonEmptyIn(KeySet(keys), -1, 0, N / 2) + NonEmptyIn(KeySet(keys), 1, 0, N / 2) == SweptBuckets(keys, N)
  {
    var K, A, B := KeySet(keys), SweepKeys(-1, 0, N / 2), SweepKeys(1, 0, N / 2);
    forall b
      ensures b in K - {0, 2 * N} <==> b in K * A + K * B
    {
      if b in K && b != 0 && b != 2 * N {
        AllBucketsDone(N, A + {2 * N} + B + {0}, b);
      }
    }
    assert K - {0, 2 * N} == K * A + K * B;
    assert (K * A) !! (K * B) by { SweepSets(N); }
  }

  /** There are at most as many buckets as entries. */
  lemma {:induction false} KeySetSize(keys: seq<int>)
    ensures |KeySet(keys)| <= |keys|
  {
    if |keys| != 0 {
      var last := |keys| - 1;
      KeySetSize(keys[..last]);
      assert KeySet(keys) == KeySet(keys[..last]) + {keys[last]} by {
        forall b
          ensures b in KeySet(keys) <==> b in KeySet(keys[..last]) + {keys[last]}
        {
          if i: int :| 0 <= i < |keys| && keys[i] == b {
            assert i < last ==> keys[..last][i] == b;
          }
          if i: int :| 0 <= i < last && keys[..last][i] == b {
            assert keys[i] == b;
          }
        }
      }
    }
  }

  lemma SweptBucketsAtMost(keys: seq<int>, N: nat)
    ensures SweptBuckets(keys, N) <= |keys|
  {
    KeySetSize(keys);
    var K, D := KeySet(keys), KeySet(keys) - {0, 2 * N};
    assert D + (K - D) == K && D !! (K - D);
  }

  /** The job set up by EvalAcc. */
  lemma JobOk(a: seq<int>, s: seq<int>, f: Poly, logGen: seq<int>, cx: Context)
    requires cx.Ok() && |a| == |s| && |f| == cx.N && Residues(a, cx.q) && LogTable(logGen, cx.N)
    ensures forall i :: 0 <= i < |a| ==> 0 <= OddVector(a, 2 * cx.N)[i] < 2 * cx.N
    ensures forall t :: Job(f, KeyVector(a, cx.N, logGen), s, OddVector(a, 2 * cx.N), t).Ok(cx)
    ensures forall i :: 0 <= i < |a| ==> IsBucket(KeyVector(a, cx.N, logGen)[i], cx.N)
  {
    hide Pow, IsPow2, BucketFactor;
    OddVectorRange(a, cx.q, cx.N);
    var o, keys := OddVector(a, 2 * cx.N), KeyVector(a, cx.N, logGen);
    forall i | 0 <= i < |o|
      ensures o[i] % (2 * cx.N) == BucketFactor(keys[i], cx.N) % (2 * cx.N) && IsBucket(keys[i], cx.N)
    {
      ModSmall(o[i], 2 * cx.N);
    }
  }

  lemma HalfOrder(N: nat)
    requires IsPow2(N) && 4 <= N
    ensures Pow(5, N / 2) % (2 * N) == 1
  {
    var e: nat :| N == Pow(2, e);
    var k: nat := e - 1;
    assert N == 2 * Pow(2, k) && 2 * N == Pow(2, k + 2);
    FiveOrder(k, 0);
    assert Pow(5, 0) == 1;
    ModSmall(1, 2 * N);
  }

  /** The twist by -5 against the 5^(N/2 - 1) pending in one sweep is -1. */
  lemma MinusFive(N: nat)
    requires IsPow2(N) && 4 <= N
    ensures ((2 * N - 5) * Pow(5, N / 2 - 1)) % (2 * N) == (-1) % (2 * N)
    ensures ((2 * N - 5) * (-1 * Pow(5, N / 2 - 1))) % (2 * N) == 1
  {
    var M, x := 2 * N, Pow(5, N / 2 - 1);
    HalfOrder(N);
    assert Pow(5, N / 2) == 5 * x;
    assert (M - 5) * x == -(5 * x) + x * M;
    ModPlusMultiple(-(5 * x), x, M);
    ModSmall(1, M);
    ModAddCong(0, 0, 5 * x, 1, M);
    assert (M - 5) * (-1 * x) == 5 * x + (-x) * M;
    ModPlusMultiple(5 * x, -x, M);
  }

  /** The opening state: one plain automorphism by -5, nothing drained. */
  method Open(params: RingGSWCryptoParams, acc: RLWECiphertext, ghost job: Job, ghost cx: Context)
    returns (ghost run: Run)
    requires params.Valid() && cx == ContextOf(params, cx.z, cx.noise) && job.Ok(cx) && 4 <= cx.N
    requires Holds(acc, cx, job.f, 0, 0) && acc.el0 == Zero(cx.N) && Twists(acc.trace) == job.twists
    modifies acc
    ensures InStep(acc, cx, job, run)
    ensures run == Run(2 * cx.N - 5, 0, -1 * Pow(5, cx.N / 2 - 1), 0, 0, {})
  {
    hide Auto, AutoNoise, ProductNoise, Pow, GateTable, Coef, Mul, Near, Rot, Reduce, Reduced, Traced, Bounded, Phase,
         Add, Phased;
    var t := 2 * params.N - 5;
    run := Run(t, 0, -1 * Pow(5, cx.N / 2 - 1), 0, 0, {});
    ghost var en := Entry(acc.el0, acc.el1, acc.err, Opening(t));
    PlainAutomorphism(acc.el1, t, job.f, acc.err, cx);
    ReduceNear(Auto(acc.el1, t), params.Q);
    BoundedAuto(acc.err, t, 0);
    OpeningPhased(cx, job, run);
    acc.el1 := Reduce(Auto(acc.el1, t), params.Q);
    acc.err := Auto(acc.err, t);
    TracedSnoc(acc.start, acc.trace, en, acc.el0, acc.el1, acc.err, cx);
    TwistsSnoc(acc.trace, en);
    acc.trace := acc.trace + [en];
    ZeroProducts(run.pending, Stretch(cx.N, cx.q), cx.Eps(), cx.AutoEps());
  }

  lemma OpeningPhased(cx: Context, job: Job, run: Run)
    requires job.Ok(cx) && 4 <= cx.N && run == Run(2 * cx.N - 5, 0, -1 * Pow(5, cx.N / 2 - 1), 0, 0, {})
    ensures Phased(cx, job, run)
  {
    hide Pow;
    MinusFive(cx.N);
    NothingDrained(job.keys, Products(job.o, job.s), |job.s|);
    NothingDrained(job.keys, Ones(|job.s|), |job.s|);
    ZeroProducts(run.pending, Stretch(cx.N, cx.q), cx.Eps(), cx.AutoEps());
  }

  lemma ZeroProducts(p: int, c: int, x: int, y: int)
    ensures 0 * p == 0 && c * 0 == 0 && 0 * x + 0 * y == 0
  {}

  lemma {:induction false} NothingDrained(keys: seq<int>, vals: seq<int>, n: nat)
    requires n <= |keys| && n <= |vals|
    ensures SumWhere(keys, vals, {}, n) == 0
  {
    if n != 0 {
      NothingDrained(keys, vals, n - 1);
    }
  }

  /** Drains one of the two special buckets, for -1 and for 1. */
  method DrainSpecial(params: RingGSWCryptoParams, ek: AccKey, permuteMap: map<int, seq<int>>, b: int,
                      acc: RLWECiphertext, ghost run: Run, ghost job: Job, ghost cx: Context)
    returns (ghost run': Run)
    requires params.Valid() && cx == ContextOf(params, cx.z, cx.noise) && LMKKeys(ek, job.s, cx, params.numAutoKeys)
    requires |job.keys| == |job.s| && BucketMap(permuteMap, job.keys, |job.s|) && InStep(acc, cx, job, run)
    requires b !in run.done && run.pending == BucketFactor(b, cx.N)
    modifies acc
    ensures InStep(acc, cx, job, run') && run'.done == run.done + {b} && run'.pending == run.pending
    ensures run.adds <= run'.adds && run'.autos == run.autos
  {
    hide Holds, Auto, AutoNoise, ProductNoise, IsPow2, Pow, SwitchesAuto, Phased, GateTable, RunNoise, EncryptsMessage,
         UnitMessage, Stretch, BucketFactor;
    if b in permuteMap {
      run' := DrainBucket(params, ek, permuteMap[b], acc, b, run, job, cx);
    } else {
      SkipPhased(cx, job, run, b);
      run' := run.(done := run.done + {b});
      SameNoise(cx, run, run');
    }
  }

  /** Most automorphisms with key switching one EvalAcc can perform, for window w and n swept buckets. */
  function AutoCount(N: nat, w: nat, n: nat): int
    requires 0 < w
  {
    2 * ((N / 2 - 1) / w + 1) + 1 + n
  }

  lemma AllBucketsDone(N: nat, done: set<int>, l: int)
    requires 4 <= N && IsBucket(l, N)
    requires done == SweepKeys(-1, 0, N / 2) + {2 * N} + SweepKeys(1, 0, N / 2) + {0}
    ensures l in done
  {
    if l < 0 {
      assert l == -1 * -l;
    } else if 0 < l < N / 2 {
      assert l == 1 * l;
    }
  }

  /** The final state untwists f and has drained every entry. */
  lemma CloseRun(acc: RLWECiphertext, cx: Context, job: Job, run: Run)
    requires InStep(acc, cx, job, run) && run.pending == 1
    requires forall i :: 0 <= i < |job.keys| ==> job.keys[i] in run.done
    ensures run.adds == |job.s|
    ensures Holds(acc, cx, job.f, Stretch(cx.N, cx.q) * Inner(job.o, job.s, |job.s|), RunNoise(cx, run))
  {
    hide Auto, AutoNoise, ProductNoise, Pow, Coef, Mul, Near, Rot, Phase, Reduced, IsPow2, Stretch;
    var M, n := 2 * cx.N, |job.s|;
    SumOfProducts(job.keys, job.o, job.s, run.done, n);
    SumOfOnes(job.keys, run.done, n, n);
    assert run.twist * 1 == run.twist && run.e * 1 == run.e;
    ModSmall(1, M);
    AutoCong(job.f, run.twist, 1);
    AutoOne(job.f);
    RotCong(job.f, run.e, Stretch(cx.N, cx.q) * Inner(job.o, job.s, n));
  }

  lemma NoiseBound(adds: int, autos: int, n: int, k: int, eps: int, aeps: int)
    requires adds == n && autos <= k && 0 <= aeps
    ensures adds * eps + autos * aeps <= n * eps + k * aeps
  {
    Arithmetic.MulMonotone(aeps, autos, k);
  }

  /** Sweep over -5^i, the bucket of -1, the turn back by -5, sweep over 5^i, the bucket of 1. */
  method RunSchedule(params: RingGSWCryptoParams, ek: AccKey, permuteMap: map<int, seq<int>>, acc: RLWECiphertext,
                     ghost job: Job, ghost cx: Context)
    returns (ghost run: Run)
    requires params.Valid() && cx == ContextOf(params, cx.z, cx.noise) && 4 <= cx.N
    requires LMKKeys(ek, job.s, cx, params.numAutoKeys) && job.Ok(cx) && BucketMap(permuteMap, job.keys, |job.s|)
    requires acc.el0 == Zero(cx.N) && Holds(acc, cx, job.f, 0, 0) && Twists(acc.trace) == job.twists
    requires forall i :: 0 <= i < |job.keys| ==> IsBucket(job.keys[i], cx.N)
    modifies acc
    ensures InStep(acc, cx, job, run) && run.pending == 1
    ensures run.done == SweepKeys(-1, 0, cx.N / 2) + {2 * cx.N} + SweepKeys(1, 0, cx.N / 2) + {0}
    ensures run.autos <= AutoCount(cx.N, params.numAutoKeys, SweptBuckets(job.keys, cx.N))
  {
    hide Holds, Auto, AutoNoise, ProductNoise, IsPow2, Pow, SwitchesAuto, Phased, GateTable, EncryptsMessage,
         UnitMessage, Stretch, FivePow, InStep, BucketMap, SweepKeys, BucketFactor, RunNoise, NonEmptyIn, KeySet,
         SweptBuckets,
         RingGSWCryptoParams.Valid;
    assert 1 <= params.numAutoKeys && params.N == cx.N by { WindowPositive(params, cx); }
    var N := params.N;
    MapKeys(permuteMap, job.keys);
    SweptSplit(job.keys, N);
    run := Open(params, acc, job, cx);
    SweepSets(N);
    run := Sweep(params, ek, permuteMap, -1, acc, run, job, cx);
    run := DrainSpecial(params, ek, permuteMap, 2 * N, acc, run, job, cx);
    MinusFive(N);
    run := Rotate(params, 2 * N - 5, ek[0][1][0], acc, 1 * Pow(5, N / 2 - 1), run, job, cx);
    run := Sweep(params, ek, permuteMap, 1, acc, run, job, cx);
    run := DrainSpecial(params, ek, permuteMap, 0, acc, run, job, cx);
  }

  /** A finished schedule is one rotation; its noise is at most that of one product per entry and its automorphisms. */
  lemma ScheduleDone(acc: RLWECiphertext, cx: Context, job: Job, run: Run, w: nat)
    requires InStep(acc, cx, job, run) && run.pending == 1 && 4 <= cx.N && 0 < w
    requires run.done == SweepKeys(-1, 0, cx.N / 2) + {2 * cx.N} + SweepKeys(1, 0, cx.N / 2) + {0}
    requires forall i :: 0 <= i < |job.keys| ==> IsBucket(job.keys[i], cx.N)
    requires run.autos <= AutoCount(cx.N, w, SweptBuckets(job.keys, cx.N))
    ensures Holds(acc, cx, job.f, Stretch(cx.N, cx.q) * Inner(job.o, job.s, |job.s|),
                  |job.s| * cx.Eps() + AutoCount(cx.N, w, |job.s|) * cx.AutoEps())
    ensures Twists(acc.trace) <= job.twists + AutoCount(cx.N, w, SweptBuckets(job.keys, cx.N))
  {
    hide Auto, AutoNoise, ProductNoise, IsPow2, Pow, Stretch, SweepKeys, Near, Rot, KeySet, SweptBuckets, Holds, Phased;
    EpsNonNeg(cx);
    forall i | 0 <= i < |job.keys|
      ensures job.keys[i] in run.done
    {
      AllBucketsDone(cx.N, run.done, job.keys[i]);
    }
    CloseRun(acc, cx, job, run);
    SweptBucketsAtMost(job.keys, cx.N);
    var n, e := |job.s|, Stretch(cx.N, cx.q) * Inner(job.o, job.s, |job.s|);
    NoiseBound(run.adds, run.autos, n, AutoCount(cx.N, w, n), cx.Eps(), cx.AutoEps());
    HoldsWiden(acc, cx, job.f, e, RunNoise(cx, run), e, n * cx.Eps() + AutoCount(cx.N, w, n) * cx.AutoEps());
  }

  /**
    EvalAcc: whatever the window, the buckets and the secrets, the accumulator is turned by
    (2N/q) * sum of s_i * o_i and nothing else happens to f. It performs at most two automorphisms
    per window, one for every non-empty bucket swept over and the one by -5.
   */
  method EvalAcc(params: RingGSWCryptoParams, ek: AccKey, acc: RLWECiphertext, a: seq<int>,
                 ghost s: seq<int>, ghost f: Poly, ghost cx: Context)
    requires params.Valid() && params.variant == LMKCDEY && cx == ContextOf(params, cx.z, cx.noise) && cx.Ok()
    requires 4 <= cx.N
    requires |a| == |s| && Residues(a, cx.q) && LMKKeys(ek, s, cx, params.numAutoKeys)
    requires acc.el0 == Zero(cx.N) && Holds(acc, cx, f, 0, 0)
    modifies acc
    ensures Holds(acc, cx, f, Stretch(cx.N, cx.q) * Inner(OddVector(a, 2 * cx.N), s, |a|),
                  |a| * cx.Eps() + AutoCount(cx.N, params.numAutoKeys, |a|) * cx.AutoEps())
    ensures |params.logGen| == 2 * cx.N && forall i :: 0 <= i < |a| ==> 0 <= OddVector(a, 2 * cx.N)[i] < 2 * cx.N
    ensures forall i :: 0 <= i < |a| ==>
      var o := OddVector(a, 2 * cx.N)[i]; o % 2 == 1 && (-a[i]) % (2 * cx.N) <= o <= (-a[i]) % (2 * cx.N) + 1
    ensures Twists(acc.trace) <= Twists(old(acc.trace))
                               + AutoCount(cx.N, params.numAutoKeys,
                                           SweptBuckets(KeyVector(a, cx.N, params.logGen), cx.N))
  {
    hide Auto, AutoNoise, ProductNoise, IsPow2, Pow, SwitchesAuto, Phased, GateTable, EncryptsMessage,
         UnitMessage, Stretch, FivePow, InStep, BucketMap, SweepKeys, LMKKeys, Near, Rot, KeySet, SweptBuckets,
         AutoCount, KeyVector,
         OddVector, Holds, RunNoise;
    assert |f| == cx.N by { HoldsSize(acc, cx, f, 0, 0); }
    EpsNonNeg(cx);
    JobOk(a, s, f, params.logGen, cx);
    OddVectorRange(a, cx.q, cx.N);
    var permuteMap := FillBuckets(a, params.N, params.logGen);
    ghost var job := Job(f, KeyVector(a, cx.N, params.logGen), s, OddVector(a, 2 * cx.N), Twists(acc.trace));
    ghost var run := RunSchedule(params, ek, permuteMap, acc, job, cx);
    ScheduleDone(acc, cx, job, run, params.numAutoKeys);
  }

  /** The bucket keys of the two sweeps and the two special ones are all different. */
  lemma SweepSets(N: nat)
    requires 4 <= N
    ensures {} !! SweepKeys(-1, 0, N / 2) && 2 * N !in SweepKeys(-1, 0, N / 2)
    ensures (SweepKeys(-1, 0, N / 2) + {2 * N}) !! SweepKeys(1, 0, N / 2)
    ensures 0 !in SweepKeys(-1, 0, N / 2) + {2 * N} + SweepKeys(1, 0, N / 2)
    ensures Pow(5, 0) == 1 && BucketFactor(2 * N, N) == -1 * Pow(5, 0) && BucketFactor(0, N) == 1 * Pow(5, 0)
  {}
}
