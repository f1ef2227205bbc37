/**
  Table-driven key switching and the chain that brings a ciphertext back to the small key
  (src/binfhe/lib/lwe-pke.cpp:153-161, 252-347).
 */
module KeySwitching {
  import opened Arithmetic
  import opened LweBasics
  import opened Lwe
  import opened RgswParams

  datatype LWECryptoParams = LWECryptoParams(n: nat, N: nat, q: int, Q: int, qKS: int, baseKS: nat) {
    ghost predicate Valid() {
      1 <= n && 1 <= N && 2 < q && 2 < Q && 2 < qKS && 2 <= baseKS
    }
  }

  /** One entry of the table: a vector and an offset. */
  datatype KSEntry = KSEntry(a: seq<int>, b: int)

  /** Entry [i][j][k] re-encrypts j * base^k times secret entry i. */
  type LWESwitchingKey = seq<seq<seq<KSEntry>>>

  ghost predicate EntryOK(e: KSEntry, message: int, s: seq<int>, noise: int, qKS: int) {
    && 0 < qKS && |e.a| == |s| && Residues(e.a, qKS) && 0 <= e.b < qKS
    && Close(PhaseOf(e.a, e.b, s), message, noise, qKS)
  }

  /** The entry is the drawn vector with an offset that hides the message and the drawn error, exactly. */
  ghost predicate EntryFrom(e: KSEntry, drawn: KSEntry, message: int, s: seq<int>, qKS: int) {
    0 < qKS && e.a == drawn.a && |e.a| == |s| && PhaseOf(e.a, e.b, s) % qKS == (message + drawn.b) % qKS
  }

  ghost predicate EntriesOK(col: seq<KSEntry>, zj: int, base: nat, upTo: nat, s: seq<int>, noise: int, qKS: int) {
    |col| == upTo && forall k :: 0 <= k < upTo ==> EntryOK(col[k], zj * Pow(base, k), s, noise, qKS)
  }

  ghost predicate RowOK(row: seq<seq<KSEntry>>, zi: int, base: nat, digits: nat, s: seq<int>, noise: int, qKS: int) {
    |row| == base && forall j :: 0 <= j < base ==> EntriesOK(row[j], zi * j, base, digits, s, noise, qKS)
  }

  /** Entry k of a column is made from draw (i, j, k). */
  ghost predicate ColumnFrom(col: seq<KSEntry>, draw: (int, int, int) -> KSEntry, i: int, j: int, zi: int, s: seq<int>,
                             params: LWECryptoParams) {
    2 <= params.baseKS && |col| == DigitCount(params.qKS, params.baseKS)
    && forall k :: 0 <= k < |col| ==> EntryFrom(col[k], draw(i, j, k), zi * j * Pow(params.baseKS, k), s, params.qKS)
  }

  ghost predicate TableRowFrom(row: seq<seq<KSEntry>>, draw: (int, int, int) -> KSEntry, i: int, zi: int, s: seq<int>,
                               params: LWECryptoParams) {
    |row| == params.baseKS && forall j :: 0 <= j < |row| ==> ColumnFrom(row[j], draw, i, j, zi, s, params)
  }

  /** K switches from the secret z to the secret s. */
  ghost predicate SwitchingKeyFor(K: LWESwitchingKey, z: seq<int>, s: seq<int>, params: LWECryptoParams, noise: int) {
    && params.Valid() && |K| == |z| == params.N && |s| == params.n && 0 <= noise
    && forall i :: 0 <= i < |z| ==> RowOK(K[i], z[i], params.baseKS, DigitCount(params.qKS, params.baseKS), s, noise,
                                          params.qKS)
  }

  // ---------------------------------------------------------------------------
  // Generation
  // ---------------------------------------------------------------------------

  /** Table entry for secret value zi (stored as v), multiplier j and weight w. */
  method MakeEntry(v: int, jw: int, sv: seq<int>, a: seq<int>, err: int, qKS: int,
                   ghost zi: int, ghost s: seq<int>, ghost noise: int)
    returns (e: KSEntry)
    requires 2 < qKS && |a| == |sv| == |s| && Residues(a, qKS) && -noise <= err <= noise
    requires v % qKS == zi % qKS && forall i :: 0 <= i < |s| ==> sv[i] % qKS == s[i] % qKS
    ensures EntryOK(e, zi * jw, s, noise, qKS) && EntryFrom(e, KSEntry(a, err), zi * jw, s, qKS)
  {
    var b := (err % qKS + (v * (jw % qKS)) % qKS) % qKS;
    ghost var b0 := b;
    b := KeyInner(b, a, sv, qKS, s);
    e := KSEntry(a, b % qKS);
    EntryPhase(err, v, jw, zi, b0, b, Inner(a, s, |a|), noise, qKS);
  }

  lemma EntryPhase(err: int, v: int, jw: int, zi: int, b0: int, b: int, I: int, noise: int, qKS: int)
    requires 0 < qKS && -noise <= err <= noise && v % qKS == zi % qKS
    requires b0 == (err % qKS + (v * (jw % qKS)) % qKS) % qKS && b % qKS == (b0 + I) % qKS
    ensures Close(b % qKS - I, zi * jw, noise, qKS) && (b % qKS - I) % qKS == (zi * jw + err) % qKS
  {
    var M := qKS;
    ModMod(jw, M);
    ModMulCong(v, zi, jw % M, jw, M);
    ModMod(v * (jw % M), M);
    ModMod(err, M);
    ModAddCong(err % M, err, (v * (jw % M)) % M, zi * jw, M);
    ModMod(err % M + (v * (jw % M)) % M, M);
    ModAddCong(b0, err + zi * jw, I, I, M);
    ModMod(b, M);
    ModAddCong(b % M, err + zi * jw + I, I, I, M);
    CloseIntro(err + zi * jw, zi * jw, noise, M, 0);
    CloseCong(err + zi * jw, zi * jw, b % M - I, zi * jw, noise, M);
  }

  method KeySwitchGen(params: LWECryptoParams, sk: LWEPrivateKey, skN: LWEPrivateKey,
                      draw: (int, int, int) -> KSEntry, ghost noise: int)
    returns (K: LWESwitchingKey)
    requires params.Valid() && sk.Valid() && skN.Valid() && |sk.values| == params.n && |skN.values| == params.N
    requires 0 <= noise
    // a drawn entry is a uniform vector with an error in place of the offset
    requires forall i, j, k :: |draw(i, j, k).a| == params.n && Residues(draw(i, j, k).a, params.qKS)
                            && -noise <= draw(i, j, k).b <= noise
    ensures SwitchingKeyFor(K, skN.Signed(), sk.Signed(), params, noise)
    ensures |K| == params.N && forall i :: 0 <= i < params.N ==>
      TableRowFrom(K[i], draw, i, skN.Signed()[i], sk.Signed(), params)
  {
    hide Pow, Close, SignedValue, SwitchValue, EntriesOK, ColumnFrom;
    var qKS, base := params.qKS, params.baseKS;
    var digitCount := DigitCount(qKS, base);
    var digitsKS := ComputeDigitsR(qKS, base);
    var sv := SwitchModulus(sk, qKS);
    var svN := SwitchModulus(skN, qKS);
    SwitchModulusSigned(sk, qKS);
    SwitchModulusSigned(skN, qKS);
    K := [];
    for i := 0 to params.N
      invariant |K| == i
      invariant forall h :: 0 <= h < i ==> RowOK(K[h], skN.Signed()[h], base, digitCount, sk.Signed(), noise, qKS)
      invariant forall h :: 0 <= h < i ==> TableRowFrom(K[h], draw, h, skN.Signed()[h], sk.Signed(), params)
    {
      var row := [];
      for j := 0 to base
        invariant |row| == j
        invariant forall h :: 0 <= h < j ==> EntriesOK(row[h], skN.Signed()[i] * h, base, digitCount, sk.Signed(),
                                                       noise, qKS)
        invariant forall h :: 0 <= h < j ==> ColumnFrom(row[h], draw, i, h, skN.Signed()[i], sk.Signed(), params)
      {
        var col := MakeColumn(svN[i], i, j, digitsKS, sv, draw, params, skN.Signed()[i], sk.Signed(), noise);
        row := row + [col];
      }
      K := K + [row];
    }
  }

  /** Innermost loop of KeySwitchGen. */
  method MakeColumn(v: int, i: nat, j: nat, digitsKS: seq<int>, sv: seq<int>, draw: (int, int, int) -> KSEntry,
                    params: LWECryptoParams, ghost zi: int, ghost s: seq<int>, ghost noise: int)
    returns (col: seq<KSEntry>)
    requires params.Valid() && PlainPowers(digitsKS, params.baseKS, params.qKS) && |sv| == |s| == params.n
    requires v % params.qKS == zi % params.qKS && forall i :: 0 <= i < |s| ==> sv[i] % params.qKS == s[i] % params.qKS
    requires forall k :: |draw(i, j, k).a| == params.n && Residues(draw(i, j, k).a, params.qKS)
                      && -noise <= draw(i, j, k).b <= noise
    ensures EntriesOK(col, zi * j, params.baseKS, DigitCount(params.qKS, params.baseKS), s, noise, params.qKS)
    ensures ColumnFrom(col, draw, i, j, zi, s, params)
  {
    hide Pow, Close, EntryOK, EntryFrom;
    col := [];
    for k := 0 to |digitsKS|
      invariant EntriesOK(col, zi * j, params.baseKS, k, s, noise, params.qKS)
      invariant forall h :: 0 <= h < k ==>
        EntryFrom(col[h], draw(i, j, h), zi * j * Pow(params.baseKS, h), s, params.qKS)
    {
      var e := MakeEntry(v, j * digitsKS[k], sv, draw(i, j, k).a, draw(i, j, k).b, params.qKS, zi, s, noise);
      MulAssoc(zi, j, digitsKS[k]);
      col := col + [e];
    }
  }

  // ---------------------------------------------------------------------------
  // Switching
  // ---------------------------------------------------------------------------

  /** The sizes and ranges of a switching key, whatever it encrypts. */
  ghost predicate TableShape(K: LWESwitchingKey, params: LWECryptoParams) {
    params.Valid() && |K| == params.N && forall i :: 0 <= i < |K| ==> RowShape(K[i], params)
  }

  ghost predicate RowShape(row: seq<seq<KSEntry>>, params: LWECryptoParams) {
    && 2 <= params.baseKS && |row| == params.baseKS
    && forall j, k :: 0 <= j < |row| && 0 <= k < DigitCount(params.qKS, params.baseKS) ==> EntryShape(row, j, k, params)
  }

  ghost predicate EntryShape(row: seq<seq<KSEntry>>, j: int, k: int, params: LWECryptoParams)
    requires 0 <= j < |row| && 0 <= k
  {
    k < |row[j]| && |row[j][k].a| == params.n && Residues(row[j][k].a, params.qKS) && 0 <= row[j][k].b < params.qKS
  }

  lemma SwitchingKeyShape(K: LWESwitchingKey, z: seq<int>, s: seq<int>, params: LWECryptoParams, noise: int)
    requires SwitchingKeyFor(K, z, s, params, noise)
    ensures TableShape(K, params)
  {
    hide DigitCount, Close;
    var digits := DigitCount(params.qKS, params.baseKS);
    forall i | 0 <= i < |K|
      ensures RowShape(K[i], params)
    {
      forall j, k | 0 <= j < |K[i]| && 0 <= k < digits
        ensures EntryShape(K[i], j, k, params)
      {
        assert EntriesOK(K[i][j], z[i] * j, params.baseKS, digits, s, noise, params.qKS);
        assert EntryOK(K[i][j][k], z[i] * j * Pow(params.baseKS, k), s, noise, params.qKS);
      }
    }
  }

  /** Digit j of a in the given base. */
  function KSDigit(a: int, base: nat, j: nat): (d: int)
    requires 0 < base
    ensures 0 <= d < base
  {
    a / Pow(base, j) % base
  }

  /** The error of one entry as an encryption of message: exact, and of least absolute value. */
  ghost function EntryError(e: KSEntry, message: int, s: seq<int>, qKS: int): int
    requires 0 < qKS && |e.a| == |s|
  {
    Centre(PhaseOf(e.a, e.b, s) - message, qKS)
  }

  /** Sum of the errors of the entries that the first n digits of ai select in one row. */
  ghost function SelectedErrors(row: seq<seq<KSEntry>>, zi: int, ai: int, s: seq<int>, params: LWECryptoParams,
                                n: nat): int
    requires params.Valid() && RowShape(row, params) && |s| == params.n && n <= DigitCount(params.qKS, params.baseKS)
  {
    if n == 0 then 0 else
      var d := KSDigit(ai, params.baseKS, n - 1);
      assert EntryShape(row, d, n - 1, params);
      SelectedErrors(row, zi, ai, s, params, n - 1)
      + EntryError(row[d][n - 1], zi * d * Pow(params.baseKS, n - 1), s, params.qKS)
  }

  /** Sum of the errors of all entries selected for the first n entries of the long vector a. */
  ghost function TableErrors(K: LWESwitchingKey, a: seq<int>, z: seq<int>, s: seq<int>, params: LWECryptoParams,
                             n: nat): int
    requires TableShape(K, params) && |a| == |z| == params.N && |s| == params.n && n <= params.N
  {
    if n == 0 then 0 else
      TableErrors(K, a, z, s, params, n - 1)
      + SelectedErrors(K[n - 1], z[n - 1], a[n - 1], s, params, DigitCount(params.qKS, params.baseKS))
  }

  /** The mask of the new ciphertext after the first n digits of ai: the selected entries' vectors leave it. */
  ghost function RowMask(row: seq<seq<KSEntry>>, ai: int, a: seq<int>, params: LWECryptoParams, n: nat): (r: seq<int>)
    requires params.Valid() && RowShape(row, params) && |a| == params.n && n <= DigitCount(params.qKS, params.baseKS)
    ensures |r| == params.n
  {
    if n == 0 then a else
      var d := KSDigit(ai, params.baseKS, n - 1);
      assert EntryShape(row, d, n - 1, params);
      SubVector(RowMask(row, ai, a, params, n - 1), row[d][n - 1].a, params.qKS)
  }

  /** Sum of the offsets of the same entries. */
  ghost function RowShift(row: seq<seq<KSEntry>>, ai: int, params: LWECryptoParams, n: nat): int
    requires params.Valid() && RowShape(row, params) && n <= DigitCount(params.qKS, params.baseKS)
  {
    if n == 0 then 0 else
      var d := KSDigit(ai, params.baseKS, n - 1);
      assert EntryShape(row, d, n - 1, params);
      RowShift(row, ai, params, n - 1) + row[d][n - 1].b
  }

  /** The new mask after the first n entries of the long vector a. */
  ghost function TableMask(K: LWESwitchingKey, a: seq<int>, params: LWECryptoParams, n: nat): (r: seq<int>)
    requires TableShape(K, params) && |a| == params.N && n <= params.N
    ensures |r| == params.n
  {
    if n == 0 then seq(params.n, _ => 0) else
      RowMask(K[n - 1], a[n - 1], TableMask(K, a, params, n - 1), params, DigitCount(params.qKS, params.baseKS))
  }

  ghost function TableShift(K: LWESwitchingKey, a: seq<int>, params: LWECryptoParams, n: nat): int
    requires TableShape(K, params) && |a| == params.N && n <= params.N
  {
    if n == 0 then 0 else
      TableShift(K, a, params, n - 1) + RowShift(K[n - 1], a[n - 1], params, DigitCount(params.qKS, params.baseKS))
  }

  lemma {:induction false} SelectedErrorsBounded(row: seq<seq<KSEntry>>, zi: int, ai: int, s: seq<int>,
                                                 params: LWECryptoParams, noise: int, n: nat)
    requires params.Valid() && RowShape(row, params) && |s| == params.n && n <= DigitCount(params.qKS, params.baseKS)
    requires 0 <= noise
    requires RowOK(row, zi, params.baseKS, DigitCount(params.qKS, params.baseKS), s, noise, params.qKS)
    ensures Abs(SelectedErrors(row, zi, ai, s, params, n)) <= n * noise
  {
    hide DigitCount, Close, Centre;
    if n != 0 {
      SelectedErrorsBounded(row, zi, ai, s, params, noise, n - 1);
      var d, digits := KSDigit(ai, params.baseKS, n - 1), DigitCount(params.qKS, params.baseKS);
      var message := zi * d * Pow(params.baseKS, n - 1);
      assert EntriesOK(row[d], zi * d, params.baseKS, digits, s, noise, params.qKS);
      assert EntryOK(row[d][n - 1], message, s, noise, params.qKS);
      CentreClose(PhaseOf(row[d][n - 1].a, row[d][n - 1].b, s), message, noise, params.qKS);
      NextCount(n - 1, noise);
    }
  }

  /** The errors a key switch collects are at most one table error per digit and entry. */
  lemma {:induction false} TableErrorsBounded(K: LWESwitchingKey, a: seq<int>, z: seq<int>, s: seq<int>,
                                              params: LWECryptoParams, noise: int, n: nat)
    requires SwitchingKeyFor(K, z, s, params, noise) && TableShape(K, params) && |a| == params.N && n <= params.N
    ensures Abs(TableErrors(K, a, z, s, params, n)) <= n * (DigitCount(params.qKS, params.baseKS) * noise)
  {
    hide DigitCount, RowOK, RowShape, SelectedErrors;
    if n != 0 {
      var digits := DigitCount(params.qKS, params.baseKS);
      TableErrorsBounded(K, a, z, s, params, noise, n - 1);
      SelectedErrorsBounded(K[n - 1], z[n - 1], a[n - 1], s, params, noise, digits);
      NextCount(n - 1, digits * noise);
    }
  }

  lemma DigitLeft(z: int, left: int, base: int, w: int)
    requires 0 < base
    ensures z * (left * w) - z * (left % base) * w == z * ((left / base) * (base * w))
  {
    var d, r := left / base, left % base;
    assert left == d * base + r;
    assert left * w == d * base * w + r * w by {
      assert (d * base + r) * w == d * base * w + r * w;
    }
    MulAssoc(d, base, w);
    MulAssoc(z, r, w);
    assert z * (d * (base * w) + r * w) == z * (d * (base * w)) + z * (r * w);
  }

  /** One digit: the entry's message and error leave the phase. */
  lemma DigitSubtracted(x: int, x': int, entry: int, err: int, target: int, R: int, z: int, left: int, base: int,
                        w: int, q: int)
    requires 0 < q && 0 < base && x % q == (target + z * (left * w) - R) % q && x' % q == (x - entry) % q
    requires entry % q == (z * (left % base) * w + err) % q
    ensures x' % q == (target + z * ((left / base) * (base * w)) - (R + err)) % q
  {
    DigitLeft(z, left, base, w);
    ModAddCong(x, target + z * (left * w) - R, entry, z * (left % base) * w + err, q);
  }

  lemma EntryPhaseIs(e: KSEntry, message: int, s: seq<int>, qKS: int)
    requires 0 < qKS && |e.a| == |s|
    ensures PhaseOf(e.a, e.b, s) % qKS == (message + EntryError(e, message, s, qKS)) % qKS
  {
    hide PhaseOf, Centre;
    CentredTo(PhaseOf(e.a, e.b, s), message, qKS);
  }

  lemma CentredTo(x: int, message: int, q: int)
    requires 0 < q
    ensures x % q == (message + Centre(x - message, q)) % q
  {
    hide Centre;
    CentreCong(x - message, q);
    ModAddCong(message, message, Centre(x - message, q), x - message, q);
  }

  lemma DigitOfLeft(a: int, base: nat, j: nat)
    requires 0 < base
    ensures a / Pow(base, j) / base == a / Pow(base, j + 1) && Pow(base, j + 1) == base * Pow(base, j)
  {
    assert Pow(base, j + 1) == Pow(base, j) * base;
    DivDiv(a, Pow(base, j), base);
  }

  lemma AllDigits(a: int, base: nat, q: int)
    requires 2 <= base && 0 <= a < q
    ensures a / Pow(base, DigitCount(q, base)) == 0 && a / Pow(base, 0) == a
  {
    DivModIs(a, Pow(base, DigitCount(q, base)), 0, a);
    assert Pow(base, 0) == 1 && a / 1 == a;
  }

  /** z_i times what the digits from n on still stand for. */
  ghost function Undone(zi: int, ai: int, base: nat, n: nat): int
    requires 0 < base
  {
    zi * (ai / Pow(base, n) * Pow(base, n))
  }

  /** After j digits the pair has lost z_i times them and exactly the errors of the selected entries. */
  lemma {:induction false} RowPhase(row: seq<seq<KSEntry>>, zi: int, ai: int, a: seq<int>, b: int,
                                    params: LWECryptoParams, s: seq<int>, n: nat)
    requires params.Valid() && RowShape(row, params) && |a| == |s| == params.n
    requires 0 <= ai && Residues(a, params.qKS) && 0 <= b < params.qKS && n <= DigitCount(params.qKS, params.baseKS)
    ensures Residues(RowMask(row, ai, a, params, n), params.qKS)
    ensures PhaseOf(RowMask(row, ai, a, params, n), (b - RowShift(row, ai, params, n)) % params.qKS, s) % params.qKS ==
            (PhaseOf(a, b, s) - zi * ai + Undone(zi, ai, params.baseKS, n)
             - SelectedErrors(row, zi, ai, s, params, n)) % params.qKS
  {
    hide PhaseOf, Pow, Residues, DigitCount, RowShape, Undone, RowMask, RowShift, SelectedErrors;
    var base, qKS, target := params.baseKS, params.qKS, PhaseOf(a, b, s) - zi * ai;
    if n == 0 {
      RowStart(row, zi, ai, a, b, params, s);
    } else {
      RowPhase(row, zi, ai, a, b, params, s, n - 1);
      RowStep(row, zi, ai, a, b, params, s, n, target);
    }
  }

  lemma RowStart(row: seq<seq<KSEntry>>, zi: int, ai: int, a: seq<int>, b: int, params: LWECryptoParams, s: seq<int>)
    requires params.Valid() && RowShape(row, params) && |a| == |s| == params.n && 0 <= b < params.qKS
    ensures RowMask(row, ai, a, params, 0) == a
    ensures PhaseOf(RowMask(row, ai, a, params, 0), (b - RowShift(row, ai, params, 0)) % params.qKS, s) ==
            PhaseOf(a, b, s) - zi * ai + Undone(zi, ai, params.baseKS, 0)
            - SelectedErrors(row, zi, ai, s, params, 0)
  {
    hide PhaseOf, Pow, DigitCount, RowShape;
    ZerothPower(params.baseKS);
    StartTarget(PhaseOf(a, b, s), zi, ai, Pow(params.baseKS, 0));
    ModSmall(b, params.qKS);
  }

  lemma RowStep(row: seq<seq<KSEntry>>, zi: int, ai: int, a: seq<int>, b: int, params: LWECryptoParams, s: seq<int>,
                n: nat, target: int)
    requires params.Valid() && RowShape(row, params) && |a| == |s| == params.n
    requires 0 <= ai && 1 <= n <= DigitCount(params.qKS, params.baseKS)
    requires Residues(RowMask(row, ai, a, params, n - 1), params.qKS)
    requires PhaseOf(RowMask(row, ai, a, params, n - 1), (b - RowShift(row, ai, params, n - 1)) % params.qKS, s)
             % params.qKS ==
             (target + Undone(zi, ai, params.baseKS, n - 1)
              - SelectedErrors(row, zi, ai, s, params, n - 1)) % params.qKS
    ensures Residues(RowMask(row, ai, a, params, n), params.qKS)
    ensures PhaseOf(RowMask(row, ai, a, params, n), (b - RowShift(row, ai, params, n)) % params.qKS, s)
            % params.qKS ==
            (target + Undone(zi, ai, params.baseKS, n)
             - SelectedErrors(row, zi, ai, s, params, n)) % params.qKS
  {
    hide PhaseOf, Pow, Residues, DigitCount, SubVector, EntryError;
    var base, qKS, j := params.baseKS, params.qKS, n - 1;
    var d := KSDigit(ai, base, j);
    assert EntryShape(row, d, j, params);
    var e, x, y := row[d][j], RowMask(row, ai, a, params, j), (b - RowShift(row, ai, params, j)) % qKS;
    AddPhase(x, y, e.a, e.b, qKS, s);
    EntryPhaseIs(e, zi * d * Pow(base, j), s, qKS);
    DigitOfLeft(ai, base, j);
    DigitSubtracted(PhaseOf(x, y, s), PhaseOf(SubVector(x, e.a, qKS), ModSubFast(y, e.b, qKS), s), PhaseOf(e.a, e.b, s),
                    EntryError(e, zi * d * Pow(base, j), s, qKS), target, SelectedErrors(row, zi, ai, s, params, j), zi,
                    ai / Pow(base, j), base, Pow(base, j), qKS);
    ModSubFastIs(y, e.b, qKS);
    ShiftOn(b, RowShift(row, ai, params, j), y, e.b, qKS);
  }

  /** All digits: the pair has lost z_i * a_i and exactly the errors of the selected entries. */
  lemma RowDone(row: seq<seq<KSEntry>>, zi: int, ai: int, a: seq<int>, b: int, params: LWECryptoParams, s: seq<int>)
    requires params.Valid() && RowShape(row, params) && |a| == |s| == params.n
    requires 0 <= ai < params.qKS && Residues(a, params.qKS) && 0 <= b < params.qKS
    ensures var n := DigitCount(params.qKS, params.baseKS);
            && Residues(RowMask(row, ai, a, params, n), params.qKS)
            && PhaseOf(RowMask(row, ai, a, params, n), (b - RowShift(row, ai, params, n)) % params.qKS, s) % params.qKS
               == (PhaseOf(a, b, s) - zi * ai - SelectedErrors(row, zi, ai, s, params, n)) % params.qKS
  {
    hide PhaseOf, Residues, DigitCount, RowShape, SelectedErrors, RowMask, RowShift, Undone;
    var n := DigitCount(params.qKS, params.baseKS);
    RowPhase(row, zi, ai, a, b, params, s, n);
    NothingUndone(zi, ai, params.baseKS, params.qKS);
  }

  lemma NothingUndone(zi: int, ai: int, base: nat, q: int)
    requires 2 <= base && 0 <= ai < q
    ensures Undone(zi, ai, base, DigitCount(q, base)) == 0
  {
    hide DigitCount, Pow;
    AllDigits(ai, base, q);
    assert 0 * Pow(base, DigitCount(q, base)) == 0;
  }

  /** Digits of one entry of the long vector: the selected entries leave the pair. */
  method SwitchEntry(row: seq<seq<KSEntry>>, ai: int, a: seq<int>, b: int, params: LWECryptoParams, ghost s: seq<int>)
    returns (a': seq<int>, b': int)
    requires params.Valid() && RowShape(row, params) && |a| == |s| == params.n
    requires 0 <= ai < params.qKS && Residues(a, params.qKS) && 0 <= b < params.qKS
    ensures Residues(a', params.qKS)
    ensures a' == RowMask(row, ai, a, params, DigitCount(params.qKS, params.baseKS))
    ensures b' == (b - RowShift(row, ai, params, DigitCount(params.qKS, params.baseKS))) % params.qKS
  {
    hide Pow, Residues, DigitCount, SubVector, RowShape, SelectedErrors;
    var base, qKS := params.baseKS, params.qKS;
    var digitCount := DigitCount(qKS, base);
    a', b' := a, b;
    var atmp := ai;
    AllDigits(ai, base, qKS);
    ModSmall(b, qKS);
    for j := 0 to digitCount
      invariant atmp == ai / Pow(base, j)
      invariant a' == RowMask(row, ai, a, params, j) && b' == (b - RowShift(row, ai, params, j)) % qKS
    {
      var a0 := atmp % base;
      RowEntry(row, a0, j, params);
      var e := row[a0][j];
      DigitOfLeft(ai, base, j);
      ModSubFastIs(b', e.b, qKS);
      ShiftOn(b, RowShift(row, ai, params, j), b', e.b, qKS);
      b' := ModSubFast(b', e.b, qKS);
      a' := SubVector(a', e.a, qKS);
      atmp := atmp / base;
    }
    RowPhase(row, 0, ai, a, b, params, s, digitCount);
  }

  lemma RowEntry(row: seq<seq<KSEntry>>, j: int, k: nat, params: LWECryptoParams)
    requires RowShape(row, params) && 0 <= j < params.baseKS && k < DigitCount(params.qKS, params.baseKS)
    ensures j < |row| && EntryShape(row, j, k, params)
  {}

  lemma ShiftOn(b: int, shift: int, b': int, more: int, q: int)
    requires 0 < q && b' == (b - shift) % q
    ensures (b' - more) % q == (b - (shift + more)) % q
  {
    ModMod(b - shift, q);
    ModAddCong(b', b - shift, more, more, q);
  }

  lemma ZerothPower(base: nat)
    ensures Pow(base, 0) == 1
  {}

  lemma StartTarget(x: int, z: int, a: int, w: int)
    requires w == 1
    ensures x - z * a + z * (a / w * w) - 0 == x
  {
    DivModIs(a, w, a, 0);
  }

  lemma NextCount(j: int, noise: int)
    ensures (j + 1) * noise == j * noise + noise
  {}

  /** The new pair after n entries: the long phase so far, minus exactly the errors of the selected entries. */
  lemma {:induction false} TablePhase(K: LWESwitchingKey, a: seq<int>, b: int, z: seq<int>, s: seq<int>,
                                      params: LWECryptoParams, n: nat)
    requires TableShape(K, params) && |a| == |z| == params.N && |s| == params.n && n <= params.N
    requires Residues(a, params.qKS) && 0 < params.qKS
    ensures Residues(TableMask(K, a, params, n), params.qKS)
    ensures PhaseOf(TableMask(K, a, params, n), (b - TableShift(K, a, params, n)) % params.qKS, s) % params.qKS ==
            (b - Inner(a, z, n) - TableErrors(K, a, z, s, params, n)) % params.qKS
  {
    hide SelectedErrors, DigitCount, RowMask, RowShift, Residues, RowShape;
    var qKS := params.qKS;
    if n == 0 {
      ZeroResidues(params.n, qKS);
      ZeroInner(TableMask(K, a, params, 0), s, |s|);
      ModMod(b, qKS);
    } else {
      TablePhase(K, a, b, z, s, params, n - 1);
      TableStep(K, a, b, z, s, params, n);
    }
  }

  lemma TableStep(K: LWESwitchingKey, a: seq<int>, b: int, z: seq<int>, s: seq<int>, params: LWECryptoParams, n: nat)
    requires TableShape(K, params) && |a| == |z| == params.N && |s| == params.n && 1 <= n <= params.N
    requires Residues(a, params.qKS) && 0 < params.qKS
    requires Residues(TableMask(K, a, params, n - 1), params.qKS)
    requires PhaseOf(TableMask(K, a, params, n - 1), (b - TableShift(K, a, params, n - 1)) % params.qKS, s)
             % params.qKS ==
             (b - Inner(a, z, n - 1) - TableErrors(K, a, z, s, params, n - 1)) % params.qKS
    ensures Residues(TableMask(K, a, params, n), params.qKS)
    ensures PhaseOf(TableMask(K, a, params, n), (b - TableShift(K, a, params, n)) % params.qKS, s)
            % params.qKS == (b - Inner(a, z, n) - TableErrors(K, a, z, s, params, n)) % params.qKS
  {
    hide SelectedErrors, DigitCount, RowMask, RowShift, Residues, RowShape, PhaseOf;
    var qKS, digits, i := params.qKS, DigitCount(params.qKS, params.baseKS), n - 1;
    var x, y := TableMask(K, a, params, i), (b - TableShift(K, a, params, i)) % qKS;
    assert 0 <= a[i] < qKS by { ResidueAt(a, i, qKS); }
    RowDone(K[i], z[i], a[i], x, y, params, s);
    ShiftOn(b, TableShift(K, a, params, i), y, RowShift(K[i], a[i], params, digits), qKS);
    var p := z[i] * a[i] + SelectedErrors(K[i], z[i], a[i], s, params, digits);
    assert z[i] * a[i] == a[i] * z[i];
    ModAddCong(PhaseOf(x, y, s), b - Inner(a, z, i) - TableErrors(K, a, z, s, params, i), p, p, qKS);
  }

  /**
    KeySwitch: the phase under the small key is the phase under the long key minus the errors of the
    selected table entries, exactly, for every table of the right shape; the vector depends on the
    long vector and the table alone.
   */
  method KeySwitch(params: LWECryptoParams, K: LWESwitchingKey, ctQN: LWECiphertext, ghost z: seq<int>,
                   ghost s: seq<int>)
    returns (ct: LWECiphertext)
    requires TableShape(K, params) && |z| == params.N && |s| == params.n
    requires ctQN.Valid() && ctQN.q == params.qKS && |ctQN.a| == params.N
    ensures fresh(ct) && ct.Valid() && ct.q == params.qKS && |ct.a| == params.n && ct.p == 4
    ensures ct.Phase(s) % params.qKS == (ctQN.Phase(z) - TableErrors(K, ctQN.a, z, s, params, params.N)) % params.qKS
    ensures ct.a == TableMask(K, ctQN.a, params, params.N)
    ensures ct.b == (ctQN.b - TableShift(K, ctQN.a, params, params.N)) % params.qKS
  {
    hide RowShape, DigitCount, TableErrors, Inner, Residues, TableShape, RowMask, RowShift;
    assert params.Valid() && |K| == params.N && 2 < params.qKS by { TableRows(K, params); }
    var Q := params.qKS;
    var a := seq(params.n, _ => 0);
    var b := ctQN.b;
    assert Residues(a, Q) by { ZeroResidues(params.n, Q); }
    ModSmall(b, Q);
    for i := 0 to params.N
      invariant a == TableMask(K, ctQN.a, params, i) && b == (ctQN.b - TableShift(K, ctQN.a, params, i)) % Q
      invariant Residues(a, Q)
    {
      assert RowShape(K[i], params) by { TableRow(K, params, i); }
      assert 0 <= ctQN.a[i] < Q by { ResidueAt(ctQN.a, i, Q); }
      ShiftOn(ctQN.b, TableShift(K, ctQN.a, params, i), b,
              RowShift(K[i], ctQN.a[i], params, DigitCount(params.qKS, params.baseKS)), Q);
      a, b := SwitchEntry(K[i], ctQN.a[i], a, b, params, s);
    }
    TablePhase(K, ctQN.a, ctQN.b, z, s, params, params.N);
    ct := new LWECiphertext(a, b, Q, 4);
  }

  lemma TableRows(K: LWESwitchingKey, params: LWECryptoParams)
    requires TableShape(K, params)
    ensures params.Valid() && |K| == params.N
  {}

  lemma TableRow(K: LWESwitchingKey, params: LWECryptoParams, i: nat)
    requires TableShape(K, params) && i < |K|
    ensures RowShape(K[i], params)
  {}

  lemma ResidueAt(a: seq<int>, i: nat, q: int)
    requires Residues(a, q) && i < |a|
    ensures 0 <= a[i] < q
  {}

  lemma ZeroResidues(n: nat, q: int)
    requires 0 < q
    ensures Residues(seq(n, _ => 0), q)
  {}

  /** The worst case: one table error per digit and entry. */
  lemma KeySwitchClose(x: int, x': int, K: LWESwitchingKey, a: seq<int>, z: seq<int>, s: seq<int>,
                       params: LWECryptoParams, noise: int)
    requires SwitchingKeyFor(K, z, s, params, noise) && TableShape(K, params) && |a| == params.N
    requires x' % params.qKS == (x - TableErrors(K, a, z, s, params, params.N)) % params.qKS
    ensures Close(x', x, TableError(params, noise), params.qKS)
  {
    hide Close, DigitCount, TableErrors, RowOK, RowShape;
    var R := TableErrors(K, a, z, s, params, params.N);
    TableErrorsBounded(K, a, z, s, params, noise, params.N);
    CloseIntro(x - R, x, TableError(params, noise), params.qKS, 0);
    CloseCong(x - R, x, x', x, TableError(params, noise), params.qKS);
  }

  lemma {:induction false} ZeroInner(a: seq<int>, s: seq<int>, n: nat)
    requires n <= |a| && n <= |s| && forall i :: 0 <= i < n ==> a[i] == 0
    ensures Inner(a, s, n) == 0
  {
    if n != 0 {
      ZeroInner(a, s, n - 1);
    }
  }

  // ---------------------------------------------------------------------------
  // The switching chain
  // ---------------------------------------------------------------------------

  /** Error of the chain times 2*Q*qKS, divided by Q: two roundings and the table errors. */
  function ChainError(params: LWECryptoParams, q: int, zNorm: int, sNorm: int, noise: int): int {
    q * (1 + zNorm) + params.qKS * (1 + sNorm) + 2 * q * TableError(params, noise)
  }

  function TableError(params: LWECryptoParams, noise: int): int
  {
    if params.baseKS < 2 then 0 else params.N * (DigitCount(params.qKS, params.baseKS) * noise)
  }

  /** Three links x -> y -> u -> v composed on the common scale 2*Q*qKS. */
  lemma ChainLinks(x: int, y: int, u: int, v: int, Q: int, k: int, q: int, zn: int, sn: int, t: int)
    requires 0 < Q && 0 < k && 0 < q && 0 < 2 * Q * k && 0 < 2 * k * q && 0 < 2 * Q * k * q
    requires Close(2 * Q * y, 2 * k * x, (1 + zn) * Q, 2 * Q * k)
    requires Close(u, y, t, k)
    requires Close(2 * k * v, 2 * q * u, (1 + sn) * k, 2 * k * q)
    ensures Close(2 * Q * k * v, 2 * k * q * x, Q * (q * (1 + zn) + k * (1 + sn) + 2 * q * t), 2 * Q * k * q)
  {
    hide Close;
    var M := 2 * Q * k * q;
    Link(2 * k * v, 2 * q * u, (1 + sn) * k, 2 * k * q, Q, 2 * Q * k * v, 2 * Q * q * u, Q * ((1 + sn) * k), M);
    Link(u, y, t, k, 2 * Q * q, 2 * Q * q * u, 2 * Q * q * y, 2 * Q * q * t, M);
    Link(2 * Q * y, 2 * k * x, (1 + zn) * Q, 2 * Q * k, q, 2 * Q * q * y, 2 * k * q * x, q * ((1 + zn) * Q), M);
    CloseTrans(2 * Q * k * v, 2 * Q * q * u, 2 * Q * q * y, Q * ((1 + sn) * k), 2 * Q * q * t, M);
    CloseTrans(2 * Q * k * v, 2 * Q * q * y, 2 * k * q * x, Q * ((1 + sn) * k) + 2 * Q * q * t, q * ((1 + zn) * Q), M);
    ErrorSum(Q, k, q, zn, sn, t);
  }

  lemma ErrorSum(Q: int, k: int, q: int, zn: int, sn: int, t: int)
    ensures Q * ((1 + sn) * k) + 2 * Q * q * t + q * ((1 + zn) * Q) == Q * (q * (1 + zn) + k * (1 + sn) + 2 * q * t)
  {
    assert Q * (q * (1 + zn) + k * (1 + sn) + 2 * q * t) == Q * (q * (1 + zn)) + Q * (k * (1 + sn)) + Q * (2 * q * t);
    assert Q * (2 * q * t) == 2 * Q * q * t by {
      MulAssoc(Q, 2 * q, t);
      assert Q * (2 * q) == 2 * Q * q;
    }
    assert Q * (q * (1 + zn)) == q * ((1 + zn) * Q) by {
      MulAssoc(q, 1 + zn, Q);
    }
    assert k * (1 + sn) == (1 + sn) * k;
  }

  lemma Link(x: int, y: int, b: int, M: int, c: int, x': int, y': int, b': int, M': int)
    requires 0 < M && 0 < c && 0 < M' && Close(x, y, b, M)
    requires x' == c * x && y' == c * y && b' == c * b && M' == c * M
    ensures Close(x', y', b', M')
  {
    CloseScaleUp(c, x, y, b, M);
  }

  /** The vector of a ciphertext modulo Q after the chain: a function of its vector and the table. */
  ghost function SwitchedVector(params: LWECryptoParams, K: LWESwitchingKey, a: seq<int>, Q: int, q: int): (r: seq<int>)
    requires TableShape(K, params) && |a| == params.N && 0 < Q && 0 < q
    ensures |r| == params.n
  {
    RoundVector(TableMask(K, RoundVector(a, params.qKS, Q), params, params.N), q, params.qKS)
  }

  /** Its offset after the chain. */
  ghost function SwitchedOffset(params: LWECryptoParams, K: LWESwitchingKey, a: seq<int>, b: int, Q: int, q: int): int
    requires TableShape(K, params) && |a| == params.N && 0 < Q && 0 < q
  {
    var shift := TableShift(K, RoundVector(a, params.qKS, Q), params, params.N);
    RoundqQ((RoundqQ(b, params.qKS, Q) - shift) % params.qKS, q, params.qKS)
  }

  lemma SwitchedOffsetRange(params: LWECryptoParams, K: LWESwitchingKey, a: seq<int>, b: int, Q: int, q: int)
    requires TableShape(K, params) && |a| == params.N && 0 < Q && 0 < q
    ensures 0 <= SwitchedOffset(params, K, a, b, Q, q) < q
  {}

  /** With growing moduli every residue is the switched offset of one, whatever the vector. */
  lemma SwitchedOnto(params: LWECryptoParams, K: LWESwitchingKey, a: seq<int>, Q: int, q: int, t: int) returns (b: int)
    requires TableShape(K, params) && |a| == params.N && 0 <= t < q <= params.qKS <= Q
    ensures 0 <= b < Q && SwitchedOffset(params, K, a, b, Q, q) == t
  {
    hide RoundqQ, TableShape;
    assert 0 < params.qKS;
    var shift := TableShift(K, RoundVector(a, params.qKS, Q), params, params.N);
    var u := RoundOnto(t, q, params.qKS);
    var w := (u + shift) % params.qKS;
    ModMod(u + shift, params.qKS);
    ModAddCong(w, u + shift, shift, shift, params.qKS);
    ModSmall(u, params.qKS);
    b := RoundOnto(w, params.qKS, Q);
  }

  /** Modulus switch to qKS, key switch, modulus switch to q. */
  method SwitchTo(params: LWECryptoParams, K: LWESwitchingKey, ct: LWECiphertext, q: int,
                  ghost z: seq<int>, ghost s: seq<int>, ghost noise: int)
    returns (r: LWECiphertext)
    requires SwitchingKeyFor(K, z, s, params, noise) && ct.Valid() && |ct.a| == params.N && 2 < q
    ensures fresh(r) && r.Valid() && r.q == q && |r.a| == params.n && r.p == 4
    ensures Chained(params, ct.q, q, ct.Phase(z), r.Phase(s), AbsSum(z, |z|), AbsSum(s, |s|), noise)
    ensures TableShape(K, params) && r.a == SwitchedVector(params, K, ct.a, ct.q, q)
    ensures r.b == SwitchedOffset(params, K, ct.a, ct.b, ct.q, q)
  {
    hide Close, SwitchingKeyFor, TableShape, TableErrors, TableMask, TableShift, RoundVector, RoundqQ, Chained;
    assert params.Valid() && |z| == params.N && |s| == params.n by { SwitchingKeySizes(K, z, s, params, noise); }
    SwitchingKeyShape(K, z, s, params, noise);
    var ctMS := ModSwitch(params.qKS, ct, z);
    var ctKS := KeySwitch(params, K, ctMS, z, s);
    r := ModSwitch(q, ctKS, s);
    SwitchedChained(params, K, ct.a, ct.b, ct.q, q, z, s, noise);
  }

  /** The phases before and after the chain. */
  lemma SwitchedChained(params: LWECryptoParams, K: LWESwitchingKey, a: seq<int>, b: int, Q: int, q: int, z: seq<int>,
                        s: seq<int>, noise: int)
    requires SwitchingKeyFor(K, z, s, params, noise) && TableShape(K, params) && |a| == params.N && 0 < Q && 0 < q
    ensures |z| == params.N && |s| == params.n
    ensures Residues(SwitchedVector(params, K, a, Q, q), q) && 0 <= SwitchedOffset(params, K, a, b, Q, q) < q
    ensures Chained(params, Q, q, PhaseOf(a, b, z),
                    PhaseOf(SwitchedVector(params, K, a, Q, q), SwitchedOffset(params, K, a, b, Q, q), s),
                    AbsSum(z, |z|), AbsSum(s, |s|), noise)
  {
    hide Close, SwitchingKeyFor, TableShape, TableErrors, TableMask, TableShift, RoundVector, RoundqQ, PhaseOf,
         Residues;
    assert params.Valid() && |z| == params.N && |s| == params.n by { SwitchingKeySizes(K, z, s, params, noise); }
    var k := params.qKS;
    var x, y := RoundVector(a, k, Q), RoundqQ(b, k, Q);
    var x', y' := TableMask(K, x, params, params.N), (y - TableShift(K, x, params, params.N)) % k;
    RoundedPhaseClose(a, b, k, Q, z);
    assert PhaseOf(x, y, z) == y - Inner(x, z, params.N) by { PhaseIs(x, y, z); }
    TablePhase(K, x, y, z, s, params, params.N);
    KeySwitchClose(PhaseOf(x, y, z), PhaseOf(x', y', s), K, x, z, s, params, noise);
    RoundedPhaseClose(x', y', q, k, s);
    PositiveProducts(Q, k, q);
    ChainLinks(PhaseOf(a, b, z), PhaseOf(x, y, z), PhaseOf(x', y', s),
               PhaseOf(RoundVector(x', q, k), RoundqQ(y', q, k), s), Q, k, q, AbsSum(z, |z|), AbsSum(s, |s|),
               TableError(params, noise));
  }

  lemma PhaseIs(a: seq<int>, b: int, s: seq<int>)
    requires |a| == |s|
    ensures PhaseOf(a, b, s) == b - Inner(a, s, |a|)
  {}

  lemma SwitchingKeySizes(K: LWESwitchingKey, z: seq<int>, s: seq<int>, params: LWECryptoParams, noise: int)
    requires SwitchingKeyFor(K, z, s, params, noise)
    ensures params.Valid() && |z| == params.N && |s| == params.n && 0 <= noise
  {}

  lemma PositiveProducts(Q: int, k: int, q: int)
    requires 0 < Q && 0 < k && 0 < q
    ensures 0 < 2 * Q * k && 0 < 2 * k * q && 0 < 2 * Q * k * q
  {
    MulNonNeg(2 * Q - 1, k);
    MulNonNeg(2 * k - 1, q);
    MulNonNeg(2 * Q * k - 1, q);
  }

  /** y modulo q is x modulo Q brought along the chain. */
  ghost predicate Chained(params: LWECryptoParams, Q: int, q: int, x: int, y: int, zNorm: int, sNorm: int, noise: int) {
    var k := params.qKS;
    && 0 < Q && 0 < k && 0 < q && 0 < 2 * Q * k * q
    && Close(2 * Q * k * y, 2 * k * q * x, Q * ChainError(params, q, zNorm, sNorm, noise), 2 * Q * k * q)
  }

  // ---------------------------------------------------------------------------
  // Encoded messages
  // ---------------------------------------------------------------------------

  /** The phase, modulo q, is the fraction m/p of the circle up to e units. */
  ghost predicate Encodes(phase: int, q: int, m: int, p: int, e: int) {
    0 < p && 0 < q && 0 < p * q && Close(p * phase, m * q, p * e, p * q)
  }

  lemma EncodesIntro(phase: int, q: int, m: int, p: int, e: int, k: int)
    requires 0 < p && 0 < q && -(p * e) <= p * phase - m * q - k * (p * q) <= p * e
    ensures Encodes(phase, q, m, p, e)
  {
    MulNonNeg(p, q);
    MulNonNeg(p - 1, q);
    assert p * q == (p - 1) * q + q;
    CloseIntro(p * phase, m * q, p * e, p * q, k);
  }

  lemma EncodesWitness(phase: int, q: int, m: int, p: int, e: int) returns (k: int)
    requires Encodes(phase, q, m, p, e)
    ensures -(p * e) <= p * phase - m * q - k * (p * q) <= p * e
  {
    k := CloseWitness(p * phase, m * q, p * e, p * q);
  }

  lemma EncodesCong(phase: int, phase': int, q: int, m: int, p: int, e: int)
    requires Encodes(phase, q, m, p, e) && phase % q == phase' % q
    ensures Encodes(phase', q, m, p, e)
  {
    ModScale(phase, phase', p, q);
    CloseCong(p * phase, m * q, p * phase', m * q, p * e, p * q);
  }

  lemma EncodesWiden(phase: int, q: int, m: int, p: int, e: int, e': int)
    requires Encodes(phase, q, m, p, e) && e <= e'
    ensures Encodes(phase, q, m, p, e')
  {
    MulMonotone(p, e, e');
    CloseMono(p * phase, m * q, p * e, p * e', p * q);
  }

  /** A point near an encoding is an encoding with a larger error. */
  lemma EncodesNear(x: int, y: int, q: int, m: int, p: int, e: int, b: int)
    requires 0 < q && Encodes(y, q, m, p, e) && Close(x, y, b, q)
    ensures Encodes(x, q, m, p, e + b)
  {
    CloseScaleUp(p, x, y, b, q);
    CloseTrans(p * x, p * y, m * q, p * b, p * e, p * q);
    assert p * (e + b) == p * b + p * e;
  }

  /** Adding encodings adds messages and errors. */
  lemma EncodesAdd(x: int, y: int, q: int, m: int, n: int, p: int, e: int, f: int)
    requires Encodes(x, q, m, p, e) && Encodes(y, q, n, p, f)
    ensures Encodes(x + y, q, m + n, p, e + f)
  {
    CloseAdd(p * x, m * q, p * y, n * q, p * e, p * f, p * q);
    assert p * (x + y) == p * x + p * y && (m + n) * q == m * q + n * q && p * (e + f) == p * e + p * f;
  }

  lemma EncodesNonNeg(phase: int, q: int, m: int, p: int, e: int)
    requires Encodes(phase, q, m, p, e)
    ensures 0 <= e
  {
    if e < 0 {
      MulMonotone(p, e, -1);
    }
  }

  /** A message encoded over its own modulus is simply close to the phase. */
  lemma EncodesSame(phase: int, q: int, m: int, e: int)
    requires 0 < q && 0 <= e
    ensures Encodes(phase, q, m, q, e) <==> Close(phase, m, e, q)
  {
    MulNonNeg(q - 1, q);
    assert q * q == (q - 1) * q + q;
    assert m * q == q * m;
    if Encodes(phase, q, m, q, e) {
      CloseScaleDown(q, phase, m, q * e, q);
      DivModIs(q * e, q, e, 0);
    }
    if Close(phase, m, e, q) {
      CloseScaleUp(q, phase, m, e, q);
    }
  }

  /** The error with which a phase encodes m: the least that Encodes allows. */
  function ErrorOf(phase: int, q: int, m: int, p: int): int
    requires 0 < p && 0 < q
  {
    MulNonNeg(p - 1, q);
    assert p * q == (p - 1) * q + q;
    CeilDiv(Distance(p * phase, m * q, p * q), p)
  }

  lemma ErrorOfExact(phase: int, q: int, m: int, p: int, e: int)
    requires 0 < p && 0 < q
    ensures Encodes(phase, q, m, p, e) <==> ErrorOf(phase, q, m, p) <= e
    ensures 0 <= ErrorOf(phase, q, m, p)
  {
    hide Close, Distance, CeilDiv;
    MulNonNeg(p - 1, q);
    assert p * q == (p - 1) * q + q;
    DistanceExact(p * phase, m * q, p * e, p * q);
    var d := Distance(p * phase, m * q, p * q);
    CeilDivBound(d, p);
    var c := CeilDiv(d, p);
    if d <= p * e {
      FactorLess(p, c, e + 1);
      assert p * (e + 1) == p * e + p;
    }
    if c <= e {
      MulMonotone(p, c, e);
    }
    FactorLess(p, -1, c);
  }

  lemma ErrorOfCong(phase: int, phase': int, q: int, m: int, p: int)
    requires 0 < p && 0 < q && phase % q == phase' % q
    ensures ErrorOf(phase, q, m, p) == ErrorOf(phase', q, m, p)
  {
    hide Encodes, ErrorOf;
    var e, e' := ErrorOf(phase, q, m, p), ErrorOf(phase', q, m, p);
    ErrorOfExact(phase, q, m, p, e);
    ErrorOfExact(phase', q, m, p, e');
    EncodesCong(phase, phase', q, m, p, e);
    EncodesCong(phase', phase, q, m, p, e');
    ErrorOfExact(phase, q, m, p, e');
    ErrorOfExact(phase', q, m, p, e);
  }

  /** Error of an encoded message after the chain: the scaled old error plus the chain's own, rounded up. */
  function SwitchedError(params: LWECryptoParams, Q: int, q: int, zNorm: int, sNorm: int, noise: int, e: int): int {
    CeilDiv(Q * ChainError(params, q, zNorm, sNorm, noise) + 2 * params.qKS * q * e, 2 * Q * params.qKS)
  }

  function CeilDiv(x: int, y: int): int {
    if y <= 0 then 0 else (x + y - 1) / y
  }

  lemma CeilDivBound(x: int, y: int)
    requires 0 < y
    ensures x <= y * CeilDiv(x, y) < x + y
  {
    var d := (x + y - 1) / y;
    assert x + y - 1 == d * y + (x + y - 1) % y;
    assert d * y == y * d;
  }

  lemma SwitchedErrorNonNeg(params: LWECryptoParams, Q: int, q: int, zNorm: int, sNorm: int, noise: int, e: int)
    requires params.Valid() && 0 < Q && 0 < q && 0 <= zNorm && 0 <= sNorm && 0 <= noise && 0 <= e
    ensures 0 <= SwitchedError(params, Q, q, zNorm, sNorm, noise, e)
  {
    var k := params.qKS;
    MulNonNeg(q, 1 + zNorm);
    MulNonNeg(k, 1 + sNorm);
    MulNonNeg(DigitCount(k, params.baseKS), noise);
    MulNonNeg(params.N, DigitCount(k, params.baseKS) * noise);
    MulNonNeg(2 * q, TableError(params, noise));
    MulNonNeg(Q, ChainError(params, q, zNorm, sNorm, noise));
    MulNonNeg(2 * k, q);
    MulNonNeg(2 * k * q, e);
    PositiveProducts(Q, k, q);
    CeilDivBound(Q * ChainError(params, q, zNorm, sNorm, noise) + 2 * k * q * e, 2 * Q * k);
    FactorLess(2 * Q * k, -1, SwitchedError(params, Q, q, zNorm, sNorm, noise, e));
  }

  /** The chain keeps what a ciphertext encodes. */
  lemma ChainEncodes(params: LWECryptoParams, Q: int, q: int, x: int, y: int, zNorm: int, sNorm: int, noise: int,
                     m: int, p: int, e: int)
    requires Chained(params, Q, q, x, y, zNorm, sNorm, noise) && Encodes(x, Q, m, p, e)
    ensures Encodes(y, q, m, p, SwitchedError(params, Q, q, zNorm, sNorm, noise, e))
  {
    hide Close, ChainError;
    var k := params.qKS;
    ChainEncodesInts(x, y, Q, k, q, Q * ChainError(params, q, zNorm, sNorm, noise), m, p, e);
  }

  /** Error, at the start of the chain, of what encodes a message with error e at its end. */
  function StartError(params: LWECryptoParams, Q: int, q: int, zNorm: int, sNorm: int, noise: int, e: int): int {
    CeilDiv(Q * ChainError(params, q, zNorm, sNorm, noise) + 2 * params.qKS * Q * e, 2 * q * params.qKS)
  }

  /** What the chain carried to an encoding was one, up to the chain's own error. */
  lemma ChainEncodesBack(params: LWECryptoParams, Q: int, q: int, x: int, y: int, zNorm: int, sNorm: int, noise: int,
                         m: int, p: int, e: int)
    requires Chained(params, Q, q, x, y, zNorm, sNorm, noise) && Encodes(y, q, m, p, e)
    ensures Encodes(x, Q, m, p, StartError(params, Q, q, zNorm, sNorm, noise, e))
  {
    hide Close, ChainError, Encodes;
    var k, W := params.qKS, Q * ChainError(params, q, zNorm, sNorm, noise);
    assert 2 * Q * k == 2 * k * Q && 2 * k * q == 2 * q * k;
    Swapped(2 * k, Q, q);
    CloseSym(2 * Q * k * y, 2 * k * q * x, W, 2 * Q * k * q);
    ChainEncodesInts(y, x, q, k, Q, W, m, p, e);
  }

  lemma Swapped(c: int, x: int, y: int)
    ensures c * x * y == c * y * x
  {}

  lemma ChainEncodesInts(x: int, y: int, Q: int, k: int, q: int, W: int, m: int, p: int, e: int)
    requires 0 < Q && 0 < k && 0 < q && 0 < 2 * Q * k * q
    requires Close(2 * Q * k * y, 2 * k * q * x, W, 2 * Q * k * q)
    requires Encodes(x, Q, m, p, e)
    ensures Encodes(y, q, m, p, CeilDiv(W + 2 * k * q * e, 2 * Q * k))
  {
    hide Close;
    PositiveProducts(Q, k, q);
    MulNonNeg(p - 1, q);
    assert p * q == (p - 1) * q + q;
    var D, E := 2 * Q * k, W + 2 * k * q * e;
    MulNonNeg(D - 1, p * q);
    assert D * (p * q) == (D - 1) * (p * q) + p * q;
    FirstScale(x, y, Q, k, q, W, p);
    SecondScale(x, Q, k, q, m, p, e);
    CloseTrans(D * (p * y), 2 * k * q * (p * x), D * (m * q), p * W, p * (2 * k * q * e), D * (p * q));
    assert p * E == p * W + p * (2 * k * q * e);
    CeilDivBound(E, D);
    var E' := CeilDiv(E, D);
    MulMonotone(p, E, D * E');
    assert p * (D * E') == D * (p * E') by { MulAssoc(p, D, E'); MulAssoc(D, p, E'); assert p * D == D * p; }
    CloseMono(D * (p * y), D * (m * q), p * E, D * (p * E'), D * (p * q));
    CloseScaleDown(D, p * y, m * q, D * (p * E'), p * q);
    DivModIs(D * (p * E'), D, p * E', 0);
  }

  lemma FirstScale(x: int, y: int, Q: int, k: int, q: int, W: int, p: int)
    requires 0 < Q && 0 < k && 0 < q && 0 < p && 0 < 2 * Q * k * q && 0 < 2 * Q * k * (p * q)
    requires Close(2 * Q * k * y, 2 * k * q * x, W, 2 * Q * k * q)
    ensures Close(2 * Q * k * (p * y), 2 * k * q * (p * x), p * W, 2 * Q * k * (p * q))
  {
    hide Close;
    Shuffle(2 * Q * k, p, y);
    Shuffle(2 * k * q, p, x);
    Shuffle(2 * Q * k, p, q);
    Link(2 * Q * k * y, 2 * k * q * x, W, 2 * Q * k * q, p,
         2 * Q * k * (p * y), 2 * k * q * (p * x), p * W, 2 * Q * k * (p * q));
  }

  lemma Shuffle(c: int, p: int, y: int)
    ensures c * (p * y) == p * (c * y)
  {
    MulAssoc(c, p, y);
    MulAssoc(p, c, y);
    assert c * p == p * c;
  }

  lemma SecondScale(x: int, Q: int, k: int, q: int, m: int, p: int, e: int)
    requires 0 < Q && 0 < k && 0 < q && 0 < 2 * k * q && 0 < 2 * Q * k * (p * q)
    requires Encodes(x, Q, m, p, e)
    ensures Close(2 * k * q * (p * x), 2 * Q * k * (m * q), p * (2 * k * q * e), 2 * Q * k * (p * q))
  {
    hide Close;
    var c := 2 * k * q;
    assert c * (m * Q) == 2 * Q * k * (m * q) by { Swap(k, q, m, Q); }
    assert c * (p * Q) == 2 * Q * k * (p * q) by { Swap(k, q, p, Q); }
    Shuffle(c, p, e);
    Link(p * x, m * Q, p * e, p * Q, c, c * (p * x), 2 * Q * k * (m * q), p * (c * e), 2 * Q * k * (p * q));
  }

  lemma Swap(k: int, q: int, m: int, Q: int)
    ensures 2 * k * q * (m * Q) == 2 * Q * k * (m * q)
  {
    assert 2 * k * q * (m * Q) == 2 * k * (q * (m * Q)) by { MulAssoc(2 * k, q, m * Q); }
    assert q * (m * Q) == Q * (m * q) by {
      MulAssoc(q, m, Q);
      MulAssoc(Q, m, q);
      assert q * m * Q == Q * (q * m);
      assert Q * (m * q) == Q * (q * m);
    }
    assert 2 * Q * k * (m * q) == 2 * k * (Q * (m * q)) by { MulAssoc(2 * k, Q, m * q); assert 2 * k * Q == 2 * Q * k; }
  }

  /** A phase encoding m closely enough decrypts to m. */
  lemma EncodedDecodes(phase: int, q: int, m: int, p: int, e: int)
    requires Encodes(phase, q, m, p, e) && 2 * (p * e) < q
    ensures Decodes(phase, m, p, q)
  {
    var h, M := q / (p * 2), p * q;
    assert 0 < p && 0 < q && 0 < M;
    hide Encodes;
    var k := EncodesWitness(phase, q, m, p, e);
    RoundedQuotient(q, p * 2);
    InsideWindow(p * phase - m * q, k * M, p, q, h, e, M);
    ShiftedWindow(p * phase - m * q + p * h, k, M, k * M, q);
  }

  lemma RoundedQuotient(q: int, c: int)
    requires 0 < c
    ensures q / c * c <= q < q / c * c + c
  {}

  lemma InsideWindow(y: int, z: int, p: int, q: int, h: int, e: int, M: int)
    requires 0 < p && 0 < q && M == p * q && -(p * e) <= y - z <= p * e && 2 * (p * e) < q
    requires h * (p * 2) <= q < h * (p * 2) + p * 2
    ensures 0 <= y + p * h - z < q <= M
  {
    assert h * (p * 2) == 2 * (p * h);
    assert p * (h + 1) == p * h + p;
    FactorLess(p, e, h + 1);
    MulMonotone(p, e, h);
    MulMonotone(q, 1, p);
    assert q * p == M;
  }

  lemma ShiftedWindow(y: int, k: int, M: int, z: int, q: int)
    requires z == k * M && 0 <= y - z < q <= M
    ensures y % M < q
  {
    DivModIs(y, M, k, y - z);
  }

  /** A fresh encryption encodes its message with the drawn error, plus q mod p when p does not divide q. */
  lemma FreshEncodes(phase: int, m: int, p: int, q: int, err: int)
    requires 0 < p && 0 < q && phase % q == ((m % p) * (q / p) + err) % q
    ensures Encodes(phase, q, m % p, p, Abs(err) + q % p)
  {
    var v, d, r := m % p, q / p, q % p;
    AbsMulBound(p, err, Abs(err));
    assert q == d * p + r;
    assert v * (d * p + r) == v * (d * p) + v * r;
    assert p * (v * d + err) == p * (v * d) + p * err;
    assert p * (v * d) == v * (d * p);
    MulNonNeg(v, r);
    Arithmetic.MulMonotone(r, v, p);
    assert p * (Abs(err) + r) == p * Abs(err) + p * r;
    EncodesIntro(v * d + err, q, v, p, Abs(err) + r, 0);
    EncodesCong(v * d + err, phase, q, v, p, Abs(err) + r);
  }

  /** Encrypting and decrypting with the same key returns the message when the drawn error is small. */
  method EncryptDecrypt(sk: LWEPrivateKey, m: nat, p: nat, q: int, a: seq<int>, err: int) returns (result: int)
    requires sk.Valid() && 0 < p && 2 < q && |a| == |sk.values| && Residues(a, q) && 2 * (p * (Abs(err) + q % p)) < q
    ensures result == m % p
  {
    hide Close, Decodes, Encodes, PhaseOf, SignedValue;
    var ct := Encrypt(sk, m, p, q, a, err);
    result := Decrypt(sk, ct, p);
    FreshEncodes(ct.Phase(sk.Signed()), m, p, q, err);
    EncodedDecodes(ct.Phase(sk.Signed()), q, m % p, p, Abs(err) + q % p);
    assert Decodes(ct.Phase(sk.Signed()), m % p, p, ct.q);
  }

  /** SwitchCTtoqn: from the ring key and modulus Q to the small key and q. */
  method SwitchCTtoqn(params: LWECryptoParams, K: LWESwitchingKey, ct: LWECiphertext,
                      ghost z: seq<int>, ghost s: seq<int>, ghost noise: int)
    returns (r: LWECiphertext)
    requires SwitchingKeyFor(K, z, s, params, noise) && ct.Valid() && |ct.a| == params.N
    ensures fresh(r) && r.Valid() && r.q == params.q && |r.a| == params.n && r.p == 4
    ensures Chained(params, ct.q, params.q, ct.Phase(z), r.Phase(s), AbsSum(z, |z|), AbsSum(s, |s|), noise)
    ensures TableShape(K, params) && r.a == SwitchedVector(params, K, ct.a, ct.q, params.q)
    ensures r.b == SwitchedOffset(params, K, ct.a, ct.b, ct.q, params.q)
  {
    r := SwitchTo(params, K, ct, params.q, z, s, noise);
  }

  /**
    Switching then decrypting returns the message of the long ciphertext whenever its error, scaled
    and enlarged by the chain, stays below q/2p.
   */
  method DecryptSwitched(params: LWECryptoParams, K: LWESwitchingKey, ct: LWECiphertext, sk: LWEPrivateKey, p: nat,
                         ghost z: seq<int>, ghost noise: int, ghost m: int, ghost e: int)
    returns (result: int)
    requires sk.Valid() && SwitchingKeyFor(K, z, sk.Signed(), params, noise) && ct.Valid() && |ct.a| == params.N
    requires |z| == params.N
    requires 0 <= m < p && Encodes(ct.Phase(z), ct.q, m, p, e)
    requires 2 * (p * SwitchedError(params, ct.q, params.q, AbsSum(z, |z|), AbsSum(sk.Signed(), |sk.values|), noise,
                                    e)) < params.q
    ensures result == m
  {
    hide Close, SwitchedError, Decodes, Chained, Encodes, SwitchingKeyFor, Residues, PhaseOf, SignedValue, AbsSum;
    ghost var s := sk.Signed();
    assert |s| == params.n by { SwitchingKeySizes(K, z, s, params, noise); }
    var r := SwitchCTtoqn(params, K, ct, z, s, noise);
    ghost var bound := SwitchedError(params, ct.q, params.q, AbsSum(z, |z|), AbsSum(s, |s|), noise, e);
    ChainEncodes(params, ct.q, params.q, ct.Phase(z), r.Phase(s), AbsSum(z, |z|), AbsSum(s, |s|), noise, m, p, e);
    result := Decrypt(sk, r, p);
    EncodedDecodes(r.Phase(s), params.q, m, p, bound);
    assert Decodes(r.Phase(sk.Signed()), m, p, r.q);
  }
}
