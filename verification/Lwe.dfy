/**
  LWE encryption (src/binfhe/lib/lwe-pke.cpp, src/binfhe/include/lwe-ciphertext.h): ciphertexts
  updated in place, their linear operations, encryption, decryption and modulus switching.
 */
module Lwe {
  import opened Arithmetic
  import opened LweBasics

  function AddVector(a: seq<int>, b: seq<int>, q: int): (r: seq<int>)
    requires |a| == |b|
    ensures |r| == |a|
  {
    seq(|a|, i requires 0 <= i < |a| => ModAddFast(a[i], b[i], q))
  }

  function SubVector(a: seq<int>, b: seq<int>, q: int): (r: seq<int>)
    requires |a| == |b|
    ensures |r| == |a|
  {
    seq(|a|, i requires 0 <= i < |a| => ModSubFast(a[i], b[i], q))
  }

  function SwitchVector(a: seq<int>, q: int, newq: int): (r: seq<int>)
    requires 0 < newq
    ensures |r| == |a|
  {
    seq(|a|, i requires 0 <= i < |a| => SwitchValue(a[i], q, newq))
  }

  /** b - <a, s>, the message with its noise. */
  function PhaseOf(a: seq<int>, b: int, s: seq<int>): int
    requires |a| == |s|
  {
    b - Inner(a, s, |a|)
  }

  /** The two parts of a ciphertext as a value. */
  datatype LWEValue = LWEValue(a: seq<int>, b: int) {

    ghost predicate Ok(n: nat, q: int) {
      |a| == n && Residues(a, q) && 0 <= b < q
    }

    function Phase(s: seq<int>): int
      requires |a| == |s|
    {
      PhaseOf(a, b, s)
    }
  }

  function AddValues(x: LWEValue, y: LWEValue, q: int): (r: LWEValue)
    requires |x.a| == |y.a|
    ensures |r.a| == |x.a|
  {
    LWEValue(AddVector(x.a, y.a, q), ModAddFast(x.b, y.b, q))
  }

  lemma AddValuesPhase(x: LWEValue, y: LWEValue, q: int, s: seq<int>)
    requires 0 < q && x.Ok(|s|, q) && y.Ok(|s|, q)
    ensures AddValues(x, y, q).Ok(|s|, q) && AddValues(x, y, q).Phase(s) % q == (x.Phase(s) + y.Phase(s)) % q
  {
    hide PhaseOf, AddVector;
    AddPhase(x.a, x.b, y.a, y.b, q, s);
    ModAddFastIs(x.b, y.b, q);
  }

  class LWECiphertext {
    var a: seq<int>
    var b: int
    var q: int
    var p: int

    constructor (a: seq<int>, b: int, q: int, p: int)
      ensures this.a == a && this.b == b && this.q == q && this.p == p
    {
      this.a, this.b, this.q, this.p := a, b, q, p;
    }

    /** Copying keeps the vector and drops the plaintext modulus. */
    constructor Copy(ct: LWECiphertext)
      ensures a == ct.a && b == ct.b && q == ct.q && p == 4
    {
      a, b, q, p := ct.a, ct.b, ct.q, 4;
    }

    ghost predicate Valid()
      reads this
    {
      2 < q && Residues(a, q) && 0 <= b < q
    }

    ghost function Phase(s: seq<int>): int
      requires |a| == |s|
      reads this
    {
      PhaseOf(a, b, s)
    }

    ghost function Value(): LWEValue
      reads this
    {
      LWEValue(a, b)
    }

    /** Moves the ciphertext to another modulus; the phase is kept when the new modulus divides the old. */
    method SetModulus(newq: int, ghost s: seq<int>)
      requires Valid() && 2 < newq && |s| == |a|
      modifies this`a, this`b, this`q
      ensures Valid() && q == newq && a == SwitchVector(old(a), old(q), newq) && b == old(b) % newq
      ensures |a| == |old(a)| && forall i :: 0 <= i < |a| ==>
        a[i] == (if 2 * old(a)[i] <= old(q) then old(a)[i] else old(a)[i] - old(q)) % newq
      ensures old(q) % newq == 0 ==> Phase(s) % newq == old(Phase(s)) % newq
    {
      ghost var b0 := b;
      var was, oldq := a, q;
      var switched := SwitchVector(was, oldq, newq);
      forall i | 0 <= i < |was|
        ensures 0 <= switched[i] < newq && switched[i] % newq == SignedValue(was[i], oldq) % newq
        ensures switched[i] == (if 2 * was[i] <= oldq then was[i] else was[i] - oldq) % newq
      {
        SwitchValueSigned(was[i], oldq, newq);
        SwitchValueIs(was[i], oldq, newq);
      }
      a := switched;
      b := b % newq;
      q := newq;
      if oldq % newq == 0 {
        SwitchedPhase(was, b0, oldq, switched, newq, s);
      }
    }
  }

  lemma SwitchedPhase(a: seq<int>, b: int, q: int, a': seq<int>, newq: int, s: seq<int>)
    requires 0 < newq && 0 < q && q % newq == 0 && |a| == |a'| == |s|
    requires forall i :: 0 <= i < |a| ==> a'[i] % newq == SignedValue(a[i], q) % newq
    ensures PhaseOf(a', b % newq, s) % newq == PhaseOf(a, b, s) % newq
  {
    forall i | 0 <= i < |a|
      ensures a'[i] % newq == a[i] % newq
    {
      var d := q / newq;
      assert q == d * newq;
      ModPlusMultiple(a[i], -d, newq);
      assert a[i] - q == a[i] + -d * newq;
    }
    InnerCong(a', a, s, |s|, newq);
    ModMod(b, newq);
    ModAddCong(b % newq, b, Inner(a', s, |s|), Inner(a, s, |s|), newq);
  }

  // ---------------------------------------------------------------------------
  // Linear operations
  // ---------------------------------------------------------------------------

  lemma AddPhase(a: seq<int>, b: int, a': seq<int>, b': int, q: int, s: seq<int>)
    requires 0 < q && |a| == |a'| == |s| && Residues(a, q) && Residues(a', q) && 0 <= b < q && 0 <= b' < q
    ensures Residues(AddVector(a, a', q), q) && Residues(SubVector(a, a', q), q)
    ensures PhaseOf(AddVector(a, a', q), ModAddFast(b, b', q), s) % q == (PhaseOf(a, b, s) + PhaseOf(a', b', s)) % q
    ensures PhaseOf(SubVector(a, a', q), ModSubFast(b, b', q), s) % q == (PhaseOf(a, b, s) - PhaseOf(a', b', s)) % q
  {
    hide Residues, AddVector, SubVector;
    SumInner(a, a', q, s);
    DifferenceInner(a, a', q, s);
    ModAddFastIs(b, b', q);
    ModSubFastIs(b, b', q);
    ModMod(b + b', q);
    ModMod(b - b', q);
    var n := |s|;
    ModAddCong((b + b') % q, b + b', Inner(AddVector(a, a', q), s, n), Inner(a, s, n) + Inner(a', s, n), q);
    ModAddCong((b - b') % q, b - b', Inner(SubVector(a, a', q), s, n), Inner(a, s, n) - Inner(a', s, n), q);
  }

  lemma SumInner(a: seq<int>, a': seq<int>, q: int, s: seq<int>)
    requires 0 < q && |a| == |a'| == |s| && Residues(a, q) && Residues(a', q)
    ensures Residues(AddVector(a, a', q), q)
    ensures Inner(AddVector(a, a', q), s, |s|) % q == (Inner(a, s, |s|) + Inner(a', s, |s|)) % q
  {
    hide Inner, ModAddFast;
    var n := |s|;
    var sum := seq(n, i requires 0 <= i < n => a[i] + a'[i]);
    InnerAdd(a, a', sum, s, n);
    forall i | 0 <= i < n
      ensures 0 <= AddVector(a, a', q)[i] < q && AddVector(a, a', q)[i] % q == sum[i] % q
    {
      assert AddVector(a, a', q)[i] == ModAddFast(a[i], a'[i], q);
      ModAddFastIs(a[i], a'[i], q);
      ModMod(sum[i], q);
    }
    InnerCong(AddVector(a, a', q), sum, s, n, q);
  }

  lemma DifferenceInner(a: seq<int>, a': seq<int>, q: int, s: seq<int>)
    requires 0 < q && |a| == |a'| == |s| && Residues(a, q) && Residues(a', q)
    ensures Residues(SubVector(a, a', q), q)
    ensures Inner(SubVector(a, a', q), s, |s|) % q == (Inner(a, s, |s|) - Inner(a', s, |s|)) % q
  {
    hide Inner;
    var n := |s|;
    var neg := seq(n, i requires 0 <= i < n => -1 * a'[i]);
    var dif := seq(n, i requires 0 <= i < n => a[i] + neg[i]);
    InnerScale(-1, a', neg, s, n);
    InnerAdd(a, neg, dif, s, n);
    forall i | 0 <= i < n
      ensures 0 <= SubVector(a, a', q)[i] < q && SubVector(a, a', q)[i] % q == dif[i] % q
    {
      ModSubFastIs(a[i], a'[i], q);
      ModMod(dif[i], q);
    }
    InnerCong(SubVector(a, a', q), dif, s, n, q);
  }

  /** ct1 += ct2; the two may be the same object, which doubles it. */
  method EvalAddEq(ct1: LWECiphertext, ct2: LWECiphertext, ghost s: seq<int>)
    requires ct1.Valid() && ct2.Valid() && ct1.q == ct2.q && |ct1.a| == |ct2.a| == |s|
    modifies ct1`a, ct1`b
    ensures ct1.Valid() && |ct1.a| == |s|
    ensures ct1.a == AddVector(old(ct1.a), old(ct2.a), ct1.q) && ct1.b == ModAddFast(old(ct1.b), old(ct2.b), ct1.q)
    ensures ct1.Phase(s) % ct1.q == (old(ct1.Phase(s)) + old(ct2.Phase(s))) % ct1.q
  {
    AddPhase(ct1.a, ct1.b, ct2.a, ct2.b, ct1.q, s);
    ct1.a := AddVector(ct1.a, ct2.a, ct1.q);
    ct1.b := ModAddFast(ct1.b, ct2.b, ct1.q);
  }

  /** ct1 -= ct2. */
  method EvalSubEq(ct1: LWECiphertext, ct2: LWECiphertext, ghost s: seq<int>)
    requires ct1.Valid() && ct2.Valid() && ct1.q == ct2.q && |ct1.a| == |ct2.a| == |s|
    modifies ct1`a, ct1`b
    ensures ct1.Valid() && |ct1.a| == |s|
    ensures ct1.a == SubVector(old(ct1.a), old(ct2.a), ct1.q) && ct1.b == ModSubFast(old(ct1.b), old(ct2.b), ct1.q)
    ensures ct1.Phase(s) % ct1.q == (old(ct1.Phase(s)) - old(ct2.Phase(s))) % ct1.q
  {
    AddPhase(ct1.a, ct1.b, ct2.a, ct2.b, ct1.q, s);
    ct1.a := SubVector(ct1.a, ct2.a, ct1.q);
    ct1.b := ModSubFast(ct1.b, ct2.b, ct1.q);
  }

  /** ct2 := ct1 - ct2. */
  method EvalSubEq2(ct1: LWECiphertext, ct2: LWECiphertext, ghost s: seq<int>)
    requires ct1 != ct2 && ct1.Valid() && ct2.Valid() && ct1.q == ct2.q && |ct1.a| == |ct2.a| == |s|
    modifies ct2`a, ct2`b
    ensures ct2.Valid() && |ct2.a| == |s|
    ensures ct2.a == SubVector(ct1.a, old(ct2.a), ct1.q) && ct2.b == ModSubFast(ct1.b, old(ct2.b), ct1.q)
    ensures ct2.Phase(s) % ct2.q == (old(ct1.Phase(s)) - old(ct2.Phase(s))) % ct2.q
  {
    AddPhase(ct1.a, ct1.b, ct2.a, ct2.b, ct1.q, s);
    ct2.a := SubVector(ct1.a, ct2.a, ct1.q);
    ct2.b := ModSubFast(ct1.b, ct2.b, ct1.q);
  }

  /** Adds a constant to the phase; a constant that is no residue leaves an offset that need not be one. */
  method EvalAddConstEq(ct: LWECiphertext, cnst: int, ghost s: seq<int>)
    requires ct.Valid() && 0 <= cnst && |ct.a| == |s|
    modifies ct`b
    ensures ct.b == if old(ct.b) + cnst < ct.q then old(ct.b) + cnst else old(ct.b) + cnst - ct.q
    ensures ct.b == ModAddFast(old(ct.b), cnst, ct.q) && 0 <= ct.b
    ensures cnst < ct.q ==> ct.Valid() && ct.b == (old(ct.b) + cnst) % ct.q
    ensures cnst < ct.q ==> ct.Phase(s) % ct.q == (old(ct.Phase(s)) + cnst) % ct.q
  {
    if cnst < ct.q {
      ModAddFastIs(ct.b, cnst, ct.q);
      ModMod(ct.b + cnst, ct.q);
      ModAddCong((ct.b + cnst) % ct.q, ct.b + cnst, Inner(ct.a, s, |s|), Inner(ct.a, s, |s|), ct.q);
    }
    ct.b := ModAddFast(ct.b, cnst, ct.q);
  }

  /** Subtracts a constant from the phase. */
  method EvalSubConstEq(ct: LWECiphertext, cnst: int, ghost s: seq<int>)
    requires ct.Valid() && 0 <= cnst < ct.q && |ct.a| == |s|
    modifies ct`b
    ensures ct.Valid() && ct.b == (old(ct.b) - cnst) % ct.q
    ensures ct.Phase(s) % ct.q == (old(ct.Phase(s)) - cnst) % ct.q
  {
    ModSubFastIs(ct.b, cnst, ct.q);
    ModMod(ct.b - cnst, ct.q);
    ModAddCong((ct.b - cnst) % ct.q, ct.b - cnst, Inner(ct.a, s, |s|), Inner(ct.a, s, |s|), ct.q);
    ct.b := ModSubFast(ct.b, cnst, ct.q);
  }

  /** Multiplies the phase by a constant. */
  method EvalMultConstEq(ct1: LWECiphertext, cnst: int, ghost s: seq<int>)
    requires ct1.Valid() && 0 <= cnst < ct1.q && |ct1.a| == |s|
    modifies ct1`a, ct1`b
    ensures ct1.Valid() && |ct1.a| == |s|
    ensures ct1.a == ScaleVector(cnst, old(ct1.a), ct1.q) && ct1.b == (cnst * old(ct1.b)) % ct1.q
    ensures ct1.Phase(s) % ct1.q == (cnst * old(ct1.Phase(s))) % ct1.q
  {
    ScaledPhase(ct1.a, ct1.b, cnst, ct1.q, s);
    ct1.a := ScaleVector(cnst, ct1.a, ct1.q);
    ct1.b := (cnst * ct1.b) % ct1.q;
  }

  function ScaleVector(c: int, a: seq<int>, q: int): (r: seq<int>)
    requires 0 < q
    ensures |r| == |a| && Residues(r, q)
  {
    seq(|a|, i requires 0 <= i < |a| => (c * a[i]) % q)
  }

  lemma ScaledPhase(a: seq<int>, b: int, c: int, q: int, s: seq<int>)
    requires 0 < q && |a| == |s|
    ensures PhaseOf(ScaleVector(c, a, q), (c * b) % q, s) % q == (c * PhaseOf(a, b, s)) % q
  {
    var n := |s|;
    var exact := seq(n, i requires 0 <= i < n => c * a[i]);
    var stored := ScaleVector(c, a, q);
    InnerScale(c, a, exact, s, n);
    forall i | 0 <= i < n
      ensures stored[i] % q == exact[i] % q
    {
      ModMod(exact[i], q);
    }
    InnerCong(stored, exact, s, n, q);
    ModMod(c * b, q);
    ModAddCong((c * b) % q, c * b, Inner(stored, s, n), Inner(exact, s, n), q);
    assert c * (b - Inner(a, s, n)) == c * b - c * Inner(a, s, n);
  }

  // ---------------------------------------------------------------------------
  // Encryption and decryption
  // ---------------------------------------------------------------------------

  /** Sum of a[i] * s[i] modulo q, each product reduced. */
  lemma StoredInnerStep(x: int, y: int, u: int, v: int, q: int)
    requires 0 < q && x % q == y % q && u % q == v % q
    ensures forall w :: (x + (w * u) % q) % q == (y + w * v) % q
  {
    forall w
      ensures (x + (w * u) % q) % q == (y + w * v) % q
    {
      ModMod(w * u, q);
      ModMulCong(w, w, u, v, q);
      ModAddCong(x, y, (w * u) % q, w * v, q);
    }
  }

  /** The inner product with the key as both Encrypt and Decrypt accumulate it. */
  method KeyInner(start: int, a: seq<int>, s: seq<int>, q: int, ghost signed: seq<int>) returns (r: int)
    requires 0 < q && |a| == |s| == |signed| && forall i :: 0 <= i < |s| ==> s[i] % q == signed[i] % q
    ensures r % q == (start + Inner(a, signed, |a|)) % q
  {
    r := start;
    for i := 0 to |a|
      invariant r % q == (start + Inner(a, signed, i)) % q
    {
      StoredInnerStep(r, start + Inner(a, signed, i), s[i], signed[i], q);
      r := r + (a[i] * s[i]) % q;
    }
  }

  /** The phase of a fresh ciphertext is the scaled message plus the drawn error. */
  method Encrypt(sk: LWEPrivateKey, m: nat, p: nat, q: int, a: seq<int>, err: int) returns (ct: LWECiphertext)
    requires sk.Valid() && 0 < p && 2 < q && |a| == |sk.values| && Residues(a, q)
    ensures fresh(ct) && ct.Valid() && ct.a == a && ct.q == q && ct.p == p
    ensures ct.Phase(sk.Signed()) % q == ((m % p) * (q / p) + err) % q
  {
    var s := SwitchModulus(sk, q);
    SwitchModulusSigned(sk, q);
    var b := (m % p) * (q / p) + err % q;
    ghost var exact := (m % p) * (q / p) + err;
    b := KeyInner(b, a, s, q, sk.Signed());
    ct := new LWECiphertext(a, b % q, q, p);
    ghost var I := Inner(a, sk.Signed(), |a|);
    ModMod(err, q);
    ModMod(b, q);
    ModAddCong((m % p) * (q / p), (m % p) * (q / p), err % q, err, q);
    ModAddCong((m % p) * (q / p) + err % q, exact, I, I, q);
    ModAddCong(b % q, exact + I, I, I, q);
  }

  /** The message window: p * phase is within [-p*floor(q/2p), q - p*floor(q/2p)) of m * q, modulo p * q. */
  predicate Decodes(phase: int, m: int, p: int, q: int)
    requires 0 < p && 0 < q && 0 < p * q
  {
    (p * phase - m * q + p * (q / (p * 2))) % (p * q) < q
  }

  /** Decrypt returns m exactly on the message window of m. */
  method Decrypt(sk: LWEPrivateKey, ct: LWECiphertext, p: nat) returns (result: int)
    requires sk.Valid() && ct.Valid() && |ct.a| == |sk.values| && 0 < p
    ensures 0 <= result < p && 0 < p * ct.q
    ensures forall m :: 0 <= m < p ==> (result == m <==> Decodes(ct.Phase(sk.Signed()), m, p, ct.q))
    ensures (p * ct.Phase(sk.Signed()) - result * ct.q + p * (ct.q / (p * 2))) % (p * ct.q) < ct.q
  {
    hide Decodes, SignedValue, SwitchValue;
    var q := ct.q;
    var s := SwitchModulus(sk, q);
    SwitchModulusSigned(sk, q);
    var inner := KeyInner(0, ct.a, s, q, sk.Signed());
    inner := inner % q;
    HalfStep(p, q);
    ModMod(Inner(ct.a, sk.Signed(), |ct.a|), q);
    var r := ModSubFast(ct.b, inner, q);
    r := ModAddFast(r, q / (p * 2), q);
    RoundedPhase(ct.b, inner, Inner(ct.a, sk.Signed(), |ct.a|), q / (p * 2), r, q);
    result := (p * r) / q;
    DecodeAll(ct.Phase(sk.Signed()), r, p, q, result);
    WindowIs(ct.Phase(sk.Signed()), result, p, q);
  }

  lemma WindowIs(phase: int, m: int, p: int, q: int)
    requires 0 < p && 0 < q && 0 < p * q && Decodes(phase, m, p, q)
    ensures (p * phase - m * q + p * (q / (p * 2))) % (p * q) < q
  {}

  lemma DecodeAll(phase: int, r: int, p: int, q: int, result: int)
    requires 0 < p && 0 < q && 0 < p * q && 0 <= r < q && r == (phase + q / (p * 2)) % q && result == (p * r) / q
    ensures 0 <= result < p
    ensures forall m :: 0 <= m < p ==> (result == m <==> Decodes(phase, m, p, q))
  {
    hide Decodes;
    DecodeResult(r, p, q, result);
    forall m | 0 <= m < p
      ensures result == m <==> Decodes(phase, m, p, q)
    {
      DecodeIff(phase, r, m, p, q, result);
    }
  }

  lemma RoundedPhase(b: int, inner: int, exact: int, h: int, r: int, q: int)
    requires 0 <= b < q && 0 <= inner < q && 0 <= h < q && inner % q == exact % q
    requires r == ModAddFast(ModSubFast(b, inner, q), h, q)
    ensures 0 <= r < q && r == (b - exact + h) % q
  {
    ModSubFastIs(b, inner, q);
    ModAddFastIs((b - inner) % q, h, q);
    ModAddCong(b, b, inner, exact, q);
    ModMod(b - inner, q);
    ModAddCong((b - inner) % q, b - exact, h, h, q);
  }

  lemma HalfStep(p: int, q: int)
    requires 0 < p && 2 < q
    ensures 0 <= q / (p * 2) < q && 0 < p * q
  {
    var k := p * 2;
    var h := q / k;
    assert q == h * k + q % k;
    assert k * h == h * k;
    FactorLess(k, -1, h);
    MulMonotone(q, 2, k);
    assert q * k == k * q;
    FactorLess(k, h, q);
    MulMonotone(q, 1, p);
    assert p * q == q * p;
  }

  lemma DecodeResult(r: int, p: int, q: int, result: int)
    requires 0 < p && 0 < q && 0 <= r < q && result == (p * r) / q
    ensures 0 <= result < p && q * result <= p * r < q * (result + 1)
  {
    var x := p * r;
    MulNonNeg(p, r);
    MulMonotone(p, r + 1, q);
    assert p * (r + 1) == x + p;
    assert x == x / q * q + x % q;
    DecodeRange(x, p, q, result);
  }

  lemma DecodeRange(x: int, p: int, q: int, d: int)
    requires 0 < p && 0 < q && 0 <= x && x + p <= p * q && d * q <= x < d * q + q
    ensures 0 <= d < p && q * d <= x < q * (d + 1)
  {
    assert q * d == d * q && q * (d + 1) == d * q + q && q * p == p * q && q * -1 == -q;
    FactorLess(q, d, p);
    FactorLess(q, -1, d);
  }

  lemma DecodeIff(phase: int, r: int, m: int, p: int, q: int, result: int)
    requires 0 < p && 0 < q && 0 < p * q && 0 <= r < q && 0 <= m < p && r == (phase + q / (p * 2)) % q
    requires 0 <= result < p && q * result <= p * r < q * (result + 1)
    ensures result == m <==> Decodes(phase, m, p, q)
  {
    var h := q / (p * 2);
    var k := (phase + h) / q;
    assert phase + h == k * q + r;
    DecodeShift(phase, h, k, r, m, p, q, k * q);
    ModPlusMultiple(p * r - m * q, k, p * q);
    DecodeWindow(r, m, p, q, result, p * r, p * q);
  }

  lemma DecodeShift(phase: int, h: int, k: int, r: int, m: int, p: int, q: int, e: int)
    requires phase + h == e + r && e == k * q
    ensures p * phase - m * q + p * h == p * r - m * q + k * (p * q)
  {
    assert p * (phase + h) == p * phase + p * h;
    assert p * (e + r) == p * e + p * r;
    assert p * (k * q) == k * (p * q);
  }

  /** The scaled residue x lies in the window of m exactly when m is the result. */
  lemma DecodeWindow(r: int, m: int, p: int, q: int, result: int, x: int, M: int)
    requires 0 < q && 0 <= m < p && 0 <= result < p && q * result <= x < q * (result + 1) && M == p * q && 0 < M
    ensures result == m <==> (x - m * q) % M < q
  {
    assert q * m == m * q && q * (result + 1) == q * result + q && q * (m + 1) == q * m + q;
    MulNonNeg(q, m);
    MulNonNeg(q, result);
    MulMonotone(q, result + 1, p);
    MulMonotone(q, m + 1, p);
    assert q * p == M;
    if m <= result {
      MulMonotone(q, m, result);
      DivModIs(x - m * q, M, 0, x - m * q);
      if m < result {
        MulMonotone(q, m + 1, result);
      }
    } else {
      MulMonotone(q, result + 1, m);
      DivModIs(x - m * q, M, -1, x - m * q + M);
    }
  }

  // ---------------------------------------------------------------------------
  // Modulus switching
  // ---------------------------------------------------------------------------

  /** floor(1/2 + v*q/Q) modulo q. */
  function RoundqQ(v: int, q: int, Q: int): int
    requires 0 < q && 0 < Q
  {
    ((2 * v * q + Q) / (2 * Q)) % q
  }

  function RoundVector(a: seq<int>, q: int, Q: int): (r: seq<int>)
    requires 0 < q && 0 < Q
    ensures |r| == |a|
  {
    seq(|a|, i requires 0 <= i < |a| => RoundqQ(a[i], q, Q))
  }

  /** The scaled value moves to the nearest integer, a tie to the larger one, and that is taken modulo q. */
  lemma RoundIs(v: int, q: int, Q: int, d: int)
    requires 0 < q && 0 < Q && 2 * v * q - Q < 2 * Q * d <= 2 * v * q + Q
    ensures RoundqQ(v, q, Q) == d % q
  {
    var x := 2 * v * q + Q;
    assert d * (2 * Q) == 2 * Q * d;
    DivModIs(x, 2 * Q, d, x - d * (2 * Q));
  }

  /** There is such an integer. */
  lemma Nearest(v: int, q: int, Q: int) returns (d: int)
    requires 0 < q && 0 < Q
    ensures 2 * v * q - Q < 2 * Q * d <= 2 * v * q + Q
  {
    var x := 2 * v * q + Q;
    d := x / (2 * Q);
    assert x == d * (2 * Q) + x % (2 * Q);
    assert d * (2 * Q) == 2 * Q * d;
  }

  /** r is x times q/Q rounded entry by entry to the integers d, a tie to the larger one, and reduced modulo q. */
  ghost predicate Rounded(x: seq<int>, r: seq<int>, d: seq<int>, q: int, Q: int)
    requires 0 < q
  {
    && |x| == |r| == |d|
    && forall i :: 0 <= i < |x| ==> 2 * x[i] * q - Q < 2 * Q * d[i] <= 2 * x[i] * q + Q && r[i] == d[i] % q
  }

  lemma {:induction false} RoundedAll(x: seq<int>, r: seq<int>, q: int, Q: int) returns (d: seq<int>)
    requires 0 < q && 0 < Q && |x| == |r| && forall i :: 0 <= i < |x| ==> r[i] == RoundqQ(x[i], q, Q)
    ensures Rounded(x, r, d, q, Q)
  {
    hide RoundqQ;
    if |x| == 0 {
      d := [];
    } else {
      var k := |x| - 1;
      var rest := RoundedAll(x[..k], r[..k], q, Q);
      var last := Nearest(x[k], q, Q);
      RoundIs(x[k], q, Q, last);
      d := rest + [last];
    }
  }

  /** A smaller or equal modulus is reached in full: every residue is the rounding of one. */
  lemma RoundOnto(t: int, q: int, Q: int) returns (v: int)
    requires 0 <= t < q <= Q
    ensures 0 <= v < Q && RoundqQ(v, q, Q) == t
  {
    var n := 2 * Q * t - q;
    v := (n + 2 * q - 1) / (2 * q);
    var r := 2 * q * v - n;
    assert 0 <= r < 2 * q;
    RoundedBack(t, q, Q, v, r);
  }

  lemma RoundedBack(t: int, q: int, Q: int, v: int, r: int)
    requires 0 <= t < q <= Q && 2 * q * v == 2 * Q * t - q + r && 0 <= r < 2 * q
    ensures 0 <= v < Q && RoundqQ(v, q, Q) == t
  {
    hide RoundqQ;
    RoundProducts(q, v, Q, t);
    RoundedRange(t, q, Q, v, r, q * v, Q * t);
    RoundedIs(v, q, Q, t, 2 * v * q, t * (2 * Q), r);
  }

  lemma RoundProducts(q: int, v: int, Q: int, t: int)
    ensures 2 * (q * v) == 2 * q * v == 2 * v * q && 2 * (Q * t) == 2 * Q * t == t * (2 * Q)
  {}

  lemma RoundedIs(v: int, q: int, Q: int, t: int, x: int, y: int, r: int)
    requires 0 <= t < q <= Q && x == 2 * v * q && y == t * (2 * Q) && x == y - q + r && 0 <= r < 2 * q
    ensures RoundqQ(v, q, Q) == t
  {
    DivModIs(x + Q, 2 * Q, t, Q - q + r);
    ModSmall(t, q);
  }

  lemma RoundedRange(t: int, q: int, Q: int, v: int, r: int, x: int, y: int)
    requires 0 <= t < q <= Q && x == q * v && y == Q * t && 2 * x == 2 * y - q + r && 0 <= r < 2 * q
    ensures 0 <= v < Q
  {
    MulNonNeg(Q, t);
    MulMonotone(Q, t, q - 1);
    assert Q * (q - 1) == q * Q - Q && q * -1 == -q;
    FactorLess(q, v, Q);
    FactorLess(q, -1, v);
  }

  /** Rounding moves the scaled value by at most half a unit. */
  lemma RoundClose(v: int, q: int, Q: int)
    requires 0 < q && 0 < Q && 0 < 2 * Q * q
    ensures 0 <= RoundqQ(v, q, Q) < q
    ensures Close(2 * Q * RoundqQ(v, q, Q), 2 * q * v, Q, 2 * Q * q)
  {
    var x := 2 * v * q + Q;
    var d, r := x / (2 * Q), x % (2 * Q);
    assert x == d * (2 * Q) + r;
    var e, t := d / q, d % q;
    assert d == e * q + t;
    assert 2 * Q * t == d * (2 * Q) - e * (2 * Q * q) by {
      assert (e * q + t) * (2 * Q) == e * q * (2 * Q) + t * (2 * Q);
      MulAssoc(e, q, 2 * Q);
    }
    assert 2 * v * q == 2 * q * v;
    CloseIntro(2 * Q * t, 2 * q * v, Q, 2 * Q * q, -e);
  }

  /** Phase of a vector each of whose entries moved by at most b after scaling. */
  lemma ScaledPhaseClose(a: seq<int>, b: int, a': seq<int>, b': int, c: int, c': int, s: seq<int>, e: int, M: int)
    requires 0 < M && 0 <= e && |a| == |a'| == |s|
    requires Close(c' * b', c * b, e, M) && forall i :: 0 <= i < |a| ==> Close(c' * a'[i], c * a[i], e, M)
    ensures Close(c' * PhaseOf(a', b', s), c * PhaseOf(a, b, s), (1 + AbsSum(s, |s|)) * e, M)
  {
    var n := |s|;
    var x := seq(n, i requires 0 <= i < n => c * a[i]);
    var x' := seq(n, i requires 0 <= i < n => c' * a'[i]);
    InnerScale(c, a, x, s, n);
    InnerScale(c', a', x', s, n);
    InnerClose(x', x, s, n, e, M);
    var X, X', w := Inner(a, s, n), Inner(a', s, n), AbsSum(s, n);
    CloseAdd(c' * b', c * b, c' * X', c * X, e, w * e, M);
    ScaledDifference(c, b, X);
    ScaledDifference(c', b', X');
    ScaledSum(w, e);
  }

  lemma ScaledDifference(c: int, b: int, x: int)
    ensures c * (b - x) == c * b - c * x
  {}

  lemma ScaledSum(w: int, e: int)
    ensures (1 + w) * e == e + w * e
  {}

  /** Rounding every part moves the scaled phase by at most half a unit per unit of the key, and one half. */
  lemma RoundedPhaseClose(a: seq<int>, b: int, q: int, Q: int, s: seq<int>)
    requires 0 < q && 0 < Q && |a| == |s|
    ensures 0 < 2 * Q * q
    ensures Residues(RoundVector(a, q, Q), q) && 0 <= RoundqQ(b, q, Q) < q
    ensures Close(2 * Q * PhaseOf(RoundVector(a, q, Q), RoundqQ(b, q, Q), s), 2 * q * PhaseOf(a, b, s),
                  (1 + AbsSum(s, |s|)) * Q, 2 * Q * q)
  {
    hide Close, RoundqQ;
    MulNonNeg(Q - 1, q);
    assert 2 * Q * q == 2 * ((Q - 1) * q) + 2 * q;
    forall i | 0 <= i < |a|
      ensures 0 <= RoundqQ(a[i], q, Q) < q && Close(2 * Q * RoundqQ(a[i], q, Q), 2 * q * a[i], Q, 2 * Q * q)
    {
      RoundClose(a[i], q, Q);
    }
    RoundClose(b, q, Q);
    ScaledPhaseClose(a, b, RoundVector(a, q, Q), RoundqQ(b, q, Q), 2 * q, 2 * Q, s, Q, 2 * Q * q);
  }

  /** Scale-and-round from modulus Q to q; the plaintext modulus falls back to its default. */
  method ModSwitch(q: int, ctQ: LWECiphertext, ghost s: seq<int>) returns (ct: LWECiphertext)
    requires 2 < q && ctQ.Valid() && |ctQ.a| == |s|
    ensures fresh(ct) && ct.Valid() && |ct.a| == |s| && ct.q == q && ct.p == 4 && 0 < 2 * ctQ.q * q
    ensures ct.b == RoundqQ(ctQ.b, q, ctQ.q) && ct.a == RoundVector(ctQ.a, q, ctQ.q)
    ensures exists d :: Rounded(ctQ.a + [ctQ.b], ct.a + [ct.b], d, q, ctQ.q)
    ensures Close(2 * ctQ.q * ct.Phase(s), 2 * q * ctQ.Phase(s), (1 + AbsSum(s, |s|)) * ctQ.q, 2 * ctQ.q * q)
  {
    hide Close, RoundqQ;
    var Q := ctQ.q;
    var a: seq<int> := [];
    for i := 0 to |ctQ.a|
      invariant |a| == i && forall j :: 0 <= j < i ==> a[j] == RoundqQ(ctQ.a[j], q, Q)
    {
      a := a + [RoundqQ(ctQ.a[i], q, Q)];
    }
    assert a == RoundVector(ctQ.a, q, Q);
    RoundedPhaseClose(ctQ.a, ctQ.b, q, Q, s);
    ghost var d := RoundedAll(ctQ.a + [ctQ.b], a + [RoundqQ(ctQ.b, q, Q)], q, Q);
    ct := new LWECiphertext(a, RoundqQ(ctQ.b, q, Q), q, 4);
  }
}
