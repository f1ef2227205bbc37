/**
  Generation of the bootstrapping keys for every gadget base (src/binfhe/lib/binfhecontext.cpp:281-302).
 */
module KeyMaps {
  import opened Arithmetic
  import opened Gadget
  import opened RgswParams
  import opened Accumulator
  import opened LweBasics
  import opened KeySwitching
  import opened AccumulatorDM
  import AccumulatorCGGI
  import opened Bootstrapping
  import opened LargePrecision

  /** What one run of KeyGen draws: a ring key of its own, ring samples and table samples. */
  datatype Draws = Draws(skN: LWEPrivateKey, bs: (int, int, int, int) -> Sample, ks: (int, int, int) -> KSEntry)

  ghost predicate DrawsOK(d: Draws, params: BinFHECryptoParams, noise: int, ksNoise: int) {
    && d.skN.Valid() && |d.skN.values| == params.lwe.N && 0 <= noise && 0 <= ksNoise
    && SamplerOK(d.bs, params.rgsw.N, params.rgsw.Q, noise)
    && forall i, j, k :: |d.ks(i, j, k).a| == params.lwe.n && Residues(d.ks(i, j, k).a, params.lwe.qKS)
                      && -ksNoise <= d.ks(i, j, k).b <= ksNoise
  }

  ghost function SecretsOf(sk: LWEPrivateKey, d: Draws, noise: int, ksNoise: int): Secrets {
    Secrets(sk.Signed(), d.skN.Signed(), noise, ksNoise)
  }

  /** The power tables are those of usable bases. */
  ghost predicate MapReady(tables: map<int, seq<int>>, Q: int) {
    forall k :: k in tables ==> IsGadgetBase(k) && 2 <= k < Q && GadgetPowers(tables[k], k, Q)
  }

  /** A constructor that prepared sign evaluation leaves usable tables when Q exceeds the largest base. */
  lemma SignTablesReady(rgsw: RingGSWCryptoParams)
    requires rgsw.SignReady() && 134217728 < rgsw.Q && rgsw.gPowerMap.Keys == {16384, 262144, 134217728}
    ensures MapReady(rgsw.gPowerMap, rgsw.Q)
  {
    SignBasesArePowers();
    forall k | k in rgsw.gPowerMap
      ensures IsGadgetBase(k) && 2 <= k < rgsw.Q && GadgetPowers(rgsw.gPowerMap[k], k, rgsw.Q)
    {
      assert k in {16384, 262144, 134217728};
    }
  }

  /** The CGGI accumulator's keys stand for the secret only if it is ternary. */
  ghost predicate Suited(params: BinFHECryptoParams, sk: LWEPrivateKey) {
    params.rgsw.variant == GINX ==> AccumulatorCGGI.IsTernary(sk)
  }

  /** KeyGen under one base. */
  method KeyGenAt(params: BinFHECryptoParams, sk: LWEPrivateKey, base: int, d: Draws, ghost noise: int,
                  ghost ksNoise: int)
    returns (key: RingGSWBTKey)
    requires params.Valid() && params.rgsw.GadgetReady() && sk.Valid() && |sk.values| == params.lwe.n
    requires DrawsOK(d, params, noise, ksNoise)
    requires params.rgsw.variant == LMKCDEY ==> params.rgsw.numAutoKeys < params.lwe.n
    requires base in params.rgsw.gPowerMap && MapReady(params.rgsw.gPowerMap, params.rgsw.Q)
    modifies params.rgsw`baseG, params.rgsw`digitsG, params.rgsw`gPower, params.rgsw`gPowerMap
    ensures params.Valid() && params.rgsw.GadgetReady() && params.rgsw.baseG == base
    ensures params.rgsw.gPowerMap == old(params.rgsw.gPowerMap)
    ensures Suited(params, sk) ==> KeysFor(key, params, base, SecretsOf(sk, d, noise, ksNoise))
  {
    hide GateTable, PlainPowers, MonomialTable, LogTable, IsPow2, Pow, KeysFor, SampleOK, AccumulatorCGGI.IsTernary;
    params.rgsw.ChangeBaseG(base);
    key := KeyGen(params, sk, d.skN, d.bs, d.ks, noise, ksNoise);
  }

  /** The keys of all tabulated bases but the given ones are new, the others as they were. */
  ghost predicate Generated(keyMap: map<int, RingGSWBTKey>, oldMap: map<int, RingGSWBTKey>, tables: map<int, seq<int>>,
                            bases: set<int>, params: BinFHECryptoParams, sk: LWEPrivateKey, draw: int -> Draws,
                            noise: int, ksNoise: int) {
    && bases <= tables.Keys && keyMap.Keys + bases == oldMap.Keys + tables.Keys
    && (forall b :: b in oldMap && b !in tables ==> b in keyMap && keyMap[b] == oldMap[b])
    && (Suited(params, sk) ==> forall b :: b in tables && b !in bases ==>
          b in keyMap && KeysFor(keyMap[b], params, b, SecretsOf(sk, draw(b), noise, ksNoise)))
  }

  lemma GeneratedFirst(oldMap: map<int, RingGSWBTKey>, tables: map<int, seq<int>>, params: BinFHECryptoParams,
                       sk: LWEPrivateKey, draw: int -> Draws, noise: int, ksNoise: int)
    ensures Generated(oldMap, oldMap, tables, tables.Keys, params, sk, draw, noise, ksNoise)
  {
    hide KeysFor, SecretsOf, Suited;
  }

  lemma StillTabulated(keyMap: map<int, RingGSWBTKey>, oldMap: map<int, RingGSWBTKey>, tables: map<int, seq<int>>,
                       bases: set<int>, params: BinFHECryptoParams, sk: LWEPrivateKey, draw: int -> Draws, noise: int,
                       ksNoise: int, k: int)
    requires Generated(keyMap, oldMap, tables, bases, params, sk, draw, noise, ksNoise) && k in bases
    ensures k in tables
  {
    hide KeysFor, SecretsOf, Suited;
  }

  lemma GeneratedNext(keyMap: map<int, RingGSWBTKey>, oldMap: map<int, RingGSWBTKey>, tables: map<int, seq<int>>,
                      bases: set<int>, params: BinFHECryptoParams, sk: LWEPrivateKey, draw: int -> Draws, noise: int,
                      ksNoise: int, k: int, key: RingGSWBTKey)
    requires Generated(keyMap, oldMap, tables, bases, params, sk, draw, noise, ksNoise) && k in bases
    requires Suited(params, sk) ==> KeysFor(key, params, k, SecretsOf(sk, draw(k), noise, ksNoise))
    ensures Generated(keyMap[k := key], oldMap, tables, bases - {k}, params, sk, draw, noise, ksNoise)
  {
    hide KeysFor, SecretsOf, Suited;
    var next := keyMap[k := key];
    assert next.Keys + (bases - {k}) == keyMap.Keys + bases;
  }

  lemma GeneratedLast(keyMap: map<int, RingGSWBTKey>, oldMap: map<int, RingGSWBTKey>, tables: map<int, seq<int>>,
                      params: BinFHECryptoParams, sk: LWEPrivateKey, draw: int -> Draws, noise: int, ksNoise: int)
    requires Generated(keyMap, oldMap, tables, {}, params, sk, draw, noise, ksNoise)
    ensures keyMap.Keys == oldMap.Keys + tables.Keys
    ensures forall b :: b in oldMap && b !in tables ==> keyMap[b] == oldMap[b]
    ensures Suited(params, sk) ==>
      forall b :: b in tables ==> KeysFor(keyMap[b], params, b, SecretsOf(sk, draw(b), noise, ksNoise))
  {
    hide KeysFor, SecretsOf, Suited;
  }

  /** The loop over all tabulated bases: their keys are replaced, others kept; afterwards the base is as before. */
  method GenerateAll(params: BinFHECryptoParams, sk: LWEPrivateKey, oldMap: map<int, RingGSWBTKey>, draw: int -> Draws,
                     ghost noise: int, ghost ksNoise: int)
    returns (keyMap: map<int, RingGSWBTKey>)
    requires params.Valid() && params.rgsw.GadgetReady() && sk.Valid() && |sk.values| == params.lwe.n
    requires forall b :: DrawsOK(draw(b), params, noise, ksNoise)
    requires params.rgsw.variant == LMKCDEY ==> params.rgsw.numAutoKeys < params.lwe.n
    requires MapReady(params.rgsw.gPowerMap, params.rgsw.Q)
    modifies params.rgsw`baseG, params.rgsw`digitsG, params.rgsw`gPower, params.rgsw`gPowerMap
    ensures params.Valid() && params.rgsw.baseG == old(params.rgsw.baseG)
    ensures keyMap.Keys == oldMap.Keys + old(params.rgsw.gPowerMap).Keys
    ensures old(params.rgsw.gPowerMap) == map[] ==> params.rgsw.GadgetReady()
    ensures forall b :: b in oldMap && b !in old(params.rgsw.gPowerMap) ==> keyMap[b] == oldMap[b]
    ensures Suited(params, sk) ==>
      forall b :: b in old(params.rgsw.gPowerMap) ==>
        KeysFor(keyMap[b], params, b, SecretsOf(sk, draw(b), noise, ksNoise))
  {
    hide GateTable, PlainPowers, MonomialTable, LogTable, IsPow2, Pow, KeysFor, SampleOK, AccumulatorCGGI.IsTernary,
         DrawsOK, MapReady, GadgetPowers,
         SecretsOf, DigitCount, Suited, RingGSWCryptoParams.GadgetReady, RingGSWCryptoParams.Valid,
         BinFHECryptoParams.Valid, Generated;
    var temp := params.rgsw.baseG;
    assert IsGadgetBase(temp) && 2 <= temp < params.rgsw.Q by { BaseInRange(params); }
    ghost var tables := params.rgsw.gPowerMap;
    keyMap := oldMap;
    var bases := params.rgsw.gPowerMap.Keys;
    GeneratedFirst(oldMap, tables, params, sk, draw, noise, ksNoise);
    while bases != {}
      invariant params.Valid() && params.rgsw.GadgetReady() && params.rgsw.gPowerMap == tables
      invariant Generated(keyMap, oldMap, tables, bases, params, sk, draw, noise, ksNoise)
      invariant tables == map[] ==> params.rgsw.baseG == temp
      decreases |bases|
    {
      SomeElement(bases);
      var k :| k in bases;
      assert k in tables by { StillTabulated(keyMap, oldMap, tables, bases, params, sk, draw, noise, ksNoise, k); }
      var key := KeyGenAt(params, sk, k, draw(k), noise, ksNoise);
      GeneratedNext(keyMap, oldMap, tables, bases, params, sk, draw, noise, ksNoise, k, key);
      keyMap := keyMap[k := key];
      bases := bases - {k};
    }
    GeneratedLast(keyMap, oldMap, tables, params, sk, draw, noise, ksNoise);
    RestoreBase(params, temp);
  }

  lemma SomeElement(s: set<int>)
    requires s != {}
    ensures exists k :: k in s
  {
    if forall k :: k !in s {
      EmptyWithout(s);
    }
  }

  lemma EmptyWithout(s: set<int>)
    requires forall k :: k !in s
    ensures s == {}
  {
    var e: set<int> := {};
    assert forall x: int :: x in s <==> x in e;
  }

  lemma BaseInRange(params: BinFHECryptoParams)
    requires params.Valid()
    ensures IsGadgetBase(params.rgsw.baseG) && 2 <= params.rgsw.baseG < params.rgsw.Q && params.rgsw.Valid()
  {}

  /**
    BTKeyGen on a context whose key map is oldMap: with time optimisation the key of every tabulated base
    is replaced; without it a key is generated only when the map is empty. The default key is the new
    one, else the one already stored under the current base, whatever secret it belongs to, else an
    empty one. The base is as before.
   */
  method BTKeyGen(params: BinFHECryptoParams, sk: LWEPrivateKey, timeOptimization: bool, oldMap: map<int, RingGSWBTKey>,
                  draw: int -> Draws,
                  ghost noise: int, ghost ksNoise: int)
    returns (keyMap: map<int, RingGSWBTKey>, btKey: RingGSWBTKey)
    requires params.Valid() && params.rgsw.GadgetReady() && sk.Valid() && |sk.values| == params.lwe.n
    requires forall b :: DrawsOK(draw(b), params, noise, ksNoise)
    requires params.rgsw.variant == LMKCDEY ==> params.rgsw.numAutoKeys < params.lwe.n
    requires timeOptimization ==> MapReady(params.rgsw.gPowerMap, params.rgsw.Q)
    modifies params.rgsw`baseG, params.rgsw`digitsG, params.rgsw`gPower, params.rgsw`gPowerMap
    ensures !timeOptimization ==> unchanged(params.rgsw)
    ensures params.Valid() && params.rgsw.baseG == old(params.rgsw.baseG) && params.rgsw.baseG in keyMap
    ensures keyMap[params.rgsw.baseG] == btKey
    ensures keyMap.Keys == oldMap.Keys + {params.rgsw.baseG}
                         + (if timeOptimization then old(params.rgsw.gPowerMap).Keys else {})
    ensures forall b :: b in oldMap && !(timeOptimization && b in old(params.rgsw.gPowerMap)) ==> keyMap[b] == oldMap[b]
    ensures timeOptimization && Suited(params, sk) ==> forall b :: b in old(params.rgsw.gPowerMap) ==>
      b in keyMap && KeysFor(keyMap[b], params, b, SecretsOf(sk, draw(b), noise, ksNoise))
    ensures Suited(params, sk) && !timeOptimization && oldMap == map[] ==>
      KeysFor(btKey, params, params.rgsw.baseG, SecretsOf(sk, draw(params.rgsw.baseG), noise, ksNoise))
    ensures Suited(params, sk) && timeOptimization && params.rgsw.baseG in old(params.rgsw.gPowerMap) ==>
      KeysFor(btKey, params, params.rgsw.baseG, SecretsOf(sk, draw(params.rgsw.baseG), noise, ksNoise))
    ensures Suited(params, sk) && timeOptimization && oldMap == map[] && old(params.rgsw.gPowerMap) == map[] ==>
      KeysFor(btKey, params, params.rgsw.baseG, SecretsOf(sk, draw(params.rgsw.baseG), noise, ksNoise))
    ensures !(timeOptimization && params.rgsw.baseG in old(params.rgsw.gPowerMap))
            && (oldMap != map[] || (timeOptimization && old(params.rgsw.gPowerMap) != map[])) ==>
      btKey == if params.rgsw.baseG in oldMap then oldMap[params.rgsw.baseG] else RingGSWBTKey([], [])
    ensures forall sec :: !KeysFor(RingGSWBTKey([], []), params, params.rgsw.baseG, sec)
    ensures Suited(params, sk) && oldMap == map[]
            && (!timeOptimization || params.rgsw.baseG in old(params.rgsw.gPowerMap)
                || old(params.rgsw.gPowerMap) == map[]) ==>
      KeyMap(keyMap, params, SecretMap(sk.Signed(), map b | b in keyMap :: SecretsOf(sk, draw(b), noise, ksNoise)))
  {
    hide KeysFor, Suited, DrawsOK, MapReady, RingGSWCryptoParams.GadgetReady, BinFHECryptoParams.Valid, SecretsOf;
    keyMap := oldMap;
    ghost var tables := params.rgsw.gPowerMap;
    if timeOptimization {
      keyMap := GenerateAll(params, sk, oldMap, draw, noise, ksNoise);
    }
    NoKeys(oldMap);
    NoTables(tables);
    NoKeys(keyMap);
    var base := params.rgsw.baseG;
    keyMap, btKey := DefaultKey(params, sk, keyMap, draw(base), noise, ksNoise);
    EmptyKeyUnusable(params, base);
    if Suited(params, sk) && oldMap == map[] && (!timeOptimization || base in tables || tables == map[]) {
      UsableMap(keyMap, params, sk, draw, noise, ksNoise);
    }
  }

  /** The key stored under the current base; a first key when there is none at all, an empty one when it is missing. */
  method DefaultKey(params: BinFHECryptoParams, sk: LWEPrivateKey, stored: map<int, RingGSWBTKey>, d: Draws,
                    ghost noise: int, ghost ksNoise: int)
    returns (keyMap: map<int, RingGSWBTKey>, btKey: RingGSWBTKey)
    requires params.Valid() && sk.Valid() && |sk.values| == params.lwe.n && DrawsOK(d, params, noise, ksNoise)
    requires params.rgsw.variant == LMKCDEY ==> params.rgsw.numAutoKeys < params.lwe.n
    requires stored == map[] ==> params.rgsw.GadgetReady()
    ensures keyMap == stored[params.rgsw.baseG := btKey]
    ensures params.rgsw.baseG in stored ==> btKey == stored[params.rgsw.baseG]
    ensures params.rgsw.baseG !in stored && stored != map[] ==> btKey == RingGSWBTKey([], [])
    ensures stored == map[] && Suited(params, sk) ==> KeysFor(btKey, params, params.rgsw.baseG,
                                                              SecretsOf(sk, d, noise, ksNoise))
  {
    hide KeysFor, Suited, DrawsOK, RingGSWCryptoParams.GadgetReady, BinFHECryptoParams.Valid, SecretsOf;
    keyMap := stored;
    var temp := params.rgsw.baseG;
    NoKeys(keyMap);
    assert |keyMap| == 0 <==> keyMap.Keys == {};
    if |keyMap| != 0 {
      if temp !in keyMap {
        // reading a missing key inserts an empty one
        keyMap := keyMap[temp := RingGSWBTKey([], [])];
      }
      btKey := keyMap[temp];
    } else {
      btKey := PlainKeyGen(params, sk, d, noise, ksNoise);
      keyMap := keyMap[temp := btKey];
    }
  }

  lemma UsableMap(keyMap: map<int, RingGSWBTKey>, params: BinFHECryptoParams, sk: LWEPrivateKey, draw: int -> Draws,
                  noise: int, ksNoise: int)
    requires forall b :: b in keyMap ==> KeysFor(keyMap[b], params, b, SecretsOf(sk, draw(b), noise, ksNoise))
    ensures KeyMap(keyMap, params, SecretMap(sk.Signed(),
                                             map b | b in keyMap :: SecretsOf(sk, draw(b), noise, ksNoise)))
  {
    hide KeysFor;
  }

  lemma NoKeys(m: map<int, RingGSWBTKey>)
    ensures m == map[] <==> m.Keys == {}
  {}

  lemma NoTables(m: map<int, seq<int>>)
    ensures m == map[] <==> m.Keys == {}
  {}

  method PlainKeyGen(params: BinFHECryptoParams, sk: LWEPrivateKey, d: Draws, ghost noise: int, ghost ksNoise: int)
    returns (key: RingGSWBTKey)
    requires params.Valid() && params.rgsw.GadgetReady() && sk.Valid() && |sk.values| == params.lwe.n
    requires DrawsOK(d, params, noise, ksNoise)
    requires params.rgsw.variant == LMKCDEY ==> params.rgsw.numAutoKeys < params.lwe.n
    ensures Suited(params, sk) ==> KeysFor(key, params, params.rgsw.baseG, SecretsOf(sk, d, noise, ksNoise))
  {
    hide GateTable, PlainPowers, MonomialTable, LogTable, IsPow2, Pow, KeysFor, SampleOK, AccumulatorCGGI.IsTernary;
    key := KeyGen(params, sk, d.skN, d.bs, d.ks, noise, ksNoise);
  }

  method RestoreBase(params: BinFHECryptoParams, base: int)
    requires params.Valid() && IsGadgetBase(base) && 2 <= base < params.rgsw.Q
    modifies params.rgsw`baseG, params.rgsw`digitsG, params.rgsw`gPower, params.rgsw`gPowerMap
    ensures params.Valid() && params.rgsw.baseG == base
    ensures old(params.rgsw.baseG) == base && old(params.rgsw.GadgetReady()) ==> params.rgsw.GadgetReady()
  {
    hide GateTable, PlainPowers, MonomialTable, LogTable, IsPow2, Pow;
    params.rgsw.ChangeBaseG(base);
  }

  lemma EmptyKeyUnusable(params: BinFHECryptoParams, base: int)
    ensures forall sec :: !KeysFor(RingGSWBTKey([], []), params, base, sec)
  {
    forall sec
      ensures !KeysFor(RingGSWBTKey([], []), params, base, sec)
    {
      EmptyKeyOf(params, base, sec);
    }
  }

  lemma EmptyKeyOf(params: BinFHECryptoParams, base: int, sec: Secrets)
    ensures !KeysFor(RingGSWBTKey([], []), params, base, sec)
  {}
}
